/** The wizard step that asks for the name of a new resource group
    (ui/src/wizard/ResourceGroupNameStep.ts): its `prompt`, which fills in
    `newResourceGroupName` on the wizard context, and the validator the input
    box runs on every candidate name. */
module ResourceGroupNameStep {
  import opened Wrappers
  import opened JsString

  /** `resourceGroupNamingRules`, defined beside the resource-group list step
      and not part of this model: the length bounds and the character class
      its `invalidCharsRegExp` rejects. */
  datatype NamingRules = NamingRules(minLength: nat, maxLength: nat, illegal: char -> bool)

  /** The four messages the validator can return, one per rule; the text is
      the localized message, kept here as a tag with its arguments. */
  datatype NameError =
    | InvalidLength(minLength: nat, maxLength: nat)
    | InvalidChars
    | InvalidEndingChar
    | NameAlreadyExists(name: string, subscription: string)

  /** `name ? name.trim() : ''`: `undefined` and the empty string become "",
      anything else is trimmed. */
  function Normalize(name: Option<string>): (r: string)
    ensures name.None? ==> r == ""
    ensures name.Some? ==> r == Trim(name.value)
  {
    match name
    case None => ""
    case Some(s) => if s == "" then "" else Trim(s)
  }

  predicate LengthOk(rules: NamingRules, name: string) {
    rules.minLength <= |name| <= rules.maxLength
  }

  /** `name.match(invalidCharsRegExp) !== null`: some character of the name
      is one the rules reject. */
  predicate HasIllegalChar(rules: NamingRules, name: string) {
    exists k :: 0 <= k < |name| && rules.illegal(name[k])
  }

  predicate EndsWithPeriod(name: string) {
    name != [] && name[|name| - 1] == '.'
  }

  /** The three checks that need no lookup. */
  predicate LocallyValid(rules: NamingRules, name: string) {
    LengthOk(rules, name) && !HasIllegalChar(rules, name) && !EndsWithPeriod(name)
  }

  /** `validateResourceGroupName` (lines 25-39): `None` is `undefined`, i.e.
      the name is accepted. The rules are tried in order, the first one that
      fails decides the message, and `isNameAvailable`, which stands for the
      lookup in the subscription, is consulted last. */
  function Validate(rules: NamingRules, subscriptionDisplayName: string, isNameAvailable: string -> bool,
                    name: Option<string>): (r: Option<NameError>)
    ensures var n := Normalize(name);
            && (r == Some(InvalidLength(rules.minLength, rules.maxLength)) <==> !LengthOk(rules, n))
            && (r == Some(InvalidChars) <==> LengthOk(rules, n) && HasIllegalChar(rules, n))
            && (r == Some(InvalidEndingChar) <==> LengthOk(rules, n) && !HasIllegalChar(rules, n) && EndsWithPeriod(n))
            && (r == Some(NameAlreadyExists(n, subscriptionDisplayName)) <==> LocallyValid(rules, n) && !isNameAvailable(n))
            && (r == None <==> LocallyValid(rules, n) && isNameAvailable(n))
  {
    var n := Normalize(name);
    if |n| < rules.minLength || |n| > rules.maxLength then
      Some(InvalidLength(rules.minLength, rules.maxLength))
    else if HasIllegalChar(rules, n) then
      Some(InvalidChars)
    else if EndsWithPeriod(n) then
      Some(InvalidEndingChar)
    else if !isNameAvailable(n) then
      Some(NameAlreadyExists(n, subscriptionDisplayName))
    else
      None
  }

  /** Line 34 is reached only when lines 28-33 pass: a name that fails a local
      check gets the same answer whatever the lookup would say. */
  lemma LookupOnlyForLocallyValid(rules: NamingRules, subscriptionDisplayName: string,
                                  available1: string -> bool, available2: string -> bool, name: Option<string>)
    requires !LocallyValid(rules, Normalize(name))
    ensures Validate(rules, subscriptionDisplayName, available1, name)
            == Validate(rules, subscriptionDisplayName, available2, name)
            != None
  {
  }

  /** Line 26: the validator sees only the trimmed name, so white space around
      a candidate never changes the verdict. */
  lemma ValidateIgnoresSurroundingWhitespace(rules: NamingRules, subscriptionDisplayName: string,
                                             isNameAvailable: string -> bool, s: string)
    ensures Validate(rules, subscriptionDisplayName, isNameAvailable, Some(s))
            == Validate(rules, subscriptionDisplayName, isNameAvailable, Some(Trim(s)))
  {
    TrimIdempotent(s);
    assert Normalize(Some(s)) == Normalize(Some(Trim(s)));
    ValidateSeesNormalized(rules, subscriptionDisplayName, isNameAvailable, Some(s), Some(Trim(s)));
  }

  lemma ValidateSeesNormalized(rules: NamingRules, subscriptionDisplayName: string,
                               isNameAvailable: string -> bool, a: Option<string>, b: Option<string>)
    requires Normalize(a) == Normalize(b)
    ensures Validate(rules, subscriptionDisplayName, isNameAvailable, a)
            == Validate(rules, subscriptionDisplayName, isNameAvailable, b)
  {
  }

  /** What the input box asks: the suggested value and the prompt text. */
  datatype InputBoxRequest = InputBoxRequest(value: Option<string>, prompt: string)

  const NamePrompt: string := "Enter the name of the new resource group."

  /** The fields of `IResourceGroupWizardContext` the step reads or writes.
      `relatedName` is the value `relatedNameTask` resolves to, `None` when
      there is no task. */
  class ResourceGroupWizardContext {
    var newResourceGroupName: Option<string>
    var relatedName: Option<string>
    var subscriptionDisplayName: string

    constructor(newResourceGroupName: Option<string>, relatedName: Option<string>, subscriptionDisplayName: string)
      ensures this.newResourceGroupName == newResourceGroupName
      ensures this.relatedName == relatedName
      ensures this.subscriptionDisplayName == subscriptionDisplayName
    {
      this.newResourceGroupName := newResourceGroupName;
      this.relatedName := relatedName;
      this.subscriptionDisplayName := subscriptionDisplayName;
    }
  }

  /** A name is truthy when it is set and not "". */
  predicate HasName(name: Option<string>) {
    name.Some? && name.value != ""
  }

  /** `prompt` (lines 12-23). When the context has no name yet, the input box
      is shown with the related name as suggestion; `reply` is what it
      returns, `None` when the user cancels, which makes the step throw
      (`ok` false). The accepted reply is stored trimmed. The context object
      itself is returned. */
  method Prompt(wizardContext: ResourceGroupWizardContext, reply: Option<string>)
    returns (ok: bool, request: Option<InputBoxRequest>, result: ResourceGroupWizardContext)
    modifies wizardContext
    ensures result == wizardContext
    ensures wizardContext.relatedName == old(wizardContext.relatedName)
    ensures wizardContext.subscriptionDisplayName == old(wizardContext.subscriptionDisplayName)
    ensures HasName(old(wizardContext.newResourceGroupName)) ==>
              ok && request == None && wizardContext.newResourceGroupName == old(wizardContext.newResourceGroupName)
    ensures !HasName(old(wizardContext.newResourceGroupName)) ==>
              && request == Some(InputBoxRequest(old(wizardContext.relatedName), NamePrompt))
              && ok == reply.Some?
              && wizardContext.newResourceGroupName
                 == (if reply.Some? then Some(Trim(reply.value)) else old(wizardContext.newResourceGroupName))
  {
    result := wizardContext;
    if HasName(wizardContext.newResourceGroupName) {
      return true, None, result;
    }
    var suggestedName := wizardContext.relatedName;
    request := Some(InputBoxRequest(suggestedName, NamePrompt));
    if reply.None? {
      return false, request, result;
    }
    wizardContext.newResourceGroupName := Some(Trim(reply.value));
    ok := true;
  }

  /** The input box accepts only a reply its validator passes; what `prompt`
      then stores passes the validator too, and is stored already trimmed. */
  lemma StoredNameValid(rules: NamingRules, subscriptionDisplayName: string,
                        isNameAvailable: string -> bool, reply: string)
    requires Validate(rules, subscriptionDisplayName, isNameAvailable, Some(reply)) == None
    ensures Validate(rules, subscriptionDisplayName, isNameAvailable, Some(Trim(reply))) == None
    ensures Trim(Trim(reply)) == Trim(reply)
    ensures LocallyValid(rules, Trim(reply)) && isNameAvailable(Trim(reply))
  {
    ValidateIgnoresSurroundingWhitespace(rules, subscriptionDisplayName, isNameAvailable, reply);
    TrimIdempotent(reply);
  }
}
