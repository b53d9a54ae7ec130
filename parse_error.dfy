/** The error normaliser `parseError` (ui/src/parseError.ts): it turns any
    thrown value into an error type, a message and a "cancelled by the user"
    flag, by a chain of property reads, each falling back to the value found
    before it. */
module ParseError {
  import opened Wrappers
  import opened JsValue
  import opened JsString

  /** What `parseError` calls but does not define. `parse` is `JSON.parse`
      (`None` when it throws), `stringify` is `JSON.stringify` (`None` when it
      throws; an `undefined` result behaves like `""` and is written so), and
      `unknownError` is what `localize('unknownError', 'Unknown Error')`
      returns. */
  datatype Host = Host(
    parse: string -> Option<Value>,
    stringify: Value -> Option<string>,
    unknownError: string)

  /** What `JSON.parse` guarantees and `parseError` relies on without saying
      so: a JSON text whose value is `null` is the word `null` between white
      space, so a text holding `{` never parses to `null`. */
  ghost predicate ParsesLikeJson(host: Host) {
    forall s :: '{' in s && host.parse(s).Some? ==> host.parse(s).value != Null
  }

  /** The record `parseError` returns. The error type is whatever the error's
      code field held, so it need not be a string. */
  datatype ParsedError = ParsedError(errorType: Value, message: string, isUserCancelledError: bool)

  /** How an evaluation ends: with a value, or with an exception escaping. */
  datatype Completion<T> = Normal(value: T) | Throws

  /** The constructor name compared against for user cancellation. */
  const UserCancelledErrorName: string := "UserCancelledError"

  /** The literal text the regular expression /"Errors":\[\s*"([^"]+)"/ starts with. */
  const ErrorsKey: string := "\"Errors\":["

  // ---------------------------------------------------------------------------
  // The helpers
  // ---------------------------------------------------------------------------

  /** `parseIfJson`: a string holding `{` is replaced by what it parses to;
      anything else, and a string that fails to parse, is kept. */
  function ParseIfJson(host: Host, o: Value): (r: Value)
    ensures r == o || (o.Str? && '{' in o.s && host.parse(o.s) == Some(r))
    ensures o.Str? && '{' in o.s && host.parse(o.s).Some? ==> r == host.parse(o.s).value
  {
    if o.Str? && '{' in o.s then
      match host.parse(o.s)
      case Some(v) => v
      case None => o
    else o
  }

  /** `getMessage`: `message` beats `Message`; a falsy one counts as absent,
      and when both are absent (or `o` is falsy) the default is returned. */
  function GetMessage(o: Value, defaultMessage: Value): (r: Value)
    ensures Truthy(Get(o, "message")) ==> r == Get(o, "message")
    ensures !Truthy(Get(o, "message")) && Truthy(Get(o, "Message")) ==> r == Get(o, "Message")
    ensures !Truthy(Get(o, "message")) && !Truthy(Get(o, "Message")) ==> r == defaultMessage
  {
    Or(if Truthy(o) then Or(Get(o, "message"), Get(o, "Message")) else o, defaultMessage)
  }

  /** `getCode`: `code` beats `Code`, which beats `errorCode`; a falsy one counts
      as absent, and when all three are absent the default is returned. */
  function GetCode(o: Value, defaultCode: Value): (r: Value)
    ensures Truthy(Get(o, "code")) ==> r == Get(o, "code")
    ensures !Truthy(Get(o, "code")) && Truthy(Get(o, "Code")) ==> r == Get(o, "Code")
    ensures !Truthy(Get(o, "code")) && !Truthy(Get(o, "Code")) && Truthy(Get(o, "errorCode"))
            ==> r == Get(o, "errorCode")
    ensures !Truthy(Get(o, "code")) && !Truthy(Get(o, "Code")) && !Truthy(Get(o, "errorCode"))
            ==> r == defaultCode
  {
    Or(if Truthy(o) then Or(Or(Get(o, "code"), Get(o, "Code")), Get(o, "errorCode")) else o, defaultCode)
  }

  /** `unpackErrorFromField`: the property `prop` of `error`, parsed first when
      it is a string holding `{`, if it then is of type "object"; otherwise
      `error` itself. A failed parse leaves the string, which is not an object,
      so `error` comes back. */
  function UnpackErrorFromField(host: Host, error: Value, prop: string): (r: Value)
    ensures r == error
            || (Truthy(error) && Truthy(Get(error, prop)) && IsTypeofObject(r)
                && (r == Get(error, prop)
                    || (Get(error, prop).Str? && host.parse(Get(error, prop).s) == Some(r))))
  {
    var field := if Truthy(error) then Get(error, prop) else error;
    if Truthy(field) then
      // lines 95-101 are `parseIfJson` written out again
      var parsed := ParseIfJson(host, field);
      if IsTypeofObject(parsed) then parsed else error
    else error
  }

  /** The three ways `unpackErrorFromField` can end, for a truthy `error`. */
  lemma UnpackErrorFromFieldCases(host: Host, error: Value, prop: string)
    requires Truthy(error)
    ensures Get(error, prop).Obj? ==> UnpackErrorFromField(host, error, prop) == Get(error, prop)
    ensures var f := Get(error, prop);
            f.Str? && '{' in f.s && host.parse(f.s).Some? && IsTypeofObject(host.parse(f.s).value)
            ==> UnpackErrorFromField(host, error, prop) == host.parse(f.s).value
    ensures var f := Get(error, prop);
            !f.Obj?
            && !(f.Str? && '{' in f.s && host.parse(f.s).Some? && IsTypeofObject(host.parse(f.s).value))
            ==> UnpackErrorFromField(host, error, prop) == error
  {
  }

  // ---------------------------------------------------------------------------
  // unpackErrorsInMessage: the regular expression as a scanner
  // ---------------------------------------------------------------------------

  /** The first index at or after `j` that does not hold white space, or |s|:
      the greedy `\s*`. */
  function SkipWhitespace(s: string, j: nat): (k: nat)
    requires j <= |s|
    ensures j <= k <= |s| && AllWhitespace(s[j..k])
    ensures k == |s| || !IsWhitespace(s[k])
    decreases |s| - j
  {
    if j < |s| && IsWhitespace(s[j]) then SkipWhitespace(s, j + 1) else j
  }

  /** The first index at or after `j` that holds a double quote, or |s|: the
      greedy `[^"]*`. */
  function SkipNonQuote(s: string, j: nat): (k: nat)
    requires j <= |s|
    ensures j <= k <= |s| && '"' !in s[j..k]
    ensures k == |s| || s[k] == '"'
    decreases |s| - j
  {
    if j < |s| && s[j] != '"' then SkipNonQuote(s, j + 1) else j
  }

  /** Whether /"Errors":\[\s*"([^"]+)"/ matches `s` at position `i` with white
      space `ws` and captured text `c`. */
  predicate IsMatchAt(s: string, i: nat, ws: string, c: string) {
    var p := i + |ErrorsKey|;   // where `\s*` starts
    var q := p + |ws|;          // the opening quote
    var e := q + 1 + |c|;       // the closing quote
    && AllWhitespace(ws) && c != [] && '"' !in c
    && e < |s|
    && s[i..p] == ErrorsKey && s[p..q] == ws && s[q] == '"' && s[q + 1..e] == c && s[e] == '"'
  }

  /** The text the regular expression captures when it is tried at position `i`
      of `s`, or `None` when it does not match there. */
  function MatchAt(s: string, i: nat): (r: Option<string>)
    requires i <= |s|
    ensures r.Some? ==> r.value != [] && '"' !in r.value
  {
    if i + |ErrorsKey| <= |s| && s[i..i + |ErrorsKey|] == ErrorsKey then
      var j := SkipWhitespace(s, i + |ErrorsKey|);
      if j < |s| && s[j] == '"' then
        var k := SkipNonQuote(s, j + 1);
        if j + 1 < k < |s| then Some(s[j + 1..k]) else None
      else None
    else None
  }

  /** What the scanner finds at `i` is a match of the regular expression. */
  lemma MatchAtSound(s: string, i: nat)
    requires i <= |s| && MatchAt(s, i).Some?
    ensures exists ws :: IsMatchAt(s, i, ws, MatchAt(s, i).value)
  {
    var j := SkipWhitespace(s, i + |ErrorsKey|);
    var k := SkipNonQuote(s, j + 1);
    assert IsMatchAt(s, i, s[i + |ErrorsKey|..j], s[j + 1..k]);
  }

  /** Every match of the regular expression at `i` is found by the scanner, with
      the same captured text. */
  lemma MatchAtComplete(s: string, i: nat, ws: string, c: string)
    requires i <= |s| && IsMatchAt(s, i, ws, c)
    ensures MatchAt(s, i) == Some(c)
  {
    var p := i + |ErrorsKey|;
    var q := p + |ws|;
    var j := SkipWhitespace(s, p);
    assert j == q;
    var e := q + 1 + |c|;
    var k := SkipNonQuote(s, j + 1);
    assert k == e;
  }

  /** The leftmost position at or after `i` where the regular expression
      matches. */
  function Search(s: string, i: nat): (r: Option<nat>)
    requires i <= |s|
    ensures r.Some? ==> i <= r.value <= |s| && MatchAt(s, r.value).Some?
    ensures forall k :: i <= k <= |s| && (r.None? || k < r.value) ==> MatchAt(s, k).None?
    decreases |s| - i
  {
    if MatchAt(s, i).Some? then Some(i)
    else if i == |s| then None
    else Search(s, i + 1)
  }

  /** `message.match(/"Errors":\[\s*"([^"]+)"/)` followed by taking group 1. */
  function FirstErrorsEntry(s: string): Option<string> {
    match Search(s, 0)
    case Some(k) => MatchAt(s, k)
    case None => None
  }

  /** The text found is that of the leftmost match of the regular expression,
      it is not empty and holds no double quote; and nothing is found exactly
      when the regular expression matches nowhere. */
  lemma FirstErrorsEntryIsLeftmostMatch(s: string)
    ensures FirstErrorsEntry(s).Some? ==>
              var c := FirstErrorsEntry(s).value;
              && c != [] && '"' !in c
              && (exists i: nat, ws :: IsMatchAt(s, i, ws, c)
                   && forall i': nat, ws', c' :: i' < i ==> !IsMatchAt(s, i', ws', c'))
    ensures FirstErrorsEntry(s).None? <==> forall i: nat, ws, c :: !IsMatchAt(s, i, ws, c)
  {
    match Search(s, 0)
    case Some(i) =>
      MatchAtSound(s, i);
      var ws :| IsMatchAt(s, i, ws, MatchAt(s, i).value);
      forall i': nat, ws', c' | i' < i ensures !IsMatchAt(s, i', ws', c') {
        if IsMatchAt(s, i', ws', c') {
          MatchAtComplete(s, i', ws', c');
        }
      }
    case None =>
      forall i: nat, ws, c ensures !IsMatchAt(s, i, ws, c) {
        if IsMatchAt(s, i, ws, c) {
          MatchAtComplete(s, i, ws, c);
        }
      }
  }

  /** `unpackErrorsInMessage`. A falsy message is returned as it is. A string
      message is replaced by the first entry of an embedded `"Errors":[...]`
      list when there is one. Any other truthy message has no `match` method,
      so calling it throws. */
  function UnpackErrorsInMessage(message: Value): (r: Completion<Value>)
    ensures !Truthy(message) ==> r == Normal(message)
    ensures message.Str? ==> r.Normal? && r.value.Str? && (r.value.s == "" <==> message.s == "")
    ensures Truthy(message) && !message.Str? ==> r == Throws
  {
    if Truthy(message) then
      if message.Str? then
        match FirstErrorsEntry(message.s)
        case Some(first) => Normal(Str(first))
        case None => Normal(message)
      else Throws
    else Normal(message)
  }

  /** A message holding a match is replaced by the text of its leftmost match. */
  lemma UnpackErrorsTakesLeftmostEntry(s: string, i: nat, ws: string, c: string)
    requires IsMatchAt(s, i, ws, c)
    requires forall i': nat, ws', c' :: i' < i ==> !IsMatchAt(s, i', ws', c')
    ensures UnpackErrorsInMessage(Str(s)) == Normal(Str(c))
  {
    MatchAtComplete(s, i, ws, c);
    match Search(s, 0)
    case Some(k) =>
      if k < i {
        MatchAtSound(s, k);
      }
    case None =>
  }

  /** A message without a match is left as it is. */
  lemma UnpackErrorsKeepsUnmatched(s: string)
    requires forall i: nat, ws, c :: !IsMatchAt(s, i, ws, c)
    ensures UnpackErrorsInMessage(Str(s)) == Normal(Str(s))
  {
    FirstErrorsEntryIsLeftmostMatch(s);
  }

  // ---------------------------------------------------------------------------
  // parseError
  // ---------------------------------------------------------------------------

  /** The locals `errorType`, `message` and `error` of `parseError` once one of
      its two branches has run. */
  datatype Locals = Locals(errorType: Value, message: Value, error: Value)

  /** Lines 16-17: the constructor's name, unless the constructor is `Object`
      itself (then `errorType` keeps its initial `''`). */
  function ConstructorName(error: Value): Value
    requires error.Obj?
  {
    match error.ctor
    case None => Str("")
    case Some(name) => Str(name)
  }

  /** Lines 24-25: look through `response`, then through `body`. The result is
      of type "object" (possibly `null`, which `JSON.parse` can yield). */
  function Unwrap(host: Host, error: Value): (r: Value)
    requires error.Obj?
    ensures IsTypeofObject(r)
  {
    UnpackErrorFromField(host, UnpackErrorFromField(host, error, "response"), "body")
  }

  /** Lines 16-29: the code and message read off the object itself, and, when
      either is still missing, off what `response` and then `body` unwrap to.
      The error left behind is the object itself or what it unwraps to. */
  function FieldsRead(host: Host, error: Value): (r: Locals)
    requires error.Obj?
    ensures r.error == error || r.error == Unwrap(host, error)
    ensures IsTypeofObject(r.error)
  {
    var errorType := GetCode(error, ConstructorName(error));
    var message := GetMessage(error, Str(""));
    if !Truthy(errorType) || !Truthy(message) then
      var error' := Unwrap(host, error);
      Locals(GetCode(error', errorType), GetMessage(error', message), error')
    else Locals(errorType, message, error)
  }

  /** Lines 31-34: the error's own `message`, parsed when it is a string
      holding `{`, is read for a code and a message, which override those read
      so far; what it lacks keeps the earlier value. */
  function JsonRead(host: Host, l: Locals): (r: Locals)
    requires !l.error.Null?
    ensures r.error == l.error
    ensures var p := ParseIfJson(host, Get(l.error, "message"));
            && (Truthy(GetCode(p, Undefined)) ==> r.errorType == GetCode(p, Undefined))
            && (!Truthy(GetCode(p, Undefined)) ==> r.errorType == l.errorType)
            && (Truthy(GetMessage(p, Undefined)) ==> r.message == GetMessage(p, Undefined))
            && (!Truthy(GetMessage(p, Undefined)) ==> r.message == l.message)
  {
    var parsedMessage := ParseIfJson(host, Get(l.error, "message"));
    Locals(GetCode(parsedMessage, l.errorType), GetMessage(parsedMessage, l.message), l.error)
  }

  /** Lines 16-36, the branch for a non-null object. Line 32 reads
      `error.message`, which throws when unwrapping has landed on `null`, and
      line 36 falls back to `JSON.stringify` of the error, which can throw. */
  function ObjectBranch(host: Host, error: Value): (r: Completion<Locals>)
    requires error.Obj?
    ensures r.Normal? ==> r.value.error.Obj? && r.value.error == FieldsRead(host, error).error
  {
    var l := FieldsRead(host, error);
    if l.error.Null? then Throws
    else
      var j := JsonRead(host, l);
      if Truthy(j.message) then Normal(j)
      else
        match host.stringify(l.error)
        case None => Throws
        case Some(text) => Normal(Locals(j.errorType, Str(text), l.error))
  }

  /** Lines 12-40: the two branches of `parseError`'s `if`, for an object and
      for any other value with a non-blank string form; a value taking neither
      leaves `errorType` and `message` at `''`. */
  function Branches(host: Host, error: Value): (r: Completion<Locals>)
    ensures r.Normal? ==> r.value.error.Obj? == error.Obj?
    ensures !error.Obj? ==> r.Normal? && r.value.message.Str? && r.value.error == error
  {
    if error.Obj? then ObjectBranch(host, error)
    else if !error.Undefined? && !error.Null? && Trim(PrimitiveToString(error)) != "" then
      Normal(Locals(Str(TypeOf(error)), Str(PrimitiveToString(error)), error))
    else Normal(Locals(Str(""), Str(""), error))
  }

  /** Lines 45-53: the error type falls back to `typeof error`, an empty
      message to the localized "Unknown Error", and the cancellation flag
      compares the error type with "UserCancelledError" and nothing else. */
  function Finish(errorType: Value, message: string, error: Value, unknownError: string): (r: ParsedError)
    ensures Truthy(errorType) ==> r.errorType == errorType
    ensures !Truthy(errorType) ==> r.errorType == Str(TypeOf(error))
    ensures r.message == if message != "" then message else unknownError
    ensures r.isUserCancelledError <==> r.errorType == Str(UserCancelledErrorName)
  {
    var finalType := Or(errorType, Str(TypeOf(error)));
    ParsedError(finalType, if message != "" then message else unknownError, finalType == Str(UserCancelledErrorName))
  }

  /** `parseError`. When it returns, the error type is truthy (it falls back to
      `typeof error`), the message is non-empty as long as the localized
      "Unknown Error" text is, and the cancellation flag compares the error
      type's name with "UserCancelledError" and nothing else. It throws
      exactly when the object branch throws, or leaves a truthy message that
      is not a string for line 81 to call `match` on. */
  function ParseError(host: Host, error: Value): (r: Completion<ParsedError>)
    ensures r.Normal? ==> Truthy(r.value.errorType)
    ensures r.Normal? && host.unknownError != "" ==> r.value.message != ""
    ensures r.Normal? ==>
              (r.value.isUserCancelledError <==> r.value.errorType == Str(UserCancelledErrorName))
    ensures r.Throws? <==> error.Obj? && match ObjectBranch(host, error)
                                        case Throws => true
                                        case Normal(l) => Truthy(l.message) && !l.message.Str?
  {
    match Branches(host, error)
    case Throws => Throws
    case Normal(l) =>
      match UnpackErrorsInMessage(l.message)
      case Throws => Throws
      case Normal(message) => Normal(Finish(l.errorType, if Truthy(message) then message.s else "", l.error, host.unknownError))
  }

  // ---------------------------------------------------------------------------
  // The corrected message step
  // ---------------------------------------------------------------------------

  /** `unpackErrorsInMessage` as evidently intended: a string message is
      treated exactly as line 81 treats it, and any other message, which has
      no `match` method, is left to the "Unknown Error" fallback. */
  function UnpackErrorsInMessageGuarded(message: Value): (r: string)
    ensures message.Str? ==> UnpackErrorsInMessage(message) == Normal(Str(r))
    ensures !message.Str? ==> r == ""
  {
    if message.Str? then
      match FirstErrorsEntry(message.s)
      case Some(first) => first
      case None => message.s
    else ""
  }

  /** `parseError` with the corrected message step. It returns whatever
      `parseError` returns whenever that does not throw, and throws only where
      the object branch throws. */
  function ParseErrorGuarded(host: Host, error: Value): (r: Completion<ParsedError>)
    ensures ParseError(host, error).Normal? ==> r == ParseError(host, error)
    ensures r.Throws? <==> error.Obj? && ObjectBranch(host, error).Throws?
    ensures r.Normal? ==> Truthy(r.value.errorType)
    ensures r.Normal? && host.unknownError != "" ==> r.value.message != ""
  {
    match Branches(host, error)
    case Throws => Throws
    case Normal(l) => Normal(Finish(l.errorType, UnpackErrorsInMessageGuarded(l.message), l.error, host.unknownError))
  }

  // ---------------------------------------------------------------------------
  // Properties of parseError
  // ---------------------------------------------------------------------------

  /** No code (`code`, `Code` or `errorCode`) and no message (`message` or
      `Message`) can be read off `v`. */
  predicate CarriesNothing(v: Value) {
    && !Truthy(Get(v, "code")) && !Truthy(Get(v, "Code")) && !Truthy(Get(v, "errorCode"))
    && !Truthy(Get(v, "message")) && !Truthy(Get(v, "Message"))
  }

  /** An object with a non-empty string `code` and a non-empty string `message`
      yields exactly that code and that message, unless the message parses to
      JSON that carries a code or a message, or embeds an `"Errors"` list. */
  lemma CodeAndMessageTaken(host: Host, error: Value, code: string, message: string)
    requires error.Obj? && Get(error, "code") == Str(code) && Get(error, "message") == Str(message)
    requires code != "" && message != ""
    requires CarriesNothing(ParseIfJson(host, Str(message)))
    requires forall i: nat, ws, c :: !IsMatchAt(message, i, ws, c)
    ensures ParseError(host, error)
            == Normal(ParsedError(Str(code), message, code == UserCancelledErrorName))
  {
    UnpackErrorsKeepsUnmatched(message);
  }

  /** An object built by a named constructor, with no code anywhere and a plain
      message, gets the constructor's name as its error type. */
  lemma ConstructorNameTaken(host: Host, name: string, fields: map<string, Value>, message: string)
    requires name != "" && message != "" && '{' !in message
    requires var error := Obj(Some(name), fields);
             && !Truthy(Get(error, "code")) && !Truthy(Get(error, "Code")) && !Truthy(Get(error, "errorCode"))
             && Get(error, "message") == Str(message)
    requires forall i: nat, ws, c :: !IsMatchAt(message, i, ws, c)
    ensures ParseError(host, Obj(Some(name), fields))
            == Normal(ParsedError(Str(name), message, name == UserCancelledErrorName))
  {
    UnpackErrorsKeepsUnmatched(message);
  }

  /** A plain object (constructor `Object`) gets no name from its constructor:
      with no code anywhere and nothing to unwrap, its error type ends as the
      `typeof` fallback "object". */
  lemma PlainObjectTypedObject(host: Host, fields: map<string, Value>, message: string)
    requires message != "" && '{' !in message
    requires var error := Obj(None, fields);
             && !Truthy(Get(error, "code")) && !Truthy(Get(error, "Code")) && !Truthy(Get(error, "errorCode"))
             && !Truthy(Get(error, "response")) && !Truthy(Get(error, "body"))
             && Get(error, "message") == Str(message)
    requires forall i: nat, ws, c :: !IsMatchAt(message, i, ws, c)
    ensures ParseError(host, Obj(None, fields)) == Normal(ParsedError(Str("object"), message, false))
  {
    UnpackErrorsKeepsUnmatched(message);
  }

  /** `response` and `body` are looked at only when the error type or the
      message is still empty: once both are found, removing those two fields
      changes nothing. */
  lemma UnwrapOnlyWhenIncomplete(host: Host, ctor: Option<string>, fields: map<string, Value>)
    requires var error := Obj(ctor, fields);
             Truthy(GetCode(error, ConstructorName(error))) && Truthy(GetMessage(error, Str("")))
    ensures ParseError(host, Obj(ctor, fields))
            == ParseError(host, Obj(ctor, fields - {"response", "body"}))
  {
    var error, stripped := Obj(ctor, fields), Obj(ctor, fields - {"response", "body"});
    forall key | key != "response" && key != "body" ensures Get(error, key) == Get(stripped, key) { }
    var t, m := GetCode(error, ConstructorName(error)), GetMessage(error, Str(""));
    assert FieldsRead(host, error) == Locals(t, m, error);
    assert FieldsRead(host, stripped) == Locals(t, m, stripped) by {
      assert GetCode(stripped, ConstructorName(stripped)) == t && GetMessage(stripped, Str("")) == m;
    }
    var j := JsonRead(host, Locals(t, m, error));
    assert Truthy(j.message);
    assert Branches(host, error) == Normal(j);
    assert Branches(host, stripped) == Normal(Locals(j.errorType, j.message, stripped));
  }

  /** The serialized envelope of the Azure SDK: `{response: {body: "<json>"}}`
      unwraps two levels and yields the code and message inside the JSON, as
      long as that message is plain text. */
  lemma ResponseBodyUnwrapped(host: Host, json: string, code: string, message: string)
    requires '{' in json && code != "" && message != ""
    requires host.parse(json) == Some(Obj(None, map["code" := Str(code), "message" := Str(message)]))
    requires CarriesNothing(ParseIfJson(host, Str(message)))
    requires forall i: nat, ws, c :: !IsMatchAt(message, i, ws, c)
    ensures ParseError(host, Obj(None, map["response" := Obj(None, map["body" := Str(json)])]))
            == Normal(ParsedError(Str(code), message, code == UserCancelledErrorName))
  {
    var body := Obj(None, map["code" := Str(code), "message" := Str(message)]);
    var error := Obj(None, map["response" := Obj(None, map["body" := Str(json)])]);
    EnvelopeFieldsRead(host, json, code, message);
    assert Branches(host, error) == Normal(Locals(Str(code), Str(message), body)) by {
      assert JsonRead(host, Locals(Str(code), Str(message), body)) == Locals(Str(code), Str(message), body);
    }
    UnpackErrorsKeepsUnmatched(message);
  }

  /** The field reads of that envelope: no code or message on the outside,
      so `response` and then `body` are unwrapped, and the parsed body
      supplies both. */
  lemma EnvelopeFieldsRead(host: Host, json: string, code: string, message: string)
    requires '{' in json && code != "" && message != ""
    requires host.parse(json) == Some(Obj(None, map["code" := Str(code), "message" := Str(message)]))
    ensures var body := Obj(None, map["code" := Str(code), "message" := Str(message)]);
            FieldsRead(host, Obj(None, map["response" := Obj(None, map["body" := Str(json)])]))
            == Locals(Str(code), Str(message), body)
  {
    var body := Obj(None, map["code" := Str(code), "message" := Str(message)]);
    var response := Obj(None, map["body" := Str(json)]);
    var error := Obj(None, map["response" := response]);
    assert GetCode(error, ConstructorName(error)) == Str("");
    assert UnpackErrorFromField(host, error, "response") == response;
    assert UnpackErrorFromField(host, response, "body") == body;
  }

  /** A primitive other than `undefined` and `null` whose string form is not
      blank: its `typeof` is the error type and its string form the message
      (before the `"Errors"` entry is taken out). */
  lemma PrimitiveWithText(host: Host, error: Value)
    requires error.Bool? || error.Num? || error.Str?
    requires Trim(PrimitiveToString(error)) != ""
    ensures ParseError(host, error).Normal?
    ensures ParseError(host, error).value.errorType == Str(TypeOf(error))
    ensures UnpackErrorsInMessage(Str(PrimitiveToString(error)))
            == Normal(Str(ParseError(host, error).value.message))
  {
    assert Branches(host, error) == Normal(Locals(Str(TypeOf(error)), Str(PrimitiveToString(error)), error));
    ParseErrorOfText(host, error, PrimitiveToString(error));
  }

  /** The tail of `parseError` (lines 42-53) once a branch has left a non-empty
      string message and a primitive's `typeof` as error type. */
  lemma ParseErrorOfText(host: Host, error: Value, text: string)
    requires !error.Obj? && text != ""
    requires Branches(host, error) == Normal(Locals(Str(TypeOf(error)), Str(text), error))
    ensures UnpackErrorsInMessage(Str(text)).Normal?
    ensures ParseError(host, error)
            == Normal(ParsedError(Str(TypeOf(error)), UnpackErrorsInMessage(Str(text)).value.s, false))
  {
    var u := UnpackErrorsInMessage(Str(text));
    assert u.Normal? && u.value.Str? && u.value.s != "";
    assert Or(Str(TypeOf(error)), Str(TypeOf(error))) == Str(TypeOf(error));
    assert Str(TypeOf(error)) != Str(UserCancelledErrorName) by {
      assert |TypeOf(error)| < |UserCancelledErrorName|;
    }
  }

  /** `undefined`, `null` and a primitive whose string form is blank yield the
      localized "Unknown Error" and their `typeof` as error type. */
  lemma NothingUsableFallsBack(host: Host, error: Value)
    requires error.Undefined? || error.Null?
             || ((error.Bool? || error.Num? || error.Str?) && Trim(PrimitiveToString(error)) == "")
    ensures ParseError(host, error) == Normal(ParsedError(Str(TypeOf(error)), host.unknownError, false))
  {
  }

  /** Lines 42-46: whatever branch produced the message, when it is a string
      embedding an `"Errors"` list the result's message is the first entry of
      that list, taken from the leftmost match. */
  lemma ErrorsEntryReplacesMessage(host: Host, error: Value, s: string, i: nat, ws: string, c: string)
    requires Branches(host, error).Normal? && Branches(host, error).value.message == Str(s)
    requires IsMatchAt(s, i, ws, c)
    requires forall i': nat, ws', c' :: i' < i ==> !IsMatchAt(s, i', ws', c')
    ensures ParseError(host, error).Normal? && ParseError(host, error).value.message == c
  {
    UnpackErrorsTakesLeftmostEntry(s, i, ws, c);
  }

  /** A truthy message that is not a string reaches `message.match`, which is
      not a function, so `parseError` throws (contrary to its type, which
      promises a string). */
  lemma NumericMessageThrows(host: Host)
    ensures ParseError(host, Obj(None, map["code" := Str("E"), "message" := Num("5")])) == Throws
  {
  }

  /** Lines 31-34: once the fields are read, the error's own `message`, parsed
      as JSON when it holds `{`, overrides them: a truthy message in it becomes
      the message and a truthy code in it the error type, whatever the error
      and its unwrapped envelope held. */
  lemma ParsedMessageOverrides(host: Host, error: Value)
    requires error.Obj? && !FieldsRead(host, error).error.Null?
    ensures var p := ParseIfJson(host, Get(FieldsRead(host, error).error, "message"));
            && (Truthy(GetMessage(p, Undefined)) ==>
                  ObjectBranch(host, error).Normal? && ObjectBranch(host, error).value.message == GetMessage(p, Undefined))
            && (Truthy(GetCode(p, Undefined)) && ObjectBranch(host, error).Normal? ==>
                  ObjectBranch(host, error).value.errorType == GetCode(p, Undefined))
  {
  }

  /** Line 36: an object with no truthy message of its own, and none in what
      it unwraps to (so none in a parsed message either), gets the
      `JSON.stringify` text of the unwrapped error as its message, and throws
      when that throws. */
  lemma StringifyFallback(host: Host, error: Value)
    requires error.Obj? && !Truthy(Get(error, "message")) && !Truthy(Get(error, "Message"))
    requires var u := Unwrap(host, error);
             !u.Null? && !Truthy(Get(u, "message")) && !Truthy(Get(u, "Message"))
    ensures var u := Unwrap(host, error);
            var errorType := GetCode(u, GetCode(error, ConstructorName(error)));
            ObjectBranch(host, error) == match host.stringify(u)
                                         case None => Throws
                                         case Some(text) => Normal(Locals(errorType, Str(text), u))
  {
    var u := Unwrap(host, error);
    assert FieldsRead(host, error).error == u;
    assert ParseIfJson(host, Get(u, "message")) == Get(u, "message");
  }

  /** `unpackErrorFromField` on an object never yields `null` when `parse`
      behaves like `JSON.parse`. */
  lemma UnpackNeverNull(host: Host, error: Value, prop: string)
    requires ParsesLikeJson(host) && error.Obj?
    ensures UnpackErrorFromField(host, error, prop).Obj?
  {
  }

  /** Hence unwrapping never lands on `null`, and the only throw left in the
      object branch is that of `JSON.stringify`. */
  lemma ObjectBranchThrowsOnlyOnStringify(host: Host, error: Value)
    requires ParsesLikeJson(host) && error.Obj?
    ensures !Unwrap(host, error).Null?
    ensures ObjectBranch(host, error).Throws? <==>
              var l := FieldsRead(host, error);
              !Truthy(JsonRead(host, l).message) && host.stringify(l.error).None?
  {
    UnpackNeverNull(host, error, "response");
    UnpackNeverNull(host, UnpackErrorFromField(host, error, "response"), "body");
  }

  /** With the corrected message step, `parseError` throws only when
      `JSON.stringify` throws on an object that yields no message. */
  lemma GuardedThrowsOnlyOnStringify(host: Host, error: Value)
    requires ParsesLikeJson(host)
    ensures ParseErrorGuarded(host, error).Throws? <==>
              error.Obj? && var l := FieldsRead(host, error);
                            !Truthy(JsonRead(host, l).message) && host.stringify(l.error).None?
  {
    if error.Obj? {
      ObjectBranchThrowsOnlyOnStringify(host, error);
    }
  }

  /** The input that makes `parseError` throw gets the localized "Unknown
      Error" once the message step is corrected. */
  lemma NumericMessageGuarded(host: Host)
    ensures ParseErrorGuarded(host, Obj(None, map["code" := Str("E"), "message" := Num("5")]))
            == Normal(ParsedError(Str("E"), host.unknownError, false))
  {
    var error := Obj(None, map["code" := Str("E"), "message" := Num("5")]);
    assert FieldsRead(host, error) == Locals(Str("E"), Num("5"), error);
    assert Branches(host, error) == Normal(Locals(Str("E"), Num("5"), error));
  }
}
