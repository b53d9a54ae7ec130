# vscode-azuretools `ui`: error normaliser, wizard runner, resource-group name step

A Dafny model of three small sequential components of the `ui` package of
vscode-azuretools, with proofs of what they promise.

- **`parseError`** (`parse_error.dfy`, module `ParseError`; JavaScript values in
  `js_value.dfy`, `trim` and white space in `js_string.dfy`). It turns any thrown
  value into `{errorType, message, isUserCancelledError}`. It reads the code
  (`code`, then `Code`, then `errorCode`) and the message (`message`, then
  `Message`). When either is still missing, it looks through `response` and
  then `body`. Next it parses a JSON-looking message and reads the code and
  message again. It falls back to `JSON.stringify`, then pulls the first entry
  out of an embedded `"Errors":["..."]` list, and finally falls back to
  `typeof` and the localized "Unknown Error". The model is written as pure
  functions. The regular expression `/"Errors":\[\s*"([^"]+)"/` is an explicit
  scanner (`MatchAt`, `Search`), proved sound and complete against a
  declarative match predicate (`IsMatchAt`).
- **`AzureWizard<T>`** (`azure_wizard.dfy`, module `Wizard`; properties in
  `wizard_order.dfy`, module `WizardOrder`). It is a class holding the prompt
  steps, the execute steps, the growing `subWizards` list and the held context.
  `Prompt` and `Execute` are methods with loops. They write
  `lastStepAttempted` on an `ActionContext` object and return a ghost event
  trace. Each method is proved equal to a left fold over the steps
  (`PromptRun`, `ExecuteRun`). The fold takes the outcomes of the sub-wizards'
  calls as parameters. The methods prove that each such outcome is a real
  `prompt` or `execute` of that sub-wizard (`PromptedBy`, `ExecutedBy`): the
  sub-wizard goes from the state it started in to the state its own fold
  gives. `PromptVisits` and `ExecuteVisits` list those calls in order, and
  `StatesChain` ties them to the heap. A sub-wizard's first call starts from
  what it held before the method. Each later call on it starts where the one
  before ended. It ends holding what its last call left, which is what its
  own fold computed on that call (`PromptLeavesFoldResult`,
  `ExecuteLeavesFoldResult`). Sub-wizards that no call visits are left
  unchanged, including those already in `subWizards`. Ordering, depth-first
  visiting, threading of the context and stopping at the first throw are then
  proved about the folds.
  These proofs use reference definitions that simply thread each step's
  result (`ThreadPrompts`, `Exposed`, `ThreadExecutes`).
- **`ResourceGroupNameStep`** (`resource_group_name_step.dfy`). `Prompt` is a
  method that fills in `newResourceGroupName` on a context object in place.
  `Validate` is the validator's rule chain as a function.

Exceptions are values here. A step's `prompt` or `execute` returns `None` when
it throws. `parseError` returns `Completion.Throws` when it throws.

The code as written can make `parseError` throw in the three ways below,
which the model covers. The model follows the code.

- `JSON.stringify` throws at line 36.
- A truthy message that is not a string reaches `message.match` at line 81
  (see "## Findings").
- Unwrapping lands on `null`, and line 32 then reads `null.message`. This
  needs a `parse` that returns `null` for a text holding `{`, which
  `JSON.parse` never does. `Host.parse` is any function here, so the model
  keeps this case. For a `parse` that behaves like `JSON.parse`
  (`ParsesLikeJson`) it cannot happen (`UnpackNeverNull`,
  `ObjectBranchThrowsOnlyOnStringify`).

Line 12 types the error type as a string. In JavaScript it is whatever the
code field held, so `ParsedError.errorType` is a `Value`.

## Model

| member | source | states |
|---|---|---|
| `JsValue.TypeOf` | ui/src/parseError.ts:45 | `typeof` is never empty and is "object" exactly for objects and `null` |
| `JsString.TrimStart` | ui/src/wizard/ResourceGroupNameStep.ts:26 | the result is a suffix of the input, everything cut off is white space, and it does not start with white space |
| `JsString.TrimEnd` | ui/src/wizard/ResourceGroupNameStep.ts:26 | the result is a prefix of the input, everything cut off is white space, and it does not end with white space |
| `JsString.Trim` | ui/src/wizard/ResourceGroupNameStep.ts:26 | `trim` (leading then trailing white space cut off) is no longer than its input and neither starts nor ends with white space |
| `JsString.TrimIdempotent` | ui/src/wizard/ResourceGroupNameStep.ts:19 | trimming an already trimmed name changes nothing |
| `ParseError.ParseIfJson` | ui/src/parseError.ts:57-67 | a string holding `{` becomes what `JSON.parse` returns; any other value, and a failed parse, keeps the input |
| `ParseError.GetMessage` | ui/src/parseError.ts:69-71 | a truthy `message` wins, else a truthy `Message`, else the default; falsy fields count as absent |
| `ParseError.GetCode` | ui/src/parseError.ts:73-75 | a truthy `code` wins over `Code`, which wins over `errorCode`, else the default |
| `ParseError.UnpackErrorFromField` | ui/src/parseError.ts:91-109 | the result is the input itself, or the truthy field (parsed when it was a JSON string) provided it is of type "object" |
| `ParseError.UnpackErrorFromFieldCases` | ui/src/parseError.ts:93-108 | an object field is returned; a string field that parses to an object returns the parse; every other case, including a failed parse, returns the input |
| `ParseError.SkipWhitespace` | ui/src/parseError.ts:81 | the `\s*` of the pattern: the first non-white-space index, with only white space skipped |
| `ParseError.SkipNonQuote` | ui/src/parseError.ts:81 | the `[^"]` run of the pattern: the first quote index, with no quote skipped |
| `ParseError.MatchAt` | ui/src/parseError.ts:81 | a capture found at one position is non-empty and holds no quote |
| `ParseError.MatchAtSound` | ui/src/parseError.ts:81 | what the scanner finds at a position is a match of the regular expression there |
| `ParseError.MatchAtComplete` | ui/src/parseError.ts:81 | every match of the regular expression at a position is found by the scanner, with the same capture |
| `ParseError.Search` | ui/src/parseError.ts:81 | the position found is the leftmost at which the pattern matches |
| `ParseError.FirstErrorsEntry` | ui/src/parseError.ts:81-84 | no contract of its own: group 1 of the leftmost match; `FirstErrorsEntryIsLeftmostMatch` states what it returns |
| `ParseError.FirstErrorsEntryIsLeftmostMatch` | ui/src/parseError.ts:81-84 | group 1 of the leftmost match is returned, non-empty and quote-free; nothing is returned exactly when the pattern matches nowhere |
| `ParseError.UnpackErrorsInMessage` | ui/src/parseError.ts:77-89 | a falsy message is returned unchanged; a string stays a string and stays empty exactly when it was empty; a truthy non-string makes `.match` throw |
| `ParseError.UnpackErrorsTakesLeftmostEntry` | ui/src/parseError.ts:80-85 | a message holding a match becomes the capture of its leftmost match |
| `ParseError.UnpackErrorsKeepsUnmatched` | ui/src/parseError.ts:80-88 | a message with no match is returned unchanged |
| `ParseError.ConstructorName` | ui/src/parseError.ts:16-18 | no contract of its own: the constructor's name, or `''` for `Object`; `ConstructorNameTaken` and `PlainObjectTypedObject` state its effect |
| `ParseError.Unwrap` | ui/src/parseError.ts:24-25 | looking through `response` then `body` always yields something of type "object" |
| `ParseError.FieldsRead` | ui/src/parseError.ts:16-29 | the error left behind is the object itself or what `response` and `body` unwrap to, and is of type "object" |
| `ParseError.JsonRead` | ui/src/parseError.ts:31-34 | the error is kept; a truthy code or message in the parsed `message` overrides the one read so far, and a falsy one keeps it |
| `ParseError.ObjectBranch` | ui/src/parseError.ts:16-36 | when the object branch completes, the error it leaves is a non-null object, the one the field reads left |
| `ParseError.Branches` | ui/src/parseError.ts:15-40 | a non-object never throws in the branches, leaves a string message and keeps the error unchanged |
| `ParseError.Finish` | ui/src/parseError.ts:45-53 | a falsy error type becomes `typeof error`; an empty message becomes the localized "Unknown Error"; the cancel flag holds exactly when the error type is the string "UserCancelledError" |
| `ParseError.ParseError` | ui/src/parseError.ts:11-55 | the result's error type is truthy; its message is non-empty (given a non-empty localized "Unknown Error"); the cancel flag holds exactly when the error type is the string "UserCancelledError"; it throws exactly when the object branch throws or leaves a truthy message that is not a string |
| `ParseError.CodeAndMessageTaken` | ui/src/parseError.ts:15-42 | an object with non-empty string `code` and `message` yields exactly that code and message, unless the message parses to JSON carrying a code or message or embeds an `"Errors"` list |
| `ParseError.ConstructorNameTaken` | ui/src/parseError.ts:16-21 | an object of a named class with no code field gets the class name as its error type |
| `ParseError.PlainObjectTypedObject` | ui/src/parseError.ts:15-45 | a plain `Object` with no code field gets no name from its constructor and ends with the `typeof` fallback "object" |
| `ParseError.UnwrapOnlyWhenIncomplete` | ui/src/parseError.ts:23-29 | once both a code and a message are found, the `response` and `body` fields have no effect on the result |
| `ParseError.ResponseBodyUnwrapped` | ui/src/parseError.ts:23-34 | `{response: {body: "<json>"}}`, where the JSON holds any non-empty code C and plain message M, yields error type C and message M |
| `ParseError.PrimitiveWithText` | ui/src/parseError.ts:37-39 | a primitive with a non-blank string form gets its `typeof` as error type and its string form as message before the `"Errors"` step |
| `ParseError.ParseErrorOfText` | ui/src/parseError.ts:42-53 | after the branches leave a non-empty string message, the result is that message with its `"Errors"` entry taken out and the cancel flag false |
| `ParseError.NothingUsableFallsBack` | ui/src/parseError.ts:37-46 | `undefined`, `null` and primitives with a blank string form yield their `typeof` and the "Unknown Error" text |
| `ParseError.NumericMessageThrows` | ui/src/parseError.ts:21-42 | an object whose message is a number makes `parseError` throw |
| `ParseError.ErrorsEntryReplacesMessage` | ui/src/parseError.ts:42-46 | whatever branch produced a string message, an embedded `"Errors"` list replaces it by the first entry of its leftmost match |
| `ParseError.ParsedMessageOverrides` | ui/src/parseError.ts:31-34 | a truthy message in the parsed `message` becomes the message, and a truthy code in it the error type, whatever the object and its envelope held |
| `ParseError.StringifyFallback` | ui/src/parseError.ts:36 | with no truthy message in the object or its envelope, the message is the `JSON.stringify` text of the unwrapped error, and the branch throws exactly when that throws |
| `ParseError.UnpackNeverNull` | ui/src/parseError.ts:91-109 | for a `parse` that behaves like `JSON.parse`, unpacking a field of an object always yields an object, never `null` |
| `ParseError.ObjectBranchThrowsOnlyOnStringify` | ui/src/parseError.ts:16-36 | for such a `parse`, unwrapping never lands on `null`, and the object branch throws exactly when no message is found and `JSON.stringify` throws |
| `ParseError.UnpackErrorsInMessageGuarded` | ui/src/parseError.ts:77-89 | the corrected message step: a string message is treated exactly as line 81 treats it, and any other message yields "" for the fallback |
| `ParseError.ParseErrorGuarded` | ui/src/parseError.ts:11-55 | the corrected `parseError` returns what `parseError` returns whenever that returns, throws exactly when the object branch throws, and keeps the truthy error type and non-empty message |
| `ParseError.GuardedThrowsOnlyOnStringify` | ui/src/parseError.ts:11-55 | for a `parse` that behaves like `JSON.parse`, the corrected `parseError` throws exactly when an object yields no message and `JSON.stringify` throws |
| `ParseError.NumericMessageGuarded` | ui/src/parseError.ts:42-46 | `{code: "E", message: 5}` gets error type "E" and the localized "Unknown Error" from the corrected `parseError` |
| `Wizard.AzureWizard.constructor` | ui/src/wizard/AzureWizard.ts:17-21 | the step lists and context are the arguments and the sub-wizard list starts empty |
| `Wizard.AzureWizard.Prompt` | ui/src/wizard/AzureWizard.ts:23-35 | the new context, sub-wizard list, trace and completion are exactly those of the prompt fold over the steps, and every sub-wizard outcome in that fold is a real prompt of that sub-wizard; a completed call returns the held context; `lastStepAttempted` holds the last tag the trace writes; the sub-wizards prompted are those `PromptVisits` lists, each call starting from what its sub-wizard held before it and each sub-wizard ending in what its last call left (`StatesChain`), which is what its own prompt fold computed (`PromptedBy` records the end; `PromptLeavesFoldResult`); every offered sub-wizard no call visits is unchanged, whether or not it is already in the list |
| `Wizard.AzureWizard.PushAndPrompt` | ui/src/wizard/AzureWizard.ts:28-31 | the exposed sub-wizard is appended to the list and really prompted: it goes from the state it held to the state its own prompt fold gives, and the call's record holds both states; the parent's context and every other sub-wizard are left as they were |
| `Wizard.AzureWizard.PromptTurnAt` | ui/src/wizard/AzureWizard.ts:25-31 | one turn of the prompt loop extends the fold over the first steps by one step, with a real prompt of any sub-wizard it exposes; a throwing turn gives the fold over all the steps; the chain of sub-wizard states from the start of the loop extends by this turn's call, and no sub-wizard outside the calls so far changes |
| `Wizard.AzureWizard.PromptStepAt` | ui/src/wizard/AzureWizard.ts:25-31 | the loop body leaves exactly the state one `PromptTurn` gives, the sub-wizard it exposes is really prompted from what it held, only that sub-wizard changes, and `lastStepAttempted` holds the last tag written |
| `Wizard.AzureWizard.ExposeAt` | ui/src/wizard/AzureWizard.ts:28-31 | once a step's `prompt` has returned, the state is the one `PromptTurn` gives: without an exposed sub-wizard nothing else changes; with one, it is appended and really prompted from what it held, and no other sub-wizard changes |
| `Wizard.AzureWizard.Execute` | ui/src/wizard/AzureWizard.ts:37-50 | the sub-wizard list is unchanged; the new context, trace and completion are exactly those of the execute fold, and every sub-wizard outcome in it is a real execute of that sub-wizard; a completed call returns the held context; the sub-wizards executed are those `ExecuteVisits` lists, chained from what each held (`StatesChain`) and ending in what their own execute fold computed (`ExecutedBy` records the end; `ExecuteLeavesFoldResult`), and every offered sub-wizard no call visits, including those listed after a throwing one, is unchanged |
| `Wizard.AzureWizard.ExecuteSubWizards` | ui/src/wizard/AzureWizard.ts:40-42 | the context and sub-wizard list are unchanged, the trace and completion are those of the fold over the sub-wizards, and each sub-wizard reached is really executed, starting where the calls before left it; sub-wizards not reached are unchanged |
| `Wizard.AzureWizard.ExecuteTurnAt` | ui/src/wizard/AzureWizard.ts:40-42 | one turn of the sub-wizard loop extends that fold by one real execute; a throwing turn gives the fold over all the sub-wizards; the chain of sub-wizard states extends by this call, and no sub-wizard outside the calls so far changes |
| `Wizard.AzureWizard.ExecuteOwnSteps` | ui/src/wizard/AzureWizard.ts:44-47 | the sub-wizard list is unchanged; the new context, trace and completion are those of the fold over the own execute steps |
| `Wizard.AzureWizard.ExecuteSubWizard` | ui/src/wizard/AzureWizard.ts:41 | the sub-wizard is really executed: it goes from the state it held to the state its own execute fold gives, and the call's record holds both states; the parent's context and list and every other sub-wizard are unchanged |
| `Wizard.PromptTurn` | ui/src/wizard/AzureWizard.ts:25-31 | no contract of its own: the specification of one prompt turn (tag, call, hold the result, append and prompt the exposed sub-wizard) |
| `Wizard.PromptRun` | ui/src/wizard/AzureWizard.ts:24-32 | no contract of its own: the prompt loop as a left fold of `PromptTurn`, stopping at the first throw; `WizardOrder` proves its properties |
| `Wizard.SubExecuteRun` | ui/src/wizard/AzureWizard.ts:40-42 | no contract of its own: the sub-wizard loop as a left fold, stopping at the first throw |
| `Wizard.ExecuteTurn` | ui/src/wizard/AzureWizard.ts:45-46 | no contract of its own: the specification of one execute turn (tag, call, hold the result) |
| `Wizard.PromptVisits` | ui/src/wizard/AzureWizard.ts:24-32 | no contract of its own: the sub-wizard prompts of the prompt loop, in order, up to the first throw |
| `Wizard.ExecuteVisits` | ui/src/wizard/AzureWizard.ts:40-42 | no contract of its own: the sub-wizard executes of the first loop of `execute`, in order, up to and including the first that throws |
| `Wizard.PromptVisitsReal` | ui/src/wizard/AzureWizard.ts:24-32 | every sub-wizard call the prompt loop makes is a real prompt of that sub-wizard, from its recorded start to the end its own prompt fold gives |
| `Wizard.ExecuteVisitsReal` | ui/src/wizard/AzureWizard.ts:40-42 | every sub-wizard call the first loop of `execute` makes is a real execute of that sub-wizard, from its recorded start to the end its own execute fold gives |
| `Wizard.PromptLeavesFoldResult` | ui/src/wizard/AzureWizard.ts:24-32 | after the prompt loop, each sub-wizard it prompted holds exactly the context and list its own prompt loop computed on one of those prompts |
| `Wizard.ExecuteLeavesFoldResult` | ui/src/wizard/AzureWizard.ts:40-42 | after the first loop of `execute`, each sub-wizard it executed holds exactly the context its own `execute` computed on one of those calls, with its list unchanged |
| `Wizard.StatesChainAppend` | ui/src/wizard/AzureWizard.ts:24-32 | two runs of calls, each chaining the sub-wizards' states, chain them across both: what the first leaves is where the second starts |
| `Wizard.StatesChainOne` | ui/src/wizard/AzureWizard.ts:30 | one call on a sub-wizard, starting from what it held, with every other sub-wizard kept, is a chain of one call |
| `Wizard.HeldAfterUnvisited` | ui/src/wizard/AzureWizard.ts:24-32 | a sub-wizard no call in a run visits ends holding what it held |
| `Wizard.ExecuteStopsAtThrow` | ui/src/wizard/AzureWizard.ts:40-42 | once the first loop of `execute` has thrown within the first `k` sub-wizards, no sub-wizard listed only after them is called |
| `Wizard.ExecuteStepsRun` | ui/src/wizard/AzureWizard.ts:44-47 | no contract of its own: the own-steps loop as a left fold of `ExecuteTurn`, stopping at the first throw |
| `Wizard.ExecuteRun` | ui/src/wizard/AzureWizard.ts:37-50 | no contract of its own: `execute` as the output-channel event, then the sub-wizard fold, then the own-steps fold |
| `Wizard.LastTag` | ui/src/wizard/AzureWizard.ts:25 | no contract of its own: the value of `lastStepAttempted` after the writes a trace records (lines 25 and 45), sub-wizards' writes included |
| `Wizard.PromptRunStops` | ui/src/wizard/AzureWizard.ts:24-32 | once a prompt step or sub-wizard has thrown, the remaining steps change nothing |
| `Wizard.SubExecuteRunStops` | ui/src/wizard/AzureWizard.ts:40-42 | once a sub-wizard's execute has thrown, the remaining sub-wizards are not visited |
| `Wizard.ExecuteStepsRunStops` | ui/src/wizard/AzureWizard.ts:44-47 | once an execute step has thrown, the remaining steps change nothing |
| `WizardOrder.PromptThreadsContext` | ui/src/wizard/AzureWizard.ts:24-31 | a completed prompt holds the steps' results threaded in order, never a sub-wizard's; the list grows by exactly the sub-wizards the steps expose |
| `WizardOrder.PromptCompletes` | ui/src/wizard/AzureWizard.ts:24-31 | the prompt completes when no step's `prompt` throws and every sub-wizard it prompts completes |
| `WizardOrder.PromptCallsStepsInOrder` | ui/src/wizard/AzureWizard.ts:24-32 | the prompt steps are called in list order, a prefix of them, and all of them exactly once when the call completes |
| `WizardOrder.PromptTurnPrompted` | ui/src/wizard/AzureWizard.ts:25-31 | one turn calls exactly its step and stops the loop exactly when the step or its exposed sub-wizard throws |
| `WizardOrder.PromptStopsAtFirstThrow` | ui/src/wizard/AzureWizard.ts:24-31 | the step that throws, or whose sub-wizard throws, is the last step called |
| `WizardOrder.PromptKeepsTagsAndDepthFirst` | ui/src/wizard/AzureWizard.ts:24-31 | every step call comes right after the write of its "prompt-" tag, and each sub-wizard's whole prompt sits right after the call that exposed it and before the next step's tag |
| `WizardOrder.TagHeldAtEachCall` | ui/src/wizard/AzureWizard.ts:24-47 | when a step is called, `lastStepAttempted` holds "prompt-" or "execute-" followed by its name |
| `WizardOrder.SecondPromptAppendsAgain` | ui/src/wizard/AzureWizard.ts:14-30 | nothing clears the list: a second prompt, starting from the context the first one left, appends the sub-wizards its steps expose after those the first one appended |
| `WizardOrder.SubExecuteShape` | ui/src/wizard/AzureWizard.ts:40-42 | visiting the sub-wizards keeps the context and list and only appends sub-wizard visits to the trace |
| `WizardOrder.SubExecuteInOrder` | ui/src/wizard/AzureWizard.ts:40-42 | the sub-wizards are executed in discovery order, a prefix of them, all of them when the loop completes |
| `WizardOrder.SubExecuteCompletes` | ui/src/wizard/AzureWizard.ts:40-42 | the sub-wizard loop completes when every sub-wizard's `execute` completes |
| `WizardOrder.ExecuteStepsShape` | ui/src/wizard/AzureWizard.ts:44-47 | the own steps keep the list, append only tag writes and step calls, and tag every call |
| `WizardOrder.ExecuteStepsInOrder` | ui/src/wizard/AzureWizard.ts:44-47 | the own execute steps are called in list order, a prefix of them, all of them when the call completes |
| `WizardOrder.ExecuteStepsThreadContext` | ui/src/wizard/AzureWizard.ts:44-49 | the own steps complete exactly when none throws, and the held context is their results threaded in order |
| `WizardOrder.ExecuteStepsStopAtFirstThrow` | ui/src/wizard/AzureWizard.ts:44-47 | the execute step that throws is the last one called |
| `WizardOrder.ExecuteShape` | ui/src/wizard/AzureWizard.ts:37-47 | the output channel is shown first, every sub-wizard visit precedes every own step call, and every call is tagged |
| `WizardOrder.ExecuteOrder` | ui/src/wizard/AzureWizard.ts:37-50 | a completed execute visited every sub-wizard in discovery order, called every own step in order and holds the threaded context; with completing sub-wizards it completes exactly when no own step throws |
| `WizardOrder.ExecuteSubWizardThrowStops` | ui/src/wizard/AzureWizard.ts:40-47 | a throwing sub-wizard stops `execute` before any own step and leaves the context unchanged |
| `WizardOrder.ExecuteStopsAtFirstThrow` | ui/src/wizard/AzureWizard.ts:40-47 | with completing sub-wizards, the own step that throws is the last one called, after all sub-wizards |
| `WizardOrder.PromptedByCallsItsSteps` | ui/src/wizard/AzureWizard.ts:24-32 | a real prompt of a sub-wizard called a prefix of that sub-wizard's own steps in order, and all of them when it completed |
| `WizardOrder.ExecutedByRunsItsSteps` | ui/src/wizard/AzureWizard.ts:37-50 | a completed real execute of a sub-wizard visited all of its own sub-wizards in order and called all of its own execute steps in order |
| `ResourceGroupNameStep.Normalize` | ui/src/wizard/ResourceGroupNameStep.ts:26 | `undefined` becomes "" and any string is trimmed |
| `ResourceGroupNameStep.Validate` | ui/src/wizard/ResourceGroupNameStep.ts:25-39 | the length error exactly for a bad length; the illegal-characters error exactly for a good length with an illegal character; the trailing-period error exactly when only the period rule fails; the exists error exactly when the local rules pass and the name is taken; `undefined` exactly when all four pass |
| `ResourceGroupNameStep.LookupOnlyForLocallyValid` | ui/src/wizard/ResourceGroupNameStep.ts:28-35 | a name failing a local rule is rejected whatever availability says, so the lookup is not consulted |
| `ResourceGroupNameStep.ValidateIgnoresSurroundingWhitespace` | ui/src/wizard/ResourceGroupNameStep.ts:26 | white space around a candidate never changes the verdict |
| `ResourceGroupNameStep.Prompt` | ui/src/wizard/ResourceGroupNameStep.ts:12-23 | with a name already set nothing is asked and nothing changes; otherwise the input box is shown with the related name as suggestion and the reply is stored trimmed; no other field changes; the same context object is returned |
| `ResourceGroupNameStep.StoredNameValid` | ui/src/wizard/ResourceGroupNameStep.ts:15-19 | a reply the validator accepts is stored trimmed, passes the validator again, meets the local rules and is available |

## Left out

- `async`/`await`: every step is a sequential call; suspension adds nothing but ordering.
- `localize`: "Unknown Error" is a parameter (`Host.unknownError`), and the validator's messages are tags (`NameError`) carrying their arguments.
- `JSON.parse`, `JSON.stringify`: opaque functions in `Host` (`None` when they throw). JSON grammar and cycles are not modelled. An `undefined` result of `stringify` is written as `""`, which behaves the same downstream.
- `error.constructor.name`: a field of the object value (`None` for `Object`). Property reads see own fields only, not the prototype chain.
- JavaScript numbers are represented by their printed text. Symbols, BigInts and functions are not among the modelled values.
- An object without a prototype (`Object.create(null)`): lines 16-17 read `error.constructor.name` on `undefined` and throw. The model's `ctor: None` stands for `Object`, so such objects are not modelled.
- A rejecting `isNameAvailable` (ui/src/wizard/ResourceGroupNameStep.ts:34): its rejection would escape the validator. The parameter here is a total function.
- Strings are sequences of characters, not UTF-16 code units.
- `OutputChannel.show(true)`: the `OutputShown` trace event.
- `showInputBox`, `relatedNameTask`, `isNameAvailable`: parameters (`reply`, `relatedName`, `isNameAvailable`). The input box's loop that re-asks until the validator passes is outside this code; `StoredNameValid` states what its accepted reply gives. A rejected `relatedNameTask` is not modelled.
- `resourceGroupNamingRules`: the `NamingRules` parameter (bounds and an illegal-character predicate); its contents are defined elsewhere and are not part of this model.
- The concrete step classes: only their name, `prompt`/`execute` and `subWizard` are used.
- Wizard contexts are values of a type `T`. In JavaScript the step that builds a sub-wizard usually passes it the parent's context object, and both wizards' steps then mutate that one object; that sharing is not captured.
- `step.subWizard` is read once per step, as a function of the context the step returned; a getter answering differently on its three reads is not modelled.
- Each wizard's possible sub-wizards are fixed in a ghost set with a nesting depth. A wizard that (transitively) offers itself, which would prompt forever in JavaScript, is not modelled. The constructor also requires the offered sub-wizards to own disjoint objects, so two sibling sub-wizards that share a nested wizard are not modelled either.
- Steps are pure functions of the context: a step object's own fields, and a UI that answers the same prompt differently the second time, are not modelled.
- `Wizard.PromptedBy`, `Wizard.ExecutedBy`: the record of a sub-wizard's call states the state it started in and the state its own fold left it in, but not how the states of the sub-wizards it called in turn were chained; that is stated by that sub-wizard's own `Prompt` or `Execute`, one level at a time.
- `Wizard.AzureWizard.Prompt`, `Wizard.AzureWizard.Execute`: when a call throws, only the state and trace up to the throw are stated; JavaScript returns no value then.
- `ParseError.ParseError`: a non-empty message is promised only for a non-empty localized "Unknown Error", since the localized text is a parameter.

## Findings

| source | as written | input that shows it | evidently intended | confidence | as-written member | corrected member |
|---|---|---|---|---|---|---|
| ui/src/parseError.ts:81 | `unpackErrorsInMessage` calls `message.match` on any truthy message, and lines 21-36 keep a non-string message, so `parseError` (typed to return a string message) throws | `{code: "E", message: 5}` | a message that is not a string is left to the "Unknown Error" fallback, so `parseError` throws only where `JSON.stringify` does | not executed | `ParseError.NumericMessageThrows` | `ParseError.ParseErrorGuarded` (with `GuardedThrowsOnlyOnStringify`, `NumericMessageGuarded`) |

`ParseError.ParseError` stays the model of the code as written. Every lemma
above that concludes a normal return of `ParseError` carries over to
`ParseErrorGuarded` through its first postcondition.
