# Workflow engine — a Dafny model

This project models the interpreter at the heart of a small workflow
engine. A workflow definition declares actions and transitions:
- an action is `HUMAN` or `AUTOMATIC`, and may declare typed parameters;
- a transition may be guarded by groups of MVEL conditions, which are OR-ed
  across groups and AND-ed within a group.

A workflow instance records four things:
- the current action;
- the last human action;
- a history of executed action ids;
- a context map.

Triggering a human action on an instance runs the following steps:
1. The engine checks that the action is among the next possible actions from
   the current one, that it is `HUMAN`, and that the submitted parameters
   pass validation.
2. It merges the parameters into the context and runs the action's handler.
   The handler is the bean whose class is named after the action id.
3. It appends the action to the history.
4. It runs the first eligible automatic action, again and again, until none is
   eligible.
5. It returns the human actions possible from where it stopped, together with
   the context.

The whole execution is one transaction: either everything is committed or
nothing is.

The model is organised as follows.

| module | file | what it holds |
|---|---|---|
| `Wrappers` | wrappers.dfy | `Option`, `Result`, `Outcome` |
| `Values` | values.dfy | JSON values, `Object.toString`, and the mutable context map `ContextMap` |
| `Definition` | definition.dfy | the definition records, the engine's exceptions (`Error`), and the foreign libraries as a `Host` |
| `Resolver` | resolver.dfy | `groupValid` and `getNextPossibleActions`: loops proved against the functions `Satisfied`, `Eligible` and `NextActions` |
| `Validator` | validator.dfy | `validateActionParameters` and a concrete `Integer.parseInt` |
| `Dispatcher` | dispatcher.dfy | `resolveActionBean` and the naming convention |
| `WorkflowAction`, `ValidateEmailAction`, `FillUserInfoAction`, `Handlers` | workflow_action.dfy, validate_email_action.dfy, fill_user_info_action.dfy, handlers.dfy | the two handlers, plus an open `Custom` handler |
| `Engine` | engine.dfy | the orchestrator (see below) |
| `EngineProperties` | engine_properties.dfy | what a trigger guarantees |
| `Scenario` | scenario.dfy | a sign-up workflow run end to end |

The orchestrator in `Engine` has two layers:
- functions `HumanStep`, `AutoStep`, `Cascade` and `Trigger` that specify it;
- methods that implement it over a `WorkflowInstance` class and a working `ContextMap`, with a `while (true)` loop.

`ExecuteHumanAndAutomatics` commits to the instance only after the whole
execution has succeeded. This stands in for the transaction.

Notes on the modelling:
- The action field `type` is called `kind` and the parameter field `type` is called `paramType`, because `type` is a Dafny keyword.
- Some null fields of a definition read like empty ones, because the code tests for null before using them. These are a null parameter list, null condition groups, a null group or expression list, a null expression and a null pattern. A null `params` map reads like an empty one for the same reason. The null fields on which the code throws are listed under "## Left out".

Observations about the code that the model follows:
- In `groupValid`, a non-empty group whose expressions are all blank is satisfied, because every blank expression is skipped and the loop ends with `true`: `Resolver.Satisfied`. A group that is null or empty is not satisfied.
- An instance at `start` cannot trigger `start`. The code offers only the destinations of transitions that leave the current action, so that trigger is refused as not allowed (`Scenario.StartNotOffered`). Even if it were allowed, no `StartAction` handler exists.
- The sign-up scenario is therefore modelled with a human `fillUserInfo` step before `validateEmail`.

## Model

| member | source | states |
|---|---|---|
| Definition.FindAction | src/main/java/com/example/service/WorkflowEngine.java:45-47 | an action found under an id is declared in the definition under that id |
| Definition.FindActionNone | src/main/java/com/example/service/WorkflowEngine.java:45-47 | the lookup finds nothing exactly when no declared action has that id |
| Definition.FindActionIsFirst | src/main/java/com/example/service/WorkflowEngine.java:45-47 | `findFirst` picks the first declared action with that id |
| Values.Get | src/main/java/com/example/service/WorkflowEngine.java:109 | `Map.get` yields null for an absent key and the stored value otherwise |
| Values.NatText | src/main/java/com/example/service/WorkflowEngine.java:120 | `toString` of a natural number is a non-empty string of decimal digits |
| Values.IntText | src/main/java/com/example/service/WorkflowEngine.java:120 | `toString` of an integer is non-empty and starts with `-` exactly when the integer is negative |
| Values.ToString | src/main/java/com/example/service/WorkflowEngine.java:110-128 | the text `val.toString()` gives for each kind of value; `ToStringEmpty` states when it is empty |
| Values.ToStringEmpty | src/main/java/com/example/service/WorkflowEngine.java:111 | only an empty string (or empty number text) renders as empty, so a required boolean, integer, list or object value is never missing |
| Values.ContextMap.constructor | src/main/java/com/example/service/WorkflowEngine.java:33-35 | the working context starts as the stored context |
| Values.ContextMap.Put | src/main/java/com/example/service/ValidateEmailAction.java:16 | `put` sets one key and keeps every other entry |
| Values.ContextMap.PutAll | src/main/java/com/example/service/WorkflowEngine.java:55 | after `putAll` the keys are the union, submitted values win, and other keys keep their values |
| Resolver.IsJavaWhitespace | src/main/java/com/example/service/WorkflowEngine.java:156 | the characters `Character.isWhitespace` accepts: the Unicode space, line and paragraph separators other than the no-break spaces, and the controls 9-13 and 28-31 |
| Resolver.IsBlank | src/main/java/com/example/service/WorkflowEngine.java:156 | `isBlank`: every character is whitespace, so the empty text is blank |
| Resolver.GroupValid | src/main/java/com/example/service/WorkflowEngine.java:152-165 | the loop answers `Satisfied`: the group is non-empty and every non-blank expression evaluates to boolean true |
| Resolver.IsEligible | src/main/java/com/example/service/WorkflowEngine.java:144-145 | a transition is eligible when it has no group or when some group is valid |
| Resolver.SelectedMembers | src/main/java/com/example/service/WorkflowEngine.java:141-145 | a transition is kept exactly when it leaves the current action and is eligible |
| Resolver.SelectedSnoc | src/main/java/com/example/service/WorkflowEngine.java:141-148 | the filter keeps declaration order: appending a transition appends it to the result when it qualifies |
| Resolver.NextSuccessMatchesSelected | src/main/java/com/example/service/WorkflowEngine.java:139-150 | on success the result has one entry per kept transition, in order, duplicates included, each being the first action declared under its destination |
| Resolver.NextFailureMatchesSelected | src/main/java/com/example/service/WorkflowEngine.java:146 | the resolver fails exactly at the first kept transition whose destination is undeclared, naming it |
| Resolver.NextActionDeclared | src/main/java/com/example/service/WorkflowEngine.java:141-147 | every action offered is declared, and some eligible transition leaving the current action leads to it |
| Resolver.NextPrefixFailure | src/main/java/com/example/service/WorkflowEngine.java:141-148 | once a prefix of the transitions fails, later transitions do not matter |
| Resolver.NextSkip | src/main/java/com/example/service/WorkflowEngine.java:142-145 | a transition that does not leave the current action, or is not eligible, adds nothing |
| Resolver.NextAppend | src/main/java/com/example/service/WorkflowEngine.java:144-147 | an eligible transition leaving the current action adds its destination after the earlier results |
| Resolver.NextPossibleActions | src/main/java/com/example/service/WorkflowEngine.java:139-150 | the accumulator loop computes `NextActions`, whose meaning the lemmas above state |
| Validator.ParseInt | src/main/java/com/example/service/WorkflowEngine.java:120 | a value `Integer.parseInt` accepts lies in the 32-bit range |
| Validator.NatTextValue | src/main/java/com/example/service/WorkflowEngine.java:120 | the decimal text of a natural number reads back as that number |
| Validator.ParseNatText | src/main/java/com/example/service/WorkflowEngine.java:120 | unsigned decimal text parses exactly when it fits in 32 bits |
| Validator.ParseNegText | src/main/java/com/example/service/WorkflowEngine.java:120 | minus-signed decimal text parses to the negation exactly when it fits in 32 bits |
| Validator.ParseIntText | src/main/java/com/example/service/WorkflowEngine.java:120 | `Integer.parseInt(n.toString())` gives back `n` for every 32-bit integer and fails for every other integer |
| Validator.CheckParam | src/main/java/com/example/service/WorkflowEngine.java:109-133 | a failure names the parameter; it is `Missing` exactly when a required value is null or has empty text; an absent optional parameter passes; the per-type rules for a present value are the lemmas below |
| Validator.EqualsIgnoreCase | src/main/java/com/example/service/WorkflowEngine.java:128 | `equalsIgnoreCase`: equal lengths and, position by position, the same letter up to ASCII case |
| Validator.EqualsIgnoreCaseLowered | src/main/java/com/example/service/WorkflowEngine.java:128 | `equalsIgnoreCase` holds exactly when both texts agree once lower-cased |
| Validator.StringParamRule | src/main/java/com/example/service/WorkflowEngine.java:114-117 | a present `string` value is checked only when the pattern is non-empty, and then fails with `BadFormat` exactly when the pattern does not match |
| Validator.IntParamRule | src/main/java/com/example/service/WorkflowEngine.java:119-122 | a present `int` value passes exactly when `Integer.parseInt` accepts its text, and otherwise fails with `NotAnInteger` |
| Validator.DoubleParamRule | src/main/java/com/example/service/WorkflowEngine.java:123-126 | a present `double` value passes exactly when `Double.parseDouble` accepts its text, and otherwise fails with `NotANumber` |
| Validator.BooleanTextIff | src/main/java/com/example/service/WorkflowEngine.java:127-130 | a present `boolean` value passes exactly when its text is `true` or `false` in any case, and otherwise fails with `NotABoolean` |
| Validator.BooleanTextOf | src/main/java/com/example/service/WorkflowEngine.java:127-130 | the same rule for a value submitted as a JSON string |
| Validator.BooleanTextExamples | src/main/java/com/example/service/WorkflowEngine.java:127-130 | `TRUE` and `False` pass as booleans, `yes` fails with `NotABoolean` |
| Validator.UncheckedTypesPass | src/main/java/com/example/service/WorkflowEngine.java:131-133 | `jsonNode` and every type name the switch does not list accept any present value |
| Validator.ValidateFirstFailure | src/main/java/com/example/service/WorkflowEngine.java:107-135 | validation passes exactly when every parameter passes; otherwise it reports the failure of the first parameter that fails |
| Validator.ValidateActionParameters | src/main/java/com/example/service/WorkflowEngine.java:106-136 | the loop with early throw computes `Validate` |
| Validator.IntParamAcceptsInt32 | src/main/java/com/example/service/WorkflowEngine.java:119-122 | an `int` parameter holding a JSON integer passes exactly when the integer fits in 32 bits |
| Validator.BooleanParamOnValues | src/main/java/com/example/service/WorkflowEngine.java:127-130 | a `boolean` parameter passes every JSON boolean and refuses every JSON integer |
| Dispatcher.ExpectedClassName | src/main/java/com/example/service/WorkflowEngine.java:97 | an empty id fails; otherwise the name is the id with its first letter upper-cased, followed by `Action` |
| Dispatcher.SameClassName | src/main/java/com/example/service/WorkflowEngine.java:97 | two ids name the same class exactly when they agree after the first letter and their first letters agree once upper-cased |
| Dispatcher.IndexOfClass | src/main/java/com/example/service/WorkflowEngine.java:98-101 | a position found holds a handler with that simple class name |
| Dispatcher.IndexOfClassFirst | src/main/java/com/example/service/WorkflowEngine.java:98-102 | the position is the first match, and there is none exactly when no handler has that name |
| Dispatcher.ResolveFirstMatch | src/main/java/com/example/service/WorkflowEngine.java:96-103 | resolution returns the first registered handler with the expected name, and fails with `NoHandler` exactly when there is none |
| Dispatcher.ResolveActionBean | src/main/java/com/example/service/WorkflowEngine.java:96-103 | the scanning loop computes `Resolve` |
| Dispatcher.RepositoryResolution | src/main/java/com/example/service/WorkflowEngine.java:96-103 | `fillUserInfo` and `FillUserInfo` resolve to `FillUserInfoAction`, `validateEmail` to `ValidateEmailAction`, and `start` to no handler |
| ValidateEmailAction.Execute | src/main/java/com/example/service/ValidateEmailAction.java:12-17 | succeeds exactly when `email` is present and not null; on failure the context is unchanged; on success `emailVerified` is added as true, and no other key is removed or changed |
| ValidateEmailAction.ExecuteOn | src/main/java/com/example/service/ValidateEmailAction.java:12-17 | the in-place update of the shared map has the effect of `Execute` |
| ValidateEmailAction.Idempotent | src/main/java/com/example/service/ValidateEmailAction.java:16 | running the handler twice on a context with an email gives what running it once gives |
| FillUserInfoAction.Execute | src/main/java/com/example/service/FillUserInfoAction.java:12-15 | always succeeds and leaves the context as received |
| FillUserInfoAction.RunTimesUnchanged | src/main/java/com/example/service/FillUserInfoAction.java:12-15 | any number of runs succeeds and leaves the context unchanged |
| Handlers.Run | src/main/java/com/example/service/WorkflowEngine.java:59 | the virtual call `bean.execute(context)` has the effect of the handler's function on the shared map |
| Handlers.BuiltinPreserves | src/main/java/com/example/service/ValidateEmailAction.java:12-17 | neither handler of the repository removes a key, and each keeps every key other than `emailVerified` |
| Engine.HasActionId | src/main/java/com/example/service/WorkflowEngine.java:39 | `anyMatch`: some next possible action carries the id; `TriggerRefusals` gives its effect |
| Engine.FirstAutomatic | src/main/java/com/example/service/WorkflowEngine.java:71 | the candidate picked is among the next actions and is `AUTOMATIC` |
| Engine.FirstAutomaticNone | src/main/java/com/example/service/WorkflowEngine.java:71-72 | the loop stops exactly when no next action is `AUTOMATIC` |
| Engine.FirstAutomaticIsFirst | src/main/java/com/example/service/WorkflowEngine.java:71 | `findFirst` picks the first `AUTOMATIC` action in resolver order |
| Engine.OnlyHuman | src/main/java/com/example/service/WorkflowEngine.java:87 | `filter(HUMAN)` keeps the human actions in resolver order; `OnlyHumanMembers` states which |
| Engine.OnlyHumanMembers | src/main/java/com/example/service/WorkflowEngine.java:87 | the returned list holds exactly the `HUMAN` actions among the next possible ones |
| Engine.HumanStep | src/main/java/com/example/service/WorkflowEngine.java:37-66 | the specification of steps 1 to 4 and the history update; `HumanStepOutcome` and `HumanStepFailure` state its meaning |
| Engine.AutoStep | src/main/java/com/example/service/WorkflowEngine.java:70-81 | the specification of one turn of the automatic loop; `AutoStepOutcome` and `AutoStepFailure` state its meaning |
| Engine.Iterate | src/main/java/com/example/service/WorkflowEngine.java:69-82 | the `while (true)` loop as turns that fail, stop or move; the `Iterate*` lemmas state its meaning |
| Engine.Trace | src/main/java/com/example/service/WorkflowEngine.java:69-82 | what the loop records of each state it moves to, in order; `IterateTrace` relates it to the loop |
| Engine.Cascade | src/main/java/com/example/service/WorkflowEngine.java:69-82 | the automatic loop; the `Cascade*` lemmas state its meaning |
| Engine.Ran | src/main/java/com/example/service/WorkflowEngine.java:74-81 | the ids of the automatic actions the loop runs, in the order it runs them; `CascadeHistory` relates them to the history |
| Engine.Trigger | src/main/java/com/example/service/WorkflowEngine.java:27-93 | the specification of a whole execution; the `Trigger*` lemmas state its meaning |
| Engine.WorkflowInstance.Start | src/main/java/com/example/rest/WorkflowResource.java:27-38 | a new instance stands at the start action, with no history, no human action and an empty context |
| Engine.RunHumanStep | src/main/java/com/example/service/WorkflowEngine.java:37-60 | the allowed check, the kind check, validation, the merge and the human handler compute `HumanStep` on the working context |
| Engine.RunAutoStep | src/main/java/com/example/service/WorkflowEngine.java:70-81 | one turn of the automatic loop computes `AutoStep`, and the working context follows the state |
| Engine.RunCascade | src/main/java/com/example/service/WorkflowEngine.java:69-82 | the `while (true)` loop computes `Cascade`, and on success the working context is the final state's |
| Engine.ExecuteHumanAndAutomatics | src/main/java/com/example/service/WorkflowEngine.java:27-93 | on failure the instance is left exactly as it was; on success the response is the human next actions and the context, and the instance holds the final state |
| EngineProperties.IterateInvariant | src/main/java/com/example/service/WorkflowEngine.java:69-82 | a property kept by every turn that moves holds when the loop ends, and the loop ends only on a turn that stops |
| EngineProperties.IterateFirst | src/main/java/com/example/service/WorkflowEngine.java:69-82 | a loop that succeeds begins with a turn that succeeds, then either stops or continues with one turn less |
| EngineProperties.IterateTrace | src/main/java/com/example/service/WorkflowEngine.java:69-82 | when each turn that moves appends the tag of the state it moves to, the loop appends exactly its trace, which has at most `fuel` entries |
| EngineProperties.IterateFailure | src/main/java/com/example/service/WorkflowEngine.java:69-82 | a loop fails only with an error one of its turns can raise, or by running out of turns |
| EngineProperties.FirstAutomaticIsAutomatic | src/main/java/com/example/service/WorkflowEngine.java:70-71 | the candidate of the automatic loop is a declared `AUTOMATIC` action |
| EngineProperties.AutoStepOutcome | src/main/java/com/example/service/WorkflowEngine.java:70-81 | a turn stops only when no next action is automatic; otherwise it resolves the handler of the first automatic candidate, which returns true; the new context is that handler's output on the old one; the turn appends the candidate to the history, moves to it and keeps the last human action |
| EngineProperties.CascadeKeepsPrefix | src/main/java/com/example/service/WorkflowEngine.java:69-82 | the automatic loop only appends to the history and never changes the last human action |
| EngineProperties.CascadeAppendsAutomatic | src/main/java/com/example/service/WorkflowEngine.java:71-81 | every id the loop appends names an `AUTOMATIC` action |
| EngineProperties.CascadeHistory | src/main/java/com/example/service/WorkflowEngine.java:69-82 | the loop appends to the history exactly the ids of the automatic actions it runs, in the order it runs them, at most `fuel` of them |
| EngineProperties.CascadeQuiescent | src/main/java/com/example/service/WorkflowEngine.java:69-72 | when the loop exits, no `AUTOMATIC` action is among the next possible actions |
| EngineProperties.CascadeEndsOnLast | src/main/java/com/example/service/WorkflowEngine.java:80-81 | the current action stays the last history entry |
| EngineProperties.CascadeFirst | src/main/java/com/example/service/WorkflowEngine.java:69-82 | a successful loop is its first turn followed by the rest of the loop |
| EngineProperties.TurnThenCascade | src/main/java/com/example/service/WorkflowEngine.java:74-81 | the action a turn runs is recorded right after the history that turn started from, in execution order |
| EngineProperties.NextFailureIsUndefined | src/main/java/com/example/service/WorkflowEngine.java:146 | the resolver can only fail on an undeclared destination |
| EngineProperties.AutoStepFailure | src/main/java/com/example/service/WorkflowEngine.java:70-77 | a turn fails only on an undeclared destination, on an unresolved handler, or when the automatic handler returns false |
| EngineProperties.CascadeFailure | src/main/java/com/example/service/WorkflowEngine.java:69-82 | the loop fails only with a turn's errors or by running out of turns |
| EngineProperties.HumanStepOutcome | src/main/java/com/example/service/WorkflowEngine.java:37-66 | a successful human step was allowed, declared `HUMAN` and validated; its handler resolves and returns true; the new context is that handler's output on the stored context overwritten by the parameters; it moves to the triggered action, records it as the last human action and appends it |
| EngineProperties.TriggerSteps | src/main/java/com/example/service/WorkflowEngine.java:27-93 | a successful trigger is the human step, then the loop, then the human filter of the next actions |
| EngineProperties.StepsHistory | src/main/java/com/example/service/WorkflowEngine.java:63-81 | the history becomes the old history, then the triggered id, then the ids of the automatic actions run, in order; each of them is `AUTOMATIC`, and there are at most `fuel` of them |
| EngineProperties.TriggerHistory | src/main/java/com/example/service/WorkflowEngine.java:63-81 | the history grows by exactly 1 + k entries: the triggered id first, then the ids of the k automatic actions run, in the order they ran (`Ran`); each is `AUTOMATIC` |
| EngineProperties.StepsEnd | src/main/java/com/example/service/WorkflowEngine.java:64-81 | the last human action is the triggered one, and the current action is the last history entry |
| EngineProperties.TriggerEnd | src/main/java/com/example/service/WorkflowEngine.java:64-81 | after a successful trigger, the last human action is the triggered id and the current action is the last history entry |
| EngineProperties.TriggerOffers | src/main/java/com/example/service/WorkflowEngine.java:69-87 | when the trigger ends, no automatic action is pending, and the response offers exactly the `HUMAN` actions among the next possible ones |
| EngineProperties.TriggerRefusals | src/main/java/com/example/service/WorkflowEngine.java:37-52 | the trigger fails with `NotAllowed` when the id is not offered, with `NotHuman` when the action is not `HUMAN`, and with the validation error when the parameters fail |
| EngineProperties.HumanStepFailure | src/main/java/com/example/service/WorkflowEngine.java:37-60 | the human step fails only with the errors of its own checks, its dispatch or its handler |
| EngineProperties.TriggerFailure | src/main/java/com/example/service/WorkflowEngine.java:37-82 | a trigger fails only with the errors of its steps; the unknown-action branch never fires |
| EngineProperties.ResolvedIsRepository | src/main/java/com/example/service/WorkflowEngine.java:96-103 | with only the repository's handlers registered, resolution yields one of them |
| EngineProperties.AutoStepPreserves | src/main/java/com/example/service/WorkflowEngine.java:75-81 | with the repository's handlers, an automatic turn removes no key and changes nothing but `emailVerified` |
| EngineProperties.CascadePreserves | src/main/java/com/example/service/WorkflowEngine.java:69-82 | the same holds for the whole automatic loop |
| EngineProperties.TriggerContext | src/main/java/com/example/service/WorkflowEngine.java:55-81 | submitted parameters overwrite same-named keys; every stored and submitted key survives; apart from `emailVerified`, submitted values win and other stored values are kept |
| Scenario.GuardHolds | src/main/java/com/example/service/WorkflowEngine.java:152-165 | under the scenario's evaluator, the guard `emailVerified == true` holds exactly when `emailVerified` is boolean true |
| Scenario.NextFromStart | src/main/java/com/example/service/WorkflowEngine.java:139-150 | from `start`, the sign-up offers `fillUserInfo` |
| Scenario.NextFromFill | src/main/java/com/example/service/WorkflowEngine.java:139-150 | from `fillUserInfo`, the sign-up offers `validateEmail` |
| Scenario.NextFromValidate | src/main/java/com/example/service/WorkflowEngine.java:139-165 | from `validateEmail`, `done` is offered exactly when the email is verified |
| Scenario.FillStep | src/main/java/com/example/service/WorkflowEngine.java:37-66 | `fillUserInfo` succeeds from `start` for any submitted parameters, keeping them as the context |
| Scenario.ValidateTurn | src/main/java/com/example/service/WorkflowEngine.java:69-81 | after `fillUserInfo` with an email, `validateEmail` runs and sets `emailVerified` |
| Scenario.VerifiedStops | src/main/java/com/example/service/WorkflowEngine.java:69-72 | once verified, no automatic action is pending and `done` is offered |
| Scenario.SignupWithEmail | src/main/java/com/example/service/WorkflowEngine.java:27-93 | the sign-up with an email ends at `validateEmail` with history `[fillUserInfo, validateEmail]`, the email verified, and `done` offered |
| Scenario.SignupWithoutEmail | src/main/java/com/example/service/WorkflowEngine.java:76-77 | without an email the automatic action fails the whole trigger |
| Scenario.NoSecondFill | src/main/java/com/example/service/WorkflowEngine.java:37-42 | after the sign-up, `fillUserInfo` is refused as not allowed |
| Scenario.DoneUnresolved | src/main/java/com/example/service/WorkflowEngine.java:96-103 | no handler of the repository is named `DoneAction` |
| Scenario.DoneHasNoHandler | src/main/java/com/example/service/WorkflowEngine.java:58-60 | `done` is offered, but triggering it fails on the dispatcher |
| Scenario.StartNotOffered | src/main/java/com/example/service/WorkflowEngine.java:37-42 | an instance at `start` cannot trigger `start` |
| Scenario.SignupRun | src/main/java/com/example/service/WorkflowEngine.java:27-93 | on a fresh instance, the orchestrator returns `done` with the verified context and records both actions |
| Scenario.SignupRunWithoutEmail | src/main/java/com/example/service/WorkflowEngine.java:27-93 | without an email, the orchestrator fails and the instance keeps its starting state, the human step included |

## Left out

- REST transport (`WorkflowResource`, `WorkflowConfigResource`) is not modelled. `startInstance` is the `WorkflowInstance.Start` constructor. `getAvailableActions` only calls the resolver.
- Loading a definition and persistence (`WorkflowConfigService`, `findById`, `persist`) are left out. The definition is an input value and the instance is an object. A missing instance ("Instance manquante") is not modelled.
- JSON (de)serialisation of the context is left out. The context is a map of JSON values, and an absent or empty stored context is the empty map.
- MVEL evaluation, `Pattern.matches` and `Double.parseDouble` are foreign libraries. They are the parameters `Host.eval`, `Host.patternMatches` and `Host.parsesDouble`.
- The foreign calls cannot raise in the model, although the code can:
  - `Host.patternMatches` is total, but `Pattern.matches` throws `PatternSyntaxException` on a malformed pattern, and nothing catches it;
  - a `Custom` handler can only return a result, but a Java handler can throw;
  - `Host.eval` cannot write the context, but an MVEL assignment can.
- Null fields on which the code throws are not modelled:
  - a null `transitions` list (line 141) or `actions` list (lines 45 and 146);
  - a null action id or `fromActionId` (lines 39, 46 and 142);
  - a null parameter `type` with a present value (the `switch` at line 113).

  The model has no null for these fields.
- Validator.ParseInt: accepts ASCII digits only; the non-ASCII Unicode digits that `Integer.parseInt` also accepts are not modelled.
- Dispatcher.ExpectedClassName: upper-cases an ASCII first letter only. The source calls `String.toUpperCase()` on `substring(0, 1)`, which the model does not capture in these cases:
  - it depends on the default locale (a Turkish locale maps `i` to `İ`);
  - it can lengthen the text (`ß` becomes `SS`);
  - it splits a surrogate pair.
- Validator.BooleanTextIff: `equalsIgnoreCase` is modelled for ASCII case only. Java also accepts letters whose case maps onto ASCII, such as `falſe` with a long s, and the model refuses them.
- The registry is the sequence of handlers in CDI discovery order. That order is an input; how CDI chooses it is not modelled.
- Engine.Cascade: the source's automatic loop has no bound. The model gives it `fuel` turns and fails with `CascadeLimit` once they are used up. A definition whose automatic actions cycle therefore ends with this error here, where the source loops forever.
- EngineProperties.CascadeHistory: the bound of `fuel` ids comes from the bound above; the source appends one id per automatic action without limit.
- Engine.ExecuteHumanAndAutomatics: the failure cases include `CascadeLimit`, which the source cannot raise.
