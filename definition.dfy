/** The workflow definition as the engine reads it (the DTOs a stored
    definition deserialises to), the exceptions the engine raises, and the
    foreign libraries it calls, taken as parameters. */
module Definition {
  import opened Wrappers
  import opened Values

  /** The two action kinds the engine recognises; `kind` is free text in a
      definition, and any other text is neither human nor automatic. */
  const HUMAN := "HUMAN"
  const AUTOMATIC := "AUTOMATIC"

  /** ParameterDefinitionDTO. A null pattern reads like the empty one. */
  datatype ParamDef = ParamDef(name: string, paramType: string, required: bool, pattern: string)

  /** ActionDTO. A null parameter list reads like the empty one. */
  datatype ActionDef = ActionDef(actionId: string, description: string, kind: string, parameters: seq<ParamDef>)

  /** ConditionGroupDTO: its MVEL expressions, AND-ed. A null group, a null
      list and an empty list all read as the empty group; a null expression
      reads like a blank one. */
  type ConditionGroup = seq<string>

  /** TransitionDTO: its condition groups are OR-ed. */
  datatype Transition = Transition(fromActionId: string, toActionId: string, conditionGroups: seq<ConditionGroup>)

  /** WorkflowDTO. */
  datatype Workflow = Workflow(workflowId: string, actions: seq<ActionDef>, transitions: seq<Transition>)

  /** What MVEL.eval gives for one expression against the context. */
  datatype EvalOutcome = True | False | NonBoolean | Raised

  /** The foreign code the engine calls: MVEL evaluation, `Pattern.matches`
      (pattern, text) and `Double.parseDouble` succeeding on a text. */
  datatype Host = Host(
    eval: (string, Context) -> EvalOutcome,
    patternMatches: (string, string) -> bool,
    parsesDouble: string -> bool)

  /** Why a submitted parameter was refused. */
  datatype ParamFault = Missing | BadFormat | NotAnInteger | NotANumber | NotABoolean

  /** The exceptions the engine lets escape, one per throw site. */
  datatype Error =
    | UndefinedAction(id: string)        // an eligible transition leads to no action
    | NotAllowed(id: string)             // trigger not among the next possible actions
    | UnknownAction(id: string)          // "Action inconnue"
    | NotHuman(id: string)               // triggered action is not HUMAN
    | InvalidParameter(fault: ParamFault, name: string)
    | EmptyActionId                      // substring(0,1) of an empty id
    | NoHandler(id: string)              // no bean named after the id
    | HumanActionFailed(id: string)      // the human handler returned false
    | AutomaticActionFailed(id: string)  // an automatic handler returned false
    | CascadeLimit                       // the automatic cascade ran out of fuel

  /** The action declared with `id` that `stream().filter(..).findFirst()`
      picks. */
  function FindAction(actions: seq<ActionDef>, id: string): (r: Option<ActionDef>)
    ensures r.Some? ==> r.value in actions && r.value.actionId == id
  {
    if actions == [] then None
    else if actions[0].actionId == id then Some(actions[0])
    else FindAction(actions[1..], id)
  }

  /** No action is found exactly when none is declared under `id`. */
  lemma {:induction false} FindActionNone(actions: seq<ActionDef>, id: string)
    ensures FindAction(actions, id).None? <==> forall k :: 0 <= k < |actions| ==> actions[k].actionId != id
  {
    if actions != [] {
      FindActionNone(actions[1..], id);
      assert forall k :: 1 <= k < |actions| ==> actions[k] == actions[1..][k - 1];
    }
  }

  /** The action picked is the first one declared under its id. */
  lemma {:induction false} FindActionIsFirst(actions: seq<ActionDef>, id: string, i: nat)
    requires i < |actions| && actions[i].actionId == id
    requires forall j :: 0 <= j < i ==> actions[j].actionId != id
    ensures FindAction(actions, id) == Some(actions[i])
  {
    if i > 0 {
      FindActionIsFirst(actions[1..], id, i - 1);
    }
  }
}
