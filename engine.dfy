/** The execution orchestrator (`executeHumanAndAutomatics`): one human
    action, validated and run, then the chain of automatic actions that
    become eligible, all committed to the instance together or not at all. */
module Engine {
  import opened Wrappers
  import opened Values
  import opened Definition
  import opened WorkflowAction
  import opened Resolver
  import opened Validator
  import opened Handlers
  import opened Dispatcher

  /** The persisted fields of an instance the engine changes; the stored
      context JSON is held as the map it denotes. */
  datatype InstanceState = InstanceState(
    currentActionId: string,
    lastHumanActionId: Option<string>,
    history: seq<string>,
    context: Context)

  /** What a successful execution commits and returns. */
  datatype Committed = Committed(state: InstanceState, nextActions: seq<ActionDef>)

  /** AvailableActionsResponse. */
  datatype Response = Response(nextActions: seq<ActionDef>, context: Context)

  /** `anyMatch(a -> a.actionId.equals(id))`. */
  predicate HasActionId(ns: seq<ActionDef>, id: string) {
    exists k :: 0 <= k < |ns| && ns[k].actionId == id
  }

  /** `filter(AUTOMATIC).findFirst()`. */
  function FirstAutomatic(ns: seq<ActionDef>): (r: Option<ActionDef>)
    ensures r.Some? ==> r.value in ns && r.value.kind == AUTOMATIC
  {
    if ns == [] then None
    else if ns[0].kind == AUTOMATIC then Some(ns[0])
    else FirstAutomatic(ns[1..])
  }

  /** There is no automatic candidate exactly when no action is AUTOMATIC. */
  lemma {:induction false} FirstAutomaticNone(ns: seq<ActionDef>)
    ensures FirstAutomatic(ns).None? <==> forall k :: 0 <= k < |ns| ==> ns[k].kind != AUTOMATIC
  {
    if ns != [] {
      FirstAutomaticNone(ns[1..]);
      assert forall k :: 1 <= k < |ns| ==> ns[k] == ns[1..][k - 1];
    }
  }

  /** The automatic action chosen is the first automatic one in resolver
      order. */
  lemma {:induction false} FirstAutomaticIsFirst(ns: seq<ActionDef>, i: nat)
    requires i < |ns| && ns[i].kind == AUTOMATIC
    requires forall j :: 0 <= j < i ==> ns[j].kind != AUTOMATIC
    ensures FirstAutomatic(ns) == Some(ns[i])
  {
    if i > 0 {
      FirstAutomaticIsFirst(ns[1..], i - 1);
    }
  }

  /** `filter(HUMAN).collect(toList())`: the human actions, in order. */
  function OnlyHuman(ns: seq<ActionDef>): seq<ActionDef>
  {
    if ns == [] then []
    else if ns[0].kind == HUMAN then [ns[0]] + OnlyHuman(ns[1..])
    else OnlyHuman(ns[1..])
  }

  /** The human actions kept are exactly the HUMAN members. */
  lemma {:induction false} OnlyHumanMembers(ns: seq<ActionDef>)
    ensures forall a :: a in OnlyHuman(ns) <==> a in ns && a.kind == HUMAN
  {
    if ns != [] {
      OnlyHumanMembers(ns[1..]);
      assert forall a :: a in ns <==> a == ns[0] || a in ns[1..];
    }
  }

  /** The action a definition declares first under `id` is automatic. */
  predicate IsAutomatic(wf: Workflow, id: string) {
    FindAction(wf.actions, id).Some? && FindAction(wf.actions, id).value.kind == AUTOMATIC
  }

  /** The state the cascade stops in: resolution succeeds and offers no
      automatic action. */
  predicate Quiescent(wf: Workflow, host: Host, st: InstanceState) {
    var ns := NextActions(wf, st.currentActionId, st.context, host.eval);
    ns.Success? && forall k :: 0 <= k < |ns.value| ==> ns.value[k].kind != AUTOMATIC
  }

  /** The human step: the trigger must be among the next possible actions,
      be a HUMAN action and carry valid parameters; the parameters are merged
      into the context, the handler runs on it, and the instance moves to the
      triggered action. */
  function HumanStep(wf: Workflow, host: Host, registry: seq<Handler>, st: InstanceState,
                     actionId: string, params: Context): Result<InstanceState, Error>
  {
    match NextActions(wf, st.currentActionId, st.context, host.eval)
    case Failure(e) => Failure(e)
    case Success(allowed) =>
      if !HasActionId(allowed, actionId) then Failure(NotAllowed(actionId))
      else
        match FindAction(wf.actions, actionId)
        case None => Failure(UnknownAction(actionId))
        case Some(action) =>
          if action.kind != HUMAN then Failure(NotHuman(actionId))
          else
            match Validate(action.parameters, params, host)
            case Fail(e) => Failure(e)
            case Pass =>
              match Resolve(registry, actionId)
              case Failure(e) => Failure(e)
              case Success(h) =>
                var out := Apply(h, st.context + params);
                if !out.ok then Failure(HumanActionFailed(actionId))
                else Success(InstanceState(actionId, Some(actionId), st.history + [actionId], out.context))
  }

  /** One turn of the automatic loop: `None` when the next possible actions
      hold no automatic one, otherwise the state after running the first of
      them and moving the instance to it. */
  function AutoStep(wf: Workflow, host: Host, registry: seq<Handler>, st: InstanceState)
    : Result<Option<InstanceState>, Error>
  {
    match NextActions(wf, st.currentActionId, st.context, host.eval)
    case Failure(e) => Failure(e)
    case Success(ns) =>
      match FirstAutomatic(ns)
      case None => Success(None)
      case Some(a) =>
        match Resolve(registry, a.actionId)
        case Failure(e) => Failure(e)
        case Success(h) =>
          var out := Apply(h, st.context);
          if !out.ok then Failure(AutomaticActionFailed(a.actionId))
          else Success(Some(InstanceState(a.actionId, st.lastHumanActionId, st.history + [a.actionId], out.context)))
  }

  /** Turns of a loop whose body either fails, stops (`None`) or moves to a
      new state, until it stops. The source loops without bound; `fuel`
      bounds the turns that move, and running out of it is a failure. */
  function Iterate<S>(step: S -> Result<Option<S>, Error>, s: S, fuel: nat): Result<S, Error>
    decreases fuel
  {
    match step(s)
    case Failure(e) => Failure(e)
    case Success(None) => Success(s)
    case Success(Some(next)) =>
      if fuel == 0 then Failure(CascadeLimit) else Iterate(step, next, fuel - 1)
  }

  /** The labels of the states a loop moves to, in the order it moves to
      them, until it stops or its fuel runs out. */
  function Trace<S, T>(step: S -> Result<Option<S>, Error>, s: S, fuel: nat, tag: S -> T): seq<T>
    decreases fuel
  {
    match step(s)
    case Success(Some(next)) => if fuel == 0 then [] else [tag(next)] + Trace(step, next, fuel - 1, tag)
    case _ => []
  }

  function CurrentId(st: InstanceState): string {
    st.currentActionId
  }

  /** The body of the automatic loop, as a function of the state. */
  function AutoSteps(wf: Workflow, host: Host, registry: seq<Handler>)
    : InstanceState -> Result<Option<InstanceState>, Error>
  {
    s => AutoStep(wf, host, registry, s)
  }

  /** `step` is the body of the automatic loop. The trigger keeps a proof
      that only needs `step` from unfolding `AutoStep`. */
  ghost predicate IsAutoStep(wf: Workflow, host: Host, registry: seq<Handler>,
                             step: InstanceState -> Result<Option<InstanceState>, Error>)
  {
    forall s {:trigger AutoStep(wf, host, registry, s)} :: step(s) == AutoStep(wf, host, registry, s)
  }

  /** The automatic cascade: turns of the loop until no automatic action is
      eligible. */
  function Cascade(wf: Workflow, host: Host, registry: seq<Handler>, st: InstanceState,
                   fuel: nat): Result<InstanceState, Error>
  {
    Iterate(AutoSteps(wf, host, registry), st, fuel)
  }

  /** The ids of the automatic actions the cascade runs, in the order it
      runs them. */
  function Ran(wf: Workflow, host: Host, registry: seq<Handler>, st: InstanceState, fuel: nat): seq<string>
  {
    Trace(AutoSteps(wf, host, registry), st, fuel, CurrentId)
  }

  /** A whole execution: the human step, the cascade, and the human actions
      possible from where the cascade stopped. */
  function Trigger(wf: Workflow, host: Host, registry: seq<Handler>, st: InstanceState,
                   actionId: string, params: Context, fuel: nat): Result<Committed, Error>
  {
    match HumanStep(wf, host, registry, st, actionId, params)
    case Failure(e) => Failure(e)
    case Success(afterHuman) =>
      match Cascade(wf, host, registry, afterHuman, fuel)
      case Failure(e) => Failure(e)
      case Success(final) =>
        match NextActions(wf, final.currentActionId, final.context, host.eval)
        case Failure(e) => Failure(e)
        case Success(ns) => Success(Committed(final, OnlyHuman(ns)))
  }

  /** The persisted instance record. */
  class WorkflowInstance {
    var workflowName: string
    var username: string
    var currentActionId: string
    var lastHumanActionId: Option<string>
    var history: seq<string>
    var context: Context

    function State(): InstanceState
      reads this
    {
      InstanceState(currentActionId, lastHumanActionId, history, context)
    }

    /** `startInstance`: the instance starts at `startActionId` with no
        history, no human action yet and an empty context. */
    constructor Start(workflowName: string, username: string, startActionId: string)
      ensures this.workflowName == workflowName && this.username == username
      ensures State() == InstanceState(startActionId, None, [], map[])
    {
      this.workflowName := workflowName;
      this.username := username;
      currentActionId := startActionId;
      lastHumanActionId := None;
      history := [];
      context := map[];
    }
  }

  /** Steps 1 to 4 of `executeHumanAndAutomatics`, on the working copy of
      the context: the allowed check, the kind check, validation, the merge of
      the parameters and the human handler. */
  method RunHumanStep(wf: Workflow, host: Host, registry: seq<Handler>, st: InstanceState,
                      context: ContextMap, actionId: string, params: Context)
    returns (r: Result<InstanceState, Error>)
    requires context.entries == st.context
    modifies context
    ensures r == HumanStep(wf, host, registry, st, actionId, params)
    ensures r.Success? ==> context.entries == r.value.context
  {
    var allowed := NextPossibleActions(wf, st.currentActionId, context.entries, host.eval);
    if allowed.Failure? {
      return Failure(allowed.error);
    }
    if !HasActionId(allowed.value, actionId) {
      return Failure(NotAllowed(actionId));
    }
    var found := FindAction(wf.actions, actionId);
    if found.None? {
      return Failure(UnknownAction(actionId));
    }
    var action := found.value;
    if action.kind != HUMAN {
      return Failure(NotHuman(actionId));
    }
    var valid := ValidateActionParameters(action, params, host);
    if valid.Fail? {
      return Failure(valid.error);
    }
    context.PutAll(params);
    assert context.entries == st.context + params;
    var bean := ResolveActionBean(registry, actionId);
    if bean.Failure? {
      return Failure(bean.error);
    }
    var ok := Run(bean.value, context);
    if !ok {
      return Failure(HumanActionFailed(actionId));
    }
    return Success(InstanceState(actionId, Some(actionId), st.history + [actionId], context.entries));
  }

  /** One turn of the `while (true)` loop of `executeHumanAndAutomatics`:
      resolve the next possible actions, stop when none is automatic,
      otherwise run the first automatic one on the working context. */
  method RunAutoStep(wf: Workflow, host: Host, registry: seq<Handler>,
                     ghost step: InstanceState -> Result<Option<InstanceState>, Error>,
                     st: InstanceState, context: ContextMap)
    returns (r: Result<Option<InstanceState>, Error>)
    requires IsAutoStep(wf, host, registry, step)
    requires context.entries == st.context
    modifies context
    ensures r == step(st)
    ensures r.Success? && r.value.None? ==> context.entries == old(context.entries)
    ensures r.Success? && r.value.Some? ==> context.entries == r.value.value.context
  {
    var nexts := NextPossibleActions(wf, st.currentActionId, context.entries, host.eval);
    assert step(st) == AutoStep(wf, host, registry, st);
    if nexts.Failure? {
      return Failure(nexts.error);
    }
    var auto := FirstAutomatic(nexts.value);
    if auto.None? {
      return Success(None);
    }
    var nextActionId := auto.value.actionId;
    var autoBean := ResolveActionBean(registry, nextActionId);
    if autoBean.Failure? {
      return Failure(autoBean.error);
    }
    var autoOk := Run(autoBean.value, context);
    if !autoOk {
      return Failure(AutomaticActionFailed(nextActionId));
    }
    return Success(Some(InstanceState(nextActionId, st.lastHumanActionId, st.history + [nextActionId],
                                      context.entries)));
  }

  /** The `while (true)` loop of `executeHumanAndAutomatics`: run the first
      eligible automatic action until none is eligible. */
  method RunCascade(wf: Workflow, host: Host, registry: seq<Handler>,
                    ghost step: InstanceState -> Result<Option<InstanceState>, Error>,
                    st: InstanceState, context: ContextMap, fuel: nat)
    returns (r: Result<InstanceState, Error>)
    requires IsAutoStep(wf, host, registry, step)
    requires context.entries == st.context
    modifies context
    ensures r == Iterate(step, st, fuel)
    ensures r.Success? ==> context.entries == r.value.context
  {
    var here := st;
    var remaining := fuel;
    while true
      invariant context.entries == here.context
      invariant Iterate(step, st, fuel) == Iterate(step, here, remaining)
      decreases remaining
    {
      var turn := RunAutoStep(wf, host, registry, step, here, context);
      if turn.Failure? {
        return Failure(turn.error);
      }
      if turn.value.None? {
        return Success(here);
      }
      if remaining == 0 {
        return Failure(CascadeLimit);
      }
      here := turn.value.value;
      remaining := remaining - 1;
    }
  }

  /** `executeHumanAndAutomatics`. Everything is computed on a working copy
      of the context and on a staged record; the instance is written only
      once the whole execution has succeeded, as the transaction commits it. */
  method ExecuteHumanAndAutomatics(wf: Workflow, host: Host, registry: seq<Handler>,
                                   instance: WorkflowInstance, actionId: string, params: Context, fuel: nat)
    returns (r: Result<Response, Error>)
    modifies instance
    ensures instance.workflowName == old(instance.workflowName) && instance.username == old(instance.username)
    ensures match Trigger(wf, host, registry, old(instance.State()), actionId, params, fuel)
            case Failure(e) => r == Failure(e) && instance.State() == old(instance.State())
            case Success(c) => r == Success(Response(c.nextActions, c.state.context)) && instance.State() == c.state
  {
    ghost var before := instance.State();
    var context := new ContextMap(instance.context);
    var afterHuman := RunHumanStep(wf, host, registry, instance.State(), context, actionId, params);
    if afterHuman.Failure? {
      return Failure(afterHuman.error);
    }
    ghost var step := AutoSteps(wf, host, registry);
    assert IsAutoStep(wf, host, registry, step);
    var final := RunCascade(wf, host, registry, step, afterHuman.value, context, fuel);
    assert final == Cascade(wf, host, registry, afterHuman.value, fuel);
    if final.Failure? {
      return Failure(final.error);
    }
    var possibles := NextPossibleActions(wf, final.value.currentActionId, context.entries, host.eval);
    if possibles.Failure? {
      return Failure(possibles.error);
    }
    var onlyHuman := OnlyHuman(possibles.value);
    assert Trigger(wf, host, registry, before, actionId, params, fuel) == Success(Committed(final.value, onlyHuman));

    instance.context := context.entries;
    instance.lastHumanActionId := final.value.lastHumanActionId;
    instance.currentActionId := final.value.currentActionId;
    instance.history := final.value.history;
    return Success(Response(onlyHuman, context.entries));
  }
}
