/** What an execution guarantees: how the history grows, where the cascade
    stops, which triggers are refused and what happens to the context. */
module EngineProperties {
  import opened Wrappers
  import opened Values
  import opened Definition
  import opened WorkflowAction
  import opened Resolver
  import opened Validator
  import opened Handlers
  import opened Dispatcher
  import opened Engine
  import ValidateEmailAction

  /** A property kept by every turn that moves holds where the loop stops,
      and the loop stops only where its body stops. */
  lemma {:induction false} IterateInvariant<S>(step: S -> Result<Option<S>, Error>, s: S, fuel: nat,
                                              final: S, inv: S -> bool)
    requires Iterate(step, s, fuel) == Success(final)
    requires inv(s)
    requires forall a: S :: inv(a) && step(a).Success? && step(a).value.Some? ==> inv(step(a).value.value)
    ensures inv(final)
    ensures step(final) == Success(None)
    decreases fuel
  {
    if step(s) != Success(None) {
      IterateInvariant(step, step(s).value.value, fuel - 1, final, inv);
    }
  }

  /** The first turn of a loop that succeeds: it stops where it starts, or
      it moves and the rest of the loop succeeds with one turn less. */
  lemma IterateFirst<S>(step: S -> Result<Option<S>, Error>, s: S, fuel: nat, final: S)
    requires Iterate(step, s, fuel) == Success(final)
    ensures step(s).Success?
    ensures step(s).value.None? ==> final == s
    ensures step(s).value.Some? ==> fuel > 0 && Iterate(step, step(s).value.value, fuel - 1) == Success(final)
  {
  }

  /** When every turn that moves appends the tag of the state it moves to,
      the loop appends its trace, which holds at most `fuel` labels. */
  lemma {:induction false} IterateTrace<S, T>(step: S -> Result<Option<S>, Error>, s: S, fuel: nat,
                                             final: S, h: S -> seq<T>, tag: S -> T)
    requires Iterate(step, s, fuel) == Success(final)
    requires forall a: S :: step(a).Success? && step(a).value.Some? ==>
               h(step(a).value.value) == h(a) + [tag(step(a).value.value)]
    ensures h(final) == h(s) + Trace(step, s, fuel, tag)
    ensures |Trace(step, s, fuel, tag)| <= fuel
    decreases fuel
  {
    if step(s) != Success(None) {
      var next := step(s).value.value;
      IterateTrace(step, next, fuel - 1, final, h, tag);
      assert Trace(step, s, fuel, tag) == [tag(next)] + Trace(step, next, fuel - 1, tag);
      assert h(next) == h(s) + [tag(next)];
      assert h(s) + ([tag(next)] + Trace(step, next, fuel - 1, tag)) == (h(s) + [tag(next)]) + Trace(step, next, fuel - 1, tag);
    }
  }

  /** The loop fails only with a failure of its body or with `CascadeLimit`. */
  lemma {:induction false} IterateFailure<S>(step: S -> Result<Option<S>, Error>, s: S, fuel: nat,
                                            e: Error, ok: Error -> bool)
    requires Iterate(step, s, fuel) == Failure(e)
    requires ok(CascadeLimit)
    requires forall a: S :: step(a).Failure? ==> ok(step(a).error)
    ensures ok(e)
    decreases fuel
  {
    if step(s).Success? && step(s).value.Some? && fuel > 0 {
      IterateFailure(step, step(s).value.value, fuel - 1, e, ok);
    }
  }

  /** The first automatic candidate of the resolver is the first action
      declared under its id, so that id names an automatic action. */
  lemma FirstAutomaticIsAutomatic(wf: Workflow, host: Host, st: InstanceState, a: ActionDef)
    requires NextActions(wf, st.currentActionId, st.context, host.eval).Success?
    requires FirstAutomatic(NextActions(wf, st.currentActionId, st.context, host.eval).value) == Some(a)
    ensures IsAutomatic(wf, a.actionId)
  {
    var ns := NextActions(wf, st.currentActionId, st.context, host.eval).value;
    var k :| 0 <= k < |ns| && ns[k] == a;
    NextActionDeclared(wf.actions, wf.transitions, st.currentActionId, st.context, host.eval, k);
  }

  /** One turn of the loop either finds no automatic action, and then the
      state is quiescent, or runs the first automatic candidate, appends its
      id and moves the instance to it. */
  lemma AutoStepOutcome(wf: Workflow, host: Host, registry: seq<Handler>, st: InstanceState,
                        step: Option<InstanceState>)
    requires AutoStep(wf, host, registry, st) == Success(step)
    ensures step.None? ==> Quiescent(wf, host, st)
    ensures step.Some? ==>
              var ns := NextActions(wf, st.currentActionId, st.context, host.eval).value;
              && FirstAutomatic(ns).Some?
              && step.value.currentActionId == FirstAutomatic(ns).value.actionId
              && IsAutomatic(wf, step.value.currentActionId)
              && step.value.history == st.history + [step.value.currentActionId]
              && step.value.lastHumanActionId == st.lastHumanActionId
              && Resolve(registry, step.value.currentActionId).Success?
              && Apply(Resolve(registry, step.value.currentActionId).value, st.context).ok
              && step.value.context == Apply(Resolve(registry, step.value.currentActionId).value, st.context).context
  {
    var ns := NextActions(wf, st.currentActionId, st.context, host.eval).value;
    FirstAutomaticNone(ns);
    if FirstAutomatic(ns).Some? {
      FirstAutomaticIsAutomatic(wf, host, st, FirstAutomatic(ns).value);
    }
  }

  /** A cascade that succeeds keeps the history it started from and leaves
      the last human action alone. */
  lemma CascadeKeepsPrefix(wf: Workflow, host: Host, registry: seq<Handler>,
                           st: InstanceState, fuel: nat, final: InstanceState)
    requires Cascade(wf, host, registry, st, fuel) == Success(final)
    ensures |st.history| <= |final.history| && final.history[..|st.history|] == st.history
    ensures final.lastHumanActionId == st.lastHumanActionId
  {
    var step := AutoSteps(wf, host, registry);
    var n := |st.history|;
    var inv := (s: InstanceState) =>
      n <= |s.history| && s.history[..n] == st.history && s.lastHumanActionId == st.lastHumanActionId;
    forall a: InstanceState | inv(a) && step(a).Success? && step(a).value.Some?
      ensures inv(step(a).value.value)
    {
      AutoStepOutcome(wf, host, registry, a, step(a).value);
      var b := step(a).value.value;
      assert b.history[..n] == a.history[..n];
    }
    IterateInvariant(step, st, fuel, final, inv);
  }

  /** Every id a cascade appends names an automatic action. */
  lemma CascadeAppendsAutomatic(wf: Workflow, host: Host, registry: seq<Handler>,
                                st: InstanceState, fuel: nat, final: InstanceState)
    requires Cascade(wf, host, registry, st, fuel) == Success(final)
    ensures forall k :: |st.history| <= k < |final.history| ==> IsAutomatic(wf, final.history[k])
  {
    var step := AutoSteps(wf, host, registry);
    var n := |st.history|;
    var inv := (s: InstanceState) => forall k :: n <= k < |s.history| ==> IsAutomatic(wf, s.history[k]);
    forall a: InstanceState | inv(a) && step(a).Success? && step(a).value.Some?
      ensures inv(step(a).value.value)
    {
      AutoStepOutcome(wf, host, registry, a, step(a).value);
    }
    IterateInvariant(step, st, fuel, final, inv);
  }

  /** A cascade appends to the history exactly the ids of the automatic
      actions it runs, in the order it runs them, at most `fuel` of them. */
  lemma CascadeHistory(wf: Workflow, host: Host, registry: seq<Handler>,
                       st: InstanceState, fuel: nat, final: InstanceState)
    requires Cascade(wf, host, registry, st, fuel) == Success(final)
    ensures final.history == st.history + Ran(wf, host, registry, st, fuel)
    ensures |Ran(wf, host, registry, st, fuel)| <= fuel
  {
    var step := AutoSteps(wf, host, registry);
    forall a: InstanceState | step(a).Success? && step(a).value.Some?
      ensures step(a).value.value.history == a.history + [CurrentId(step(a).value.value)]
    {
      AutoStepOutcome(wf, host, registry, a, step(a).value);
    }
    IterateTrace(step, st, fuel, final, (s: InstanceState) => s.history, CurrentId);
  }

  /** A cascade that succeeds stops in a state that offers no automatic
      action. */
  lemma CascadeQuiescent(wf: Workflow, host: Host, registry: seq<Handler>,
                         st: InstanceState, fuel: nat, final: InstanceState)
    requires Cascade(wf, host, registry, st, fuel) == Success(final)
    ensures Quiescent(wf, host, final)
  {
    var step := AutoSteps(wf, host, registry);
    IterateInvariant(step, st, fuel, final, (s: InstanceState) => true);
    AutoStepOutcome(wf, host, registry, final, None);
  }

  /** A cascade that starts on the last id of the history ends on the last
      id of the history. */
  lemma CascadeEndsOnLast(wf: Workflow, host: Host, registry: seq<Handler>,
                          st: InstanceState, fuel: nat, final: InstanceState)
    requires Cascade(wf, host, registry, st, fuel) == Success(final)
    requires |st.history| > 0 && st.currentActionId == st.history[|st.history| - 1]
    ensures |final.history| > 0 && final.currentActionId == final.history[|final.history| - 1]
  {
    var step := AutoSteps(wf, host, registry);
    var inv := (s: InstanceState) => |s.history| > 0 && s.currentActionId == s.history[|s.history| - 1];
    forall a: InstanceState | inv(a) && step(a).Success? && step(a).value.Some?
      ensures inv(step(a).value.value)
    {
      AutoStepOutcome(wf, host, registry, a, step(a).value);
    }
    IterateInvariant(step, st, fuel, final, inv);
  }

  /** A cascade that succeeds begins with one automatic turn that
      succeeds: if it stops, the cascade ends where it started; if it moves,
      the rest of the cascade succeeds from there with one turn less. */
  lemma CascadeFirst(wf: Workflow, host: Host, registry: seq<Handler>, st: InstanceState,
                     fuel: nat, final: InstanceState) returns (turn: Option<InstanceState>)
    requires Cascade(wf, host, registry, st, fuel) == Success(final)
    ensures AutoStep(wf, host, registry, st) == Success(turn)
    ensures turn.None? ==> final == st
    ensures turn.Some? ==> fuel > 0 && Cascade(wf, host, registry, turn.value, fuel - 1) == Success(final)
  {
    var step := AutoSteps(wf, host, registry);
    IterateFirst(step, st, fuel, final);
    turn := step(st).value;
  }

  /** A history that extends one grown by one id still holds that id
      right after the original history. */
  lemma PrefixAfterTurn(before: seq<string>, after: seq<string>, final: seq<string>)
    requires |after| == |before| + 1 && after[..|before|] == before
    requires |after| <= |final| && final[..|after|] == after
    ensures |final| > |before| && final[|before|] == after[|before|]
  {
    assert final[|before|] == final[..|after|][|before|];
  }

  /** After a turn that moves, the rest of the cascade keeps the id that
      turn appended. */
  lemma TurnThenCascade(wf: Workflow, host: Host, registry: seq<Handler>, st: InstanceState,
                        next: InstanceState, fuel: nat, final: InstanceState)
    requires AutoStep(wf, host, registry, st) == Success(Some(next))
    requires Cascade(wf, host, registry, next, fuel) == Success(final)
    ensures |final.history| > |st.history| && final.history[|st.history|] == next.currentActionId
  {
    AutoStepOutcome(wf, host, registry, st, Some(next));
    CascadeKeepsPrefix(wf, host, registry, next, fuel, final);
    PrefixAfterTurn(st.history, next.history, final.history);
  }

  /** Resolution fails only on a destination that names no action. */
  lemma NextFailureIsUndefined(wf: Workflow, current: string, ctx: Context,
                               eval: (string, Context) -> EvalOutcome, e: Error)
    requires NextActions(wf, current, ctx, eval) == Failure(e)
    ensures e.UndefinedAction?
  {
    NextFailureMatchesSelected(wf.actions, wf.transitions, current, ctx, eval);
  }

  /** A turn of the loop fails on an undeclared destination, on a missing
      handler or on a handler that reports failure. */
  lemma AutoStepFailure(wf: Workflow, host: Host, registry: seq<Handler>, st: InstanceState, e: Error)
    requires AutoStep(wf, host, registry, st) == Failure(e)
    ensures e.UndefinedAction? || e.EmptyActionId? || e.NoHandler? || e.AutomaticActionFailed?
  {
    var ns := NextActions(wf, st.currentActionId, st.context, host.eval);
    if ns.Failure? {
      NextFailureIsUndefined(wf, st.currentActionId, st.context, host.eval, ns.error);
    }
  }

  /** The cascade fails like one of its turns, or by running out of fuel. */
  lemma CascadeFailure(wf: Workflow, host: Host, registry: seq<Handler>,
                       st: InstanceState, fuel: nat, e: Error)
    requires Cascade(wf, host, registry, st, fuel) == Failure(e)
    ensures e.UndefinedAction? || e.EmptyActionId? || e.NoHandler? || e.AutomaticActionFailed? || e.CascadeLimit?
  {
    var step := AutoSteps(wf, host, registry);
    forall a: InstanceState | step(a).Failure?
      ensures step(a).error.UndefinedAction? || step(a).error.EmptyActionId? || step(a).error.NoHandler?
              || step(a).error.AutomaticActionFailed?
    {
      AutoStepFailure(wf, host, registry, a, step(a).error);
    }
    IterateFailure(step, st, fuel, e, (x: Error) =>
      x.UndefinedAction? || x.EmptyActionId? || x.NoHandler? || x.AutomaticActionFailed? || x.CascadeLimit?);
  }

  /** The human step succeeds only for a trigger that is among the next
      possible actions, names a HUMAN action and carries valid parameters;
      it appends the trigger to the history and makes it both the current
      and the last human action. */
  lemma HumanStepOutcome(wf: Workflow, host: Host, registry: seq<Handler>, st: InstanceState,
                         actionId: string, params: Context, afterHuman: InstanceState)
    requires HumanStep(wf, host, registry, st, actionId, params) == Success(afterHuman)
    ensures var allowed := NextActions(wf, st.currentActionId, st.context, host.eval);
            && allowed.Success? && HasActionId(allowed.value, actionId)
            && FindAction(wf.actions, actionId).Some?
            && FindAction(wf.actions, actionId).value.kind == HUMAN
            && Validate(FindAction(wf.actions, actionId).value.parameters, params, host) == Pass
    ensures afterHuman.history == st.history + [actionId]
    ensures afterHuman.currentActionId == actionId && afterHuman.lastHumanActionId == Some(actionId)
    ensures Resolve(registry, actionId).Success?
    ensures Apply(Resolve(registry, actionId).value, st.context + params).ok
    ensures afterHuman.context == Apply(Resolve(registry, actionId).value, st.context + params).context
  {
  }

  /** A successful execution is a successful human step followed by a
      successful cascade, and returns the human actions possible from where
      the cascade stopped. */
  lemma TriggerSteps(wf: Workflow, host: Host, registry: seq<Handler>, st: InstanceState,
                     actionId: string, params: Context, fuel: nat, c: Committed)
    returns (afterHuman: InstanceState)
    requires Trigger(wf, host, registry, st, actionId, params, fuel) == Success(c)
    ensures HumanStep(wf, host, registry, st, actionId, params) == Success(afterHuman)
    ensures Cascade(wf, host, registry, afterHuman, fuel) == Success(c.state)
    ensures NextActions(wf, c.state.currentActionId, c.state.context, host.eval).Success?
    ensures c.nextActions == OnlyHuman(NextActions(wf, c.state.currentActionId, c.state.context, host.eval).value)
  {
    afterHuman := HumanStep(wf, host, registry, st, actionId, params).value;
  }

  /** A human step followed by a cascade appends the trigger and then the
      ids of the automatic actions run, in the order they ran, at most `fuel`
      of them. */
  lemma StepsHistory(wf: Workflow, host: Host, registry: seq<Handler>, st: InstanceState,
                     actionId: string, params: Context, fuel: nat, afterHuman: InstanceState, final: InstanceState)
    requires HumanStep(wf, host, registry, st, actionId, params) == Success(afterHuman)
    requires Cascade(wf, host, registry, afterHuman, fuel) == Success(final)
    ensures |st.history| + 1 <= |final.history| <= |st.history| + 1 + fuel
    ensures final.history[..|st.history| + 1] == st.history + [actionId]
    ensures forall k :: |st.history| + 1 <= k < |final.history| ==> IsAutomatic(wf, final.history[k])
    ensures final.history == st.history + [actionId] + Ran(wf, host, registry, afterHuman, fuel)
  {
    HumanStepOutcome(wf, host, registry, st, actionId, params, afterHuman);
    CascadeKeepsPrefix(wf, host, registry, afterHuman, fuel, final);
    CascadeAppendsAutomatic(wf, host, registry, afterHuman, fuel, final);
    CascadeHistory(wf, host, registry, afterHuman, fuel, final);
  }

  /** A successful execution appends the triggered id and then the ids of
      the automatic actions it ran, in order, at most `fuel` of them. */
  lemma TriggerHistory(wf: Workflow, host: Host, registry: seq<Handler>, st: InstanceState,
                       actionId: string, params: Context, fuel: nat, c: Committed)
    requires Trigger(wf, host, registry, st, actionId, params, fuel) == Success(c)
    ensures |st.history| + 1 <= |c.state.history| <= |st.history| + 1 + fuel
    ensures c.state.history[..|st.history| + 1] == st.history + [actionId]
    ensures forall k :: |st.history| + 1 <= k < |c.state.history| ==> IsAutomatic(wf, c.state.history[k])
    ensures HumanStep(wf, host, registry, st, actionId, params).Success?
    ensures c.state.history
            == st.history + [actionId] + Ran(wf, host, registry, HumanStep(wf, host, registry, st, actionId, params).value, fuel)
  {
    var afterHuman := TriggerSteps(wf, host, registry, st, actionId, params, fuel, c);
    StepsHistory(wf, host, registry, st, actionId, params, fuel, afterHuman, c.state);
  }

  /** A human step followed by a cascade ends on the last id appended, with
      the trigger as the last human action. */
  lemma StepsEnd(wf: Workflow, host: Host, registry: seq<Handler>, st: InstanceState,
                 actionId: string, params: Context, fuel: nat, afterHuman: InstanceState, final: InstanceState)
    requires HumanStep(wf, host, registry, st, actionId, params) == Success(afterHuman)
    requires Cascade(wf, host, registry, afterHuman, fuel) == Success(final)
    ensures final.lastHumanActionId == Some(actionId)
    ensures |final.history| > 0 && final.currentActionId == final.history[|final.history| - 1]
  {
    HumanStepOutcome(wf, host, registry, st, actionId, params, afterHuman);
    CascadeKeepsPrefix(wf, host, registry, afterHuman, fuel, final);
    CascadeEndsOnLast(wf, host, registry, afterHuman, fuel, final);
  }

  /** A successful execution records the trigger as the last human action
      and ends on the last id it appended. */
  lemma TriggerEnd(wf: Workflow, host: Host, registry: seq<Handler>, st: InstanceState,
                   actionId: string, params: Context, fuel: nat, c: Committed)
    requires Trigger(wf, host, registry, st, actionId, params, fuel) == Success(c)
    ensures c.state.lastHumanActionId == Some(actionId)
    ensures |c.state.history| > 0 && c.state.currentActionId == c.state.history[|c.state.history| - 1]
  {
    var afterHuman := TriggerSteps(wf, host, registry, st, actionId, params, fuel, c);
    StepsEnd(wf, host, registry, st, actionId, params, fuel, afterHuman, c.state);
  }

  /** A successful execution stops in a state that offers no automatic
      action and returns exactly the HUMAN actions possible from there. */
  lemma TriggerOffers(wf: Workflow, host: Host, registry: seq<Handler>, st: InstanceState,
                      actionId: string, params: Context, fuel: nat, c: Committed)
    requires Trigger(wf, host, registry, st, actionId, params, fuel) == Success(c)
    ensures Quiescent(wf, host, c.state)
    ensures var ns := NextActions(wf, c.state.currentActionId, c.state.context, host.eval).value;
            forall a :: a in c.nextActions <==> a in ns && a.kind == HUMAN
  {
    var afterHuman := TriggerSteps(wf, host, registry, st, actionId, params, fuel, c);
    CascadeQuiescent(wf, host, registry, afterHuman, fuel, c.state);
    OnlyHumanMembers(NextActions(wf, c.state.currentActionId, c.state.context, host.eval).value);
  }

  /** The refusals, each leaving nothing to commit: a trigger that is not
      among the next possible actions, one that is not HUMAN, one whose
      parameters fail validation (with the first failure). */
  lemma TriggerRefusals(wf: Workflow, host: Host, registry: seq<Handler>, st: InstanceState,
                        actionId: string, params: Context, fuel: nat, allowed: seq<ActionDef>)
    requires NextActions(wf, st.currentActionId, st.context, host.eval) == Success(allowed)
    ensures !HasActionId(allowed, actionId) ==>
              Trigger(wf, host, registry, st, actionId, params, fuel) == Failure(NotAllowed(actionId))
    ensures HasActionId(allowed, actionId) ==> FindAction(wf.actions, actionId).Some?
    ensures HasActionId(allowed, actionId) && FindAction(wf.actions, actionId).value.kind != HUMAN ==>
              Trigger(wf, host, registry, st, actionId, params, fuel) == Failure(NotHuman(actionId))
    ensures HasActionId(allowed, actionId) && FindAction(wf.actions, actionId).value.kind == HUMAN
            && Validate(FindAction(wf.actions, actionId).value.parameters, params, host).Fail? ==>
              Trigger(wf, host, registry, st, actionId, params, fuel)
              == Failure(Validate(FindAction(wf.actions, actionId).value.parameters, params, host).error)
  {
    if HasActionId(allowed, actionId) {
      var k :| 0 <= k < |allowed| && allowed[k].actionId == actionId;
      NextActionDeclared(wf.actions, wf.transitions, st.currentActionId, st.context, host.eval, k);
    }
  }

  /** The human step is refused when resolution fails, when the trigger is
      not allowed or not HUMAN, when a parameter is invalid, when no handler
      is registered for it or when its handler reports failure; an allowed
      trigger always names a declared action, so never `UnknownAction`. */
  lemma HumanStepFailure(wf: Workflow, host: Host, registry: seq<Handler>, st: InstanceState,
                         actionId: string, params: Context, e: Error)
    requires HumanStep(wf, host, registry, st, actionId, params) == Failure(e)
    ensures || e.UndefinedAction? || e == NotAllowed(actionId) || e == NotHuman(actionId)
            || e.InvalidParameter? || e == EmptyActionId || e == NoHandler(actionId)
            || e == HumanActionFailed(actionId)
  {
    var allowed := NextActions(wf, st.currentActionId, st.context, host.eval);
    if allowed.Failure? {
      NextFailureIsUndefined(wf, st.currentActionId, st.context, host.eval, allowed.error);
    } else if HasActionId(allowed.value, actionId) {
      var k :| 0 <= k < |allowed.value| && allowed.value[k].actionId == actionId;
      NextActionDeclared(wf.actions, wf.transitions, st.currentActionId, st.context, host.eval, k);
      var action := FindAction(wf.actions, actionId).value;
      if action.kind == HUMAN && Validate(action.parameters, params, host).Fail? {
        ValidateFirstFailure(action.parameters, params, host);
      }
    }
  }

  /** An execution fails like its human step or its cascade, or when
      resolution fails where the cascade stopped; never with `UnknownAction`. */
  lemma TriggerFailure(wf: Workflow, host: Host, registry: seq<Handler>, st: InstanceState,
                       actionId: string, params: Context, fuel: nat, e: Error)
    requires Trigger(wf, host, registry, st, actionId, params, fuel) == Failure(e)
    ensures || e.UndefinedAction? || e == NotAllowed(actionId) || e == NotHuman(actionId)
            || e.InvalidParameter? || e == EmptyActionId || e.NoHandler?
            || e == HumanActionFailed(actionId) || e.AutomaticActionFailed? || e == CascadeLimit
    ensures !e.UnknownAction?
  {
    var human := HumanStep(wf, host, registry, st, actionId, params);
    if human.Failure? {
      HumanStepFailure(wf, host, registry, st, actionId, params, e);
    } else {
      var cascade := Cascade(wf, host, registry, human.value, fuel);
      if cascade.Failure? {
        CascadeFailure(wf, host, registry, human.value, fuel, e);
      } else {
        var final := cascade.value;
        NextFailureIsUndefined(wf, final.currentActionId, final.context, host.eval, e);
      }
    }
  }

  /** Every handler registered is one of this repository's. */
  predicate RepositoryOnly(registry: seq<Handler>) {
    forall k :: 0 <= k < |registry| ==> !registry[k].Custom?
  }

  /** `after` keeps every key of `before`, and the value of every key but
      `emailVerified`. */
  predicate Preserves(before: Context, after: Context) {
    before.Keys <= after.Keys
    && forall k :: k in before && k != ValidateEmailAction.EMAIL_VERIFIED ==> after[k] == before[k]
  }

  lemma ResolvedIsRepository(registry: seq<Handler>, id: string)
    requires RepositoryOnly(registry) && Resolve(registry, id).Success?
    ensures !Resolve(registry, id).value.Custom?
  {
    ResolveFirstMatch(registry, id);
  }

  /** A turn of the loop with this repository's handlers preserves the
      context. */
  lemma AutoStepPreserves(wf: Workflow, host: Host, registry: seq<Handler>, st: InstanceState,
                          next: InstanceState)
    requires RepositoryOnly(registry)
    requires AutoStep(wf, host, registry, st) == Success(Some(next))
    ensures Preserves(st.context, next.context)
  {
    var ns := NextActions(wf, st.currentActionId, st.context, host.eval).value;
    var a := FirstAutomatic(ns).value;
    ResolvedIsRepository(registry, a.actionId);
    var h := Resolve(registry, a.actionId).value;
    assert next.context == Apply(h, st.context).context;
    BuiltinPreserves(h, st.context);
  }

  /** With this repository's handlers the cascade preserves the context. */
  lemma CascadePreserves(wf: Workflow, host: Host, registry: seq<Handler>,
                         st: InstanceState, fuel: nat, final: InstanceState)
    requires RepositoryOnly(registry)
    requires Cascade(wf, host, registry, st, fuel) == Success(final)
    ensures Preserves(st.context, final.context)
  {
    var step := AutoSteps(wf, host, registry);
    var inv := (s: InstanceState) => Preserves(st.context, s.context);
    forall a: InstanceState | inv(a) && step(a).Success? && step(a).value.Some?
      ensures inv(step(a).value.value)
    {
      AutoStepPreserves(wf, host, registry, a, step(a).value.value);
    }
    IterateInvariant(step, st, fuel, final, inv);
  }

  /** With this repository's handlers, an execution never removes a context
      key; a submitted parameter overwrites the stored value of its key and
      keeps it to the end, and every other stored value is kept (the only
      key a handler rewrites is `emailVerified`). */
  lemma TriggerContext(wf: Workflow, host: Host, registry: seq<Handler>, st: InstanceState,
                       actionId: string, params: Context, fuel: nat, c: Committed)
    requires RepositoryOnly(registry)
    requires Trigger(wf, host, registry, st, actionId, params, fuel) == Success(c)
    ensures st.context.Keys + params.Keys <= c.state.context.Keys
    ensures forall k :: k in params && k != ValidateEmailAction.EMAIL_VERIFIED ==> c.state.context[k] == params[k]
    ensures forall k :: k in st.context && k !in params && k != ValidateEmailAction.EMAIL_VERIFIED ==>
              c.state.context[k] == st.context[k]
  {
    var afterHuman := TriggerSteps(wf, host, registry, st, actionId, params, fuel, c);
    ResolvedIsRepository(registry, actionId);
    var h := Resolve(registry, actionId).value;
    BuiltinPreserves(h, st.context + params);
    assert afterHuman.context == Apply(h, st.context + params).context;
    CascadePreserves(wf, host, registry, afterHuman, fuel, c.state);
  }
}
