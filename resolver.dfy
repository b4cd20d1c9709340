/** The transition resolver: which actions may fire next from the current
    action, given the context (`getNextPossibleActions` and `groupValid`). */
module Resolver {
  import opened Wrappers
  import opened Values
  import opened Definition

  /** `Character.isWhitespace`: the Unicode space, line and paragraph
      separators except the no-break spaces, and the controls 9-13, 28-31. */
  predicate IsJavaWhitespace(c: char) {
    var n := c as int;
    n == 0x20 || 0x09 <= n <= 0x0D || 0x1C <= n <= 0x1F || n == 0x1680
    || 0x2000 <= n <= 0x2006 || 0x2008 <= n <= 0x200A
    || n == 0x2028 || n == 0x2029 || n == 0x205F || n == 0x3000
  }

  /** `String.isBlank`. */
  predicate IsBlank(s: string) {
    forall i :: 0 <= i < |s| ==> IsJavaWhitespace(s[i])
  }

  /** A group is satisfied when it holds at least one expression and every
      non-blank expression evaluates to boolean true. A non-empty group of
      blank expressions only is therefore satisfied. */
  predicate Satisfied(g: ConditionGroup, ctx: Context, eval: (string, Context) -> EvalOutcome) {
    |g| > 0 && forall i :: 0 <= i < |g| && !IsBlank(g[i]) ==> eval(g[i], ctx) == True
  }

  /** A transition may be taken when it has no condition group or when one of
      its groups is satisfied. */
  predicate Eligible(t: Transition, ctx: Context, eval: (string, Context) -> EvalOutcome) {
    |t.conditionGroups| == 0
    || exists i :: 0 <= i < |t.conditionGroups| && Satisfied(t.conditionGroups[i], ctx, eval)
  }

  /** `groupValid`: walks the expressions, skips blank ones and answers
      false at the first one that raises, is not a Boolean, or is false. */
  method GroupValid(g: ConditionGroup, ctx: Context, eval: (string, Context) -> EvalOutcome)
    returns (valid: bool)
    ensures valid == Satisfied(g, ctx, eval)
  {
    if |g| == 0 {
      return false;
    }
    var i := 0;
    while i < |g|
      invariant 0 <= i <= |g|
      invariant forall j :: 0 <= j < i && !IsBlank(g[j]) ==> eval(g[j], ctx) == True
    {
      var expr := g[i];
      if !IsBlank(expr) {
        var result := eval(expr, ctx);
        if result != True {
          return false;
        }
      }
      i := i + 1;
    }
    return true;
  }

  /** The OR over the groups of one transition (`anyMatch`), with the empty
      list of groups counting as unconditional. */
  method IsEligible(t: Transition, ctx: Context, eval: (string, Context) -> EvalOutcome)
    returns (eligible: bool)
    ensures eligible == Eligible(t, ctx, eval)
  {
    var groups := t.conditionGroups;
    if |groups| == 0 {
      return true;
    }
    var i := 0;
    while i < |groups|
      invariant 0 <= i <= |groups|
      invariant forall j :: 0 <= j < i ==> !Satisfied(groups[j], ctx, eval)
    {
      var valid := GroupValid(groups[i], ctx, eval);
      if valid {
        return true;
      }
      i := i + 1;
    }
    return false;
  }

  /** The transitions that leave `current` and are eligible, in declaration
      order, duplicates kept. */
  function Selected(ts: seq<Transition>, current: string, ctx: Context,
                    eval: (string, Context) -> EvalOutcome): seq<Transition>
  {
    if ts == [] then []
    else if ts[0].fromActionId == current && Eligible(ts[0], ctx, eval) then
      [ts[0]] + Selected(ts[1..], current, ctx, eval)
    else Selected(ts[1..], current, ctx, eval)
  }

  /** The transitions selected are exactly the eligible ones leaving
      `current`. */
  lemma {:induction false} SelectedMembers(ts: seq<Transition>, current: string, ctx: Context,
                                          eval: (string, Context) -> EvalOutcome)
    ensures forall t :: t in Selected(ts, current, ctx, eval)
                        <==> t in ts && t.fromActionId == current && Eligible(t, ctx, eval)
  {
    if ts != [] {
      SelectedMembers(ts[1..], current, ctx, eval);
      assert forall t :: t in ts <==> t == ts[0] || t in ts[1..];
    }
  }

  /** The accumulator of `getNextPossibleActions` after the transitions
      `ts`: the destination of each eligible transition leaving `current`,
      or the failure of the first such destination that names no action. */
  function Next(actions: seq<ActionDef>, ts: seq<Transition>, current: string, ctx: Context,
                eval: (string, Context) -> EvalOutcome): Result<seq<ActionDef>, Error>
  {
    if ts == [] then Success([])
    else
      match Next(actions, ts[..|ts| - 1], current, ctx, eval)
      case Failure(e) => Failure(e)
      case Success(prefix) =>
        var t := ts[|ts| - 1];
        if t.fromActionId != current || !Eligible(t, ctx, eval) then Success(prefix)
        else
          match FindAction(actions, t.toActionId)
          case None => Failure(UndefinedAction(t.toActionId))
          case Some(a) => Success(prefix + [a])
  }

  /** The actions that may fire next from `current`. */
  function NextActions(wf: Workflow, current: string, ctx: Context,
                       eval: (string, Context) -> EvalOutcome): Result<seq<ActionDef>, Error>
  {
    Next(wf.actions, wf.transitions, current, ctx, eval)
  }

  lemma {:induction false} SelectedSnoc(ts: seq<Transition>, current: string, ctx: Context,
                                       eval: (string, Context) -> EvalOutcome)
    requires ts != []
    ensures var t := ts[|ts| - 1];
            Selected(ts, current, ctx, eval)
            == Selected(ts[..|ts| - 1], current, ctx, eval)
               + (if t.fromActionId == current && Eligible(t, ctx, eval) then [t] else [])
  {
    if |ts| > 1 {
      SelectedSnoc(ts[1..], current, ctx, eval);
      assert ts[1..][..|ts[1..]| - 1] == ts[..|ts| - 1][1..];
    }
  }

  /** The resolver against the plain filter, success side: the result holds,
      in order and one for one, the first action declared under the
      destination of each selected transition. */
  lemma {:induction false} NextSuccessMatchesSelected(actions: seq<ActionDef>, ts: seq<Transition>, current: string,
                                                     ctx: Context, eval: (string, Context) -> EvalOutcome)
    requires Next(actions, ts, current, ctx, eval).Success?
    ensures var sel, r := Selected(ts, current, ctx, eval), Next(actions, ts, current, ctx, eval).value;
            |r| == |sel| && forall k :: 0 <= k < |sel| ==> FindAction(actions, sel[k].toActionId) == Some(r[k])
  {
    if ts != [] {
      var init, t := ts[..|ts| - 1], ts[|ts| - 1];
      NextSuccessMatchesSelected(actions, init, current, ctx, eval);
      SelectedSnoc(ts, current, ctx, eval);
      var selInit, sel := Selected(init, current, ctx, eval), Selected(ts, current, ctx, eval);
      var pre := Next(actions, init, current, ctx, eval).value;
      var r := Next(actions, ts, current, ctx, eval).value;
      if t.fromActionId == current && Eligible(t, ctx, eval) {
        assert sel == selInit + [t];
        assert r == pre + [FindAction(actions, t.toActionId).value];
        forall k | 0 <= k < |sel|
          ensures FindAction(actions, sel[k].toActionId) == Some(r[k])
        {
          if k < |selInit| {
            assert sel[k] == selInit[k] && r[k] == pre[k];
          }
        }
      } else {
        assert sel == selInit && r == pre;
      }
    }
  }

  /** The resolver against the plain filter, failure side: it fails only
      when a selected transition leads to no action, and then with the
      first such destination. */
  lemma {:induction false} NextFailureMatchesSelected(actions: seq<ActionDef>, ts: seq<Transition>, current: string,
                                                     ctx: Context, eval: (string, Context) -> EvalOutcome)
    requires Next(actions, ts, current, ctx, eval).Failure?
    ensures var sel, e := Selected(ts, current, ctx, eval), Next(actions, ts, current, ctx, eval).error;
            exists k :: 0 <= k < |sel| && FindAction(actions, sel[k].toActionId).None?
                        && e == UndefinedAction(sel[k].toActionId)
                        && forall j :: 0 <= j < k ==> FindAction(actions, sel[j].toActionId).Some?
  {
    var init, t := ts[..|ts| - 1], ts[|ts| - 1];
    SelectedSnoc(ts, current, ctx, eval);
    var selInit, sel := Selected(init, current, ctx, eval), Selected(ts, current, ctx, eval);
    var pre := Next(actions, init, current, ctx, eval);
    var e := Next(actions, ts, current, ctx, eval).error;
    if pre.Failure? {
      NextFailureMatchesSelected(actions, init, current, ctx, eval);
      var k :| 0 <= k < |selInit| && FindAction(actions, selInit[k].toActionId).None?
               && pre.error == UndefinedAction(selInit[k].toActionId)
               && forall j :: 0 <= j < k ==> FindAction(actions, selInit[j].toActionId).Some?;
      assert sel[k] == selInit[k];
      assert forall j :: 0 <= j < k ==> sel[j] == selInit[j];
    } else {
      NextSuccessMatchesSelected(actions, init, current, ctx, eval);
      assert sel == selInit + [t];
      var k := |selInit|;
      assert sel[k] == t;
      assert forall j :: 0 <= j < k ==> sel[j] == selInit[j];
    }
  }

  /** Every action the resolver returns is declared in the definition, is the
      first one declared under its id, and is the destination of an eligible
      transition leaving `current`. */
  lemma {:induction false} NextActionDeclared(actions: seq<ActionDef>, ts: seq<Transition>, current: string,
                                             ctx: Context, eval: (string, Context) -> EvalOutcome, k: nat)
    requires Next(actions, ts, current, ctx, eval).Success?
    requires k < |Next(actions, ts, current, ctx, eval).value|
    ensures var a := Next(actions, ts, current, ctx, eval).value[k];
            a in actions && FindAction(actions, a.actionId) == Some(a)
            && exists t :: t in ts && t.fromActionId == current && Eligible(t, ctx, eval)
                           && t.toActionId == a.actionId
  {
    var init, last := ts[..|ts| - 1], ts[|ts| - 1];
    var r := Next(actions, ts, current, ctx, eval).value;
    var prefix := Next(actions, init, current, ctx, eval).value;
    if k < |prefix| {
      NextActionDeclared(actions, init, current, ctx, eval, k);
      assert r[k] == prefix[k];
      var t :| t in init && t.fromActionId == current && Eligible(t, ctx, eval)
               && t.toActionId == prefix[k].actionId;
      assert t in ts;
    } else {
      assert r == prefix + [r[k]];
      assert FindAction(actions, last.toActionId) == Some(r[k]);
      assert last in ts;
    }
  }

  lemma {:induction false} NextPrefixFailure(actions: seq<ActionDef>, ts: seq<Transition>, i: nat,
                                            current: string, ctx: Context, eval: (string, Context) -> EvalOutcome)
    requires i <= |ts|
    requires Next(actions, ts[..i], current, ctx, eval).Failure?
    ensures Next(actions, ts, current, ctx, eval) == Next(actions, ts[..i], current, ctx, eval)
    decreases |ts| - i
  {
    if i < |ts| {
      assert ts[..i + 1][..i] == ts[..i];
      NextPrefixFailure(actions, ts, i + 1, current, ctx, eval);
    } else {
      assert ts[..i] == ts;
    }
  }

  /** A transition appended to the definition that does not leave
      `current`, or whose groups all fail, adds nothing. */
  lemma NextSkip(actions: seq<ActionDef>, ts: seq<Transition>, t: Transition, current: string,
                 ctx: Context, eval: (string, Context) -> EvalOutcome)
    requires t.fromActionId != current || !Eligible(t, ctx, eval)
    ensures Next(actions, ts + [t], current, ctx, eval) == Next(actions, ts, current, ctx, eval)
  {
    assert (ts + [t])[..|ts|] == ts;
  }

  /** A transition appended to the definition that leaves `current` and is
      eligible adds the first action declared under its destination, after
      what the earlier transitions gave. */
  lemma NextAppend(actions: seq<ActionDef>, ts: seq<Transition>, t: Transition, current: string,
                   ctx: Context, eval: (string, Context) -> EvalOutcome, prefix: seq<ActionDef>, a: ActionDef)
    requires Next(actions, ts, current, ctx, eval) == Success(prefix)
    requires t.fromActionId == current && Eligible(t, ctx, eval)
    requires FindAction(actions, t.toActionId) == Some(a)
    ensures Next(actions, ts + [t], current, ctx, eval) == Success(prefix + [a])
  {
    assert (ts + [t])[..|ts|] == ts;
  }

  /** `getNextPossibleActions`: one pass over the transitions, appending the
      destination of every eligible transition that leaves `current`. */
  method NextPossibleActions(wf: Workflow, current: string, ctx: Context,
                             eval: (string, Context) -> EvalOutcome)
    returns (r: Result<seq<ActionDef>, Error>)
    ensures r == NextActions(wf, current, ctx, eval)
  {
    var ts := wf.transitions;
    var possibles: seq<ActionDef> := [];
    var i := 0;
    while i < |ts|
      invariant 0 <= i <= |ts|
      invariant Next(wf.actions, ts[..i], current, ctx, eval) == Success(possibles)
    {
      var t := ts[i];
      assert ts[..i + 1][..i] == ts[..i];
      if t.fromActionId == current {
        var eligible := IsEligible(t, ctx, eval);
        if eligible {
          var target := FindAction(wf.actions, t.toActionId);
          if target.None? {
            NextPrefixFailure(wf.actions, ts, i + 1, current, ctx, eval);
            return Failure(UndefinedAction(t.toActionId));
          }
          possibles := possibles + [target.value];
        }
      }
      i := i + 1;
    }
    assert ts[..i] == ts;
    return Success(possibles);
  }
}
