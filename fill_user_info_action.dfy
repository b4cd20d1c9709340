/** The human handler `FillUserInfoAction`: the submitted inputs are already
    in the context, so there is nothing left to do. */
module FillUserInfoAction {
  import opened Values
  import opened WorkflowAction

  /** The effect of `execute`: success, context untouched. */
  function Execute(ctx: Context): (r: HandlerResult)
    ensures r.ok && r.context == ctx
  {
    HandlerResult(true, ctx)
  }

  /** The context after `n` successive runs, stopping at the first failure. */
  function RunTimes(n: nat, ctx: Context): HandlerResult
  {
    if n == 0 then HandlerResult(true, ctx)
    else
      var r := Execute(ctx);
      if !r.ok then r else RunTimes(n - 1, r.context)
  }

  /** Any number of runs succeeds and leaves the context as it was. */
  lemma {:induction false} RunTimesUnchanged(n: nat, ctx: Context)
    ensures RunTimes(n, ctx) == HandlerResult(true, ctx)
  {
    if n > 0 {
      RunTimesUnchanged(n - 1, ctx);
    }
  }
}
