/** The handlers the container discovers (every bean implementing
    `WorkflowAction`), with the simple class name the dispatcher matches. */
module Handlers {
  import opened Values
  import opened WorkflowAction
  import ValidateEmailAction
  import FillUserInfoAction

  /** One registered handler: the two of this repository, or any other bean
      given by its simple class name and its effect on the context. */
  datatype Handler =
    | ValidateEmail
    | FillUserInfo
    | Custom(className: string, run: Context -> HandlerResult)

  /** `getBeanClass().getSimpleName()`. */
  function SimpleName(h: Handler): string {
    match h
    case ValidateEmail => "ValidateEmailAction"
    case FillUserInfo => "FillUserInfoAction"
    case Custom(name, _) => name
  }

  /** The effect of `execute` for a handler. */
  function Apply(h: Handler, ctx: Context): HandlerResult {
    match h
    case ValidateEmail => ValidateEmailAction.Execute(ctx)
    case FillUserInfo => FillUserInfoAction.Execute(ctx)
    case Custom(_, run) => run(ctx)
  }

  /** The virtual call `bean.execute(context)` on the shared context. */
  method Run(h: Handler, context: ContextMap) returns (ok: bool)
    modifies context
    ensures HandlerResult(ok, context.entries) == Apply(h, old(context.entries))
  {
    match h
    case ValidateEmail =>
      ok := ValidateEmailAction.ExecuteOn(context);
    case FillUserInfo =>
      ok := FillUserInfoAction.Execute(context.entries).ok;
    case Custom(_, run) =>
      var r := run(context.entries);
      context.entries := r.context;
      ok := r.ok;
  }

  /** The handlers this repository ships. */
  const RepositoryHandlers: seq<Handler> := [ValidateEmail, FillUserInfo]

  /** Neither handler of this repository removes a key, and every key other
      than `emailVerified` keeps its value. */
  lemma {:induction false} BuiltinPreserves(h: Handler, ctx: Context)
    requires !h.Custom?
    ensures var out := Apply(h, ctx).context;
            ctx.Keys <= out.Keys
            && forall k :: k in ctx && k != ValidateEmailAction.EMAIL_VERIFIED ==> out[k] == ctx[k]
  {
  }
}
