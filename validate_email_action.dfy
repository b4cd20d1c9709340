/** The automatic handler `ValidateEmailAction`: it needs an `email` in the
    context and marks it verified. */
module ValidateEmailAction {
  import opened Values
  import opened WorkflowAction

  const EMAIL := "email"
  const EMAIL_VERIFIED := "emailVerified"

  /** `context.get("email") != null`: the key is present and not null. */
  predicate HasEmail(ctx: Context) {
    Get(ctx, EMAIL) != Null
  }

  /** The effect of `execute` on a context. */
  function Execute(ctx: Context): (r: HandlerResult)
    ensures r.ok <==> HasEmail(ctx)
    ensures !r.ok ==> r.context == ctx
    ensures r.ok ==> r.context.Keys == ctx.Keys + {EMAIL_VERIFIED} && r.context[EMAIL_VERIFIED] == Bool(true)
    ensures forall k :: k in ctx && k != EMAIL_VERIFIED ==> k in r.context && r.context[k] == ctx[k]
  {
    if !HasEmail(ctx) then HandlerResult(false, ctx)
    else HandlerResult(true, ctx[EMAIL_VERIFIED := Bool(true)])
  }

  /** `execute`, updating the shared context in place. */
  method ExecuteOn(context: ContextMap) returns (ok: bool)
    modifies context
    ensures HandlerResult(ok, context.entries) == Execute(old(context.entries))
  {
    var email := Get(context.entries, EMAIL);
    if email == Null {
      return false;
    }
    context.Put(EMAIL_VERIFIED, Bool(true));
    return true;
  }

  /** Running the handler a second time changes nothing more. */
  lemma Idempotent(ctx: Context)
    requires HasEmail(ctx)
    ensures Execute(Execute(ctx).context) == Execute(ctx)
  {
    var once := Execute(ctx).context;
    assert once[EMAIL_VERIFIED := Bool(true)] == once;
  }
}
