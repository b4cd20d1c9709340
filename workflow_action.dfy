/** The contract every action handler implements: `execute` runs against the
    shared context, may update it, and answers whether it succeeded. */
module WorkflowAction {
  import opened Values

  /** What a run of `execute` returns, with the context as it leaves it. */
  datatype HandlerResult = HandlerResult(ok: bool, context: Context)
}
