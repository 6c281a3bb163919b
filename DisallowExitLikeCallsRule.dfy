/** The exit rule: every `exit` and `die` expression is flagged, unconditionally. */
module DisallowExitLikeCalls {
  import opened Diagnostics

  function NodeType(): NodeKind {
    ExitKind
  }

  /** Exactly one error, the same for every exit node whatever its spelling or argument. */
  function ProcessNode(node: Node): (errors: seq<RuleError>)
    requires KindOf(node) == NodeType()
    ensures |errors| == 1
    ensures errors[0].identifier == ExitId && errors[0].message == "Disallowed exit/die usage."
  {
    [RuleError("Disallowed exit/die usage.", ExitId)]
  }
}
