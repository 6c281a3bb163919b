/** The debug-helper rule: flags leftover calls to `dd` and `dump`, in any case. */
module DisallowDebugHelpers {
  import opened Wrappers
  import opened PhpStrings
  import opened Diagnostics

  /** The fixed table of debug helpers, keyed by lower-case name. */
  const DebugHelpers: set<string> := {"dd", "dump"}

  function NodeType(): NodeKind {
    FuncCallKind
  }

  /** At most one error: exactly when the plain call name is `dd` or `dump` ignoring case. */
  function ProcessNode(node: Node): (errors: seq<RuleError>)
    requires KindOf(node) == NodeType()
    ensures |errors| <= 1
    ensures |errors| == 1 <==>
      node.name.Some? && (ToLower(node.name.value) == "dd" || ToLower(node.name.value) == "dump")
    ensures |errors| == 1 ==>
      errors[0] == RuleError("Disallowed debug helper " + ToLower(node.name.value) + "() used.", DebugId)
  {
    match node.name
    case None => []
    case Some(raw) =>
      var name := ToLower(raw);
      if name !in DebugHelpers then []
      else [RuleError("Disallowed debug helper " + name + "() used.", DebugId)]
  }

  /** `DD` and `Dump` are caught like `dd` and `dump`; `ddd` is not. */
  lemma DebugHelpersAnyCase()
    ensures |ProcessNode(FuncCall(Some("DD")))| == 1
    ensures |ProcessNode(FuncCall(Some("Dump")))| == 1
    ensures ProcessNode(FuncCall(Some("ddd"))) == []
  {
    assert ToLower("DD") == "dd";
    assert ToLower("Dump") == "dump";
    assert ToLower("ddd") == "ddd";
  }
}
