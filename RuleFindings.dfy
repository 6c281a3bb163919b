/**
 * How the rules and the report fit together: whatever the three rules
 * report lands in the report's Security category as an error.
 */
module RuleFindings {
  import opened Wrappers
  import opened PhpStrings
  import opened Diagnostics
  import opened FabledCategorize
  import DisallowFunctionCalls
  import DisallowDebugHelpers
  import DisallowExitLikeCalls

  /** A banned call is shown as "Banned function <suffix>()" under Security. */
  lemma BannedCallClassified(rule: DisallowFunctionCalls.DisallowFunctionCallsRule, node: Node)
    requires KindOf(node) == FuncCallKind
    requires |rule.ProcessNode(node)| == 1
    ensures Categorize(rule.ProcessNode(node)[0].identifier)
      == RuleMeta(Security, Error, "Banned function " + DisallowFunctionCalls.IdSuffix(ToLower(node.name.value)) + "()")
  {
  }

  /** Every error any of the three rules reports for a node is a Security error. */
  lemma RuleErrorsAreSecurityErrors(rule: DisallowFunctionCalls.DisallowFunctionCallsRule, node: Node, e: RuleError)
    requires
      || (KindOf(node) == FuncCallKind && e in rule.ProcessNode(node))
      || (KindOf(node) == FuncCallKind && e in DisallowDebugHelpers.ProcessNode(node))
      || (KindOf(node) == ExitKind && e in DisallowExitLikeCalls.ProcessNode(node))
    ensures Categorize(e.identifier).category == Security
    ensures Categorize(e.identifier).severity == Error
  {
    if KindOf(node) == FuncCallKind && e in rule.ProcessNode(node) {
      assert e == rule.ProcessNode(node)[0];
    } else if KindOf(node) == FuncCallKind && e in DisallowDebugHelpers.ProcessNode(node) {
      assert e == DisallowDebugHelpers.ProcessNode(node)[0];
    } else {
      assert e == DisallowExitLikeCalls.ProcessNode(node)[0];
    }
  }
}
