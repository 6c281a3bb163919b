/**
 * What the rule matchers see and produce: the two kinds of syntax node the
 * rules are registered for, and the error a rule hands back to PHPStan.
 */
module Diagnostics {
  import opened Wrappers

  /** How an exit expression was spelled in the source. */
  datatype ExitSpelling = ExitKeyword | DieKeyword

  /**
   * A syntax node as far as the rules look at it. A call's name is
   * `Some(text)` when the call target is a plain name and `None` when it is
   * an expression (a dynamic call such as `$f()`); an exit or die carries its
   * optional argument as source text.
   */
  datatype Node =
    | FuncCall(name: Option<string>)
    | Exit(spelling: ExitSpelling, arg: Option<string>)

  /** The node class a rule registers for with `getNodeType`. */
  datatype NodeKind = FuncCallKind | ExitKind

  function KindOf(node: Node): NodeKind {
    match node
    case FuncCall(_) => FuncCallKind
    case Exit(_, _) => ExitKind
  }

  /** A rule error: its message and its identifier. */
  datatype RuleError = RuleError(message: string, identifier: string)

  const FunctionIdPrefix: string := "pderas.disallow.function."
  const ExitId: string := "pderas.disallow.exit"
  const DebugId: string := "pderas.disallow.debug"
}
