/**
 * The banned-function rule: flags a call whose plain name, ignoring case, is
 * one of the configured function names, under an identifier derived from
 * that name.
 */
module DisallowFunctionCalls {
  import opened Wrappers
  import opened PhpStrings
  import opened Diagnostics

  /** The characters the identifier suffix may keep: `[A-Za-z0-9.]`. */
  predicate IsIdChar(c: char) {
    'A' <= c <= 'Z' || 'a' <= c <= 'z' || '0' <= c <= '9' || c == '.'
  }

  predicate IsAlnum(c: char) {
    'A' <= c <= 'Z' || 'a' <= c <= 'z' || '0' <= c <= '9'
  }

  /** `preg_replace('/[^A-Za-z0-9.]/', '', s)`: drop every other character. */
  function StripNonIdChars(s: string): (r: string)
    ensures |r| <= |s|
    ensures forall i :: 0 <= i < |r| ==> IsIdChar(r[i]) && r[i] in s
    ensures (forall i :: 0 <= i < |s| ==> IsIdChar(s[i])) ==> r == s
    ensures |s| == 1 ==> r == (if IsIdChar(s[0]) then s else [])
  {
    if s == [] then []
    else if IsIdChar(s[0]) then [s[0]] + StripNonIdChars(s[1..])
    else StripNonIdChars(s[1..])
  }

  /**
   * Stripping works character by character: the result for a name is the
   * results for its parts, joined. With the one-character case this fixes
   * the result for every name.
   */
  lemma {:induction false} StripNonIdCharsAppend(a: string, b: string)
    ensures StripNonIdChars(a + b) == StripNonIdChars(a) + StripNonIdChars(b)
  {
    if a == [] {
      assert a + b == b;
    } else {
      assert (a + b)[0] == a[0];
      assert (a + b)[1..] == a[1..] + b;
      StripNonIdCharsAppend(a[1..], b);
    }
  }

  /** `preg_match('/^[A-Za-z0-9](?:[A-Za-z0-9.]*[A-Za-z0-9])?$/', s)`. */
  predicate MatchesIdPattern(s: string) {
    |s| > 0 && IsAlnum(s[0]) && IsAlnum(s[|s| - 1])
    && forall i :: 0 <= i < |s| ==> IsIdChar(s[i])
  }

  /**
   * The suffix appended to the identifier: the stripped name, or `function`
   * when stripping leaves nothing or leaves a `.` at either end.
   */
  function IdSuffix(name: string): (suffix: string)
    ensures MatchesIdPattern(suffix)
    ensures var s := StripNonIdChars(name);
      if s == [] || s[0] == '.' || s[|s| - 1] == '.' then suffix == "function" else suffix == s
    ensures NoUpper(name) ==> NoUpper(suffix)
  {
    var s := StripNonIdChars(name);
    FallbackMatches();
    StripKeepsLowerCase(name);
    if s == [] || !MatchesIdPattern(s) then "function" else s
  }

  /** The fallback suffix itself matches the pattern and is lower-case. */
  lemma FallbackMatches()
    ensures MatchesIdPattern("function") && NoUpper("function")
  {
  }

  /** Stripping adds no character, so it keeps a name lower-case. */
  lemma {:induction false} StripKeepsLowerCase(name: string)
    ensures NoUpper(name) ==> NoUpper(StripNonIdChars(name))
  {
    if name != [] {
      StripKeepsLowerCase(name[1..]);
      if NoUpper(name) {
        assert NoUpper(name[1..]) by {
          forall i | 0 <= i < |name[1..]| ensures !IsUpper(name[1..][i]) {
            assert name[1..][i] == name[i + 1];
          }
        }
      }
    }
  }

  /** `@@@` keeps no character, so its suffix falls back to `function`. */
  lemma SymbolOnlyNameFallsBack()
    ensures FunctionIdPrefix + IdSuffix("@@@") == "pderas.disallow.function.function"
  {
    assert StripNonIdChars("@@@") == [];
  }

  /**
   * A name made of two parts around one character outside the class, as
   * `shell_exec` or `var_dump`, strips to the two parts joined.
   */
  lemma StripJoinsParts(a: string, c: char, b: string)
    requires forall i :: 0 <= i < |a| ==> IsIdChar(a[i])
    requires forall i :: 0 <= i < |b| ==> IsIdChar(b[i])
    requires !IsIdChar(c)
    ensures StripNonIdChars(a + [c] + b) == a + b
  {
    assert StripNonIdChars(a) == a;
    assert StripNonIdChars(b) == b;
    assert StripNonIdChars([c]) == [] by { assert [c][0] == c; }
    calc {
      StripNonIdChars(a + [c] + b);
      { StripNonIdCharsAppend(a + [c], b); }
      StripNonIdChars(a + [c]) + StripNonIdChars(b);
      { StripNonIdCharsAppend(a, [c]); }
      StripNonIdChars(a) + StripNonIdChars([c]) + StripNonIdChars(b);
      { assert a + [] == a; }
      a + b;
    }
  }

  class DisallowFunctionCallsRule {
    /** The configured names, lower-cased; PHP keeps them as the keys of an array. */
    const disallowed: set<string>

    /** Builds the lookup set; entries that differ only in case collapse to one. */
    constructor (disallowedFunctions: seq<string>)
      ensures forall n :: n in disallowed <==>
        exists i :: 0 <= i < |disallowedFunctions| && ToLower(disallowedFunctions[i]) == n
      ensures |disallowed| <= |disallowedFunctions|
    {
      var m: set<string> := {};
      var k := 0;
      while k < |disallowedFunctions|
        invariant 0 <= k <= |disallowedFunctions|
        invariant forall n :: n in m <==> exists i :: 0 <= i < k && ToLower(disallowedFunctions[i]) == n
        invariant |m| <= k
      {
        m := m + {ToLower(disallowedFunctions[k])};
        k := k + 1;
      }
      disallowed := m;
    }

    function NodeType(): NodeKind {
      FuncCallKind
    }

    /**
     * At most one error: exactly when the call has a plain name whose
     * lower-cased form is banned.
     */
    function ProcessNode(node: Node): (errors: seq<RuleError>)
      requires KindOf(node) == NodeType()
      ensures |errors| <= 1
      ensures |errors| == 1 <==> node.name.Some? && ToLower(node.name.value) in disallowed
      ensures |errors| == 1 ==>
        var name := ToLower(node.name.value);
        && errors[0].message == "Disallowed function " + name + "() used."
        && StartsWith(errors[0].identifier, FunctionIdPrefix)
        && errors[0].identifier[|FunctionIdPrefix|..] == IdSuffix(name)
    {
      match node.name
      case None => []
      case Some(raw) =>
        var name := ToLower(raw);
        if name !in disallowed then []
        else [RuleError("Disallowed function " + name + "() used.", FunctionIdPrefix + IdSuffix(name))]
    }
  }

  /**
   * The identifier suffix of a flagged call holds only lower-case letters,
   * digits and dots, and starts and ends with a letter or digit.
   */
  lemma FlaggedSuffixIsLowerCase(rule: DisallowFunctionCallsRule, node: Node)
    requires KindOf(node) == FuncCallKind
    requires |rule.ProcessNode(node)| == 1
    ensures var suffix := rule.ProcessNode(node)[0].identifier[|FunctionIdPrefix|..];
      && MatchesIdPattern(suffix)
      && forall i :: 0 <= i < |suffix| ==> ('a' <= suffix[i] <= 'z' || '0' <= suffix[i] <= '9' || suffix[i] == '.')
  {
    ToLowerIdempotent(node.name.value);
  }

  /**
   * Matching ignores case: a call is flagged exactly when some configured
   * name equals the called name up to ASCII case.
   */
  lemma MatchIgnoresCase(config: seq<string>, rule: DisallowFunctionCallsRule, callee: string)
    requires forall n :: n in rule.disallowed <==> exists i :: 0 <= i < |config| && ToLower(config[i]) == n
    ensures |rule.ProcessNode(FuncCall(Some(callee)))| == 1 <==>
      exists i :: 0 <= i < |config| && ToLower(config[i]) == ToLower(callee)
  {
  }
}
