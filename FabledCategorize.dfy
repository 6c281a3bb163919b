/**
 * The report's classifier: maps a rule identifier to a category, a severity
 * and a display label by an ordered chain of exact and prefix matches, the
 * first match winning.
 */
module FabledCategorize {
  import opened PhpStrings
  import opened Diagnostics

  /** The report's four sections, declared in the order they are printed. */
  datatype Category = Security | Reliability | Performance | General
  datatype Severity = Error | Warning
  datatype RuleMeta = RuleMeta(category: Category, severity: Severity, caption: string)

  /** The identifiers produced by this package's own three rules. */
  predicate IsDisallowId(id: string) {
    StartsWith(id, FunctionIdPrefix) || id == ExitId || id == DebugId
  }

  predicate IsReliabilityId(id: string) {
    StartsWith(id, "missingType.") || StartsWith(id, "phpstan.missingType.")
    || StartsWith(id, "deadCode.") || StartsWith(id, "deprecated.")
    || StartsWith(id, "property.") || StartsWith(id, "array.") || StartsWith(id, "arguments.")
  }

  /**
   * `categorizeRule`. Total; only the package's own identifiers are errors
   * and they alone make up the Security category; an unknown identifier is
   * its own caption.
   */
  function Categorize(id: string): (meta: RuleMeta)
    ensures meta.severity == Error <==> meta.category == Security
    ensures meta.category == Security <==> IsDisallowId(id)
    ensures meta.category == General ==> meta == RuleMeta(General, Warning, id)
  {
    if StartsWith(id, FunctionIdPrefix) then
      RuleMeta(Security, Error, "Banned function " + id[|FunctionIdPrefix|..] + "()")
    else if id == ExitId then
      RuleMeta(Security, Error, "Disallowed exit/die")
    else if id == DebugId then
      RuleMeta(Security, Error, "Disallowed debug helper")
    else if StartsWith(id, "missingType.") || StartsWith(id, "phpstan.missingType.") then
      RuleMeta(Reliability, Warning, "Missing type")
    else if StartsWith(id, "deadCode.") then
      RuleMeta(Reliability, Warning, "Dead code")
    else if StartsWith(id, "deprecated.") then
      RuleMeta(Reliability, Warning, "Deprecated usage")
    else if StartsWith(id, "property.") || StartsWith(id, "array.") || StartsWith(id, "arguments.") then
      RuleMeta(Reliability, Warning, "Deprecated usage")
    else if StartsWith(id, "performance.") then
      RuleMeta(Performance, Warning, "Performance issue")
    else
      RuleMeta(General, Warning, id)
  }

  /** Every banned-function identifier is a Security error labelled with the text after the prefix. */
  lemma BannedFunctionMeta(id: string)
    requires StartsWith(id, FunctionIdPrefix)
    ensures Categorize(id) == RuleMeta(Security, Error, "Banned function " + id[|FunctionIdPrefix|..] + "()")
  {
  }

  /** The exit and debug-helper rules' identifiers are Security errors with their own labels. */
  lemma OwnRuleMeta()
    ensures Categorize(ExitId) == RuleMeta(Security, Error, "Disallowed exit/die")
    ensures Categorize(DebugId) == RuleMeta(Security, Error, "Disallowed debug helper")
  {
    PrefixesExclude(ExitId, ExitId, FunctionIdPrefix, 16);
    PrefixesExclude(DebugId, DebugId, FunctionIdPrefix, 16);
  }

  /** Both missing-type prefixes are Reliability warnings labelled "Missing type". */
  lemma MissingTypePrefixes(id: string)
    requires StartsWith(id, "missingType.") || StartsWith(id, "phpstan.missingType.")
    ensures Categorize(id) == RuleMeta(Reliability, Warning, "Missing type")
  {
    if StartsWith(id, "missingType.") {
      PrefixesExclude(id, "missingType.", FunctionIdPrefix, 0);
      assert id[0] == 'm';
    } else {
      PrefixesExclude(id, "phpstan.missingType.", FunctionIdPrefix, 1);
      assert id[1] == 'h';
    }
  }

  /** `deadCode.` identifiers are Reliability warnings labelled "Dead code". */
  lemma DeadCodePrefix(id: string)
    requires StartsWith(id, "deadCode.")
    ensures Categorize(id) == RuleMeta(Reliability, Warning, "Dead code")
  {
    var p := "deadCode.";
    PrefixesExclude(id, p, FunctionIdPrefix, 0);
    PrefixesExclude(id, p, "missingType.", 0);
    PrefixesExclude(id, p, "phpstan.missingType.", 0);
    assert id[0] == 'd';
  }

  /**
   * The three reliability-style prefixes added beside `deprecated.` share its
   * label "Deprecated usage".
   */
  lemma DeprecatedUsagePrefixes(id: string)
    requires StartsWith(id, "deprecated.") || StartsWith(id, "property.")
          || StartsWith(id, "array.") || StartsWith(id, "arguments.")
    ensures Categorize(id) == RuleMeta(Reliability, Warning, "Deprecated usage")
  {
    var p := if StartsWith(id, "deprecated.") then "deprecated."
      else if StartsWith(id, "property.") then "property."
      else if StartsWith(id, "array.") then "array." else "arguments.";
    assert StartsWith(id, p);
    if p == "deprecated." {
      PrefixesExclude(id, p, FunctionIdPrefix, 0);
      PrefixesExclude(id, p, "missingType.", 0);
      PrefixesExclude(id, p, "phpstan.missingType.", 0);
      PrefixesExclude(id, p, "deadCode.", 2);
    } else if p == "property." {
      PrefixesExclude(id, p, FunctionIdPrefix, 1);
      PrefixesExclude(id, p, "missingType.", 0);
      PrefixesExclude(id, p, "phpstan.missingType.", 1);
      PrefixesExclude(id, p, "deadCode.", 0);
      PrefixesExclude(id, p, "deprecated.", 0);
    } else {
      PrefixesExclude(id, p, FunctionIdPrefix, 0);
      PrefixesExclude(id, p, "missingType.", 0);
      PrefixesExclude(id, p, "phpstan.missingType.", 0);
      PrefixesExclude(id, p, "deadCode.", 0);
      PrefixesExclude(id, p, "deprecated.", 0);
    }
  }

  /** `performance.` identifiers form the Performance category. */
  lemma PerformancePrefix(id: string)
    requires StartsWith(id, "performance.")
    ensures Categorize(id) == RuleMeta(Performance, Warning, "Performance issue")
  {
    var p := "performance.";
    PrefixesExclude(id, p, FunctionIdPrefix, 1);
    PrefixesExclude(id, p, "missingType.", 0);
    PrefixesExclude(id, p, "phpstan.missingType.", 1);
    PrefixesExclude(id, p, "deadCode.", 0);
    PrefixesExclude(id, p, "deprecated.", 0);
    PrefixesExclude(id, p, "property.", 1);
    PrefixesExclude(id, p, "array.", 0);
    PrefixesExclude(id, p, "arguments.", 0);
  }

  /**
   * The category is fixed by which rule of the chain applies: General exactly
   * when no rule applies, Performance exactly for `performance.` identifiers
   * that no earlier rule claims, Reliability exactly for the reliability
   * prefixes that no Security rule claims.
   */
  lemma CategoryByRule(id: string)
    ensures Categorize(id).category == Reliability <==> !IsDisallowId(id) && IsReliabilityId(id)
    ensures Categorize(id).category == Performance <==>
      !IsDisallowId(id) && !IsReliabilityId(id) && StartsWith(id, "performance.")
    ensures Categorize(id).category == General <==>
      !IsDisallowId(id) && !IsReliabilityId(id) && !StartsWith(id, "performance.")
  {
  }
}
