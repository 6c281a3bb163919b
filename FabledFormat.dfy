/**
 * `FabledErrorFormat::formatErrors` step by step: the loops that fill
 * `$by_rule`, `$by_category` and `$category_totals`, write one section per
 * category and one table per rule, and close with the summary. Each method
 * is proved to produce what the functions of `FabledReport` describe.
 */
module FabledFormat {
  import opened Wrappers
  import opened PhpStrings
  import opened FabledCategorize
  import opened FabledGrouping
  import opened FabledLink
  import opened FabledReport

  /** `$by_rule[$identifier] ??= []; $by_rule[$identifier][] = $item;` */
  method FileUnder(order: seq<string>, byRule: map<string, seq<Item>>, identifier: string, item: Item)
    returns (order': seq<string>, byRule': map<string, seq<Item>>)
    ensures RuleTable(order', byRule') == Add(RuleTable(order, byRule), Entry(identifier, item))
  {
    order', byRule' := order, byRule;
    if identifier !in byRule' {
      order' := order' + [identifier];
      byRule' := byRule'[identifier := []];
    }
    byRule' := byRule'[identifier := byRule'[identifier] + [item]];
    assert [] + [item] == [item];
  }

  /** The first `foreach`: every file error, under its identifier or `phpstan.generic`. */
  method BucketFileErrors(r: AnalysisResult) returns (order: seq<string>, byRule: map<string, seq<Item>>)
    ensures RuleTable(order, byRule) == GroupBy(Entries(r)[..|r.fileErrors|])
  {
    order, byRule := [], map[];
    var fileErrors := r.fileErrors;
    for i := 0 to |fileErrors|
      invariant RuleTable(order, byRule) == GroupBy(Entries(r)[..i])
    {
      var e := fileErrors[i];
      var identifier := if e.identifier.Some? then e.identifier.value else GenericId;
      var item := Item(e.file, e.line, e.message);
      order, byRule := FileUnder(order, byRule, identifier, item);
      GroupByFileStep(r, i);
    }
  }

  /** One pass of the second `foreach`: the j-th other error, under `phpstan.generic` with file `[generic]` and no line. */
  method FileGeneric(r: AnalysisResult, j: nat, order: seq<string>, byRule: map<string, seq<Item>>)
    returns (order': seq<string>, byRule': map<string, seq<Item>>)
    requires j < |r.genericErrors|
    requires RuleTable(order, byRule) == GroupBy(Entries(r)[..|r.fileErrors| + j])
    ensures RuleTable(order', byRule') == GroupBy(Entries(r)[..|r.fileErrors| + j + 1])
  {
    var item := Item(GenericFile, None, r.genericErrors[j]);
    order', byRule' := FileUnder(order, byRule, GenericId, item);
    GroupByGenericStep(r, j);
  }

  /** The second `foreach`: every other error, in order. */
  method BucketGenericErrors(r: AnalysisResult, order0: seq<string>, byRule0: map<string, seq<Item>>)
    returns (order: seq<string>, byRule: map<string, seq<Item>>)
    requires RuleTable(order0, byRule0) == GroupBy(Entries(r)[..|r.fileErrors|])
    ensures RuleTable(order, byRule) == GroupBy(Entries(r))
  {
    order, byRule := order0, byRule0;
    for j := 0 to |r.genericErrors|
      invariant RuleTable(order, byRule) == GroupBy(Entries(r)[..|r.fileErrors| + j])
    {
      order, byRule := FileGeneric(r, j, order, byRule);
    }
    assert Entries(r)[..|r.fileErrors| + |r.genericErrors|] == Entries(r);
  }

  /** `$by_rule`, filled by the two `foreach` loops over the file errors and then the other errors. */
  method BucketByRule(r: AnalysisResult) returns (order: seq<string>, byRule: map<string, seq<Item>>)
    ensures RuleTable(order, byRule) == GroupBy(Entries(r))
  {
    order, byRule := BucketFileErrors(r);
    order, byRule := BucketGenericErrors(r, order, byRule);
  }

  /** `$x[$cat] ?? 0`. */
  function TotalOrZero(totals: map<Category, nat>, c: Category): nat {
    if c in totals then totals[c] else 0
  }

  /**
   * `$by_category` and `$category_totals` for a table: a category is present
   * exactly when one of its rules is, with its rules in table order, and its
   * total is the number of items of those rules (0 when absent).
   */
  ghost predicate Bucketed(order: seq<string>, byRule: map<string, seq<Item>>,
                           byCategory: map<Category, seq<RuleGroup>>, totals: map<Category, nat>)
    requires Covers(order, byRule)
  {
    && (forall c :: c in byCategory <==> CategoryGroups(order, byRule, c) != [])
    && (forall c :: c in byCategory ==> byCategory[c] == CategoryGroups(order, byRule, c))
    && (forall c :: TotalOrZero(totals, c) == Count(CategoryGroups(order, byRule, c)))
  }

  /** The `foreach ($by_rule as $identifier => $items)` loop. */
  method BucketByCategory(order: seq<string>, byRule: map<string, seq<Item>>)
    returns (byCategory: map<Category, seq<RuleGroup>>, totals: map<Category, nat>)
    requires Covers(order, byRule)
    ensures Bucketed(order, byRule, byCategory, totals)
  {
    byCategory, totals := map[], map[];
    for i := 0 to |order|
      invariant Covers(order[..i], byRule) && Bucketed(order[..i], byRule, byCategory, totals)
    {
      var identifier := order[i];
      var items := byRule[identifier];
      var meta := Categorize(identifier);
      var cat := meta.category;
      var groups := if cat in byCategory then byCategory[cat] else [];
      byCategory := byCategory[cat := groups + [RuleGroup(identifier, items, meta)]];
      totals := totals[cat := TotalOrZero(totals, cat) + |items|];
      CategoryGroupsPrefix(order, byRule, i, Security);
      forall c ensures c in byCategory <==> CategoryGroups(order[..i + 1], byRule, c) != [] {
        CategoryGroupsPrefix(order, byRule, i, c);
      }
      forall c ensures c in byCategory ==> byCategory[c] == CategoryGroups(order[..i + 1], byRule, c) {
        CategoryGroupsPrefix(order, byRule, i, c);
      }
      forall c ensures TotalOrZero(totals, c) == Count(CategoryGroups(order[..i + 1], byRule, c)) {
        CategoryGroupsPrefix(order, byRule, i, c);
      }
    }
    assert order[..|order|] == order;
  }

  /** The rows of one rule's table, built item by item. */
  method WriteRows(items: seq<Item>) returns (rows: seq<Row>)
    ensures rows == Rows(items)
  {
    rows := [];
    for idx := 0 to |items|
      invariant rows + Rows(items[idx..]) == Rows(items)
    {
      var item := items[idx];
      var file := DisplayPath(item.file);
      var line := LineText(item.line);
      var link := LinkArgs(item.file, file, line);
      var row := Row(line, link, file, item.message, idx < |items| - 1);
      assert items[idx..][1..] == items[idx + 1..];
      assert Rows(items[idx..]) == [row] + Rows(items[idx + 1..]);
      rows := rows + [row];
    }
    assert rows + [] == rows;
  }

  /** The `foreach ($rules ...)` loop: each rule's header line, then its table. */
  method WriteRules(rules: seq<RuleGroup>) returns (lines: seq<ReportLine>)
    ensures lines == RuleSections(rules)
  {
    lines := [];
    for k := 0 to |rules|
      invariant lines == RuleSections(rules[..k])
    {
      var data := rules[k];
      var rows := WriteRows(data.items);
      lines := lines + [RuleHeader(data.meta.caption, |data.items|, data.id), Table(rows)];
      assert rules[..k + 1] == rules[..k] + [data];
      RuleSectionsSnoc(rules[..k], data);
    }
    assert rules[..|rules|] == rules;
  }

  /** One category's title, then its rules, those with the most items first. */
  method WriteCategory(c: Category, groups: seq<RuleGroup>, total: nat) returns (lines: seq<ReportLine>)
    ensures lines == [Blank, CategoryTitle(c, total)] + RuleSections(SortByCount(groups))
  {
    var rules := SortByCount(groups);
    var sections := WriteRules(rules);
    lines := [Blank, CategoryTitle(c, total)] + sections;
  }

  /** One pass of the `foreach ($ordered_categories ...)` loop: nothing for an absent category. */
  method WriteSection(order: seq<string>, byRule: map<string, seq<Item>>,
                      byCategory: map<Category, seq<RuleGroup>>, totals: map<Category, nat>, cat: Category)
    returns (section: seq<ReportLine>)
    requires Covers(order, byRule) && Bucketed(order, byRule, byCategory, totals)
    ensures section == Section(RuleTable(order, byRule), cat)
  {
    if cat in byCategory {
      section := WriteCategory(cat, byCategory[cat], TotalOrZero(totals, cat));
    } else {
      section := [];
    }
  }

  /** The `foreach ($ordered_categories ...)` loop: the sections of the present categories, in the fixed order. */
  method WriteSections(order: seq<string>, byRule: map<string, seq<Item>>,
                       byCategory: map<Category, seq<RuleGroup>>, totals: map<Category, nat>)
    returns (lines: seq<ReportLine>)
    requires Covers(order, byRule) && Bucketed(order, byRule, byCategory, totals)
    ensures lines == Sections(RuleTable(order, byRule), CategoryOrder)
  {
    ghost var t := RuleTable(order, byRule);
    lines := [];
    var categories := CategoryOrder;
    for ci := 0 to |categories|
      invariant lines == Sections(t, categories[..ci])
    {
      var section := WriteSection(order, byRule, byCategory, totals, categories[ci]);
      lines := lines + section;
      assert categories[..ci + 1][..ci] == categories[..ci];
    }
    assert categories[..|categories|] == categories;
  }

  /** Everything `formatErrors` writes once there is an error, from the by-rule table on. */
  method WriteReport(order: seq<string>, byRule: map<string, seq<Item>>) returns (lines: seq<ReportLine>)
    requires Covers(order, byRule)
    ensures lines == ReportFor(RuleTable(order, byRule))
  {
    var byCategory, totals := BucketByCategory(order, byRule);
    var totalIssues := TotalOrZero(totals, Security) + TotalOrZero(totals, Reliability)
      + TotalOrZero(totals, Performance) + TotalOrZero(totals, General);
    var sections := WriteSections(order, byRule, byCategory, totals);
    var summary := Summary(TotalOrZero(totals, Security), TotalOrZero(totals, Reliability),
                           TotalOrZero(totals, Performance), TotalOrZero(totals, General));
    lines := [Blank, Heading, Headline(totalIssues, |order|)] + sections + [Blank, summary];
    ghost var t := RuleTable(order, byRule);
    assert totalIssues == TotalIssues(t);
    assert summary == SummaryOf(t);
  }

  /**
   * `formatErrors`: the styled report and the exit status. A run with no
   * error writes only the all-clear line and returns 0; any error makes it
   * write the full report and return 1.
   */
  method FormatErrors(r: AnalysisResult) returns (status: int, lines: seq<ReportLine>)
    ensures lines == Report(r)
    ensures status == ExitStatus(r)
  {
    var hasErrors := |r.fileErrors| + |r.genericErrors|;
    if hasErrors == 0 {
      return 0, [NoIssues];
    }
    var order, byRule := BucketByRule(r);
    GroupByCovers(Entries(r));
    lines := WriteReport(order, byRule);
    status := 1;
  }
}
