/**
 * What the styled report says, as a sequence of abstract report lines: the
 * headline, one section per non-empty category in the fixed order, one
 * header and table per rule, and the closing summary.
 */
module FabledReport {
  import opened Wrappers
  import opened PhpStrings
  import opened FabledCategorize
  import opened FabledGrouping
  import opened FabledLink

  /**
   * A row of a rule's table: the `Line` cell, and the parts of the `Error`
   * cell (the link, kept as the values its target is made from, the link
   * text, the message, and whether a newline follows the message).
   */
  datatype Row = Row(lineCell: string, link: LinkArgs, display: string, message: string, separated: bool)

  datatype ReportLine =
    | NoIssues                       // "[OK] No issues found"
    | Blank                          // an empty line
    | Heading                        // "Code Scan Results"
    | Headline(issues: nat, rules: nat)  // "Found <issues> issue(s) across <rules> rule(s)"
    | CategoryTitle(category: Category, total: nat)
    | RuleHeader(caption: string, count: nat, identifier: string)
    | Table(rows: seq<Row>)
    | Summary(security: nat, reliability: nat, performance: nat, general: nat)

  /** One table row for an item. */
  function MakeRow(item: Item, separated: bool): Row {
    var display := DisplayPath(item.file);
    var lineText := LineText(item.line);
    Row(lineText, LinkArgs(item.file, display, lineText), display, item.message, separated)
  }

  /** The rows of a rule's table: one per item, each but the last followed by a newline. */
  function Rows(items: seq<Item>): (rows: seq<Row>)
    ensures |rows| == |items|
  {
    if items == [] then [] else [MakeRow(items[0], |items| > 1)] + Rows(items[1..])
  }

  lemma {:induction false} RowsAt(items: seq<Item>, k: nat)
    requires k < |items|
    ensures Rows(items)[k] == MakeRow(items[k], k < |items| - 1)
  {
    if k > 0 {
      RowsAt(items[1..], k - 1);
      assert Rows(items)[k] == Rows(items[1..])[k - 1];
    }
  }

  /**
   * Each row carries its item's line and message in the item's order, links
   * to the item's file, and a newline separates each message from the next,
   * none following the last.
   */
  lemma RowsContent(items: seq<Item>)
    ensures forall i :: 0 <= i < |items| ==>
      var row := Rows(items)[i];
      && row.message == items[i].message
      && row.lineCell == LineText(items[i].line)
      && row.display == DisplayPath(items[i].file)
      && row.link == LinkArgs(items[i].file, row.display, row.lineCell)
      && (row.separated <==> i < |items| - 1)
  {
    forall i | 0 <= i < |items| ensures Rows(items)[i] == MakeRow(items[i], i < |items| - 1) {
      RowsAt(items, i);
    }
  }

  /**
   * A row's link opens `vscode://file/%<path>%:%<line>%`: the doubled `%` of
   * the template survive around the substituted path and line.
   */
  lemma RowLink(item: Item, separated: bool)
    requires '%' !in item.file && item.file != "relFile" && item.file != "line"
    ensures Url(MakeRow(item, separated).link) == "vscode://file/%" + item.file + "%:%" + LineText(item.line) + "%"
  {
    DeepLinkAsWritten(item.file, DisplayPath(item.file), LineText(item.line));
  }

  /** A rule header followed by its table. */
  function RuleSection(g: RuleGroup): seq<ReportLine> {
    [RuleHeader(g.meta.caption, |g.items|, g.id), Table(Rows(g.items))]
  }

  /** The rule sections of a list of rules, in that order. */
  function RuleSections(gs: seq<RuleGroup>): seq<ReportLine> {
    if gs == [] then [] else RuleSection(gs[0]) + RuleSections(gs[1..])
  }

  /** Writing one more rule appends its section. */
  lemma {:induction false} RuleSectionsSnoc(gs: seq<RuleGroup>, g: RuleGroup)
    ensures RuleSections(gs + [g]) == RuleSections(gs) + RuleSection(g)
  {
    if gs == [] {
      assert [] + [g] == [g];
      assert [g][1..] == [];
    } else {
      assert (gs + [g])[0] == gs[0];
      assert (gs + [g])[1..] == gs[1..] + [g];
      RuleSectionsSnoc(gs[1..], g);
      calc {
        RuleSections(gs + [g]);
        RuleSection(gs[0]) + RuleSections(gs[1..] + [g]);
        RuleSection(gs[0]) + (RuleSections(gs[1..]) + RuleSection(g));
        (RuleSection(gs[0]) + RuleSections(gs[1..])) + RuleSection(g);
      }
    }
  }

  /** A category's section: nothing when it has no rule, otherwise its title and its rules by count. */
  function CategorySection(c: Category, gs: seq<RuleGroup>): seq<ReportLine> {
    if gs == [] then [] else [Blank, CategoryTitle(c, Count(gs))] + RuleSections(SortByCount(gs))
  }

  function Section(t: RuleTable, c: Category): seq<ReportLine>
    requires Covers(t.order, t.groups)
  {
    CategorySection(c, CategoryGroups(t.order, t.groups, c))
  }

  /** `$ordered_categories`. */
  const CategoryOrder: seq<Category> := [Security, Reliability, Performance, General]

  /** The sections of the categories given, in that order. */
  function Sections(t: RuleTable, cs: seq<Category>): seq<ReportLine>
    requires Covers(t.order, t.groups)
  {
    if cs == [] then [] else Sections(t, cs[..|cs| - 1]) + Section(t, cs[|cs| - 1])
  }

  lemma SectionsInOrder(t: RuleTable)
    requires Covers(t.order, t.groups)
    ensures Sections(t, CategoryOrder)
         == Section(t, Security) + Section(t, Reliability) + Section(t, Performance) + Section(t, General)
  {
    var c1, c2, c3 := [Security], [Security, Reliability], [Security, Reliability, Performance];
    assert CategoryOrder[..3] == c3;
    assert c3[..2] == c2;
    assert c2[..1] == c1;
    assert c1[..0] == [];
    assert Sections(t, c1) == Section(t, Security);
    assert Sections(t, c2) == Sections(t, c1) + Section(t, Reliability);
    assert Sections(t, c3) == Sections(t, c2) + Section(t, Performance);
  }

  function IssueCount(r: AnalysisResult): nat {
    |r.fileErrors| + |r.genericErrors|
  }

  /** `array_sum($category_totals)`. */
  function TotalIssues(t: RuleTable): nat
    requires Covers(t.order, t.groups)
  {
    CategoryTotal(t, Security) + CategoryTotal(t, Reliability)
      + CategoryTotal(t, Performance) + CategoryTotal(t, General)
  }

  function SummaryOf(t: RuleTable): ReportLine
    requires Covers(t.order, t.groups)
  {
    Summary(CategoryTotal(t, Security), CategoryTotal(t, Reliability),
            CategoryTotal(t, Performance), CategoryTotal(t, General))
  }

  /** The report for a non-empty by-rule table. */
  function ReportFor(t: RuleTable): seq<ReportLine>
    requires Covers(t.order, t.groups)
  {
    [Blank, Heading, Headline(TotalIssues(t), |t.order|)] + Sections(t, CategoryOrder) + [Blank, SummaryOf(t)]
  }

  /** The whole styled report for an analysis result. */
  function Report(r: AnalysisResult): seq<ReportLine> {
    if IssueCount(r) == 0 then [NoIssues]
    else
      GroupByCovers(Entries(r));
      ReportFor(GroupBy(Entries(r)))
  }

  /** The formatter's return value. */
  function ExitStatus(r: AnalysisResult): int {
    if IssueCount(r) == 0 then 0 else 1
  }

  // ---- views of a report used to state its properties

  function TitleOf(line: ReportLine): seq<Category> {
    if line.CategoryTitle? then [line.category] else []
  }

  function RowsOf(line: ReportLine): nat {
    if line.Table? then |line.rows| else 0
  }

  function HeaderOf(line: ReportLine): seq<ReportLine> {
    if line.RuleHeader? then [line] else []
  }

  /** The categories of the section titles, in order. */
  function Titles(lines: seq<ReportLine>): seq<Category> {
    if lines == [] then [] else TitleOf(lines[0]) + Titles(lines[1..])
  }

  /** The number of table rows in the report. */
  function RowCount(lines: seq<ReportLine>): nat {
    if lines == [] then 0 else RowsOf(lines[0]) + RowCount(lines[1..])
  }

  /** The rule headers, in order. */
  function Headers(lines: seq<ReportLine>): seq<ReportLine> {
    if lines == [] then [] else HeaderOf(lines[0]) + Headers(lines[1..])
  }

  lemma {:induction false} TitlesAppend(a: seq<ReportLine>, b: seq<ReportLine>)
    ensures Titles(a + b) == Titles(a) + Titles(b)
  {
    if a == [] {
      assert a + b == b;
    } else {
      assert (a + b)[0] == a[0];
      assert (a + b)[1..] == a[1..] + b;
      TitlesAppend(a[1..], b);
      calc {
        Titles(a + b);
        TitleOf(a[0]) + Titles(a[1..] + b);
        TitleOf(a[0]) + (Titles(a[1..]) + Titles(b));
        (TitleOf(a[0]) + Titles(a[1..])) + Titles(b);
      }
    }
  }

  lemma {:induction false} RowCountAppend(a: seq<ReportLine>, b: seq<ReportLine>)
    ensures RowCount(a + b) == RowCount(a) + RowCount(b)
  {
    if a == [] {
      assert a + b == b;
    } else {
      assert (a + b)[0] == a[0];
      assert (a + b)[1..] == a[1..] + b;
      RowCountAppend(a[1..], b);
      assert RowCount(a + b) == RowsOf(a[0]) + RowCount(a[1..] + b);
    }
  }

  lemma {:induction false} HeadersAppend(a: seq<ReportLine>, b: seq<ReportLine>)
    ensures Headers(a + b) == Headers(a) + Headers(b)
  {
    if a == [] {
      assert a + b == b;
    } else {
      assert (a + b)[0] == a[0];
      assert (a + b)[1..] == a[1..] + b;
      HeadersAppend(a[1..], b);
      calc {
        Headers(a + b);
        HeaderOf(a[0]) + Headers(a[1..] + b);
        HeaderOf(a[0]) + (Headers(a[1..]) + Headers(b));
        (HeaderOf(a[0]) + Headers(a[1..])) + Headers(b);
      }
    }
  }

  lemma ViewsPair(x: ReportLine, y: ReportLine)
    ensures Titles([x, y]) == TitleOf(x) + TitleOf(y)
    ensures RowCount([x, y]) == RowsOf(x) + RowsOf(y)
    ensures Headers([x, y]) == HeaderOf(x) + HeaderOf(y)
  {
    assert [x, y][1..] == [y];
    assert [y][1..] == [];
    assert Titles([y]) == TitleOf(y) + [];
    assert Headers([y]) == HeaderOf(y) + [];
    assert RowCount([y]) == RowsOf(y) + RowCount([]);
    assert TitleOf(y) + [] == TitleOf(y) && HeaderOf(y) + [] == HeaderOf(y);
  }

  /** The rule headers a list of rule groups gives, in order. */
  function HeaderLines(gs: seq<RuleGroup>): seq<ReportLine> {
    if gs == [] then []
    else [RuleHeader(gs[0].meta.caption, |gs[0].items|, gs[0].id)] + HeaderLines(gs[1..])
  }

  lemma {:induction false} HeaderLinesAt(gs: seq<RuleGroup>)
    ensures |HeaderLines(gs)| == |gs|
    ensures forall i :: 0 <= i < |gs| ==>
      HeaderLines(gs)[i] == RuleHeader(gs[i].meta.caption, |gs[i].items|, gs[i].id)
  {
    if gs != [] {
      HeaderLinesAt(gs[1..]);
      forall i | 1 <= i < |gs|
        ensures HeaderLines(gs)[i] == RuleHeader(gs[i].meta.caption, |gs[i].items|, gs[i].id)
      {
        assert gs[1..][i - 1] == gs[i];
      }
    }
  }

  lemma RuleSectionViews(g: RuleGroup)
    ensures Titles(RuleSection(g)) == []
    ensures RowCount(RuleSection(g)) == |g.items|
    ensures Headers(RuleSection(g)) == [RuleHeader(g.meta.caption, |g.items|, g.id)]
  {
    ViewsPair(RuleHeader(g.meta.caption, |g.items|, g.id), Table(Rows(g.items)));
  }

  /** Rule sections hold no category title. */
  lemma {:induction false} RuleSectionsTitles(gs: seq<RuleGroup>)
    ensures Titles(RuleSections(gs)) == []
  {
    if gs != [] {
      RuleSectionsTitles(gs[1..]);
      TitlesAppend(RuleSection(gs[0]), RuleSections(gs[1..]));
      RuleSectionViews(gs[0]);
    }
  }

  /** Rule sections hold a row per item of their rules. */
  lemma {:induction false} RuleSectionsRows(gs: seq<RuleGroup>)
    ensures RowCount(RuleSections(gs)) == Count(gs)
  {
    if gs != [] {
      RuleSectionsRows(gs[1..]);
      RowCountAppend(RuleSection(gs[0]), RuleSections(gs[1..]));
      RuleSectionViews(gs[0]);
    }
  }

  /** Rule sections hold a header per rule, in order. */
  lemma {:induction false} RuleSectionsHeaders(gs: seq<RuleGroup>)
    ensures Headers(RuleSections(gs)) == HeaderLines(gs)
  {
    if gs != [] {
      RuleSectionsHeaders(gs[1..]);
      HeadersAppend(RuleSection(gs[0]), RuleSections(gs[1..]));
      RuleSectionViews(gs[0]);
    }
  }

  lemma CategorySectionSplit(c: Category, gs: seq<RuleGroup>)
    requires gs != []
    ensures var head := [Blank, CategoryTitle(c, Count(gs))];
      && Titles(head) == [c] && RowCount(head) == 0 && Headers(head) == []
      && CategorySection(c, gs) == head + RuleSections(SortByCount(gs))
  {
    ViewsPair(Blank, CategoryTitle(c, Count(gs)));
  }

  /** A category section has a title exactly when it has rules. */
  lemma CategorySectionTitles(c: Category, gs: seq<RuleGroup>)
    ensures Titles(CategorySection(c, gs)) == (if gs == [] then [] else [c])
  {
    if gs != [] {
      var head := [Blank, CategoryTitle(c, Count(gs))];
      CategorySectionSplit(c, gs);
      TitlesAppend(head, RuleSections(SortByCount(gs)));
      RuleSectionsTitles(SortByCount(gs));
    }
  }

  /** A category section holds a row per item of its rules. */
  lemma CategorySectionRows(c: Category, gs: seq<RuleGroup>)
    ensures RowCount(CategorySection(c, gs)) == Count(gs)
  {
    if gs != [] {
      var head := [Blank, CategoryTitle(c, Count(gs))];
      CategorySectionSplit(c, gs);
      RowCountAppend(head, RuleSections(SortByCount(gs)));
      RuleSectionsRows(SortByCount(gs));
      SortByCountTotal(gs);
    }
  }

  /** A category section's rule headers follow its rules sorted by count. */
  lemma CategorySectionHeaders(c: Category, gs: seq<RuleGroup>)
    ensures Headers(CategorySection(c, gs)) == HeaderLines(SortByCount(gs))
  {
    if gs != [] {
      var head := [Blank, CategoryTitle(c, Count(gs))];
      CategorySectionSplit(c, gs);
      HeadersAppend(head, RuleSections(SortByCount(gs)));
      RuleSectionsHeaders(SortByCount(gs));
    }
  }

  /** Every rule header of a section stands for a rule of that category, and the counts never increase. */
  lemma SectionHeadersByCount(t: RuleTable, c: Category)
    requires Covers(t.order, t.groups)
    ensures var hs := Headers(Section(t, c));
      && (forall i :: 0 <= i < |hs| ==> hs[i].RuleHeader? && Categorize(hs[i].identifier).category == c)
      && (forall i, j :: 0 <= i < j < |hs| ==> hs[i].count >= hs[j].count)
  {
    var gs := CategoryGroups(t.order, t.groups, c);
    var sorted := SortByCount(gs);
    CategorySectionHeaders(c, gs);
    HeaderLinesAt(sorted);
    SortByCountSorted(gs);
    SortByCountPermutes(gs);
    CategoryGroupsMembers(t.order, t.groups, c);
    forall i | 0 <= i < |sorted| ensures Categorize(sorted[i].id).category == c {
      assert sorted[i] in multiset(gs);
      assert sorted[i] in gs;
    }
  }

  lemma HeadViews(h: ReportLine)
    requires h.Headline?
    ensures Titles([Blank, Heading, h]) == [] && RowCount([Blank, Heading, h]) == 0
  {
    assert [Blank, Heading, h][1..] == [Heading, h];
    ViewsPair(Heading, h);
  }

  lemma TailViews(s: ReportLine)
    requires s.Summary?
    ensures Titles([Blank, s]) == [] && RowCount([Blank, s]) == 0
  {
    ViewsPair(Blank, s);
  }

  /** The report for a table: its head, its four sections in order, and its summary. */
  lemma ReportForSplit(t: RuleTable)
    requires Covers(t.order, t.groups)
    ensures var head := [Blank, Heading, Headline(TotalIssues(t), |t.order|)];
      var tail := [Blank, SummaryOf(t)];
      && Titles(head) == [] && RowCount(head) == 0
      && Titles(tail) == [] && RowCount(tail) == 0
      && ReportFor(t) == head + (Section(t, Security) + Section(t, Reliability) + Section(t, Performance) + Section(t, General)) + tail
  {
    HeadViews(Headline(TotalIssues(t), |t.order|));
    TailViews(SummaryOf(t));
    SectionsInOrder(t);
  }

  lemma TitlesOfParts(head: seq<ReportLine>, s1: seq<ReportLine>, s2: seq<ReportLine>,
                      s3: seq<ReportLine>, s4: seq<ReportLine>, tail: seq<ReportLine>)
    ensures Titles(head + (s1 + s2 + s3 + s4) + tail)
         == Titles(head) + (Titles(s1) + Titles(s2) + Titles(s3) + Titles(s4)) + Titles(tail)
  {
    TitlesAppend(s1, s2);
    TitlesAppend(s1 + s2, s3);
    TitlesAppend(s1 + s2 + s3, s4);
    TitlesAppend(head, s1 + s2 + s3 + s4);
    TitlesAppend(head + (s1 + s2 + s3 + s4), tail);
  }

  lemma RowCountOfParts(head: seq<ReportLine>, s1: seq<ReportLine>, s2: seq<ReportLine>,
                        s3: seq<ReportLine>, s4: seq<ReportLine>, tail: seq<ReportLine>)
    ensures RowCount(head + (s1 + s2 + s3 + s4) + tail)
         == RowCount(head) + (RowCount(s1) + RowCount(s2) + RowCount(s3) + RowCount(s4)) + RowCount(tail)
  {
    RowCountAppend(s1, s2);
    RowCountAppend(s1 + s2, s3);
    RowCountAppend(s1 + s2 + s3, s4);
    RowCountAppend(head, s1 + s2 + s3 + s4);
    RowCountAppend(head + (s1 + s2 + s3 + s4), tail);
  }

  lemma SectionTitles(t: RuleTable, c: Category)
    requires Covers(t.order, t.groups)
    ensures Titles(Section(t, c)) == PresentOne(t, c)
  {
    CategorySectionTitles(c, CategoryGroups(t.order, t.groups, c));
  }

  /** Section titles name the categories that have rules, in the fixed order. */
  lemma ReportForTitles(t: RuleTable)
    requires Covers(t.order, t.groups)
    ensures Titles(ReportFor(t))
         == PresentOne(t, Security) + PresentOne(t, Reliability) + PresentOne(t, Performance) + PresentOne(t, General)
  {
    var head := [Blank, Heading, Headline(TotalIssues(t), |t.order|)];
    var tail := [Blank, SummaryOf(t)];
    var s1, s2, s3, s4 := Section(t, Security), Section(t, Reliability), Section(t, Performance), Section(t, General);
    ReportForSplit(t);
    TitlesOfParts(head, s1, s2, s3, s4, tail);
    SectionTitles(t, Security);
    SectionTitles(t, Reliability);
    SectionTitles(t, Performance);
    SectionTitles(t, General);
    var ps := PresentOne(t, Security) + PresentOne(t, Reliability) + PresentOne(t, Performance) + PresentOne(t, General);
    assert Titles(head) + ps + Titles(tail) == ps;
  }

  /** The report holds a row per item of the table. */
  lemma ReportForRows(t: RuleTable)
    requires Covers(t.order, t.groups)
    ensures RowCount(ReportFor(t)) == TotalIssues(t)
  {
    ReportForSplit(t);
    RowCountOfParts([Blank, Heading, Headline(TotalIssues(t), |t.order|)],
                    Section(t, Security), Section(t, Reliability), Section(t, Performance), Section(t, General),
                    [Blank, SummaryOf(t)]);
    CategorySectionRows(Security, CategoryGroups(t.order, t.groups, Security));
    CategorySectionRows(Reliability, CategoryGroups(t.order, t.groups, Reliability));
    CategorySectionRows(Performance, CategoryGroups(t.order, t.groups, Performance));
    CategorySectionRows(General, CategoryGroups(t.order, t.groups, General));
  }

  /** The headline comes third and the summary last. */
  lemma ReportForEnds(t: RuleTable)
    requires Covers(t.order, t.groups)
    ensures |ReportFor(t)| >= 5
    ensures ReportFor(t)[2] == Headline(TotalIssues(t), |t.order|)
    ensures ReportFor(t)[|ReportFor(t)| - 1] == SummaryOf(t)
  {
  }

  function PresentOne(t: RuleTable, c: Category): seq<Category>
    requires Covers(t.order, t.groups)
  {
    if CategoryGroups(t.order, t.groups, c) == [] then [] else [c]
  }

  /** The categories that occur among the entries, in report order. */
  ghost predicate Occurs(es: seq<Entry>, c: Category) {
    exists i :: 0 <= i < |es| && Categorize(es[i].id).category == c
  }

  ghost function PresentCategories(es: seq<Entry>): seq<Category> {
    (if Occurs(es, Security) then [Security] else [])
      + (if Occurs(es, Reliability) then [Reliability] else [])
      + (if Occurs(es, Performance) then [Performance] else [])
      + (if Occurs(es, General) then [General] else [])
  }

  /** Nothing but NoIssues is written, and 0 returned, exactly when there is no error at all. */
  lemma ReportEmptyIffNoErrors(r: AnalysisResult)
    ensures Report(r) == [NoIssues] <==> IssueCount(r) == 0
    ensures ExitStatus(r) == 0 <==> IssueCount(r) == 0
    ensures ExitStatus(r) != 0 ==> ExitStatus(r) == 1
  {
  }

  lemma OccursInTable(es: seq<Entry>, c: Category)
    ensures var t := GroupBy(es);
      Covers(t.order, t.groups) && (CategoryGroups(t.order, t.groups, c) != [] <==> Occurs(es, c))
  {
    var t := GroupBy(es);
    GroupByCovers(es);
    GroupByKeys(es);
    CategoryPresent(t.order, t.groups, c);
    if Occurs(es, c) {
      OccurringIdInOrder(es, c);
    }
    if CategoryGroups(t.order, t.groups, c) != [] {
      var k :| 0 <= k < |t.order| && Categorize(t.order[k]).category == c;
      assert t.order[k] in t.groups;
      var i :| 0 <= i < |es| && es[i].id == t.order[k];
    }
  }

  lemma OccurringIdInOrder(es: seq<Entry>, c: Category)
    requires Occurs(es, c)
    ensures HasCategory(GroupBy(es).order, c)
  {
    var t := GroupBy(es);
    GroupByKeys(es);
    GroupByWellFormed(es);
    var i :| 0 <= i < |es| && Categorize(es[i].id).category == c;
    assert es[i].id in t.groups;
    var k :| 0 <= k < |t.order| && t.order[k] == es[i].id;
  }

  /**
   * Section titles appear only for the categories that occur, always in the
   * order Security, Reliability, Performance, General.
   */
  lemma ReportCategoryOrder(r: AnalysisResult)
    requires IssueCount(r) > 0
    ensures Titles(Report(r)) == PresentCategories(Entries(r))
  {
    var es := Entries(r);
    GroupByCovers(es);
    ReportForTitles(GroupBy(es));
    OccursInTable(es, Security);
    OccursInTable(es, Reliability);
    OccursInTable(es, Performance);
    OccursInTable(es, General);
  }

  /**
   * No error is lost or counted twice: the report has a row per error, the
   * headline counts every error and every distinct identifier, and the
   * summary, which always names all four categories, adds up to the same
   * number of errors.
   */
  lemma ReportAccountsForEveryError(r: AnalysisResult)
    requires IssueCount(r) > 0
    ensures RowCount(Report(r)) == IssueCount(r)
    ensures Report(r)[2] == Headline(IssueCount(r), |IdSet(Entries(r))|)
    ensures var s := Report(r)[|Report(r)| - 1];
      s.Summary? && s.security + s.reliability + s.performance + s.general == IssueCount(r)
  {
    var es := Entries(r);
    var t := GroupBy(es);
    GroupByCovers(es);
    GroupBySize(es);
    CategoryTotalsPartition(t.order, t.groups);
    RuleCountIsDistinctIds(es);
    ReportForRows(t);
    ReportForEnds(t);
  }

  /** The summary shows, for each of the four categories, the number of errors in it. */
  lemma ReportSummaryCounts(r: AnalysisResult)
    requires IssueCount(r) > 0
    ensures var es := Entries(r);
      Report(r)[|Report(r)| - 1]
        == Summary(CountIn(es, Security), CountIn(es, Reliability), CountIn(es, Performance), CountIn(es, General))
  {
    var es := Entries(r);
    var t := GroupBy(es);
    GroupByCovers(es);
    ReportForEnds(t);
    CategoryTotalCounts(es, Security);
    CategoryTotalCounts(es, Reliability);
    CategoryTotalCounts(es, Performance);
    CategoryTotalCounts(es, General);
  }


  // ---- each rule once, each error in its rule's table, each total its category's count

  /** The number of rule headers for rule `id`. */
  function HeaderCount(lines: seq<ReportLine>, id: string): nat {
    if lines == [] then 0
    else (if lines[0].RuleHeader? && lines[0].identifier == id then 1 else 0) + HeaderCount(lines[1..], id)
  }

  lemma {:induction false} HeaderCountAppend(a: seq<ReportLine>, b: seq<ReportLine>, id: string)
    ensures HeaderCount(a + b, id) == HeaderCount(a, id) + HeaderCount(b, id)
  {
    if a == [] {
      assert a + b == b;
    } else {
      assert (a + b)[0] == a[0];
      assert (a + b)[1..] == a[1..] + b;
      HeaderCountAppend(a[1..], b, id);
    }
  }

  /** The rule sections hold one header per listed group. */
  lemma {:induction false} HeaderCountSections(gs: seq<RuleGroup>, id: string)
    ensures HeaderCount(RuleSections(gs), id) == IdCount(gs, id)
  {
    if gs != [] {
      var g := gs[0];
      HeaderCountSections(gs[1..], id);
      HeaderCountAppend(RuleSection(g), RuleSections(gs[1..]), id);
      assert RuleSection(g)[1..] == [Table(Rows(g.items))];
      assert [Table(Rows(g.items))][1..] == [];
    }
  }

  /** A section holds one header for each rule of its category and none for the others. */
  lemma SectionHeaderCount(t: RuleTable, c: Category, id: string)
    requires Covers(t.order, t.groups) && Distinct(t.order)
    ensures HeaderCount(Section(t, c), id) == if id in t.order && Categorize(id).category == c then 1 else 0
  {
    var gs := CategoryGroups(t.order, t.groups, c);
    CategoryGroupsOnce(t.order, t.groups, c, id);
    if gs != [] {
      var head := [Blank, CategoryTitle(c, Count(gs))];
      assert head[1..][1..] == [];
      HeaderCountAppend(head, RuleSections(SortByCount(gs)), id);
      HeaderCountSections(SortByCount(gs), id);
      IdCountSort(gs, id);
    }
  }

  lemma HeaderCountOfParts(head: seq<ReportLine>, s1: seq<ReportLine>, s2: seq<ReportLine>,
                           s3: seq<ReportLine>, s4: seq<ReportLine>, tail: seq<ReportLine>, id: string)
    ensures HeaderCount(head + (s1 + s2 + s3 + s4) + tail, id)
         == HeaderCount(head, id) + (HeaderCount(s1, id) + HeaderCount(s2, id) + HeaderCount(s3, id)
            + HeaderCount(s4, id)) + HeaderCount(tail, id)
  {
    HeaderCountAppend(s1, s2, id);
    HeaderCountAppend(s1 + s2, s3, id);
    HeaderCountAppend(s1 + s2 + s3, s4, id);
    HeaderCountAppend(head, s1 + s2 + s3 + s4, id);
    HeaderCountAppend(head + (s1 + s2 + s3 + s4), tail, id);
  }

  /** The head and the tail of a report hold no rule header. */
  lemma FramingHeaderCount(h: ReportLine, s: ReportLine, id: string)
    requires h.Headline? && s.Summary?
    ensures HeaderCount([Blank, Heading, h], id) == 0 && HeaderCount([Blank, s], id) == 0
  {
    assert [h][1..] == [] && [s][1..] == [];
    assert HeaderCount([h], id) == 0 && HeaderCount([s], id) == 0;
    assert [Heading, h][1..] == [h] && [Blank, s][1..] == [s];
    assert HeaderCount([Heading, h], id) == 0;
    assert [Blank, Heading, h][1..] == [Heading, h];
  }

  /** Four sections that each hold the header of a rule exactly when it is in their category. */
  lemma PartsHeaderCount(head: seq<ReportLine>, s1: seq<ReportLine>, s2: seq<ReportLine>,
                         s3: seq<ReportLine>, s4: seq<ReportLine>, tail: seq<ReportLine>,
                         id: string, listed: bool, c: Category)
    requires HeaderCount(head, id) == 0 && HeaderCount(tail, id) == 0
    requires HeaderCount(s1, id) == (if listed && c == Security then 1 else 0)
    requires HeaderCount(s2, id) == (if listed && c == Reliability then 1 else 0)
    requires HeaderCount(s3, id) == (if listed && c == Performance then 1 else 0)
    requires HeaderCount(s4, id) == (if listed && c == General then 1 else 0)
    ensures HeaderCount(head + (s1 + s2 + s3 + s4) + tail, id) == if listed then 1 else 0
  {
    HeaderCountOfParts(head, s1, s2, s3, s4, tail, id);
  }

  /** The report for a table holds one header for each of its rules and none for anything else. */
  lemma ReportForHeaderCount(t: RuleTable, id: string)
    requires Covers(t.order, t.groups) && Distinct(t.order)
    ensures HeaderCount(ReportFor(t), id) == if id in t.order then 1 else 0
  {
    ReportForSplit(t);
    FramingHeaderCount(Headline(TotalIssues(t), |t.order|), SummaryOf(t), id);
    SectionHeaderCount(t, Security, id);
    SectionHeaderCount(t, Reliability, id);
    SectionHeaderCount(t, Performance, id);
    SectionHeaderCount(t, General, id);
    PartsHeaderCount([Blank, Heading, Headline(TotalIssues(t), |t.order|)],
                     Section(t, Security), Section(t, Reliability), Section(t, Performance), Section(t, General),
                     [Blank, SummaryOf(t)], id, id in t.order, Categorize(id).category);
  }

  /**
   * Every rule that occurs among the errors gets exactly one rule header in
   * the report, whatever its category, and no other identifier gets one.
   */
  lemma ReportHeadersOnce(r: AnalysisResult, id: string)
    requires IssueCount(r) > 0
    ensures HeaderCount(Report(r), id) == if id in IdSet(Entries(r)) then 1 else 0
  {
    var es := Entries(r);
    var t := GroupBy(es);
    GroupByCovers(es);
    GroupByWellFormed(es);
    GroupByKeys(es);
    ReportForHeaderCount(t, id);
    assert id in IdSet(es) <==> id in t.order;
  }

  /**
   * What one report line says about the errors: a category title carries the
   * number of errors in that category; a rule header carries its rule's
   * caption and item count and is followed by the table of exactly that
   * rule's errors, in arrival order.
   */
  ghost predicate LineAccurate(lines: seq<ReportLine>, k: nat, es: seq<Entry>)
    requires k < |lines|
  {
    && (lines[k].CategoryTitle? ==> lines[k].total == CountIn(es, lines[k].category))
    && (lines[k].RuleHeader? ==>
          var items := ItemsWith(es, lines[k].identifier);
          && lines[k].caption == Categorize(lines[k].identifier).caption
          && lines[k].count == |items|
          && k + 1 < |lines| && lines[k + 1] == Table(Rows(items)))
  }

  ghost predicate Accurate(lines: seq<ReportLine>, es: seq<Entry>) {
    forall k :: 0 <= k < |lines| ==> LineAccurate(lines, k, es)
  }

  lemma AccurateAppend(a: seq<ReportLine>, b: seq<ReportLine>, es: seq<Entry>)
    requires Accurate(a, es) && Accurate(b, es)
    ensures Accurate(a + b, es)
  {
    forall k | 0 <= k < |a + b| ensures LineAccurate(a + b, k, es) {
      if k < |a| {
        assert LineAccurate(a, k, es);
        assert (a + b)[k] == a[k];
        if k + 1 < |a| {
          assert (a + b)[k + 1] == a[k + 1];
        }
      } else {
        assert LineAccurate(b, k - |a|, es);
        assert (a + b)[k] == b[k - |a|];
        if k + 1 < |a + b| {
          assert (a + b)[k + 1] == b[k + 1 - |a|];
        }
      }
    }
  }

  /** A rule group that holds its rule's classification and exactly its rule's errors. */
  ghost predicate GroupAccurate(g: RuleGroup, es: seq<Entry>) {
    g.meta == Categorize(g.id) && g.items == ItemsWith(es, g.id)
  }

  lemma {:induction false} RuleSectionsAccurate(gs: seq<RuleGroup>, es: seq<Entry>)
    requires forall g :: g in gs ==> GroupAccurate(g, es)
    ensures Accurate(RuleSections(gs), es)
  {
    if gs != [] {
      var g := gs[0];
      assert GroupAccurate(g, es);
      assert LineAccurate(RuleSection(g), 0, es);
      assert LineAccurate(RuleSection(g), 1, es);
      assert forall x :: x in gs[1..] ==> x in gs;
      RuleSectionsAccurate(gs[1..], es);
      AccurateAppend(RuleSection(g), RuleSections(gs[1..]), es);
    }
  }

  /** The rules of a category, once sorted, each hold their classification and exactly their errors. */
  lemma SortedGroupsAccurate(es: seq<Entry>, c: Category)
    ensures Covers(GroupBy(es).order, GroupBy(es).groups)
    ensures var t := GroupBy(es);
      forall g :: g in SortByCount(CategoryGroups(t.order, t.groups, c)) ==> GroupAccurate(g, es)
  {
    var t := GroupBy(es);
    GroupByCovers(es);
    var gs := CategoryGroups(t.order, t.groups, c);
    CategoryGroupsMembers(t.order, t.groups, c);
    GroupByItems(es);
    SortByCountPermutes(gs);
    forall g | g in SortByCount(gs) ensures GroupAccurate(g, es) {
      assert g in multiset(gs);
    }
  }

  /** A category's section agrees with the errors when its total and its rules do. */
  lemma CategorySectionAccurate(c: Category, gs: seq<RuleGroup>, es: seq<Entry>)
    requires Count(gs) == CountIn(es, c)
    requires forall g :: g in SortByCount(gs) ==> GroupAccurate(g, es)
    ensures Accurate(CategorySection(c, gs), es)
  {
    if gs != [] {
      var head := [Blank, CategoryTitle(c, Count(gs))];
      RuleSectionsAccurate(SortByCount(gs), es);
      assert LineAccurate(head, 0, es) && LineAccurate(head, 1, es);
      AccurateAppend(head, RuleSections(SortByCount(gs)), es);
    }
  }

  /** Every line of a category's section agrees with the errors. */
  lemma SectionAccurate(es: seq<Entry>, c: Category)
    ensures Covers(GroupBy(es).order, GroupBy(es).groups)
    ensures Accurate(Section(GroupBy(es), c), es)
  {
    var t := GroupBy(es);
    SortedGroupsAccurate(es, c);
    CategoryTotalCounts(es, c);
    CategorySectionAccurate(c, CategoryGroups(t.order, t.groups, c), es);
  }

  /** The head and the tail of a report say nothing about particular errors. */
  lemma FramingAccurate(h: ReportLine, s: ReportLine, es: seq<Entry>)
    requires h.Headline? && s.Summary?
    ensures Accurate([Blank, Heading, h], es) && Accurate([Blank, s], es)
  {
    assert LineAccurate([Blank, Heading, h], 0, es) && LineAccurate([Blank, Heading, h], 1, es);
    assert LineAccurate([Blank, Heading, h], 2, es);
    assert LineAccurate([Blank, s], 0, es) && LineAccurate([Blank, s], 1, es);
  }

  lemma PartsAccurate(head: seq<ReportLine>, s1: seq<ReportLine>, s2: seq<ReportLine>,
                      s3: seq<ReportLine>, s4: seq<ReportLine>, tail: seq<ReportLine>, es: seq<Entry>)
    requires Accurate(head, es) && Accurate(tail, es)
    requires Accurate(s1, es) && Accurate(s2, es) && Accurate(s3, es) && Accurate(s4, es)
    ensures Accurate(head + (s1 + s2 + s3 + s4) + tail, es)
  {
    AccurateAppend(s1, s2, es);
    AccurateAppend(s1 + s2, s3, es);
    AccurateAppend(s1 + s2 + s3, s4, es);
    AccurateAppend(head, s1 + s2 + s3 + s4, es);
    AccurateAppend(head + (s1 + s2 + s3 + s4), tail, es);
  }

  /** The report for a table agrees with the errors when each of its sections does. */
  lemma ReportForAccurate(t: RuleTable, es: seq<Entry>)
    requires Covers(t.order, t.groups)
    requires Accurate(Section(t, Security), es) && Accurate(Section(t, Reliability), es)
    requires Accurate(Section(t, Performance), es) && Accurate(Section(t, General), es)
    ensures Accurate(ReportFor(t), es)
  {
    ReportForSplit(t);
    FramingAccurate(Headline(TotalIssues(t), |t.order|), SummaryOf(t), es);
    PartsAccurate([Blank, Heading, Headline(TotalIssues(t), |t.order|)],
                  Section(t, Security), Section(t, Reliability), Section(t, Performance), Section(t, General),
                  [Blank, SummaryOf(t)], es);
  }

  /**
   * Every line of the report agrees with the errors: each category title
   * shows the number of errors in its category, and each rule header shows
   * its rule's label and item count and is followed by the table of exactly
   * that rule's errors.
   */
  lemma ReportAccurate(r: AnalysisResult)
    requires IssueCount(r) > 0
    ensures Accurate(Report(r), Entries(r))
  {
    var es := Entries(r);
    SectionAccurate(es, Security);
    SectionAccurate(es, Reliability);
    SectionAccurate(es, Performance);
    SectionAccurate(es, General);
    ReportForAccurate(GroupBy(es), es);
  }
}
