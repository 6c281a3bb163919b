/**
 * The data side of the report: the errors PHPStan hands over, the by-rule
 * table (`$by_rule`), the per-category groups (`$by_category`) with their
 * totals, and the stable ordering of the rules in a category by item count.
 */
module FabledGrouping {
  import opened Wrappers
  import opened FabledCategorize

  /** A file-specific error as PHPStan reports it; the identifier may be missing. */
  datatype FileError = FileError(file: string, line: Option<int>, message: string, identifier: Option<string>)

  /** The analysis result: file-specific errors and the plain messages of the others. */
  datatype AnalysisResult = AnalysisResult(fileErrors: seq<FileError>, genericErrors: seq<string>)

  /** One row of the report before rendering. */
  datatype Item = Item(file: string, line: Option<int>, message: string)

  /** An item together with the identifier it is grouped under. */
  datatype Entry = Entry(id: string, item: Item)

  const GenericId: string := "phpstan.generic"
  const GenericFile: string := "[generic]"

  function FileEntry(e: FileError): Entry {
    Entry(e.identifier.GetOr(GenericId), Item(e.file, e.line, e.message))
  }

  function GenericEntry(message: string): Entry {
    Entry(GenericId, Item(GenericFile, None, message))
  }

  function FileEntries(errors: seq<FileError>): (es: seq<Entry>)
    ensures |es| == |errors|
  {
    if errors == [] then [] else [FileEntry(errors[0])] + FileEntries(errors[1..])
  }

  function GenericEntries(messages: seq<string>): (es: seq<Entry>)
    ensures |es| == |messages|
  {
    if messages == [] then [] else [GenericEntry(messages[0])] + GenericEntries(messages[1..])
  }

  lemma {:induction false} FileEntriesAt(errors: seq<FileError>, i: nat)
    requires i < |errors|
    ensures FileEntries(errors)[i] == FileEntry(errors[i])
  {
    if i > 0 {
      FileEntriesAt(errors[1..], i - 1);
    }
  }

  lemma {:induction false} GenericEntriesAt(messages: seq<string>, j: nat)
    requires j < |messages|
    ensures GenericEntries(messages)[j] == GenericEntry(messages[j])
  {
    if j > 0 {
      GenericEntriesAt(messages[1..], j - 1);
    }
  }

  /** The input in the order the report files it. */
  function Entries(r: AnalysisResult): (es: seq<Entry>)
    ensures |es| == |r.fileErrors| + |r.genericErrors|
  {
    FileEntries(r.fileErrors) + GenericEntries(r.genericErrors)
  }

  lemma EntriesAtFile(r: AnalysisResult, i: nat)
    requires i < |r.fileErrors|
    ensures Entries(r)[i] == FileEntry(r.fileErrors[i])
  {
    FileEntriesAt(r.fileErrors, i);
  }

  lemma EntriesAtGeneric(r: AnalysisResult, j: nat)
    requires j < |r.genericErrors|
    ensures Entries(r)[|r.fileErrors| + j] == GenericEntry(r.genericErrors[j])
  {
    GenericEntriesAt(r.genericErrors, j);
  }

  /**
   * Every file error comes first, under its identifier or `phpstan.generic`,
   * then every other error under `phpstan.generic` with file `[generic]` and
   * no line.
   */
  lemma EntriesOrder(r: AnalysisResult)
    ensures var es := Entries(r);
      && (forall i :: 0 <= i < |r.fileErrors| ==>
           && es[i].item == Item(r.fileErrors[i].file, r.fileErrors[i].line, r.fileErrors[i].message)
           && es[i].id == (if r.fileErrors[i].identifier.Some? then r.fileErrors[i].identifier.value else GenericId))
      && (forall j :: |r.fileErrors| <= j < |es| ==>
           es[j] == Entry(GenericId, Item(GenericFile, None, r.genericErrors[j - |r.fileErrors|])))
  {
    forall i | 0 <= i < |r.fileErrors| ensures Entries(r)[i] == FileEntry(r.fileErrors[i]) {
      EntriesAtFile(r, i);
    }
    forall j | |r.fileErrors| <= j < |Entries(r)|
      ensures Entries(r)[j] == GenericEntry(r.genericErrors[j - |r.fileErrors|])
    {
      EntriesAtGeneric(r, j - |r.fileErrors|);
    }
  }

  /** `$by_rule`: identifiers in the order first seen, and the items filed under each. */
  datatype RuleTable = RuleTable(order: seq<string>, groups: map<string, seq<Item>>)

  predicate Distinct(s: seq<string>) {
    forall i, j :: 0 <= i < j < |s| ==> s[i] != s[j]
  }

  /** The keys of the table are exactly its order, each once. */
  ghost predicate WellFormed(t: RuleTable) {
    Distinct(t.order) && forall id :: id in t.groups <==> id in t.order
  }

  /** `$by_rule[$identifier] ??= []; $by_rule[$identifier][] = $item;` */
  function Add(t: RuleTable, e: Entry): RuleTable {
    if e.id in t.groups then RuleTable(t.order, t.groups[e.id := t.groups[e.id] + [e.item]])
    else RuleTable(t.order + [e.id], t.groups[e.id := [e.item]])
  }

  /** The table after filing the entries one by one. */
  function GroupBy(es: seq<Entry>): RuleTable {
    if es == [] then RuleTable([], map[]) else Add(GroupBy(es[..|es| - 1]), es[|es| - 1])
  }

  /** Filing keeps the table well formed: each identifier has one place in the order and one bucket. */
  lemma {:induction false} GroupByWellFormed(es: seq<Entry>)
    ensures WellFormed(GroupBy(es))
  {
    if es != [] {
      var t := GroupBy(es[..|es| - 1]);
      var e := es[|es| - 1];
      GroupByWellFormed(es[..|es| - 1]);
      if e.id !in t.groups {
        assert e.id !in t.order;
      }
    }
  }

  /** Every identifier of the table's order has a bucket. */
  lemma GroupByCovers(es: seq<Entry>)
    ensures Covers(GroupBy(es).order, GroupBy(es).groups)
  {
    GroupByWellFormed(es);
  }

  /** Filing one more entry: the table of a longer prefix is the shorter one's plus that entry. */
  lemma GroupByStep(es: seq<Entry>, i: nat)
    requires i < |es|
    ensures GroupBy(es[..i + 1]) == Add(GroupBy(es[..i]), es[i])
  {
    assert es[..i + 1][..i] == es[..i];
  }

  /** Filing the i-th file error. */
  lemma GroupByFileStep(r: AnalysisResult, i: nat)
    requires i < |r.fileErrors|
    ensures GroupBy(Entries(r)[..i + 1]) == Add(GroupBy(Entries(r)[..i]), FileEntry(r.fileErrors[i]))
  {
    EntriesAtFile(r, i);
    GroupByStep(Entries(r), i);
  }

  /** Filing the j-th other error, after every file error. */
  lemma GroupByGenericStep(r: AnalysisResult, j: nat)
    requires j < |r.genericErrors|
    ensures var n := |r.fileErrors|;
      GroupBy(Entries(r)[..n + j + 1]) == Add(GroupBy(Entries(r)[..n + j]), GenericEntry(r.genericErrors[j]))
  {
    EntriesAtGeneric(r, j);
    GroupByStep(Entries(r), |r.fileErrors| + j);
  }


  /** The items of the entries with identifier `id`, in arrival order. */
  function ItemsWith(es: seq<Entry>, id: string): seq<Item> {
    if es == [] then []
    else ItemsWith(es[..|es| - 1], id) + (if es[|es| - 1].id == id then [es[|es| - 1].item] else [])
  }

  predicate IsPrefix(a: seq<string>, b: seq<string>) {
    |a| <= |b| && b[..|a|] == a
  }

  /** The table holds exactly the identifiers that occur among the entries. */
  lemma {:induction false} GroupByKeys(es: seq<Entry>)
    ensures forall id :: id in GroupBy(es).groups <==> exists i :: 0 <= i < |es| && es[i].id == id
  {
    if es != [] {
      var init := es[..|es| - 1];
      GroupByKeys(init);
      forall id
        ensures id in GroupBy(es).groups <==> exists i :: 0 <= i < |es| && es[i].id == id
      {
        if id in GroupBy(init).groups {
          var i :| 0 <= i < |init| && init[i].id == id;
          assert es[i].id == id;
        }
        if exists i :: 0 <= i < |es| && es[i].id == id {
          var i :| 0 <= i < |es| && es[i].id == id;
          if i < |init| {
            assert init[i].id == id;
          }
        }
      }
    }
  }

  /** Every entry is filed under its own identifier and nowhere else, in arrival order. */
  lemma {:induction false} GroupByItems(es: seq<Entry>)
    ensures forall id :: id in GroupBy(es).groups ==> GroupBy(es).groups[id] == ItemsWith(es, id)
  {
    if es != [] {
      var init := es[..|es| - 1];
      var e := es[|es| - 1];
      var t := GroupBy(init);
      GroupByItems(init);
      GroupByKeys(init);
      forall id | id in GroupBy(es).groups
        ensures GroupBy(es).groups[id] == ItemsWith(es, id)
      {
        if id !in t.groups {
          ItemsWithAbsent(init, id);
        }
      }
    }
  }

  /** An identifier keeps the place where it was first seen: later entries only append to the order. */
  lemma {:induction false} GroupByOrderGrows(es: seq<Entry>, n: nat)
    requires n <= |es|
    ensures IsPrefix(GroupBy(es[..n]).order, GroupBy(es).order)
    decreases |es|
  {
    if n < |es| {
      var init := es[..|es| - 1];
      assert es[..n] == init[..n];
      GroupByOrderGrows(init, n);
    } else {
      assert es[..n] == es;
    }
  }

  /** An identifier that never occurs collects no items. */
  lemma {:induction false} ItemsWithAbsent(es: seq<Entry>, id: string)
    requires forall i :: 0 <= i < |es| ==> es[i].id != id
    ensures ItemsWith(es, id) == []
  {
    if es != [] {
      ItemsWithAbsent(es[..|es| - 1], id);
    }
  }

  /** Number of items in the table, summed along its order. */
  function SumSizes(order: seq<string>, groups: map<string, seq<Item>>): nat
    requires forall id :: id in order ==> id in groups
  {
    if order == [] then 0
    else SumSizes(order[..|order| - 1], groups) + |groups[order[|order| - 1]]|
  }

  lemma {:induction false} SumSizesUnaffected(order: seq<string>, groups: map<string, seq<Item>>, k: string, v: seq<Item>)
    requires forall id :: id in order ==> id in groups
    requires k !in order
    ensures SumSizes(order, groups[k := v]) == SumSizes(order, groups)
  {
    if order != [] {
      SumSizesUnaffected(order[..|order| - 1], groups, k, v);
    }
  }

  lemma {:induction false} SumSizesGrow(order: seq<string>, groups: map<string, seq<Item>>, k: string, x: Item)
    requires forall id :: id in order ==> id in groups
    requires Distinct(order) && k in order
    ensures SumSizes(order, groups[k := groups[k] + [x]]) == SumSizes(order, groups) + 1
  {
    var init := order[..|order| - 1];
    if order[|order| - 1] == k {
      assert k !in init;
      SumSizesUnaffected(init, groups, k, groups[k] + [x]);
    } else {
      assert k in init;
      SumSizesGrow(init, groups, k, x);
    }
  }

  /** No entry is lost or duplicated: the buckets together hold as many items as there are entries. */
  lemma {:induction false} GroupBySize(es: seq<Entry>)
    ensures Covers(GroupBy(es).order, GroupBy(es).groups)
    ensures SumSizes(GroupBy(es).order, GroupBy(es).groups) == |es|
  {
    GroupByCovers(es);
    if es != [] {
      var t := GroupBy(es[..|es| - 1]);
      var e := es[|es| - 1];
      GroupBySize(es[..|es| - 1]);
      GroupByWellFormed(es[..|es| - 1]);
      if e.id in t.groups {
        SumSizesGrow(t.order, t.groups, e.id, e.item);
      } else {
        SumSizesUnaffected(t.order, t.groups, e.id, [e.item]);
        assert (t.order + [e.id])[..|t.order|] == t.order;
      }
    }
  }

  /** The set of distinct identifiers among the entries. */
  function IdSet(es: seq<Entry>): set<string> {
    set i | 0 <= i < |es| :: es[i].id
  }

  lemma {:induction false} DistinctCard(s: seq<string>)
    requires Distinct(s)
    ensures |set x | x in s| == |s|
  {
    if s != [] {
      var init := s[..|s| - 1];
      DistinctCard(init);
      assert (set x | x in s) == (set x | x in init) + {s[|s| - 1]};
      assert s[|s| - 1] !in init;
    }
  }

  /** The headline's rule count, the length of the table's order, is the number of distinct identifiers. */
  lemma RuleCountIsDistinctIds(es: seq<Entry>)
    ensures |GroupBy(es).order| == |IdSet(es)|
  {
    var t := GroupBy(es);
    GroupByKeys(es);
    GroupByWellFormed(es);
    DistinctCard(t.order);
    assert (set x | x in t.order) == IdSet(es) by {
      forall x | x in t.order ensures x in IdSet(es) {
        var i :| 0 <= i < |es| && es[i].id == x;
      }
    }
  }

  /** An entry of `$by_category[$cat]`: a rule, its items and its classification. */
  datatype RuleGroup = RuleGroup(id: string, items: seq<Item>, meta: RuleMeta)

  predicate Covers(order: seq<string>, groups: map<string, seq<Item>>) {
    forall id :: id in order ==> id in groups
  }

  /** `$by_category[$cat]`: the rules of category c, in table order. */
  function CategoryGroups(order: seq<string>, groups: map<string, seq<Item>>, c: Category): seq<RuleGroup>
    requires Covers(order, groups)
  {
    if order == [] then []
    else
      var id := order[|order| - 1];
      var meta := Categorize(id);
      CategoryGroups(order[..|order| - 1], groups, c)
        + (if meta.category == c then [RuleGroup(id, groups[id], meta)] else [])
  }

  /** Each group of a category is a rule of the table, with its items and its classification, in that category. */
  lemma {:induction false} CategoryGroupsMembers(order: seq<string>, groups: map<string, seq<Item>>, c: Category)
    requires Covers(order, groups)
    ensures forall g :: g in CategoryGroups(order, groups, c) ==>
      g.id in order && g.items == groups[g.id] && g.meta == Categorize(g.id) && g.meta.category == c
  {
    if order != [] {
      var init := order[..|order| - 1];
      CategoryGroupsMembers(init, groups, c);
      forall g | g in CategoryGroups(order, groups, c)
        ensures g.id in order && g.items == groups[g.id] && g.meta == Categorize(g.id) && g.meta.category == c
      {
        if g in CategoryGroups(init, groups, c) {
          var k :| 0 <= k < |init| && init[k] == g.id;
          assert order[k] == g.id;
        }
      }
    }
  }

  /** Number of items held by a list of rule groups. */
  function Count(gs: seq<RuleGroup>): nat {
    if gs == [] then 0 else |gs[0].items| + Count(gs[1..])
  }

  lemma {:induction false} CountAppend(a: seq<RuleGroup>, b: seq<RuleGroup>)
    ensures Count(a + b) == Count(a) + Count(b)
  {
    if a == [] {
      assert a + b == b;
    } else {
      assert (a + b)[0] == a[0];
      assert (a + b)[1..] == a[1..] + b;
      CountAppend(a[1..], b);
      assert Count(a + b) == |a[0].items| + Count(a[1..] + b);
    }
  }

  /** `$category_totals[$cat]`. */
  function CategoryTotal(t: RuleTable, c: Category): nat
    requires Covers(t.order, t.groups)
  {
    Count(CategoryGroups(t.order, t.groups, c))
  }

  /** Extending the order by one identifier adds its rule, and its items, to its own category only. */
  lemma CategoryGroupsStep(order: seq<string>, groups: map<string, seq<Item>>, c: Category)
    requires Covers(order, groups) && order != []
    ensures var id := order[|order| - 1];
      var meta := Categorize(id);
      && CategoryGroups(order, groups, c)
         == CategoryGroups(order[..|order| - 1], groups, c) + (if meta.category == c then [RuleGroup(id, groups[id], meta)] else [])
      && Count(CategoryGroups(order, groups, c))
         == Count(CategoryGroups(order[..|order| - 1], groups, c)) + (if meta.category == c then |groups[id]| else 0)
  {
    var id := order[|order| - 1];
    var meta := Categorize(id);
    var tail := if meta.category == c then [RuleGroup(id, groups[id], meta)] else [];
    CountAppend(CategoryGroups(order[..|order| - 1], groups, c), tail);
  }

  /** The same step, stated for the prefixes of an order. */
  lemma CategoryGroupsPrefix(order: seq<string>, groups: map<string, seq<Item>>, i: nat, c: Category)
    requires Covers(order, groups) && i < |order|
    ensures Covers(order[..i], groups) && Covers(order[..i + 1], groups)
    ensures var meta := Categorize(order[i]);
      && CategoryGroups(order[..i + 1], groups, c)
         == CategoryGroups(order[..i], groups, c) + (if meta.category == c then [RuleGroup(order[i], groups[order[i]], meta)] else [])
      && Count(CategoryGroups(order[..i + 1], groups, c))
         == Count(CategoryGroups(order[..i], groups, c)) + (if meta.category == c then |groups[order[i]]| else 0)
  {
    assert order[..i + 1][..i] == order[..i];
    CategoryGroupsStep(order[..i + 1], groups, c);
  }

  /** The four category totals together account for every item of the table. */
  lemma {:induction false} CategoryTotalsPartition(order: seq<string>, groups: map<string, seq<Item>>)
    requires Covers(order, groups)
    ensures Count(CategoryGroups(order, groups, Security)) + Count(CategoryGroups(order, groups, Reliability))
          + Count(CategoryGroups(order, groups, Performance)) + Count(CategoryGroups(order, groups, General))
         == SumSizes(order, groups)
  {
    if order != [] {
      CategoryTotalsPartition(order[..|order| - 1], groups);
      CategoryGroupsStep(order, groups, Security);
      CategoryGroupsStep(order, groups, Reliability);
      CategoryGroupsStep(order, groups, Performance);
      CategoryGroupsStep(order, groups, General);
    }
  }

  /** An identifier of the given category is in the order. */
  ghost predicate HasCategory(order: seq<string>, c: Category) {
    exists i :: 0 <= i < |order| && Categorize(order[i]).category == c
  }

  /** Dropping the last identifier, when it is of another category, keeps the answer. */
  lemma HasCategoryInit(order: seq<string>, c: Category)
    requires order != [] && Categorize(order[|order| - 1]).category != c
    ensures HasCategory(order, c) <==> HasCategory(order[..|order| - 1], c)
  {
    var init := order[..|order| - 1];
    if HasCategory(order, c) {
      var i :| 0 <= i < |order| && Categorize(order[i]).category == c;
      assert init[i] == order[i];
    }
    if HasCategory(init, c) {
      var i :| 0 <= i < |init| && Categorize(init[i]).category == c;
      assert order[i] == init[i];
    }
  }

  /** A category has a section exactly when some identifier of the table belongs to it. */
  lemma {:induction false} CategoryPresent(order: seq<string>, groups: map<string, seq<Item>>, c: Category)
    requires Covers(order, groups)
    ensures CategoryGroups(order, groups, c) != [] <==> HasCategory(order, c)
  {
    if order != [] {
      var init := order[..|order| - 1];
      CategoryGroupsStep(order, groups, c);
      if Categorize(order[|order| - 1]).category == c {
        assert CategoryGroups(order, groups, c) != [];
        assert HasCategory(order, c);
      } else {
        CategoryPresent(init, groups, c);
        HasCategoryInit(order, c);
      }
    }
  }

  // ---- the stable sort by descending item count (`uasort` with `count($b) <=> count($a)`)

  /** Puts g after every group holding at least as many items. */
  function InsertByCount(g: RuleGroup, sorted: seq<RuleGroup>): seq<RuleGroup> {
    if sorted == [] then [g]
    else if |sorted[0].items| >= |g.items| then [sorted[0]] + InsertByCount(g, sorted[1..])
    else [g] + sorted
  }

  /** Insertion sort taking the groups in their given order: equal counts keep that order. */
  function SortByCount(gs: seq<RuleGroup>): seq<RuleGroup> {
    if gs == [] then [] else InsertByCount(gs[|gs| - 1], SortByCount(gs[..|gs| - 1]))
  }

  predicate NonIncreasing(gs: seq<RuleGroup>) {
    forall i, j :: 0 <= i < j < |gs| ==> |gs[i].items| >= |gs[j].items|
  }

  /** The groups holding exactly n items, in order. */
  function WithCount(gs: seq<RuleGroup>, n: nat): seq<RuleGroup> {
    if gs == [] then []
    else (if |gs[0].items| == n then [gs[0]] else []) + WithCount(gs[1..], n)
  }

  lemma {:induction false} WithCountAppend(a: seq<RuleGroup>, b: seq<RuleGroup>, n: nat)
    ensures WithCount(a + b, n) == WithCount(a, n) + WithCount(b, n)
  {
    if a == [] {
      assert a + b == b;
    } else {
      var c := if |a[0].items| == n then [a[0]] else [];
      assert (a + b)[0] == a[0];
      assert (a + b)[1..] == a[1..] + b;
      WithCountAppend(a[1..], b, n);
      calc {
        WithCount(a + b, n);
        c + WithCount(a[1..] + b, n);
        c + (WithCount(a[1..], n) + WithCount(b, n));
        (c + WithCount(a[1..], n)) + WithCount(b, n);
      }
    }
  }

  lemma {:induction false} WithCountNone(gs: seq<RuleGroup>, n: nat)
    requires forall i :: 0 <= i < |gs| ==> |gs[i].items| != n
    ensures WithCount(gs, n) == []
  {
    if gs != [] {
      WithCountNone(gs[1..], n);
    }
  }

  lemma {:induction false} InsertByCountPermutes(g: RuleGroup, s: seq<RuleGroup>)
    ensures multiset(InsertByCount(g, s)) == multiset(s) + multiset{g}
  {
    if s != [] && |s[0].items| >= |g.items| {
      InsertByCountPermutes(g, s[1..]);
      assert s == [s[0]] + s[1..];
    }
  }

  lemma {:induction false} InsertByCountTotal(g: RuleGroup, s: seq<RuleGroup>)
    ensures Count(InsertByCount(g, s)) == Count(s) + |g.items|
  {
    if s != [] && |s[0].items| >= |g.items| {
      InsertByCountTotal(g, s[1..]);
      assert ([s[0]] + InsertByCount(g, s[1..]))[1..] == InsertByCount(g, s[1..]);
    } else if s != [] {
      assert ([g] + s)[1..] == s;
    }
  }

  lemma NonIncreasingTail(s: seq<RuleGroup>)
    requires NonIncreasing(s) && s != []
    ensures NonIncreasing(s[1..])
    ensures forall x :: x in s[1..] ==> |s[0].items| >= |x.items|
  {
    forall x | x in s[1..] ensures |s[0].items| >= |x.items| {
      var k :| 0 <= k < |s[1..]| && s[1..][k] == x;
      assert s[k + 1] == x;
    }
  }

  /** Insertion adds g and nothing else. */
  lemma {:induction false} InsertByCountMembers(g: RuleGroup, s: seq<RuleGroup>)
    ensures forall x :: x in InsertByCount(g, s) ==> x == g || x in s
  {
    if s != [] && |s[0].items| >= |g.items| {
      InsertByCountMembers(g, s[1..]);
      forall x | x in InsertByCount(g, s) ensures x == g || x in s {
        var rest := InsertByCount(g, s[1..]);
        assert InsertByCount(g, s) == [s[0]] + rest;
        if x != s[0] {
          assert x in rest;
        }
      }
    }
  }

  /** A group no smaller than every member of a non-increasing sequence may go in front of it. */
  lemma NonIncreasingCons(x: RuleGroup, t: seq<RuleGroup>)
    requires NonIncreasing(t)
    requires forall y :: y in t ==> |x.items| >= |y.items|
    ensures NonIncreasing([x] + t)
  {
    var r := [x] + t;
    forall i, j | 0 <= i < j < |r| ensures |r[i].items| >= |r[j].items| {
      assert r[j] == t[j - 1];
      if i == 0 {
        assert r[j] in t;
      } else {
        assert r[i] == t[i - 1];
      }
    }
  }

  lemma {:induction false} InsertByCountSorted(g: RuleGroup, s: seq<RuleGroup>)
    requires NonIncreasing(s)
    ensures NonIncreasing(InsertByCount(g, s))
  {
    if s != [] && |s[0].items| >= |g.items| {
      var rest := InsertByCount(g, s[1..]);
      NonIncreasingTail(s);
      InsertByCountSorted(g, s[1..]);
      InsertByCountMembers(g, s[1..]);
      forall y | y in rest ensures |s[0].items| >= |y.items| {
      }
      NonIncreasingCons(s[0], rest);
    } else {
      forall y | y in s ensures |g.items| >= |y.items| {
        var k :| 0 <= k < |s| && s[k] == y;
        assert |s[0].items| >= |s[k].items|;
      }
      NonIncreasingCons(g, s);
    }
  }

  lemma WithCountCons(x: RuleGroup, t: seq<RuleGroup>, n: nat)
    ensures WithCount([x] + t, n) == (if |x.items| == n then [x] else []) + WithCount(t, n)
  {
    assert ([x] + t)[0] == x;
    assert ([x] + t)[1..] == t;
  }

  /** Stability when g goes in front: nothing after it has g's count. */
  lemma InsertByCountFront(g: RuleGroup, s: seq<RuleGroup>, n: nat)
    requires NonIncreasing(s)
    requires s == [] || |s[0].items| < |g.items|
    ensures WithCount(InsertByCount(g, s), n) == WithCount(s, n) + (if |g.items| == n then [g] else [])
  {
    assert InsertByCount(g, s) == [g] + s;
    WithCountCons(g, s, n);
    if |g.items| == n {
      forall i | 0 <= i < |s| ensures |s[i].items| != n {
        assert |s[0].items| >= |s[i].items|;
      }
      WithCountNone(s, n);
      assert [g] + [] == [g];
    }
  }

  /** Stability when g goes past the first group, given stability for the rest. */
  lemma InsertByCountPast(g: RuleGroup, s: seq<RuleGroup>, n: nat)
    requires s != [] && |s[0].items| >= |g.items|
    requires WithCount(InsertByCount(g, s[1..]), n) == WithCount(s[1..], n) + (if |g.items| == n then [g] else [])
    ensures WithCount(InsertByCount(g, s), n) == WithCount(s, n) + (if |g.items| == n then [g] else [])
  {
    var rest := InsertByCount(g, s[1..]);
    var c0 := if |s[0].items| == n then [s[0]] else [];
    var cg := if |g.items| == n then [g] else [];
    assert InsertByCount(g, s) == [s[0]] + rest;
    WithCountCons(s[0], rest, n);
    WithCountCons(s[0], s[1..], n);
    assert [s[0]] + s[1..] == s;
    calc {
      WithCount(InsertByCount(g, s), n);
      c0 + WithCount(rest, n);
      c0 + (WithCount(s[1..], n) + cg);
      (c0 + WithCount(s[1..], n)) + cg;
      WithCount(s, n) + cg;
    }
  }

  lemma {:induction false} InsertByCountStable(g: RuleGroup, s: seq<RuleGroup>, n: nat)
    requires NonIncreasing(s)
    ensures WithCount(InsertByCount(g, s), n) == WithCount(s, n) + (if |g.items| == n then [g] else [])
  {
    if s == [] || |s[0].items| < |g.items| {
      InsertByCountFront(g, s, n);
    } else {
      NonIncreasingTail(s);
      InsertByCountStable(g, s[1..], n);
      InsertByCountPast(g, s, n);
    }
  }

  /** The sorted groups run from most items to fewest. */
  lemma {:induction false} SortByCountSorted(gs: seq<RuleGroup>)
    ensures NonIncreasing(SortByCount(gs))
  {
    if gs != [] {
      SortByCountSorted(gs[..|gs| - 1]);
      InsertByCountSorted(gs[|gs| - 1], SortByCount(gs[..|gs| - 1]));
    }
  }

  /** The sorted groups are a permutation of the input. */
  lemma {:induction false} SortByCountPermutes(gs: seq<RuleGroup>)
    ensures multiset(SortByCount(gs)) == multiset(gs)
  {
    if gs != [] {
      var init := gs[..|gs| - 1];
      var last := gs[|gs| - 1];
      SortByCountPermutes(init);
      InsertByCountPermutes(last, SortByCount(init));
      assert gs == init + [last];
    }
  }

  /** Sorting neither gains nor loses an item. */
  lemma {:induction false} SortByCountTotal(gs: seq<RuleGroup>)
    ensures Count(SortByCount(gs)) == Count(gs)
  {
    if gs != [] {
      var init := gs[..|gs| - 1];
      var last := gs[|gs| - 1];
      SortByCountTotal(init);
      InsertByCountTotal(last, SortByCount(init));
      CountAppend(init, [last]);
      assert Count([last]) == |last.items|;
      assert init + [last] == gs;
      calc {
        Count(SortByCount(gs));
        Count(InsertByCount(last, SortByCount(init)));
        Count(SortByCount(init)) + |last.items|;
        Count(init) + Count([last]);
        Count(init + [last]);
      }
    }
  }

  /** The sort is stable: the groups with any one count keep their original relative order. */
  lemma {:induction false} SortByCountStable(gs: seq<RuleGroup>, n: nat)
    ensures WithCount(SortByCount(gs), n) == WithCount(gs, n)
  {
    if gs != [] {
      var init := gs[..|gs| - 1];
      var last := gs[|gs| - 1];
      SortByCountStable(init, n);
      SortByCountSorted(init);
      InsertByCountStable(last, SortByCount(init), n);
      assert gs == init + [last];
      WithCountAppend(init, [last], n);
    }
  }


  // ---- each rule in exactly one category, each item counted in its own category

  /** The number of groups of rule `id`. */
  function IdCount(gs: seq<RuleGroup>, id: string): nat {
    if gs == [] then 0 else (if gs[0].id == id then 1 else 0) + IdCount(gs[1..], id)
  }

  lemma {:induction false} IdCountAppend(a: seq<RuleGroup>, b: seq<RuleGroup>, id: string)
    ensures IdCount(a + b, id) == IdCount(a, id) + IdCount(b, id)
  {
    if a == [] {
      assert a + b == b;
    } else {
      assert (a + b)[0] == a[0];
      assert (a + b)[1..] == a[1..] + b;
      IdCountAppend(a[1..], b, id);
    }
  }

  /** The last identifier of a list without repeats does not occur before it. */
  lemma DistinctInit(order: seq<string>)
    requires Distinct(order) && order != []
    ensures Distinct(order[..|order| - 1])
    ensures order[|order| - 1] !in order[..|order| - 1]
    ensures order == order[..|order| - 1] + [order[|order| - 1]]
  {
    var init := order[..|order| - 1];
    forall k | 0 <= k < |init| ensures init[k] != order[|order| - 1] {
      assert init[k] == order[k];
    }
  }

  /**
   * Every rule of the table is listed exactly once under its own category,
   * and under no other category.
   */
  lemma {:induction false} CategoryGroupsOnce(order: seq<string>, groups: map<string, seq<Item>>, c: Category, id: string)
    requires Covers(order, groups) && Distinct(order)
    ensures IdCount(CategoryGroups(order, groups, c), id)
         == if id in order && Categorize(id).category == c then 1 else 0
  {
    if order != [] {
      var init := order[..|order| - 1];
      var x := order[|order| - 1];
      var meta := Categorize(x);
      var last := if meta.category == c then [RuleGroup(x, groups[x], meta)] else [];
      DistinctInit(order);
      CategoryGroupsOnce(init, groups, c, id);
      IdCountAppend(CategoryGroups(init, groups, c), last, id);
    }
  }

  /** The number of entries whose rule falls in category c. */
  function CountIn(es: seq<Entry>, c: Category): nat {
    if es == [] then 0
    else CountIn(es[..|es| - 1], c) + (if Categorize(es[|es| - 1].id).category == c then 1 else 0)
  }

  /** The groups of a category do not depend on the bucket of an identifier outside the order. */
  lemma {:induction false} CategoryGroupsFrame(order: seq<string>, groups: map<string, seq<Item>>,
                                               k: string, v: seq<Item>, c: Category)
    requires Covers(order, groups) && k !in order
    ensures Covers(order, groups[k := v])
    ensures CategoryGroups(order, groups[k := v], c) == CategoryGroups(order, groups, c)
  {
    if order != [] {
      var init := order[..|order| - 1];
      assert order == init + [order[|order| - 1]];
      CategoryGroupsFrame(init, groups, k, v, c);
    }
  }

  /** One more item in the bucket of a listed rule adds one to that rule's category only. */
  lemma {:induction false} CategoryCountGrow(order: seq<string>, groups: map<string, seq<Item>>,
                                             k: string, x: Item, c: Category)
    requires Covers(order, groups) && Distinct(order) && k in order
    ensures Covers(order, groups[k := groups[k] + [x]])
    ensures Count(CategoryGroups(order, groups[k := groups[k] + [x]], c))
         == Count(CategoryGroups(order, groups, c)) + (if Categorize(k).category == c then 1 else 0)
  {
    var grown := groups[k := groups[k] + [x]];
    var init := order[..|order| - 1];
    var y := order[|order| - 1];
    DistinctInit(order);
    CategoryGroupsStep(order, groups, c);
    CategoryGroupsStep(order, grown, c);
    if y == k {
      CategoryGroupsFrame(init, groups, k, groups[k] + [x], c);
    } else {
      CategoryCountGrow(init, groups, k, x, c);
    }
  }

  /** Filing one entry adds one to its rule's category total and leaves the others alone. */
  lemma AddCategoryTotal(t: RuleTable, e: Entry, c: Category)
    requires WellFormed(t) && Covers(t.order, t.groups)
    ensures Covers(Add(t, e).order, Add(t, e).groups)
    ensures CategoryTotal(Add(t, e), c) == CategoryTotal(t, c) + (if Categorize(e.id).category == c then 1 else 0)
  {
    if e.id in t.groups {
      CategoryCountGrow(t.order, t.groups, e.id, e.item, c);
    } else {
      AddNewCategoryTotal(t, e, c);
    }
  }

  lemma AddNewCategoryTotal(t: RuleTable, e: Entry, c: Category)
    requires WellFormed(t) && Covers(t.order, t.groups) && e.id !in t.groups
    ensures Covers(t.order + [e.id], t.groups[e.id := [e.item]])
    ensures Count(CategoryGroups(t.order + [e.id], t.groups[e.id := [e.item]], c))
         == Count(CategoryGroups(t.order, t.groups, c)) + (if Categorize(e.id).category == c then 1 else 0)
  {
    var order := t.order + [e.id];
    var groups := t.groups[e.id := [e.item]];
    CategoryGroupsFrame(t.order, t.groups, e.id, [e.item], c);
    assert order[..|order| - 1] == t.order;
    CategoryGroupsStep(order, groups, c);
  }

  /** `$category_totals[$cat]` counts exactly the errors whose rule falls in that category. */
  lemma {:induction false} CategoryTotalCounts(es: seq<Entry>, c: Category)
    ensures Covers(GroupBy(es).order, GroupBy(es).groups)
    ensures CategoryTotal(GroupBy(es), c) == CountIn(es, c)
  {
    GroupByCovers(es);
    if es != [] {
      var init := es[..|es| - 1];
      CategoryTotalCounts(init, c);
      GroupByWellFormed(init);
      AddCategoryTotal(GroupBy(init), es[|es| - 1], c);
    }
  }

  /** Inserting a group adds one occurrence of its rule and leaves the others alone. */
  lemma {:induction false} IdCountInsert(g: RuleGroup, s: seq<RuleGroup>, id: string)
    ensures IdCount(InsertByCount(g, s), id) == IdCount(s, id) + (if g.id == id then 1 else 0)
  {
    if s != [] && |s[0].items| >= |g.items| {
      IdCountInsert(g, s[1..], id);
      assert ([s[0]] + InsertByCount(g, s[1..]))[1..] == InsertByCount(g, s[1..]);
    } else if s != [] {
      assert ([g] + s)[1..] == s;
    }
  }

  /** The sort lists each rule as often as before. */
  lemma {:induction false} IdCountSort(gs: seq<RuleGroup>, id: string)
    ensures IdCount(SortByCount(gs), id) == IdCount(gs, id)
  {
    if gs != [] {
      var init := gs[..|gs| - 1];
      var last := gs[|gs| - 1];
      IdCountSort(init, id);
      IdCountInsert(last, SortByCount(init), id);
      assert gs == init + [last];
      IdCountAppend(init, [last], id);
    }
  }
}
