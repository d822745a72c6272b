/**
 * The transaction view's analytics pipeline: the filters it applies to the
 * fetched collection, the per-category and per-month sums behind its charts
 * and tables, its summary figures, its pager and its category colours.
 * Amounts are integers (cents), so every sum is exact.
 */
module Transactions {
  import opened Seqs
  import opened Strings

  datatype Transaction = Transaction(
    id: string,
    company: string,
    category: string,
    item: string,
    amount: int,
    paymentType: string,
    date: string)

  const PageSize: nat := 10

  /** The year the view compares with the analytics year: the first four characters of the date. */
  function YearOf(date: string): string {
    if |date| >= 4 then date[..4] else date
  }

  /** `date.substring(0, 7)`, the `YYYY-MM` bucket of a record. */
  function MonthKey(date: string): string {
    if |date| >= 7 then date[..7] else date
  }

  function CategoryKey(t: Transaction): string { t.category }

  function MonthOf(t: Transaction): string { MonthKey(t.date) }

  function CategoryNames(ts: seq<Transaction>): (r: seq<string>)
    ensures |r| == |ts| && forall i :: 0 <= i < |ts| ==> r[i] == ts[i].category
  {
    seq(|ts|, i requires 0 <= i < |ts| => ts[i].category)
  }

  function MonthKeys(ts: seq<Transaction>): (r: seq<string>)
    ensures |r| == |ts| && forall i :: 0 <= i < |ts| ==> r[i] == MonthKey(ts[i].date)
  {
    seq(|ts|, i requires 0 <= i < |ts| => MonthKey(ts[i].date))
  }

  // ---------------------------------------------------------------------------
  // Distinct categories and the two filters

  /** `categories`: each category of the fetched collection once, in order of first appearance. */
  function Categories(ts: seq<Transaction>): (r: seq<string>)
    ensures NoDuplicates(r)
    ensures forall c :: c in r <==> exists i :: 0 <= i < |ts| && ts[i].category == c
  {
    var names := CategoryNames(ts);
    assert forall c :: c in names <==> exists i :: 0 <= i < |ts| && ts[i].category == c;
    Distinct(names)
  }

  /** Of two categories, the one whose first record comes first is listed first. */
  lemma CategoriesFirstAppearance(ts: seq<Transaction>, a: string, b: string)
    requires a in Categories(ts) && b in Categories(ts)
    ensures IndexOf(Categories(ts), a) < IndexOf(Categories(ts), b) <==>
            IndexOf(CategoryNames(ts), a) < IndexOf(CategoryNames(ts), b)
  {
    DistinctOrder(CategoryNames(ts), a, b);
  }

  /** `analyticsFilteredTransactions`: the records dated in the analytics year, in their order. */
  function AnalyticsFiltered(ts: seq<Transaction>, year: string): (r: seq<Transaction>)
    ensures IsSubseq(r, ts)
    ensures forall t :: t in r <==> t in ts && YearOf(t.date) == year
    ensures forall t :: multiset(r)[t] == if YearOf(t.date) == year then multiset(ts)[t] else 0
  {
    var inYear := (t: Transaction) => YearOf(t.date) == year;
    FilterMultiset(ts, inYear);
    Filter(ts, inYear)
  }

  predicate MatchesSearch(t: Transaction, searchTerm: string) {
    searchTerm == ""
    || Contains(Lower(t.company), Lower(searchTerm))
    || Contains(Lower(t.item), Lower(searchTerm))
  }

  predicate MatchesCategory(t: Transaction, filterCategory: string) {
    filterCategory == "all" || t.category == filterCategory
  }

  /** `tableFilteredTransactions`: search and category filter of the table, in source order. */
  function TableFiltered(ts: seq<Transaction>, searchTerm: string, filterCategory: string): (r: seq<Transaction>)
    ensures IsSubseq(r, ts)
    ensures forall t :: t in r <==> t in ts && MatchesSearch(t, searchTerm) && MatchesCategory(t, filterCategory)
    ensures forall t :: multiset(r)[t] ==
                        (if MatchesSearch(t, searchTerm) && MatchesCategory(t, filterCategory) then multiset(ts)[t] else 0)
  {
    FilterMultiset(ts, ShownIn(searchTerm, filterCategory));
    Filter(ts, ShownIn(searchTerm, filterCategory))
  }

  function ShownIn(searchTerm: string, filterCategory: string): Transaction -> bool {
    (t: Transaction) => MatchesSearch(t, searchTerm) && MatchesCategory(t, filterCategory)
  }

  /** With an empty search term and the category `'all'`, the table shows the whole collection. */
  lemma TableFilterNeutral(ts: seq<Transaction>)
    ensures TableFiltered(ts, "", "all") == ts
  {
    FilterAll(ts, ShownIn("", "all"));
  }

  // ---------------------------------------------------------------------------
  // Sums

  function TotalAmount(ts: seq<Transaction>): int {
    if ts == [] then 0 else ts[0].amount + TotalAmount(ts[1..])
  }

  lemma {:induction false} TotalAmountConcat(a: seq<Transaction>, b: seq<Transaction>)
    ensures TotalAmount(a + b) == TotalAmount(a) + TotalAmount(b)
  {
    if a == [] {
      assert a + b == b;
    } else {
      assert (a + b)[1..] == a[1..] + b;
      TotalAmountConcat(a[1..], b);
    }
  }

  /** `totalSpent`: the sum over the analytics year. */
  function TotalSpent(ts: seq<Transaction>, year: string): int {
    TotalAmount(AnalyticsFiltered(ts, year))
  }

  function KeyIs(key: Transaction -> string, k: string): Transaction -> bool {
    (t: Transaction) => key(t) == k
  }

  /** The records whose `key` is `k`. */
  function Group(ts: seq<Transaction>, key: Transaction -> string, k: string): seq<Transaction> {
    Filter(ts, KeyIs(key, k))
  }

  function GroupTotal(ts: seq<Transaction>, key: Transaction -> string, k: string): int {
    TotalAmount(Group(ts, key, k))
  }

  /** Sum of the group totals of the keys `ks`, folded from the left like `reduce`. */
  function GroupSum(ts: seq<Transaction>, key: Transaction -> string, ks: seq<string>): int {
    if ks == [] then 0 else GroupSum(ts, key, ks[..|ks| - 1]) + GroupTotal(ts, key, ks[|ks| - 1])
  }

  lemma {:induction false} GroupSumCons(t: Transaction, ts: seq<Transaction>, key: Transaction -> string, ks: seq<string>)
    requires NoDuplicates(ks)
    ensures GroupSum([t] + ts, key, ks) == GroupSum(ts, key, ks) + (if key(t) in ks then t.amount else 0)
  {
    if ks != [] {
      var init := ks[..|ks| - 1];
      GroupSumCons(t, ts, key, init);
      assert ([t] + ts)[1..] == ts;
      assert key(t) in ks <==> key(t) in init || key(t) == ks[|ks| - 1];
      assert !(key(t) in init && key(t) == ks[|ks| - 1]);
    }
  }

  /**
   * Grouping by a key and adding up the groups gives the total, provided every
   * record's key is listed exactly once.
   */
  lemma {:induction false} PartitionTotal(ts: seq<Transaction>, key: Transaction -> string, ks: seq<string>)
    requires NoDuplicates(ks)
    requires forall i :: 0 <= i < |ts| ==> key(ts[i]) in ks
    ensures GroupSum(ts, key, ks) == TotalAmount(ts)
  {
    if ts == [] {
      GroupSumEmpty(key, ks);
    } else {
      assert ts == [ts[0]] + ts[1..];
      GroupSumCons(ts[0], ts[1..], key, ks);
      PartitionTotal(ts[1..], key, ks);
    }
  }

  lemma {:induction false} GroupSumEmpty(key: Transaction -> string, ks: seq<string>)
    ensures GroupSum([], key, ks) == 0
  {
    if ks != [] {
      GroupSumEmpty(key, ks[..|ks| - 1]);
    }
  }

  /** Filtering twice is filtering once by the conjunction. */
  lemma {:induction false} FilterFilter(s: seq<Transaction>, p: Transaction -> bool, q: Transaction -> bool, r: Transaction -> bool)
    requires forall x :: r(x) == (p(x) && q(x))
    ensures Filter(Filter(s, p), q) == Filter(s, r)
  {
    if s != [] {
      FilterFilter(s[1..], p, q, r);
    }
  }

  // ---------------------------------------------------------------------------
  // Per-category totals

  datatype CategoryTotal = CategoryTotal(name: string, value: int)

  /** The value of one `categoryData` entry. */
  function CategorySum(ts: seq<Transaction>, c: string): int {
    GroupTotal(ts, CategoryKey, c)
  }

  /** `categoryData`: one entry per category, in order, with its total over `ts`. */
  function CategoryData(cats: seq<string>, ts: seq<Transaction>): (r: seq<CategoryTotal>)
    ensures |r| == |cats|
    ensures forall i :: 0 <= i < |cats| ==> r[i].name == cats[i] && r[i].value == CategorySum(ts, cats[i])
  {
    seq(|cats|, i requires 0 <= i < |cats| => CategoryTotal(cats[i], CategorySum(ts, cats[i])))
  }

  function ValueSum(data: seq<CategoryTotal>): int {
    if data == [] then 0 else ValueSum(data[..|data| - 1]) + data[|data| - 1].value
  }

  lemma {:induction false} ValueSumIsGroupSum(cats: seq<string>, ts: seq<Transaction>)
    ensures ValueSum(CategoryData(cats, ts)) == GroupSum(ts, CategoryKey, cats)
  {
    if cats != [] {
      var init := cats[..|cats| - 1];
      assert CategoryData(cats, ts)[..|cats| - 1] == CategoryData(init, ts);
      ValueSumIsGroupSum(init, ts);
    }
  }

  /** The per-category totals of the analytics year add up to `totalSpent`. */
  lemma CategoryDataSumsToTotalSpent(ts: seq<Transaction>, year: string)
    ensures ValueSum(CategoryData(Categories(ts), AnalyticsFiltered(ts, year))) == TotalSpent(ts, year)
  {
    var a := AnalyticsFiltered(ts, year);
    var cats := Categories(ts);
    ValueSumIsGroupSum(cats, a);
    forall i | 0 <= i < |a| ensures CategoryKey(a[i]) in cats {
      assert a[i] in ts;
    }
    PartitionTotal(a, CategoryKey, cats);
  }

  // ---------------------------------------------------------------------------
  // Month x category matrix (`monthlyCategoricalData` and its chart rows)

  /** Sum of the amounts of category `c` in month `m`: the filter-and-reduce of one cell. */
  function CellTotal(ts: seq<Transaction>, c: string, m: string): int {
    TotalAmount(Filter(ts, InCell(c, m)))
  }

  function InCell(c: string, m: string): Transaction -> bool {
    (t: Transaction) => t.category == c && MonthKey(t.date) == m
  }

  lemma {:induction false} CellTotalSnoc(ts: seq<Transaction>, t: Transaction, c: string, m: string)
    ensures CellTotal(ts + [t], c, m) ==
            CellTotal(ts, c, m) + (if t.category == c && MonthKey(t.date) == m then t.amount else 0)
  {
    FilterConcat(ts, [t], InCell(c, m));
    TotalAmountConcat(Filter(ts, InCell(c, m)), Filter([t], InCell(c, m)));
  }

  /** A cell is the category total of the month's records ... */
  lemma CellIsCategoryOfMonth(ts: seq<Transaction>, c: string, m: string)
    ensures CellTotal(ts, c, m) == GroupTotal(Group(ts, MonthOf, m), CategoryKey, c)
  {
    forall x ensures InCell(c, m)(x) == (KeyIs(MonthOf, m)(x) && KeyIs(CategoryKey, c)(x)) {
      assert InCell(c, m)(x) == (x.category == c && MonthKey(x.date) == m);
      assert KeyIs(MonthOf, m)(x) == (MonthOf(x) == m);
      assert KeyIs(CategoryKey, c)(x) == (CategoryKey(x) == c);
    }
    FilterFilter(ts, KeyIs(MonthOf, m), KeyIs(CategoryKey, c), InCell(c, m));
  }

  /** ... and the month total of the category's records. */
  lemma CellIsMonthOfCategory(ts: seq<Transaction>, c: string, m: string)
    ensures CellTotal(ts, c, m) == GroupTotal(Group(ts, CategoryKey, c), MonthOf, m)
  {
    forall x ensures InCell(c, m)(x) == (KeyIs(CategoryKey, c)(x) && KeyIs(MonthOf, m)(x)) {
      assert InCell(c, m)(x) == (x.category == c && MonthKey(x.date) == m);
      assert KeyIs(MonthOf, m)(x) == (MonthOf(x) == m);
      assert KeyIs(CategoryKey, c)(x) == (CategoryKey(x) == c);
    }
    FilterFilter(ts, KeyIs(CategoryKey, c), KeyIs(MonthOf, m), InCell(c, m));
  }

  /** Some record falls in month `m`. */
  predicate HasMonth(ts: seq<Transaction>, m: string) {
    exists j :: 0 <= j < |ts| && MonthKey(ts[j].date) == m
  }

  /** Some record of category `c` falls in month `m`. */
  predicate HasCell(ts: seq<Transaction>, m: string, c: string) {
    exists j :: 0 <= j < |ts| && MonthKey(ts[j].date) == m && ts[j].category == c
  }

  /** `acc` holds a bucket per month present, and in it a cell per category present that month. */
  ghost predicate IsMonthBuckets(acc: map<string, map<string, int>>, ts: seq<Transaction>) {
    && (forall m :: m in acc <==> HasMonth(ts, m))
    && (forall m, c :: m in acc ==> (c in acc[m] <==> HasCell(ts, m, c)))
    && (forall m, c :: m in acc && c in acc[m] ==> acc[m][c] == CellTotal(ts, c, m))
  }

  lemma HasMonthSnoc(ts: seq<Transaction>, t: Transaction, m: string)
    ensures HasMonth(ts + [t], m) <==> HasMonth(ts, m) || MonthKey(t.date) == m
  {
    if HasMonth(ts, m) {
      var j :| 0 <= j < |ts| && MonthKey(ts[j].date) == m;
      assert (ts + [t])[j] == ts[j];
    }
    if HasMonth(ts + [t], m) {
      var j :| 0 <= j < |ts| + 1 && MonthKey((ts + [t])[j].date) == m;
      if j < |ts| {
        assert (ts + [t])[j] == ts[j];
      }
    }
    assert (ts + [t])[|ts|] == t;
  }

  lemma HasCellSnoc(ts: seq<Transaction>, t: Transaction, m: string, c: string)
    ensures HasCell(ts + [t], m, c) <==> HasCell(ts, m, c) || (MonthKey(t.date) == m && t.category == c)
  {
    if HasCell(ts, m, c) {
      var j :| 0 <= j < |ts| && MonthKey(ts[j].date) == m && ts[j].category == c;
      assert (ts + [t])[j] == ts[j];
    }
    if HasCell(ts + [t], m, c) {
      var j :| 0 <= j < |ts| + 1 && MonthKey((ts + [t])[j].date) == m && (ts + [t])[j].category == c;
      if j < |ts| {
        assert (ts + [t])[j] == ts[j];
      }
    }
    assert (ts + [t])[|ts|] == t;
  }

  /**
   * One step of the reduce, `acc[month][category] = (acc[month][category] || 0) + amount`: the record's month bucket is created if missing and
   * its category cell grows by the amount; every other bucket and cell stays.
   */
  function AddRecord(acc: map<string, map<string, int>>, t: Transaction): (r: map<string, map<string, int>>)
    ensures MonthOf(t) in r && t.category in r[MonthOf(t)]
    ensures r[MonthOf(t)][t.category] ==
            t.amount + (if MonthOf(t) in acc && t.category in acc[MonthOf(t)] then acc[MonthOf(t)][t.category] else 0)
    ensures forall m :: m in r <==> m in acc || m == MonthOf(t)
    ensures forall m :: m in acc && m != MonthOf(t) ==> r[m] == acc[m]
    ensures forall c :: c != t.category ==>
              (c in r[MonthOf(t)] <==> MonthOf(t) in acc && c in acc[MonthOf(t)])
    ensures forall c :: c != t.category && MonthOf(t) in acc && c in acc[MonthOf(t)] ==>
              r[MonthOf(t)][c] == acc[MonthOf(t)][c]
  {
    var month := MonthKey(t.date);
    var bucket := if month in acc then acc[month] else map[];
    var previous := if t.category in bucket then bucket[t.category] else 0;
    acc[month := bucket[t.category := previous + t.amount]]
  }

  lemma BucketStepMonths(acc: map<string, map<string, int>>, ts: seq<Transaction>, t: Transaction)
    requires forall m :: m in acc <==> HasMonth(ts, m)
    ensures forall m :: m in AddRecord(acc, t) <==> HasMonth(ts + [t], m)
  {
    forall m ensures m in AddRecord(acc, t) <==> HasMonth(ts + [t], m) {
      HasMonthSnoc(ts, t, m);
    }
  }

  lemma BucketStepCells(acc: map<string, map<string, int>>, ts: seq<Transaction>, t: Transaction)
    requires forall m :: m in acc <==> HasMonth(ts, m)
    requires forall m, c :: m in acc ==> (c in acc[m] <==> HasCell(ts, m, c))
    ensures forall m, c :: m in AddRecord(acc, t) ==> (c in AddRecord(acc, t)[m] <==> HasCell(ts + [t], m, c))
  {
    var next := AddRecord(acc, t);
    forall m, c | m in next ensures c in next[m] <==> HasCell(ts + [t], m, c) {
      HasCellSnoc(ts, t, m, c);
    }
  }

  lemma BucketStepValues(acc: map<string, map<string, int>>, ts: seq<Transaction>, t: Transaction)
    requires forall m :: m in acc <==> HasMonth(ts, m)
    requires forall m, c :: m in acc ==> (c in acc[m] <==> HasCell(ts, m, c))
    requires forall m, c :: m in acc && c in acc[m] ==> acc[m][c] == CellTotal(ts, c, m)
    ensures forall m, c :: m in AddRecord(acc, t) && c in AddRecord(acc, t)[m] ==>
              AddRecord(acc, t)[m][c] == CellTotal(ts + [t], c, m)
  {
    var next := AddRecord(acc, t);
    forall m, c | m in next && c in next[m] ensures next[m][c] == CellTotal(ts + [t], c, m) {
      CellTotalSnoc(ts, t, c, m);
      if m == MonthKey(t.date) && c == t.category && !(m in acc && c in acc[m]) {
        CellZeroWhenAbsent(ts, c, m);
      }
    }
  }

  /** Adding one record's amount to its month's bucket keeps the buckets exact. */
  lemma BucketStep(acc: map<string, map<string, int>>, ts: seq<Transaction>, t: Transaction)
    requires IsMonthBuckets(acc, ts)
    ensures IsMonthBuckets(AddRecord(acc, t), ts + [t])
  {
    BucketStepMonths(acc, ts, t);
    BucketStepCells(acc, ts, t);
    BucketStepValues(acc, ts, t);
  }

  /**
   * `monthlyCategoricalData`: one bucket per month key, holding per category the
   * sum of that category's amounts in the month, built record by record.
   */
  method MonthlyCategorical(ts: seq<Transaction>) returns (acc: map<string, map<string, int>>)
    ensures IsMonthBuckets(acc, ts)
  {
    acc := map[];
    for i := 0 to |ts|
      invariant IsMonthBuckets(acc, ts[..i])
    {
      BucketStep(acc, ts[..i], ts[i]);
      acc := AddRecord(acc, ts[i]);
      assert ts[..i + 1] == ts[..i] + [ts[i]];
    }
    assert ts[..|ts|] == ts;
  }

  datatype MonthRow = MonthRow(monthKey: string, cells: map<string, int>, total: int)

  /** `categories.reduce((sum, cat) => sum + (cells[cat] || 0), 0)`. */
  function RowTotal(cells: map<string, int>, cats: seq<string>): int {
    if cats == [] then 0
    else RowTotal(cells, cats[..|cats| - 1]) + (if cats[|cats| - 1] in cells then cells[cats[|cats| - 1]] else 0)
  }

  /** The months present in the analytics set, distinct and ascending: `months`. */
  function SortedMonths(ts: seq<Transaction>): (r: seq<string>)
    ensures Ascending(r)
    ensures forall m :: m in r <==> HasMonth(ts, m)
  {
    var keys := MonthKeys(ts);
    assert forall m :: m in keys <==> HasMonth(ts, m);
    SortDistinct(keys)
  }

  /**
   * `monthlyCategoricalChartData`: the buckets as rows sorted by month key, each
   * with its cells and its total over `cats`.
   */
  method MonthlyChartData(ts: seq<Transaction>, cats: seq<string>) returns (rows: seq<MonthRow>)
    ensures |rows| == |SortedMonths(ts)|
    ensures forall i, j :: 0 <= i < j < |rows| ==> StrLt(rows[i].monthKey, rows[j].monthKey)
    ensures forall i :: 0 <= i < |rows| ==> rows[i].monthKey == SortedMonths(ts)[i]
    ensures forall i :: 0 <= i < |rows| ==> IsMonthRow(rows[i], ts, cats)
  {
    var acc := MonthlyCategorical(ts);
    var keys := SortedMonths(ts);
    rows := [];
    for i := 0 to |keys|
      invariant |rows| == i
      invariant forall k :: 0 <= k < i ==> rows[k].monthKey == keys[k] && IsMonthRow(rows[k], ts, cats)
    {
      assert keys[i] in keys;
      BucketRow(acc, ts, keys[i], cats);
      rows := rows + [MonthRow(keys[i], acc[keys[i]], RowTotal(acc[keys[i]], cats))];
    }
  }

  /**
   * A chart row of month `monthKey`: a cell per category present that month,
   * holding its sum, and a total over `cats`.
   */
  ghost predicate IsMonthRow(row: MonthRow, ts: seq<Transaction>, cats: seq<string>) {
    && (forall c :: c in row.cells <==> HasCell(ts, row.monthKey, c))
    && (forall c :: c in row.cells ==> row.cells[c] == CellTotal(ts, c, row.monthKey))
    && row.total == RowTotal(row.cells, cats)
  }

  lemma BucketRow(acc: map<string, map<string, int>>, ts: seq<Transaction>, m: string, cats: seq<string>)
    requires IsMonthBuckets(acc, ts) && HasMonth(ts, m)
    ensures m in acc && IsMonthRow(MonthRow(m, acc[m], RowTotal(acc[m], cats)), ts, cats)
  {
  }

  /** A cell missing from a month's bucket stands for a zero sum. */
  lemma {:induction false} CellZeroWhenAbsent(ts: seq<Transaction>, c: string, m: string)
    requires !HasCell(ts, m, c)
    ensures CellTotal(ts, c, m) == 0
  {
    if ts != [] {
      assert !HasCell(ts[1..], m, c);
      CellZeroWhenAbsent(ts[1..], c, m);
    }
  }

  lemma {:induction false} RowTotalIsGroupSum(cells: map<string, int>, cats: seq<string>, ts: seq<Transaction>, m: string)
    requires forall c :: c in cells ==> cells[c] == CellTotal(ts, c, m)
    requires forall c :: c in cells <==> HasCell(ts, m, c)
    ensures RowTotal(cells, cats) == GroupSum(Group(ts, MonthOf, m), CategoryKey, cats)
  {
    if cats != [] {
      var c := cats[|cats| - 1];
      RowTotalIsGroupSum(cells, cats[..|cats| - 1], ts, m);
      CellIsCategoryOfMonth(ts, c, m);
      if c !in cells {
        CellZeroWhenAbsent(ts, c, m);
      }
    }
  }

  /**
   * Each chart row's total is the month's whole spending, so long as `cats`
   * lists every category of the analytics set once (as `categories` does).
   */
  lemma MonthRowTotalIsMonthSpending(cells: map<string, int>, cats: seq<string>, ts: seq<Transaction>, m: string)
    requires NoDuplicates(cats) && forall j :: 0 <= j < |ts| ==> ts[j].category in cats
    requires forall c :: c in cells ==> cells[c] == CellTotal(ts, c, m)
    requires forall c :: c in cells <==> HasCell(ts, m, c)
    ensures RowTotal(cells, cats) == TotalAmount(Group(ts, MonthOf, m))
  {
    RowTotalIsGroupSum(cells, cats, ts, m);
    var g := Group(ts, MonthOf, m);
    forall j | 0 <= j < |g| ensures CategoryKey(g[j]) in cats {
      assert g[j] in ts;
    }
    PartitionTotal(g, CategoryKey, cats);
  }

  /** The month totals over all months present add up to the analytics total. */
  lemma MonthTotalsSumToTotal(ts: seq<Transaction>)
    ensures GroupSum(ts, MonthOf, SortedMonths(ts)) == TotalAmount(ts)
  {
    var ms := SortedMonths(ts);
    forall i, j | 0 <= i < j < |ms| ensures ms[i] != ms[j] {
      AscendingNoRepeats(ms, i, j);
    }
    PartitionTotal(ts, MonthOf, ms);
  }

  // ---------------------------------------------------------------------------
  // Category x month breakdown (`categoryBreakdownData`)

  datatype BreakdownRow = BreakdownRow(category: string, cells: map<string, int>, total: int)

  function CellSum(ts: seq<Transaction>, c: string, months: seq<string>): int {
    if months == [] then 0
    else CellSum(ts, c, months[..|months| - 1]) + CellTotal(ts, c, months[|months| - 1])
  }

  ghost predicate IsBreakdownRow(row: BreakdownRow, ts: seq<Transaction>, c: string, months: seq<string>) {
    && row.category == c
    && (forall m :: m in row.cells <==> m in months)
    && (forall m :: m in row.cells ==> row.cells[m] == CellTotal(ts, c, m))
    && row.total == CellSum(ts, c, months)
  }

  /** One breakdown row: a cell per month and the running total of the cells. */
  method Breakdown(ts: seq<Transaction>, c: string, months: seq<string>) returns (row: BreakdownRow)
    ensures IsBreakdownRow(row, ts, c, months)
  {
    var cells: map<string, int> := map[];
    var total := 0;
    for k := 0 to |months|
      invariant forall m :: m in cells <==> m in months[..k]
      invariant forall m :: m in cells ==> cells[m] == CellTotal(ts, c, m)
      invariant total == CellSum(ts, c, months[..k])
    {
      var amount := CellTotal(ts, c, months[k]);
      cells := cells[months[k] := amount];
      total := total + amount;
      assert months[..k + 1][..k] == months[..k];
    }
    assert months[..|months|] == months;
    row := BreakdownRow(c, cells, total);
  }

  /** `categoryBreakdownData`: one row per category, in the order of `cats`. */
  method CategoryBreakdown(ts: seq<Transaction>, cats: seq<string>, months: seq<string>) returns (rows: seq<BreakdownRow>)
    ensures |rows| == |cats|
    ensures forall i :: 0 <= i < |cats| ==> IsBreakdownRow(rows[i], ts, cats[i], months)
  {
    rows := [];
    for i := 0 to |cats|
      invariant |rows| == i
      invariant forall k :: 0 <= k < i ==> IsBreakdownRow(rows[k], ts, cats[k], months)
    {
      var row := Breakdown(ts, cats[i], months);
      rows := rows + [row];
    }
  }

  /** A breakdown row's total is the sum of its cells. */
  lemma {:induction false} BreakdownTotalIsSumOfCells(row: BreakdownRow, ts: seq<Transaction>, c: string, months: seq<string>)
    requires IsBreakdownRow(row, ts, c, months)
    ensures row.total == RowTotal(row.cells, months)
  {
    CellSumIsRowTotal(row.cells, ts, c, months);
  }

  lemma {:induction false} CellSumIsRowTotal(cells: map<string, int>, ts: seq<Transaction>, c: string, months: seq<string>)
    requires forall m :: m in months ==> m in cells && cells[m] == CellTotal(ts, c, m)
    ensures CellSum(ts, c, months) == RowTotal(cells, months)
  {
    if months != [] {
      CellSumIsRowTotal(cells, ts, c, months[..|months| - 1]);
    }
  }

  lemma {:induction false} CellSumIsGroupSum(ts: seq<Transaction>, c: string, months: seq<string>)
    ensures CellSum(ts, c, months) == GroupSum(Group(ts, CategoryKey, c), MonthOf, months)
  {
    if months != [] {
      CellSumIsGroupSum(ts, c, months[..|months| - 1]);
      CellIsMonthOfCategory(ts, c, months[|months| - 1]);
    }
  }

  /**
   * With `months` the sorted months of the analytics set, a breakdown row's
   * total equals that category's `categoryData` value.
   */
  lemma BreakdownTotalIsCategoryTotal(row: BreakdownRow, ts: seq<Transaction>, c: string)
    requires IsBreakdownRow(row, ts, c, SortedMonths(ts))
    ensures row.total == CategorySum(ts, c)
  {
    var ms := SortedMonths(ts);
    CellSumIsGroupSum(ts, c, ms);
    forall i, j | 0 <= i < j < |ms| ensures ms[i] != ms[j] {
      AscendingNoRepeats(ms, i, j);
    }
    var g := Group(ts, CategoryKey, c);
    forall j | 0 <= j < |g| ensures MonthOf(g[j]) in ms {
      assert g[j] in ts;
    }
    PartitionTotal(g, MonthOf, ms);
  }

  // ---------------------------------------------------------------------------
  // Summary figures

  /** `avgTransactionAmount`: zero for an empty set, otherwise the exact mean. */
  function AverageAmount(ts: seq<Transaction>): (r: real)
    ensures |ts| == 0 ==> r == 0.0
    ensures |ts| > 0 ==> r * (|ts| as real) == TotalAmount(ts) as real
  {
    if |ts| > 0 then (TotalAmount(ts) as real) / (|ts| as real) else 0.0
  }

  lemma {:induction false} TotalAmountBounds(ts: seq<Transaction>, lo: int, hi: int)
    requires forall i :: 0 <= i < |ts| ==> lo <= ts[i].amount <= hi
    ensures |ts| * lo <= TotalAmount(ts) <= |ts| * hi
  {
    if ts != [] {
      TotalAmountBounds(ts[1..], lo, hi);
    }
  }

  /** The mean lies between the smallest and the largest amount. */
  lemma AverageBetweenBounds(ts: seq<Transaction>, lo: int, hi: int)
    requires |ts| > 0
    requires forall i :: 0 <= i < |ts| ==> lo <= ts[i].amount <= hi
    ensures lo as real <= AverageAmount(ts) <= hi as real
  {
    TotalAmountBounds(ts, lo, hi);
    MeanBound(TotalAmount(ts) as real, |ts| as real, lo as real, hi as real);
  }

  lemma MeanBound(total: real, n: real, lo: real, hi: real)
    requires n > 0.0 && lo * n <= total <= hi * n
    ensures lo <= total / n <= hi
  {
    assert total / n * n == total;
  }

  const NoCategory := CategoryTotal("N/A", 0)

  /** `reduce((max, cat) => cat.value > max.value ? cat : max, best)`. */
  function TopFrom(data: seq<CategoryTotal>, best: CategoryTotal): CategoryTotal {
    if data == [] then best
    else TopFrom(data[1..], if data[0].value > best.value then data[0] else best)
  }

  /** `topCategory`: `{N/A, 0}` unless some total is positive, else the earliest category with the largest total. */
  function TopCategory(data: seq<CategoryTotal>): (r: CategoryTotal)
    ensures (forall j :: 0 <= j < |data| ==> data[j].value <= 0) ==> r == NoCategory
    ensures (exists j :: 0 <= j < |data| && data[j].value > 0) ==>
            exists k :: IsEarliestMax(data, k) && r == data[k]
  {
    TopFromSpec(data, NoCategory);
    TopFrom(data, NoCategory)
  }

  /** Index `k` holds the largest value, and every earlier entry is strictly smaller. */
  ghost predicate IsEarliestMax(data: seq<CategoryTotal>, k: int) {
    && 0 <= k < |data|
    && (forall j :: 0 <= j < |data| ==> data[j].value <= data[k].value)
    && (forall j :: 0 <= j < k ==> data[j].value < data[k].value)
  }

  /** Where `TopFrom` finds its result: an index into `data`, or -1 when `best` is never beaten. */
  function TopPos(data: seq<CategoryTotal>, best: CategoryTotal): (k: int)
    ensures -1 <= k < |data|
  {
    if data == [] then -1
    else
      var rest := TopPos(data[1..], if data[0].value > best.value then data[0] else best);
      if rest >= 0 then rest + 1 else if data[0].value > best.value then 0 else -1
  }

  lemma {:induction false} TopPosResult(data: seq<CategoryTotal>, best: CategoryTotal)
    ensures TopFrom(data, best) == if TopPos(data, best) < 0 then best else data[TopPos(data, best)]
  {
    if data != [] {
      TopPosResult(data[1..], if data[0].value > best.value then data[0] else best);
    }
  }

  lemma {:induction false} TopPosNone(data: seq<CategoryTotal>, best: CategoryTotal)
    requires TopPos(data, best) < 0
    ensures forall j :: 0 <= j < |data| ==> data[j].value <= best.value
  {
    if data != [] {
      TopPosNone(data[1..], best);
      forall j | 0 < j < |data| ensures data[j].value <= best.value {
        assert data[j] == data[1..][j - 1];
      }
    }
  }

  lemma {:induction false} TopPosSome(data: seq<CategoryTotal>, best: CategoryTotal)
    requires TopPos(data, best) >= 0
    ensures IsEarliestMax(data, TopPos(data, best)) && data[TopPos(data, best)].value > best.value
  {
    var tail := data[1..];
    var next := if data[0].value > best.value then data[0] else best;
    var k := TopPos(data, best);
    if TopPos(tail, next) >= 0 {
      TopPosSome(tail, next);
      forall j | 0 < j < |data| ensures data[j].value <= data[k].value {
        assert data[j] == tail[j - 1];
      }
      forall j | 0 < j < k ensures data[j].value < data[k].value {
        assert data[j] == tail[j - 1];
      }
    } else {
      TopPosNone(tail, next);
      forall j | 0 < j < |data| ensures data[j].value <= data[k].value {
        assert data[j] == tail[j - 1];
      }
    }
  }

  /** `TopFrom` keeps `best` unless beaten, and otherwise lands on the earliest largest entry. */
  lemma TopFromSpec(data: seq<CategoryTotal>, best: CategoryTotal)
    ensures (forall j :: 0 <= j < |data| ==> data[j].value <= best.value) ==> TopFrom(data, best) == best
    ensures (exists j :: 0 <= j < |data| && data[j].value > best.value) ==>
            exists k :: IsEarliestMax(data, k) && data[k].value > best.value && TopFrom(data, best) == data[k]
  {
    TopPosResult(data, best);
    var k := TopPos(data, best);
    if k < 0 {
      TopPosNone(data, best);
    } else {
      TopPosSome(data, best);
    }
  }

  // ---------------------------------------------------------------------------
  // Pagination

  /** `Math.ceil(n / itemsPerPage)`. */
  function TotalPages(n: nat): (r: nat)
    ensures n == 0 ==> r == 0
    ensures n > 0 ==> (r - 1) * PageSize < n <= r * PageSize
  {
    (n + PageSize - 1) / PageSize
  }

  /** `currentTransactions`: `slice((page - 1) * 10, page * 10)`. */
  function PageOf(rows: seq<Transaction>, page: int): seq<Transaction> {
    JsSlice(rows, (page - 1) * PageSize, page * PageSize)
  }

  /** Page `p` shows records `[(p-1)*10, min(p*10, n))`: at most ten, none past the last page. */
  lemma PageContents(rows: seq<Transaction>, page: nat)
    requires page >= 1
    ensures var lo, n := (page - 1) * PageSize, |rows|;
            PageOf(rows, page) == if lo < n then rows[lo..if page * PageSize <= n then page * PageSize else n] else []
    ensures |PageOf(rows, page)| <= PageSize
    ensures page > TotalPages(|rows|) ==> PageOf(rows, page) == []
  {
  }

  /** Pages 1..k laid end to end. */
  function PagesUpTo(rows: seq<Transaction>, k: nat): seq<Transaction> {
    if k == 0 then [] else PagesUpTo(rows, k - 1) + PageOf(rows, k)
  }

  /** Pages 1..k are exactly the first `min(10k, n)` records, so every record is on one page. */
  lemma {:induction false} PagesCoverPrefix(rows: seq<Transaction>, k: nat)
    ensures PagesUpTo(rows, k) == rows[..if k * PageSize <= |rows| then k * PageSize else |rows|]
  {
    if k > 0 {
      PagesCoverPrefix(rows, k - 1);
      PageContents(rows, k);
      var lo := (k - 1) * PageSize;
      if lo < |rows| {
        var hi := if k * PageSize <= |rows| then k * PageSize else |rows|;
        assert rows[..lo] + rows[lo..hi] == rows[..hi];
      }
    }
  }

  lemma AllPagesCoverAll(rows: seq<Transaction>)
    ensures PagesUpTo(rows, TotalPages(|rows|)) == rows
  {
    PagesCoverPrefix(rows, TotalPages(|rows|));
  }

  predicate PreviousDisabled(page: int) { page == 1 }

  predicate NextDisabled(page: int, totalPages: nat) { page == totalPages || totalPages == 0 }

  /** The pager's page index, changed only by the two buttons. */
  class Pager {
    var currentPage: int

    ghost predicate Valid() reads this { currentPage >= 1 }

    constructor ()
      ensures Valid() && currentPage == 1
    {
      currentPage := 1;
    }

    /** The Previous button: unavailable on page 1, otherwise one page back. */
    method Previous()
      requires Valid()
      modifies this
      ensures Valid()
      ensures currentPage == if PreviousDisabled(old(currentPage)) then old(currentPage) else old(currentPage) - 1
    {
      if !PreviousDisabled(currentPage) {
        currentPage := currentPage - 1;
      }
    }

    /** The Next button: unavailable on the last page or with no pages, otherwise one page on. */
    method Next(totalPages: nat)
      requires Valid()
      modifies this
      ensures Valid()
      ensures currentPage == if NextDisabled(old(currentPage), totalPages) then old(currentPage) else old(currentPage) + 1
    {
      if !NextDisabled(currentPage, totalPages) {
        currentPage := currentPage + 1;
      }
    }
  }

  /**
   * The page index is not reset when the filters shrink the table: left on page 3
   * when only one page remains, the view shows nothing and still offers Next.
   */
  lemma StalePageAfterFilter(rows: seq<Transaction>)
    requires 0 < |rows| <= PageSize
    ensures PageOf(rows, 3) == [] && !NextDisabled(3, TotalPages(|rows|))
  {
  }

  /** The table over 25 records: pages 1..3, the last holding records 21..25, Next off on page 3. */
  lemma TwentyFiveRecords(rows: seq<Transaction>)
    requires |rows| == 25
    ensures TotalPages(|rows|) == 3
    ensures PageOf(rows, 1) == rows[0..10] && PageOf(rows, 3) == rows[20..25]
    ensures NextDisabled(3, TotalPages(|rows|)) && !NextDisabled(2, TotalPages(|rows|))
  {
  }

  // ---------------------------------------------------------------------------
  // Category colours of the table rows

  const Palette: seq<string> := [
    "#5DADE2", "#AF7AC5", "#EC7063", "#F8B88B", "#52BE80",
    "#E74C3C", "#9B59B6", "#17A589", "#F39C12", "#76D7C4",
    "#3498DB", "#E67E22", "#16A085", "#8E44AD", "#C0392B"]

  /** `categoryColorMap` with `getCategoryColor`: colours handed out in order of first request. */
  class CategoryColors {
    var byCategory: map<string, string>
    ghost var seen: seq<string>

    ghost predicate Valid() reads this {
      && NoDuplicates(seen)
      && (forall c :: c in byCategory <==> c in seen)
      && (forall k :: 0 <= k < |seen| ==> byCategory[seen[k]] == Palette[k % |Palette|])
    }

    constructor ()
      ensures Valid() && byCategory == map[] && seen == []
    {
      byCategory := map[];
      seen := [];
    }

    /** A known category keeps its colour; the k-th new one gets `Palette[k mod 15]`. */
    method ColorOf(category: string) returns (color: string)
      requires Valid()
      modifies this
      ensures Valid()
      ensures color == RankColor(old(seen), category)
      ensures category in old(byCategory) ==> color == old(byCategory)[category] && byCategory == old(byCategory) && seen == old(seen)
      ensures category !in old(byCategory) ==>
                && color == Palette[|old(seen)| % |Palette|]
                && byCategory == old(byCategory)[category := color]
                && seen == old(seen) + [category]
    {
      if category !in byCategory {
        NoDuplicatesCard(seen);
        assert byCategory.Keys == set c | c in seen;
        byCategory := byCategory[category := Palette[|byCategory| % |Palette|]];
        seen := seen + [category];
      } else {
        ghost var k := IndexOf(seen, category);
        assert byCategory[seen[k]] == Palette[k % |Palette|];
      }
      color := byCategory[category];
    }
  }

  /** The colour of a category given the categories already coloured: its rank, or the next one. */
  function RankColor(seen: seq<string>, c: string): string {
    Palette[(if c in seen then IndexOf(seen, c) else |seen|) % |Palette|]
  }

  /** The colour the k-th row of one render receives: its category's rank among those seen. */
  function RowColor(categories: seq<string>, k: nat): string
    requires k < |categories|
  {
    Palette[IndexOf(Distinct(categories), categories[k]) % |Palette|]
  }

  /** Appending a row leaves the colours of the earlier rows alone. */
  lemma RowColorStable(cs: seq<string>, x: string, k: nat)
    requires k < |cs|
    ensures RowColor(cs + [x], k) == RowColor(cs, k)
  {
    DistinctSnoc(cs, x);
    assert (cs + [x])[k] == cs[k];
    if x !in Distinct(cs) {
      IndexOfSnoc(Distinct(cs), x, cs[k]);
    }
  }

  /** A new row's colour is its category's rank among the categories seen so far, or the next one. */
  lemma RowColorLast(cs: seq<string>, x: string)
    ensures RowColor(cs + [x], |cs|) == RankColor(Distinct(cs), x)
  {
    DistinctSnoc(cs, x);
    assert (cs + [x])[|cs|] == x;
    if x in Distinct(cs) {
      IndexOfSnoc(Distinct(cs), x, x);
    } else {
      var d := Distinct(cs) + [x];
      assert d[|Distinct(cs)|] == x;
      assert IndexOf(d, x) == |Distinct(cs)|;
    }
  }

  /** Colouring one more row keeps the earlier rows' colours and gives the new row its rank's. */
  lemma RowColorsSnoc(cs: seq<string>, x: string, colors: seq<string>)
    requires |colors| == |cs|
    requires forall k :: 0 <= k < |cs| ==> colors[k] == RowColor(cs, k)
    ensures forall k :: 0 <= k <= |cs| ==> (colors + [RankColor(Distinct(cs), x)])[k] == RowColor(cs + [x], k)
  {
    RowColorLast(cs, x);
    forall k | 0 <= k < |cs| ensures colors[k] == RowColor(cs + [x], k) {
      RowColorStable(cs, x, k);
    }
  }

  /**
   * One render of the table: a fresh colour map, then two `getCategoryColor`
   * calls per row (background and text colour).
   */
  method RenderRowColors(categories: seq<string>) returns (colors: seq<string>)
    ensures |colors| == |categories|
    ensures forall k :: 0 <= k < |categories| ==> colors[k] == RowColor(categories, k)
  {
    var colorMap := new CategoryColors();
    colors := [];
    for i := 0 to |categories|
      invariant colorMap.Valid() && colorMap.seen == Distinct(categories[..i])
      invariant |colors| == i
      invariant forall k :: 0 <= k < i ==> colors[k] == RowColor(categories[..i], k)
    {
      var c := categories[i];
      ghost var prefix := categories[..i];
      assert categories[..i + 1] == prefix + [c];
      DistinctSnoc(prefix, c);
      var background := colorMap.ColorOf(c);
      var text := colorMap.ColorOf(c);
      RowColorsSnoc(prefix, c, colors);
      colors := colors + [background];
    }
    assert categories[..|categories|] == categories;
  }

  /** Rows of categories a, b, a (say Shopping, Groceries, Shopping): rows 1 and 3 share the first colour, row 2 gets the second. */
  lemma RepeatedCategoryColors(a: string, b: string)
    requires a != b
    ensures var cs := [a, b, a];
            RowColor(cs, 0) == RowColor(cs, 2) == Palette[0] && RowColor(cs, 1) == Palette[1]
  {
    var cs := [a, b, a];
    assert cs[..2][..1] == [a];
    assert cs[..2] == [a, b];
    assert cs[..2][..1][..0] == [];
    assert Distinct([a]) == [a];
    assert Distinct(cs[..2]) == [a, b];
    assert cs[..|cs| - 1] == cs[..2];
    assert Distinct(cs) == [a, b];
  }

  // ---------------------------------------------------------------------------
  // The transaction form's submission

  datatype TransactionForm = TransactionForm(
    company: string, category: string, item: string,
    amount: string, paymentType: string, date: string)

  datatype Verb = Post | Put(id: string)

  datatype SaveRequest = SaveRequest(verb: Verb, form: TransactionForm)

  predicate FieldsFilled(f: TransactionForm) {
    f.company != "" && f.category != "" && f.item != "" && f.amount != "" && f.paymentType != "" && f.date != ""
  }

  /**
   * `handleSubmit` up to the request: nothing is sent when a field is empty;
   * otherwise a PUT to the record being edited, or a POST.
   */
  function SubmitRequest(form: TransactionForm, editingId: Option<string>): (r: Option<SaveRequest>)
    ensures r.None? <==> !FieldsFilled(form)
    ensures r.Some? ==> r.value.form == form
    ensures r.Some? ==> (r.value.verb.Put? <==> editingId.Some? && editingId.value != "")
    ensures r.Some? && r.value.verb.Put? ==> r.value.verb.id == editingId.value
  {
    if !FieldsFilled(form) then None
    else if editingId.Some? && editingId.value != "" then Some(SaveRequest(Put(editingId.value), form))
    else Some(SaveRequest(Post, form))
  }

  /** Every character of a contained string occurs in the haystack. */
  lemma {:induction false} ContainsChar(haystack: string, needle: string, c: char)
    requires Contains(haystack, needle) && c in needle
    ensures c in haystack
  {
    if StartsWith(haystack, needle) {
      assert c in haystack[..|needle|];
    } else {
      ContainsChar(haystack[1..], needle, c);
    }
  }

  lemma AmazonMatches(amazon: Transaction)
    requires amazon.company == "Amazon"
    ensures MatchesSearch(amazon, "amazon")
  {
    var company := Lower("Amazon");
    var term := Lower("amazon");
    assert company == term by {
      assert |company| == 6 && |term| == 6;
      assert company[0] == 'a' == term[0];
      assert company[1] == 'm' == term[1];
      assert company[2] == 'a' == term[2];
      assert company[3] == 'z' == term[3];
      assert company[4] == 'o' == term[4];
      assert company[5] == 'n' == term[5];
    }
    ContainsSelf(term);
  }

  /** A letter of the search term that the record lacks in either case filters the record out. */
  lemma MissingLetterExcludes(t: Transaction, searchTerm: string, c: char)
    requires 'a' <= c <= 'z' && c in searchTerm
    requires c !in t.company && (c as int - 32) as char !in t.company
    requires c !in t.item && (c as int - 32) as char !in t.item
    ensures !MatchesSearch(t, searchTerm)
  {
    var needle := Lower(searchTerm);
    var k :| 0 <= k < |searchTerm| && searchTerm[k] == c;
    assert needle[k] == c;
    var company := Lower(t.company);
    var item := Lower(t.item);
    assert c !in company by {
      forall i | 0 <= i < |company| ensures company[i] != c {
        assert t.company[i] != c && t.company[i] != (c as int - 32) as char;
      }
    }
    assert c !in item by {
      forall i | 0 <= i < |item| ensures item[i] != c {
        assert t.item[i] != c && t.item[i] != (c as int - 32) as char;
      }
    }
    if Contains(company, needle) {
      ContainsChar(company, needle, c);
    }
    if Contains(item, needle) {
      ContainsChar(item, needle, c);
    }
  }

  lemma WholeFoodsDoesNotMatch(wholeFoods: Transaction)
    requires wholeFoods.company == "Whole Foods" && wholeFoods.item == ""
    ensures !MatchesSearch(wholeFoods, "amazon")
  {
    assert "amazon"[1] == 'm';
    MissingLetterExcludes(wholeFoods, "amazon", 'm');
  }

  /** Searching "amazon" keeps the Amazon record and drops the Whole Foods one. */
  lemma SearchExample(amazon: Transaction, wholeFoods: Transaction)
    requires amazon.company == "Amazon"
    requires wholeFoods.company == "Whole Foods" && wholeFoods.item == ""
    ensures TableFiltered([amazon, wholeFoods], "amazon", "all") == [amazon]
  {
    AmazonMatches(amazon);
    WholeFoodsDoesNotMatch(wholeFoods);
    var shown := ShownIn("amazon", "all");
    assert shown(amazon) && !shown(wholeFoods);
    assert [amazon, wholeFoods][1..] == [wholeFoods];
    assert [wholeFoods][1..] == [];
    assert Filter([wholeFoods], shown) == [];
  }

  /** Choosing category Groceries keeps the Groceries record only. */
  lemma CategoryExample(amazon: Transaction, wholeFoods: Transaction)
    requires amazon.category == "Shopping" && wholeFoods.category == "Groceries"
    ensures TableFiltered([amazon, wholeFoods], "", "Groceries") == [wholeFoods]
  {
    var shown := ShownIn("", "Groceries");
    assert !shown(amazon) && shown(wholeFoods);
    assert [amazon, wholeFoods][1..] == [wholeFoods];
    assert [wholeFoods][1..] == [];
    assert Filter([wholeFoods], shown) == [wholeFoods];
  }
}
