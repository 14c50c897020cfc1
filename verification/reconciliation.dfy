/** Reconciliation of daily-check results (utils.py:348-356): keep the rows of
    one date, sort them by timestamp, keep the last row per key, and pick the
    checker name printed on the report. */
module Reconciliation {
  import opened Tables
  import opened Text

  /** The date column, up to its first whitespace, is `dateStr` (utils.py:350-351). */
  predicate OnDate(x: ResultRow, dateStr: string) {
    FirstField(x.date) == Some(dateStr)
  }

  /** Boolean-mask selection of the rows on `dateStr`, in their order. */
  function FilterByDate(rows: seq<ResultRow>, dateStr: string): (r: seq<ResultRow>)
    ensures forall x :: x in r <==> x in rows && OnDate(x, dateStr)
    ensures forall x :: multiset(r)[x] == if OnDate(x, dateStr) then multiset(rows)[x] else 0
  {
    if rows == [] then []
    else
      assert rows == [rows[0]] + rows[1..];
      (if OnDate(rows[0], dateStr) then [rows[0]] else []) + FilterByDate(rows[1..], dateStr)
  }

  lemma {:induction false} FilterKeepsDatedRows(rows: seq<ResultRow>, dateStr: string)
    requires forall x :: x in rows ==> OnDate(x, dateStr)
    ensures FilterByDate(rows, dateStr) == rows
  {
    if rows != [] {
      FilterKeepsDatedRows(rows[1..], dateStr);
    }
  }

  predicate SortedByTimestamp(s: seq<ResultRow>) {
    forall i, j :: 0 <= i < j < |s| ==> TsLe(s[i].timestamp, s[j].timestamp)
  }

  /** The rows whose timestamp could not be parsed (NaT), in their order. */
  function NaTRows(s: seq<ResultRow>): seq<ResultRow> {
    if s == [] then []
    else (if s[0].timestamp.None? then [s[0]] else []) + NaTRows(s[1..])
  }

  /** The NaT rows are the rows of `s` whose timestamp is NaT. */
  lemma {:induction false} NaTRowsMembers(s: seq<ResultRow>)
    ensures forall x :: x in NaTRows(s) <==> x in s && x.timestamp.None?
  {
    if s != [] {
      NaTRowsMembers(s[1..]);
      NaTRowsCons(s[0], s[1..]);
      assert s == [s[0]] + s[1..];
    }
  }

  /** `order` is one possible outcome of sort_values('timestamp') on `rows`
      (utils.py:353): a rearrangement of `rows`, ascending, NaT last. pandas
      sorts only the parsed times, with a sort that is not stable, and then
      appends the NaT rows in their input order. So rows with equal parsed
      timestamps may come in any order, and this relation does not fix one,
      while the NaT rows keep their order. */
  predicate IsTimestampSorting(order: seq<ResultRow>, rows: seq<ResultRow>) {
    multiset(order) == multiset(rows) && SortedByTimestamp(order) && NaTRows(order) == NaTRows(rows)
  }

  lemma SortedCons(a: ResultRow, t: seq<ResultRow>)
    requires SortedByTimestamp(t)
    requires forall y :: y in t ==> TsLe(a.timestamp, y.timestamp)
    ensures SortedByTimestamp([a] + t)
  {
    forall i, j | 0 <= i < j < |[a] + t|
      ensures TsLe(([a] + t)[i].timestamp, ([a] + t)[j].timestamp)
    {
      if i > 0 {
        assert ([a] + t)[i] == t[i - 1] && ([a] + t)[j] == t[j - 1];
      } else {
        assert ([a] + t)[j] == t[j - 1];
      }
    }
  }

  lemma SortedHeadLeast(s: seq<ResultRow>)
    requires SortedByTimestamp(s) && s != []
    ensures forall y :: y in s ==> TsLe(s[0].timestamp, y.timestamp)
  {
    forall y | y in s ensures TsLe(s[0].timestamp, y.timestamp) {
      var j :| 0 <= j < |s| && s[j] == y;
      if j > 0 {
        assert TsLe(s[0].timestamp, s[j].timestamp);
      }
    }
  }

  /** Insertion of one row into a sorted sequence. */
  function Insert(x: ResultRow, s: seq<ResultRow>): (r: seq<ResultRow>)
    requires SortedByTimestamp(s)
    ensures multiset(r) == multiset(s) + multiset{x}
    ensures SortedByTimestamp(r)
  {
    if s == [] then [x]
    else if TsLe(x.timestamp, s[0].timestamp) then
      SortedHeadLeast(s);
      SortedCons(x, s);
      [x] + s
    else
      var t := Insert(x, s[1..]);
      assert s == [s[0]] + s[1..];
      SortedHeadLeast(s);
      forall y | y in t ensures TsLe(s[0].timestamp, y.timestamp) {
        assert y in multiset(t);
        assert y != x ==> y in multiset(s[1..]);
      }
      SortedCons(s[0], t);
      [s[0]] + t
  }

  lemma NaTRowsCons(x: ResultRow, s: seq<ResultRow>)
    ensures NaTRows([x] + s) == (if x.timestamp.None? then [x] else []) + NaTRows(s)
  {
    assert ([x] + s)[1..] == s;
  }

  /** A NaT row is inserted in front of the NaT rows already there, so the NaT
      rows keep their order. */
  lemma {:induction false} InsertNaTRows(x: ResultRow, s: seq<ResultRow>)
    requires SortedByTimestamp(s)
    ensures NaTRows(Insert(x, s)) == NaTRows([x] + s)
  {
    if s != [] && !TsLe(x.timestamp, s[0].timestamp) {
      SortedTail(s);
      InsertNaTRows(x, s[1..]);
      InsertStep(x, s);
      NaTRowsPastParsed(x, s, Insert(x, s[1..]));
    }
  }

  lemma SortedTail(s: seq<ResultRow>)
    requires SortedByTimestamp(s) && s != []
    ensures SortedByTimestamp(s[1..])
  {
    forall i, j | 0 <= i < j < |s[1..]| ensures TsLe(s[1..][i].timestamp, s[1..][j].timestamp) {
      assert s[1..][i] == s[i + 1] && s[1..][j] == s[j + 1];
    }
  }

  lemma InsertStep(x: ResultRow, s: seq<ResultRow>)
    requires SortedByTimestamp(s) && s != [] && !TsLe(x.timestamp, s[0].timestamp)
    requires SortedByTimestamp(s[1..])
    ensures Insert(x, s) == [s[0]] + Insert(x, s[1..])
  {
  }

  /** A parsed row in front changes no NaT rows. */
  lemma NaTRowsPastParsed(x: ResultRow, s: seq<ResultRow>, t: seq<ResultRow>)
    requires s != [] && s[0].timestamp.Some? && NaTRows(t) == NaTRows([x] + s[1..])
    ensures NaTRows([s[0]] + t) == NaTRows([x] + s)
  {
    var xs := if x.timestamp.None? then [x] else [];
    calc {
      NaTRows([s[0]] + t);
      { ParsedHeadSkipped([s[0]] + t); assert ([s[0]] + t)[1..] == t; }
      NaTRows(t);
      NaTRows([x] + s[1..]);
      { NaTRowsCons(x, s[1..]); }
      xs + NaTRows(s[1..]);
      { ParsedHeadSkipped(s); }
      xs + NaTRows(s);
      { NaTRowsCons(x, s); }
      NaTRows([x] + s);
    }
  }

  lemma ParsedHeadSkipped(s: seq<ResultRow>)
    requires s != [] && s[0].timestamp.Some?
    ensures NaTRows(s) == NaTRows(s[1..])
  {
  }

  /** One order that sort_values may produce: a valid order always exists. */
  function SortByTimestamp(s: seq<ResultRow>): (r: seq<ResultRow>)
    ensures IsTimestampSorting(r, s)
  {
    if s == [] then []
    else
      assert s == [s[0]] + s[1..];
      var t := SortByTimestamp(s[1..]);
      InsertNaTRows(s[0], t);
      NaTRowsCons(s[0], t);
      NaTRowsCons(s[0], s[1..]);
      Insert(s[0], t)
  }

  /** No later row of `s` shares the key of row `i`. */
  predicate LastOfKey(s: seq<ResultRow>, i: int)
    requires 0 <= i < |s|
  {
    forall j :: i < j < |s| ==> ResultKey(s[j]) != ResultKey(s[i])
  }

  lemma HasKeyCons(s: seq<ResultRow>, k: Key)
    requires s != []
    ensures HasKey(s, k) <==> ResultKey(s[0]) == k || HasKey(s[1..], k)
  {
    if HasKey(s[1..], k) {
      var i :| 0 <= i < |s[1..]| && ResultKey(s[1..][i]) == k;
      assert ResultKey(s[i + 1]) == k;
    }
    if HasKey(s, k) && ResultKey(s[0]) != k {
      var i :| 0 <= i < |s| && ResultKey(s[i]) == k;
      assert ResultKey(s[1..][i - 1]) == k;
    }
  }

  /** drop_duplicates(['line', 'equip_id', 'item_name'], keep='last'):
      a row survives exactly when no later row has its key. */
  function KeepLast(s: seq<ResultRow>): (r: seq<ResultRow>)
    ensures |r| <= |s|
    ensures forall x :: x in r ==> x in s
  {
    if s == [] then []
    else
      assert s == [s[0]] + s[1..];
      (if HasKey(s[1..], ResultKey(s[0])) then [] else [s[0]]) + KeepLast(s[1..])
  }

  /** Being last of its key in `s` is being last in the tail, for every row but
      the head, which is last exactly when the tail lacks its key. */
  lemma LastOfKeyShift(s: seq<ResultRow>)
    requires s != []
    ensures forall i :: 0 < i < |s| ==> (LastOfKey(s, i) <==> LastOfKey(s[1..], i - 1))
    ensures LastOfKey(s, 0) <==> !HasKey(s[1..], ResultKey(s[0]))
  {
    forall i | 0 < i < |s| ensures LastOfKey(s, i) <==> LastOfKey(s[1..], i - 1) {
      assert forall j :: i < j < |s| ==> s[j] == s[1..][j - 1];
    }
    if HasKey(s[1..], ResultKey(s[0])) {
      var j :| 0 <= j < |s[1..]| && ResultKey(s[1..][j]) == ResultKey(s[0]);
      assert ResultKey(s[j + 1]) == ResultKey(s[0]);
    } else {
      forall j | 0 < j < |s| ensures ResultKey(s[j]) != ResultKey(s[0]) {
        assert s[j] == s[1..][j - 1];
      }
    }
  }

  /** The survivors of KeepLast are exactly the rows that are last of their key. */
  lemma {:induction false} KeepLastSurvivors(s: seq<ResultRow>)
    ensures forall x :: x in KeepLast(s) ==> exists i :: 0 <= i < |s| && s[i] == x && LastOfKey(s, i)
    ensures forall i :: 0 <= i < |s| && LastOfKey(s, i) ==> s[i] in KeepLast(s)
  {
    if s != [] {
      KeepLastSurvivors(s[1..]);
      var t := KeepLast(s[1..]);
      LastOfKeyShift(s);
      forall x | x in KeepLast(s) ensures exists i :: 0 <= i < |s| && s[i] == x && LastOfKey(s, i) {
        if x in t {
          var i :| 0 <= i < |s[1..]| && s[1..][i] == x && LastOfKey(s[1..], i);
          assert s[i + 1] == x && LastOfKey(s, i + 1);
        } else {
          assert s[0] == x && LastOfKey(s, 0);
        }
      }
      forall i | 0 <= i < |s| && LastOfKey(s, i) ensures s[i] in KeepLast(s) {
        if i > 0 {
          assert s[1..][i - 1] == s[i];
        }
      }
    }
  }

  /** A key occurs after drop_duplicates exactly when it occurred before. */
  lemma {:induction false} KeepLastKeys(s: seq<ResultRow>, k: Key)
    ensures HasKey(KeepLast(s), k) <==> HasKey(s, k)
  {
    if s != [] {
      KeepLastKeys(s[1..], k);
      HasKeyCons(s, k);
      var t := KeepLast(s[1..]);
      if HasKey(s[1..], ResultKey(s[0])) {
        assert KeepLast(s) == t;
      } else {
        assert KeepLast(s) == [s[0]] + t;
        HasKeyCons([s[0]] + t, k);
        assert ([s[0]] + t)[1..] == t;
      }
    }
  }

  /** After drop_duplicates no two rows share a key. */
  lemma {:induction false} KeepLastUniqueKeys(s: seq<ResultRow>)
    ensures UniqueKeys(KeepLast(s))
  {
    if s != [] {
      KeepLastUniqueKeys(s[1..]);
      var t := KeepLast(s[1..]);
      if !HasKey(s[1..], ResultKey(s[0])) {
        var r := [s[0]] + t;
        assert KeepLast(s) == r;
        KeepLastKeys(s[1..], ResultKey(s[0]));
        forall i, j | 0 <= i < j < |r| ensures ResultKey(r[i]) != ResultKey(r[j]) {
          if i == 0 {
            assert r[j] == t[j - 1];
          } else {
            assert r[i] == t[i - 1] && r[j] == t[j - 1];
          }
        }
      }
    }
  }

  /** drop_duplicates keeps the remaining rows in their order, so a sorted
      table stays sorted. */
  lemma {:induction false} KeepLastSorted(s: seq<ResultRow>)
    requires SortedByTimestamp(s)
    ensures SortedByTimestamp(KeepLast(s))
  {
    if s != [] {
      assert SortedByTimestamp(s[1..]) by {
        forall i, j | 0 <= i < j < |s[1..]| ensures TsLe(s[1..][i].timestamp, s[1..][j].timestamp) {
          assert s[1..][i] == s[i + 1] && s[1..][j] == s[j + 1];
        }
      }
      KeepLastSorted(s[1..]);
      var t := KeepLast(s[1..]);
      if !HasKey(s[1..], ResultKey(s[0])) {
        assert KeepLast(s) == [s[0]] + t;
        forall y | y in t ensures TsLe(s[0].timestamp, y.timestamp) {
          var j :| 0 <= j < |s[1..]| && s[1..][j] == y;
          assert s[j + 1] == y;
        }
        SortedCons(s[0], t);
      }
    }
  }

  /** Reconciled results for `dateStr` (utils.py:350-353), for one outcome
      `order` of the unstable sort of the rows on that date. */
  function Reconcile(results: seq<ResultRow>, dateStr: string, order: seq<ResultRow>): (r: seq<ResultRow>)
    requires IsTimestampSorting(order, FilterByDate(results, dateStr))
    ensures UniqueKeys(r)
    ensures SortedByTimestamp(r)
    ensures forall x :: x in r ==> x in results && OnDate(x, dateStr)
    ensures forall y :: y in results && OnDate(y, dateStr) ==> HasKey(r, ResultKey(y))
    ensures forall x, y :: x in r && y in results && OnDate(y, dateStr) && ResultKey(y) == ResultKey(x) ==>
      TsLe(y.timestamp, x.timestamp)
  {
    var r := KeepLast(order);
    KeepLastSurvivors(order);
    KeepLastUniqueKeys(order);
    KeepLastSorted(order);
    assert forall y :: y in order <==> y in results && OnDate(y, dateStr) by {
      forall y ensures y in order <==> y in results && OnDate(y, dateStr) {
        assert y in order <==> y in multiset(order);
      }
    }
    assert forall y :: y in results && OnDate(y, dateStr) ==> HasKey(order, ResultKey(y)) by {
      forall y | y in results && OnDate(y, dateStr) ensures HasKey(order, ResultKey(y)) {
        var i :| 0 <= i < |order| && order[i] == y;
      }
    }
    forall y | y in results && OnDate(y, dateStr) ensures HasKey(r, ResultKey(y)) {
      KeepLastKeys(order, ResultKey(y));
    }
    assert forall x, y :: x in r && y in order && ResultKey(y) == ResultKey(x) ==> TsLe(y.timestamp, x.timestamp) by {
      forall x, y | x in r && y in order && ResultKey(y) == ResultKey(x)
        ensures TsLe(y.timestamp, x.timestamp)
      {
        var i :| 0 <= i < |order| && order[i] == x && LastOfKey(order, i);
        var j :| 0 <= j < |order| && order[j] == y;
        assert j <= i;
      }
    }
    r
  }

  lemma KeepLastOfPair(a: ResultRow, b: ResultRow)
    requires ResultKey(a) == ResultKey(b)
    ensures KeepLast([a, b]) == [b]
  {
    assert [a, b][1..] == [b];
    assert [b][1..] == [];
    assert HasKey([b], ResultKey(a)) by { assert ResultKey([b][0]) == ResultKey(a); }
    assert !HasKey([], ResultKey(b));
    assert KeepLast([b]) == [b];
  }

  /** Both orders of two dated readings with equal timestamps are valid sorts. */
  lemma TieOrdersValid(a: ResultRow, b: ResultRow)
    requires a.timestamp == b.timestamp && a.timestamp.Some?
    ensures IsTimestampSorting([a, b], [a, b]) && IsTimestampSorting([b, a], [a, b])
  {
    assert TsLe(a.timestamp, b.timestamp) && TsLe(b.timestamp, a.timestamp);
    assert multiset([b, a]) == multiset([a, b]);
    NaTRowsCons(a, [b]);
    NaTRowsCons(b, [a]);
    NaTRowsCons(a, []);
    NaTRowsCons(b, []);
  }

  lemma PairOnDate(a: ResultRow, b: ResultRow, dateStr: string)
    requires OnDate(a, dateStr) && OnDate(b, dateStr)
    ensures FilterByDate([a, b], dateStr) == [a, b]
  {
    forall x | x in [a, b] ensures OnDate(x, dateStr) {
      assert x == a || x == b;
    }
    FilterKeepsDatedRows([a, b], dateStr);
  }

  /** The sort may put two same-key readings with equal parsed timestamps in
      either order, and each order makes a different one of them survive:
      which one wins a tie is not determined. */
  lemma TieWinnerUnspecified(a: ResultRow, b: ResultRow, dateStr: string)
    requires OnDate(a, dateStr) && OnDate(b, dateStr)
    requires ResultKey(a) == ResultKey(b) && a.timestamp == b.timestamp && a.timestamp.Some?
    ensures IsTimestampSorting([a, b], FilterByDate([a, b], dateStr))
    ensures IsTimestampSorting([b, a], FilterByDate([a, b], dateStr))
    ensures Reconcile([a, b], dateStr, [a, b]) == [b]
    ensures Reconcile([a, b], dateStr, [b, a]) == [a]
  {
    PairOnDate(a, b, dateStr);
    TieOrdersValid(a, b);
    assert Reconcile([a, b], dateStr, [a, b]) == KeepLast([a, b]);
    assert Reconcile([a, b], dateStr, [b, a]) == KeepLast([b, a]);
    KeepLastOfPair(a, b);
    KeepLastOfPair(b, a);
  }

  /** A row that is last of its key in `s` and has NaT is last of its key among
      the NaT rows of `s` too. */
  lemma {:induction false} LastOfKeyAmongNaT(s: seq<ResultRow>, i: int)
    requires 0 <= i < |s| && LastOfKey(s, i) && s[i].timestamp.None?
    ensures LastWithItsKey(NaTRows(s), s[i])
  {
    NaTRowsCons(s[0], s[1..]);
    assert s == [s[0]] + s[1..];
    LastOfKeyShift(s);
    if i == 0 {
      HeadLastAmongNaT(s);
    } else {
      LastOfKeyAmongNaT(s[1..], i - 1);
      TailLastAmongNaT(s, s[i]);
    }
  }

  lemma HeadLastAmongNaT(s: seq<ResultRow>)
    requires s != [] && s[0].timestamp.None? && !HasKey(s[1..], ResultKey(s[0]))
    requires NaTRows(s) == [s[0]] + NaTRows(s[1..])
    ensures LastWithItsKey(NaTRows(s), s[0])
  {
    var n := NaTRows(s);
    NaTRowsMembers(s[1..]);
    forall j | 0 < j < |n| ensures ResultKey(n[j]) != ResultKey(s[0]) {
      assert n[j] in NaTRows(s[1..]) by { assert n[j] == n[1..][j - 1]; }
      var q :| 0 <= q < |s[1..]| && s[1..][q] == n[j];
    }
    assert n[0] == s[0];
  }

  lemma TailLastAmongNaT(s: seq<ResultRow>, x: ResultRow)
    requires s != [] && LastWithItsKey(NaTRows(s[1..]), x)
    requires NaTRows(s) == (if s[0].timestamp.None? then [s[0]] else []) + NaTRows(s[1..])
    ensures LastWithItsKey(NaTRows(s), x)
  {
    var n := NaTRows(s);
    var t := NaTRows(s[1..]);
    var q :| 0 <= q < |t| && t[q] == x && LastOfKey(t, q);
    if s[0].timestamp.None? {
      LastOfKeyShift(n);
      assert n[1..] == t && n[q + 1] == x;
    } else {
      assert n == t;
    }
  }

  /** pandas appends the NaT rows in input order, so the survivor of a key
      group whose survivor has NaT is that key's last NaT reading of the day,
      in input order, whatever valid order the sort produced. */
  lemma NaTSurvivorIsLastNaT(results: seq<ResultRow>, dateStr: string, order: seq<ResultRow>)
    requires IsTimestampSorting(order, FilterByDate(results, dateStr))
    ensures forall x :: x in Reconcile(results, dateStr, order) && x.timestamp.None? ==>
      LastWithItsKey(NaTRows(FilterByDate(results, dateStr)), x)
  {
    ReconcileIsKeepLast(results, dateStr, order);
    forall x | x in KeepLast(order) && x.timestamp.None?
      ensures LastWithItsKey(NaTRows(order), x)
    {
      KeptNaTIsLastNaT(order, x);
    }
  }

  /** `x` occurs in `n` at a position after which no row shares its key. */
  predicate LastWithItsKey(n: seq<ResultRow>, x: ResultRow) {
    exists p :: 0 <= p < |n| && n[p] == x && LastOfKey(n, p)
  }

  lemma ReconcileIsKeepLast(results: seq<ResultRow>, dateStr: string, order: seq<ResultRow>)
    requires IsTimestampSorting(order, FilterByDate(results, dateStr))
    ensures Reconcile(results, dateStr, order) == KeepLast(order)
  {
  }

  lemma KeptNaTIsLastNaT(order: seq<ResultRow>, x: ResultRow)
    requires x in KeepLast(order) && x.timestamp.None?
    ensures LastWithItsKey(NaTRows(order), x)
  {
    KeepLastSurvivors(order);
    var i :| 0 <= i < |order| && order[i] == x && LastOfKey(order, i);
    LastOfKeyAmongNaT(order, i);
  }

  /** Of two same-key NaT readings, the later one survives, in every valid
      sort order. */
  lemma NaTPairKeepsLater(a: ResultRow, b: ResultRow, dateStr: string, order: seq<ResultRow>)
    requires OnDate(a, dateStr) && OnDate(b, dateStr)
    requires ResultKey(a) == ResultKey(b) && a.timestamp.None? && b.timestamp.None?
    requires IsTimestampSorting(order, FilterByDate([a, b], dateStr))
    ensures Reconcile([a, b], dateStr, order) == [b]
  {
    PairOnDate(a, b, dateStr);
    forall x | x in order ensures x.timestamp.None? {
      assert x in multiset([a, b]);
    }
    NaTRowsOfNaT(order);
    NaTRowsOfNaT([a, b]);
    assert order == [a, b];
    KeepLastOfPair(a, b);
  }

  /** A table of NaT rows is its own NaT rows. */
  lemma {:induction false} NaTRowsOfNaT(s: seq<ResultRow>)
    requires forall x :: x in s ==> x.timestamp.None?
    ensures NaTRows(s) == s
  {
    if s != [] {
      NaTRowsOfNaT(s[1..]);
      NaTRowsCons(s[0], s[1..]);
      assert s == [s[0]] + s[1..];
    }
  }

  /** NaT sorts last, so within a key group a reading whose timestamp could
      not be parsed beats every parsed one. */
  lemma UnparsedTimestampWins(results: seq<ResultRow>, dateStr: string, order: seq<ResultRow>, y: ResultRow)
    requires IsTimestampSorting(order, FilterByDate(results, dateStr))
    requires y in results && OnDate(y, dateStr) && y.timestamp.None?
    ensures exists x :: x in Reconcile(results, dateStr, order) && ResultKey(x) == ResultKey(y) && x.timestamp.None?
  {
    var r := Reconcile(results, dateStr, order);
    assert HasKey(r, ResultKey(y));
    var i :| 0 <= i < |r| && ResultKey(r[i]) == ResultKey(y);
    assert r[i] in r;
    assert TsLe(y.timestamp, r[i].timestamp);
  }

  /** The checker printed on the report: the first entry of
      df_r['checker'].unique() when it is non-empty (utils.py:354-356). */
  function CheckerName(reconciled: seq<ResultRow>): (name: string)
    ensures name != "" ==> exists x :: x in reconciled && x.checker == name
    ensures reconciled != [] ==> name == reconciled[0].checker
  {
    if reconciled == [] then "" else reconciled[0].checker
  }

  /** The checker printed is that of a surviving reading with the earliest
      timestamp, because the reconciled rows stay in timestamp order. */
  lemma CheckerOfEarliestReading(results: seq<ResultRow>, dateStr: string, order: seq<ResultRow>)
    requires IsTimestampSorting(order, FilterByDate(results, dateStr))
    ensures var r := Reconcile(results, dateStr, order);
      r != [] ==>
        exists x :: x in r && x.checker == CheckerName(r) && forall y :: y in r ==> TsLe(x.timestamp, y.timestamp)
  {
    var r := Reconcile(results, dateStr, order);
    if r != [] {
      SortedHeadLeast(r);
      assert r[0] in r && r[0].checker == CheckerName(r);
    }
  }

  /** A row found at two positions occurs at least twice in the multiset. */
  lemma {:induction false} RepeatedValueCounted(s: seq<ResultRow>, i: int, j: int)
    requires 0 <= i < j < |s| && s[i] == s[j]
    ensures multiset(s)[s[i]] >= 2
  {
    assert s == s[..j] + s[j..];
    assert s[i] in s[..j];
    assert s[j] in s[j..];
    assert multiset(s) == multiset(s[..j]) + multiset(s[j..]);
  }

  lemma {:induction false} CountedTwiceHasTwoPlaces(s: seq<ResultRow>, x: ResultRow)
    requires multiset(s)[x] >= 2
    ensures exists p, q :: 0 <= p < q < |s| && s[p] == x && s[q] == x
  {
    assert x in multiset(s);
    var p :| 0 <= p < |s| && s[p] == x;
    assert s == s[..p] + [s[p]] + s[p + 1..];
    assert multiset(s) == multiset(s[..p]) + multiset{x} + multiset(s[p + 1..]);
    if x in s[..p] {
      var q :| 0 <= q < p && s[q] == x;
    } else {
      assert x in multiset(s[p + 1..]);
      var q :| 0 <= q < |s[p + 1..]| && s[p + 1..][q] == x;
      assert s[p + 1 + q] == x;
    }
  }

  /** Unique keys survive any rearrangement. */
  lemma UniqueKeysPermutation(s: seq<ResultRow>, t: seq<ResultRow>)
    requires multiset(s) == multiset(t) && UniqueKeys(s)
    ensures UniqueKeys(t)
  {
    forall i, j | 0 <= i < j < |t| ensures ResultKey(t[i]) != ResultKey(t[j]) {
      if t[i] == t[j] {
        RepeatedValueCounted(t, i, j);
        CountedTwiceHasTwoPlaces(s, t[i]);
      } else {
        assert t[i] in multiset(s) && t[j] in multiset(s);
      }
    }
  }

  lemma {:induction false} KeepLastOfUnique(s: seq<ResultRow>)
    requires UniqueKeys(s)
    ensures KeepLast(s) == s
  {
    if s != [] {
      assert UniqueKeys(s[1..]);
      KeepLastOfUnique(s[1..]);
      assert !HasKey(s[1..], ResultKey(s[0])) by {
        forall j | 0 <= j < |s[1..]| ensures ResultKey(s[1..][j]) != ResultKey(s[0]) {
          assert s[1..][j] == s[j + 1];
        }
      }
      assert s == [s[0]] + s[1..];
    }
  }

  /** Reconciling the reconciled table again, in any valid sort order, yields
      the same rows: reconciliation is idempotent. */
  lemma ReconcileIdempotent(results: seq<ResultRow>, dateStr: string, order: seq<ResultRow>, order2: seq<ResultRow>)
    requires IsTimestampSorting(order, FilterByDate(results, dateStr))
    requires IsTimestampSorting(order2, FilterByDate(Reconcile(results, dateStr, order), dateStr))
    ensures multiset(Reconcile(Reconcile(results, dateStr, order), dateStr, order2))
         == multiset(Reconcile(results, dateStr, order))
  {
    var r := Reconcile(results, dateStr, order);
    FilterKeepsDatedRows(r, dateStr);
    UniqueKeysPermutation(r, order2);
    KeepLastOfUnique(order2);
  }
}
