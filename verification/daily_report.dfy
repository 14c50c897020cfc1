/** Assembly of the daily-check report (utils.py:372-470): one section per
    master line, in first-appearance order; each section left-joins the
    line's master rows with the reconciled results, fills the gaps, counts
    the verdicts and lays the rows out as table lines. */
module DailyReport {
  import opened Tables
  import opened Text
  import opened Reconciliation

  /** A row of the joined table: the master row, unchanged, and the result
      columns the report prints, already filled where no result matched. */
  datatype ReportRow = ReportRow(master: MasterRow, value: string, ox: string, checker: string, note: string)

  /** The fill values of utils.py:404-406 for a master row without a result. */
  function Unmatched(m: MasterRow): ReportRow {
    ReportRow(m, "-", "-", "", "")
  }

  function Merged(m: MasterRow, x: ResultRow): ReportRow {
    ReportRow(m, x.value, x.ox, x.checker, x.note)
  }

  /** The right-hand rows whose key is `k`, in their order. */
  function Matches(right: seq<ResultRow>, k: Key): (r: seq<ResultRow>)
    ensures forall x :: x in r <==> x in right && ResultKey(x) == k
    ensures r == [] <==> !HasKey(right, k)
  {
    if right == [] then []
    else
      HasKeyCons(right, k);
      (if ResultKey(right[0]) == k then [right[0]] else []) + Matches(right[1..], k)
  }

  /** The output rows of the left merge for one master row. */
  function JoinOne(m: MasterRow, right: seq<ResultRow>): seq<ReportRow> {
    var ms := Matches(right, MasterKey(m));
    if ms == [] then [Unmatched(m)]
    else seq(|ms|, i requires 0 <= i < |ms| => Merged(m, ms[i]))
  }

  /** pd.merge(line_master, df_r, on=[line, equip_id, item_name], how='left')
      followed by the fill of utils.py:404-406: every master row, in order,
      once per matching result row, or once filled when none matches. */
  function LeftJoin(left: seq<MasterRow>, right: seq<ResultRow>): (r: seq<ReportRow>)
    ensures |r| >= |left|
    ensures forall row :: row in r ==> row.master in left
  {
    if left == [] then []
    else
      var head := JoinOne(left[0], right);
      var rest := LeftJoin(left[1..], right);
      assert forall row :: row in rest ==> row.master in left;
      head + rest
  }

  /** No master row is lost by the left merge: each one has an output row. */
  lemma {:induction false} LeftJoinKeepsEveryMaster(left: seq<MasterRow>, right: seq<ResultRow>)
    ensures forall m :: m in left ==> exists row :: row in LeftJoin(left, right) && row.master == m
  {
    if left != [] {
      LeftJoinKeepsEveryMaster(left[1..], right);
      var head := JoinOne(left[0], right);
      var rest := LeftJoin(left[1..], right);
      assert LeftJoin(left, right) == head + rest;
      assert head[0].master == left[0] && head[0] in head + rest;
      forall m | m in left ensures exists row :: row in head + rest && row.master == m {
        if m != left[0] {
          assert m in left[1..];
          var row :| row in rest && row.master == m;
          assert row in head + rest;
        }
      }
    }
  }

  /** The joined row of master row `m` when result keys are unique. */
  function RowFor(m: MasterRow, right: seq<ResultRow>): (r: ReportRow)
    ensures r.master == m
    ensures !HasKey(right, MasterKey(m)) ==> r.value == "-" && r.ox == "-" && r.checker == "" && r.note == ""
    ensures HasKey(right, MasterKey(m)) ==>
      exists x :: x in right && ResultKey(x) == MasterKey(m) &&
        r.value == x.value && r.ox == x.ox && r.checker == x.checker && r.note == x.note
  {
    var ms := Matches(right, MasterKey(m));
    if ms == [] then Unmatched(m) else assert ms[0] in ms; Merged(m, ms[0])
  }

  lemma {:induction false} MatchesOfUnique(right: seq<ResultRow>, k: Key)
    requires UniqueKeys(right)
    ensures |Matches(right, k)| <= 1
  {
    if right != [] {
      assert UniqueKeys(right[1..]) by {
        forall i, j | 0 <= i < j < |right[1..]| ensures ResultKey(right[1..][i]) != ResultKey(right[1..][j]) {
          assert right[1..][i] == right[i + 1] && right[1..][j] == right[j + 1];
        }
      }
      MatchesOfUnique(right[1..], k);
      if ResultKey(right[0]) == k {
        assert !HasKey(right[1..], k) by {
          forall j | 0 <= j < |right[1..]| ensures ResultKey(right[1..][j]) != k {
            assert right[1..][j] == right[j + 1];
          }
        }
      }
    }
  }

  lemma JoinOneOfUnique(m: MasterRow, right: seq<ResultRow>)
    requires UniqueKeys(right)
    ensures JoinOne(m, right) == [RowFor(m, right)]
  {
    MatchesOfUnique(right, MasterKey(m));
  }

  /** Because reconciled keys are unique, the merge yields exactly one row per
      master row, in master order, and that row is RowFor of it: the left
      side is preserved and nothing is duplicated (utils.py:395-397, 408). */
  lemma {:induction false} LeftJoinOneRowPerMaster(left: seq<MasterRow>, right: seq<ResultRow>)
    requires UniqueKeys(right)
    ensures |LeftJoin(left, right)| == |left|
    ensures forall i :: 0 <= i < |left| ==> LeftJoin(left, right)[i] == RowFor(left[i], right)
  {
    if left != [] {
      var rest := LeftJoin(left[1..], right);
      LeftJoinOneRowPerMaster(left[1..], right);
      JoinOneOfUnique(left[0], right);
      var r := LeftJoin(left, right);
      assert r == [RowFor(left[0], right)] + rest;
      forall i | 0 <= i < |left| ensures r[i] == RowFor(left[i], right) {
        if i > 0 {
          assert r[i] == rest[i - 1];
          assert left[1..][i - 1] == left[i];
        }
      }
    }
  }

  /** With no reconciled results the merge path gives exactly the rows the
      separate branch of utils.py:398-402 builds: all filled with '-', '-', ''. */
  lemma {:induction false} JoinWithNoResults(left: seq<MasterRow>)
    ensures LeftJoin(left, []) == seq(|left|, i requires 0 <= i < |left| => Unmatched(left[i]))
  {
    if left != [] {
      JoinWithNoResults(left[1..]);
      assert Matches([], MasterKey(left[0])) == [];
    }
  }

  /** len(df_final[df_final['ox'] == verdict]). */
  function CountOx(rows: seq<ReportRow>, verdict: string): (n: nat)
    ensures n <= |rows|
  {
    if rows == [] then 0
    else (if rows[0].ox == verdict then 1 else 0) + CountOx(rows[1..], verdict)
  }

  /** The count is zero exactly when no row has the verdict, and the whole
      table exactly when every row has it. */
  lemma {:induction false} CountOxExtremes(rows: seq<ReportRow>, verdict: string)
    ensures CountOx(rows, verdict) == 0 <==> forall i :: 0 <= i < |rows| ==> rows[i].ox != verdict
    ensures CountOx(rows, verdict) == |rows| <==> forall i :: 0 <= i < |rows| ==> rows[i].ox == verdict
  {
    if rows != [] {
      CountOxExtremes(rows[1..], verdict);
      assert forall i :: 0 < i < |rows| ==> rows[i] == rows[1..][i - 1];
    }
  }

  /** The `ox` column of the joined table. */
  function OxColumn(rows: seq<ReportRow>): (c: seq<string>)
    ensures |c| == |rows| && forall i :: 0 <= i < |rows| ==> c[i] == rows[i].ox
  {
    seq(|rows|, i requires 0 <= i < |rows| => rows[i].ox)
  }

  /** A verdict count is the number of times the verdict occurs in the `ox`
      column. */
  lemma {:induction false} CountOxIsMultiplicity(rows: seq<ReportRow>, verdict: string)
    ensures CountOx(rows, verdict) == multiset(OxColumn(rows))[verdict]
  {
    if rows != [] {
      CountOxIsMultiplicity(rows[1..], verdict);
      assert OxColumn(rows) == [rows[0].ox] + OxColumn(rows[1..]);
    }
  }

  /** Number of master rows for which some result row has the same key. */
  function CountMatched(left: seq<MasterRow>, right: seq<ResultRow>): (n: nat)
    ensures n <= |left|
  {
    if left == [] then 0
    else (if HasKey(right, MasterKey(left[0])) then 1 else 0) + CountMatched(left[1..], right)
  }

  /** For each master row, whether some result row has its key. */
  function MatchedColumn(left: seq<MasterRow>, right: seq<ResultRow>): (c: seq<bool>)
    ensures |c| == |left| && forall i :: 0 <= i < |left| ==> c[i] == HasKey(right, MasterKey(left[i]))
  {
    seq(|left|, i requires 0 <= i < |left| => HasKey(right, MasterKey(left[i])))
  }

  /** The matched count is the number of master rows that have a result. */
  lemma {:induction false} CountMatchedIsMultiplicity(left: seq<MasterRow>, right: seq<ResultRow>)
    ensures CountMatched(left, right) == multiset(MatchedColumn(left, right))[true]
  {
    if left != [] {
      CountMatchedIsMultiplicity(left[1..], right);
      assert MatchedColumn(left, right) == [HasKey(right, MasterKey(left[0]))] + MatchedColumn(left[1..], right);
    }
  }

  /** OK and NG are counted only among master rows that have a result; the
      rows filled with '-' count as neither, so ok + ng <= matched <= total
      (utils.py:408-410). */
  lemma {:induction false} VerdictsOnlyFromResults(left: seq<MasterRow>, right: seq<ResultRow>)
    requires UniqueKeys(right)
    ensures CountOx(LeftJoin(left, right), "OK") + CountOx(LeftJoin(left, right), "NG")
         <= CountMatched(left, right)
  {
    if left != [] {
      VerdictsOnlyFromResults(left[1..], right);
      JoinOneOfUnique(left[0], right);
      var row := RowFor(left[0], right);
      var r := LeftJoin(left, right);
      assert r == [row] + LeftJoin(left[1..], right);
      assert r[1..] == LeftJoin(left[1..], right);
    }
  }

  /** A printed line of a section's table: an item row, or the remark line
      under an NG row. `shaded` is the alternating fill flag. */
  datatype TableLine =
    | ItemLine(equipName: string, itemName: string, standard: string, value: string, ox: string, checker: string, shaded: bool)
    | RemarkLine(note: string, shaded: bool)

  function ItemLineOf(row: ReportRow, shaded: bool): TableLine {
    ItemLine(Truncate(row.master.equipName, EquipNameLimit), row.master.itemName, row.master.standard,
             row.value, row.ox, row.checker, shaded)
  }

  /** A remark is printed only under an NG row whose note is non-empty (utils.py:462). */
  predicate HasRemark(row: ReportRow) {
    row.ox == "NG" && row.note != ""
  }

  function RowLines(row: ReportRow, shaded: bool): seq<TableLine> {
    [ItemLineOf(row, shaded)] + if HasRemark(row) then [RemarkLine(row.note, shaded)] else []
  }

  /** The lines of a table whose first row has fill flag `shaded`. */
  function TableLines(rows: seq<ReportRow>, shaded: bool): seq<TableLine> {
    if rows == [] then [] else RowLines(rows[0], shaded) + TableLines(rows[1..], !shaded)
  }

  /** The lines from row `i` on are row i's lines followed by the rest, with the flag toggled. */
  lemma TableLinesFrom(rows: seq<ReportRow>, i: nat, fill: bool)
    requires i < |rows|
    ensures TableLines(rows[i..], fill) == RowLines(rows[i], fill) + TableLines(rows[i + 1..], !fill)
  {
    assert rows[i..][1..] == rows[i + 1..];
  }

  /** The loop of utils.py:434-469: one item line per row, a remark line after
      it when due, and the fill flag toggled after every row. */
  method RenderTable(rows: seq<ReportRow>) returns (lines: seq<TableLine>)
    ensures lines == TableLines(rows, false)
  {
    lines := [];
    var fill := false;
    var i := 0;
    while i < |rows|
      invariant 0 <= i <= |rows|
      invariant lines + TableLines(rows[i..], fill) == TableLines(rows, false)
    {
      TableLinesFrom(rows, i, fill);
      assert lines + TableLines(rows[i..], fill) == (lines + RowLines(rows[i], fill)) + TableLines(rows[i + 1..], !fill);
      lines := lines + RowLines(rows[i], fill);
      fill := !fill;
      i := i + 1;
    }
    assert rows[i..] == [];
  }

  /** The item lines of a table, without the remark lines. */
  function ItemsOf(lines: seq<TableLine>): seq<TableLine> {
    if lines == [] then []
    else (if lines[0].ItemLine? then [lines[0]] else []) + ItemsOf(lines[1..])
  }

  lemma {:induction false} ItemsOfConcat(a: seq<TableLine>, b: seq<TableLine>)
    ensures ItemsOf(a + b) == ItemsOf(a) + ItemsOf(b)
  {
    if a == [] {
      assert a + b == b;
    } else {
      assert (a + b)[0] == a[0];
      assert (a + b)[1..] == a[1..] + b;
      ItemsOfConcat(a[1..], b);
    }
  }

  /** A row's lines hold exactly one item line. */
  lemma ItemsOfRowLines(row: ReportRow, shaded: bool)
    ensures ItemsOf(RowLines(row, shaded)) == [ItemLineOf(row, shaded)]
  {
    ItemsOfConcat([ItemLineOf(row, shaded)], if HasRemark(row) then [RemarkLine(row.note, shaded)] else []);
  }

  /** Every joined row gets exactly one item line, in row order, with a
      truncated equipment name and fill flags alternating from `shaded`. */
  lemma {:induction false} TableItemLines(rows: seq<ReportRow>, shaded: bool)
    ensures |ItemsOf(TableLines(rows, shaded))| == |rows|
    ensures forall i :: 0 <= i < |rows| ==>
      ItemsOf(TableLines(rows, shaded))[i] == ItemLineOf(rows[i], if i % 2 == 0 then shaded else !shaded)
  {
    if rows != [] {
      TableItemLines(rows[1..], !shaded);
      var head := RowLines(rows[0], shaded);
      ItemsOfConcat(head, TableLines(rows[1..], !shaded));
      ItemsOfRowLines(rows[0], shaded);
      var rest := ItemsOf(TableLines(rows[1..], !shaded));
      assert TableLines(rows, shaded) == head + TableLines(rows[1..], !shaded);
      ItemLinesShift(rows, shaded, ItemsOf(TableLines(rows, shaded)), rest);
    }
  }

  /** Putting row 0's item line, with flag `shaded`, in front of the item lines of
      the other rows, which start at flag !shaded, alternates the flags from row 0. */
  lemma ItemLinesShift(rows: seq<ReportRow>, shaded: bool, items: seq<TableLine>, rest: seq<TableLine>)
    requires rows != [] && items == [ItemLineOf(rows[0], shaded)] + rest && |rest| == |rows| - 1
    requires forall i :: 0 <= i < |rows| - 1 ==> rest[i] == ItemLineOf(rows[1..][i], if i % 2 == 0 then !shaded else shaded)
    ensures |items| == |rows|
    ensures forall i :: 0 <= i < |rows| ==> items[i] == ItemLineOf(rows[i], if i % 2 == 0 then shaded else !shaded)
  {
    forall i | 0 < i < |rows|
      ensures items[i] == ItemLineOf(rows[i], if i % 2 == 0 then shaded else !shaded)
    {
      assert items[i] == rest[i - 1];
      assert rows[1..][i - 1] == rows[i];
      FlagStep(i, shaded);
    }
  }

  /** Row i - 1 of the tail, whose flags start at !shaded, has row i's flag. */
  lemma FlagStep(i: int, shaded: bool)
    requires i > 0
    ensures (if (i - 1) % 2 == 0 then !shaded else shaded) == (if i % 2 == 0 then shaded else !shaded)
  {
    assert (i - 1) % 2 == 0 <==> i % 2 == 1;
  }

  /** Remark lines appear only for NG rows with a note, and carry that note. */
  lemma {:induction false} RemarksOnlyForNotedNG(rows: seq<ReportRow>, shaded: bool)
    ensures forall l :: l in TableLines(rows, shaded) && l.RemarkLine? ==>
      exists row :: row in rows && HasRemark(row) && row.note == l.note
  {
    if rows != [] {
      RemarksOnlyForNotedNG(rows[1..], shaded);
      RemarksOnlyForNotedNG(rows[1..], !shaded);
      forall l | l in TableLines(rows, shaded) && l.RemarkLine?
        ensures exists row :: row in rows && HasRemark(row) && row.note == l.note
      {
        if l in RowLines(rows[0], shaded) {
          assert HasRemark(rows[0]) && rows[0].note == l.note;
        } else {
          var row :| row in rows[1..] && HasRemark(row) && row.note == l.note;
          assert row in rows;
        }
      }
    }
  }

  /** Somewhere in `lines`, the item line of `row` is directly followed by its remark line. */
  predicate RemarkFollows(lines: seq<TableLine>, row: ReportRow, shaded: bool) {
    exists p :: 0 <= p < |lines| - 1 && lines[p] == ItemLineOf(row, shaded) && lines[p + 1] == RemarkLine(row.note, shaded)
  }

  /** Every NG row with a note gets its remark line, immediately after its
      own item line and with the same fill flag (utils.py:462-467). */
  lemma {:induction false} RemarkAfterNotedNG(rows: seq<ReportRow>, shaded: bool)
    ensures forall i :: 0 <= i < |rows| && HasRemark(rows[i]) ==>
      RemarkFollows(TableLines(rows, shaded), rows[i], if i % 2 == 0 then shaded else !shaded)
  {
    if rows != [] {
      RemarkAfterNotedNG(rows[1..], !shaded);
      var lines := TableLines(rows, shaded);
      var head := RowLines(rows[0], shaded);
      var tail := TableLines(rows[1..], !shaded);
      assert lines == head + tail;
      forall i | 0 <= i < |rows| && HasRemark(rows[i])
        ensures RemarkFollows(lines, rows[i], if i % 2 == 0 then shaded else !shaded)
      {
        if i == 0 {
          assert lines[0] == head[0] && lines[1] == head[1];
        } else {
          assert rows[1..][i - 1] == rows[i];
          var f := if (i - 1) % 2 == 0 then !shaded else shaded;
          assert f == if i % 2 == 0 then shaded else !shaded;
          assert RemarkFollows(tail, rows[i], f);
          var q :| 0 <= q < |tail| - 1 && tail[q] == ItemLineOf(rows[i], f) && tail[q + 1] == RemarkLine(rows[i].note, f);
          assert lines[|head| + q] == tail[q] && lines[|head| + q + 1] == tail[q + 1];
        }
      }
    }
  }

  /** The value sequence of a column, as pandas' column access gives it. */
  function LinesOf(master: seq<MasterRow>): (r: seq<string>)
    ensures |r| == |master| && forall i :: 0 <= i < |master| ==> r[i] == master[i].line
  {
    if master == [] then [] else [master[0].line] + LinesOf(master[1..])
  }

  /** Series.unique(): each value once, in order of first appearance. */
  function Distinct(s: seq<string>): (r: seq<string>)
    ensures forall x :: x in r <==> x in s
    ensures NoDuplicates(r)
    ensures forall i, j, p :: 0 <= i < j < |r| && 0 <= p < |s| && s[p] == r[j] ==> r[i] in s[..p]
  {
    if s == [] then []
    else
      var n := |s| - 1;
      var d := Distinct(s[..n]);
      var x := s[n];
      assert s == s[..n] + [x];
      if x in d then
        assert forall i, j, p :: 0 <= i < j < |d| && 0 <= p < |s| && s[p] == d[j] ==> d[i] in s[..p] by {
          forall i, j, p | 0 <= i < j < |d| && 0 <= p < |s| && s[p] == d[j] ensures d[i] in s[..p] {
            if p < n {
              assert s[..n][p] == s[p];
              assert s[..n][..p] == s[..p];
            } else {
              assert d[i] in s[..n];
            }
          }
        }
        d
      else
        var r := d + [x];
        assert forall i, j, p :: 0 <= i < j < |r| && 0 <= p < |s| && s[p] == r[j] ==> r[i] in s[..p] by {
          forall i, j, p | 0 <= i < j < |r| && 0 <= p < |s| && s[p] == r[j] ensures r[i] in s[..p] {
            if p < n {
              assert s[..n][p] == s[p];
              assert s[..n][..p] == s[..p];
            } else {
              assert r[i] in d;
            }
          }
        }
        r
  }

  /** df_m['line'].unique(): the report's lines. */
  function ReportLines(master: seq<MasterRow>): seq<string> {
    Distinct(LinesOf(master))
  }

  /** df_m[df_m['line'] == line], in master order. */
  function LineMaster(master: seq<MasterRow>, line: string): (r: seq<MasterRow>)
    ensures forall m :: m in r <==> m in master && m.line == line
    ensures |r| <= |master|
  {
    if master == [] then []
    else (if master[0].line == line then [master[0]] else []) + LineMaster(master[1..], line)
  }

  /** The selection keeps every master row of the line as often as it occurs,
      so a section's total counts repeated master rows too. */
  lemma {:induction false} LineMasterCounts(master: seq<MasterRow>, line: string)
    ensures forall m :: multiset(LineMaster(master, line))[m] == if m.line == line then multiset(master)[m] else 0
  {
    if master != [] {
      LineMasterCounts(master[1..], line);
      assert master == [master[0]] + master[1..];
    }
  }

  /** One page of the report: the line, the checker shown in its header (if
      any), the three counters and the table. */
  datatype Section = Section(line: string, checker: Option<string>, total: nat, ok: nat, ng: nat, table: seq<TableLine>)

  function SectionOf(master: seq<MasterRow>, reconciled: seq<ResultRow>, line: string, checker: Option<string>): (s: Section)
    ensures s.line == line && s.checker == checker
  {
    var rows := LeftJoin(LineMaster(master, line), reconciled);
    Section(line, checker, |rows|, CountOx(rows, "OK"), CountOx(rows, "NG"), TableLines(rows, false))
  }

  /** The checker shown on section `i`: only the first, and only a non-empty name. */
  function HeaderChecker(i: nat, checkerName: string): Option<string> {
    if i == 0 && checkerName != "" then Some(checkerName) else None
  }

  /** For a reconciled table, each section counts every master row of its line
      exactly once, and OK plus NG never exceed that total. */
  lemma SectionCounts(master: seq<MasterRow>, reconciled: seq<ResultRow>, line: string, checker: Option<string>)
    requires UniqueKeys(reconciled)
    ensures var s := SectionOf(master, reconciled, line, checker);
      s.total == |LineMaster(master, line)| && s.ok + s.ng <= s.total
  {
    var left := LineMaster(master, line);
    LeftJoinOneRowPerMaster(left, reconciled);
    VerdictsOnlyFromResults(left, reconciled);
  }

  /** Every master row is printed: its line has a section, and its joined row
      is in that section's rows. */
  lemma EveryMasterRowReported(master: seq<MasterRow>, reconciled: seq<ResultRow>, m: MasterRow)
    requires UniqueKeys(reconciled)
    requires m in master
    ensures m.line in ReportLines(master)
    ensures RowFor(m, reconciled) in LeftJoin(LineMaster(master, m.line), reconciled)
  {
    var i :| 0 <= i < |master| && master[i] == m;
    assert LinesOf(master)[i] == m.line;
    var left := LineMaster(master, m.line);
    LeftJoinOneRowPerMaster(left, reconciled);
    var k :| 0 <= k < |left| && left[k] == m;
    assert LeftJoin(left, reconciled)[k] == RowFor(m, reconciled);
  }

  /** One page of the loop of utils.py:395-469: join the line's master rows
      with the results, count the verdicts and render the table. */
  method BuildSection(master: seq<MasterRow>, reconciled: seq<ResultRow>, line: string, header: Option<string>)
    returns (section: Section)
    ensures section == SectionOf(master, reconciled, line, header)
  {
    var rows := LeftJoin(LineMaster(master, line), reconciled);
    var table := RenderTable(rows);
    section := Section(line, header, |rows|, CountOx(rows, "OK"), CountOx(rows, "NG"), table);
  }

  /** The section builder of one report: a line and its header checker to its section. */
  function SectionFn(master: seq<MasterRow>, reconciled: seq<ResultRow>): (string, Option<string>) -> Section {
    (line, checker) => SectionOf(master, reconciled, line, checker)
  }

  /** The sections for a list of lines, the checker's name on the first only. */
  function Pages(section: (string, Option<string>) -> Section, lines: seq<string>, checkerName: string): (p: seq<Section>)
    ensures |p| == |lines|
    ensures forall k :: 0 <= k < |lines| ==> p[k] == section(lines[k], HeaderChecker(k, checkerName))
  {
    seq(|lines|, k requires 0 <= k < |lines| => section(lines[k], HeaderChecker(k, checkerName)))
  }

  /** The pages of one more line are the earlier pages plus that line's section. */
  lemma PagesSnoc(section: (string, Option<string>) -> Section, lines: seq<string>, checkerName: string, i: nat)
    requires i < |lines|
    ensures Pages(section, lines[..i + 1], checkerName)
      == Pages(section, lines[..i], checkerName) + [section(lines[i], HeaderChecker(i, checkerName))]
  {
  }

  /** The page loop of utils.py:372-470 over a list of lines: one section per
      line, in order; the first_page flag puts the checker's name on the first
      section only, and only when the name is non-empty. */
  method SectionsFor(master: seq<MasterRow>, reconciled: seq<ResultRow>, lines: seq<string>, checkerName: string)
    returns (sections: seq<Section>)
    ensures sections == Pages(SectionFn(master, reconciled), lines, checkerName)
  {
    var firstPage := true;
    sections := [];
    var i := 0;
    while i < |lines|
      invariant 0 <= i <= |lines|
      invariant firstPage <==> (i == 0 || checkerName == "")
      invariant sections == Pages(SectionFn(master, reconciled), lines[..i], checkerName)
    {
      var header: Option<string> := None;
      if firstPage && checkerName != "" {
        header := Some(checkerName);
        firstPage := false;
      }
      assert header == HeaderChecker(i, checkerName);
      var section := BuildSection(master, reconciled, lines[i], header);
      PagesSnoc(SectionFn(master, reconciled), lines, checkerName, i);
      sections := sections + [section];
      i := i + 1;
    }
    assert lines[..i] == lines;
  }

  /** The pages of the report: one section per distinct line of the master
      table, in first-appearance order (`df_m['line'].unique()`, utils.py:372). */
  method BuildSections(master: seq<MasterRow>, reconciled: seq<ResultRow>, checkerName: string)
    returns (sections: seq<Section>)
    ensures |sections| == |ReportLines(master)|
    ensures forall i :: 0 <= i < |sections| ==>
      sections[i].line == ReportLines(master)[i] && sections[i].checker == HeaderChecker(i, checkerName)
    ensures forall i :: 0 <= i < |sections| ==>
      sections[i] == SectionOf(master, reconciled, sections[i].line, sections[i].checker)
  {
    sections := SectionsFor(master, reconciled, ReportLines(master), checkerName);
  }

  /** generate_all_daily_check_pdf without the drawing: reconcile the results
      of `dateStr` (for the sort outcome `order`), pick the checker, and build
      one section per line whose total is that line's number of master rows. */
  method DailyCheckReport(master: seq<MasterRow>, results: seq<ResultRow>, dateStr: string, order: seq<ResultRow>)
    returns (checkerName: string, sections: seq<Section>)
    requires IsTimestampSorting(order, FilterByDate(results, dateStr))
    ensures checkerName == CheckerName(Reconcile(results, dateStr, order))
    ensures |sections| == |ReportLines(master)|
    ensures forall i :: 0 <= i < |sections| ==>
      && sections[i].line == ReportLines(master)[i]
      && sections[i].checker == HeaderChecker(i, checkerName)
      && sections[i].total == |LineMaster(master, sections[i].line)|
      && sections[i].ok + sections[i].ng <= sections[i].total
      && sections[i] == SectionOf(master, Reconcile(results, dateStr, order), sections[i].line, sections[i].checker)
  {
    var reconciled := Reconcile(results, dateStr, order);
    checkerName := CheckerName(reconciled);
    sections := BuildSections(master, reconciled, checkerName);
    forall i | 0 <= i < |sections|
      ensures sections[i].total == |LineMaster(master, sections[i].line)|
      ensures sections[i].ok + sections[i].ng <= sections[i].total
    {
      SectionCounts(master, reconciled, sections[i].line, sections[i].checker);
    }
  }
}
