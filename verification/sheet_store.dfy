/** The pure parts of the spreadsheet access layer: the row append_data
    builds from a record (utils.py:105-115) and the column padding load_data
    applies to a freshly read table (utils.py:83-85). */
module SheetStore {
  import opened Tables

  /** One key/value pair of the record dict, its value already passed through str(). */
  datatype Entry = Entry(key: string, value: string)

  /** A Python dict never holds a key twice. */
  predicate DistinctKeys(rec: seq<Entry>) {
    forall i, j :: 0 <= i < j < |rec| ==> rec[i].key != rec[j].key
  }

  /** list(data_dict.keys()), in insertion order. */
  function KeysOf(rec: seq<Entry>): (r: seq<string>)
    ensures |r| == |rec| && forall i :: 0 <= i < |rec| ==> r[i] == rec[i].key
  {
    if rec == [] then [] else [rec[0].key] + KeysOf(rec[1..])
  }

  /** data_dict.get(h, ""). */
  function Get(rec: seq<Entry>, h: string): (v: string)
    requires DistinctKeys(rec)
    ensures (forall e :: e in rec ==> e.key != h) ==> v == ""
    ensures forall e :: e in rec && e.key == h ==> v == e.value
  {
    if rec == [] then ""
    else if rec[0].key == h then
      assert forall e :: e in rec[1..] ==> e.key != h by {
        forall e | e in rec[1..] ensures e.key != h {
          var j :| 0 <= j < |rec[1..]| && rec[1..][j] == e;
          assert rec[j + 1] == e;
        }
      }
      rec[0].value
    else
      assert DistinctKeys(rec[1..]) by {
        forall i, j | 0 <= i < j < |rec[1..]| ensures rec[1..][i].key != rec[1..][j].key {
          assert rec[1..][i] == rec[i + 1] && rec[1..][j] == rec[j + 1];
        }
      }
      Get(rec[1..], h)
  }

  /** The row append_data sends (utils.py:109-111): one cell per header, in
      header order, holding the record's value for that header or "" when
      the record has none; keys that are not headers are dropped. The
      headers are the sheet's first row, or the record's own keys when that
      row cannot be read (headerRow == None). */
  function RowCells(rec: seq<Entry>, headerRow: Option<seq<string>>): (cells: seq<string>)
    requires DistinctKeys(rec)
    ensures var headers := if headerRow.Some? then headerRow.value else KeysOf(rec);
      |cells| == |headers| &&
      forall i :: 0 <= i < |headers| ==>
        && ((forall e :: e in rec ==> e.key != headers[i]) ==> cells[i] == "")
        && (forall e :: e in rec && e.key == headers[i] ==> cells[i] == e.value)
  {
    var headers := if headerRow.Some? then headerRow.value else KeysOf(rec);
    seq(|headers|, i requires 0 <= i < |headers| => Get(rec, headers[i]))
  }

  function ValuesOf(rec: seq<Entry>): (r: seq<string>)
    ensures |r| == |rec| && forall i :: 0 <= i < |rec| ==> r[i] == rec[i].value
  {
    if rec == [] then [] else [rec[0].value] + ValuesOf(rec[1..])
  }

  /** When the header row cannot be read, the row sent is the record's values
      in insertion order: nothing is lost or reordered. */
  lemma RowCellsOwnKeys(rec: seq<Entry>)
    requires DistinctKeys(rec)
    ensures RowCells(rec, None) == ValuesOf(rec)
  {
    var cells := RowCells(rec, None);
    forall i | 0 <= i < |rec| ensures cells[i] == ValuesOf(rec)[i] {
      assert rec[i] in rec && KeysOf(rec)[i] == rec[i].key;
    }
  }

  /** The column list after `for c in cols: if c not in df.columns: df[c] = ""`. */
  function Padded(columns: seq<string>, expected: seq<string>): (r: seq<string>)
    ensures |columns| <= |r| && r[..|columns|] == columns
    ensures forall c :: c in expected ==> c in r
    ensures forall c :: c in r ==> c in columns || c in expected
    decreases expected
  {
    if expected == [] then columns
    else
      var next := if expected[0] in columns then columns else columns + [expected[0]];
      var r := Padded(next, expected[1..]);
      assert r[..|columns|] == next[..|columns|];
      assert expected[0] in r by {
        var j :| 0 <= j < |next| && next[j] == expected[0];
        assert r[..|next|][j] == expected[0];
      }
      assert forall c :: c in expected ==> c == expected[0] || c in expected[1..];
      r
  }

  /** Padding adds each missing expected column once, so a table without
      repeated columns keeps that property. */
  lemma {:induction false} PaddedNoDuplicates(columns: seq<string>, expected: seq<string>)
    requires NoDuplicates(columns)
    ensures NoDuplicates(Padded(columns, expected))
    decreases expected
  {
    if expected != [] {
      var next := if expected[0] in columns then columns else columns + [expected[0]];
      PaddedNoDuplicates(next, expected[1..]);
    }
  }

  /** A table that already has every expected column is left as it is. */
  lemma {:induction false} PaddedComplete(columns: seq<string>, expected: seq<string>)
    requires forall c :: c in expected ==> c in columns
    ensures Padded(columns, expected) == columns
    decreases expected
  {
    if expected != [] {
      PaddedComplete(columns, expected[1..]);
    }
  }

  /** The columns padding appends are expected columns the table lacked, each
      appended once (utils.py:84-85). */
  lemma {:induction false} PaddedAppendsMissing(columns: seq<string>, expected: seq<string>)
    ensures var r := Padded(columns, expected);
      forall k :: |columns| <= k < |r| ==> r[k] in expected && r[k] !in columns
    ensures var r := Padded(columns, expected);
      forall k, l :: |columns| <= k < l < |r| ==> r[k] != r[l]
    decreases expected
  {
    if expected != [] {
      var e := expected[0];
      var next := if e in columns then columns else columns + [e];
      var r := Padded(columns, expected);
      PaddedAppendsMissing(next, expected[1..]);
      PaddedStep(columns, expected);
      assert r[..|next|] == next;
      forall k | |columns| <= k < |r| ensures r[k] in expected && r[k] !in columns {
        if k < |next| {
          assert r[k] == next[k] == e;
        }
      }
    }
  }

  /** The position of the first occurrence of `c` in `s`. */
  function FirstIndex(s: seq<string>, c: string): (k: nat)
    requires c in s
    ensures k < |s| && s[k] == c && c !in s[..k]
  {
    if s[0] == c then 0
    else
      assert c in s[1..];
      var k := FirstIndex(s[1..], c);
      assert s[..k + 1] == [s[0]] + s[1..][..k];
      k + 1
  }

  /** One padding step keeps the appended columns in first-appearance order:
      `r` starts with `next`, which is the table before the step (of length
      `from`) possibly followed by the first expected column. */
  lemma InOrderStep(expected: seq<string>, next: seq<string>, r: seq<string>, from: nat)
    requires expected != [] && expected[0] in next
    requires from <= |next| <= from + 1 && |next| <= |r|
    requires from < |next| ==> r[from] == expected[0]
    requires forall k :: |next| <= k < |r| ==> r[k] in expected[1..] && r[k] !in next
    requires forall i, j :: |next| <= i < j < |r| ==>
      r[i] in expected[1..] && r[j] in expected[1..] && FirstIndex(expected[1..], r[i]) < FirstIndex(expected[1..], r[j])
    ensures forall i, j :: from <= i < j < |r| ==>
      r[i] in expected && r[j] in expected && FirstIndex(expected, r[i]) < FirstIndex(expected, r[j])
  {
    var e := expected[0];
    forall i, j | from <= i < j < |r|
      ensures r[i] in expected && r[j] in expected && FirstIndex(expected, r[i]) < FirstIndex(expected, r[j])
    {
      if i < |next| {
        assert j >= |next| && r[j] != e;
        assert r[j] in expected[1..] && r[j] in expected;
        assert FirstIndex(expected, r[i]) == 0;
      } else {
        assert r[i] != e && r[j] != e;
        assert r[i] in expected && r[j] in expected;
        assert FirstIndex(expected, r[i]) == 1 + FirstIndex(expected[1..], r[i]);
        assert FirstIndex(expected, r[j]) == 1 + FirstIndex(expected[1..], r[j]);
      }
    }
  }

  /** The appended columns come in the order they first appear in the
      expected list: the layout load_data returns (utils.py:84-85). */
  lemma {:induction false} PaddedAppendsInOrder(columns: seq<string>, expected: seq<string>)
    ensures var r := Padded(columns, expected);
      forall i, j :: |columns| <= i < j < |r| ==>
        r[i] in expected && r[j] in expected && FirstIndex(expected, r[i]) < FirstIndex(expected, r[j])
    decreases expected
  {
    if expected != [] {
      var e := expected[0];
      var next := if e in columns then columns else columns + [e];
      var r := Padded(columns, expected);
      PaddedAppendsInOrder(next, expected[1..]);
      PaddedAppendsMissing(next, expected[1..]);
      PaddedStep(columns, expected);
      assert r[..|next|] == next;
      assert |columns| < |next| ==> r[|columns|] == next[|columns|];
      InOrderStep(expected, next, r, |columns|);
    }
  }

  /** Loading twice pads nothing the second time. */
  lemma PaddedIdempotent(columns: seq<string>, expected: seq<string>)
    ensures Padded(Padded(columns, expected), expected) == Padded(columns, expected)
  {
    PaddedComplete(Padded(columns, expected), expected);
  }

  /** `row` is `prior` followed only by empty cells. */
  predicate Extends(row: seq<string>, prior: seq<string>) {
    |prior| <= |row| && row[..|prior|] == prior && forall j :: |prior| <= j < |row| ==> row[j] == ""
  }

  /** One step of the padding loop: the first expected column is added when missing. */
  lemma PaddedStep(columns: seq<string>, expected: seq<string>)
    requires expected != []
    ensures Padded(columns, expected)
      == Padded(if expected[0] in columns then columns else columns + [expected[0]], expected[1..])
  {
  }

  /** Appending one empty cell keeps a row an extension of what it was. */
  lemma ExtendsAppend(row: seq<string>, prior: seq<string>)
    requires Extends(row, prior)
    ensures Extends(row + [""], prior)
  {
    assert (row + [""])[..|prior|] == row[..|prior|];
  }

  /** Row by row, `rows` extends `prior` with empty cells only. */
  predicate RowsExtend(rows: seq<seq<string>>, prior: seq<seq<string>>) {
    |rows| == |prior| && forall i :: 0 <= i < |rows| ==> Extends(rows[i], prior[i])
  }

  /** Adding an empty cell to every row keeps each row an extension of its original. */
  lemma RowsExtendAppend(before: seq<seq<string>>, rows: seq<seq<string>>, prior: seq<seq<string>>)
    requires RowsExtend(before, prior)
    requires |rows| == |before| && forall i :: 0 <= i < |rows| ==> rows[i] == before[i] + [""]
    ensures RowsExtend(rows, prior)
  {
    forall i | 0 <= i < |rows| ensures Extends(rows[i], prior[i]) {
      ExtendsAppend(before[i], prior[i]);
    }
  }

  /** The DataFrame load_data returns, as a column list and rows of cells. */
  class Frame {
    var columns: seq<string>
    var rows: seq<seq<string>>

    ghost predicate Valid()
      reads this
    {
      forall r :: r in rows ==> |r| == |columns|
    }

    constructor (columns: seq<string>, rows: seq<seq<string>>)
      requires forall r :: r in rows ==> |r| == |columns|
      ensures Valid() && this.columns == columns && this.rows == rows
    {
      this.columns := columns;
      this.rows := rows;
    }

    /** df[c] = "": a new last column, empty in every row. */
    method AddColumn(c: string)
      requires Valid() && c !in columns
      modifies this
      ensures Valid()
      ensures columns == old(columns) + [c]
      ensures |rows| == |old(rows)| && forall i :: 0 <= i < |rows| ==> rows[i] == old(rows[i]) + [""]
    {
      var prev := rows;
      columns := columns + [c];
      rows := seq(|prev|, i requires 0 <= i < |prev| => prev[i] + [""]);
      assert forall r :: r in rows ==> |r| == |columns| by {
        forall r | r in rows ensures |r| == |columns| {
          var i :| 0 <= i < |rows| && rows[i] == r;
          assert prev[i] in prev;
        }
      }
    }

    /** The padding loop of utils.py:83-85: every expected column that is
        missing is appended, empty, in the order given; existing columns and
        cells are untouched. */
    method PadColumns(expected: seq<string>)
      requires Valid()
      modifies this
      ensures Valid()
      ensures columns == Padded(old(columns), expected)
      ensures RowsExtend(rows, old(rows))
    {
      ghost var columns0, rows0 := columns, rows;
      var k := 0;
      while k < |expected|
        invariant 0 <= k <= |expected|
        invariant Valid()
        invariant Padded(columns, expected[k..]) == Padded(columns0, expected)
        invariant RowsExtend(rows, rows0)
      {
        var c := expected[k];
        PaddedStep(columns, expected[k..]);
        assert expected[k..][1..] == expected[k + 1..];
        if c !in columns {
          ghost var before := rows;
          AddColumn(c);
          RowsExtendAppend(before, rows, rows0);
        }
        k := k + 1;
      }
    }
  }
}
