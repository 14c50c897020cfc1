/** Rows of the two daily-check sheets and the order on check timestamps. */
module Tables {

  datatype Option<+T> = None | Some(value: T)

  /** The identity of a checklist item: the columns (line, equip_id, item_name). */
  datatype Key = Key(line: string, equipId: string, itemName: string)

  /** One row of the daily_check_master sheet, one field per column. */
  datatype MasterRow = MasterRow(
    line: string,
    equipId: string,
    equipName: string,
    itemName: string,
    checkContent: string,
    standard: string,
    checkType: string,
    minVal: string,
    maxVal: string,
    unit: string)

  /** One row of the daily_check_result sheet. The timestamp column is held
      as the outcome of parsing it: None stands for NaT, an unparseable value. */
  datatype ResultRow = ResultRow(
    date: string,
    line: string,
    equipId: string,
    itemName: string,
    value: string,
    ox: string,
    checker: string,
    timestamp: Option<int>,
    note: string)

  function MasterKey(m: MasterRow): Key {
    Key(m.line, m.equipId, m.itemName)
  }

  function ResultKey(r: ResultRow): Key {
    Key(r.line, r.equipId, r.itemName)
  }

  /** The order pandas sorts timestamps in: parsed times ascending, NaT last. */
  predicate TsLe(a: Option<int>, b: Option<int>) {
    match b
    case None => true
    case Some(y) => a.Some? && a.value <= y
  }

  /** The timestamp order is a total preorder with NaT as its greatest value, so
      sorting by it is well defined up to ties. */
  lemma TsLeTotalPreorder(a: Option<int>, b: Option<int>, c: Option<int>)
    ensures TsLe(a, a)
    ensures TsLe(a, b) || TsLe(b, a)
    ensures TsLe(a, b) && TsLe(b, c) ==> TsLe(a, c)
    ensures TsLe(a, None) && (TsLe(None, b) <==> b.None?)
    ensures a.Some? && b.Some? ==> (TsLe(a, b) <==> a.value <= b.value)
  {
  }

  /** No two rows of `s` share a key. */
  predicate UniqueKeys(s: seq<ResultRow>) {
    forall i, j :: 0 <= i < j < |s| ==> ResultKey(s[i]) != ResultKey(s[j])
  }

  /** Some row of `s` has key `k`. */
  predicate HasKey(s: seq<ResultRow>, k: Key) {
    exists i :: 0 <= i < |s| && ResultKey(s[i]) == k
  }

  /** No value occurs twice in `s`. */
  predicate NoDuplicates(s: seq<string>) {
    forall i, j :: 0 <= i < j < |s| ==> s[i] != s[j]
  }
}
