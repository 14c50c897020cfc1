/** The data side of generate_production_report_pdf (utils.py:244-341): the
    production table with its running total, and the inventory table. */
module ProductionReport {
  import opened Tables
  import opened Text

  /** A production_data row as the report reads it; the quantity column is
      held already parsed to an integer. */
  datatype ProductionRow = ProductionRow(category: string, itemCode: string, itemName: string, quantity: int, author: string)

  /** An inventory_data row; the current-stock column held already parsed. */
  datatype InventoryRow = InventoryRow(itemCode: string, itemName: string, stock: int)

  /** A printed production row; `shaded` is the alternating fill flag. */
  datatype ProductionLine = ProductionLine(category: string, itemCode: string, itemName: string, quantity: int, author: string, shaded: bool)

  datatype InventoryLine = InventoryLine(itemCode: string, itemName: string, stock: int, shaded: bool)

  /** The production page: its rows, the "Total Quantity" figure, and the
      inventory section, absent when there is no inventory table or it is empty. */
  datatype ProductionDocument = ProductionDocument(production: seq<ProductionLine>, total: int, inventory: Option<seq<InventoryLine>>)

  function ProductionLineOf(r: ProductionRow, shaded: bool): ProductionLine {
    ProductionLine(r.category, r.itemCode, Truncate(r.itemName, ProductNameLimit), r.quantity, r.author, shaded)
  }

  function InventoryLineOf(r: InventoryRow, shaded: bool): InventoryLine {
    InventoryLine(r.itemCode, Truncate(r.itemName, InventoryNameLimit), r.stock, shaded)
  }

  /** The sum of the quantity column. */
  function TotalQuantity(rows: seq<ProductionRow>): int {
    if rows == [] then 0 else rows[0].quantity + TotalQuantity(rows[1..])
  }

  lemma {:induction false} TotalQuantityConcat(a: seq<ProductionRow>, b: seq<ProductionRow>)
    ensures TotalQuantity(a + b) == TotalQuantity(a) + TotalQuantity(b)
  {
    if a == [] {
      assert a + b == b;
    } else {
      assert (a + b)[0] == a[0];
      assert (a + b)[1..] == a[1..] + b;
      TotalQuantityConcat(a[1..], b);
    }
  }

  /** With no negative quantities the total is at least every single quantity. */
  lemma {:induction false} TotalQuantityBounds(rows: seq<ProductionRow>)
    requires forall r :: r in rows ==> r.quantity >= 0
    ensures TotalQuantity(rows) >= 0
    ensures forall r :: r in rows ==> r.quantity <= TotalQuantity(rows)
  {
    if rows != [] {
      assert forall r :: r in rows[1..] ==> r in rows;
      TotalQuantityBounds(rows[1..]);
    }
  }

  /** The production loop of utils.py:284-298: one row per record with its
      name truncated to 25 characters, the fill flag toggled after each row,
      and total_qty accumulating every quantity. */
  method ProductionTable(rows: seq<ProductionRow>) returns (lines: seq<ProductionLine>, total: int)
    ensures |lines| == |rows|
    ensures forall i :: 0 <= i < |rows| ==> lines[i] == ProductionLineOf(rows[i], i % 2 == 1)
    ensures total == TotalQuantity(rows)
  {
    lines := [];
    total := 0;
    var fill := false;
    var i := 0;
    while i < |rows|
      invariant 0 <= i <= |rows|
      invariant fill == (i % 2 == 1)
      invariant |lines| == i
      invariant forall k :: 0 <= k < i ==> lines[k] == ProductionLineOf(rows[k], k % 2 == 1)
      invariant total == TotalQuantity(rows[..i])
    {
      lines := lines + [ProductionLineOf(rows[i], fill)];
      TotalQuantityConcat(rows[..i], [rows[i]]);
      assert rows[..i + 1] == rows[..i] + [rows[i]];
      total := total + rows[i].quantity;
      fill := !fill;
      i := i + 1;
    }
    assert rows[..i] == rows;
  }

  /** The inventory loop of utils.py:322-334: names truncated to 35
      characters, fill flag toggled after each row. */
  method InventoryTable(rows: seq<InventoryRow>) returns (lines: seq<InventoryLine>)
    ensures |lines| == |rows|
    ensures forall i :: 0 <= i < |rows| ==> lines[i] == InventoryLineOf(rows[i], i % 2 == 1)
  {
    lines := [];
    var fill := false;
    var i := 0;
    while i < |rows|
      invariant 0 <= i <= |rows|
      invariant fill == (i % 2 == 1)
      invariant |lines| == i
      invariant forall k :: 0 <= k < i ==> lines[k] == InventoryLineOf(rows[k], k % 2 == 1)
    {
      lines := lines + [InventoryLineOf(rows[i], fill)];
      fill := !fill;
      i := i + 1;
    }
  }

  /** generate_production_report_pdf without the drawing. `inventory` is None
      when the caller passes no inventory table. */
  method BuildProductionReport(records: seq<ProductionRow>, inventory: Option<seq<InventoryRow>>)
    returns (doc: ProductionDocument)
    ensures |doc.production| == |records|
    ensures forall i :: 0 <= i < |records| ==> doc.production[i] == ProductionLineOf(records[i], i % 2 == 1)
    ensures doc.total == TotalQuantity(records)
    ensures doc.inventory.Some? <==> inventory.Some? && inventory.value != []
    ensures doc.inventory.Some? ==>
      |doc.inventory.value| == |inventory.value| &&
      forall i :: 0 <= i < |inventory.value| ==> doc.inventory.value[i] == InventoryLineOf(inventory.value[i], i % 2 == 1)
  {
    var lines, total := ProductionTable(records);
    var inv: Option<seq<InventoryLine>> := None;
    if inventory.Some? && inventory.value != [] {
      var invLines := InventoryTable(inventory.value);
      inv := Some(invLines);
    }
    doc := ProductionDocument(lines, total, inv);
  }
}
