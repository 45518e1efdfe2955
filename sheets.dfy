/**
 * The row mappers of src/lib/google-sheets.ts: the five-column inventory
 * row and the two-column product row as they are written, how rows read
 * back become items and products, and how the row to delete is located.
 * The Sheets API calls themselves are not modelled; the rows they return
 * (or their absence) are parameters.
 */
module Sheets {
  import opened Dates
  import opened Types
  import opened Wrappers

  /**
   * A cell as the Sheets API returns it: a text value, or the rendering of
   * a date written as `yyyy-MM-dd`, kept as the calendar day it names.
   */
  datatype Cell = Text(s: string) | DateText(day: int)

  /** A row is the cells up to the last non-empty one; a missing cell is `undefined`. */
  type Row = seq<Cell>

  function CellAt(row: Row, i: nat): Option<Cell>
  {
    if i < |row| then Some(row[i]) else None
  }

  /** JavaScript truthiness of a cell value: `undefined` and `""` are falsy. */
  predicate Truthy(c: Option<Cell>)
  {
    c.Some? && !(c.value.Text? && c.value.s == "")
  }

  /** `new Date(value)`: a date text gives the midnight of its day, anything else an invalid date. */
  datatype Moment = ValidDate(t: Instant) | InvalidDate

  function ToDate(c: Option<Cell>): Moment
  {
    if c.Some? && c.value.DateText? then ValidDate(c.value.day * MsPerDay) else InvalidDate
  }

  /** The item the sheet yields for a row: the fields are the raw cells (`batch` is not stored). */
  datatype SheetItem = SheetItem(id: Cell, name: Option<Cell>, expiryDate: Moment, addedDate: Moment,
                                 barcode: Option<Cell>)

  /** `sheetRowToInventoryItem`: rows without an id are skipped. */
  function SheetRowToInventoryItem(row: Row): (r: Option<SheetItem>)
    ensures r.None? <==> !Truthy(CellAt(row, 0))
    ensures r.Some? ==> r.value.id == row[0]
  {
    if !Truthy(CellAt(row, 0)) then None
    else Some(SheetItem(row[0], CellAt(row, 1), ToDate(CellAt(row, 2)), ToDate(CellAt(row, 3)), CellAt(row, 4)))
  }

  /** `format(date, "yyyy-MM-dd")`: the calendar day of the instant. */
  function FormatDay(t: Instant): Cell
  {
    DateText(DayOf(t))
  }

  /** The row `addInventoryItemToSheet` appends: id, name, expiry, added date, barcode. */
  function InventoryRow(e: Entry): (r: Row)
    ensures |r| == 5
    ensures Truthy(CellAt(r, 0)) <==> e.id != ""
  {
    [Text(e.id), Text(e.name), FormatDay(e.expiry), FormatDay(e.added), Text(e.barcode)]
  }

  /**
   * The row as a later read returns it: the API drops the empty cells after
   * the last non-empty one.
   */
  function StoredRow(row: Row): (r: Row)
    ensures |r| <= |row| && r == row[..|r|]
    ensures forall i :: |r| <= i < |row| ==> row[i] == Text("")
    ensures |r| > 0 ==> r[|r| - 1] != Text("")
  {
    if row == [] || row[|row| - 1] != Text("") then row
    else
      var r := StoredRow(row[..|row| - 1]);
      assert row[..|row| - 1][..|r|] == row[..|r|];
      r
  }

  /**
   * A read-back item describes `e`: same id, name and barcode (an empty
   * barcode was the trailing cell and reads as missing), both dates on the
   * same day.
   */
  predicate Describes(x: SheetItem, e: Entry)
  {
    && x.id == Text(e.id)
    && x.name == Some(Text(e.name))
    && x.barcode == (if e.barcode == "" then None else Some(Text(e.barcode)))
    && x.expiryDate.ValidDate? && DayOf(x.expiryDate.t) == DayOf(e.expiry)
    && x.addedDate.ValidDate? && DayOf(x.addedDate.t) == DayOf(e.added)
  }

  /**
   * Writing an entry and reading the row back gives the same entry up to
   * the time of day (the dates come back as midnights); a row written with
   * an empty id would be skipped.
   */
  lemma InventoryRoundTrip(e: Entry)
    ensures e.id != "" ==> SheetRowToInventoryItem(StoredRow(InventoryRow(e))).Some?
                           && Describes(SheetRowToInventoryItem(StoredRow(InventoryRow(e))).value, e)
    ensures e.id != "" ==> SheetRowToInventoryItem(StoredRow(InventoryRow(e))).value.expiryDate
                           == ValidDate(StartOfDay(e.expiry))
    ensures e.id == "" ==> SheetRowToInventoryItem(StoredRow(InventoryRow(e))).None?
  {
    var row := InventoryRow(e);
    if e.barcode == "" {
      assert StoredRow(row) == row[..4];
    } else {
      assert StoredRow(row) == row;
    }
    DayOfWithin(DayOf(e.expiry) * MsPerDay, DayOf(e.expiry));
    DayOfWithin(DayOf(e.added) * MsPerDay, DayOf(e.added));
  }

  /** `rows.map(sheetRowToInventoryItem).filter(item => item !== null)`. */
  function ParseRows(rows: seq<Row>): (r: seq<SheetItem>)
    ensures |r| <= |rows|
  {
    if rows == [] then []
    else
      var head := SheetRowToInventoryItem(rows[0]);
      (if head.Some? then [head.value] else []) + ParseRows(rows[1..])
  }

  /** `getInventoryFromSheet`: no rows at all read as an empty inventory. */
  function GetInventoryFromSheet(rows: Option<seq<Row>>): (r: seq<SheetItem>)
    ensures rows.None? ==> r == []
  {
    if rows.None? then [] else ParseRows(rows.value)
  }

  /** Reading keeps the order of the rows: it distributes over concatenation. */
  lemma {:induction false} ParseRowsConcat(a: seq<Row>, b: seq<Row>)
    ensures ParseRows(a + b) == ParseRows(a) + ParseRows(b)
  {
    if a == [] {
      assert a + b == b;
    } else {
      assert (a + b)[0] == a[0];
      assert (a + b)[1..] == a[1..] + b;
      ParseRowsConcat(a[1..], b);
      var head := SheetRowToInventoryItem(a[0]);
      var h := if head.Some? then [head.value] else [];
      assert ParseRows(a + b) == h + ParseRows(a[1..] + b);
      assert ParseRows(a) == h + ParseRows(a[1..]);
    }
  }

  /** One item per row with an id, kept in place; none comes from a row without one. */
  lemma {:induction false} ParseRowsExact(rows: seq<Row>)
    ensures forall i :: 0 <= i < |rows| && Truthy(CellAt(rows[i], 0)) ==> SheetRowToInventoryItem(rows[i]).value in ParseRows(rows)
    ensures forall x :: x in ParseRows(rows) ==> exists i :: 0 <= i < |rows| && SheetRowToInventoryItem(rows[i]) == Some(x)
  {
    if rows != [] {
      ParseRowsExact(rows[1..]);
      forall x | x in ParseRows(rows)
        ensures exists i :: 0 <= i < |rows| && SheetRowToInventoryItem(rows[i]) == Some(x)
      {
        if x !in ParseRows(rows[1..]) {
          assert SheetRowToInventoryItem(rows[0]) == Some(x);
        } else {
          var i :| 0 <= i < |rows[1..]| && SheetRowToInventoryItem(rows[1..][i]) == Some(x);
          assert rows[1..][i] == rows[i + 1];
        }
      }
      forall i | 0 <= i < |rows| && Truthy(CellAt(rows[i], 0))
        ensures SheetRowToInventoryItem(rows[i]).value in ParseRows(rows)
      {
        if i > 0 {
          assert rows[1..][i - 1] == rows[i];
        }
      }
    }
  }

  /** The rows a read returns after `addInventoryItemToSheet` has appended `entries`. */
  function InventoryRows(entries: seq<Entry>): (r: seq<Row>)
    ensures |r| == |entries|
  {
    if entries == [] then [] else [StoredRow(InventoryRow(entries[0]))] + InventoryRows(entries[1..])
  }

  /** A sheet written entry by entry reads back as those entries, in order. */
  lemma {:induction false} InventoryRowsRoundTrip(entries: seq<Entry>)
    requires forall i :: 0 <= i < |entries| ==> entries[i].id != ""
    ensures |GetInventoryFromSheet(Some(InventoryRows(entries)))| == |entries|
    ensures forall i :: 0 <= i < |entries| ==> Describes(GetInventoryFromSheet(Some(InventoryRows(entries)))[i], entries[i])
  {
    if entries != [] {
      InventoryRowsRoundTrip(entries[1..]);
      InventoryRoundTrip(entries[0]);
      var rows := InventoryRows(entries);
      assert rows[1..] == InventoryRows(entries[1..]);
      var x := SheetRowToInventoryItem(rows[0]).value;
      assert ParseRows(rows) == [x] + ParseRows(rows[1..]);
      DescribesCons(x, ParseRows(rows[1..]), entries);
    }
  }

  /** A describing head in front of a pointwise-describing tail describes the whole list. */
  lemma DescribesCons(x: SheetItem, xs: seq<SheetItem>, es: seq<Entry>)
    requires es != [] && Describes(x, es[0])
    requires |xs| == |es| - 1
    requires forall i :: 0 <= i < |xs| ==> Describes(xs[i], es[1..][i])
    ensures forall i :: 0 <= i < |es| ==> Describes(([x] + xs)[i], es[i])
  {
    forall i | 0 <= i < |es| ensures Describes(([x] + xs)[i], es[i]) {
      if i > 0 {
        assert ([x] + xs)[i] == xs[i - 1] && es[1..][i - 1] == es[i];
      }
    }
  }

  // ---------------------------------------------------------------------------
  // Products

  /** `{ barcode: row[0], name: row[1] }`. */
  datatype SheetProduct = SheetProduct(barcode: Option<Cell>, name: Option<Cell>)

  function ToSheetProduct(row: Row): SheetProduct
  {
    SheetProduct(CellAt(row, 0), CellAt(row, 1))
  }

  /** `p.barcode && p.name`. */
  predicate Complete(p: SheetProduct)
  {
    Truthy(p.barcode) && Truthy(p.name)
  }

  /** The product rows that have both a barcode and a name, in order. */
  function ProductsOf(rows: seq<Row>): (r: seq<SheetProduct>)
    ensures |r| <= |rows|
    ensures forall i :: 0 <= i < |r| ==> Complete(r[i])
    ensures forall i :: 0 <= i < |r| ==> exists j :: 0 <= j < |rows| && ToSheetProduct(rows[j]) == r[i]
    ensures forall j :: 0 <= j < |rows| && Complete(ToSheetProduct(rows[j])) ==> ToSheetProduct(rows[j]) in r
  {
    if rows == [] then []
    else
      var p := ToSheetProduct(rows[0]);
      var rest := ProductsOf(rows[1..]);
      assert forall j :: 1 <= j < |rows| ==> rows[j] == rows[1..][j - 1];
      (if Complete(p) then [p] else []) + rest
  }

  /** Reading keeps the order and number of the product rows: it distributes over concatenation. */
  lemma {:induction false} ProductsOfConcat(a: seq<Row>, b: seq<Row>)
    ensures ProductsOf(a + b) == ProductsOf(a) + ProductsOf(b)
  {
    if a == [] {
      assert a + b == b;
    } else {
      assert (a + b)[0] == a[0];
      assert (a + b)[1..] == a[1..] + b;
      ProductsOfConcat(a[1..], b);
    }
  }

  /** A single row gives its product when both cells are truthy, and nothing otherwise. */
  lemma ProductsOfRow(row: Row)
    ensures ProductsOf([row]) == if Complete(ToSheetProduct(row)) then [ToSheetProduct(row)] else []
  {
    assert [row][1..] == [];
  }

  /** `getBarcodesFromSheet`: no rows at all read as an empty catalog. */
  function GetBarcodesFromSheet(rows: Option<seq<Row>>): (r: seq<SheetProduct>)
    ensures rows.None? ==> r == []
  {
    if rows.None? then [] else ProductsOf(rows.value)
  }

  /** The row `addProductToSheet` appends: barcode, name. */
  function ProductRow(p: Product): (r: Row)
    ensures Complete(ToSheetProduct(r)) <==> p.barcode != "" && p.name != ""
  {
    [Text(p.barcode), Text(p.name)]
  }

  /** The product a complete read-back entry names, when both cells are text. */
  function AsProduct(p: SheetProduct): Option<Product>
  {
    if p.barcode.Some? && p.barcode.value.Text? && p.name.Some? && p.name.value.Text?
    then Some(Product(p.barcode.value.s, p.name.value.s))
    else None
  }

  /** A written product reads back as itself; one with an empty field is dropped. */
  lemma ProductRoundTrip(p: Product)
    ensures p.barcode != "" && p.name != "" ==> |ProductsOf([ProductRow(p)])| == 1
                                                && AsProduct(ProductsOf([ProductRow(p)])[0]) == Some(p)
    ensures p.barcode == "" || p.name == "" ==> ProductsOf([ProductRow(p)]) == []
  {
    assert [ProductRow(p)][1..] == [];
  }

  // ---------------------------------------------------------------------------
  // Locating the row to delete

  /** `rows.findIndex(row => row[0] === id)` as an optional index. */
  function FirstRowWithId(rows: seq<Row>, id: string): (r: Option<nat>)
    ensures r.None? <==> forall j :: 0 <= j < |rows| ==> CellAt(rows[j], 0) != Some(Text(id))
    ensures r.Some? ==> r.value < |rows| && CellAt(rows[r.value], 0) == Some(Text(id))
                        && forall j :: 0 <= j < r.value ==> CellAt(rows[j], 0) != Some(Text(id))
  {
    if rows == [] then None
    else if CellAt(rows[0], 0) == Some(Text(id)) then Some(0)
    else
      var rest := FirstRowWithId(rows[1..], id);
      assert forall j :: 1 <= j < |rows| ==> rows[j] == rows[1..][j - 1];
      if rest.None? then None else Some(rest.value + 1)
  }

  /** The `deleteDimension` request, or the error the delete throws. */
  datatype DeleteRequest = DeleteRows(sheetId: int, startIndex: nat, endIndex: nat) | DeleteFailed(message: string)

  const DeleteErrorPrefix: string := "Could not delete item from the sheet: "

  /** What the delete asks for, given the sheet's id (if found) and the column-A rows (if any). */
  function DeleteRequestFor(sheetGid: Option<int>, rows: Option<seq<Row>>, id: string): (r: DeleteRequest)
    ensures r.DeleteRows? <==> sheetGid.Some? && rows.Some?
                               && exists j :: 0 <= j < |rows.value| && CellAt(rows.value[j], 0) == Some(Text(id))
    ensures r.DeleteRows? ==> r.sheetId == sheetGid.value && r.endIndex == r.startIndex + 1
                              && r.startIndex < |rows.value| && CellAt(rows.value[r.startIndex], 0) == Some(Text(id))
                              && forall j :: 0 <= j < r.startIndex ==> CellAt(rows.value[j], 0) != Some(Text(id))
    ensures r.DeleteFailed? ==> |DeleteErrorPrefix| <= |r.message| && r.message[..|DeleteErrorPrefix|] == DeleteErrorPrefix
  {
    if sheetGid.None? then DeleteFailed(DeleteErrorPrefix + "Could not find sheet with name 'Inventory' to get its ID.")
    else if rows.None? then DeleteFailed(DeleteErrorPrefix + "Sheet 'Inventory' is empty or could not be read.")
    else
      var index := FirstRowWithId(rows.value, id);
      if index.None? then DeleteFailed(DeleteErrorPrefix + "Item with id " + id + " not found in the sheet.")
      else DeleteRows(sheetGid.value, index.value, index.value + 1)
  }

  /**
   * `deleteInventoryItemFromSheet` up to the request it sends: a missing
   * sheet or row set is an error; otherwise the first row whose column A is
   * exactly the id is targeted, as the single row `[rowIndex, rowIndex + 1)`,
   * and an id in no row is an error.
   */
  method LocateRowToDelete(sheetGid: Option<int>, rows: Option<seq<Row>>, id: string) returns (r: DeleteRequest)
    ensures r == DeleteRequestFor(sheetGid, rows, id)
    ensures r.DeleteRows? <==> sheetGid.Some? && rows.Some?
                               && exists j :: 0 <= j < |rows.value| && CellAt(rows.value[j], 0) == Some(Text(id))
    ensures r.DeleteRows? ==> r.sheetId == sheetGid.value && r.endIndex == r.startIndex + 1
                              && r.startIndex < |rows.value| && CellAt(rows.value[r.startIndex], 0) == Some(Text(id))
                              && forall j :: 0 <= j < r.startIndex ==> CellAt(rows.value[j], 0) != Some(Text(id))
  {
    if sheetGid.None? {
      return DeleteFailed(DeleteErrorPrefix + "Could not find sheet with name 'Inventory' to get its ID.");
    }
    if rows.None? {
      return DeleteFailed(DeleteErrorPrefix + "Sheet 'Inventory' is empty or could not be read.");
    }
    var all := rows.value;
    var rowIndex := 0;
    while rowIndex < |all| && CellAt(all[rowIndex], 0) != Some(Text(id))
      invariant 0 <= rowIndex <= |all|
      invariant forall j :: 0 <= j < rowIndex ==> CellAt(all[j], 0) != Some(Text(id))
    {
      rowIndex := rowIndex + 1;
    }
    if rowIndex == |all| {
      return DeleteFailed(DeleteErrorPrefix + "Item with id " + id + " not found in the sheet.");
    }
    return DeleteRows(sheetGid.value, rowIndex, rowIndex + 1);
  }

  /** The single column the delete reads (`A1:A`) of a whole sheet. */
  function ColumnA(sheet: seq<Row>): (r: seq<Row>)
    ensures |r| == |sheet|
    ensures forall i :: 0 <= i < |sheet| ==> CellAt(r[i], 0) == CellAt(sheet[i], 0)
  {
    seq(|sheet|, i requires 0 <= i < |sheet| => if sheet[i] == [] then [] else [sheet[i][0]])
  }

  /**
   * The inventory is read from the second row (`A2:E`) while the delete
   * counts rows from the first (`A1:A`). For a non-empty id that the header
   * does not hold, the delete targets a row exactly when the read inventory
   * has an item with that id, and the row it targets is a data row that
   * reads back as such an item.
   */
  lemma DeleteTargetsReadItem(sheet: seq<Row>, id: string, gid: int)
    requires |sheet| > 0 && id != "" && CellAt(sheet[0], 0) != Some(Text(id))
    ensures DeleteRequestFor(Some(gid), Some(ColumnA(sheet)), id).DeleteRows?
        <==> exists x :: x in GetInventoryFromSheet(Some(sheet[1..])) && x.id == Text(id)
    ensures DeleteRequestFor(Some(gid), Some(ColumnA(sheet)), id).DeleteRows? ==>
      var k := DeleteRequestFor(Some(gid), Some(ColumnA(sheet)), id).startIndex;
      1 <= k < |sheet| && SheetRowToInventoryItem(sheet[k]).Some?
      && SheetRowToInventoryItem(sheet[k]).value in GetInventoryFromSheet(Some(sheet[1..]))
      && SheetRowToInventoryItem(sheet[k]).value.id == Text(id)
  {
    DeleteTargetIsItem(sheet, id, gid);
    ItemIsDeleteTarget(sheet, id, gid);
  }

  /** The row the delete targets is a data row that reads back as an item with the id. */
  lemma DeleteTargetIsItem(sheet: seq<Row>, id: string, gid: int)
    requires |sheet| > 0 && id != "" && CellAt(sheet[0], 0) != Some(Text(id))
    ensures DeleteRequestFor(Some(gid), Some(ColumnA(sheet)), id).DeleteRows? ==>
      var k := DeleteRequestFor(Some(gid), Some(ColumnA(sheet)), id).startIndex;
      1 <= k < |sheet| && SheetRowToInventoryItem(sheet[k]).Some?
      && SheetRowToInventoryItem(sheet[k]).value in GetInventoryFromSheet(Some(sheet[1..]))
      && SheetRowToInventoryItem(sheet[k]).value.id == Text(id)
  {
    var data := sheet[1..];
    ParseRowsExact(data);
    var r := DeleteRequestFor(Some(gid), Some(ColumnA(sheet)), id);
    if r.DeleteRows? {
      var k := r.startIndex;
      assert k != 0;
      assert data[k - 1] == sheet[k];
      assert Truthy(CellAt(data[k - 1], 0));
    }
  }

  /** An item with the id in the read inventory makes the delete target a row. */
  lemma ItemIsDeleteTarget(sheet: seq<Row>, id: string, gid: int)
    requires |sheet| > 0
    ensures (exists x :: x in GetInventoryFromSheet(Some(sheet[1..])) && x.id == Text(id))
        ==> DeleteRequestFor(Some(gid), Some(ColumnA(sheet)), id).DeleteRows?
  {
    var data := sheet[1..];
    var items := ParseRows(data);
    ParseRowsExact(data);
    if exists x :: x in items && x.id == Text(id) {
      var x :| x in items && x.id == Text(id);
      var i :| 0 <= i < |data| && SheetRowToInventoryItem(data[i]) == Some(x);
      assert sheet[i + 1] == data[i];
      assert CellAt(ColumnA(sheet)[i + 1], 0) == Some(Text(id));
    }
  }

}
