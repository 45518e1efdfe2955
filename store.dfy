/**
 * The in-memory store of src/lib/inventory-data.ts: one `Database` object
 * whose `inventory` array is changed in place and whose `barcodes` array is
 * the product catalog. The random id and batch number and the clock are
 * parameters of the operations that used them.
 */
module Store {
  import opened Dates
  import opened Types
  import opened Wrappers
  import Text

  /**
   * The batch label `B${String(Math.floor(Math.random() * 900) + 100).padStart(3, '0')}`,
   * where `roll` is `Math.floor(Math.random() * 900)`.
   */
  function BatchLabel(roll: nat): (r: string)
    requires roll < 900
    ensures |r| == 4 && r[0] == 'B'
    ensures Text.AllDigits(r[1..])
    ensures 100 <= Text.ParseDecimal(r[1..]) <= 999
    ensures Text.ParseDecimal(r[1..]) == roll + 100
  {
    var digits := Text.PadStart(Text.Decimal(roll + 100), 3, '0');
    Text.DecimalRoundTrip(roll + 100);
    assert ("B" + digits)[1..] == digits;
    "B" + digits
  }

  /** What `deleteInventoryItem` returns: `{ success: true, id }`. */
  datatype DeleteResult = DeleteResult(success: bool, id: string)

  /** The seed inventory, dated relative to the instant the store is created. */
  function SeedInventory(now: Instant): seq<Entry>
  {
    [ Entry("1", "Organic Milk", "", now + 5 * MsPerDay, now, "B001"),
      Entry("2", "Sourdough Bread", "", now - 2 * MsPerDay, now - 5 * MsPerDay, "B002"),
      Entry("3", "Cheddar Cheese", "", now + 25 * MsPerDay, now, "B003"),
      Entry("4", "Greek Yogurt", "", now + 1 * MsPerDay, now, "B004") ]
  }

  /** The seed product catalog. */
  function SeedCatalog(): seq<Product>
  {
    [ Product("123456789012", "Organic Milk"),
      Product("234567890123", "Sourdough Bread"),
      Product("345678901234", "Cheddar Cheese"),
      Product("456789012345", "Greek Yogurt"),
      Product("567890123456", "Free-Range Eggs"),
      Product("678901234567", "Apple Juice") ]
  }

  class Database {
    var inventory: seq<Entry>
    var barcodes: seq<Product>

    constructor (now: Instant)
      ensures inventory == SeedInventory(now)
      ensures barcodes == SeedCatalog()
    {
      inventory := SeedInventory(now);
      barcodes := SeedCatalog();
    }

    /** `getInventoryData`: the current inventory, newest additions first. */
    method GetInventoryData() returns (items: seq<Entry>)
      ensures items == inventory
    {
      items := inventory;
    }

    /**
     * `addInventoryItem`: stamps the caller's name, barcode and expiry with a
     * fresh id, a batch label and the current instant, and puts the new entry
     * at the front (`unshift`).
     */
    method AddInventoryItem(name: string, barcode: string, expiry: Instant, id: string, roll: nat, now: Instant)
      returns (item: Entry)
      requires roll < 900
      modifies this
      ensures item == Entry(id, name, barcode, expiry, now, BatchLabel(roll))
      ensures inventory == [item] + old(inventory)
      ensures barcodes == old(barcodes)
    {
      item := Entry(id, name, barcode, expiry, now, BatchLabel(roll));
      inventory := [item] + inventory;
    }

    /**
     * `deleteInventoryItem`: drops every entry with the id and keeps the
     * others in order; it reports success whether or not anything was removed.
     */
    method DeleteInventoryItem(id: string) returns (res: DeleteResult)
      modifies this
      ensures inventory == WithoutId(old(inventory), id)
      ensures barcodes == old(barcodes)
      ensures res == DeleteResult(true, id)
    {
      inventory := WithoutId(inventory, id);
      res := DeleteResult(true, id);
    }

    /** `findProductByBarcode`: the first catalog product whose barcode is exactly `barcode`. */
    method FindProductByBarcode(barcode: string) returns (r: Option<Product>)
      ensures r.None? <==> forall i :: 0 <= i < |barcodes| ==> barcodes[i].barcode != barcode
      ensures r.Some? ==> exists i :: 0 <= i < |barcodes| && barcodes[i] == r.value
                                      && forall j :: 0 <= j < i ==> barcodes[j].barcode != barcode
      ensures r.Some? ==> r.value.barcode == barcode
    {
      var i := 0;
      while i < |barcodes|
        invariant 0 <= i <= |barcodes|
        invariant forall j :: 0 <= j < i ==> barcodes[j].barcode != barcode
      {
        if barcodes[i].barcode == barcode {
          return Some(barcodes[i]);
        }
        i := i + 1;
      }
      return None;
    }
  }
}
