/**
 * The records the application passes around: an inventory entry (one lot
 * of a product with its own expiry date) and a catalog product.
 */
module Types {
  import opened Dates
  import Seqs

  /** One inventory entry. `added` is when it was recorded; `batch` is the lot label. */
  datatype Entry = Entry(id: string, name: string, barcode: string, expiry: Instant, added: Instant, batch: string)

  /** A catalog product, as found by barcode. */
  datatype Product = Product(barcode: string, name: string)

  /** The sort key `item.expiryDate.getTime()`. */
  function ExpiryOf(e: Entry): int
  {
    e.expiry
  }

  /** `items.filter(item => item.id !== id)`. */
  function WithoutId(items: seq<Entry>, id: string): (r: seq<Entry>)
    ensures |r| <= |items|
    ensures forall i :: 0 <= i < |r| ==> r[i].id != id && r[i] in items
    ensures forall i :: 0 <= i < |items| && items[i].id != id ==> items[i] in r
  {
    Seqs.Filter(items, (e: Entry) => e.id != id)
  }
}
