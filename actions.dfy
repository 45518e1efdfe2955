/**
 * The server actions of src/app/actions/inventory.ts: form validation in
 * front of the store, the expiry-sorted read, and the guarded add and
 * delete. Form fields arrive already typed (the zod coercion is not
 * modelled); the clock and the random ids and batch numbers the store
 * would draw are parameters.
 */
module Actions {
  import opened Dates
  import opened Types
  import opened Wrappers
  import opened Store
  import Seqs
  import Text

  /** The form fields a validation error can be reported against. */
  datatype Field = Name | Barcode | ExpiryDate | Quantity

  /** zod's `flatten().fieldErrors`: the failing fields and their messages. */
  type FieldErrors = map<Field, seq<string>>

  /** The state a form action returns: `{ message, errors, success }`. */
  datatype FormState = FormState(success: bool, message: string, errors: FieldErrors)

  /** The errors `itemSchema` reports for the typed fields of the add form. */
  function ItemSchemaErrors(name: string, barcode: string, quantity: int): (e: FieldErrors)
    ensures Name in e <==> name == ""
    ensures Barcode in e <==> barcode == ""
    ensures Quantity in e <==> quantity < 1
    ensures ExpiryDate !in e
    ensures e == map[] <==> name != "" && barcode != "" && quantity >= 1
    ensures Name in e ==> e[Name] == ["Item name is required."]
    ensures Barcode in e ==> e[Barcode] == ["Barcode is required."]
    ensures Quantity in e ==> e[Quantity] == ["Quantity must be at least 1."]
  {
    var e0: FieldErrors := if name == "" then map[Name := ["Item name is required."]] else map[];
    var e1 := if barcode == "" then e0[Barcode := ["Barcode is required."]] else e0;
    var e2 := if quantity < 1 then e1[Quantity := ["Quantity must be at least 1."]] else e1;
    assert name != "" && barcode != "" && quantity >= 1 ==> e2 == map[];
    assert Name in e2 || Barcode in e2 || Quantity in e2 ==> e2 != map[];
    e2
  }

  /** The errors `productSchema` reports for the new-product form. */
  function ProductSchemaErrors(name: string, barcode: string): (e: FieldErrors)
    ensures Name in e <==> name == ""
    ensures Barcode in e <==> barcode == ""
    ensures Quantity !in e && ExpiryDate !in e
    ensures e == map[] <==> name != "" && barcode != ""
    ensures Name in e ==> e[Name] == ["Product name is required."]
    ensures Barcode in e ==> e[Barcode] == ["Barcode is required."]
  {
    var e0: FieldErrors := if name == "" then map[Name := ["Product name is required."]] else map[];
    var e1 := if barcode == "" then e0[Barcode := ["Barcode is required."]] else e0;
    assert name != "" && barcode != "" ==> e1 == map[];
    assert Name in e1 || Barcode in e1 ==> e1 != map[];
    e1
  }

  /** `expiryDate < today`, where `today` is the midnight that starts the current day. */
  predicate IsPast(expiry: Instant, now: Instant)
    ensures IsPast(expiry, now) ==> expiry < now
    ensures DayOf(expiry) == DayOf(now) ==> !IsPast(expiry, now)
  {
    expiry < StartOfDay(now)
  }

  /** An expiry is in the past exactly when it falls on an earlier calendar day; any time today is accepted. */
  lemma PastMeansEarlierDay(expiry: Instant, now: Instant)
    ensures IsPast(expiry, now) <==> DayOf(expiry) < DayOf(now)
  {
    if DayOf(expiry) < DayOf(now) {
      assert StartOfDay(expiry) + MsPerDay <= StartOfDay(now);
    } else {
      DayOfMonotone(StartOfDay(now), StartOfDay(expiry));
    }
  }

  predicate RollsValid(rolls: seq<nat>)
  {
    forall i :: 0 <= i < |rolls| ==> rolls[i] < 900
  }

  /**
   * The entries `quantity` calls of `addInventoryItem` put in front of the
   * inventory, newest (the last call) first.
   */
  function AddedBatch(name: string, barcode: string, expiry: Instant, now: Instant,
                      ids: seq<string>, rolls: seq<nat>, count: nat): seq<Entry>
    requires count <= |ids| && count <= |rolls| && RollsValid(rolls)
  {
    if count == 0 then []
    else [Entry(ids[count - 1], name, barcode, expiry, now, BatchLabel(rolls[count - 1]))]
         + AddedBatch(name, barcode, expiry, now, ids, rolls, count - 1)
  }

  /** The batch has one entry per call, each with the validated fields and its own id and batch label. */
  lemma {:induction false} AddedBatchShape(name: string, barcode: string, expiry: Instant, now: Instant,
                                           ids: seq<string>, rolls: seq<nat>, count: nat)
    requires count <= |ids| && count <= |rolls| && RollsValid(rolls)
    ensures |AddedBatch(name, barcode, expiry, now, ids, rolls, count)| == count
    ensures forall i :: 0 <= i < count ==>
      AddedBatch(name, barcode, expiry, now, ids, rolls, count)[i]
        == Entry(ids[count - 1 - i], name, barcode, expiry, now, BatchLabel(rolls[count - 1 - i]))
  {
    if count > 0 {
      AddedBatchShape(name, barcode, expiry, now, ids, rolls, count - 1);
    }
  }

  /** `getInventory`: the store's entries, stably sorted by expiry instant. */
  method GetInventory(db: Database) returns (items: seq<Entry>)
    ensures multiset(items) == multiset(db.inventory)
    ensures Seqs.Sorted(items, ExpiryOf)
    ensures forall t :: Seqs.WithKey(items, ExpiryOf, t) == Seqs.WithKey(db.inventory, ExpiryOf, t)
  {
    var current := db.GetInventoryData();
    items := Seqs.SortBy(current, ExpiryOf);
    forall t ensures Seqs.WithKey(items, ExpiryOf, t) == Seqs.WithKey(db.inventory, ExpiryOf, t) {
      Seqs.SortByStable(current, ExpiryOf, t);
    }
  }

  /**
   * `addItem`: validation first, then the past-date check, then `quantity`
   * calls of the store's add. Either failure returns before the store is
   * touched.
   */
  method AddItem(db: Database, name: string, barcode: string, expiry: Instant, quantity: int,
                 now: Instant, ids: seq<string>, rolls: seq<nat>) returns (res: FormState)
    requires quantity <= |ids| && quantity <= |rolls| && RollsValid(rolls)
    modifies db
    ensures db.barcodes == old(db.barcodes)
    ensures ItemSchemaErrors(name, barcode, quantity) != map[] ==>
      res == FormState(false, "Failed to add item.", ItemSchemaErrors(name, barcode, quantity))
      && db.inventory == old(db.inventory)
    ensures ItemSchemaErrors(name, barcode, quantity) == map[] && IsPast(expiry, now) ==>
      res == FormState(false, "Failed to add item.", map[ExpiryDate := ["Expiry date cannot be in the past."]])
      && db.inventory == old(db.inventory)
    ensures ItemSchemaErrors(name, barcode, quantity) == map[] && !IsPast(expiry, now) ==>
      res == FormState(true, Text.Decimal(quantity) + " item(s) added successfully.", map[])
      && db.inventory == AddedBatch(name, barcode, expiry, now, ids, rolls, quantity) + old(db.inventory)
  {
    var errors := ItemSchemaErrors(name, barcode, quantity);
    if errors != map[] {
      return FormState(false, "Failed to add item.", errors);
    }
    var today := StartOfDay(now);
    if expiry < today {
      return FormState(false, "Failed to add item.", map[ExpiryDate := ["Expiry date cannot be in the past."]]);
    }
    var i := 0;
    while i < quantity
      invariant 0 <= i <= quantity
      invariant db.inventory == AddedBatch(name, barcode, expiry, now, ids, rolls, i) + old(db.inventory)
      invariant db.barcodes == old(db.barcodes)
    {
      var _ := db.AddInventoryItem(name, barcode, expiry, ids[i], rolls[i], now);
      i := i + 1;
    }
    return FormState(true, Text.Decimal(quantity) + " item(s) added successfully.", map[]);
  }

  /** What `deleteItem` returns: `{ message, success }`. */
  datatype ActionResult = ActionResult(success: bool, message: string)

  /** `deleteItem`: an empty id fails before the store is touched. */
  method DeleteItem(db: Database, id: string) returns (res: ActionResult)
    modifies db
    ensures db.barcodes == old(db.barcodes)
    ensures id == "" ==> res == ActionResult(false, "ID is required") && db.inventory == old(db.inventory)
    ensures id != "" ==> res == ActionResult(true, "Item deleted.") && db.inventory == WithoutId(old(db.inventory), id)
  {
    if id == "" {
      return ActionResult(false, "ID is required");
    }
    var _ := db.DeleteInventoryItem(id);
    return ActionResult(true, "Item deleted.");
  }

  /** What `findProductByBarcode` returns. */
  datatype Lookup = Found(product: Product) | NotFound(message: string)

  /** The action succeeds exactly when the catalog has a product with that barcode, and then returns the first. */
  method FindProductByBarcode(db: Database, barcode: string) returns (res: Lookup)
    ensures res.Found? <==> exists i :: 0 <= i < |db.barcodes| && db.barcodes[i].barcode == barcode
    ensures res.Found? ==> res.product.barcode == barcode && res.product in db.barcodes
    ensures res.Found? ==> exists i :: 0 <= i < |db.barcodes| && db.barcodes[i] == res.product
                                      && forall j :: 0 <= j < i ==> db.barcodes[j].barcode != barcode
    ensures res.NotFound? ==> res.message == "Product not found."
  {
    var product := db.FindProductByBarcode(barcode);
    if product.Some? {
      return Found(product.value);
    }
    return NotFound("Product not found.");
  }

  /** What `addNewProduct` returns: the form state and, on success, the product. */
  datatype ProductState = ProductState(form: FormState, product: Option<Product>)

  /** `addNewProduct`: both fields must be non-empty; the product is returned as validated. */
  function AddNewProduct(name: string, barcode: string): (r: ProductState)
    ensures r.form.success <==> name != "" && barcode != ""
    ensures r.form.success ==> r.product == Some(Product(barcode, name)) && r.form.errors == map[]
    ensures !r.form.success ==> r.product == None && r.form.errors == ProductSchemaErrors(name, barcode)
                                && r.form.message == "Failed to create product."
  {
    var errors := ProductSchemaErrors(name, barcode);
    if errors != map[] then
      ProductState(FormState(false, "Failed to create product.", errors), None)
    else
      ProductState(FormState(true, "Product created successfully.", map[]), Some(Product(barcode, name)))
  }

  /**
   * `addNewProduct` as written: the store function it calls is not defined
   * by the store module, so after validation the call throws and the
   * `catch` turns the error's message (`storeError`) into a failure.
   */
  function AddNewProductAsWritten(name: string, barcode: string, storeError: string): (r: ProductState)
    ensures !r.form.success && r.product == None
    ensures name == "" || barcode == "" ==>
      r.form == FormState(false, "Failed to create product.", ProductSchemaErrors(name, barcode))
    ensures name != "" && barcode != "" ==> r.form == FormState(false, storeError, map[])
  {
    var errors := ProductSchemaErrors(name, barcode);
    if errors != map[] then ProductState(FormState(false, "Failed to create product.", errors), None)
    else ProductState(FormState(false, storeError, map[]), None)
  }

  /** For every valid product the two disagree: as written it is never created. */
  lemma MissingStoreAddDiffers(name: string, barcode: string, storeError: string)
    requires name != "" && barcode != ""
    ensures AddNewProduct(name, barcode).form.success && !AddNewProductAsWritten(name, barcode, storeError).form.success
    ensures AddNewProduct(name, barcode).product == Some(Product(barcode, name))
    ensures AddNewProductAsWritten(name, barcode, storeError).product == None
  {
  }
}
