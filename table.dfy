/**
 * The grouped inventory table of src/components/sheet-sync/inventory-table.tsx:
 * entries grouped by barcode, each group sorted by expiry and summarised by
 * its soonest expiry, the groups ordered by that expiry, a name search over
 * the groups, and the table's local state updates (a deleted row, an
 * expanded group).
 */
module Table {
  import opened Dates
  import opened Types
  import opened Wrappers
  import opened Expiry
  import Seqs
  import Text

  /** One row of the table: a product and its lots. */
  datatype Group = Group(name: string, barcode: string, count: nat, items: seq<ItemWithStatus>,
                         soonestExpiry: Instant, status: ExpiryStatus)

  /** The sort key `a.soonestExpiry.getTime()`. */
  function SoonestOf(g: Group): int
  {
    g.soonestExpiry
  }

  // ---------------------------------------------------------------------------
  // The reference grouping

  /** The distinct barcodes of `s`, in the order they first appear. */
  function Barcodes(s: seq<ItemWithStatus>): (r: seq<string>)
    ensures forall i, j :: 0 <= i < j < |r| ==> r[i] != r[j]
  {
    if s == [] then []
    else
      var rest := Barcodes(s[..|s| - 1]);
      var b := s[|s| - 1].item.barcode;
      if b in rest then rest else rest + [b]
  }

  /** The entries of `s` with barcode `b`, in input order (what `acc[b]` collects). */
  function Bucket(s: seq<ItemWithStatus>, b: string): (r: seq<ItemWithStatus>)
    ensures |r| <= |s|
    ensures forall i :: 0 <= i < |r| ==> r[i].item.barcode == b
  {
    if s == [] then []
    else Bucket(s[..|s| - 1], b) + (if s[|s| - 1].item.barcode == b then [s[|s| - 1]] else [])
  }

  /** A barcode is listed exactly when some entry carries it, and then its bucket is not empty. */
  lemma {:induction false} BarcodesListed(s: seq<ItemWithStatus>, b: string)
    ensures b in Barcodes(s) <==> exists i :: 0 <= i < |s| && s[i].item.barcode == b
    ensures b in Barcodes(s) <==> |Bucket(s, b)| > 0
  {
    if s != [] {
      var p := s[..|s| - 1];
      BarcodesListed(p, b);
      assert forall i :: 0 <= i < |p| ==> p[i] == s[i];
      if s[|s| - 1].item.barcode != b && b !in Barcodes(p) {
        assert forall i :: 0 <= i < |s| ==> s[i].item.barcode != b by {
          forall i | 0 <= i < |s| ensures s[i].item.barcode != b {
            if i < |p| { assert s[i] == p[i]; }
          }
        }
      }
    }
  }

  /** `min(group.map(item => item.expiryDate))`. */
  function MinExpiry(s: seq<ItemWithStatus>): (m: Instant)
    requires |s| > 0
    ensures exists i :: 0 <= i < |s| && s[i].item.expiry == m
    ensures forall i :: 0 <= i < |s| ==> m <= s[i].item.expiry
  {
    if |s| == 1 then s[0].item.expiry
    else
      var m := MinExpiry(s[1..]);
      assert forall i :: 1 <= i < |s| ==> s[i] == s[1..][i - 1];
      if s[0].item.expiry <= m then s[0].item.expiry else m
  }

  /**
   * One group, as built from the entries collected for a barcode: name and
   * barcode from the first entry collected (read before the in-place sort),
   * the entry count, the entries sorted by expiry, the soonest expiry and
   * its status.
   */
  function MakeGroup(group: seq<ItemWithStatus>, now: Instant): (g: Group)
    requires |group| > 0
    ensures g.count == |g.items|
    ensures multiset(g.items) == multiset(group)
    ensures Seqs.Sorted(g.items, ItemExpiry)
    ensures g.status == GetExpiryStatus(g.soonestExpiry, now)
  {
    var soonestExpiry := MinExpiry(group);
    Group(group[0].item.name, group[0].item.barcode, |group|,
          Seqs.SortBy(group, ItemExpiry), soonestExpiry, GetExpiryStatus(soonestExpiry, now))
  }

  /** Every key has a non-empty bucket. */
  predicate AllNonEmpty(s: seq<ItemWithStatus>, keys: seq<string>)
  {
    forall j :: 0 <= j < |keys| ==> |Bucket(s, keys[j])| > 0
  }

  /** The groups of `keys`, in the order of the keys. */
  function GroupsFor(s: seq<ItemWithStatus>, keys: seq<string>, now: Instant): (r: seq<Group>)
    requires AllNonEmpty(s, keys)
    ensures |r| == |keys|
  {
    if keys == [] then []
    else GroupsFor(s, keys[..|keys| - 1], now) + [MakeGroup(Bucket(s, keys[|keys| - 1]), now)]
  }

  /** The group at position `j` is the one built from the bucket of `keys[j]`. */
  lemma {:induction false} GroupsForAt(s: seq<ItemWithStatus>, keys: seq<string>, now: Instant, j: nat)
    requires AllNonEmpty(s, keys)
    requires j < |keys|
    ensures GroupsFor(s, keys, now)[j] == MakeGroup(Bucket(s, keys[j]), now)
  {
    if j < |keys| - 1 {
      var init := keys[..|keys| - 1];
      assert forall i :: 0 <= i < |init| ==> init[i] == keys[i];
      GroupsForAt(s, init, now, j);
    }
  }

  /** Every listed barcode has a non-empty bucket. */
  lemma ListedBucketsNonEmpty(s: seq<ItemWithStatus>)
    ensures AllNonEmpty(s, Barcodes(s))
  {
    forall j | 0 <= j < |Barcodes(s)| ensures |Bucket(s, Barcodes(s)[j])| > 0 {
      BarcodesListed(s, Barcodes(s)[j]);
    }
  }

  /**
   * What the table shows for `items` at `now`: one group per distinct
   * barcode, the groups stably sorted by soonest expiry.
   */
  function GroupedView(items: seq<Entry>, now: Instant): (r: seq<Group>)
    ensures |r| == |Barcodes(AttachStatus(items, now))|
    ensures Seqs.Sorted(r, SoonestOf)
  {
    var w := AttachStatus(items, now);
    ListedBucketsNonEmpty(w);
    Seqs.SortBy(GroupsFor(w, Barcodes(w), now), SoonestOf)
  }

  // ---------------------------------------------------------------------------
  // The grouping as the component computes it

  /** The members every plain object inherits from `Object.prototype`. */
  const ObjectPrototypeKeys: set<string> :=
    { "constructor", "__proto__", "toString", "toLocaleString", "valueOf", "hasOwnProperty",
      "isPrototypeOf", "propertyIsEnumerable", "__defineGetter__", "__defineSetter__",
      "__lookupGetter__", "__lookupSetter__" }

  /** Some entry's barcode names an inherited member of a plain object. */
  predicate HitsPrototype(items: seq<Entry>)
  {
    exists i :: 0 <= i < |items| && items[i].barcode in ObjectPrototypeKeys
  }

  /** The accumulator after collecting `s`: each barcode mapped to its entries. */
  function Collected(s: seq<ItemWithStatus>): map<string, seq<ItemWithStatus>>
  {
    if s == [] then map[]
    else
      var acc := Collected(s[..|s| - 1]);
      var b := s[|s| - 1].item.barcode;
      acc[b := (if b in acc then acc[b] else []) + [s[|s| - 1]]]
  }

  /** The accumulator holds exactly the listed barcodes, each with its bucket. */
  lemma {:induction false} CollectedBuckets(s: seq<ItemWithStatus>)
    ensures forall k :: k in Collected(s) <==> k in Barcodes(s)
    ensures forall k :: k in Collected(s) ==> Collected(s)[k] == Bucket(s, k)
  {
    if s != [] {
      var p := s[..|s| - 1];
      CollectedBuckets(p);
      forall k | k !in Barcodes(p) ensures Bucket(p, k) == [] {
        BarcodesListed(p, k);
      }
    }
  }

  /**
   * The `reduce` of `groupedItems`. The accumulator is a plain object: its
   * own keys are `acc`, in insertion order `order` (what `Object.values`
   * returns them in). A barcode that is not yet an own key but names an
   * inherited member makes `acc[b] || []` yield that member, and
   * `acc[b].push(item)` then throws; `crashed` stands for that TypeError.
   */
  method ReduceByBarcode(itemsWithStatus: seq<ItemWithStatus>)
    returns (crashed: bool, acc: map<string, seq<ItemWithStatus>>, order: seq<string>)
    ensures crashed <==> exists i :: 0 <= i < |itemsWithStatus| && itemsWithStatus[i].item.barcode in ObjectPrototypeKeys
    ensures !crashed ==> order == Barcodes(itemsWithStatus) && acc == Collected(itemsWithStatus)
  {
    acc := map[];
    order := [];
    var i := 0;
    while i < |itemsWithStatus|
      invariant 0 <= i <= |itemsWithStatus|
      invariant forall j :: 0 <= j < i ==> itemsWithStatus[j].item.barcode !in ObjectPrototypeKeys
      invariant order == Barcodes(itemsWithStatus[..i])
      invariant acc == Collected(itemsWithStatus[..i])
    {
      var item := itemsWithStatus[i];
      var b := item.item.barcode;
      assert itemsWithStatus[..i + 1][..i] == itemsWithStatus[..i];
      CollectedBuckets(itemsWithStatus[..i]);
      BarcodesListed(itemsWithStatus[..i], b);
      if b !in acc {
        if b in ObjectPrototypeKeys {
          return true, acc, order;
        }
        acc := acc[b := []];
        order := order + [b];
      }
      acc := acc[b := acc[b] + [item]];
      i := i + 1;
    }
    assert itemsWithStatus[..i] == itemsWithStatus;
    crashed := false;
  }

  /**
   * `groupedItems`: nothing before the component has mounted on the
   * client; then statuses attached, the entries collected per barcode, one
   * group built per barcode, the groups sorted by soonest expiry. `None` is
   * the TypeError of the collecting step.
   */
  method GroupItems(currentItems: seq<Entry>, now: Instant, isClient: bool) returns (r: Option<seq<Group>>)
    ensures !isClient ==> r == Some([])
    ensures isClient ==> (r.None? <==> HitsPrototype(currentItems))
    ensures isClient && r.Some? ==> r.value == GroupedView(currentItems, now)
  {
    if !isClient {
      return Some([]);
    }
    var itemsWithStatus := AttachStatus(currentItems, now);
    var crashed, acc, order := ReduceByBarcode(itemsWithStatus);
    if crashed {
      return None;
    }
    var groups := BuildGroups(itemsWithStatus, acc, order, now);
    return Some(Seqs.SortBy(groups, SoonestOf));
  }

  /** `Object.values(groups).map(...)`: one group per collected barcode, in collection order. */
  method BuildGroups(itemsWithStatus: seq<ItemWithStatus>, acc: map<string, seq<ItemWithStatus>>,
                     order: seq<string>, now: Instant) returns (groups: seq<Group>)
    requires order == Barcodes(itemsWithStatus) && acc == Collected(itemsWithStatus)
    ensures AllNonEmpty(itemsWithStatus, order) && groups == GroupsFor(itemsWithStatus, order, now)
  {
    ListedBucketsNonEmpty(itemsWithStatus);
    CollectedBuckets(itemsWithStatus);
    groups := [];
    var j := 0;
    while j < |order|
      invariant 0 <= j <= |order|
      invariant AllNonEmpty(itemsWithStatus, order[..j])
      invariant groups == GroupsFor(itemsWithStatus, order[..j], now)
    {
      var bucket := acc[order[j]];
      assert bucket == Bucket(itemsWithStatus, order[j]);
      GroupsForStep(itemsWithStatus, order, j, now);
      groups := groups + [MakeGroup(bucket, now)];
      j := j + 1;
    }
    assert order[..j] == order;
  }

  lemma GroupsForStep(s: seq<ItemWithStatus>, keys: seq<string>, j: nat, now: Instant)
    requires AllNonEmpty(s, keys) && j < |keys|
    ensures AllNonEmpty(s, keys[..j]) && AllNonEmpty(s, keys[..j + 1])
    ensures GroupsFor(s, keys[..j + 1], now) == GroupsFor(s, keys[..j], now) + [MakeGroup(Bucket(s, keys[j]), now)]
  {
    assert keys[..j + 1][..j] == keys[..j];
  }

  /**
   * A single entry with barcode `constructor` makes the grouping throw,
   * while the intended view of it is one group holding that entry.
   */
  lemma PrototypeBarcodeCrashes(now: Instant)
    ensures HitsPrototype([Entry("1", "Soap", "constructor", now, now, "B100")])
    ensures |GroupedView([Entry("1", "Soap", "constructor", now, now, "B100")], now)| == 1
  {
    var items := [Entry("1", "Soap", "constructor", now, now, "B100")];
    assert items[0].barcode in ObjectPrototypeKeys;
    var w := AttachStatus(items, now);
    assert w[..0] == [];
    assert Barcodes(w) == ["constructor"];
  }

  // ---------------------------------------------------------------------------
  // Properties of the grouping

  /** What each group promises about itself. */
  predicate GroupSummarises(g: Group, w: seq<ItemWithStatus>, now: Instant)
  {
    && |g.items| > 0
    && g.count == |g.items|
    && multiset(g.items) == multiset(Bucket(w, g.barcode))
    && (forall i :: 0 <= i < |g.items| ==> g.items[i].item.barcode == g.barcode)
    && Seqs.Sorted(g.items, ItemExpiry)
    && g.soonestExpiry == g.items[0].item.expiry
    && (forall i :: 0 <= i < |g.items| ==> g.soonestExpiry <= g.items[i].item.expiry)
    && g.status == GetExpiryStatus(g.soonestExpiry, now)
    && g.name == Bucket(w, g.barcode)[0].item.name
  }

  /** A group's entries are its bucket sorted, the first one carrying the soonest expiry. */
  lemma {:induction false} SoonestLeads(bucket: seq<ItemWithStatus>, now: Instant)
    requires |bucket| > 0
    ensures var g := MakeGroup(bucket, now);
      && multiset(g.items) == multiset(bucket) && |g.items| == |bucket|
      && Seqs.Sorted(g.items, ItemExpiry)
      && g.soonestExpiry == g.items[0].item.expiry
      && forall i :: 0 <= i < |g.items| ==> g.soonestExpiry <= g.items[i].item.expiry
  {
    var g := MakeGroup(bucket, now);
    MinLeadsSorted(bucket, g.items);
  }

  /** A sorted rearrangement of a bucket starts with the bucket's minimum expiry. */
  lemma MinLeadsSorted(bucket: seq<ItemWithStatus>, items: seq<ItemWithStatus>)
    requires |bucket| > 0 && multiset(items) == multiset(bucket) && Seqs.Sorted(items, ItemExpiry)
    ensures |items| > 0 && MinExpiry(bucket) == items[0].item.expiry
    ensures forall i :: 0 <= i < |items| ==> MinExpiry(bucket) <= items[i].item.expiry
  {
    var m := MinExpiry(bucket);
    assert |items| == |multiset(bucket)| == |bucket|;
    forall i | 0 <= i < |items| ensures m <= items[i].item.expiry {
      assert items[i] in multiset(bucket);
    }
    var k :| 0 <= k < |bucket| && bucket[k].item.expiry == m;
    assert bucket[k] in multiset(items);
    var j :| 0 <= j < |items| && items[j] == bucket[k];
    assert ItemExpiry(items[0]) <= ItemExpiry(items[j]);
  }

  /** Sorting a bucket keeps every entry's barcode. */
  lemma {:induction false} SharedBarcode(bucket: seq<ItemWithStatus>, b: string, now: Instant)
    requires |bucket| > 0
    requires forall i :: 0 <= i < |bucket| ==> bucket[i].item.barcode == b
    ensures forall i :: 0 <= i < |MakeGroup(bucket, now).items| ==> MakeGroup(bucket, now).items[i].item.barcode == b
  {
    var items := MakeGroup(bucket, now).items;
    forall i | 0 <= i < |items| ensures items[i].item.barcode == b {
      assert items[i] in multiset(bucket);
    }
  }

  lemma MakeGroupSummarises(w: seq<ItemWithStatus>, b: string, now: Instant)
    requires |Bucket(w, b)| > 0
    ensures MakeGroup(Bucket(w, b), now).barcode == b
    ensures GroupSummarises(MakeGroup(Bucket(w, b), now), w, now)
  {
    var bucket := Bucket(w, b);
    SoonestLeads(bucket, now);
    SharedBarcode(bucket, b, now);
  }

  /** Every group of the view summarises the input entries carrying its barcode. */
  lemma {:induction false} GroupedViewGroups(items: seq<Entry>, now: Instant)
    ensures forall g :: g in GroupedView(items, now) ==> GroupSummarises(g, AttachStatus(items, now), now)
  {
    var w := AttachStatus(items, now);
    var keys := Barcodes(w);
    ListedBucketsNonEmpty(w);
    var unsorted := GroupsFor(w, keys, now);
    var view := Seqs.SortBy(unsorted, SoonestOf);
    assert GroupedView(items, now) == view;
    forall g | g in view ensures GroupSummarises(g, w, now) {
      assert g in multiset(view);
      assert g in multiset(unsorted);
      var j :| 0 <= j < |unsorted| && unsorted[j] == g;
      GroupsForAt(w, keys, now, j);
      MakeGroupSummarises(w, keys[j], now);
    }
  }

  /** The groups are ordered by soonest expiry, most urgent first. */
  lemma GroupedViewOrdered(items: seq<Entry>, now: Instant)
    ensures Seqs.Sorted(GroupedView(items, now), SoonestOf)
  {
  }

  predicate DistinctBarcodes(gs: seq<Group>)
  {
    forall i, j :: 0 <= i < j < |gs| ==> gs[i].barcode != gs[j].barcode
  }

  lemma {:induction false} InsertDistinct(g: Group, t: seq<Group>)
    requires DistinctBarcodes(t)
    requires forall i :: 0 <= i < |t| ==> t[i].barcode != g.barcode
    ensures DistinctBarcodes(Seqs.Insert(g, t, SoonestOf))
  {
    if t != [] && SoonestOf(g) > SoonestOf(t[0]) {
      var rest := Seqs.Insert(g, t[1..], SoonestOf);
      InsertDistinct(g, t[1..]);
      forall i | 0 <= i < |rest| ensures rest[i].barcode != t[0].barcode {
        assert rest[i] in multiset(rest);
      }
      assert Seqs.Insert(g, t, SoonestOf) == [t[0]] + rest;
    }
  }

  lemma {:induction false} SortDistinct(gs: seq<Group>)
    requires DistinctBarcodes(gs)
    ensures DistinctBarcodes(Seqs.SortBy(gs, SoonestOf))
  {
    if gs != [] {
      var t := Seqs.SortBy(gs[1..], SoonestOf);
      SortDistinct(gs[1..]);
      forall i | 0 <= i < |t| ensures t[i].barcode != gs[0].barcode {
        assert t[i] in multiset(gs[1..]);
      }
      InsertDistinct(gs[0], t);
    }
  }

  /** No two groups share a barcode. */
  lemma GroupedViewDistinct(items: seq<Entry>, now: Instant)
    ensures DistinctBarcodes(GroupedView(items, now))
  {
    var w := AttachStatus(items, now);
    var keys := Barcodes(w);
    ListedBucketsNonEmpty(w);
    var unsorted := GroupsFor(w, keys, now);
    forall j | 0 <= j < |keys| ensures unsorted[j].barcode == keys[j] {
      GroupsForAt(w, keys, now, j);
      MakeGroupSummarises(w, keys[j], now);
    }
    SortDistinct(unsorted);
  }

  /** All the entries of a list of groups, group after group. */
  function AllItems(gs: seq<Group>): seq<ItemWithStatus>
  {
    if gs == [] then [] else gs[0].items + AllItems(gs[1..])
  }

  /** The sum of the groups' `count` fields. */
  function TotalCount(gs: seq<Group>): nat
  {
    if gs == [] then 0 else gs[0].count + TotalCount(gs[1..])
  }

  lemma {:induction false} AllItemsConcat(a: seq<Group>, b: seq<Group>)
    ensures AllItems(a + b) == AllItems(a) + AllItems(b)
  {
    if a == [] {
      assert a + b == b;
    } else {
      assert (a + b)[1..] == a[1..] + b;
      AllItemsConcat(a[1..], b);
    }
  }

  lemma {:induction false} AllItemsInsert(g: Group, t: seq<Group>)
    ensures multiset(AllItems(Seqs.Insert(g, t, SoonestOf))) == multiset(g.items) + multiset(AllItems(t))
  {
    if t != [] && SoonestOf(g) > SoonestOf(t[0]) {
      AllItemsInsert(g, t[1..]);
      assert Seqs.Insert(g, t, SoonestOf) == [t[0]] + Seqs.Insert(g, t[1..], SoonestOf);
    } else {
      assert Seqs.Insert(g, t, SoonestOf) == [g] + t;
    }
  }

  lemma {:induction false} AllItemsSort(gs: seq<Group>)
    ensures multiset(AllItems(Seqs.SortBy(gs, SoonestOf))) == multiset(AllItems(gs))
  {
    if gs != [] {
      AllItemsSort(gs[1..]);
      AllItemsInsert(gs[0], Seqs.SortBy(gs[1..], SoonestOf));
    }
  }

  /** The buckets of `keys`, one after another. */
  function BucketsOf(s: seq<ItemWithStatus>, keys: seq<string>): seq<ItemWithStatus>
  {
    if keys == [] then [] else BucketsOf(s, keys[..|keys| - 1]) + Bucket(s, keys[|keys| - 1])
  }

  lemma {:induction false} GroupsForItems(s: seq<ItemWithStatus>, keys: seq<string>, now: Instant)
    requires AllNonEmpty(s, keys)
    ensures multiset(AllItems(GroupsFor(s, keys, now))) == multiset(BucketsOf(s, keys))
  {
    if keys != [] {
      var n := |keys| - 1;
      GroupsForStep(s, keys, n, now);
      assert keys[..n + 1] == keys;
      var init := keys[..n];
      GroupsForItems(s, init, now);
      var bucket := Bucket(s, keys[n]);
      var g := MakeGroup(bucket, now);
      var front := GroupsFor(s, init, now);
      AllItemsConcat(front, [g]);
      assert AllItems([g]) == g.items;
      assert multiset(g.items) == multiset(bucket);
    }
  }

  /** When every group counts its own entries, the counts add up to all the entries. */
  lemma {:induction false} TotalCountItems(gs: seq<Group>)
    requires forall i :: 0 <= i < |gs| ==> gs[i].count == |gs[i].items|
    ensures TotalCount(gs) == |AllItems(gs)|
  {
    if gs != [] {
      TotalCountItems(gs[1..]);
    }
  }

  /** The bucket of the input extended by one entry. */
  lemma BucketSnoc(s: seq<ItemWithStatus>, x: ItemWithStatus, k: string)
    ensures Bucket(s + [x], k) == Bucket(s, k) + (if x.item.barcode == k then [x] else [])
  {
    assert (s + [x])[..|s + [x]| - 1] == s;
  }

  /** Extending the input by one entry adds it to the bucket of its barcode only. */
  predicate Distinct(keys: seq<string>)
  {
    forall i, j :: 0 <= i < j < |keys| ==> keys[i] != keys[j]
  }

  lemma DistinctInit(keys: seq<string>)
    requires Distinct(keys) && keys != []
    ensures Distinct(keys[..|keys| - 1]) && keys[|keys| - 1] !in keys[..|keys| - 1]
  {
  }

  lemma {:induction false} BucketsOfSnoc(s: seq<ItemWithStatus>, x: ItemWithStatus, keys: seq<string>)
    requires Distinct(keys)
    ensures multiset(BucketsOf(s + [x], keys))
         == multiset(BucketsOf(s, keys)) + (if x.item.barcode in keys then multiset{x} else multiset{})
  {
    if keys != [] {
      var n := |keys| - 1;
      var init := keys[..n];
      var last := keys[n];
      DistinctInit(keys);
      BucketsOfSnoc(s, x, init);
      BucketSnoc(s, x, last);
      assert keys == init + [last];
    }
  }

  /** The buckets of a duplicate-free key list covering every barcode hold the input exactly. */
  lemma {:induction false} BucketsPartition(s: seq<ItemWithStatus>, keys: seq<string>)
    requires Distinct(keys)
    requires forall i :: 0 <= i < |s| ==> s[i].item.barcode in keys
    ensures multiset(BucketsOf(s, keys)) == multiset(s)
  {
    if s == [] {
      EmptyBuckets(keys);
    } else {
      var p := s[..|s| - 1];
      var x := s[|s| - 1];
      assert forall i :: 0 <= i < |p| ==> p[i] == s[i];
      BucketsPartition(p, keys);
      assert p + [x] == s;
      BucketsOfSnoc(p, x, keys);
      assert x.item.barcode in keys;
    }
  }

  lemma {:induction false} EmptyBuckets(keys: seq<string>)
    ensures BucketsOf([], keys) == []
  {
    if keys != [] {
      EmptyBuckets(keys[..|keys| - 1]);
    }
  }

  /**
   * Completeness: every input entry lands in exactly one group, none is
   * invented or duplicated, and the counts add up to the number of entries.
   */
  lemma GroupedViewPartition(items: seq<Entry>, now: Instant)
    ensures multiset(AllItems(GroupedView(items, now))) == multiset(AttachStatus(items, now))
    ensures TotalCount(GroupedView(items, now)) == |items|
  {
    var w := AttachStatus(items, now);
    var keys := Barcodes(w);
    ListedBucketsNonEmpty(w);
    var unsorted := GroupsFor(w, keys, now);
    forall i | 0 <= i < |w| ensures w[i].item.barcode in keys {
      BarcodesListed(w, w[i].item.barcode);
    }
    BucketsPartition(w, keys);
    GroupsForItems(w, keys, now);
    AllItemsSort(unsorted);
    var view := GroupedView(items, now);
    GroupedViewGroups(items, now);
    forall i | 0 <= i < |view| ensures view[i].count == |view[i].items| {
      assert view[i] in view;
    }
    TotalCountItems(view);
    assert |multiset(AllItems(view))| == |w|;
  }

  // ---------------------------------------------------------------------------
  // Search, deletion and expansion

  /** `group.name.toLowerCase().includes(searchTerm.toLowerCase())`. */
  predicate NameMatches(g: Group, term: string)
  {
    Text.Includes(Text.Lower(g.name), Text.Lower(term))
  }

  /** `filteredItems`: the groups whose name contains the search term, ignoring case. */
  function SearchGroups(groups: seq<Group>, term: string): (r: seq<Group>)
    ensures |r| <= |groups|
    ensures forall i :: 0 <= i < |r| ==> r[i] in groups && NameMatches(r[i], term)
    ensures forall i :: 0 <= i < |groups| && NameMatches(groups[i], term) ==> groups[i] in r
  {
    Seqs.Filter(groups, (g: Group) => NameMatches(g, term))
  }

  /** An empty search term keeps every group. */
  lemma SearchEmptyTerm(groups: seq<Group>)
    ensures SearchGroups(groups, "") == groups
  {
    Seqs.FilterAll(groups, (g: Group) => NameMatches(g, ""));
  }

  /** `openCollapsibles[barcode] || false`. */
  function IsOpen(open: map<string, bool>, barcode: string): bool
  {
    barcode in open && open[barcode]
  }

  /** `toggleCollapsible`: flips the open flag of one barcode. */
  function ToggleCollapsible(open: map<string, bool>, barcode: string): (r: map<string, bool>)
    ensures IsOpen(r, barcode) == !IsOpen(open, barcode)
    ensures forall b :: b != barcode ==> IsOpen(r, b) == IsOpen(open, b)
    ensures r.Keys == open.Keys + {barcode}
  {
    open[barcode := !(barcode in open && open[barcode])]
  }

  /** Toggling twice leaves every group as open or closed as it was. */
  lemma ToggleTwice(open: map<string, bool>, barcode: string, b: string)
    ensures IsOpen(ToggleCollapsible(ToggleCollapsible(open, barcode), barcode), b) == IsOpen(open, b)
  {
  }
}
