/**
 * The expiry-status classifier of src/lib/utils.ts. Both dates are cut to
 * midnight, the whole days between them decide the status, and the status
 * decides the colour. The function reads the clock itself (the second
 * argument its callers pass is ignored); here that reading is the parameter
 * `now`.
 */
module Expiry {
  import opened Dates
  import opened Types
  import Text

  datatype Status = Expired | Expiring | Fresh

  /**
   * The label (the field `label` of the source; `label` is a keyword in
   * Dafny, so the field is called `caption`). Only the `expiring` text is
   * spelled out; the other two are date-fns renderings of the expiry
   * midnight (a relative distance and a `MMM d, yyyy` date) and are kept as
   * that midnight.
   */
  datatype Label = ExpiredAgo(expiry: Instant) | Literal(text: string) | ExpiresOn(expiry: Instant)

  datatype ExpiryStatus = ExpiryStatus(status: Status, caption: Label, color: string, days: int)

  /** Days from today within which an item counts as expiring, both ends included. */
  const ExpiringWindow: int := 7

  /** The presentation class each status is drawn with. */
  function ColorOf(s: Status): string
  {
    match s
    case Expired => "bg-destructive/80 text-destructive-foreground"
    case Expiring => "bg-warning text-warning-foreground"
    case Fresh => "bg-secondary text-secondary-foreground"
  }

  /** The `expiring` label: `Expires in N day(s)`. */
  function ExpiresInLabel(days: nat): string
  {
    "Expires in " + Text.Decimal(days) + " day(s)"
  }

  /** `getExpiryStatus(expiryDate, now)`. */
  function GetExpiryStatus(expiry: Instant, now: Instant): (r: ExpiryStatus)
    ensures r.days == DayOf(expiry) - DayOf(now)
    ensures r.status == Expired <==> r.days < 0
    ensures r.status == Expiring <==> 0 <= r.days <= ExpiringWindow
    ensures r.status == Fresh <==> r.days > ExpiringWindow
    ensures r.color == ColorOf(r.status)
    ensures r.status == Expiring ==> r.caption == Literal(ExpiresInLabel(r.days as nat))
  {
    var today := StartOfDay(now);
    var exp := StartOfDay(expiry);
    MidnightDifference(expiry, now);
    var daysUntilExpiry := DifferenceInDays(exp, today);
    if daysUntilExpiry < 0 then
      ExpiryStatus(Expired, ExpiredAgo(exp), "bg-destructive/80 text-destructive-foreground", daysUntilExpiry)
    else if daysUntilExpiry <= 7 then
      ExpiryStatus(Expiring, Literal("Expires in " + Text.Decimal(daysUntilExpiry) + " day(s)"),
                   "bg-warning text-warning-foreground", daysUntilExpiry)
    else
      ExpiryStatus(Fresh, ExpiresOn(exp), "bg-secondary text-secondary-foreground", daysUntilExpiry)
  }

  /** The time of day of either instant never changes the result. */
  lemma TimeOfDayIrrelevant(e1: Instant, e2: Instant, n1: Instant, n2: Instant)
    requires DayOf(e1) == DayOf(e2) && DayOf(n1) == DayOf(n2)
    ensures GetExpiryStatus(e1, n1) == GetExpiryStatus(e2, n2)
  {
    assert StartOfDay(e1) == StartOfDay(e2);
    assert StartOfDay(n1) == StartOfDay(n2);
  }

  /** The classifier at `k` whole days after the reference instant. */
  lemma ClassifyDaysAhead(now: Instant, k: int)
    ensures GetExpiryStatus(now + k * MsPerDay, now).days == k
  {
    DayOfShift(now, k);
  }

  /**
   * The boundary days: yesterday is the last expired day, today and the
   * seventh day are expiring, the eighth day is the first fresh one.
   */
  lemma BoundaryDays(now: Instant)
    ensures GetExpiryStatus(now - MsPerDay, now).status == Expired
    ensures GetExpiryStatus(now - MsPerDay, now).days == -1
    ensures GetExpiryStatus(now, now) == ExpiryStatus(Expiring, Literal("Expires in 0 day(s)"), ColorOf(Expiring), 0)
    ensures GetExpiryStatus(now + MsPerDay, now).caption == Literal("Expires in 1 day(s)")
    ensures GetExpiryStatus(now + 7 * MsPerDay, now).status == Expiring
    ensures GetExpiryStatus(now + 8 * MsPerDay, now).status == Fresh
  {
    ClassifyDaysAhead(now, -1);
    ClassifyDaysAhead(now, 0);
    ClassifyDaysAhead(now, 1);
    ClassifyDaysAhead(now, 7);
    ClassifyDaysAhead(now, 8);
    assert Text.Decimal(0) == "0";
    assert Text.Decimal(1) == "1";
  }

  /** Orders the statuses from most to least urgent. */
  function Urgency(s: Status): nat
  {
    match s
    case Expired => 0
    case Expiring => 1
    case Fresh => 2
  }

  /** A later expiry never gives a more urgent status. */
  lemma StatusMonotone(e1: Instant, e2: Instant, now: Instant)
    requires e1 <= e2
    ensures Urgency(GetExpiryStatus(e1, now).status) <= Urgency(GetExpiryStatus(e2, now).status)
  {
    DayOfMonotone(e1, e2);
  }

  /** Two results have the same colour exactly when they have the same status. */
  lemma ColorByStatusAlone(e1: Instant, n1: Instant, e2: Instant, n2: Instant)
    ensures GetExpiryStatus(e1, n1).color == GetExpiryStatus(e2, n2).color
        <==> GetExpiryStatus(e1, n1).status == GetExpiryStatus(e2, n2).status
  {
    assert |ColorOf(Expired)| != |ColorOf(Expiring)| && |ColorOf(Expired)| != |ColorOf(Fresh)|;
    assert |ColorOf(Expiring)| != |ColorOf(Fresh)|;
  }

  /** An entry with its status attached (`{...item, status}`). */
  datatype ItemWithStatus = ItemWithStatus(item: Entry, status: ExpiryStatus)

  /** `items.map(item => ({...item, status: getExpiryStatus(item.expiryDate, now)}))`. */
  function AttachStatus(items: seq<Entry>, now: Instant): (r: seq<ItemWithStatus>)
    ensures |r| == |items|
    ensures forall i :: 0 <= i < |r| ==> r[i].item == items[i] && r[i].status == GetExpiryStatus(items[i].expiry, now)
  {
    seq(|items|, i requires 0 <= i < |items| => ItemWithStatus(items[i], GetExpiryStatus(items[i].expiry, now)))
  }

  /** The sort key `a.status.days`. */
  function DaysOf(x: ItemWithStatus): int
  {
    x.status.days
  }

  /** The sort key `a.expiryDate.getTime()`. */
  function ItemExpiry(x: ItemWithStatus): int
  {
    x.item.expiry
  }
}
