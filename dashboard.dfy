/**
 * The dashboard of src/components/sheet-sync/inventory-dashboard.tsx: the
 * two status counters and the list of at most five entries that need
 * attention, most urgent first. Before the component has mounted on the
 * client (`isClient` false) both show nothing.
 */
module Dashboard {
  import opened Dates
  import opened Types
  import opened Expiry
  import Seqs

  /** The counters `{ expiringSoon, expired }`. */
  datatype Stats = Stats(expiringSoon: nat, expired: nat)

  predicate IsExpiring(x: ItemWithStatus)
  {
    x.status.status == Expiring
  }

  predicate IsExpired(x: ItemWithStatus)
  {
    x.status.status == Expired
  }

  /** `item.status.status !== 'fresh'`. */
  predicate NotFresh(x: ItemWithStatus)
  {
    x.status.status != Fresh
  }

  /** `stats`: how many entries are expiring and how many have expired at `now`. */
  function GetStats(items: seq<Entry>, now: Instant, isClient: bool): (r: Stats)
    ensures r.expiringSoon + r.expired <= |items|
    ensures !isClient ==> r == Stats(0, 0)
  {
    if !isClient then Stats(0, 0)
    else
      var statuses := AttachStatus(items, now);
      CountsBounded(statuses);
      Stats(|Seqs.Filter(statuses, IsExpiring)|, |Seqs.Filter(statuses, IsExpired)|)
  }

  lemma {:induction false} CountsBounded(s: seq<ItemWithStatus>)
    ensures |Seqs.Filter(s, IsExpiring)| + |Seqs.Filter(s, IsExpired)| == Seqs.CountIf(s, NotFresh)
  {
    Seqs.FilterCount(s, IsExpiring);
    Seqs.FilterCount(s, IsExpired);
    CountsSplit(s);
  }

  lemma {:induction false} CountsSplit(s: seq<ItemWithStatus>)
    ensures Seqs.CountIf(s, IsExpiring) + Seqs.CountIf(s, IsExpired) == Seqs.CountIf(s, NotFresh)
  {
    if s != [] {
      CountsSplit(s[1..]);
    }
  }

  /** Reference count: entries whose expiry day is before today. */
  function ExpiredCount(items: seq<Entry>, now: Instant): nat
  {
    if items == [] then 0
    else (if DayOf(items[0].expiry) < DayOf(now) then 1 else 0) + ExpiredCount(items[1..], now)
  }

  /** Reference count: entries whose expiry day is today or one of the next seven. */
  function ExpiringCount(items: seq<Entry>, now: Instant): nat
  {
    if items == [] then 0
    else (if 0 <= DayOf(items[0].expiry) - DayOf(now) <= ExpiringWindow then 1 else 0)
         + ExpiringCount(items[1..], now)
  }

  /** Reference count: entries whose expiry day is more than seven days ahead. */
  function FreshCount(items: seq<Entry>, now: Instant): nat
  {
    if items == [] then 0
    else (if DayOf(items[0].expiry) - DayOf(now) > ExpiringWindow then 1 else 0) + FreshCount(items[1..], now)
  }

  /** Attaching statuses commutes with dropping the first entry. */
  lemma AttachStatusTail(items: seq<Entry>, now: Instant)
    requires items != []
    ensures AttachStatus(items, now)[1..] == AttachStatus(items[1..], now)
  {
  }

  lemma {:induction false} CountsMatchDays(items: seq<Entry>, now: Instant)
    ensures Seqs.CountIf(AttachStatus(items, now), IsExpired) == ExpiredCount(items, now)
    ensures Seqs.CountIf(AttachStatus(items, now), IsExpiring) == ExpiringCount(items, now)
  {
    if items != [] {
      AttachStatusTail(items, now);
      CountsMatchDays(items[1..], now);
    }
  }

  lemma {:induction false} DayCountsCover(items: seq<Entry>, now: Instant)
    ensures ExpiredCount(items, now) + ExpiringCount(items, now) + FreshCount(items, now) == |items|
  {
    if items != [] {
      DayCountsCover(items[1..], now);
    }
  }

  /**
   * On the client the counters are the numbers of entries expired before
   * today and expiring within the window, and together with the fresh
   * entries they account for every entry.
   */
  lemma StatsCountDays(items: seq<Entry>, now: Instant)
    ensures GetStats(items, now, true) == Stats(ExpiringCount(items, now), ExpiredCount(items, now))
    ensures GetStats(items, now, true).expiringSoon + GetStats(items, now, true).expired
            + FreshCount(items, now) == |items|
  {
    var w := AttachStatus(items, now);
    Seqs.FilterCount(w, IsExpiring);
    Seqs.FilterCount(w, IsExpired);
    CountsMatchDays(items, now);
    DayCountsCover(items, now);
  }

  /** The expiring and expired entries, stably sorted by days until expiry. */
  function AttentionCandidates(items: seq<Entry>, now: Instant): (r: seq<ItemWithStatus>)
    ensures |r| <= |items|
    ensures Seqs.Sorted(r, DaysOf)
    ensures forall i :: 0 <= i < |r| ==> r[i].status.status != Fresh
  {
    var f := Seqs.Filter(AttachStatus(items, now), NotFresh);
    var r := Seqs.SortBy(f, DaysOf);
    Seqs.SortByAll(f, DaysOf, NotFresh);
    r
  }

  /** `soonestExpiringItems`: the first five candidates. */
  function NeedsAttention(items: seq<Entry>, now: Instant, isClient: bool): (r: seq<ItemWithStatus>)
    ensures |r| <= 5
    ensures !isClient ==> r == []
    ensures isClient ==> r == Seqs.Take(AttentionCandidates(items, now), 5)
  {
    if !isClient then [] else Seqs.Take(AttentionCandidates(items, now), 5)
  }

  /** An entry is a candidate exactly when it is not fresh. */
  lemma {:induction false} CandidateMembership(items: seq<Entry>, now: Instant, k: nat)
    requires k < |items|
    ensures AttachStatus(items, now)[k] in AttentionCandidates(items, now)
        <==> DayOf(items[k].expiry) - DayOf(now) <= ExpiringWindow
  {
    var w := AttachStatus(items, now);
    Seqs.FilterMember(w, NotFresh, k);
    Seqs.SortByMember(Seqs.Filter(w, NotFresh), DaysOf, w[k]);
  }

  /** Every listed entry is an entry of the store that is not fresh, with the status of its own expiry. */
  lemma NeedsAttentionEntries(items: seq<Entry>, now: Instant)
    ensures forall i :: 0 <= i < |NeedsAttention(items, now, true)| ==>
      var x := NeedsAttention(items, now, true)[i];
      x.item in items && x.status == GetExpiryStatus(x.item.expiry, now) && x.status.status != Fresh
  {
    var w := AttachStatus(items, now);
    var f := Seqs.Filter(w, NotFresh);
    var c := AttentionCandidates(items, now);
    var r := NeedsAttention(items, now, true);
    forall i | 0 <= i < |r|
      ensures r[i].item in items && r[i].status == GetExpiryStatus(r[i].item.expiry, now) && r[i].status.status != Fresh
    {
      assert r[i] == c[i];
      assert c[i] in multiset(f);
      assert c[i] in f;
      var j :| 0 <= j < |w| && w[j] == c[i];
    }
  }

  /**
   * The list is most urgent first; it is the whole candidate list when
   * there are at most five candidates and five entries otherwise; and no
   * candidate left off the list is more urgent than one on it.
   */
  lemma NeedsAttentionTopFive(items: seq<Entry>, now: Instant)
    ensures Seqs.Sorted(NeedsAttention(items, now, true), DaysOf)
    ensures |AttentionCandidates(items, now)| <= 5 ==> NeedsAttention(items, now, true) == AttentionCandidates(items, now)
    ensures |AttentionCandidates(items, now)| > 5 ==> |NeedsAttention(items, now, true)| == 5
    ensures forall i, x :: 0 <= i < |NeedsAttention(items, now, true)| && x in AttentionCandidates(items, now)
                           && x !in NeedsAttention(items, now, true)
                           ==> DaysOf(NeedsAttention(items, now, true)[i]) <= DaysOf(x)
  {
    Seqs.TakeOfSorted(AttentionCandidates(items, now), DaysOf, 5);
  }

  /**
   * `items.length > 5`: the link to the full inventory. When it is hidden
   * the list already shows every expiring or expired entry.
   */
  function ShowViewAll(items: seq<Entry>): (r: bool)
    ensures !r ==> forall now: Instant :: NeedsAttention(items, now, true) == AttentionCandidates(items, now)
  {
    |items| > 5
  }
}
