/**
 * The expiry alerts of src/components/sheet-sync/notifications-popover.tsx:
 * every expiring or expired entry, most urgent first, and the bell badge
 * that shows how many there are. Before the component has mounted on the
 * client (`isClient` false) the feed is empty.
 */
module Notifications {
  import opened Dates
  import opened Types
  import opened Expiry
  import Dashboard
  import Seqs

  /** `item.status.status === 'expiring' || item.status.status === 'expired'`. */
  predicate IsAlert(x: ItemWithStatus)
  {
    x.status.status == Expiring || x.status.status == Expired
  }

  /** `expiringItems`: the alerting entries, stably sorted by days until expiry. */
  function ExpiringItems(allItems: seq<Entry>, now: Instant, isClient: bool): (r: seq<ItemWithStatus>)
    ensures |r| <= |allItems|
    ensures !isClient ==> r == []
    ensures Seqs.Sorted(r, DaysOf)
  {
    if !isClient then [] else Seqs.SortBy(Seqs.Filter(AttachStatus(allItems, now), IsAlert), DaysOf)
  }

  /** `showBadge`: on the client, when there is at least one alert. */
  function ShowBadge(isClient: bool, expiringItems: seq<ItemWithStatus>): (r: bool)
    ensures r ==> isClient && BadgeCount(expiringItems) >= 1
    ensures !isClient ==> !r
  {
    isClient && |expiringItems| > 0
  }

  /** The number on the badge. */
  function BadgeCount(expiringItems: seq<ItemWithStatus>): (n: nat)
    ensures n == 0 <==> expiringItems == []
  {
    |expiringItems|
  }

  /** On the client an entry is in the feed exactly when its expiry day is at most seven days ahead. */
  lemma {:induction false} FeedMembership(allItems: seq<Entry>, now: Instant, k: nat)
    requires k < |allItems|
    ensures AttachStatus(allItems, now)[k] in ExpiringItems(allItems, now, true)
        <==> DayOf(allItems[k].expiry) - DayOf(now) <= ExpiringWindow
  {
    var w := AttachStatus(allItems, now);
    Seqs.FilterMember(w, IsAlert, k);
    Seqs.SortByMember(Seqs.Filter(w, IsAlert), DaysOf, w[k]);
  }

  /**
   * The feed holds the alerting entries, each as often as in the input and
   * with the status of its own expiry, and entries due on the same day keep
   * their input order.
   */
  lemma FeedContents(allItems: seq<Entry>, now: Instant)
    ensures multiset(ExpiringItems(allItems, now, true)) == multiset(Seqs.Filter(AttachStatus(allItems, now), IsAlert))
    ensures forall i :: 0 <= i < |ExpiringItems(allItems, now, true)| ==>
      var x := ExpiringItems(allItems, now, true)[i];
      x.item in allItems && x.status == GetExpiryStatus(x.item.expiry, now) && DaysOf(x) <= ExpiringWindow
    ensures forall d :: Seqs.WithKey(ExpiringItems(allItems, now, true), DaysOf, d)
                     == Seqs.WithKey(Seqs.Filter(AttachStatus(allItems, now), IsAlert), DaysOf, d)
  {
    var w := AttachStatus(allItems, now);
    var f := Seqs.Filter(w, IsAlert);
    var r := ExpiringItems(allItems, now, true);
    forall i | 0 <= i < |r|
      ensures r[i].item in allItems && r[i].status == GetExpiryStatus(r[i].item.expiry, now) && DaysOf(r[i]) <= ExpiringWindow
    {
      assert r[i] in multiset(f);
      assert r[i] in f;
      var j :| 0 <= j < |w| && w[j] == r[i];
    }
    forall d ensures Seqs.WithKey(r, DaysOf, d) == Seqs.WithKey(f, DaysOf, d) {
      Seqs.SortByStable(f, DaysOf, d);
    }
  }

  /**
   * The popover and the dashboard agree: the dashboard list is the first five
   * alerts, and the badge number is the sum of the dashboard's two counters.
   */
  lemma FeedMatchesDashboard(allItems: seq<Entry>, now: Instant, isClient: bool)
    ensures Dashboard.NeedsAttention(allItems, now, isClient) == Seqs.Take(ExpiringItems(allItems, now, isClient), 5)
    ensures BadgeCount(ExpiringItems(allItems, now, isClient))
         == Dashboard.GetStats(allItems, now, isClient).expiringSoon + Dashboard.GetStats(allItems, now, isClient).expired
  {
    if isClient {
      var w := AttachStatus(allItems, now);
      Seqs.FilterSame(w, Dashboard.NotFresh, IsAlert);
      Dashboard.CountsBounded(w);
      Seqs.FilterCount(w, Dashboard.NotFresh);
    }
  }

  /** The badge shows exactly when, on the client, some entry expires within the window or has expired. */
  lemma BadgeShown(allItems: seq<Entry>, now: Instant, isClient: bool)
    ensures ShowBadge(isClient, ExpiringItems(allItems, now, isClient))
        <==> isClient && exists k :: 0 <= k < |allItems| && DayOf(allItems[k].expiry) - DayOf(now) <= ExpiringWindow
  {
    if isClient {
      var r := ExpiringItems(allItems, now, true);
      if |r| > 0 {
        FeedContents(allItems, now);
        var x := r[0];
        var k :| 0 <= k < |allItems| && allItems[k] == x.item;
        assert DaysOf(x) == DayOf(allItems[k].expiry) - DayOf(now);
      }
      forall k | 0 <= k < |allItems| && DayOf(allItems[k].expiry) - DayOf(now) <= ExpiringWindow
        ensures |r| > 0
      {
        FeedMembership(allItems, now, k);
      }
    }
  }
}
