/**
 Swapping one feed's stored domain set for a new one: upserts in batches, then a purge of everything
 an older sync left behind. Several feeds share the collection, and a document's key joins its feed
 and its domain with a colon.
 */
module FeedSwap {
  import opened Prelude

  type Time = int

  const BULK_BATCH := 5000

  datatype Entry = Entry(feed: string, domain: string, syncedAt: Time)

  type Store = map<string, Entry>

  function Key(feed: string, domain: string): string { feed + ":" + domain }

  function Keys(feed: string, domains: set<string>): set<string> { set d | d in domains :: Key(feed, d) }

  function DomainsOf(store: Store, feed: string): set<string> {
    set k | k in store && store[k].feed == feed :: store[k].domain
  }

  ghost predicate WellKeyed(store: Store) {
    forall k :: k in store ==> k == Key(store[k].feed, store[k].domain)
  }

  // ----- The specification -----

  /** The usable domains of an upstream list: canonical forms, the empty one dropped. */
  function Usable(canon: string -> string, raws: seq<string>): set<string> {
    set raw | raw in raws && canon(raw) != "" :: canon(raw)
  }

  lemma KeySplits(feed: string, domain: string)
    ensures |Key(feed, domain)| > |feed| && Key(feed, domain)[|feed| + 1..] == domain
  {
  }

  function DomainAt(feed: string, k: string): string {
    if |k| > |feed| then k[|feed| + 1..] else ""
  }

  /** The store with some of the feed's domains stamped. */
  function Stamped(store: Store, feed: string, domains: set<string>, now: Time): Store {
    map k | k in store.Keys + Keys(feed, domains) ::
      if k in Keys(feed, domains) then Entry(feed, DomainAt(feed, k), now) else store[k]
  }

  predicate IsStale(e: Entry, feed: string, now: Time) { e.feed == feed && e.syncedAt < now }

  function Purged(store: Store, feed: string, now: Time): Store {
    map k | k in store && !IsStale(store[k], feed, now) :: store[k]
  }

  function Swap(store: Store, feed: string, domains: set<string>, now: Time): Store {
    if domains == {} then store else Purged(Stamped(store, feed, domains, now), feed, now)
  }

  // ----- What a swap does -----

  /** The feed ends with exactly the new set iff the clock is newer than everything it replaces. */
  lemma SwapIsExactIff(store: Store, feed: string, domains: set<string>, now: Time)
    requires WellKeyed(store) && domains != {}
    ensures WellKeyed(Swap(store, feed, domains, now))
    ensures DomainsOf(Swap(store, feed, domains, now), feed) == domains <==>
              forall k :: k in store && store[k].feed == feed && store[k].domain !in domains ==> store[k].syncedAt < now
  {
    var after := Swap(store, feed, domains, now);
    forall d | d in domains
      ensures Key(feed, d) in after && after[Key(feed, d)] == Entry(feed, d, now)
    {
      KeySplits(feed, d);
      assert Key(feed, d) in Keys(feed, domains);
    }
    forall k | k in after ensures k == Key(after[k].feed, after[k].domain) {
      if k in Keys(feed, domains) {
        var d :| d in domains && k == Key(feed, d);
      }
    }
    forall k | k in store && store[k].feed == feed && store[k].domain !in domains
      ensures k in after <==> store[k].syncedAt >= now
      ensures k in after ==> after[k] == store[k]
    {
      KeySplits(feed, store[k].domain);
      forall d | d in domains ensures Key(feed, d) != k {
        KeySplits(feed, d);
      }
    }
    assert domains <= DomainsOf(after, feed) by {
      forall d | d in domains ensures d in DomainsOf(after, feed) {
        assert after[Key(feed, d)].feed == feed;
      }
    }
    forall d | d in DomainsOf(after, feed) && d !in domains
      ensures exists k :: k in store && store[k].feed == feed && store[k].domain == d && store[k].syncedAt >= now
    {
      var k :| k in after && after[k].feed == feed && after[k].domain == d;
      assert k !in Keys(feed, domains);
    }
    if k :| k in store && store[k].feed == feed && store[k].domain !in domains && store[k].syncedAt >= now {
      assert k in after && store[k].domain in DomainsOf(after, feed);
    }
  }

  /** A swap leaves the other feeds alone iff none of their documents sits at a key it writes. */
  lemma OtherFeedsUntouchedIff(store: Store, feed: string, domains: set<string>, now: Time)
    ensures (forall k :: k in store && store[k].feed != feed ==>
               k in Swap(store, feed, domains, now) && Swap(store, feed, domains, now)[k] == store[k])
            <==> (forall k :: k in store && store[k].feed != feed ==> k !in Keys(feed, domains))
  {
    var after := Swap(store, feed, domains, now);
    forall k | k in store && store[k].feed != feed
      ensures (k in after && after[k] == store[k]) <==> k !in Keys(feed, domains)
    {
    }
  }

  /** Feed names without a colon, such as every name in use, keep their keys apart. */
  lemma ColonFreeFeedsNeverCollide(feed: string, other: string, d: string, e: string)
    requires ':' !in feed && ':' !in other && feed != other
    ensures Key(feed, d) != Key(other, e)
  {
    var a, b := Key(feed, d), Key(other, e);
    if |feed| < |other| {
      assert a[|feed|] == ':' && b[|feed|] == other[|feed|];
    } else if |other| < |feed| {
      assert b[|other|] == ':' && a[|other|] == feed[|other|];
    } else {
      assert a[..|feed|] == feed && b[..|other|] == other;
    }
  }

  /** A name with a colon can collide: the two parts of a key are not recoverable from it. */
  lemma FeedNamesWithColonsCollide(feed: string, other: string, d: string)
    ensures Key(feed + ":" + other, d) == Key(feed, other + ":" + d)
  {
  }

  /** At no instant is a domain of both the old and the new set missing: not while any part of the
      upserts has been applied, nor while any part of the purge has. */
  lemma NoGap(store: Store, feed: string, domains: set<string>, written: set<string>, now: Time, d: string, left: set<string>)
    requires WellKeyed(store) && written <= domains && d in DomainsOf(store, feed) && d in domains
    requires forall k :: k in left ==>
               k in Stamped(store, feed, domains, now) && IsStale(Stamped(store, feed, domains, now)[k], feed, now)
    ensures Key(feed, d) in Stamped(store, feed, written, now)
    ensures Key(feed, d) in Stamped(store, feed, domains, now) - left
  {
    KeySplits(feed, d);
    assert Key(feed, d) in Keys(feed, domains);
  }

  // ----- The repository -----

  function CountUsable(canon: string -> string, raws: seq<string>): nat {
    if raws == [] then 0
    else CountUsable(canon, raws[..|raws| - 1]) + (if canon(raws[|raws| - 1]) != "" then 1 else 0)
  }

  class FeedDomainRepository {
    var store: Store

    constructor (store: Store)
      ensures this.store == store
    {
      this.store := store;
    }

    /** One unordered bulk write of upserts. */
    method BulkWrite(feed: string, batch: seq<string>, now: Time)
      modifies this
      ensures store == Stamped(old(store), feed, Members(batch), now)
    {
      ghost var before := store;
      assert Stamped(before, feed, {}, now) == before;
      for i := 0 to |batch|
        invariant store == Stamped(before, feed, Members(batch[..i]), now)
      {
        KeySplits(feed, batch[i]);
        assert batch[..i + 1] == batch[..i] + [batch[i]];
        StampOneMore(before, feed, Members(batch[..i]), batch[i], now);
        assert Members(batch[..i + 1]) == Members(batch[..i]) + {batch[i]};
        store := store[Key(feed, batch[i]) := Entry(feed, batch[i], now)];
      }
      assert batch[..|batch|] == batch;
    }

    /** Send the batch, if there is anything in it, and show the store it leaves. */
    method Flush(feed: string, batch: seq<string>, now: Time, ghost before: Store, ghost written: set<string>, ghost trail: seq<Store>)
      returns (ghost longer: seq<Store>)
      requires |batch| <= BULK_BATCH && store == Stamped(before, feed, written, now)
      requires ShowsEveryBatch(trail, before, store, feed, now)
      modifies this
      ensures store == Stamped(before, feed, written + Members(batch), now)
      ensures ShowsEveryBatch(longer, before, store, feed, now)
    {
      ghost var at := store;
      if batch != [] {
        BulkWrite(feed, batch, now);
        StampTwice(before, feed, written, Members(batch), now);
      } else {
        assert written + Members(batch) == written;
        assert Members(batch) == {} && Stamped(store, feed, {}, now) == store;
      }
      longer := trail + [store];
      AppendBatch(trail, before, at, store, feed, now, batch);
    }

    /** Purge what an older sync left behind. */
    method Purge(feed: string, now: Time) returns (purged: nat)
      modifies this
      ensures store == Purged(old(store), feed, now) && purged == |Stale(old(store), feed, now)|
    {
      var stale := Stale(store, feed, now);
      purged := |stale|;
      store := map k | k in store && k !in stale :: store[k];
    }

    /** Swap the feed's set to exactly the usable domains; `trail` shows the store after every batch.
        An empty upstream list changes nothing; otherwise the documents that go are counted. */
    method ReplaceFeed(canon: string -> string, feed: string, raws: seq<string>, now: Time)
      returns (kept: nat, purged: nat, newDomains: set<string>, ghost trail: seq<Store>)
      modifies this
      ensures store == Swap(old(store), feed, Usable(canon, raws), now)
      ensures kept == CountUsable(canon, raws)
      ensures newDomains == Usable(canon, raws) - DomainsOf(old(store), feed)
      ensures kept == |set i | 0 <= i < |raws| && canon(raws[i]) != ""|
      ensures purged == |set k | k in old(store) && k !in store|
      ensures kept == 0 ==> store == old(store)
      ensures WellKeyed(old(store)) ==> GapFree(trail, old(store), feed)
      ensures ShowsEveryBatch(trail, old(store), Stamped(old(store), feed, Usable(canon, raws), now), feed, now)
    {
      ghost var before := store;
      newDomains, kept, trail := StampAll(canon, feed, raws, now);
      ghost var stamped := store;
      CountUsableIsZero(canon, raws);
      UsablesCounted(canon, raws);
      PurgedWereThere(before, feed, Usable(canon, raws), now);
      purged := 0;
      if kept > 0 {
        purged := Purge(feed, now);
      } else {
        assert Stamped(before, feed, {}, now) == before;
      }
      if WellKeyed(before) {
        BatchesAreStamps(trail, before, stamped, feed, now);
        StampsLeaveNoGap(before, feed, now, trail);
      }
    }

    /** The batched upserts. */
    method StampAll(canon: string -> string, feed: string, raws: seq<string>, now: Time)
      returns (newDomains: set<string>, kept: nat, ghost trail: seq<Store>)
      modifies this
      ensures store == Stamped(old(store), feed, Usable(canon, raws), now)
      ensures kept == CountUsable(canon, raws)
      ensures newDomains == Usable(canon, raws) - DomainsOf(old(store), feed)
      ensures ShowsEveryBatch(trail, old(store), store, feed, now)
    {
      var existing := DomainsOf(store, feed);
      ghost var before := store;
      kept, newDomains := 0, {};
      var batch: seq<string> := [];
      ghost var written: set<string> := {};
      trail := [];
      assert Stamped(before, feed, {}, now) == before;
      for i := 0 to |raws|
        invariant kept == CountUsable(canon, raws[..i])
        invariant newDomains == (written + Members(batch)) - existing
        invariant Usable(canon, raws[..i]) == written + Members(batch)
        invariant store == Stamped(before, feed, written, now)
        invariant ShowsEveryBatch(trail, before, store, feed, now)
        invariant |batch| < BULK_BATCH
      {
        UsableStep(canon, raws, i);
        var domain := canon(raws[i]);
        if domain != "" {
          kept := kept + 1;
          if domain !in existing {
            newDomains := newDomains + {domain};
          }
          assert Members(batch + [domain]) == Members(batch) + {domain};
          batch := batch + [domain];
          if |batch| >= BULK_BATCH {
            trail := Flush(feed, batch, now, before, written, trail);
            written := written + Members(batch);
            batch := [];
          }
        }
      }
      assert raws[..|raws|] == raws;
      trail := Flush(feed, batch, now, before, written, trail);
    }
  }

  function Stale(store: Store, feed: string, now: Time): set<string> {
    set k | k in store && IsStale(store[k], feed, now)
  }

  /** From `before` to `last` by one batch of upserts at a time, each of whose stores is in the trail. */
  ghost predicate ShowsEveryBatch(trail: seq<Store>, before: Store, last: Store, feed: string, now: Time) {
    if trail == [] then last == before
    else
      var n := |trail| - 1;
      && last == trail[n]
      && exists at :: OneBatchApart(at, last, feed, now) && ShowsEveryBatch(trail[..n], before, at, feed, now)
  }

  ghost predicate OneBatchApart(s: Store, after: Store, feed: string, now: Time) {
    exists written :: |written| <= BULK_BATCH && after == Stamped(s, feed, written, now)
  }

  lemma {:induction false} MembersAtMost(batch: seq<string>)
    ensures |Members(batch)| <= |batch|
  {
    if batch != [] {
      var init, last := batch[..|batch| - 1], batch[|batch| - 1];
      MembersAtMost(init);
      assert batch == init + [last];
      assert Members(batch) == Members(init) + {last};
    }
  }

  lemma AppendBatch(trail: seq<Store>, before: Store, at: Store, after: Store, feed: string, now: Time, batch: seq<string>)
    requires ShowsEveryBatch(trail, before, at, feed, now)
    requires |batch| <= BULK_BATCH && after == Stamped(at, feed, Members(batch), now)
    ensures ShowsEveryBatch(trail + [after], before, after, feed, now)
  {
    MembersAtMost(batch);
    assert OneBatchApart(at, after, feed, now);
    assert (trail + [after])[..|trail|] == trail;
  }

  ghost predicate IsStamp(s: Store, before: Store, feed: string, now: Time) {
    exists written :: s == Stamped(before, feed, written, now)
  }

  lemma OneBatchMore(before: Store, at: Store, after: Store, feed: string, now: Time)
    requires IsStamp(at, before, feed, now) && OneBatchApart(at, after, feed, now)
    ensures IsStamp(after, before, feed, now)
  {
    var w :| at == Stamped(before, feed, w, now);
    var more :| after == Stamped(at, feed, more, now);
    StampTwice(before, feed, w, more, now);
  }

  /** So every store of the trail is the first one with some of the new domains stamped. */
  lemma {:induction false} BatchesAreStamps(trail: seq<Store>, before: Store, last: Store, feed: string, now: Time)
    requires ShowsEveryBatch(trail, before, last, feed, now)
    ensures AreStamps(trail, before, feed, now) && IsStamp(last, before, feed, now)
    decreases |trail|
  {
    if trail == [] {
      assert before == Stamped(before, feed, {}, now);
    } else {
      var n := |trail| - 1;
      var at :| OneBatchApart(at, last, feed, now) && ShowsEveryBatch(trail[..n], before, at, feed, now);
      BatchesAreStamps(trail[..n], before, at, feed, now);
      OneBatchMore(before, at, last, feed, now);
      assert forall i :: 0 <= i < n ==> trail[..n][i] == trail[i];
    }
  }

  function UsableAt(canon: string -> string, raws: seq<string>, n: nat): set<nat>
    requires n <= |raws|
  {
    set i: nat | i < n && canon(raws[i]) != ""
  }

  lemma {:induction false} CountUsableCounts(canon: string -> string, raws: seq<string>, n: nat)
    requires n <= |raws|
    ensures CountUsable(canon, raws[..n]) == |UsableAt(canon, raws, n)|
  {
    if n > 0 {
      CountUsableCounts(canon, raws, n - 1);
      assert raws[..n][..n - 1] == raws[..n - 1];
      assert UsableAt(canon, raws, n) == UsableAt(canon, raws, n - 1) + if canon(raws[n - 1]) != "" then {n - 1} else {};
    }
  }

  lemma UsablesCounted(canon: string -> string, raws: seq<string>)
    ensures CountUsable(canon, raws) == |set i | 0 <= i < |raws| && canon(raws[i]) != ""|
  {
    CountUsableCounts(canon, raws, |raws|);
    assert raws[..|raws|] == raws;
    assert UsableAt(canon, raws, |raws|) == set i | 0 <= i < |raws| && canon(raws[i]) != "";
  }

  /** What is purged was there before the swap: nothing just stamped is stale. */
  lemma PurgedWereThere(store: Store, feed: string, domains: set<string>, now: Time)
    ensures Stale(Stamped(store, feed, domains, now), feed, now)
            == set k | k in store && k !in Purged(Stamped(store, feed, domains, now), feed, now)
  {
  }

  ghost predicate AreStamps(trail: seq<Store>, before: Store, feed: string, now: Time) {
    forall i :: 0 <= i < |trail| ==> IsStamp(trail[i], before, feed, now)
  }

  /** Nothing the feed had is missing from any store of the trail. */
  ghost predicate GapFree(trail: seq<Store>, before: Store, feed: string) {
    forall i, d :: 0 <= i < |trail| && d in DomainsOf(before, feed) ==> Key(feed, d) in trail[i]
  }

  lemma StampsLeaveNoGap(before: Store, feed: string, now: Time, trail: seq<Store>)
    requires WellKeyed(before) && AreStamps(trail, before, feed, now)
    ensures GapFree(trail, before, feed)
  {
    forall i, d | 0 <= i < |trail| && d in DomainsOf(before, feed) ensures Key(feed, d) in trail[i] {
      assert IsStamp(trail[i], before, feed, now);
      var w :| trail[i] == Stamped(before, feed, w, now);
      var k :| k in before && before[k].feed == feed && before[k].domain == d;
    }
  }

  lemma UsableStep(canon: string -> string, raws: seq<string>, i: nat)
    requires i < |raws|
    ensures CountUsable(canon, raws[..i + 1]) == CountUsable(canon, raws[..i]) + (if canon(raws[i]) != "" then 1 else 0)
    ensures Usable(canon, raws[..i + 1]) == Usable(canon, raws[..i]) + (if canon(raws[i]) != "" then {canon(raws[i])} else {})
  {
    assert raws[..i + 1][..i] == raws[..i] && raws[..i + 1] == raws[..i] + [raws[i]];
  }

  lemma StampOneMore(store: Store, feed: string, domains: set<string>, d: string, now: Time)
    ensures Stamped(store, feed, domains + {d}, now) == Stamped(store, feed, domains, now)[Key(feed, d) := Entry(feed, d, now)]
  {
    KeySplits(feed, d);
    assert Keys(feed, domains + {d}) == Keys(feed, domains) + {Key(feed, d)};
  }

  lemma StampTwice(store: Store, feed: string, domains: set<string>, more: set<string>, now: Time)
    ensures Stamped(Stamped(store, feed, domains, now), feed, more, now) == Stamped(store, feed, domains + more, now)
  {
    assert Keys(feed, domains + more) == Keys(feed, domains) + Keys(feed, more);
  }

  lemma {:induction false} CountUsableIsZero(canon: string -> string, raws: seq<string>)
    ensures CountUsable(canon, raws) == 0 <==> Usable(canon, raws) == {}
  {
    if raws != [] {
      var init, last := raws[..|raws| - 1], raws[|raws| - 1];
      CountUsableIsZero(canon, init);
      assert raws == init + [last];
      assert Usable(canon, raws) == Usable(canon, init) + (if canon(last) != "" then {canon(last)} else {});
    }
  }
}
