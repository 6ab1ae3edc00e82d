/**
 What erasure and safety enforcement, interleaved in any order, make of one link: a link meets blocks,
 unblocks, scrubs and deletes, owner-wide or of its domain alike, and these lemmas say exactly which
 sequences of them it survives, blocked or not, with or without its personal data.
 */
module LinkFate {

  /** A stored link, as far as erasure is concerned. */
  datatype Life = Gone | Lives(blocked: bool, pii: bool)

  datatype Touch = Blocks | Unblocks | Scrubs | Deletes | Passes

  function Meet(life: Life, t: Touch): Life {
    if life.Gone? then Gone
    else match t
      case Blocks => life.(blocked := true)
      case Unblocks => life.(blocked := false)
      case Scrubs => if life.blocked then life.(pii := false) else life
      case Deletes => if life.blocked then life else Gone
      case Passes => life
  }

  function LifeAfter(life: Life, ts: seq<Touch>, n: nat): Life
    requires n <= |ts|
  {
    if n == 0 then life else Meet(LifeAfter(life, ts, n - 1), ts[n - 1])
  }

  lemma {:induction false} LifeFromTheFront(life: Life, ts: seq<Touch>, n: nat)
    requires 0 < n <= |ts|
    ensures LifeAfter(life, ts, n) == LifeAfter(Meet(life, ts[0]), ts[1..], n - 1)
  {
    if n > 1 {
      LifeFromTheFront(life, ts, n - 1);
    }
  }

  lemma {:induction false} GoneStaysGone(ts: seq<Touch>, n: nat)
    requires n <= |ts|
    ensures LifeAfter(Gone, ts, n) == Gone
  {
    if n > 0 {
      GoneStaysGone(ts, n - 1);
    }
  }

  // ----- Conditions on the touches alone -----

  /** Whether enforcement has the link blocked before touch `k`. */
  function BlockedAt(blocked: bool, ts: seq<Touch>, k: nat): bool
    requires k <= |ts|
  {
    if k == 0 then blocked
    else match ts[k - 1]
      case Blocks => true
      case Unblocks => false
      case _ => BlockedAt(blocked, ts, k - 1)
  }

  /** Blocked at every delete. */
  predicate Outlives(blocked: bool, ts: seq<Touch>, n: nat)
    requires n <= |ts|
  {
    forall k: nat :: k < n && ts[k] == Deletes ==> BlockedAt(blocked, ts, k)
  }

  /** Not blocked at any scrub. */
  predicate EscapesScrubs(blocked: bool, ts: seq<Touch>, n: nat)
    requires n <= |ts|
  {
    forall k: nat :: k < n && ts[k] == Scrubs ==> !BlockedAt(blocked, ts, k)
  }

  /** A link survives iff it is blocked at every delete that reaches it; it is then blocked iff the last
      enforcement says so; and it keeps its personal data iff it had some and escaped every scrub. */
  lemma {:induction false} FateIff(blocked: bool, pii: bool, ts: seq<Touch>, n: nat)
    requires n <= |ts|
    ensures var end := LifeAfter(Lives(blocked, pii), ts, n);
      && (end.Lives? <==> Outlives(blocked, ts, n))
      && (end.Lives? ==> end.blocked == BlockedAt(blocked, ts, n))
      && (end.Lives? ==> (end.pii <==> pii && EscapesScrubs(blocked, ts, n)))
  {
    if n > 0 {
      FateIff(blocked, pii, ts, n - 1);
    }
  }

  lemma {:induction false} LastUnblock(blocked: bool, ts: seq<Touch>, d: nat, n: nat) returns (k: nat)
    requires d <= n <= |ts| && BlockedAt(blocked, ts, d) && !BlockedAt(blocked, ts, n)
    ensures d <= k < n && ts[k] == Unblocks
    ensures forall j :: k < j < n ==> ts[j] != Blocks
    ensures forall j :: k < j <= n ==> !BlockedAt(blocked, ts, j)
    decreases n
  {
    if ts[n - 1] == Unblocks {
      k := n - 1;
    } else {
      k := LastUnblock(blocked, ts, d, n - 1);
    }
  }

  lemma {:induction false} StaysUnblocked(blocked: bool, ts: seq<Touch>, k: nat, n: nat)
    requires k < n <= |ts| && ts[k] == Unblocks
    requires forall j :: k < j < n ==> ts[j] != Blocks
    ensures !BlockedAt(blocked, ts, n)
    decreases n
  {
    if k + 1 < n {
      StaysUnblocked(blocked, ts, k, n - 1);
    }
  }

  /** The unblock is the last word on the link, and no delete comes after. */
  ghost predicate UnblockedForGood(ts: seq<Touch>, k: nat)
    requires k < |ts|
  {
    ts[k] == Unblocks && forall j :: k < j < |ts| ==> ts[j] != Blocks && ts[j] != Deletes
  }

  /** A survivor of at least one delete is not blocked in the end iff it was unblocked for good after
      the last delete that reached it. */
  lemma SurvivorIsUnblockedIff(blocked: bool, ts: seq<Touch>)
    requires Outlives(blocked, ts, |ts|) && Deletes in ts
    ensures !BlockedAt(blocked, ts, |ts|) <==> exists k :: 0 <= k < |ts| && UnblockedForGood(ts, k)
  {
    var d: nat :| d < |ts| && ts[d] == Deletes;
    if !BlockedAt(blocked, ts, |ts|) {
      var k := LastUnblock(blocked, ts, d, |ts|);
      assert UnblockedForGood(ts, k);
    }
    if k: nat :| k < |ts| && UnblockedForGood(ts, k) {
      StaysUnblocked(blocked, ts, k, |ts|);
    }
  }
}
