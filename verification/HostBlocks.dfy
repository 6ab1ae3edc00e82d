/**
 Safety enforcement on links: host-wide blocks, host unblocks and per-alias blocks.

 A link routes to one main host and any number of secondary hosts. Blocking a host runs two
 sweeps over the collection (flip, then record the cause); unblocking runs two others (pull the
 cause, then reactivate). The functions give each sweep's effect on ONE document; the class runs
 the sweeps over the stored documents.

 The second sweep of a block is modelled as the code runs it: its filter is built from a
 dictionary in which the cause clause and the destination-host clause share one key, so the
 destination-host clause is lost and EVERY cause-tracked blocked link gains the host as a cause.
 */
module HostBlocks {
  import opened Prelude

  type Host = string

  datatype Status = Active | Inactive | Expired | Blocked

  /** `blocked_hosts` as stored: missing, null (a per-link block), or a list of causes. */
  datatype Causes = Absent | PerLink | Hosts(hosts: set<Host>)

  datatype Link = Link(
    alias: string,
    domain: string,
    status: Status,
    mainHost: Option<Host>,
    secondary: set<Host>,
    hasReason: bool,
    causes: Causes)

  function AllHosts(l: Link): set<Host> {
    l.secondary + (if l.mainHost.Some? then {l.mainHost.value} else {})
  }

  /** The destination-host filter: main host or any secondary host. */
  predicate Routes(l: Link, h: Host) {
    l.mainHost == Some(h) || h in l.secondary
  }

  /** A blocked link whose causes host blocks and unblocks maintain. */
  predicate Tracked(l: Link) {
    l.status == Blocked && l.hasReason && !l.causes.PerLink?
  }

  /** The causes a blocked link counts; before the list existed, its main host was the cause. */
  function Effective(l: Link): set<Host> {
    match l.causes
    case Hosts(s) => s
    case PerLink => {}
    case Absent => if l.mainHost.Some? then {l.mainHost.value} else {}
  }

  // ----- One document under each sweep -----

  function Flip(l: Link, h: Host): Link {
    if l.status == Active && Routes(l, h)
    then l.(status := Blocked, hasReason := true, causes := Hosts({h}))
    else l
  }

  function AddCause(l: Link, h: Host): Link {
    if Tracked(l) then l.(causes := Hosts(Effective(l) + {h})) else l
  }

  function Pull(l: Link, h: Host): Link {
    if l.status == Blocked && l.causes.Hosts? && h in l.causes.hosts
    then l.(causes := Hosts(l.causes.hosts - {h}))
    else l
  }

  function Reactivate(l: Link, h: Host): Link {
    if l.status == Blocked && l.hasReason
       && ((Routes(l, h) && l.causes == Hosts({})) || (l.causes.Absent? && l.mainHost == Some(h)))
    then l.(status := Active)
    else l
  }

  function BlockLink(l: Link, h: Host): Link { AddCause(Flip(l, h), h) }

  function UnblockLink(l: Link, h: Host): Link { Reactivate(Pull(l, h), h) }

  function BlockAlias(l: Link): Link {
    if l.status == Active then l.(status := Blocked, hasReason := true, causes := PerLink) else l
  }

  /** Blocked by itself: no run of host blocks and unblocks ever changes the link. */
  ghost predicate BlockedForItself(l: Link) {
    l.status == Blocked && l.hasReason && forall calls :: Run(l, calls) == l
  }

  /** The same link: all that enforcement leaves alone. */
  predicate SameLink(l: Link, k: Link) {
    l.alias == k.alias && l.domain == k.domain && l.mainHost == k.mainHost && l.secondary == k.secondary
  }

  /** A per-alias block of an ACTIVE link is out of reach of every host block and unblock. */
  lemma AliasBlockStands(l: Link)
    requires l.status == Active
    ensures BlockedForItself(BlockAlias(l)) && SameLink(l, BlockAlias(l))
  {
    forall calls ensures Run(BlockAlias(l), calls) == BlockAlias(l) {
      PerLinkBlockIsNeverTouched(BlockAlias(l), calls);
    }
  }

  // ----- The intended rule, and when one call keeps it -----

  /** The simple rule for a link these calls govern: BLOCKED iff one of its hosts is currently
      blocked, and then its causes are exactly those hosts. */
  predicate Exact(l: Link, blocked: set<Host>) {
    && (l.status == Active || Tracked(l))
    && (l.status == Blocked <==> AllHosts(l) * blocked != {})
    && (l.status == Blocked ==> Effective(l) == AllHosts(l) * blocked)
  }

  /** A complete host block keeps the rule for a link exactly when the link is not already blocked
      or routes to the host: a block of a host the link never routes to corrupts its causes. */
  lemma BlockKeepsExactIff(l: Link, blocked: set<Host>, h: Host)
    requires Exact(l, blocked)
    ensures Exact(BlockLink(l, h), blocked + {h})
            <==> (AllHosts(l) * blocked == {} || h in AllHosts(l))
  {
    var after := BlockLink(l, h);
    if h in AllHosts(l) {
      assert AllHosts(l) * (blocked + {h}) == AllHosts(l) * blocked + {h};
    } else {
      assert AllHosts(l) * (blocked + {h}) == AllHosts(l) * blocked;
      if l.status == Blocked {
        assert h in Effective(after) && h !in AllHosts(after);
      }
    }
  }

  lemma UnblockKeepsExact(l: Link, blocked: set<Host>, h: Host)
    requires Exact(l, blocked)
    ensures Exact(UnblockLink(l, h), blocked - {h})
  {
    assert AllHosts(l) * (blocked - {h}) == AllHosts(l) * blocked - {h};
    if l.status == Blocked {
      assert Effective(l) == AllHosts(l) * blocked;
      if l.causes.Hosts? && h !in l.causes.hosts {
        assert l.causes.hosts != {};
      }
    }
  }

  // ----- Runs of complete calls -----

  datatype Call = Block(host: Host) | Unblock(host: Host)

  function Apply(l: Link, c: Call): Link {
    match c
    case Block(h) => BlockLink(l, h)
    case Unblock(h) => UnblockLink(l, h)
  }

  function Verdicts(blocked: set<Host>, c: Call): set<Host> {
    match c
    case Block(h) => blocked + {h}
    case Unblock(h) => blocked - {h}
  }

  function Run(l: Link, calls: seq<Call>): Link
    decreases |calls|
  {
    if calls == [] then l else Run(Apply(l, calls[0]), calls[1..])
  }

  function RunVerdicts(blocked: set<Host>, calls: seq<Call>): set<Host>
    decreases |calls|
  {
    if calls == [] then blocked else RunVerdicts(Verdicts(blocked, calls[0]), calls[1..])
  }

  predicate ExactThroughout(l: Link, blocked: set<Host>, calls: seq<Call>)
    decreases |calls|
  {
    Exact(l, blocked)
    && (calls == [] || ExactThroughout(Apply(l, calls[0]), Verdicts(blocked, calls[0]), calls[1..]))
  }

  /** No host outside `hosts` is blocked while one of `hosts` is blocked. It speaks of the intended
      verdicts only, so a caller can check it before each call. */
  predicate NoForeignBlock(hosts: set<Host>, blocked: set<Host>, calls: seq<Call>)
    decreases |calls|
  {
    calls == []
    || (&& (calls[0].Block? ==> calls[0].host in hosts || hosts * blocked == {})
        && NoForeignBlock(hosts, Verdicts(blocked, calls[0]), calls[1..]))
  }

  /** The refinement holds at every point of a run iff the run has no foreign block. */
  lemma {:induction false} ExactThroughoutIff(l: Link, blocked: set<Host>, calls: seq<Call>)
    requires Exact(l, blocked)
    ensures ExactThroughout(l, blocked, calls) <==> NoForeignBlock(AllHosts(l), blocked, calls)
    decreases |calls|
  {
    if calls != [] {
      var next, verdicts := Apply(l, calls[0]), Verdicts(blocked, calls[0]);
      assert AllHosts(next) == AllHosts(l);
      match calls[0] {
        case Block(h) => BlockKeepsExactIff(l, blocked, h);
        case Unblock(h) => UnblockKeepsExact(l, blocked, h);
      }
      if Exact(next, verdicts) {
        ExactThroughoutIff(next, verdicts, calls[1..]);
      }
    }
  }

  /** What every run keeps, foreign blocks included: a link is never ACTIVE while one of its hosts
      is blocked, and it counts every such host, and only currently blocked hosts, as causes. */
  predicate Covered(l: Link, blocked: set<Host>) {
    && (l.status == Active || Tracked(l))
    && (l.status == Active ==> AllHosts(l) * blocked == {})
    && (l.status == Blocked ==> AllHosts(l) * blocked <= Effective(l) <= blocked)
  }

  lemma ApplyKeepsCovered(l: Link, blocked: set<Host>, c: Call)
    requires Covered(l, blocked)
    ensures Covered(Apply(l, c), Verdicts(blocked, c))
  {
    var h := c.host;
    if l.status == Blocked && c.Unblock? {
      assert AllHosts(l) * (blocked - {h}) == AllHosts(l) * blocked - {h};
      if l.causes.Absent? && l.mainHost != Some(h) {
        assert h !in Effective(l);
      }
    }
  }

  lemma {:induction false} NeverUnderBlocked(l: Link, blocked: set<Host>, calls: seq<Call>)
    requires Covered(l, blocked)
    ensures Covered(Run(l, calls), RunVerdicts(blocked, calls))
    ensures AllHosts(l) * RunVerdicts(blocked, calls) != {} ==> Run(l, calls).status == Blocked
    decreases |calls|
  {
    RunKeepsHosts(l, calls);
    if calls != [] {
      ApplyKeepsCovered(l, blocked, calls[0]);
      RunKeepsHosts(Apply(l, calls[0]), calls[1..]);
      NeverUnderBlocked(Apply(l, calls[0]), Verdicts(blocked, calls[0]), calls[1..]);
    }
  }

  lemma {:induction false} RunKeepsHosts(l: Link, calls: seq<Call>)
    ensures AllHosts(Run(l, calls)) == AllHosts(l)
    decreases |calls|
  {
    if calls != [] {
      assert AllHosts(Apply(l, calls[0])) == AllHosts(l);
      RunKeepsHosts(Apply(l, calls[0]), calls[1..]);
    }
  }

  /** Unblocking the last blocked host of a link brings it back iff it counts no other cause. */
  lemma LastUnblockReactivatesIff(l: Link, blocked: set<Host>, h: Host)
    requires Covered(l, blocked) && l.status == Blocked
    requires AllHosts(l) * blocked == {h}
    ensures UnblockLink(l, h).status == Active <==> Effective(l) == {h}
  {
    assert h in AllHosts(l) * blocked && h in Effective(l);
    assert Routes(l, h);
    if l.causes.Hosts? {
      assert l.causes.hosts - {h} == {} <==> l.causes.hosts == {h};
    }
  }

  /** A concrete run on which the simple rule fails for good: the link routes only to a.example,
      every block is undone, no host is blocked any more, and the link is still BLOCKED with an
      empty cause list. Both the block of b.example and its unblock concern other links only. */
  lemma UnblockingEveryHostCanStrandALink()
    ensures
      var l := Link("promo", "spoo.me", Active, Some("a.example"), {}, false, Absent);
      var calls := [Block("a.example"), Block("b.example"), Unblock("a.example"), Unblock("b.example")];
      && Exact(l, {})
      && RunVerdicts({}, calls) == {}
      && Run(l, calls) == l.(status := Blocked, hasReason := true, causes := Hosts({}))
  {
    var a: Host, b: Host := "a.example", "b.example";
    assert a[0] != b[0];
    var l := Link("promo", "spoo.me", Active, Some(a), {}, false, Absent);
    var c0, c1, c2, c3 := Block(a), Block(b), Unblock(a), Unblock(b);
    var calls := [c0, c1, c2, c3];
    assert calls[1..] == [c1, c2, c3] && calls[1..][1..] == [c2, c3];
    assert calls[1..][1..][1..] == [c3] && calls[1..][1..][1..][1..] == [];
    var l1 := Apply(l, c0);
    assert l1 == l.(status := Blocked, hasReason := true, causes := Hosts({a})) by {
      assert {a} + {a} == {a};
    }
    var l2 := Apply(l1, c1);
    assert l2 == l1.(causes := Hosts({a, b})) by { assert {a} + {b} == {a, b}; }
    var l3 := Apply(l2, c2);
    assert l3 == l1.(causes := Hosts({b})) by { assert {a, b} - {a} == {b}; }
    var l4 := Apply(l3, c3);
    assert l4 == l1.(causes := Hosts({})) by { assert {b} - {b} == {}; }
    calc {
      Run(l, calls);
      Run(l1, [c1, c2, c3]);
      Run(l2, [c2, c3]);
      Run(l3, [c3]);
      Run(l4, []);
    }
    var none: set<Host> := {};
    calc {
      RunVerdicts(none, calls);
      RunVerdicts(none + {a}, [c1, c2, c3]);
      RunVerdicts(none + {a} + {b}, [c2, c3]);
      RunVerdicts(none + {a} + {b} - {a}, [c3]);
      RunVerdicts(none + {a} + {b} - {a} - {b}, []);
    }
  }

  // ----- What is left at the end of a run -----

  /** The link after the first `n` calls. */
  function RunTo(l: Link, calls: seq<Call>, n: nat): Link
    requires n <= |calls|
  {
    if n == 0 then l else Apply(RunTo(l, calls, n - 1), calls[n - 1])
  }

  lemma {:induction false} RunFromTheFront(l: Link, calls: seq<Call>, n: nat)
    requires 0 < n <= |calls|
    ensures RunTo(l, calls, n) == RunTo(Apply(l, calls[0]), calls[1..], n - 1)
  {
    if n > 1 {
      RunFromTheFront(l, calls, n - 1);
    }
  }

  lemma {:induction false} RunIsRunTo(l: Link, calls: seq<Call>)
    ensures Run(l, calls) == RunTo(l, calls, |calls|)
    decreases |calls|
  {
    if calls != [] {
      RunFromTheFront(l, calls, |calls|);
      RunIsRunTo(Apply(l, calls[0]), calls[1..]);
    }
  }

  /** The hosts blocked by calls `k` to `n` and not unblocked again by then. */
  function Standing(calls: seq<Call>, k: nat, n: nat): set<Host>
    requires n <= |calls|
  {
    if n <= k then {}
    else match calls[n - 1]
      case Block(h) => Standing(calls, k, n - 1) + {h}
      case Unblock(h) => Standing(calls, k, n - 1) - {h}
  }

  /** Call `k` blocks one of the hosts, and whenever one of them is unblocked later, some host blocked
      since call `k` still stands. It speaks of the calls only. */
  ghost predicate HeldSince(hosts: set<Host>, calls: seq<Call>, k: nat, n: nat)
    requires n <= |calls|
  {
    && k < n && calls[k].Block? && calls[k].host in hosts
    && forall j :: k < j < n && calls[j].Unblock? && calls[j].host in hosts ==> Standing(calls, k, j + 1) != {}
  }

  /** Held since call `k`, the link is blocked, and everything that stands is among its causes. */
  lemma {:induction false} HeldLinkIsBlocked(l: Link, calls: seq<Call>, k: nat, n: nat)
    requires n <= |calls| && l.status == Active && HeldSince(AllHosts(l), calls, k, n)
    ensures AllHosts(RunTo(l, calls, n)) == AllHosts(l) && Tracked(RunTo(l, calls, n))
    ensures RunTo(l, calls, n).causes.Hosts? && Standing(calls, k, n) <= RunTo(l, calls, n).causes.hosts
    decreases n
  {
    var before := RunTo(l, calls, n - 1);
    ActiveOrTracked(l, calls, n - 1);
    if n - 1 > k {
      HeldLinkIsBlocked(l, calls, k, n - 1);
    }
  }

  /** A link that starts ACTIVE is ACTIVE or cause-tracked with an explicit list after any calls. */
  lemma {:induction false} ActiveOrTracked(l: Link, calls: seq<Call>, n: nat)
    requires n <= |calls| && l.status == Active
    ensures var r := RunTo(l, calls, n);
      AllHosts(r) == AllHosts(l) && (r.status == Active || (Tracked(r) && r.causes.Hosts?))
  {
    if n > 0 {
      ActiveOrTracked(l, calls, n - 1);
      ApplyKeepsHosts(RunTo(l, calls, n - 1), calls[n - 1]);
    }
  }

  lemma ApplyKeepsHosts(l: Link, c: Call)
    ensures AllHosts(Apply(l, c)) == AllHosts(l) && SameLink(l, Apply(l, c))
  {
  }

  /** A blocked link has been held since the call that flipped it, and what stands is its causes. */
  lemma {:induction false} BlockedLinkIsHeld(l: Link, calls: seq<Call>, n: nat) returns (k: nat)
    requires n <= |calls| && l.status == Active && RunTo(l, calls, n).status == Blocked
    ensures HeldSince(AllHosts(l), calls, k, n)
    ensures RunTo(l, calls, n).causes == Hosts(Standing(calls, k, n))
  {
    ActiveOrTracked(l, calls, n - 1);
    var before, c := RunTo(l, calls, n - 1), calls[n - 1];
    if before.status == Blocked {
      k := BlockedLinkIsHeld(l, calls, n - 1);
      var stand := Standing(calls, k, n - 1);
      if c.Unblock? && c.host !in stand {
        assert stand - {c.host} == stand;
      }
      if c.Unblock? && c.host in AllHosts(l) {
        assert Routes(before, c.host);
        assert Standing(calls, k, n) != {};
      }
    } else {
      k := n - 1;
      assert Standing(calls, k, n - 1) == {};
      assert {c.host} + {c.host} == {c.host};
    }
  }

  /** Over all runs: a link that starts ACTIVE ends BLOCKED iff it has been held since some call. With
      every own host unblocked at the end, that is exactly when it is stranded. */
  lemma EndsBlockedIff(l: Link, calls: seq<Call>)
    requires l.status == Active
    ensures Run(l, calls).status == Blocked <==> exists k :: 0 <= k < |calls| && HeldSince(AllHosts(l), calls, k, |calls|)
  {
    RunIsRunTo(l, calls);
    ActiveOrTracked(l, calls, |calls|);
    if Run(l, calls).status == Blocked {
      var k := BlockedLinkIsHeld(l, calls, |calls|);
    }
    if k :| 0 <= k < |calls| && HeldSince(AllHosts(l), calls, k, |calls|) {
      HeldLinkIsBlocked(l, calls, k, |calls|);
    }
  }

  /** Blocking and then unblocking a host no blocked link counts yet restores a link's status,
      unless the link is blocked with no cause left and routes to that host: that one comes back. */
  lemma FreshBlockThenUnblockRestoresStatusIff(l: Link, h: Host)
    requires Tracked(l) ==> h !in Effective(l)
    requires l.status == Blocked && l.causes.Hosts? ==> h !in l.causes.hosts
    ensures UnblockLink(BlockLink(l, h), h).status == l.status
            <==> !(Tracked(l) && Effective(l) == {} && Routes(l, h))
  {
    if Tracked(l) {
      assert Effective(l) + {h} - {h} == Effective(l);
    } else if l.status == Active && Routes(l, h) {
      assert {h} + {h} - {h} == {};
    }
  }

  /** A per-link block, and a manual ban that carries no reason and no cause list, are fixed points
      of every run of host blocks and unblocks. */
  lemma {:induction false} PerLinkBlockIsNeverTouched(l: Link, calls: seq<Call>)
    requires l.status == Blocked && (l.causes.PerLink? || (!l.hasReason && l.causes.Absent?))
    ensures Run(l, calls) == l
  {
    if calls != [] {
      assert Apply(l, calls[0]) == l;
      PerLinkBlockIsNeverTouched(l, calls[1..]);
    }
  }

  // ----- Concurrent blocks, interleaved document by document -----

  /** One block call meets one document twice: in its flip sweep, later in its cause sweep. */
  datatype Visit = FlipVisit(host: Host) | CauseVisit(host: Host)

  function Meet(l: Link, v: Visit): Link {
    match v
    case FlipVisit(h) => Flip(l, h)
    case CauseVisit(h) => AddCause(l, h)
  }

  function MeetAll(l: Link, visits: seq<Visit>): Link
    decreases |visits|
  {
    if visits == [] then l else MeetAll(Meet(l, visits[0]), visits[1..])
  }

  /** What the document sees of complete, possibly redelivered, blocks of exactly `hosts`: every
      host flips and later records, and no other host visits. */
  ghost predicate Complete(visits: seq<Visit>, hosts: set<Host>) {
    && (forall v :: v in visits ==> v.host in hosts)
    && (forall h :: h in hosts ==> FlipsThenRecords(visits, h))
  }

  /** Every cause visit belongs to a call that has already made its flip visit. */
  ghost predicate FlipsFirst(visits: seq<Visit>) {
    forall j :: 0 <= j < |visits| && visits[j].CauseVisit? ==> FlipVisit(visits[j].host) in visits[..j]
  }

  ghost predicate FlipsThenRecords(visits: seq<Visit>, h: Host) {
    exists i, j :: 0 <= i < j < |visits| && visits[i] == FlipVisit(h) && visits[j] == CauseVisit(h)
  }

  function Recorded(visits: seq<Visit>): set<Host> {
    set v | v in visits && v.CauseVisit? :: v.host
  }

  lemma {:induction false} TrackedLinkCollectsCauses(l: Link, visits: seq<Visit>)
    requires Tracked(l)
    ensures Tracked(MeetAll(l, visits))
    ensures Effective(MeetAll(l, visits)) == Effective(l) + Recorded(visits)
    ensures MeetAll(l, visits) == if Recorded(visits) == {} then l
                                  else l.(causes := Hosts(Effective(l) + Recorded(visits)))
    decreases |visits|
  {
    if visits != [] {
      var v := visits[0];
      TrackedLinkCollectsCauses(Meet(l, v), visits[1..]);
      assert visits == [v] + visits[1..];
      assert Recorded(visits) == Recorded(visits[1..]) + (if v.CauseVisit? then {v.host} else {});
    }
  }

  lemma {:induction false} UnroutedVisitsChangeNothing(l: Link, visits: seq<Visit>)
    requires l.status == Active
    requires forall v :: v in visits && v.FlipVisit? ==> !Routes(l, v.host)
    ensures MeetAll(l, visits) == l
  {
    if visits != [] {
      assert Meet(l, visits[0]) == l;
      UnroutedVisitsChangeNothing(l, visits[1..]);
    }
  }

  lemma {:induction false} UntrackedLinkIgnoresVisits(l: Link, visits: seq<Visit>)
    requires l.status != Active && !Tracked(l)
    ensures MeetAll(l, visits) == l
  {
    if visits != [] {
      UntrackedLinkIgnoresVisits(l, visits[1..]);
    }
  }

  lemma {:induction false} MeetAllConcat(l: Link, first: seq<Visit>, second: seq<Visit>)
    ensures MeetAll(l, first + second) == MeetAll(MeetAll(l, first), second)
    decreases |first|
  {
    if first == [] {
      assert first + second == second;
    } else {
      assert (first + second)[1..] == first[1..] + second;
      MeetAllConcat(Meet(l, first[0]), first[1..], second);
    }
  }

  /** An ACTIVE link that routes to a blocked host: the first routed flip decides, and every
      later cause visit adds to it. */
  lemma RoutedLinkIsBlocked(l: Link, visits: seq<Visit>) returns (first: nat)
    requires l.status == Active
    requires exists v :: v in visits && v.FlipVisit? && Routes(l, v.host)
    ensures first < |visits| && visits[first].FlipVisit? && Routes(l, visits[first].host)
    ensures forall i :: 0 <= i < first && visits[i].FlipVisit? ==> !Routes(l, visits[i].host)
    ensures MeetAll(l, visits)
            == l.(status := Blocked, hasReason := true,
                  causes := Hosts({visits[first].host} + Recorded(visits[first + 1..])))
  {
    first := FirstRoutedFlip(l, visits);
    var before, rest := visits[..first], visits[first + 1..];
    assert visits == before + ([visits[first]] + rest);
    UnroutedVisitsChangeNothing(l, before);
    MeetAllConcat(l, before, [visits[first]] + rest);
    assert ([visits[first]] + rest)[1..] == rest;
    var flipped := Flip(l, visits[first].host);
    TrackedLinkCollectsCauses(flipped, rest);
    assert {visits[first].host} + {} == {visits[first].host};
  }

  lemma {:induction false} FirstRoutedFlip(l: Link, visits: seq<Visit>) returns (first: nat)
    requires exists v :: v in visits && v.FlipVisit? && Routes(l, v.host)
    ensures first < |visits| && visits[first].FlipVisit? && Routes(l, visits[first].host)
    ensures forall i :: 0 <= i < first && visits[i].FlipVisit? ==> !Routes(l, visits[i].host)
  {
    if visits[0].FlipVisit? && Routes(l, visits[0].host) {
      first := 0;
    } else {
      assert visits == [visits[0]] + visits[1..];
      var k := FirstRoutedFlip(l, visits[1..]);
      first := k + 1;
      forall i | 0 <= i < first && visits[i].FlipVisit? ensures !Routes(l, visits[i].host) {
        if i > 0 { assert visits[i] == visits[1..][i - 1]; }
      }
    }
  }

  /** Whatever the interleaving, complete blocks leave the same status. */
  lemma ConcurrentBlocksAgreeOnStatus(l: Link, visits: seq<Visit>, hosts: set<Host>)
    requires Complete(visits, hosts)
    ensures MeetAll(l, visits).status
            == if l.status == Active && AllHosts(l) * hosts != {} then Blocked else l.status
  {
    if l.status != Active {
      if Tracked(l) {
        TrackedLinkCollectsCauses(l, visits);
      } else {
        UntrackedLinkIgnoresVisits(l, visits);
      }
    } else if AllHosts(l) * hosts == {} {
      UnroutedHostsChangeNothing(l, visits, hosts);
    } else {
      RoutedFlipExists(l, visits, hosts);
      var _ := RoutedLinkIsBlocked(l, visits);
    }
  }

  /** The links on which the order of concurrent blocks cannot show. */
  predicate OrderFree(l: Link, hosts: set<Host>) {
    l.status != Active || AllHosts(l) * hosts == {} || hosts <= AllHosts(l)
  }

  /** The document every complete interleaving leaves on an order-free link. */
  function Settled(l: Link, hosts: set<Host>): Link {
    if hosts == {} then l
    else if Tracked(l) then l.(causes := Hosts(Effective(l) + hosts))
    else if l.status == Active && AllHosts(l) * hosts != {}
    then l.(status := Blocked, hasReason := true, causes := Hosts(hosts))
    else l
  }

  lemma EveryHostIsRecorded(visits: seq<Visit>, hosts: set<Host>)
    requires Complete(visits, hosts)
    ensures Recorded(visits) == hosts
  {
    forall h | h in hosts ensures h in Recorded(visits) {
      assert FlipsThenRecords(visits, h);
      assert CauseVisit(h) in visits;
    }
  }

  /** From the first flip on, every host of a link that routes to all of them is recorded. */
  lemma EveryHostIsRecordedAfter(l: Link, visits: seq<Visit>, hosts: set<Host>, first: nat)
    requires Complete(visits, hosts) && hosts <= AllHosts(l)
    requires first < |visits| && visits[first].FlipVisit?
    requires forall i :: 0 <= i < first && visits[i].FlipVisit? ==> !Routes(l, visits[i].host)
    ensures {visits[first].host} + Recorded(visits[first + 1..]) == hosts
  {
    var late := visits[first + 1..];
    forall h | h in hosts ensures h in Recorded(late) {
      assert FlipsThenRecords(visits, h);
      var i, j :| 0 <= i < j < |visits| && visits[i] == FlipVisit(h) && visits[j] == CauseVisit(h);
      assert Routes(l, h);
      assert late[j - (first + 1)] == CauseVisit(h);
    }
    assert visits[first] in visits;
    assert forall v :: v in late ==> v in visits;
  }

  lemma RoutedFlipExists(l: Link, visits: seq<Visit>, hosts: set<Host>)
    requires Complete(visits, hosts) && AllHosts(l) * hosts != {}
    ensures exists v :: v in visits && v.FlipVisit? && Routes(l, v.host)
  {
    var h :| h in AllHosts(l) * hosts;
    assert FlipsThenRecords(visits, h);
    assert FlipVisit(h) in visits && Routes(l, h);
  }

  lemma UnroutedHostsChangeNothing(l: Link, visits: seq<Visit>, hosts: set<Host>)
    requires Complete(visits, hosts) && AllHosts(l) * hosts == {} && l.status == Active
    ensures MeetAll(l, visits) == l
  {
    forall v | v in visits && v.FlipVisit? ensures !Routes(l, v.host) {
      assert v.host !in AllHosts(l) * hosts;
    }
    UnroutedVisitsChangeNothing(l, visits);
  }

  lemma OrderFreeLinksSettle(l: Link, visits: seq<Visit>, hosts: set<Host>)
    requires Complete(visits, hosts) && OrderFree(l, hosts)
    ensures MeetAll(l, visits) == Settled(l, hosts)
  {
    if l.status != Active {
      EveryHostIsRecorded(visits, hosts);
      if Tracked(l) {
        TrackedLinkCollectsCauses(l, visits);
      } else {
        UntrackedLinkIgnoresVisits(l, visits);
      }
    } else if AllHosts(l) * hosts == {} {
      UnroutedHostsChangeNothing(l, visits, hosts);
    } else {
      RoutedFlipExists(l, visits, hosts);
      var first := RoutedLinkIsBlocked(l, visits);
      EveryHostIsRecordedAfter(l, visits, hosts, first);
    }
  }

  function OneByOne(hosts: seq<Host>): seq<Visit> {
    if hosts == [] then [] else [FlipVisit(hosts[0]), CauseVisit(hosts[0])] + OneByOne(hosts[1..])
  }

  lemma {:induction false} OneByOneVisits(hosts: seq<Host>)
    ensures |OneByOne(hosts)| == 2 * |hosts|
    ensures forall k :: 0 <= k < |hosts| ==>
              OneByOne(hosts)[2 * k] == FlipVisit(hosts[k]) && OneByOne(hosts)[2 * k + 1] == CauseVisit(hosts[k])
  {
    if hosts != [] {
      OneByOneVisits(hosts[1..]);
      forall k | 0 <= k < |hosts|
        ensures OneByOne(hosts)[2 * k] == FlipVisit(hosts[k])
                && OneByOne(hosts)[2 * k + 1] == CauseVisit(hosts[k])
      {
        if k > 0 {
          var rest := OneByOne(hosts[1..]);
          assert rest[2 * (k - 1)] == FlipVisit(hosts[1..][k - 1]);
          assert OneByOne(hosts)[2 * k] == rest[2 * k - 2];
          assert OneByOne(hosts)[2 * k + 1] == rest[2 * k - 1];
        }
      }
    }
  }

  lemma OneByOneIsComplete(list: seq<Host>, hosts: set<Host>)
    requires forall h :: h in list <==> h in hosts
    ensures Complete(OneByOne(list), hosts) && FlipsFirst(OneByOne(list))
  {
    OneByOneVisits(list);
    var visits := OneByOne(list);
    forall h | h in hosts ensures FlipsThenRecords(visits, h) {
      var k :| 0 <= k < |list| && list[k] == h;
      assert visits[2 * k] == FlipVisit(h) && visits[2 * k + 1] == CauseVisit(h);
    }
    forall j | 0 <= j < |visits|
      ensures visits[j].host in hosts
      ensures visits[j].CauseVisit? ==> FlipVisit(visits[j].host) in visits[..j]
    {
      var k := j / 2;
      assert list[k] in list;
      assert visits[2 * k] == FlipVisit(list[k]) && visits[2 * k + 1] == CauseVisit(list[k]);
      assert j == 2 * k || j == 2 * k + 1;
      if j == 2 * k + 1 { assert visits[..j][2 * k] == FlipVisit(list[k]); }
    }
  }

  lemma TailRecordsWithin(visits: seq<Visit>, from: nat, hosts: set<Host>)
    requires from < |visits| && Complete(visits, hosts)
    ensures visits[from].host in hosts && Recorded(visits[from + 1..]) <= hosts
  {
    assert visits[from] in visits;
    forall h | h in Recorded(visits[from + 1..]) ensures h in hosts {
      var v :| v in visits[from + 1..] && v.CauseVisit? && v.host == h;
      assert v in visits;
    }
  }

  lemma BlockedWithoutTheForeignHost(l: Link, visits: seq<Visit>, hosts: set<Host>, foreign: Host)
    requires Complete(visits, hosts) && foreign !in hosts
    requires l.status == Active && AllHosts(l) * hosts != {}
    ensures Tracked(MeetAll(l, visits)) && foreign !in Effective(MeetAll(l, visits))
  {
    RoutedFlipExists(l, visits, hosts);
    var first := RoutedLinkIsBlocked(l, visits);
    TailRecordsWithin(visits, first, hosts);
  }

  lemma PairRecordsForeignHost(l: Link, foreign: Host)
    ensures !Routes(l, foreign) && l.status == Active ==>
              MeetAll(l, [FlipVisit(foreign), CauseVisit(foreign)]) == l
    ensures Tracked(l) ==> foreign in Effective(MeetAll(l, [FlipVisit(foreign), CauseVisit(foreign)]))
                           && Tracked(MeetAll(l, [FlipVisit(foreign), CauseVisit(foreign)]))
  {
    var pair := [FlipVisit(foreign), CauseVisit(foreign)];
    if Tracked(l) {
      TrackedLinkCollectsCauses(l, pair);
      assert pair[1] in pair;
    } else if !Routes(l, foreign) && l.status == Active {
      UnroutedVisitsChangeNothing(l, pair);
    }
  }

  /** The converse: on any other link two complete interleavings leave different cause sets. */
  lemma OrderShowsOnOtherLinks(l: Link, hosts: set<Host>) returns (early: seq<Visit>, late: seq<Visit>)
    requires !OrderFree(l, hosts)
    ensures Complete(early, hosts) && FlipsFirst(early)
    ensures Complete(late, hosts) && FlipsFirst(late)
    ensures MeetAll(l, early).status == MeetAll(l, late).status == Blocked
    ensures Effective(MeetAll(l, early)) != Effective(MeetAll(l, late))
  {
    var foreign :| foreign in hosts && foreign !in AllHosts(l);
    var own :| own in AllHosts(l) * hosts;
    var rest := ListMembers(hosts - {foreign});
    var visits, pair := OneByOne(rest), [FlipVisit(foreign), CauseVisit(foreign)];
    early, late := OneByOne([foreign] + rest), OneByOne(rest + [foreign]);
    OneByOneIsComplete([foreign] + rest, hosts);
    OneByOneIsComplete(rest + [foreign], hosts);
    OneByOneIsComplete(rest, hosts - {foreign});
    assert early == pair + visits by { assert ([foreign] + rest)[1..] == rest; }
    OneByOneAppend(rest, foreign);

    assert own in AllHosts(l) * (hosts - {foreign});
    var middle := MeetAll(l, visits);
    BlockedWithoutTheForeignHost(l, visits, hosts - {foreign}, foreign);
    MeetAllConcat(l, pair, visits);
    PairRecordsForeignHost(l, foreign);
    MeetAllConcat(l, visits, pair);
    PairRecordsForeignHost(middle, foreign);
  }

  lemma {:induction false} OneByOneAppend(list: seq<Host>, h: Host)
    ensures OneByOne(list + [h]) == OneByOne(list) + [FlipVisit(h), CauseVisit(h)]
  {
    if list == [] {
      assert [h][1..] == [];
    } else {
      OneByOneAppend(list[1..], h);
      assert (list + [h])[1..] == list[1..] + [h];
    }
  }

  // ----- Interleavings over the whole collection -----

  /** One visit of one document, in the order the sweeps of all running calls interleave. */
  datatype Step = Step(doc: nat, visit: Visit)

  function MeetDocs(docs: seq<Link>, steps: seq<Step>): (after: seq<Link>)
    ensures |after| == |docs|
    decreases |steps|
  {
    if steps == [] then docs
    else
      var s := steps[0];
      MeetDocs(if s.doc < |docs| then docs[s.doc := Meet(docs[s.doc], s.visit)] else docs, steps[1..])
  }

  function SeenBy(steps: seq<Step>, doc: nat): seq<Visit> {
    if steps == [] then []
    else (if steps[0].doc == doc then [steps[0].visit] else []) + SeenBy(steps[1..], doc)
  }

  lemma {:induction false} EachDocMeetsItsOwnVisits(docs: seq<Link>, steps: seq<Step>, d: nat)
    requires d < |docs|
    ensures MeetDocs(docs, steps)[d] == MeetAll(docs[d], SeenBy(steps, d))
    decreases |steps|
  {
    if steps != [] {
      var s := steps[0];
      var next := if s.doc < |docs| then docs[s.doc := Meet(docs[s.doc], s.visit)] else docs;
      EachDocMeetsItsOwnVisits(next, steps[1..], d);
      var rest := SeenBy(steps[1..], d);
      if s.doc == d {
        assert SeenBy(steps, d) == [s.visit] + rest;
        assert ([s.visit] + rest)[1..] == rest;
      } else {
        assert SeenBy(steps, d) == rest;
      }
    }
  }

  /** Two interleavings of complete blocks of the same hosts over the whole collection leave every
      link with the same status, and every order-free link identical. */
  lemma ConcurrentBlocksConverge(docs: seq<Link>, one: seq<Step>, other: seq<Step>, hosts: set<Host>)
    requires forall d: nat :: d < |docs| ==>
               Complete(SeenBy(one, d), hosts) && Complete(SeenBy(other, d), hosts)
    ensures forall d: nat :: d < |docs| ==>
              MeetDocs(docs, one)[d].status == MeetDocs(docs, other)[d].status
    ensures forall d: nat :: d < |docs| && OrderFree(docs[d], hosts) ==>
              MeetDocs(docs, one)[d] == MeetDocs(docs, other)[d] == Settled(docs[d], hosts)
  {
    forall d: nat | d < |docs|
      ensures MeetDocs(docs, one)[d].status == MeetDocs(docs, other)[d].status
      ensures OrderFree(docs[d], hosts) ==>
                MeetDocs(docs, one)[d] == MeetDocs(docs, other)[d] == Settled(docs[d], hosts)
    {
      EachDocMeetsItsOwnVisits(docs, one, d);
      EachDocMeetsItsOwnVisits(docs, other, d);
      ConcurrentBlocksAgreeOnStatus(docs[d], SeenBy(one, d), hosts);
      ConcurrentBlocksAgreeOnStatus(docs[d], SeenBy(other, d), hosts);
      if OrderFree(docs[d], hosts) {
        OrderFreeLinksSettle(docs[d], SeenBy(one, d), hosts);
        OrderFreeLinksSettle(docs[d], SeenBy(other, d), hosts);
      }
    }
  }

  // ----- The stored collection -----

  /** The documents whose status is not what it was. */
  function StatusChanges(before: seq<Link>, at: seq<Link>): set<nat>
    requires |before| == |at|
  {
    set i: nat | i < |before| && at[i].status != before[i].status
  }

  lemma OneMoreWritten(before: seq<Link>, at: seq<Link>, i: nat, l: Link)
    requires |before| == |at| && i < |at| && at[i].status == before[i].status
    ensures |StatusChanges(before, at[i := l])|
            == |StatusChanges(before, at)| + (if l.status != before[i].status then 1 else 0)
  {
    assert StatusChanges(before, at[i := l])
      == StatusChanges(before, at) + (if l.status != before[i].status then {i} else {});
  }

  const ALIAS_CHUNK := 1000

  function AliasChunks(pairs: seq<(string, string)>): (chunks: seq<seq<(string, string)>>)
    ensures forall c :: c in chunks ==> 0 < |c| <= ALIAS_CHUNK
    ensures forall p :: p in pairs <==> exists c :: c in chunks && p in c
  {
    if pairs == [] then []
    else if |pairs| <= ALIAS_CHUNK then [pairs]
    else
      var rest := AliasChunks(pairs[ALIAS_CHUNK..]);
      var chunks := [pairs[..ALIAS_CHUNK]] + rest;
      assert pairs == pairs[..ALIAS_CHUNK] + pairs[ALIAS_CHUNK..];
      assert forall p :: p in pairs <==> (p in pairs[..ALIAS_CHUNK] || p in pairs[ALIAS_CHUNK..]);
      assert chunks[0] == pairs[..ALIAS_CHUNK];
      assert forall c :: c in rest ==> c in chunks;
      chunks
  }

  class UrlCollection {
    var docs: array<Link>

    constructor (initial: seq<Link>)
      ensures fresh(docs) && docs[..] == initial
    {
      docs := new Link[|initial|](i requires 0 <= i < |initial| => initial[i]);
    }

    /** Flip every ACTIVE link to the host, then record the host as a cause; the answer is how many links
        went from one status to another. */
    method BlockActiveByDestHost(host: Host) returns (modified: nat)
      modifies docs
      ensures forall i :: 0 <= i < docs.Length ==> docs[i] == BlockLink(old(docs[i]), host)
      ensures modified == |set i | 0 <= i < docs.Length && docs[i].status != old(docs[i].status)|
    {
      ghost var before := docs[..];
      modified := FlipSweep(host);
      ghost var flipped := docs[..];
      CauseSweep(host);
      assert StatusChanges(before, flipped) == set i | 0 <= i < docs.Length && docs[i].status != old(docs[i].status);
    }

    method FlipSweep(host: Host) returns (modified: nat)
      modifies docs
      ensures forall i :: 0 <= i < docs.Length ==> docs[i] == Flip(old(docs[i]), host)
      ensures modified == |StatusChanges(old(docs[..]), docs[..])|
    {
      ghost var before := docs[..];
      modified := 0;
      assert StatusChanges(before, docs[..]) == {};
      for i := 0 to docs.Length
        invariant forall k :: 0 <= k < i ==> docs[k] == Flip(before[k], host)
        invariant forall k :: i <= k < docs.Length ==> docs[k] == before[k]
        invariant modified == |StatusChanges(before, docs[..])|
      {
        ghost var at := docs[..];
        if docs[i].status == Active && Routes(docs[i], host) {
          docs[i] := docs[i].(status := Blocked, hasReason := true, causes := Hosts({host}));
          modified := modified + 1;
        }
        assert docs[..] == at[i := docs[i]];
        OneMoreWritten(before, at, i, docs[i]);
      }
    }

    method CauseSweep(host: Host)
      modifies docs
      ensures forall i :: 0 <= i < docs.Length ==> docs[i] == AddCause(old(docs[i]), host)
    {
      ghost var before := docs[..];
      for i := 0 to docs.Length
        invariant forall k :: 0 <= k < i ==> docs[k] == AddCause(before[k], host)
        invariant forall k :: i <= k < docs.Length ==> docs[k] == before[k]
      {
        if docs[i].status == Blocked && docs[i].hasReason && !docs[i].causes.PerLink? {
          docs[i] := docs[i].(causes := Hosts(Effective(docs[i]) + {host}));
        }
      }
    }

    /** Pull the cause, then reactivate the links the filter finds cause-free. */
    method UnblockByDestHost(host: Host) returns (modified: nat)
      modifies docs
      ensures forall i :: 0 <= i < docs.Length ==> docs[i] == UnblockLink(old(docs[i]), host)
      ensures modified == |set i | 0 <= i < docs.Length && docs[i].status != old(docs[i].status)|
    {
      PullSweep(host);
      ghost var pulled := docs[..];
      modified := ReactivateSweep(host);
      assert StatusChanges(pulled, docs[..]) == set i | 0 <= i < docs.Length && docs[i].status != old(docs[i].status);
    }

    method PullSweep(host: Host)
      modifies docs
      ensures forall i :: 0 <= i < docs.Length ==> docs[i] == Pull(old(docs[i]), host)
    {
      ghost var before := docs[..];
      for i := 0 to docs.Length
        invariant forall k :: 0 <= k < i ==> docs[k] == Pull(before[k], host)
        invariant forall k :: i <= k < docs.Length ==> docs[k] == before[k]
      {
        docs[i] := Pull(docs[i], host);
      }
    }

    method ReactivateSweep(host: Host) returns (modified: nat)
      modifies docs
      ensures forall i :: 0 <= i < docs.Length ==> docs[i] == Reactivate(old(docs[i]), host)
      ensures modified == |StatusChanges(old(docs[..]), docs[..])|
    {
      ghost var before := docs[..];
      modified := 0;
      assert StatusChanges(before, docs[..]) == {};
      for i := 0 to docs.Length
        invariant forall k :: 0 <= k < i ==> docs[k] == Reactivate(before[k], host)
        invariant forall k :: i <= k < docs.Length ==> docs[k] == before[k]
        invariant modified == |StatusChanges(before, docs[..])|
      {
        ghost var at := docs[..];
        var next := Reactivate(docs[i], host);
        if next != docs[i] {
          modified := modified + 1;
        }
        docs[i] := next;
        assert docs[..] == at[i := next];
        OneMoreWritten(before, at, i, next);
      }
    }

    /** The per-link path: a named link that was ACTIVE is blocked for good as far as hosts go, and every
        other link is as it was; the answer is how many there were. */
    method BlockActiveByAliases(pairs: seq<(string, string)>) returns (modified: nat)
      modifies docs
      ensures modified == |set i | 0 <= i < docs.Length && docs[i].status != old(docs[i].status)|
      ensures forall i :: 0 <= i < docs.Length ==>
                if (old(docs[i]).alias, old(docs[i]).domain) in pairs && old(docs[i]).status == Active
                then SameLink(old(docs[i]), docs[i]) && BlockedForItself(docs[i])
                else docs[i] == old(docs[i])
    {
      ghost var before := docs[..];
      modified := AliasSweeps(pairs);
      assert StatusChanges(before, docs[..]) == set i | 0 <= i < docs.Length && docs[i].status != old(docs[i].status);
      forall i | 0 <= i < docs.Length && before[i].status == Active ensures BlockedForItself(BlockAlias(before[i])) {
        AliasBlockStands(before[i]);
      }
    }

    /** One sweep per chunk of alias clauses. */
    method AliasSweeps(pairs: seq<(string, string)>) returns (modified: nat)
      modifies docs
      ensures forall i :: 0 <= i < docs.Length ==>
                docs[i] == if (old(docs[i]).alias, old(docs[i]).domain) in pairs
                           then BlockAlias(old(docs[i])) else old(docs[i])
      ensures modified == |StatusChanges(old(docs[..]), docs[..])|
    {
      ghost var before := docs[..];
      var chunks := AliasChunks(pairs);
      modified := 0;
      assert StatusChanges(before, docs[..]) == {};
      for c := 0 to |chunks|
        invariant forall k :: 0 <= k < docs.Length ==>
                    docs[k] == if (exists d :: 0 <= d < c && (before[k].alias, before[k].domain) in chunks[d])
                               then BlockAlias(before[k]) else before[k]
        invariant modified == |StatusChanges(before, docs[..])|
      {
        var flipped := AliasSweep(chunks[c], before);
        modified := modified + flipped;
      }
      forall k | 0 <= k < docs.Length
        ensures (before[k].alias, before[k].domain) in pairs
                <==> exists d :: 0 <= d < |chunks| && (before[k].alias, before[k].domain) in chunks[d]
      {
        var p := (before[k].alias, before[k].domain);
        if p in pairs {
          var chunk :| chunk in chunks && p in chunk;
          var d :| 0 <= d < |chunks| && chunks[d] == chunk;
        }
      }
    }

    method AliasSweep(chunk: seq<(string, string)>, ghost before: seq<Link>) returns (flipped: nat)
      requires |before| == docs.Length
      requires forall i :: 0 <= i < docs.Length ==> docs[i] == before[i] || docs[i] == BlockAlias(before[i])
      modifies docs
      ensures forall i :: 0 <= i < docs.Length ==>
                docs[i] == if (before[i].alias, before[i].domain) in chunk then BlockAlias(before[i]) else old(docs[i])
      ensures flipped + |StatusChanges(before, old(docs[..]))| == |StatusChanges(before, docs[..])|
    {
      flipped := 0;
      ghost var start := docs[..];
      for i := 0 to docs.Length
        invariant forall k :: i <= k < docs.Length ==> docs[k] == start[k]
        invariant forall k :: 0 <= k < i ==>
                    docs[k] == if (before[k].alias, before[k].domain) in chunk then BlockAlias(before[k]) else start[k]
        invariant flipped + |StatusChanges(before, start)| == |StatusChanges(before, docs[..])|
      {
        if (docs[i].alias, docs[i].domain) in chunk && docs[i].status == Active {
          ghost var at := docs[..];
          docs[i] := docs[i].(status := Blocked, hasReason := true, causes := PerLink);
          flipped := flipped + 1;
          assert docs[..] == at[i := docs[i]];
          OneMoreWritten(before, at, i, docs[i]);
        }
      }
    }
  }
}
