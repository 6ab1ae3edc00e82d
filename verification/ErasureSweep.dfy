/**
 The sweep over accounts whose purge deadline has passed: one `erase` per listed account, failures
 isolated, no new erasure started once the time budget is spent.
 */
module ErasureSweep {
  import opened Prelude
  import opened AccountStore

  type UserId = nat

  datatype Outcome = Erased | Skipped | Failed

  datatype Report = Report(erased: nat, failed: nat, skipped: nat, deferred: nat)

  /** Who gets to a listed account first: nobody, the owner with a restore, another runner with a claim
      by its own clock, or one that claimed it earlier and has now removed it. */
  datatype Rival = Nobody | RestoresIt | ClaimsIt(at: Time) | RemovesIt

  /** What happens around one erasure: a rival may get to the account between the listing and the
      claim, and the cascade may raise after the claim. */
  datatype Fate = Fate(now: Time, rival: Rival, cascadeRaises: bool)

  /** What the rival leaves for the claim to find. */
  function AfterRival(u: User, rival: Rival, lease: nat): Option<User> {
    match rival
    case Nobody => Some(u)
    case RestoresIt => Restore(Some(u)).0
    case ClaimsIt(at) => ClaimForErasure(Some(u), at, lease).0
    case RemovesIt => None
  }

  /** The result of the listing query: distinct purge-due accounts, at most `limit`. */
  ghost predicate Listed(users: map<UserId, User>, due: seq<UserId>, now: Time, lease: nat, limit: nat) {
    && |due| <= limit
    && Distinct(due)
    && (forall id :: id in due ==> id in users && PurgeDue(users[id], now, lease))
  }

  function OutcomeOf(u: User, f: Fate, lease: nat): Outcome {
    var found := AfterRival(u, f.rival, lease);
    if found.None? || !PurgeDue(found.value, f.now, lease) then Skipped
    else if f.cascadeRaises then Failed
    else Erased
  }

  /** A due account is lost iff it is gone, or it was pending and has been restored, or a rival's claim
      went through by the rival's clock and its lease still runs by this runner's. */
  lemma LostToRivalIff(u: User, f: Fate, lease: nat)
    requires PurgeDue(u, f.now, lease)
    ensures OutcomeOf(u, f, lease) == Skipped <==>
      (match f.rival
       case Nobody => false
       case RestoresIt => u.status == PendingDeletion
       case ClaimsIt(at) => PurgeDue(u, at, lease) && f.now < at + lease
       case RemovesIt => true)
  {
  }

  function Outcomes(users: map<UserId, User>, due: seq<UserId>, fates: seq<Fate>, lease: nat): seq<Outcome>
    requires |due| == |fates| && forall id :: id in due ==> id in users
  {
    seq(|due|, i requires 0 <= i < |due| => OutcomeOf(users[due[i]], fates[i], lease))
  }

  /** The accounts among the first `n` that come out as `o`. */
  function Coming(outcomes: seq<Outcome>, n: nat, o: Outcome): set<nat>
    requires n <= |outcomes|
  {
    set i: nat | i < n && outcomes[i] == o
  }

  lemma OneMoreComes(outcomes: seq<Outcome>, n: nat, o: Outcome)
    requires n < |outcomes|
    ensures |Coming(outcomes, n + 1, o)| == |Coming(outcomes, n, o)| + (if outcomes[n] == o then 1 else 0)
  {
    assert Coming(outcomes, n + 1, o) == Coming(outcomes, n, o) + if outcomes[n] == o then {n} else {};
  }

  /** Every account that was started is counted in exactly one counter. */
  lemma {:induction false} TalliesAddUp(outcomes: seq<Outcome>, n: nat)
    requires n <= |outcomes|
    ensures |set i | 0 <= i < n && outcomes[i] == Erased| + |set i | 0 <= i < n && outcomes[i] == Failed|
            + |set i | 0 <= i < n && outcomes[i] == Skipped| == n
  {
    assert Coming(outcomes, n, Erased) == set i | 0 <= i < n && outcomes[i] == Erased;
    assert Coming(outcomes, n, Failed) == set i | 0 <= i < n && outcomes[i] == Failed;
    assert Coming(outcomes, n, Skipped) == set i | 0 <= i < n && outcomes[i] == Skipped;
    if n > 0 {
      TalliesAddUp(outcomes, n - 1);
      assert Coming(outcomes, n - 1, Erased) == set i | 0 <= i < n - 1 && outcomes[i] == Erased;
      assert Coming(outcomes, n - 1, Failed) == set i | 0 <= i < n - 1 && outcomes[i] == Failed;
      assert Coming(outcomes, n - 1, Skipped) == set i | 0 <= i < n - 1 && outcomes[i] == Skipped;
      OneMoreComes(outcomes, n - 1, Erased);
      OneMoreComes(outcomes, n - 1, Failed);
      OneMoreComes(outcomes, n - 1, Skipped);
    }
  }

  /** What one fate leaves of one account; None is a removed document. */
  function Left(u: User, f: Fate, lease: nat): Option<User> {
    match OutcomeOf(u, f, lease)
    case Erased => None
    case Failed => Some(AfterRival(u, f.rival, lease).value.(status := Erasing, erasureClaimedAt := Some(f.now)))
    case Skipped => AfterRival(u, f.rival, lease)
  }

  /** The first `n` listed accounts have met their fates; every other account is as before. */
  ghost predicate SweptUpTo(before: map<UserId, User>, after: map<UserId, User>,
                            due: seq<UserId>, fates: seq<Fate>, lease: nat, n: nat)
    requires n <= |due| == |fates|
  {
    && (forall i :: 0 <= i < n ==> Met(before, after, due[i], fates[i], lease))
    && (forall i :: n <= i < |due| ==> Lookup(after, due[i]) == Lookup(before, due[i]))
    && (forall id :: id !in due ==> Lookup(after, id) == Lookup(before, id))
  }

  ghost predicate Met(before: map<UserId, User>, after: map<UserId, User>, id: UserId, f: Fate, lease: nat) {
    id in before && Lookup(after, id) == Left(before[id], f, lease)
  }

  lemma SweepOneMore(before: map<UserId, User>, middle: map<UserId, User>, after: map<UserId, User>,
                     due: seq<UserId>, fates: seq<Fate>, lease: nat, n: nat)
    requires n < |due| == |fates|
    requires Distinct(due)
    requires SweptUpTo(before, middle, due, fates, lease, n)
    requires Met(before, after, due[n], fates[n], lease)
    requires forall id :: id != due[n] ==> Lookup(after, id) == Lookup(middle, id)
    ensures SweptUpTo(before, after, due, fates, lease, n + 1)
  {
    forall i | 0 <= i < n + 1 ensures Met(before, after, due[i], fates[i], lease) {
      if i < n {
        assert Met(before, middle, due[i], fates[i], lease);
      }
    }
  }

  lemma NextIsUntouched(before: map<UserId, User>, middle: map<UserId, User>, due: seq<UserId>, fates: seq<Fate>,
                        lease: nat, n: nat)
    requires n < |due| == |fates| && due[n] in before
    requires Distinct(due)
    requires SweptUpTo(before, middle, due, fates, lease, n)
    ensures due[n] in middle && middle[due[n]] == before[due[n]]
  {
    assert Lookup(middle, due[n]) == Lookup(before, due[n]);
  }

  /** The counters are the numbers of accounts with each outcome. */
  ghost predicate Tallies(report: Report, outcomes: seq<Outcome>, n: nat)
    requires n <= |outcomes|
  {
    && report.erased == |set i | 0 <= i < n && outcomes[i] == Erased|
    && report.failed == |set i | 0 <= i < n && outcomes[i] == Failed|
    && report.skipped == |set i | 0 <= i < n && outcomes[i] == Skipped|
  }

  lemma CountingTallies(report: Report, outcomes: seq<Outcome>, n: nat)
    requires n <= |outcomes| && Counting(report.erased, report.failed, report.skipped, outcomes, n)
    ensures Tallies(report, outcomes, n) && report.erased + report.failed + report.skipped == n
  {
    TalliesAddUp(outcomes, n);
    assert Coming(outcomes, n, Erased) == set i | 0 <= i < n && outcomes[i] == Erased;
    assert Coming(outcomes, n, Failed) == set i | 0 <= i < n && outcomes[i] == Failed;
    assert Coming(outcomes, n, Skipped) == set i | 0 <= i < n && outcomes[i] == Skipped;
  }

  lemma NothingCounted(outcomes: seq<Outcome>)
    ensures Counting(0, 0, 0, outcomes, 0)
  {
    forall o ensures Coming(outcomes, 0, o) == {} {
    }
  }

  ghost predicate Counting(erased: nat, failed: nat, skipped: nat, outcomes: seq<Outcome>, n: nat)
    requires n <= |outcomes|
  {
    erased == |Coming(outcomes, n, Erased)| && failed == |Coming(outcomes, n, Failed)| && skipped == |Coming(outcomes, n, Skipped)|
  }

  /** The counters after one more outcome. */
  method Counted(outcome: Outcome, erased: nat, failed: nat, skipped: nat, ghost outcomes: seq<Outcome>, ghost n: nat)
    returns (e: nat, f: nat, s: nat)
    requires n < |outcomes| && outcome == outcomes[n] && Counting(erased, failed, skipped, outcomes, n)
    ensures Counting(e, f, s, outcomes, n + 1)
  {
    e, f, s := erased, failed, skipped;
    match outcome {
      case Erased => e := e + 1;
      case Failed => f := f + 1;
      case Skipped => s := s + 1;
    }
    OneMoreComes(outcomes, n, Erased);
    OneMoreComes(outcomes, n, Failed);
    OneMoreComes(outcomes, n, Skipped);
  }

  class AccountErasureService {
    var users: map<UserId, User>
    const lease: nat

    constructor (users: map<UserId, User>, lease: nat)
      ensures this.users == users && this.lease == lease
    {
      this.users, this.lease := users, lease;
    }

    /** Claim, cascade, hard delete. A refused claim touches nothing; a cascade that raises leaves
        the account ERASING under this claim, so it is due again one lease later. */
    method Erase(id: UserId, now: Time, cascadeRaises: bool) returns (outcome: Outcome)
      modifies this
      ensures outcome == Skipped <==>
                !(id in old(users) && PurgeDue(old(users)[id], now, lease))
      ensures outcome == Skipped ==> users == old(users)
      ensures outcome == Erased ==> !cascadeRaises && users == old(users) - {id}
      ensures outcome == Failed ==>
                && cascadeRaises && id in old(users)
                && users == old(users)[id := old(users)[id].(status := Erasing, erasureClaimedAt := Some(now))]
      ensures outcome == Failed ==>
                && PurgeDue(users[id], now + lease, lease)
                && (forall t :: t < now + lease ==> !PurgeDue(users[id], t, lease))
    {
      if id !in users {
        return Skipped;
      }
      var (claimed, ok) := ClaimForErasure(Some(users[id]), now, lease);
      if !ok {
        return Skipped;
      }
      users := users[id := claimed.value];
      if cascadeRaises {
        return Failed;
      }
      var (gone, deleted) := DeleteHard(Some(users[id]));
      if deleted {
        users := users - {id};
      }
      return Erased;
    }

    /** One account of a sweep, with whatever befalls it. */
    method EraseUnder(id: UserId, fate: Fate) returns (outcome: Outcome)
      requires id in users
      modifies this
      ensures outcome == OutcomeOf(old(users)[id], fate, lease)
      ensures Lookup(users, id) == Left(old(users)[id], fate, lease)
      ensures forall other :: other != id ==> Lookup(users, other) == Lookup(old(users), other)
    {
      match fate.rival {
        case Nobody =>
        case RestoresIt => users := users[id := Restore(Some(users[id])).0.value];
        case ClaimsIt(at) => users := users[id := ClaimForErasure(Some(users[id]), at, lease).0.value];
        case RemovesIt => users := users - {id};
      }
      outcome := Erase(id, fate.now, fate.cascadeRaises);
    }

    /** The next account of the list: nobody the sweep has met so far was this one. */
    method SweepNext(due: seq<UserId>, fates: seq<Fate>, index: nat, ghost before: map<UserId, User>,
                     ghost now: Time, ghost limit: nat)
      returns (outcome: Outcome)
      requires index < |due| == |fates|
      requires Listed(before, due, now, lease, limit)
      requires SweptUpTo(before, users, due, fates, lease, index)
      modifies this
      ensures outcome == Outcomes(before, due, fates, lease)[index]
      ensures SweptUpTo(before, users, due, fates, lease, index + 1)
    {
      ghost var middle := users;
      NextIsUntouched(before, users, due, fates, lease, index);
      outcome := EraseUnder(due[index], fates[index]);
      SweepOneMore(before, middle, users, due, fates, lease, index);
    }

    /** `elapsed[i]` is the time spent when account i comes up, `fates[i]` what befalls it. */
    method Sweep(due: seq<UserId>, now: Time, limit: nat, budget: Time, elapsed: seq<Time>, fates: seq<Fate>)
      returns (report: Report)
      requires Listed(users, due, now, lease, limit)
      requires |elapsed| == |fates| == |due|
      modifies this
      ensures report.erased + report.failed + report.skipped + report.deferred == |due|
      ensures var n := |due| - report.deferred;
        && (forall i :: 0 <= i < n ==> elapsed[i] < budget)
        && (report.deferred > 0 ==> elapsed[n] >= budget)
        && Tallies(report, Outcomes(old(users), due, fates, lease), n)
        && SweptUpTo(old(users), users, due, fates, lease, n)
    {
      ghost var before := users;
      ghost var outcomes := Outcomes(users, due, fates, lease);
      var erased, failed, skipped, deferred := 0, 0, 0, 0;
      var index := 0;
      NothingCounted(outcomes);
      while index < |due|
        invariant 0 <= index <= |due| && deferred == 0
        invariant forall i :: 0 <= i < index ==> elapsed[i] < budget
        invariant Counting(erased, failed, skipped, outcomes, index)
        invariant SweptUpTo(before, users, due, fates, lease, index)
      {
        if elapsed[index] >= budget {
          deferred := |due| - index;
          break;
        }
        var outcome := SweepNext(due, fates, index, before, now, limit);
        erased, failed, skipped := Counted(outcome, erased, failed, skipped, outcomes, index);
        index := index + 1;
      }
      report := Report(erased, failed, skipped, deferred);
      CountingTallies(report, outcomes, index);
    }
  }
}
