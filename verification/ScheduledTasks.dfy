/**
 Scheduled tasks: a claim leases one due task under a fresh token, and a finish is fenced on that
 token. Every write is one atomic step, so a run of any number of runners is a sequence of steps;
 each claimant brings its own clock.
 */
module ScheduledTasks {
  import opened Prelude

  type Name = string
  type Token = nat
  type Time = int
  type Schedule = string
  type Outcome = string

  datatype Task = Task(
    schedule: Option<Schedule>,
    nextRunAt: Option<Time>,
    claimedUntil: Option<Time>,
    claimToken: Option<Token>,
    enabled: bool,
    lastRun: Option<Outcome>)

  type Store = map<Name, Task>

  datatype Step =
    | Ensure(name: Name, schedule: Option<Schedule>, enabledDefault: bool, next: Option<Time>)
    | Reconcile(name: Name, schedule: Option<Schedule>, next: Option<Time>)
    | Claim(names: set<Name>, now: Time, lease: nat, token: Token, picked: Option<Name>)
    | Finish(name: Name, fence: Option<Token>, outcome: Outcome, schedule: Option<Schedule>, next: Option<Time>)
    | Invoke(name: Name, now: Time)
    | SetEnabled(name: Name, enabled: bool)

  // ----- One step -----

  predicate Claimable(t: Task, now: Time) {
    && t.enabled
    && t.nextRunAt.Some? && t.nextRunAt.value <= now
    && (t.claimedUntil.None? || t.claimedUntil.value <= now)
  }

  predicate IsDue(s: Store, names: set<Name>, now: Time, n: Name) {
    n in names && n in s && Claimable(s[n], now)
  }

  /** The claim takes a due task that has waited longest, and nothing only if nothing is due. */
  predicate Picks(s: Store, names: set<Name>, now: Time, picked: Option<Name>) {
    match picked
    case None => forall n :: n in names ==> !IsDue(s, names, now, n)
    case Some(n) =>
      && IsDue(s, names, now, n)
      && forall other :: other in names && IsDue(s, names, now, other) ==> s[n].nextRunAt.value <= s[other].nextRunAt.value
  }

  predicate Enabled(s: Store, step: Step) {
    step.Claim? ==> Picks(s, step.names, step.now, step.picked)
  }

  function Leased(t: Task, now: Time, lease: nat, token: Token): Task {
    t.(claimedUntil := Some(now + lease), claimToken := Some(token))
  }

  predicate Accepts(s: Store, step: Step) {
    step.Finish? && step.name in s && s[step.name].claimToken == step.fence
  }

  function Finished(t: Task, outcome: Outcome, schedule: Option<Schedule>, next: Option<Time>): Task {
    t.(lastRun := Some(outcome), claimedUntil := None, claimToken := None,
       nextRunAt := if t.schedule == schedule then next else t.nextRunAt)
  }

  function Apply(s: Store, step: Step): Store {
    match step
    case Ensure(n, schedule, enabled, next) =>
      if n in s then s else s[n := Task(schedule, next, None, None, enabled, None)]
    case Reconcile(n, schedule, next) =>
      if n in s && s[n].schedule != schedule then s[n := s[n].(schedule := schedule, nextRunAt := next)] else s
    case Claim(_, now, lease, token, picked) =>
      if picked.Some? && picked.value in s then s[picked.value := Leased(s[picked.value], now, lease, token)] else s
    case Finish(n, _, outcome, schedule, next) =>
      if Accepts(s, step) then s[n := Finished(s[n], outcome, schedule, next)] else s
    case Invoke(n, now) => if n in s then s[n := s[n].(nextRunAt := Some(now))] else s
    case SetEnabled(n, enabled) => if n in s then s[n := s[n].(enabled := enabled)] else s
  }

  // ----- Runs -----

  /** The store after the first `i` steps. */
  function At(s: Store, steps: seq<Step>, i: nat): Store
    requires i <= |steps|
  {
    if i == 0 then s else Apply(At(s, steps, i - 1), steps[i - 1])
  }

  /** Every one of the first `i` steps is possible where it is taken. */
  predicate IsRun(s: Store, steps: seq<Step>, i: nat)
    requires i <= |steps|
  {
    i == 0 || (IsRun(s, steps, i - 1) && Enabled(At(s, steps, i - 1), steps[i - 1]))
  }

  lemma {:induction false} StepIsEnabled(s: Store, steps: seq<Step>, k: nat, j: nat)
    requires k < j <= |steps| && IsRun(s, steps, j)
    ensures IsRun(s, steps, k) && Enabled(At(s, steps, k), steps[k])
    decreases j
  {
    if k + 1 < j {
      StepIsEnabled(s, steps, k, j - 1);
    }
  }

  predicate ClaimsTask(step: Step, n: Name) { step.Claim? && step.picked == Some(n) }

  predicate FinishesTask(s: Store, step: Step, n: Name) { step.Finish? && step.name == n && Accepts(s, step) }

  /** No accepted finish of `n` strictly between steps `i` and `j`. */
  predicate Unreleased(s: Store, steps: seq<Step>, n: Name, i: nat, j: nat)
    requires j <= |steps|
    decreases j
  {
    j <= i + 1 || (Unreleased(s, steps, n, i, j - 1) && !FinishesTask(At(s, steps, j - 1), steps[j - 1], n))
  }

  /** The lease given by the claim at `i` still bounds every later claim. */
  lemma {:induction false} LeaseLasts(s: Store, steps: seq<Step>, n: Name, i: nat, j: nat)
    requires i < j <= |steps| && IsRun(s, steps, j) && ClaimsTask(steps[i], n) && Unreleased(s, steps, n, i, j)
    ensures n in At(s, steps, j)
    ensures var until := At(s, steps, j)[n].claimedUntil; until.Some? && until.value >= steps[i].now + steps[i].lease
    decreases j
  {
    var at := At(s, steps, j - 1);
    assert At(s, steps, j) == Apply(at, steps[j - 1]);
    if i + 1 < j {
      LeaseLasts(s, steps, n, i, j - 1);
    }
  }

  /** Two claims of one task with no accepted finish in between are a lease apart, on the claimants'
      own clocks and whatever else happens in between. */
  lemma ClaimsAreALeaseApart(s: Store, steps: seq<Step>, n: Name, i: nat, j: nat)
    requires IsRun(s, steps, |steps|) && i < j < |steps|
    requires ClaimsTask(steps[i], n) && ClaimsTask(steps[j], n) && Unreleased(s, steps, n, i, j)
    ensures steps[j].now >= steps[i].now + steps[i].lease
  {
    StepIsEnabled(s, steps, j, |steps|);
    LeaseLasts(s, steps, n, i, j);
  }

  // ----- The fence -----

  /** No two claims share a token. */
  ghost predicate FreshTokens(steps: seq<Step>) {
    forall i, j :: 0 <= i < j < |steps| && steps[i].Claim? && steps[j].Claim? ==> steps[i].token != steps[j].token
  }

  /** No accepted finish and no claim of `n` strictly between steps `i` and `j`. */
  predicate Undisturbed(s: Store, steps: seq<Step>, n: Name, i: nat, j: nat)
    requires j <= |steps|
    decreases j
  {
    j <= i + 1
    || (&& Undisturbed(s, steps, n, i, j - 1)
        && !FinishesTask(At(s, steps, j - 1), steps[j - 1], n) && !ClaimsTask(steps[j - 1], n))
  }

  lemma {:induction false} UndisturbedThroughout(s: Store, steps: seq<Step>, n: Name, i: nat, k: nat, j: nat)
    requires i < k < j <= |steps| && Undisturbed(s, steps, n, i, j)
    ensures !FinishesTask(At(s, steps, k), steps[k], n) && !ClaimsTask(steps[k], n)
    decreases j
  {
    if k + 1 < j {
      UndisturbedThroughout(s, steps, n, i, k, j - 1);
    }
  }

  lemma TokenStep(at: Store, step: Step, n: Name, token: Token)
    requires n in at && Enabled(at, step)
    requires ClaimsTask(step, n) ==> step.token != token
    ensures n in Apply(at, step)
    ensures Apply(at, step)[n].claimToken == Some(token) <==>
              at[n].claimToken == Some(token) && !FinishesTask(at, step, n) && !ClaimsTask(step, n)
  {
  }

  /** A claim's token is on its task exactly until the next claim or accepted finish. */
  lemma {:induction false} TokenHeldIff(s: Store, steps: seq<Step>, n: Name, i: nat, j: nat)
    requires i < j <= |steps| && IsRun(s, steps, j) && FreshTokens(steps) && ClaimsTask(steps[i], n)
    ensures n in At(s, steps, j)
    ensures At(s, steps, j)[n].claimToken == Some(steps[i].token) <==> Undisturbed(s, steps, n, i, j)
    decreases j
  {
    var at := At(s, steps, j - 1);
    if i + 1 < j {
      TokenHeldIff(s, steps, n, i, j - 1);
      TokenStep(at, steps[j - 1], n, steps[i].token);
    }
  }

  /** A run's finish is accepted iff nobody has claimed or finished its task since its claim; a
      superseded one changes nothing. */
  lemma FinishAcceptedIff(s: Store, steps: seq<Step>, n: Name, i: nat, j: nat)
    requires IsRun(s, steps, |steps|) && FreshTokens(steps) && i < j < |steps| && ClaimsTask(steps[i], n)
    requires steps[j].Finish? && steps[j].name == n && steps[j].fence == Some(steps[i].token)
    ensures Accepts(At(s, steps, j), steps[j]) <==> Undisturbed(s, steps, n, i, j)
    ensures !Undisturbed(s, steps, n, i, j) ==> At(s, steps, j + 1) == At(s, steps, j)
  {
    StepIsEnabled(s, steps, j, |steps|);
    TokenHeldIff(s, steps, n, i, j);
  }

  /** At most one finish of a claim is ever accepted. */
  lemma OneFinishPerClaim(s: Store, steps: seq<Step>, n: Name, i: nat, j: nat, k: nat)
    requires IsRun(s, steps, |steps|) && FreshTokens(steps) && i < j < k < |steps| && ClaimsTask(steps[i], n)
    requires steps[j].Finish? && steps[j].name == n && steps[j].fence == Some(steps[i].token)
    requires steps[k].Finish? && steps[k].name == n && steps[k].fence == Some(steps[i].token)
    ensures !(Accepts(At(s, steps, j), steps[j]) && Accepts(At(s, steps, k), steps[k]))
  {
    FinishAcceptedIff(s, steps, n, i, k);
    if Undisturbed(s, steps, n, i, k) {
      UndisturbedThroughout(s, steps, n, i, j, k);
    }
  }

  /** What an accepted finish leaves: its outcome on record, the task as enabled and scheduled as it was,
      armed for the finisher's next occurrence unless the schedule has changed, and claimable from that
      occurrence on, whatever lease the claim took. No other task changes. */
  lemma AcceptedFinishFreesTheTask(s: Store, steps: seq<Step>, n: Name, j: nat, now: Time)
    requires j < |steps| && FinishesTask(At(s, steps, j), steps[j], n)
    ensures n in At(s, steps, j) && n in At(s, steps, j + 1)
    ensures var before, after := At(s, steps, j)[n], At(s, steps, j + 1)[n];
      var next := if before.schedule == steps[j].schedule then steps[j].next else before.nextRunAt;
      && after.lastRun == Some(steps[j].outcome) && after.claimToken == None
      && after.enabled == before.enabled && after.schedule == before.schedule && after.nextRunAt == next
      && (Claimable(after, now) <==> before.enabled && next.Some? && next.value <= now)
    ensures At(s, steps, j + 1) - {n} == At(s, steps, j) - {n}
  {
    assert At(s, steps, j + 1) == Apply(At(s, steps, j), steps[j]);
  }

  lemma FreeStep(at: Store, step: Step, n: Name)
    requires n in at && !FinishesTask(at, step, n) && !ClaimsTask(step, n)
    ensures n in Apply(at, step)
    ensures var t := Apply(at, step)[n];
      t.claimedUntil == at[n].claimedUntil && t.claimToken == at[n].claimToken && t.lastRun == at[n].lastRun
  {
  }

  /** Until the next claim or accepted finish the outcome stays on record and no lease is in the way: the
      task is claimable exactly when it is enabled and its next occurrence has come, whatever boots,
      schedule changes, pauses, run-now requests and superseded finishes there are in between. */
  lemma {:induction false} FinishedTaskWaitsForItsOccurrence(s: Store, steps: seq<Step>, n: Name, j: nat, k: nat)
    requires j < k <= |steps| && FinishesTask(At(s, steps, j), steps[j], n) && Undisturbed(s, steps, n, j, k)
    ensures n in At(s, steps, k)
    ensures var t := At(s, steps, k)[n];
      && t.lastRun == Some(steps[j].outcome) && t.claimedUntil == None && t.claimToken == None
      && forall now :: Claimable(t, now) <==> t.enabled && t.nextRunAt.Some? && t.nextRunAt.value <= now
    decreases k
  {
    var at := At(s, steps, k - 1);
    assert At(s, steps, k) == Apply(at, steps[k - 1]);
    if j + 1 < k {
      FinishedTaskWaitsForItsOccurrence(s, steps, n, j, k - 1);
      FreeStep(at, steps[k - 1], n);
    }
  }

  // ----- What a finish does to the next occurrence -----

  /** The step sets when task `n` runs next. */
  predicate Arms(s: Store, step: Step, n: Name) {
    || (step.Reconcile? && step.name == n && n in s && s[n].schedule != step.schedule)
    || (step.Invoke? && step.name == n && n in s)
    || FinishesTask(s, step, n)
  }

  /** Nothing strictly between steps `i` and `j` sets when task `n` runs next. */
  predicate Unarmed(s: Store, steps: seq<Step>, n: Name, i: nat, j: nat)
    requires j <= |steps|
    decreases j
  {
    j <= i + 1 || (Unarmed(s, steps, n, i, j - 1) && !Arms(At(s, steps, j - 1), steps[j - 1], n))
  }

  lemma UnarmedStep(at: Store, step: Step, n: Name)
    requires n in at && !Arms(at, step, n)
    ensures n in Apply(at, step)
    ensures Apply(at, step)[n].nextRunAt == at[n].nextRunAt && Apply(at, step)[n].schedule == at[n].schedule
  {
  }

  lemma {:induction false} ArmedValueStays(s: Store, steps: seq<Step>, n: Name, i: nat, j: nat)
    requires i < j <= |steps| && n in At(s, steps, i + 1) && Unarmed(s, steps, n, i, j)
    ensures n in At(s, steps, j)
    ensures At(s, steps, j)[n].nextRunAt == At(s, steps, i + 1)[n].nextRunAt
    ensures At(s, steps, j)[n].schedule == At(s, steps, i + 1)[n].schedule
    decreases j
  {
    if i + 1 < j {
      ArmedValueStays(s, steps, n, i, j - 1);
      UnarmedStep(At(s, steps, j - 1), steps[j - 1], n);
    }
  }

  /** A schedule change during a run keeps its own next occurrence through the run's finish iff the
      new schedule is not the finisher's (or both arm the same time): changing it away and back is
      not noticed. */
  lemma ReconciledTimeSurvivesFinishIff(s: Store, steps: seq<Step>, n: Name, i: nat, j: nat)
    requires i < j < |steps| && steps[i].Reconcile? && steps[i].name == n && Arms(At(s, steps, i), steps[i], n)
    requires FinishesTask(At(s, steps, j), steps[j], n) && Unarmed(s, steps, n, i, j)
    ensures n in At(s, steps, j + 1)
    ensures At(s, steps, j + 1)[n].nextRunAt == steps[i].next
            <==> steps[i].schedule != steps[j].schedule || steps[i].next == steps[j].next
  {
    ArmedValueStays(s, steps, n, i, j);
  }

  /** A run-now request that arrives during a run is absorbed by that run's finish iff the schedule
      still matches: the finish arms its own next occurrence over it. */
  lemma InvocationSurvivesFinishIff(s: Store, steps: seq<Step>, n: Name, i: nat, j: nat)
    requires i < j < |steps| && steps[i].Invoke? && Arms(At(s, steps, i), steps[i], n)
    requires FinishesTask(At(s, steps, j), steps[j], n) && Unarmed(s, steps, n, i, j)
    ensures n in At(s, steps, j + 1)
    ensures At(s, steps, j + 1)[n].nextRunAt == Some(steps[i].now)
            <==> At(s, steps, i)[n].schedule != steps[j].schedule || steps[j].next == Some(steps[i].now)
  {
    ArmedValueStays(s, steps, n, i, j);
  }

  // ----- Boot -----

  /** What a booting process does for one registered task: insert it if it is new, then bring a stored
      schedule up to the registered one. */
  function SyncTask(s: Store, n: Name, schedule: Option<Schedule>, enabledDefault: bool, next: Option<Time>): Store {
    Apply(Apply(s, Ensure(n, schedule, enabledDefault, next)), Reconcile(n, schedule, next))
  }

  /** A boot brings the schedule to the registered one, re-arms the task iff it had another one or was
      new, and leaves its runtime state and every other task alone; so a later boot of the same
      registration, at whatever time, and a second process booting beside it change nothing. */
  lemma SyncKeepsRuntimeState(s: Store, n: Name, schedule: Option<Schedule>, enabledDefault: bool, next: Option<Time>,
                              laterDefault: bool, later: Option<Time>)
    ensures var t := SyncTask(s, n, schedule, enabledDefault, next);
      && n in t && t[n].schedule == schedule
      && (n in s ==>
            && t[n].enabled == s[n].enabled && t[n].lastRun == s[n].lastRun
            && t[n].claimToken == s[n].claimToken && t[n].claimedUntil == s[n].claimedUntil
            && t[n].nextRunAt == if s[n].schedule == schedule then s[n].nextRunAt else next)
      && (n !in s ==> t[n] == Task(schedule, next, None, None, enabledDefault, None))
      && t - {n} == s - {n}
      && SyncTask(t, n, schedule, laterDefault, later) == t
  {
  }

  /** A sync during a run takes neither the run's lease nor its right to finish. */
  lemma SyncDoesNotFenceTheRun(s: Store, n: Name, schedule: Option<Schedule>, enabledDefault: bool, next: Option<Time>, finish: Step)
    requires n in s && finish.Finish?
    ensures Accepts(SyncTask(s, n, schedule, enabledDefault, next), finish) <==> Accepts(s, finish)
  {
  }

  // ----- Liveness -----

  /** Task `n` is left alone between `i` and `j`: its runner has crashed and nobody pauses or re-arms it. */
  ghost predicate LeftAlone(s: Store, steps: seq<Step>, n: Name, i: nat, j: nat)
    requires j <= |steps|
  {
    forall k :: i < k < j ==>
      steps[k].Claim? || steps[k].Ensure? || (steps[k].Finish? && !FinishesTask(At(s, steps, k), steps[k], n))
      || (!steps[k].Claim? && steps[k].name != n)
  }

  /** A crashed run strands nothing: once the lease of the last claim has passed, the task can be
      claimed again. */
  lemma {:induction false} CrashedRunIsReclaimable(s: Store, steps: seq<Step>, n: Name, i: nat, j: nat, now: Time)
    requires i < j <= |steps| && IsRun(s, steps, j) && ClaimsTask(steps[i], n)
    requires LeftAlone(s, steps, n, i, j)
    requires forall k :: i <= k < j && ClaimsTask(steps[k], n) ==> steps[k].now + steps[k].lease <= now
    ensures n in At(s, steps, j) && Claimable(At(s, steps, j)[n], now)
    decreases j
  {
    var at := At(s, steps, j - 1);
    assert At(s, steps, j) == Apply(at, steps[j - 1]);
    if i + 1 < j {
      CrashedRunIsReclaimable(s, steps, n, i, j - 1, now);
    }
  }

  ghost function DueSet(s: Store, names: set<Name>, now: Time): set<Name> {
    set n | n in names && IsDue(s, names, now, n)
  }

  /** Claims at one instant work through the due tasks: each takes one of them out, so a due task is
      claimed after at most as many claims as there are due tasks. */
  lemma ClaimTakesOneDueTask(s: Store, names: set<Name>, now: Time, lease: nat, token: Token, picked: Option<Name>)
    requires lease > 0 && Picks(s, names, now, picked)
    ensures picked == None <==> DueSet(s, names, now) == {}
    ensures var after := Apply(s, Claim(names, now, lease, token, picked));
            DueSet(after, names, now) == DueSet(s, names, now) - (if picked.Some? then {picked.value} else {})
  {
    if picked == None {
      assert DueSet(s, names, now) == {};
    } else {
      assert picked.value in DueSet(s, names, now);
    }
  }

  lemma {:induction false} DueTaskIsClaimed(s: Store, steps: seq<Step>, names: set<Name>, now: Time, n: Name, i: nat)
    requires i <= |steps| && IsRun(s, steps, i) && IsDue(s, names, now, n)
    requires forall k :: 0 <= k < i ==> steps[k].Claim? && steps[k].names == names && steps[k].now == now && steps[k].lease > 0
    requires forall k :: 0 <= k < i ==> !ClaimsTask(steps[k], n)
    ensures n in DueSet(At(s, steps, i), names, now)
    ensures |DueSet(At(s, steps, i), names, now)| + i == |DueSet(s, names, now)|
    ensures i < |DueSet(s, names, now)|
    decreases i
  {
    if i > 0 {
      DueTaskIsClaimed(s, steps, names, now, n, i - 1);
      var c := steps[i - 1];
      var before := At(s, steps, i - 1);
      assert Enabled(before, c);
      ClaimTakesOneDueTask(before, names, now, c.lease, c.token, c.picked);
    }
  }

  // ----- The repository -----

  class ScheduledTaskRepository {
    var tasks: Store

    constructor ()
      ensures tasks == map[]
    {
      tasks := map[];
    }

    /** Insert-only: an existing task keeps its runtime state. */
    method EnsureTask(name: Name, schedule: Option<Schedule>, enabledDefault: bool, next: Option<Time>)
      modifies this
      ensures tasks == Apply(old(tasks), Ensure(name, schedule, enabledDefault, next))
      ensures name in old(tasks) ==> tasks == old(tasks)
    {
      if name !in tasks {
        tasks := tasks[name := Task(schedule, next, None, None, enabledDefault, None)];
      }
    }

    method ReconcileSchedule(name: Name, schedule: Option<Schedule>, next: Option<Time>) returns (changed: bool)
      modifies this
      ensures tasks == Apply(old(tasks), Reconcile(name, schedule, next))
      ensures changed <==> name in old(tasks) && old(tasks)[name].schedule != schedule
    {
      changed := name in tasks && tasks[name].schedule != schedule;
      if changed {
        tasks := tasks[name := tasks[name].(schedule := schedule, nextRunAt := next)];
      }
    }

    /** Atomically claim the due task that has waited longest, or none when nothing is due. */
    method ClaimDue(names: set<Name>, now: Time, lease: nat, token: Token) returns (row: Option<(Name, Task)>)
      modifies this
      ensures row == None <==> forall n :: n in names && n in old(tasks) ==> !Claimable(old(tasks)[n], now)
      ensures row.Some? ==>
        && row.value.0 in names && row.value.0 in old(tasks) && Claimable(old(tasks)[row.value.0], now)
        && forall n :: n in names && n in old(tasks) && Claimable(old(tasks)[n], now) ==>
             old(tasks)[row.value.0].nextRunAt.value <= old(tasks)[n].nextRunAt.value
      ensures
        var picked := if row.Some? then Some(row.value.0) else None;
        && Enabled(old(tasks), Claim(names, now, lease, token, picked))
        && tasks == Apply(old(tasks), Claim(names, now, lease, token, picked))
      ensures row.Some? ==>
        && row.value.0 in tasks && tasks[row.value.0] == row.value.1
        && row.value.0 in old(tasks)
        && row.value.1 == old(tasks)[row.value.0].(claimedUntil := Some(now + lease), claimToken := Some(token))
    {
      var due := set n | n in names && n in tasks && Claimable(tasks[n], now);
      assert due == DueSet(tasks, names, now);
      if due == {} {
        assert forall n :: n in names && IsDue(tasks, names, now, n) ==> n in due;
        return None;
      }
      var todo, picked: Name := due, *;
      picked :| picked in todo;
      todo := todo - {picked};
      while todo != {}
        invariant picked in due && todo <= due
        invariant forall other :: other in due - todo ==> tasks[picked].nextRunAt.value <= tasks[other].nextRunAt.value
        decreases todo
      {
        var n :| n in todo;
        if tasks[n].nextRunAt.value < tasks[picked].nextRunAt.value {
          picked := n;
        }
        todo := todo - {n};
      }
      forall other | other in names && IsDue(tasks, names, now, other)
        ensures tasks[picked].nextRunAt.value <= tasks[other].nextRunAt.value
      {
        assert other in due - todo;
      }
      tasks := tasks[picked := tasks[picked].(claimedUntil := Some(now + lease), claimToken := Some(token))];
      row := Some((picked, tasks[picked]));
    }

    /** Record the outcome and release the lease, fenced on the claim's token. */
    method FinishRun(name: Name, fence: Option<Token>, outcome: Outcome, schedule: Option<Schedule>, next: Option<Time>)
      returns (accepted: bool)
      modifies this
      ensures accepted == Accepts(old(tasks), Finish(name, fence, outcome, schedule, next))
      ensures tasks == Apply(old(tasks), Finish(name, fence, outcome, schedule, next))
      ensures accepted <==> name in old(tasks) && old(tasks)[name].claimToken == fence
      ensures !accepted ==> tasks == old(tasks)
      ensures accepted ==>
        && tasks.Keys == old(tasks).Keys && tasks - {name} == old(tasks) - {name}
        && tasks[name].lastRun == Some(outcome) && tasks[name].enabled == old(tasks)[name].enabled
        && tasks[name].schedule == old(tasks)[name].schedule
        && tasks[name].claimedUntil == None && tasks[name].claimToken == None
        && tasks[name].nextRunAt == if old(tasks)[name].schedule == schedule then next else old(tasks)[name].nextRunAt
    {
      if name !in tasks || tasks[name].claimToken != fence {
        return false;
      }
      var t := tasks[name];
      tasks := tasks[name := t.(lastRun := Some(outcome), claimedUntil := None, claimToken := None,
                                nextRunAt := if t.schedule == schedule then next else t.nextRunAt)];
      return true;
    }

    method InvokeNow(name: Name, now: Time) returns (armed: bool)
      modifies this
      ensures tasks == Apply(old(tasks), Invoke(name, now))
      ensures armed <==> name in old(tasks) && old(tasks)[name].nextRunAt != Some(now)
    {
      armed := name in tasks && tasks[name].nextRunAt != Some(now);
      if name in tasks {
        tasks := tasks[name := tasks[name].(nextRunAt := Some(now))];
      }
    }
  }
}
