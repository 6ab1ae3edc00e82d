/**
 Webhook deliveries and the pending-slot counter of their endpoints. A dispatch reserves a slot and
 then inserts a row; executors claim rows under a lease and record attempts, any of them possibly
 long after its lease has gone; the terminal write that takes a row out of PENDING answers true, and
 its caller then releases the slot. Every write is one atomic step.
 */
module WebhookDeliveries {
  import opened Prelude

  type Id = nat
  type EndpointId = nat
  type Time = int

  datatype Status = Pending | Success | Failed

  datatype Attempt = Attempt(at: Time, error: Option<string>)

  datatype Row = Row(
    endpoint: EndpointId,
    isTest: bool,
    status: Status,
    attempts: seq<Attempt>,
    attemptCount: nat,
    body: Option<string>,
    nextAttemptAt: Option<Time>,
    claimedUntil: Option<Time>)

  type Rows = map<Id, Row>

  function NewRow(e: EndpointId, isTest: bool, nextAttemptAt: Option<Time>): Row {
    Row(e, isTest, Pending, [], 0, None, nextAttemptAt, None)
  }

  // ----- Writes to one row -----

  predicate IsDue(r: Row, now: Time, excluded: set<EndpointId>) {
    && r.status == Pending && r.nextAttemptAt.Some? && r.nextAttemptAt.value <= now
    && (r.claimedUntil.None? || r.claimedUntil.value <= now)
    && r.endpoint !in excluded
  }

  function Leased(r: Row, now: Time, lease: nat): Row { r.(claimedUntil := Some(now + lease)) }

  function WithBody(r: Row, body: string): Row { if r.body == None then r.(body := Some(body)) else r }

  function Rescheduled(r: Row, attempt: Attempt, next: Time): Row {
    r.(attempts := r.attempts + [attempt], attemptCount := r.attemptCount + 1, nextAttemptAt := Some(next), claimedUntil := None)
  }

  function Deferred(r: Row, until: Time): Row { r.(nextAttemptAt := Some(until), claimedUntil := None) }

  function Finished(r: Row, attempt: Attempt, status: Status): Row {
    r.(attempts := r.attempts + [attempt], attemptCount := r.attemptCount + 1,
       status := status, nextAttemptAt := None, claimedUntil := None)
  }

  // ----- The protocol -----

  /** The stored counter of one endpoint, and the slots in flight: dispatches that have reserved and
      not inserted, and terminal writes that have answered true and not released. */
  datatype Slots = Slots(pending: nat, reserving: nat, releasing: nat)

  datatype State = State(rows: Rows, slots: map<EndpointId, Slots>, cap: nat)

  datatype Step =
    | Reserve(e: EndpointId)
    | InsertRow(id: Id, e: EndpointId, next: Time)
    | InsertTest(id: Id, e: EndpointId)
    | Claim(id: Id, now: Time, lease: nat, excluded: set<EndpointId>)
    | SetBody(id: Id, body: string)
    | Reschedule(id: Id, attempt: Attempt, next: Time)
    | Defer(id: Id, until: Time)
    | Finish(id: Id, attempt: Attempt, status: Status)
    | Release(e: EndpointId)

  /** The writes of executors, live, stale or manual, are always possible; the rest is bookkeeping. */
  predicate Enabled(s: State, step: Step) {
    match step
    case InsertRow(id, e, _) => id !in s.rows && e in s.slots && s.slots[e].reserving > 0
    case InsertTest(id, e) => id !in s.rows
    case Claim(id, now, _, excluded) => id in s.rows && IsDue(s.rows[id], now, excluded)
    case Finish(_, _, status) => status != Pending
    case Release(e) => e in s.slots && s.slots[e].releasing > 0
    case _ => true
  }

  predicate HasSlot(s: State, e: EndpointId) { e in s.slots && s.slots[e].pending < s.cap }

  /** The answer of a terminal write: this call took the row out of PENDING. */
  predicate TakesOut(s: State, step: Step) {
    step.Finish? && step.id in s.rows && s.rows[step.id].status == Pending
  }

  function Apply(s: State, step: Step): State
    requires Enabled(s, step)
  {
    match step
    case Reserve(e) =>
      if HasSlot(s, e) then
        var slots := s.slots[e];
        s.(slots := s.slots[e := slots.(pending := slots.pending + 1, reserving := slots.reserving + 1)])
      else s
    case InsertRow(id, e, next) =>
      s.(rows := s.rows[id := NewRow(e, false, Some(next))],
         slots := s.slots[e := s.slots[e].(reserving := s.slots[e].reserving - 1)])
    case InsertTest(id, e) => s.(rows := s.rows[id := NewRow(e, true, None)])
    case Claim(id, now, lease, _) => s.(rows := s.rows[id := Leased(s.rows[id], now, lease)])
    case SetBody(id, body) => if id in s.rows then s.(rows := s.rows[id := WithBody(s.rows[id], body)]) else s
    case Reschedule(id, a, next) => if id in s.rows then s.(rows := s.rows[id := Rescheduled(s.rows[id], a, next)]) else s
    case Defer(id, until) => if id in s.rows then s.(rows := s.rows[id := Deferred(s.rows[id], until)]) else s
    case Finish(id, a, status) =>
      if id !in s.rows then s
      else
        var e := s.rows[id].endpoint;
        var owes := TakesOut(s, step) && !s.rows[id].isTest && e in s.slots;
        s.(rows := s.rows[id := Finished(s.rows[id], a, status)],
           slots := if owes then s.slots[e := s.slots[e].(releasing := s.slots[e].releasing + 1)] else s.slots)
    case Release(e) =>
      var slots := s.slots[e];
      s.(slots := s.slots[e := slots.(pending := if slots.pending > 0 then slots.pending - 1 else 0,
                                      releasing := slots.releasing - 1)])
  }

  function At(s: State, steps: seq<Step>, i: nat): State
    requires i <= |steps|
  {
    if i == 0 then s
    else
      var before := At(s, steps, i - 1);
      if Enabled(before, steps[i - 1]) then Apply(before, steps[i - 1]) else before
  }

  predicate IsRun(s: State, steps: seq<Step>, i: nat)
    requires i <= |steps|
  {
    i == 0 || (IsRun(s, steps, i - 1) && Enabled(At(s, steps, i - 1), steps[i - 1]))
  }

  predicate Initial(s: State) {
    s.rows == map[] && forall e :: e in s.slots ==> s.slots[e] == Slots(0, 0, 0)
  }

  // ----- The counter -----

  function PendingRows(rows: Rows, e: EndpointId): set<Id> {
    set id | id in rows && rows[id].endpoint == e && rows[id].status == Pending && !rows[id].isTest
  }

  /** `pending_count` is the pending rows that hold a slot, plus the slots in flight either way, and
      never exceeds the cap. */
  ghost predicate Balanced(s: State) {
    && (forall e :: e in s.slots ==> IsExact(s.rows, e, s.slots[e]) && s.slots[e].pending <= s.cap)
    && (forall id :: id in s.rows && !s.rows[id].isTest ==> s.rows[id].endpoint in s.slots)
  }

  predicate IsExact(rows: Rows, e: EndpointId, slots: Slots) {
    slots.pending == |PendingRows(rows, e)| + slots.reserving + slots.releasing
  }

  predicate HoldsSlot(r: Row, e: EndpointId) { r.endpoint == e && r.status == Pending && !r.isTest }

  function OtherPending(rows: Rows, id: Id, e: EndpointId): set<Id> {
    set other | other in rows && other != id && HoldsSlot(rows[other], e)
  }

  lemma PendingSplits(rows: Rows, id: Id, e: EndpointId)
    ensures |PendingRows(rows, e)| == |OtherPending(rows, id, e)| + (if id in rows && HoldsSlot(rows[id], e) then 1 else 0)
  {
    var others := OtherPending(rows, id, e);
    if id in rows && HoldsSlot(rows[id], e) {
      assert PendingRows(rows, e) == others + {id};
    } else {
      assert PendingRows(rows, e) == others;
    }
  }

  lemma WriteLeavesOthers(rows: Rows, id: Id, r: Row, e: EndpointId)
    ensures OtherPending(rows[id := r], id, e) == OtherPending(rows, id, e)
  {
  }

  lemma PendingCountAfterWrite(rows: Rows, id: Id, r: Row, e: EndpointId)
    ensures |PendingRows(rows[id := r], e)|
            == |PendingRows(rows, e)| + (if HoldsSlot(r, e) then 1 else 0)
                                      - (if id in rows && HoldsSlot(rows[id], e) then 1 else 0)
  {
    PendingSplits(rows, id, e);
    PendingSplits(rows[id := r], id, e);
    WriteLeavesOthers(rows, id, r, e);
  }

  lemma RowWriteKeepsExact(s: State, step: Step, e: EndpointId)
    requires Balanced(s) && Enabled(s, step) && !step.Reserve? && !step.Release? && e in s.slots
    ensures e in Apply(s, step).slots && IsExact(Apply(s, step).rows, e, Apply(s, step).slots[e])
  {
    var after := Apply(s, step);
    if step.id in after.rows {
      assert after.rows == s.rows[step.id := after.rows[step.id]];
      PendingCountAfterWrite(s.rows, step.id, after.rows[step.id], e);
    }
  }

  /** Every step keeps the counter exact; in particular no release ever finds it at zero. */
  lemma StepKeepsBalance(s: State, step: Step)
    requires Balanced(s) && Enabled(s, step)
    ensures Balanced(Apply(s, step))
    ensures step.Release? ==> s.slots[step.e].pending > 0
  {
    if !step.Reserve? && !step.Release? {
      forall e | e in s.slots ensures IsExact(Apply(s, step).rows, e, Apply(s, step).slots[e]) {
        RowWriteKeepsExact(s, step, e);
      }
    }
  }

  lemma {:induction false} CounterIsExact(s: State, steps: seq<Step>, i: nat)
    requires i <= |steps| && Initial(s) && IsRun(s, steps, i)
    ensures Balanced(At(s, steps, i))
  {
    if i == 0 {
      assert forall e :: PendingRows(s.rows, e) == {};
    } else {
      CounterIsExact(s, steps, i - 1);
      StepKeepsBalance(At(s, steps, i - 1), steps[i - 1]);
    }
  }

  /** A recount is below the counter by exactly the slots in flight: with none in flight, it repairs
      nothing. */
  lemma RecountUndercountsBySlotsInFlight(s: State, steps: seq<Step>, e: EndpointId)
    requires Initial(s) && IsRun(s, steps, |steps|) && e in At(s, steps, |steps|).slots
    ensures var t := At(s, steps, |steps|);
            t.slots[e].pending - |PendingRows(t.rows, e)| == t.slots[e].reserving + t.slots[e].releasing
  {
    CounterIsExact(s, steps, |steps|);
  }

  // ----- The life of one row -----

  function TakeOuts(s: State, steps: seq<Step>, id: Id, i: nat): nat
    requires i <= |steps|
  {
    if i == 0 then 0
    else TakeOuts(s, steps, id, i - 1)
         + (if TakesOut(At(s, steps, i - 1), steps[i - 1]) && steps[i - 1].id == id then 1 else 0)
  }

  function FinishCalls(s: State, steps: seq<Step>, id: Id, i: nat): nat
    requires i <= |steps|
  {
    if i == 0 then 0
    else FinishCalls(s, steps, id, i - 1)
         + (if steps[i - 1].Finish? && steps[i - 1].id == id && id in At(s, steps, i - 1).rows then 1 else 0)
  }

  /** However many executors write to a row, it leaves PENDING at its first terminal write, and exactly
      that write answers true. */
  lemma {:induction false} OneTerminalWriteAnswersTrue(s: State, steps: seq<Step>, id: Id, i: nat)
    requires i <= |steps| && s.rows == map[] && IsRun(s, steps, i)
    ensures TakeOuts(s, steps, id, i) == (if FinishCalls(s, steps, id, i) > 0 then 1 else 0)
    ensures FinishCalls(s, steps, id, i) > 0 <==> id in At(s, steps, i).rows && At(s, steps, i).rows[id].status != Pending
  {
    if i > 0 {
      OneTerminalWriteAnswersTrue(s, steps, id, i - 1);
    }
  }

  /** What no write ever undoes. */
  ghost predicate Extends(before: Rows, after: Rows) {
    forall id :: id in before ==>
      && id in after
      && after[id].endpoint == before[id].endpoint && after[id].isTest == before[id].isTest
      && before[id].attempts <= after[id].attempts
      && (before[id].body.Some? ==> after[id].body == before[id].body)
      && (before[id].status != Pending ==> after[id].status != Pending)
  }

  lemma StepExtends(s: State, step: Step)
    requires Enabled(s, step)
    ensures Extends(s.rows, Apply(s, step).rows)
  {
  }

  lemma ExtendsTransitive(a: Rows, b: Rows, c: Rows)
    requires Extends(a, b) && Extends(b, c)
    ensures Extends(a, c)
  {
  }

  /** Attempts are only appended, a rendered body is frozen, and a finished row stays finished. */
  lemma {:induction false} HistoryOnlyGrows(s: State, steps: seq<Step>, i: nat, j: nat)
    requires i <= j <= |steps| && IsRun(s, steps, j)
    ensures Extends(At(s, steps, i).rows, At(s, steps, j).rows)
    decreases j
  {
    if i < j {
      HistoryOnlyGrows(s, steps, i, j - 1);
      StepExtends(At(s, steps, j - 1), steps[j - 1]);
      ExtendsTransitive(At(s, steps, i).rows, At(s, steps, j - 1).rows, At(s, steps, j).rows);
    }
  }

  lemma {:induction false} AttemptCountIsExact(s: State, steps: seq<Step>, i: nat)
    requires i <= |steps| && s.rows == map[]
    ensures forall id :: id in At(s, steps, i).rows ==> At(s, steps, i).rows[id].attemptCount == |At(s, steps, i).rows[id].attempts|
  {
    if i > 0 {
      AttemptCountIsExact(s, steps, i - 1);
    }
  }

  /** A finished row is out of the executors' reach for good. */
  lemma FinishedRowIsNeverClaimed(s: State, steps: seq<Step>, id: Id, i: nat, j: nat)
    requires i <= j < |steps| && IsRun(s, steps, j + 1)
    requires id in At(s, steps, i).rows && At(s, steps, i).rows[id].status != Pending
    ensures !(steps[j].Claim? && steps[j].id == id)
  {
    HistoryOnlyGrows(s, steps, i, j);
  }

  /** The outcome on record is that of the last terminal write, not of the one that answered true. */
  lemma {:induction false} LastTerminalWriteDecides(s: State, steps: seq<Step>, id: Id, i: nat, j: nat)
    requires i < j <= |steps| && IsRun(s, steps, j)
    requires steps[i].Finish? && steps[i].id == id && id in At(s, steps, i).rows
    requires forall k :: i < k < j ==> !(steps[k].Finish? && steps[k].id == id)
    ensures id in At(s, steps, j).rows && At(s, steps, j).rows[id].status == steps[i].status
    decreases j
  {
    if i + 1 < j {
      LastTerminalWriteDecides(s, steps, id, i, j - 1);
    }
  }

  // ----- The lease, which is not fenced -----

  /** Writes that hand the row back, whoever makes them. */
  predicate HandsBack(step: Step, id: Id) {
    (step.Reschedule? || step.Defer? || step.Finish?) && step.id == id
  }

  lemma {:induction false} LeaseLasts(s: State, steps: seq<Step>, id: Id, i: nat, j: nat)
    requires i < j <= |steps| && IsRun(s, steps, j) && steps[i].Claim? && steps[i].id == id
    requires forall k :: i < k < j ==> !HandsBack(steps[k], id)
    ensures id in At(s, steps, j).rows
    ensures var until := At(s, steps, j).rows[id].claimedUntil; until.Some? && until.value >= steps[i].now + steps[i].lease
    decreases j
  {
    if i + 1 < j {
      LeaseLasts(s, steps, id, i, j - 1);
    }
  }

  /** Two claims of one row are a lease apart unless somebody handed the row back in between. */
  lemma ClaimsAreALeaseApart(s: State, steps: seq<Step>, id: Id, i: nat, j: nat)
    requires i < j < |steps| && IsRun(s, steps, j + 1)
    requires steps[i].Claim? && steps[i].id == id && steps[j].Claim? && steps[j].id == id
    requires forall k :: i < k < j ==> !HandsBack(steps[k], id)
    ensures steps[j].now >= steps[i].now + steps[i].lease
  {
    assert IsRun(s, steps, j);
    LeaseLasts(s, steps, id, i, j);
  }

  /** The caveat is needed: the handing-back writes carry no claim token, so a stale executor's defer
      or reschedule makes a row its new holder is still working on claimable, whatever the lease. */
  lemma StaleWriteEndsTheLease(s: State, id: Id, until: Time, attempt: Attempt, now: Time)
    requires id in s.rows && s.rows[id].status == Pending
    ensures IsDue(Apply(s, Defer(id, until)).rows[id], now, {}) <==> until <= now
    ensures IsDue(Apply(s, Reschedule(id, attempt, until)).rows[id], now, {}) <==> until <= now
  {
  }

  /** Writes that decide when an executor may next claim the row. */
  predicate Times(step: Step, id: Id) {
    (step.Claim? || step.Reschedule? || step.Defer? || step.InsertRow? || step.InsertTest?) && step.id == id
  }

  /** From when on the row can be claimed after such a write; a test row waits for no executor. */
  function ReadyAt(step: Step): Option<Time> {
    match step
    case Claim(_, now, lease, _) => Some(now + lease)
    case Reschedule(_, _, next) => Some(next)
    case Defer(_, until) => Some(until)
    case InsertRow(_, _, next) => Some(next)
    case _ => None
  }

  predicate TimedBy(r: Row, step: Step) {
    if step.Claim? then
      && r.nextAttemptAt.Some? && r.nextAttemptAt.value <= step.now
      && r.claimedUntil == Some(step.now + step.lease)
    else r.nextAttemptAt == ReadyAt(step) && r.claimedUntil == None
  }

  lemma StepTimes(s: State, step: Step, id: Id)
    requires Enabled(s, step) && id in Apply(s, step).rows
    ensures Times(step, id) ==> TimedBy(Apply(s, step).rows[id], step)
    ensures !Times(step, id) ==>
      && id in s.rows
      && (Apply(s, step).rows[id].status == Pending ==>
            && s.rows[id].status == Pending
            && Apply(s, step).rows[id].nextAttemptAt == s.rows[id].nextAttemptAt
            && Apply(s, step).rows[id].claimedUntil == s.rows[id].claimedUntil)
  {
  }

  lemma {:induction false} LastTiming(s: State, steps: seq<Step>, id: Id, j: nat) returns (i: nat)
    requires j <= |steps| && s.rows == map[] && IsRun(s, steps, j)
    requires id in At(s, steps, j).rows && At(s, steps, j).rows[id].status == Pending
    ensures i < j && Times(steps[i], id) && TimedBy(At(s, steps, j).rows[id], steps[i])
    ensures forall k :: i < k < j ==> !Times(steps[k], id)
  {
    StepTimes(At(s, steps, j - 1), steps[j - 1], id);
    if Times(steps[j - 1], id) {
      i := j - 1;
    } else {
      i := LastTiming(s, steps, id, j - 1);
    }
  }

  /** In every reachable state a pending row is due from exactly the moment that the last claim, or the
      last write that handed it back or inserted it, has set, whichever executor made that write. */
  lemma NextClaimIff(s: State, steps: seq<Step>, id: Id, j: nat) returns (i: nat)
    requires j <= |steps| && s.rows == map[] && IsRun(s, steps, j)
    requires id in At(s, steps, j).rows && At(s, steps, j).rows[id].status == Pending
    ensures i < j && Times(steps[i], id) && forall k :: i < k < j ==> !Times(steps[k], id)
    ensures forall now, excluded :: IsDue(At(s, steps, j).rows[id], now, excluded) <==>
              && ReadyAt(steps[i]).Some? && ReadyAt(steps[i]).value <= now
              && At(s, steps, j).rows[id].endpoint !in excluded
  {
    i := LastTiming(s, steps, id, j);
  }

  // ----- What an executor makes of one attempt -----

  const RETRY_SCHEDULE: seq<nat> := [0, 5, 300, 1800, 7200, 18000, 36000]
  const PAUSED_RECHECK := 300
  const RATE_LIMIT_FALLBACK := 60
  const RATE_LIMIT_MAX_DEFER := 900

  datatype EndpointState = Live | Paused | Inactive

  /** What an attempt meets: the endpoint, the body it renders if the row has none, the signing secret,
      the receiver's status code if it answered, and its Retry-After. */
  datatype Meeting = Meeting(
    endpoint: EndpointState,
    rendered: Option<string>,
    secretReadable: bool,
    code: Option<int>,
    retryAfter: Option<int>)

  datatype Verdict = Holds(seconds: int) | Retries(seconds: int) | Ends(status: Status)

  /** Test sends and manual retries of finished rows get one attempt and no ladder. */
  predicate SingleShot(r: Row) { r.isTest || r.status != Pending }

  /** Whether the attempt comes to a body, its own or a rendered one. */
  predicate HasBody(seen: Row, m: Meeting) { seen.body.Some? || m.rendered.Some? }

  predicate GetsToRender(seen: Row, m: Meeting) { m.endpoint == Live || (m.endpoint == Paused && SingleShot(seen)) }

  /** A Retry-After of zero counts as none. */
  function RateLimitDelay(retryAfter: Option<int>): int {
    var delay := if retryAfter.Some? && retryAfter.value != 0 then retryAfter.value else RATE_LIMIT_FALLBACK;
    if delay < RATE_LIMIT_MAX_DEFER then delay else RATE_LIMIT_MAX_DEFER
  }

  /** The decision on the row as the executor claimed it, which may be long ago. */
  function VerdictOn(seen: Row, m: Meeting): (v: Verdict)
    ensures v.Ends? ==> v.status != Pending
    ensures !v.Ends? ==> !SingleShot(seen)
    ensures v.Retries? ==> seen.attemptCount + 1 < |RETRY_SCHEDULE| && v.seconds >= 5
  {
    if m.endpoint == Inactive then Ends(Failed)
    else if m.endpoint == Paused && !SingleShot(seen) then Holds(PAUSED_RECHECK)
    else if !HasBody(seen, m) || !m.secretReadable then Ends(Failed)
    else if m.code.Some? && 200 <= m.code.value < 300 then Ends(Success)
    else if m.code == Some(429) && !SingleShot(seen) then Holds(RateLimitDelay(m.retryAfter))
    else if SingleShot(seen) || m.code == Some(410) || seen.attemptCount + 1 >= |RETRY_SCHEDULE| then Ends(Failed)
    else Retries(RETRY_SCHEDULE[seen.attemptCount + 1])
  }

  function Settled(r: Row, v: Verdict, now: Time, attempt: Attempt): Row {
    match v
    case Holds(seconds) => Deferred(r, now + seconds)
    case Retries(seconds) => Rescheduled(r, attempt, now + seconds)
    case Ends(status) => Finished(r, attempt, status)
  }

  predicate Renders(seen: Row, m: Meeting) { GetsToRender(seen, m) && seen.body == None && m.rendered.Some? }

  /** The row after an attempt of an executor that saw it as `seen`. */
  function Attempted(r: Row, seen: Row, m: Meeting, now: Time, attempt: Attempt): Row {
    Settled(if Renders(seen, m) then WithBody(r, m.rendered.value) else r, VerdictOn(seen, m), now, attempt)
  }

  /** While a row is pending it has rungs of the ladder left. */
  predicate OnLadder(r: Row) { r.status == Pending ==> r.attemptCount < |RETRY_SCHEDULE| }

  /** Whatever has been written since the executor saw the row: its history only grows, by one attempt
      unless the row is put on hold; it is pending after iff it was and the verdict is not final, and
      then due from when the verdict says. An attempt on a row that nobody has written since keeps it
      on the ladder. */
  lemma AttemptKeepsHistory(r: Row, seen: Row, m: Meeting, now: Time, attempt: Attempt)
    ensures var v, after := VerdictOn(seen, m), Attempted(r, seen, m, now, attempt);
      && after.attempts == r.attempts + (if v.Holds? then [] else [attempt])
      && after.attemptCount == r.attemptCount + (if v.Holds? then 0 else 1)
      && (r.body.Some? ==> after.body == r.body)
      && (after.status == Pending <==> r.status == Pending && !v.Ends?)
      && (after.status == Pending ==> forall t :: IsDue(after, t, {}) <==> now + v.seconds <= t)
      && (seen == r && OnLadder(r) ==> OnLadder(after))
  {
  }

  /** The row after an attempt, by what the attempt met. It is held five minutes at a paused endpoint, and
      as long as the receiver asks within a quarter of an hour when it is rate limited; retried at the next
      rung when the receiver fails and rungs are left; and finished otherwise, with success iff the
      receiver answered with a 2xx code. A test send or a retry of a finished row is never held and never
      retried. */
  ghost predicate IsAnswered(r: Row, seen: Row, m: Meeting, now: Time, attempt: Attempt, after: Row) {
    var single := seen.isTest || seen.status != Pending;
    var reached := m.endpoint == Live || (m.endpoint == Paused && single);
    var posted := reached && (seen.body.Some? || m.rendered.Some?) && m.secretReadable;
    var accepted := posted && m.code.Some? && 200 <= m.code.value <= 299;
    && after.endpoint == r.endpoint && after.isTest == r.isTest && after.claimedUntil == None
    && after.body == (if r.body == None && seen.body == None && reached then m.rendered else r.body)
    && (if (m.endpoint == Paused && !single) || (posted && m.code == Some(429) && !single) then
          && after.status == r.status && after.attempts == r.attempts && after.attemptCount == r.attemptCount
          && after.nextAttemptAt == Some(now + if m.endpoint == Paused then 300 else Backoff(m.retryAfter))
        else
          && after.attempts == r.attempts + [attempt] && after.attemptCount == r.attemptCount + 1
          && if posted && !accepted && m.code != Some(410) && !single && seen.attemptCount < 6 then
               && after.status == r.status
               && after.nextAttemptAt == Some(now + [5, 300, 1800, 7200, 18000, 36000][seen.attemptCount])
             else
               after.status == (if accepted then Success else Failed) && after.nextAttemptAt == None)
  }

  function Backoff(retryAfter: Option<int>): int {
    match retryAfter
    case None => 60
    case Some(seconds) => if seconds == 0 then 60 else if seconds > 900 then 900 else seconds
  }

  lemma AttemptIsAnswered(r: Row, seen: Row, m: Meeting, now: Time, attempt: Attempt)
    ensures IsAnswered(r, seen, m, now, attempt, Attempted(r, seen, m, now, attempt))
  {
  }

  // ----- The retry ladder over whole runs -----

  /** One attempt on a row: what it met, when, and what is recorded of it. */
  datatype Try = Try(meeting: Meeting, now: Time, attempt: Attempt)

  /** The row after the first `n` attempts, each on the row as the one before left it. */
  function Tried(r: Row, tries: seq<Try>, n: nat): Row
    requires n <= |tries|
  {
    if n == 0 then r
    else
      var before := Tried(r, tries, n - 1);
      Attempted(before, before, tries[n - 1].meeting, tries[n - 1].now, tries[n - 1].attempt)
  }

  /** The receiver is asked, and neither accepts, nor is gone for good, nor limits the rate. */
  predicate Retryable(m: Meeting) {
    && m.endpoint == Live && m.rendered.Some? && m.secretReadable
    && m.code != Some(429) && m.code != Some(410)
    && !(m.code.Some? && 200 <= m.code.value <= 299)
  }

  predicate Waits(m: Meeting) {
    m.endpoint == Paused || (m.endpoint == Live && m.rendered.Some? && m.secretReadable && m.code == Some(429))
  }

  /** How many of the first `n` attempts burned a rung. */
  function Burned(tries: seq<Try>, n: nat): nat
    requires n <= |tries|
  {
    if n == 0 then 0 else Burned(tries, n - 1) + (if Retryable(tries[n - 1].meeting) then 1 else 0)
  }

  lemma {:induction false} BurnedGrows(tries: seq<Try>, k: nat, n: nat)
    requires k <= n <= |tries|
    ensures Burned(tries, k) <= Burned(tries, n)
    decreases n
  {
    if k < n {
      BurnedGrows(tries, k, n - 1);
    }
  }

  lemma TriedOnceMore(r: Row, tries: seq<Try>, n: nat)
    requires n < |tries|
    ensures var before := Tried(r, tries, n);
      IsAnswered(before, before, tries[n].meeting, tries[n].now, tries[n].attempt, Tried(r, tries, n + 1))
  {
    var before := Tried(r, tries, n);
    AttemptIsAnswered(before, before, tries[n].meeting, tries[n].now, tries[n].attempt);
  }

  /** After `burned` rungs: pending until the seventh, then failed, with that many attempts on record. */
  predicate OnRung(r: Row, burned: nat) {
    && !r.isTest && r.attemptCount == |r.attempts| == burned <= 7
    && r.status == if burned < 7 then Pending else Failed
  }

  /** When the row is due after an attempt that leaves it pending. */
  function DueAfter(last: Try, burned: nat): Time
    requires Retryable(last.meeting) ==> 0 < burned < 7
  {
    last.now + if Retryable(last.meeting) then [5, 300, 1800, 7200, 18000, 36000][burned - 1]
               else if last.meeting.endpoint == Paused then 300
               else Backoff(last.meeting.retryAfter)
  }

  lemma OneRungMore(r: Row, last: Try, after: Row, burned: nat)
    requires OnRung(r, burned) && burned < 7 && (Retryable(last.meeting) || Waits(last.meeting))
    requires IsAnswered(r, r, last.meeting, last.now, last.attempt, after)
    ensures var more := burned + if Retryable(last.meeting) then 1 else 0;
      && OnRung(after, more)
      && (more < 7 ==> after.nextAttemptAt == Some(DueAfter(last, more)))
  {
  }

  /** A new delivery that only ever meets retryable failures and waits is attempted exactly seven times:
      it stays pending, due when its last attempt said, until the seventh failure, which ends it. Waits
      burn no rung, however many there are. */
  lemma {:induction false} LadderIsExact(r: Row, tries: seq<Try>, n: nat)
    requires n <= |tries| && OnRung(r, 0)
    requires forall k :: 0 <= k < n ==> Retryable(tries[k].meeting) || Waits(tries[k].meeting)
    requires n > 0 ==> Burned(tries, n - 1) < 7
    ensures OnRung(Tried(r, tries, n), Burned(tries, n))
    ensures n > 0 && Burned(tries, n) < 7 ==>
              Tried(r, tries, n).nextAttemptAt == Some(DueAfter(tries[n - 1], Burned(tries, n)))
  {
    if n > 0 {
      if n > 1 {
        BurnedGrows(tries, n - 2, n - 1);
      }
      LadderIsExact(r, tries, n - 1);
      TriedOnceMore(r, tries, n - 1);
      OneRungMore(Tried(r, tries, n - 1), tries[n - 1], Tried(r, tries, n), Burned(tries, n - 1));
    }
  }

  // ----- The repositories -----

  function PendingOf(s: State): map<EndpointId, nat> { map e | e in s.slots :: s.slots[e].pending }

  /** The rows of the deliveries collection and the counters of the endpoints collection. */
  class WebhookStore {
    var rows: Rows
    var counts: map<EndpointId, nat>

    constructor (endpoints: set<EndpointId>)
      ensures rows == map[] && counts == map e | e in endpoints :: 0
    {
      rows, counts := map[], map e | e in endpoints :: 0;
    }

    method ReservePending(e: EndpointId, cap: nat) returns (reserved: bool)
      modifies this`counts
      ensures reserved <==> e in old(counts) && old(counts)[e] < cap
      ensures forall s: State | PendingOf(s) == old(counts) && s.cap == cap :: PendingOf(Apply(s, Reserve(e))) == counts
    {
      ghost var before := counts;
      reserved := e in counts && counts[e] < cap;
      if reserved {
        counts := counts[e := counts[e] + 1];
      }
      forall s: State | PendingOf(s) == before && s.cap == cap ensures PendingOf(Apply(s, Reserve(e))) == counts {
        assert s.slots.Keys == PendingOf(s).Keys;
      }
    }

    method ReleasePending(e: EndpointId)
      modifies this`counts
      ensures counts == if e in old(counts) && old(counts)[e] > 0 then old(counts)[e := old(counts)[e] - 1] else old(counts)
    {
      if e in counts && counts[e] > 0 {
        counts := counts[e := counts[e] - 1];
      }
    }

    /** Claim the due row that has waited longest, or none when nothing is due. */
    method ClaimDue(now: Time, lease: nat, excluded: set<EndpointId>) returns (claimed: Option<Id>)
      modifies this`rows
      ensures claimed == None ==> rows == old(rows) && forall id :: id in rows ==> !IsDue(rows[id], now, excluded)
      ensures claimed.Some? ==>
        && claimed.value in old(rows)
        && old(rows)[claimed.value].endpoint !in excluded && old(rows)[claimed.value].status == Pending
        && old(rows)[claimed.value].nextAttemptAt.Some? && old(rows)[claimed.value].nextAttemptAt.value <= now
        && rows == old(rows)[claimed.value := old(rows)[claimed.value].(claimedUntil := Some(now + lease))]
      ensures claimed.Some? ==>
        && claimed.value in old(rows) && IsDue(old(rows)[claimed.value], now, excluded)
        && rows == old(rows)[claimed.value := Leased(old(rows)[claimed.value], now, lease)]
        && forall id :: id in old(rows) && IsDue(old(rows)[id], now, excluded) ==>
             old(rows)[claimed.value].nextAttemptAt.value <= old(rows)[id].nextAttemptAt.value
    {
      var due := set id | id in rows && IsDue(rows[id], now, excluded);
      if due == {} {
        assert forall id :: id in rows && IsDue(rows[id], now, excluded) ==> id in due;
        return None;
      }
      var first: Id :| first in due;
      var todo := due - {first};
      while todo != {}
        invariant first in due && todo <= due
        invariant forall id :: id in due - todo ==> rows[first].nextAttemptAt.value <= rows[id].nextAttemptAt.value
        decreases todo
      {
        var id :| id in todo;
        if rows[id].nextAttemptAt.value < rows[first].nextAttemptAt.value {
          first := id;
        }
        todo := todo - {id};
      }
      forall id | id in rows && IsDue(rows[id], now, excluded)
        ensures rows[first].nextAttemptAt.value <= rows[id].nextAttemptAt.value
      {
        assert id in due - todo;
      }
      rows := rows[first := rows[first].(claimedUntil := Some(now + lease))];
      claimed := Some(first);
    }

    /** First attempt only: the body is frozen across retries. */
    method SetRenderedBody(id: Id, body: string)
      modifies this`rows
      ensures forall s: State | s.rows == old(rows) :: Apply(s, SetBody(id, body)).rows == rows
      ensures rows == if id in old(rows) then old(rows)[id := WithBody(old(rows)[id], body)] else old(rows)
    {
      if id in rows && rows[id].body == None {
        rows := rows[id := rows[id].(body := Some(body))];
      }
      assert id in old(rows) ==> old(rows)[id := WithBody(old(rows)[id], body)] == rows;
    }

    method RecordAttemptAndReschedule(id: Id, attempt: Attempt, next: Time)
      modifies this`rows
      ensures forall s: State | s.rows == old(rows) :: Apply(s, Reschedule(id, attempt, next)).rows == rows
      ensures rows == if id in old(rows) then old(rows)[id := Rescheduled(old(rows)[id], attempt, next)] else old(rows)
    {
      if id in rows {
        rows := rows[id := rows[id].(attempts := rows[id].attempts + [attempt], attemptCount := rows[id].attemptCount + 1,
                                     nextAttemptAt := Some(next), claimedUntil := None)];
      }
    }

    method DeferDelivery(id: Id, until: Time)
      modifies this`rows
      ensures forall s: State | s.rows == old(rows) :: Apply(s, Defer(id, until)).rows == rows
      ensures rows == if id in old(rows) then old(rows)[id := Deferred(old(rows)[id], until)] else old(rows)
    {
      if id in rows {
        rows := rows[id := rows[id].(nextAttemptAt := Some(until), claimedUntil := None)];
      }
    }

    /** The terminal write; true when this call took the row out of PENDING. */
    method RecordAttemptAndFinish(id: Id, attempt: Attempt, status: Status) returns (tookOut: bool)
      requires status != Pending
      modifies this`rows
      ensures forall s: State | s.rows == old(rows) ::
                Apply(s, Finish(id, attempt, status)).rows == rows && tookOut == TakesOut(s, Finish(id, attempt, status))
      ensures tookOut <==> id in old(rows) && old(rows)[id].status == Pending
      ensures rows == if id in old(rows) then old(rows)[id := Finished(old(rows)[id], attempt, status)] else old(rows)
    {
      tookOut := id in rows && rows[id].status == Pending;
      if id in rows {
        rows := rows[id := rows[id].(attempts := rows[id].attempts + [attempt], attemptCount := rows[id].attemptCount + 1,
                                     status := status, nextAttemptAt := None, claimedUntil := None)];
      }
    }

    /** What an executor does with a terminal outcome: the write, and the release it owes. Driven from
        the write's answer, the row's slot goes back exactly once and a test row returns none, so the
        counter stays as far above the recount as it was: the slots in flight elsewhere. */
    method FinishDelivery(id: Id, attempt: Attempt, status: Status) returns (released: bool)
      requires id in rows && status != Pending
      modifies this
      ensures rows == old(rows)[id := Finished(old(rows)[id], attempt, status)]
      ensures released <==> old(rows)[id].status == Pending && !old(rows)[id].isTest
      ensures counts.Keys == old(counts).Keys
      ensures forall e :: e in counts && old(counts)[e] >= |PendingRows(old(rows), e)| ==>
                counts[e] - |PendingRows(rows, e)| == old(counts)[e] - |PendingRows(old(rows), e)|
    {
      ghost var before, held := rows, counts;
      var tookOut := RecordAttemptAndFinish(id, attempt, status);
      released := tookOut && !rows[id].isTest;
      if released {
        ReleasePending(rows[id].endpoint);
      }
      forall e | e in counts && held[e] >= |PendingRows(before, e)|
        ensures counts[e] - |PendingRows(rows, e)| == held[e] - |PendingRows(before, e)|
      {
        PendingCountAfterWrite(before, id, rows[id], e);
        if HoldsSlot(before[id], e) {
          assert id in PendingRows(before, e);
        }
      }
    }

    /** The write a verdict asks for, with the release owed by a terminal one. */
    method Settle(id: Id, verdict: Verdict, now: Time, attempt: Attempt)
      requires id in rows && (verdict.Ends? ==> verdict.status != Pending)
      modifies this
      ensures rows == old(rows)[id := Settled(old(rows)[id], verdict, now, attempt)]
      ensures counts.Keys == old(counts).Keys
      ensures forall e :: e in counts && old(counts)[e] >= |PendingRows(old(rows), e)| ==>
                counts[e] - |PendingRows(rows, e)| == old(counts)[e] - |PendingRows(old(rows), e)|
    {
      ghost var before := rows;
      match verdict {
        case Holds(seconds) => DeferDelivery(id, now + seconds);
        case Retries(seconds) => RecordAttemptAndReschedule(id, attempt, now + seconds);
        case Ends(status) => var _ := FinishDelivery(id, attempt, status);
      }
      if !verdict.Ends? {
        forall e ensures |PendingRows(rows, e)| == |PendingRows(before, e)| {
          PendingCountAfterWrite(before, id, rows[id], e);
        }
      }
    }

    /** One attempt on a row that the executor saw as `seen` when it claimed it: render, ask the
        receiver, settle. The counter keeps its distance to the recount. */
    method MakeAttempt(id: Id, seen: Row, m: Meeting, now: Time, attempt: Attempt)
      requires id in rows
      modifies this
      ensures rows == old(rows)[id := Attempted(old(rows)[id], seen, m, now, attempt)]
      ensures IsAnswered(old(rows)[id], seen, m, now, attempt, rows[id])
      ensures rows.Keys == old(rows).Keys && rows - {id} == old(rows) - {id}
      ensures counts.Keys == old(counts).Keys
      ensures forall e :: e in counts && old(counts)[e] >= |PendingRows(old(rows), e)| ==>
                counts[e] - |PendingRows(rows, e)| == old(counts)[e] - |PendingRows(old(rows), e)|
    {
      AttemptIsAnswered(rows[id], seen, m, now, attempt);
      if Renders(seen, m) {
        ghost var before := rows;
        SetRenderedBody(id, m.rendered.value);
        forall e ensures |PendingRows(rows, e)| == |PendingRows(before, e)| {
          PendingCountAfterWrite(before, id, rows[id], e);
        }
      }
      Settle(id, VerdictOn(seen, m), now, attempt);
    }
  }
}
