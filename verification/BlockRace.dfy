/**
 Host blocks against bulk status changes of one link. A bulk change loads the links, decides which to
 write, and later writes to those by id and owner alone, so enforcement may come in between.
 */
module BlockRace {
  import opened HostBlocks

  type OpId = nat

  /** A link, and the bulk changes that have decided to write it and have not yet. */
  datatype State = State(link: Link, decided: map<OpId, Status>)

  datatype Step =
    | Enforce(call: Call)
    | Load(op: OpId, target: Status)
    | Write(op: OpId)

  function Next(s: State, step: Step): State {
    match step
    case Enforce(call) => s.(link := Apply(s.link, call))
    case Load(op, target) =>
      if s.link.status != Blocked && s.link.status != target
      then s.(decided := s.decided[op := target])
      else s.(decided := s.decided - {op})
    case Write(op) =>
      if op in s.decided
      then State(s.link.(status := s.decided[op]), s.decided - {op})
      else s
  }

  function At(s: State, steps: seq<Step>, n: nat): State
    requires n <= |steps|
  {
    if n == 0 then s else Next(At(s, steps, n - 1), steps[n - 1])
  }

  /** Step `n` really writes the link. */
  predicate Writes(s: State, steps: seq<Step>, n: nat)
    requires n < |steps|
  {
    steps[n].Write? && steps[n].op in At(s, steps, n).decided
  }

  /** Owners set links ACTIVE or INACTIVE. */
  predicate OwnerTargets(steps: seq<Step>) {
    forall step :: step in steps && step.Load? ==> step.target in {Active, Inactive}
  }

  /** The calls among steps `from` to `n`. */
  function CallsIn(steps: seq<Step>, from: nat, n: nat): seq<Call>
    requires n <= |steps|
  {
    if n <= from then []
    else CallsIn(steps, from, n - 1) + if steps[n - 1].Enforce? then [steps[n - 1].call] else []
  }

  predicate Concerns(step: Step, op: OpId) { (step.Load? || step.Write?) && step.op == op }

  /** Until it is loaded again or written, a bulk change is to write the link iff the link was not blocked
      and had another status when it was loaded, whatever has happened to the link since. */
  lemma {:induction false} DecidedAtTheLoadIff(s: State, steps: seq<Step>, op: OpId, k: nat, n: nat)
    requires k < n <= |steps| && steps[k].Load? && steps[k].op == op
    requires forall j :: k < j < n ==> !Concerns(steps[j], op)
    ensures var seen, target := At(s, steps, k).link.status, steps[k].target;
      && (op in At(s, steps, n).decided <==> seen != Blocked && seen != target)
      && (op in At(s, steps, n).decided ==> At(s, steps, n).decided[op] == target)
    decreases n
  {
    if k + 1 < n {
      DecidedAtTheLoadIff(s, steps, op, k, n - 1);
      assert !Concerns(steps[n - 1], op);
    }
  }

  lemma {:induction false} RunOneMore(l: Link, calls: seq<Call>, c: Call)
    ensures Run(l, calls + [c]) == Apply(Run(l, calls), c)
    decreases |calls|
  {
    if calls == [] {
      assert calls + [c] == [c];
    } else {
      RunOneMore(Apply(l, calls[0]), calls[1..], c);
      assert (calls + [c])[1..] == calls[1..] + [c];
    }
  }

  /** Between writes the link goes as enforcement alone takes it. */
  lemma {:induction false} QuietIsRun(s: State, steps: seq<Step>, from: nat, n: nat)
    requires from <= n <= |steps|
    requires forall k :: from <= k < n ==> !Writes(s, steps, k)
    ensures At(s, steps, n).link == Run(At(s, steps, from).link, CallsIn(steps, from, n))
    decreases n
  {
    if from < n {
      QuietIsRun(s, steps, from, n - 1);
      var l, calls := At(s, steps, from).link, CallsIn(steps, from, n - 1);
      if steps[n - 1].Enforce? {
        RunOneMore(l, calls, steps[n - 1].call);
      } else {
        assert CallsIn(steps, from, n) == calls;
        assert !Writes(s, steps, n - 1);
      }
    }
  }

  lemma {:induction false} RunFacts(s: State, steps: seq<Step>, n: nat)
    requires n <= |steps| && s.decided == map[] && OwnerTargets(steps)
    ensures AllHosts(At(s, steps, n).link) == AllHosts(s.link)
    ensures forall op :: op in At(s, steps, n).decided ==> At(s, steps, n).decided[op] in {Active, Inactive}
  {
    if n > 0 {
      RunFacts(s, steps, n - 1);
      if steps[n - 1].Enforce? {
        ApplyKeepsHosts(At(s, steps, n - 1).link, steps[n - 1].call);
      }
      assert steps[n - 1] in steps;
    }
  }

  lemma {:induction false} LastWrite(s: State, steps: seq<Step>, n: nat) returns (from: nat)
    requires n <= |steps|
    ensures from <= n && (from > 0 ==> Writes(s, steps, from - 1))
    ensures forall k :: from <= k < n ==> !Writes(s, steps, k)
  {
    if n == 0 || Writes(s, steps, n - 1) {
      from := n;
    } else {
      from := LastWrite(s, steps, n - 1);
    }
  }

  lemma {:induction false} InactiveIsLeftAlone(l: Link, calls: seq<Call>)
    requires l.status == Inactive
    ensures Run(l, calls) == l
    decreases |calls|
  {
    if calls != [] {
      assert Apply(l, calls[0]) == l;
      InactiveIsLeftAlone(l, calls[1..]);
    }
  }

  /** Over every interleaving with bulk status changes, a link that starts ACTIVE ends BLOCKED iff the
      last write that reached it, if any, made it ACTIVE and the calls after that write hold it blocked:
      every block from before is lost, whatever hosts still are blocked. */
  lemma RaceEndsBlockedIff(s: State, steps: seq<Step>) returns (from: nat)
    requires s.link.status == Active && s.decided == map[] && OwnerTargets(steps)
    ensures from <= |steps| && (from > 0 ==> Writes(s, steps, from - 1))
    ensures forall k :: from <= k < |steps| ==> !Writes(s, steps, k)
    ensures var calls := CallsIn(steps, from, |steps|);
      At(s, steps, |steps|).link.status == Blocked <==>
        && At(s, steps, from).link.status == Active
        && exists k :: 0 <= k < |calls| && HeldSince(AllHosts(s.link), calls, k, |calls|)
  {
    from := LastWrite(s, steps, |steps|);
    var start, calls := At(s, steps, from).link, CallsIn(steps, from, |steps|);
    QuietIsRun(s, steps, from, |steps|);
    RunFacts(s, steps, from);
    if from > 0 {
      RunFacts(s, steps, from - 1);
    }
    if start.status == Active {
      EndsBlockedIff(start, calls);
    } else {
      InactiveIsLeftAlone(start, calls);
    }
  }

  /** For instance: a bulk deactivation loaded before a block of the link's host and written after it
      leaves the link INACTIVE, and its next activation puts it back in service with the host blocked. */
  lemma DeactivationLosesTheBlock(l: Link, h: Host)
    requires l.status == Active && Routes(l, h)
    ensures var steps := [Load(0, Inactive), Enforce(Block(h)), Write(0), Load(1, Active), Write(1)];
      && At(State(l, map[]), steps, 2).link.status == Blocked
      && At(State(l, map[]), steps, 3).link.status == Inactive
      && At(State(l, map[]), steps, 5).link.status == Active
  {
    var steps := [Load(0, Inactive), Enforce(Block(h)), Write(0), Load(1, Active), Write(1)];
    var s := State(l, map[]);
    var s1 := Next(s, steps[0]);
    assert At(s, steps, 1) == s1 && s1.decided[0] == Inactive;
    var s2 := Next(s1, steps[1]);
    assert At(s, steps, 2) == s2 && s2.link.status == Blocked;
    var s3 := Next(s2, steps[2]);
    assert At(s, steps, 3) == s3 && s3.link.status == Inactive;
    var s4 := Next(s3, steps[3]);
    assert At(s, steps, 4) == s4 && s4.decided[1] == Active;
  }
}
