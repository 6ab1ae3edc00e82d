/**
 Deletion requests and grace-period restores of one account, interleaved at the granularity of
 single database operations. A state holds the stored documents and, for each kind of call in
 flight, what that call has done so far; a call that never takes its next step has crashed or is
 still waiting, so crashes and arbitrary delays need no step of their own.
 */
module DeletionProtocol {
  import opened Prelude
  import opened AccountStore

  type Hash = nat

  datatype Token = Token(expiresAt: Time, used: bool)

  datatype State = State(
    user: Option<User>,
    tokens: map<Hash, Token>,      // restore tokens of this account, by hash
    grace: nat,
    clock: Time,
    minted: map<Hash, Time>,       // requests between mint and flip: hash, the request's own now
    discarding: set<Hash>,         // requests whose flip failed, cleanup not yet done
    flipped: set<Hash>,            // hashes whose request flipped the account; only these are mailed
    validated: set<Hash>,          // restores that have seen their token alive
    consuming: set<Hash>,          // restores that have flipped the account back, token not yet burned
    spent: set<Hash>,              // every hash ever generated
    swept: set<Hash>,              // those generated before the latest deletion by address
    proof: Option<Hash>)           // the hash minted by the request of the latest token-first flip

  datatype Step =
    | Tick(elapsed: nat)
    | Reap(h: Hash)                        // the TTL index removes an expired token
    | SetPassword
    | Mint(h: Hash, now: Time)             // token-first request: store the token
    | FlipOwn(h: Hash)                     // ... then try the guarded flip
    | FlipRaises(h: Hash)                  // ... the flip raised and did not apply
    | Discard(h: Hash)                     // ... clean up the never-mailed token
    | Validate(h: Hash)                    // emailed-link restore: read without consuming
    | RestoreByToken(h: Hash)              // ... guarded flip back
    | Consume(h: Hash)                     // ... burn the token
    | PasswordFlip(now: Time)              // password account: flip first
    | DropTokens                           // ... supersede stale tokens, or discard after a restore
    | PasswordMint(h: Hash, expiresAt: Time)
    | PasswordRestore
    | Claim(now: Time, lease: nat)         // the erasure sweep
    | EraseTokens
    | EraseUser
    | ValidateEarly(h: Hash)               // outside the assumptions: a link used before its request flipped
    | FlipAppliesThenRaises(h: Hash)       // outside the assumptions: the write applied, the reply was lost
    | EraseByAddress                       // an erasure of an earlier account at the same address, still
                                           // running, deletes tokens by email

  predicate Alive(s: State, h: Hash) {
    h in s.tokens && !s.tokens[h].used && s.tokens[h].expiresAt > s.clock
  }

  predicate IsPasswordAccount(s: State) { s.user.Some? && s.user.value.hasPassword }

  predicate IsErasing(s: State) { s.user.Some? && s.user.value.status == Erasing }

  predicate Enabled(s: State, step: Step) {
    match step
    case Tick(_) => true
    case Reap(h) => h in s.tokens && s.tokens[h].expiresAt <= s.clock
    case SetPassword => s.user.Some?
    case Mint(h, now) => h !in s.spent && now <= s.clock
    case FlipOwn(h) => h in s.minted
    case FlipRaises(h) => h in s.minted
    case Discard(h) => h in s.discarding
    case Validate(h) => h in s.flipped && Alive(s, h)
    case RestoreByToken(h) => h in s.validated
    case Consume(h) => h in s.consuming
    case PasswordFlip(now) => IsPasswordAccount(s) && now <= s.clock
    case DropTokens => IsPasswordAccount(s)
    case PasswordMint(h, _) => IsPasswordAccount(s) && h !in s.spent
    case PasswordRestore => IsPasswordAccount(s)
    case Claim(now, _) => now <= s.clock
    case EraseTokens => IsErasing(s)
    case EraseUser => IsErasing(s)
    case ValidateEarly(h) => Alive(s, h)
    case FlipAppliesThenRaises(h) => h in s.minted
    case EraseByAddress => true
  }

  /** The two assumptions of the restore guarantee, as the steps they forbid. */
  predicate Trusted(step: Step) { !step.ValidateEarly? && !step.FlipAppliesThenRaises? }

  function Next(s: State, step: Step): State
    requires Enabled(s, step)
  {
    match step
    case Tick(d) => s.(clock := s.clock + d)
    case Reap(h) => s.(tokens := s.tokens - {h})
    case SetPassword => s.(user := Some(s.user.value.(hasPassword := true)))
    case Mint(h, now) =>
      s.(tokens := s.tokens[h := Token(now + s.grace, false)],
         minted := s.minted[h := now],
         spent := s.spent + {h})
    case FlipOwn(h) =>
      var (user, flipped) := MarkPending(s.user, s.minted[h], s.grace);
      if flipped
      then s.(user := user, minted := s.minted - {h}, flipped := s.flipped + {h}, proof := Some(h))
      else s.(minted := s.minted - {h}, discarding := s.discarding + {h})
    case FlipRaises(h) => s.(minted := s.minted - {h}, discarding := s.discarding + {h})
    case Discard(h) => s.(tokens := s.tokens - {h}, discarding := s.discarding - {h})
    case Validate(h) => s.(validated := s.validated + {h})
    case RestoreByToken(h) =>
      var (user, restored) := Restore(s.user);
      if restored then s.(user := user, consuming := s.consuming + {h}) else s
    case Consume(h) =>
      if Alive(s, h) then s.(tokens := s.tokens[h := s.tokens[h].(used := true)]) else s
    case PasswordFlip(now) => s.(user := MarkPending(s.user, now, s.grace).0)
    case DropTokens => s.(tokens := map[])
    case PasswordMint(h, expiresAt) =>
      s.(tokens := s.tokens[h := Token(expiresAt, false)],
         flipped := s.flipped + {h},
         spent := s.spent + {h})
    case PasswordRestore => s.(user := Restore(s.user).0)
    case Claim(now, lease) => s.(user := ClaimForErasure(s.user, now, lease).0)
    case EraseTokens => s.(tokens := map[])
    case EraseUser => s.(user := DeleteHard(s.user).0)
    case ValidateEarly(h) => s.(validated := s.validated + {h})
    case FlipAppliesThenRaises(h) =>
      s.(user := MarkPending(s.user, s.minted[h], s.grace).0,
         minted := s.minted - {h},
         discarding := s.discarding + {h})
    case EraseByAddress => s.(tokens := map[], swept := s.spent)
  }

  predicate Runs(s: State, steps: seq<Step>)
    decreases |steps|
  {
    steps == [] || (Enabled(s, steps[0]) && Runs(Next(s, steps[0]), steps[1..]))
  }

  function Run(s: State, steps: seq<Step>): State
    requires Runs(s, steps)
    decreases |steps|
  {
    if steps == [] then s else Run(Next(s, steps[0]), steps[1..])
  }

  predicate Initial(s: State) {
    && (s.user.Some? ==> s.user.value.status in {Active, Inactive})
    && s.tokens == map[] && s.minted == map[] && s.discarding == {} && s.flipped == {}
    && s.validated == {} && s.consuming == {} && s.spent == {} && s.swept == {} && s.proof == None
  }

  // ----- The restore guarantee -----

  predicate OAuthOnly(s: State) {
    s.user.Some? && !s.user.value.hasPassword && s.user.value.status != Erasing
  }

  /** An OAuth-only account waiting for its purge deadline, which has not passed yet. */
  predicate InGrace(s: State) {
    && OAuthOnly(s) && s.user.value.status == PendingDeletion
    && s.user.value.purgeAfter.Some? && s.clock < s.user.value.purgeAfter.value
  }

  /** A stored, unused restore token that expires exactly at the purge deadline. */
  predicate IsRestoreProof(s: State, h: Hash)
    requires InGrace(s)
  {
    h in s.tokens && s.tokens[h] == Token(s.user.value.purgeAfter.value, false)
  }

  predicate HashesApart(s: State) {
    && s.minted.Keys !! s.discarding !! s.flipped
    && s.minted.Keys + s.discarding + s.flipped <= s.spent
    && s.tokens.Keys <= s.spent - s.swept && s.swept <= s.spent
    && s.validated <= s.flipped && s.consuming <= s.flipped
  }

  predicate Holds(s: State, h: Hash, expiresAt: Time) {
    && (h in s.tokens ==> s.tokens[h] == Token(expiresAt, false))
    && (h !in s.tokens ==> expiresAt <= s.clock)
  }

  predicate MintedHold(s: State) {
    OAuthOnly(s) ==> forall h :: h in s.minted && h !in s.swept ==> Holds(s, h, s.minted[h] + s.grace)
  }

  predicate ProofHolds(s: State) {
    OAuthOnly(s) && s.user.value.status == PendingDeletion ==>
      && s.proof.Some? && s.proof.value in s.flipped && s.proof.value !in s.consuming
      && s.user.value.purgeAfter.Some?
      && (s.proof.value !in s.swept ==> Holds(s, s.proof.value, s.user.value.purgeAfter.value))
  }

  predicate Inv(s: State) { HashesApart(s) && MintedHold(s) && ProofHolds(s) }

  lemma NextKeepsHashesApart(s: State, step: Step)
    requires HashesApart(s) && Enabled(s, step) && Trusted(step)
    ensures HashesApart(Next(s, step))
  {
  }

  lemma NextKeepsMintedHold(s: State, step: Step)
    requires HashesApart(s) && MintedHold(s) && Enabled(s, step) && Trusted(step)
    ensures MintedHold(Next(s, step))
  {
  }

  lemma NextKeepsProofHolds(s: State, step: Step)
    requires Inv(s) && Enabled(s, step) && Trusted(step)
    ensures ProofHolds(Next(s, step))
  {
  }

  lemma NextKeepsInv(s: State, step: Step)
    requires Inv(s) && Enabled(s, step) && Trusted(step)
    ensures Inv(Next(s, step))
  {
    NextKeepsHashesApart(s, step);
    NextKeepsMintedHold(s, step);
    NextKeepsProofHolds(s, step);
  }

  lemma {:induction false} RunKeepsInv(s: State, steps: seq<Step>)
    requires Inv(s) && Runs(s, steps)
    requires forall step :: step in steps ==> Trusted(step)
    ensures Inv(Run(s, steps))
    decreases |steps|
  {
    if steps != [] {
      NextKeepsInv(s, steps[0]);
      RunKeepsInv(Next(s, steps[0]), steps[1..]);
    }
  }

  predicate Stores(step: Step, h: Hash) { (step.Mint? || step.PasswordMint?) && step.h == h }

  /** A deletion by address comes after the step that stores the token. */
  predicate SweptAfterStored(steps: seq<Step>, h: Hash) {
    steps != [] && if Stores(steps[0], h) then EraseByAddress in steps[1..] else SweptAfterStored(steps[1..], h)
  }

  lemma {:induction false} StoredIsSweptIff(s: State, steps: seq<Step>, h: Hash)
    requires Runs(s, steps) && h in s.spent
    ensures h in Run(s, steps).swept <==> h in s.swept || EraseByAddress in steps
    decreases |steps|
  {
    if steps != [] {
      StoredIsSweptIff(Next(s, steps[0]), steps[1..], h);
      assert steps == [steps[0]] + steps[1..];
    }
  }

  lemma {:induction false} SweptIff(s: State, steps: seq<Step>, h: Hash)
    requires Runs(s, steps) && h !in s.spent && h !in s.swept
    ensures h in Run(s, steps).swept <==> SweptAfterStored(steps, h)
    decreases |steps|
  {
    if steps != [] {
      if Stores(steps[0], h) {
        StoredIsSweptIff(Next(s, steps[0]), steps[1..], h);
      } else {
        SweptIff(Next(s, steps[0]), steps[1..], h);
      }
    }
  }

  /** The emailed link: validate the token, then flip the account back. */
  ghost predicate LinkRestores(s: State, h: Hash) {
    && Runs(s, [Validate(h), RestoreByToken(h)])
    && var restored := Run(s, [Validate(h), RestoreByToken(h)]).user;
      restored.Some? && restored.value.status == Active && restored.value.purgeAfter == None
  }

  lemma LinkTakesTwoSteps(s: State, h: Hash)
    ensures Runs(s, [Validate(h), RestoreByToken(h)]) <==> Enabled(s, Validate(h))
    ensures Enabled(s, Validate(h)) ==>
      Run(s, [Validate(h), RestoreByToken(h)]).user == Restore(s.user).0
  {
    var link, back := Validate(h), RestoreByToken(h);
    assert [link, back][1..] == [back] && [back][1..] == [];
    if Enabled(s, link) {
      assert Enabled(Next(s, link), back);
      assert Run(s, [link, back]) == Run(Next(s, link), [back]) == Next(Next(s, link), back);
    }
  }

  /** An emailed link leaves the account ACTIVE without a deadline iff its token is stored, unused and not
      expired, and the account is pending, or was restored before. */
  lemma LinkRestoresIff(s: State, h: Hash)
    ensures LinkRestores(s, h) <==>
      && h in s.flipped && h in s.tokens && !s.tokens[h].used && s.tokens[h].expiresAt > s.clock
      && ((s.user.Some? && s.user.value.status == PendingDeletion)
          || (s.user.Some? && s.user.value.status == Active && s.user.value.purgeAfter == None))
  {
    LinkTakesTwoSteps(s, h);
  }

  /** A password account's request, uninterrupted: the account is pending until the deadline, every older
      token is superseded, and the one that is mailed restores it. */
  lemma PasswordRequestRestores(s: State, h: Hash, now: Time)
    requires IsPasswordAccount(s) && s.user.value.status == Active
    requires h !in s.spent && now <= s.clock < now + s.grace
    ensures var steps := [PasswordFlip(now), DropTokens, PasswordMint(h, now + s.grace)];
      && Runs(s, steps)
      && var t := Run(s, steps);
        && t.user == Some(s.user.value.(status := PendingDeletion, purgeAfter := Some(now + s.grace)))
        && t.tokens == map[h := Token(now + s.grace, false)]
        && LinkRestores(t, h)
  {
    var steps := [PasswordFlip(now), DropTokens, PasswordMint(h, now + s.grace)];
    var s1 := Next(s, steps[0]);
    var s2 := Next(s1, steps[1]);
    var s3 := Next(s2, steps[2]);
    RunsFrom(s2, steps, 2);
    RunsFrom(s1, steps, 1);
    RunsFrom(s, steps, 0);
    assert Run(s, steps) == s3;
    LinkRestoresIff(s3, h);
  }

  lemma ProofRestores(s: State, h: Hash)
    requires InGrace(s) && IsRestoreProof(s, h) && h in s.flipped
    ensures LinkRestores(s, h)
  {
    LinkRestoresIff(s, h);
  }

  /** In every reachable state of an OAuth-only account in its grace period, the token of the request that
      flipped it is stored, unused and expires at the purge deadline iff no deletion by address came
      after that token was stored; and its link then really cancels the deletion, which it cannot once
      the token is swept. */
  lemma RestoreProofStandsIff(s: State, steps: seq<Step>) returns (h: Hash)
    requires Initial(s) && Runs(s, steps)
    requires forall step :: step in steps ==> Trusted(step)
    requires InGrace(Run(s, steps))
    ensures Run(s, steps).proof == Some(h)
    ensures IsRestoreProof(Run(s, steps), h) <==> !SweptAfterStored(steps, h)
    ensures LinkRestores(Run(s, steps), h) <==> !SweptAfterStored(steps, h)
  {
    RunKeepsInv(s, steps);
    var t := Run(s, steps);
    h := t.proof.value;
    SweptIff(s, steps, h);
    if h in t.swept {
      assert !Enabled(t, [Validate(h), RestoreByToken(h)][0]);
    } else {
      ProofRestores(t, h);
    }
  }

  lemma {:induction false} NeverSwept(steps: seq<Step>, h: Hash)
    requires EraseByAddress !in steps
    ensures !SweptAfterStored(steps, h)
  {
    if steps != [] {
      NeverSwept(steps[1..], h);
    }
  }

  /** Without deletions by address an OAuth-only account in its grace period always has a restore token,
      and presenting that token's link really cancels the deletion. */
  lemma RestoreProofSurvives(s: State, steps: seq<Step>) returns (h: Hash)
    requires Initial(s) && Runs(s, steps)
    requires forall step :: step in steps ==> Trusted(step) && !step.EraseByAddress?
    requires InGrace(Run(s, steps))
    ensures IsRestoreProof(Run(s, steps), h) && LinkRestores(Run(s, steps), h)
  {
    h := RestoreProofStandsIff(s, steps);
    NeverSwept(steps, h);
  }

  const FRESH_ACCOUNT :=
    State(Some(User(Active, false, None, None)), map[], 7, 0, map[], {}, {}, {}, {}, {}, {}, None)

  /** The states of the run below after every second step. */
  function EarlyLinkState(k: nat): State {
    var pending := (t: Time) => Some(User(PendingDeletion, false, Some(t), None));
    var t1, t2 := Token(7, false), Token(8, false);
    if k == 0 then FRESH_ACCOUNT
    else if k == 2 then State(pending(7), map[1 := t1], 7, 0, map[], {}, {1}, {}, {}, {1}, {}, Some(1))
    else if k == 4 then
      State(pending(7), map[1 := t1, 2 := t2], 7, 1, map[2 := 1], {}, {1}, {}, {}, {1, 2}, {}, Some(1))
    else if k == 6 then
      State(FRESH_ACCOUNT.user, map[1 := t1, 2 := t2], 7, 1, map[2 := 1], {}, {1}, {2}, {2}, {1, 2}, {}, Some(1))
    else
      State(pending(8), map[1 := t1, 2 := Token(8, true)], 7, 1, map[], {}, {1, 2}, {2}, {2}, {1, 2}, {}, Some(2))
  }

  predicate IsEarlyLinkRun(steps: seq<Step>) {
    && |steps| == 8
    && steps[0] == Mint(1, 0) && steps[1] == FlipOwn(1) && steps[2] == Tick(1) && steps[3] == Mint(2, 1)
    && steps[4] == ValidateEarly(2) && steps[5] == RestoreByToken(2)
    && steps[6] == FlipOwn(2) && steps[7] == Consume(2)
  }

  lemma EarlyLinkPairs(steps: seq<Step>, s: State, s2: State, s4: State, s6: State, s8: State)
    requires IsEarlyLinkRun(steps)
    requires s == EarlyLinkState(0) && s2 == EarlyLinkState(2) && s4 == EarlyLinkState(4)
    requires s6 == EarlyLinkState(6) && s8 == EarlyLinkState(8)
    ensures StepsTo(s, steps[0], steps[1], s2) && StepsTo(s2, steps[2], steps[3], s4)
    ensures StepsTo(s4, steps[4], steps[5], s6) && StepsTo(s6, steps[6], steps[7], s8)
  {
    EarlyLinkStep0();
    EarlyLinkStep2();
    EarlyLinkStep4();
    EarlyLinkStep6();
  }

  /** The first assumption is needed: a run, trusted but for one link presented before its own
      request flips the account, burns the token that request then relies on. */
  lemma EarlyLinkLosesTheProof(steps: seq<Step>, s: State, t: State)
    requires IsEarlyLinkRun(steps) && s == EarlyLinkState(0) && t == EarlyLinkState(8)
    ensures Initial(s) && Runs(s, steps) && Run(s, steps) == t
    ensures InGrace(t) && forall h :: !IsRestoreProof(t, h)
  {
    var s2, s4, s6 := EarlyLinkState(2), EarlyLinkState(4), EarlyLinkState(6);
    EarlyLinkPairs(steps, s, s2, s4, s6, t);
    FourPairs(steps, s, s2, s4, s6, t);
  }

  lemma FourPairs(steps: seq<Step>, s0: State, s2: State, s4: State, s6: State, s8: State)
    requires |steps| == 8
    requires StepsTo(s0, steps[0], steps[1], s2) && StepsTo(s2, steps[2], steps[3], s4)
    requires StepsTo(s4, steps[4], steps[5], s6) && StepsTo(s6, steps[6], steps[7], s8)
    ensures Runs(s0, steps) && Run(s0, steps) == s8
  {
    TwoSteps(s6, steps, 6, s8);
    TwoSteps(s4, steps, 4, s6);
    TwoSteps(s2, steps, 2, s4);
    TwoSteps(s0, steps, 0, s2);
    assert steps[8..] == [] && steps[0..] == steps;
  }

  predicate StepsTo(s: State, first: Step, second: Step, t: State) {
    Enabled(s, first) && Enabled(Next(s, first), second) && Next(Next(s, first), second) == t
  }

  lemma EarlyLinkStep0()
    ensures StepsTo(EarlyLinkState(0), Mint(1, 0), FlipOwn(1), EarlyLinkState(2))
  {
    var s1 := Next(FRESH_ACCOUNT, Mint(1, 0));
    assert s1.spent == {1} && s1.minted == map[1 := 0];
    assert s1.flipped + {1} == {1} && s1.minted - {1} == map[];
  }

  lemma EarlyLinkStep2()
    ensures StepsTo(EarlyLinkState(2), Tick(1), Mint(2, 1), EarlyLinkState(4))
  {
    assert {1} + {2} == {1, 2};
  }

  lemma EarlyLinkStep4()
    ensures StepsTo(EarlyLinkState(4), ValidateEarly(2), RestoreByToken(2), EarlyLinkState(6))
  {
    var none: set<Hash> := {};
    assert none + {2} == {2};
  }

  lemma EarlyLinkStep6()
    ensures StepsTo(EarlyLinkState(6), FlipOwn(2), Consume(2), EarlyLinkState(8))
  {
    var s7 := Next(EarlyLinkState(6), FlipOwn(2));
    assert s7.minted == map[] && s7.flipped == {1, 2};
    assert s7.tokens[2 := Token(8, true)] == map[1 := Token(7, false), 2 := Token(8, true)];
  }

  lemma TwoSteps(s: State, steps: seq<Step>, k: nat, t: State)
    requires k + 1 < |steps| && StepsTo(s, steps[k], steps[k + 1], t)
    ensures Runs(t, steps[k + 2..]) ==> Runs(s, steps[k..]) && Run(s, steps[k..]) == Run(t, steps[k + 2..])
  {
    assert steps[k..][1..] == steps[k + 1..] && steps[k + 1..][1..] == steps[k + 2..];
  }

  lemma RunsFrom(s: State, steps: seq<Step>, k: nat)
    requires k < |steps| && Enabled(s, steps[k])
    requires Runs(Next(s, steps[k]), steps[k + 1..])
    ensures Runs(s, steps[k..]) && Run(s, steps[k..]) == Run(Next(s, steps[k]), steps[k + 1..])
  {
    assert steps[k..][1..] == steps[k + 1..];
  }

  /** The second is needed too: if the flip may apply and still raise, the cleanup removes the only
      token of an account that is now pending. */
  lemma AmbiguousFlipLosesTheProof()
    ensures
      var steps := [Mint(1, 0), FlipAppliesThenRaises(1), Discard(1)];
      && Runs(FRESH_ACCOUNT, steps)
      && InGrace(Run(FRESH_ACCOUNT, steps))
      && Run(FRESH_ACCOUNT, steps).tokens == map[]
  {
    var steps := [Mint(1, 0), FlipAppliesThenRaises(1), Discard(1)];
    var s1 := Next(FRESH_ACCOUNT, steps[0]);
    var s2 := Next(s1, steps[1]);
    RunsFrom(s2, steps, 2);
    RunsFrom(s1, steps, 1);
    RunsFrom(FRESH_ACCOUNT, steps, 0);
  }

  /** A deletion by address can come after: the cascade deletes tokens by user or by email, so a runner
      still erasing an earlier account at this address takes the new account's only token. */
  lemma StaleErasureLosesTheProof()
    ensures
      var steps := [Mint(1, 0), FlipOwn(1), EraseByAddress];
      && Runs(FRESH_ACCOUNT, steps)
      && InGrace(Run(FRESH_ACCOUNT, steps))
      && Run(FRESH_ACCOUNT, steps).tokens == map[]
  {
    var steps := [Mint(1, 0), FlipOwn(1), EraseByAddress];
    var s1 := Next(FRESH_ACCOUNT, steps[0]);
    var s2 := Next(s1, steps[1]);
    RunsFrom(s2, steps, 2);
    RunsFrom(s1, steps, 1);
    RunsFrom(FRESH_ACCOUNT, steps, 0);
  }

  // ----- The service, one call at a time -----

  datatype Error = NotFound | Conflict | Forbidden | Internal

  /** How the database answers the writes of one request. */
  datatype RequestIo = RequestIo(mintFails: bool, flipRaises: bool, discardFails: bool)

  /** The protocol steps one uninterrupted token-first request takes. */
  function RequestSteps(user: Option<User>, h: Hash, now: Time, io: RequestIo): seq<Step> {
    if io.mintFails then []
    else if !io.flipRaises && user.Some? && user.value.status == Active then [Mint(h, now), FlipOwn(h)]
    else [Mint(h, now), if io.flipRaises then FlipRaises(h) else FlipOwn(h)]
         + (if io.discardFails then [] else [Discard(h)])
  }

  class AccountDeletionService {
    var user: Option<User>
    var tokens: map<Hash, Token>
    const grace: nat

    constructor (user: Option<User>, grace: nat)
      ensures this.user == user && tokens == map[] && this.grace == grace
    {
      this.user, tokens, this.grace := user, map[], grace;
    }

    method MarkPendingDeletion(now: Time) returns (flipped: bool)
      modifies this`user
      ensures (user, flipped) == MarkPending(old(user), now, grace)
    {
      flipped := user.Some? && user.value.status == Active;
      if flipped {
        user := Some(user.value.(status := PendingDeletion, purgeAfter := Some(now + grace)));
      }
    }

    method RestorePending() returns (restored: bool)
      modifies this`user
      ensures (user, restored) == Restore(old(user))
    {
      restored := user.Some? && user.value.status == PendingDeletion;
      if restored {
        user := Some(user.value.(status := Active, purgeAfter := None, erasureClaimedAt := None));
      }
    }

    /** The token-first request of an OAuth-only account: mint, flip, clean up our own token. It is
        exactly a run of protocol steps, and it never leaves a flipped account without its token. */
    method RequestOAuthOnlyDeletion(now: Time, h: Hash, io: RequestIo) returns (r: Result<(Time, Hash), Error>)
      requires h !in tokens
      modifies this
      ensures r.Ok? <==> (!io.mintFails && !io.flipRaises && old(user).Some? && old(user).value.status == Active)
      ensures r.Ok? ==> r.value == (now + grace, h) && tokens == old(tokens)[h := Token(now + grace, false)]
      ensures r.Ok? ==> user.Some? && user.value.status == PendingDeletion && user.value.purgeAfter == Some(now + grace)
      ensures r.Err? ==> user == old(user) && tokens - {h} == old(tokens)
      ensures r.Err? ==> r.error == if io.mintFails || io.flipRaises then Internal else Conflict
      ensures r.Err? && !io.discardFails ==> tokens == old(tokens)
      ensures forall s: State | s.user == old(user) && s.tokens == old(tokens) && s.grace == grace
                                && h !in s.spent && now <= s.clock ::
                && Runs(s, RequestSteps(old(user), h, now, io))
                && Run(s, RequestSteps(old(user), h, now, io)).user == user
                && Run(s, RequestSteps(old(user), h, now, io)).tokens == tokens
    {
      ghost var steps := RequestSteps(user, h, now, io);
      ghost var before := user;
      ghost var had := tokens;
      if io.mintFails {
        assert tokens - {h} == tokens;
        return Err(Internal);
      }
      tokens := tokens[h := Token(now + grace, false)];
      var flipped := false;
      if !io.flipRaises {
        flipped := MarkPendingDeletion(now);
      }
      if !flipped && !io.discardFails {
        tokens := tokens - {h};
      }
      assert had[h := Token(now + grace, false)] - {h} == had;
      forall s: State | s.user == before && s.tokens == had && s.grace == grace && h !in s.spent && now <= s.clock
        ensures Runs(s, steps) && Run(s, steps).user == user && Run(s, steps).tokens == tokens
      {
        RequestRun(s, h, now, io);
      }
      if flipped {
        return Ok((now + grace, h));
      }
      return Err(if io.flipRaises then Internal else Conflict);
    }

    /** Validate, flip back, burn: the token is read before the flip and burned only after it. */
    method RestoreWithToken(now: Time, h: Hash, consumeFails: bool) returns (r: Result<(), Error>)
      modifies this
      ensures r.Ok? <==> (&& h in old(tokens) && !old(tokens)[h].used && old(tokens)[h].expiresAt > now
                          && old(user).Some? && old(user).value.status == PendingDeletion)
      ensures r.Ok? ==> user == Restore(old(user)).0
      ensures r.Ok? ==> tokens == if consumeFails then old(tokens)
                                  else old(tokens)[h := old(tokens)[h].(used := true)]
      ensures r.Err? ==> r.error == Forbidden && user == old(user) && tokens == old(tokens)
    {
      if h !in tokens || tokens[h].used || tokens[h].expiresAt <= now {
        return Err(Forbidden);
      }
      var restored := RestorePending();
      if !restored {
        return Err(Forbidden);
      }
      if !consumeFails {
        tokens := tokens[h := tokens[h].(used := true)];
      }
      return Ok(());
    }
  }

  lemma RequestRun(s: State, h: Hash, now: Time, io: RequestIo)
    requires h !in s.spent && now <= s.clock && h !in s.tokens
    ensures
      var steps := RequestSteps(s.user, h, now, io);
      && Runs(s, steps)
      && Run(s, steps).user ==
         (if io.mintFails || io.flipRaises then s.user else MarkPending(s.user, now, s.grace).0)
      && Run(s, steps).tokens ==
         (if io.mintFails then s.tokens
          else if (!io.flipRaises && MarkPending(s.user, now, s.grace).1) || io.discardFails
          then s.tokens[h := Token(now + s.grace, false)]
          else s.tokens)
  {
    var steps := RequestSteps(s.user, h, now, io);
    if !io.mintFails {
      var s1 := Next(s, steps[0]);
      var s2 := Next(s1, steps[1]);
      if |steps| == 3 {
        RunsFrom(s2, steps, 2);
        assert s1.tokens - {h} == s.tokens;
      }
      RunsFrom(s1, steps, 1);
      RunsFrom(s, steps, 0);
    }
  }
}
