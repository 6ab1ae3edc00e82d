/**
 The erasure cascade of one account under overlapping runners, crashes, expired leases and
 concurrent safety enforcement. Every write of the cascade is one state step of the runner that takes
 it, down to the scrub, the delete and the document removal of each custom domain and to each chunk of
 click deletes; a runner that crashes or raises between any two of them simply disappears.

 Assumption built into the steps: once the account is claimed, nobody writes a new row, link or
 click for it. Links that already exist may still be blocked and unblocked at any time.
 */
module ErasureProtocol {
  import opened Prelude
  import opened AccountStore
  import opened LinkFate

  type Runner = nat
  type LinkId = nat
  type Row = nat

  datatype Collection =
    | Domains | Tags | OwnerClicks | ApiKeys | VerificationTokens | PageLayouts | AppGrants
    | WebhookEndpoints | WebhookEvents | WebhookDeliveries | ReportSubmissions | Reports
    | FeatureFlags | R2Objects

  /** A link of the account; `domain` is the custom-domain row it lives on, if any. */
  datatype Link = Link(blocked: bool, pii: bool, domain: Option<Row>)

  datatype CascadeStep =
    | ListLinks | ScrubBlocked | DeleteLinks | DrainDomains | ClicksByUrl
    | Wipe(collection: Collection)
    | DeleteUser | Mail

  const STEPS := 20

  /** The cascade in order: links, domains, tags, clicks, the satellites, external objects, the user
      document last among deletes, the mail last of all. */
  function Cascade(pc: nat): CascadeStep {
    if pc == 0 then ListLinks
    else if pc == SCRUB then ScrubBlocked
    else if pc == DELETE_LINKS then DeleteLinks
    else if pc == DRAIN_DOMAINS then DrainDomains
    else if pc == 4 then Wipe(Tags)
    else if pc == CLICKS_BY_URL then ClicksByUrl
    else if pc == 6 then Wipe(OwnerClicks)
    else if pc == 7 then Wipe(ApiKeys)
    else if pc == 8 then Wipe(VerificationTokens)
    else if pc == 9 then Wipe(PageLayouts)
    else if pc == 10 then Wipe(AppGrants)
    else if pc == 11 then Wipe(WebhookEndpoints)
    else if pc == 12 then Wipe(WebhookEvents)
    else if pc == 13 then Wipe(WebhookDeliveries)
    else if pc == 14 then Wipe(ReportSubmissions)
    else if pc == 15 then Wipe(Reports)
    else if pc == 16 then Wipe(FeatureFlags)
    else if pc == 17 then Wipe(R2Objects)
    else if pc == DELETE_USER then DeleteUser
    else Mail
  }

  const SCRUB := 1
  const DELETE_LINKS := 2
  const DRAIN_DOMAINS := 3
  const CLICKS_BY_URL := 5
  const DELETE_USER := 18

  const PAGE_SIZE := 50
  const CLICK_ID_CHUNK := 500

  /** What is next for the first domain of the page. */
  datatype Stage = ToScrub | ToDelete | ToRemove

  /** Where a runner stands: `urlIds` are the links it listed and whose clicks it has not deleted yet,
      and while it drains the domains, `page` is what is left of the listed page. */
  datatype Progress = Progress(pc: nat, urlIds: set<LinkId>, deleted: bool, page: seq<Row>, stage: Stage)

  datatype State = State(
    user: Option<User>,
    links: map<LinkId, Link>,
    rows: map<Collection, set<Row>>,
    preClaimClicks: set<LinkId>,     // links with clicks stamped before the link was claimed
    lease: nat,
    runners: map<Runner, Progress>,
    known: set<Runner>,              // every runner id ever used
    claims: seq<Time>,               // successful claims, on the claimants' clocks
    deletedBy: Option<Runner>,
    mails: nat)

  function Rows(s: State, c: Collection): set<Row> { if c in s.rows then s.rows[c] else {} }

  datatype Step =
    | Request(now: Time, grace: nat)
    | CancelDeletion
    | AddRow(collection: Collection, row: Row)
    | AddLink(link: LinkId, value: Link)
    | AddPreClaimClick(link: LinkId)
    | SafetyBlock(link: LinkId)
    | SafetyUnblock(link: LinkId)
    | Claim(runner: Runner, now: Time)
    | Do(runner: Runner)                        // the next write outside the domain drain and the clicks
    | ListPage(runner: Runner, page: seq<Row>)
    | ScrubDomain(runner: Runner)
    | DeleteDomainLinks(runner: Runner)
    | RemoveDomain(runner: Runner)
    | ClearChunk(runner: Runner, chunk: set<LinkId>)
    | Crash(runner: Runner)

  predicate Writable(s: State) { s.user.Some? && s.user.value.status != Erasing }

  ghost predicate Enabled(s: State, step: Step) {
    match step
    case Request(_, _) => true
    case CancelDeletion => true
    case AddRow(_, _) => Writable(s)
    case AddLink(_, _) => Writable(s)
    case AddPreClaimClick(_) => Writable(s)
    case SafetyBlock(l) => l in s.links
    case SafetyUnblock(l) => l in s.links
    case Claim(r, now) => r !in s.known && ClaimForErasure(s.user, now, s.lease).1
    case Do(r) => r in s.runners && s.runners[r].pc < STEPS && s.runners[r].pc !in {DRAIN_DOMAINS, CLICKS_BY_URL}
    case ListPage(r, page) => Drains(s, r) && s.runners[r].page == [] && IsPage(page, Rows(s, Domains))
    case ScrubDomain(r) => AtStage(s, r, ToScrub)
    case DeleteDomainLinks(r) => AtStage(s, r, ToDelete)
    case RemoveDomain(r) => AtStage(s, r, ToRemove) && s.runners[r].page[0] in Rows(s, Domains)
    case ClearChunk(r, chunk) =>
      r in s.runners && s.runners[r].pc == CLICKS_BY_URL && IsChunk(chunk, s.runners[r].urlIds)
    case Crash(r) => r in s.runners
  }

  /** A full chunk, or all the links there are. */
  predicate IsChunk(chunk: set<LinkId>, urlIds: set<LinkId>) {
    chunk <= urlIds && |chunk| <= CLICK_ID_CHUNK && (|chunk| < CLICK_ID_CHUNK ==> chunk == urlIds)
  }

  predicate Drains(s: State, r: Runner) { r in s.runners && s.runners[r].pc == DRAIN_DOMAINS }

  /** The runner has a domain at hand. A listed domain that is already gone is still scrubbed and has
      its links deleted; its removal then raises, so the runner can go no further. */
  predicate AtStage(s: State, r: Runner, stage: Stage) {
    Drains(s, r) && s.runners[r].page != [] && s.runners[r].stage == stage
  }

  /** A full page, or all the rows there are. */
  ghost predicate IsPage(page: seq<Row>, rows: set<Row>) {
    && Distinct(page) && Members(page) <= rows && |page| <= PAGE_SIZE
    && (|page| < PAGE_SIZE ==> Members(page) == rows)
  }

  /** The owner-wide passes reach every link, a domain's own passes the links on it. */
  predicate InScope(link: Link, scope: Option<Row>) { scope.None? || link.domain == scope }

  /** BLOCKED links lose the owner's personal data. */
  function Scrub(links: map<LinkId, Link>, scope: Option<Row>): map<LinkId, Link> {
    map l | l in links :: if InScope(links[l], scope) && links[l].blocked then links[l].(pii := false) else links[l]
  }

  /** Only BLOCKED links are retained. */
  function DeleteUnblocked(links: map<LinkId, Link>, scope: Option<Row>): map<LinkId, Link> {
    map l | l in links && (InScope(links[l], scope) ==> links[l].blocked) :: links[l]
  }

  function Perform(s: State, r: Runner, step: CascadeStep): State
    requires r in s.runners
  {
    match step
    case ListLinks => s.(runners := s.runners[r := s.runners[r].(urlIds := s.links.Keys)])
    case ScrubBlocked => s.(links := Scrub(s.links, None))
    case DeleteLinks => s.(links := DeleteUnblocked(s.links, None))
    case DrainDomains => s
    case ClicksByUrl => s
    case Wipe(c) => s.(rows := s.rows[c := {}])
    case DeleteUser =>
      var (user, deleted) := DeleteHard(s.user);
      if deleted
      then s.(user := user, deletedBy := Some(r),
              runners := s.runners[r := s.runners[r].(deleted := true)])
      else s
    case Mail => if s.runners[r].deleted then s.(mails := s.mails + 1) else s
  }

  ghost function Next(s: State, step: Step): State
    requires Enabled(s, step)
  {
    match step
    case Request(now, grace) => s.(user := MarkPending(s.user, now, grace).0)
    case CancelDeletion => s.(user := Restore(s.user).0)
    case AddRow(c, row) => s.(rows := s.rows[c := Rows(s, c) + {row}])
    case AddLink(l, v) => s.(links := s.links[l := v])
    case AddPreClaimClick(l) => s.(preClaimClicks := s.preClaimClicks + {l})
    case SafetyBlock(l) => s.(links := s.links[l := s.links[l].(blocked := true)])
    case SafetyUnblock(l) => s.(links := s.links[l := s.links[l].(blocked := false)])
    case Claim(r, now) =>
      s.(user := ClaimForErasure(s.user, now, s.lease).0,
         runners := s.runners[r := Progress(0, {}, false, [], ToScrub)],
         known := s.known + {r},
         claims := s.claims + [now])
    case Do(r) =>
      var t := Perform(s, r, Cascade(s.runners[r].pc));
      t.(runners := t.runners[r := t.runners[r].(pc := s.runners[r].pc + 1)])
    case ListPage(r, page) =>
      var p := s.runners[r];
      s.(runners := s.runners[r := if page == [] then p.(pc := p.pc + 1) else p.(page := page, stage := ToScrub)])
    case ScrubDomain(r) =>
      var p := s.runners[r];
      s.(links := Scrub(s.links, Some(p.page[0])),
         runners := s.runners[r := p.(stage := ToDelete)])
    case DeleteDomainLinks(r) =>
      var p := s.runners[r];
      s.(links := DeleteUnblocked(s.links, Some(p.page[0])),
         runners := s.runners[r := p.(stage := ToRemove)])
    case RemoveDomain(r) =>
      var p := s.runners[r];
      s.(rows := s.rows[Domains := Rows(s, Domains) - {p.page[0]}],
         runners := s.runners[r := p.(page := p.page[1..], stage := ToScrub)])
    case ClearChunk(r, chunk) =>
      var p := s.runners[r];
      s.(preClaimClicks := s.preClaimClicks - chunk,
         runners := s.runners[r := p.(pc := if chunk == p.urlIds then p.pc + 1 else p.pc, urlIds := p.urlIds - chunk)])
    case Crash(r) => s.(runners := s.runners - {r})
  }

  ghost predicate Runs(s: State, steps: seq<Step>)
    decreases |steps|
  {
    steps == [] || (Enabled(s, steps[0]) && Runs(Next(s, steps[0]), steps[1..]))
  }

  ghost function Run(s: State, steps: seq<Step>): State
    requires Runs(s, steps)
    decreases |steps|
  {
    if steps == [] then s else Run(Next(s, steps[0]), steps[1..])
  }

  predicate Initial(s: State) {
    && Writable(s) && s.runners == map[] && s.known == {} && s.claims == []
    && s.deletedBy == None && s.mails == 0
  }

  // ----- What every run keeps -----

  /** What a finished step leaves behind for good. What becomes of the links is a matter of when they
      are blocked, and is told below. */
  predicate Done(s: State, step: CascadeStep) {
    match step
    case DrainDomains => Rows(s, Domains) == {}
    case Wipe(c) => Rows(s, c) == {}
    case DeleteUser => s.user.None?
    case _ => true
  }

  predicate DoneUpTo(s: State, pc: nat) {
    forall i :: 0 <= i < pc && i < STEPS ==> Done(s, Cascade(i))
  }

  predicate Claimed(s: State) { s.user.None? || s.user.value.status == Erasing }

  predicate Spaced(claims: seq<Time>, lease: nat) {
    forall i, j :: 0 <= i < j < |claims| ==> claims[i] + lease <= claims[j]
  }

  predicate ClaimInv(s: State) {
    && (Claimed(s) <==> s.claims != [])
    && (s.runners != map[] ==> Claimed(s))
    && s.runners.Keys <= s.known
    && Spaced(s.claims, s.lease)
    && (s.user.Some? && s.user.value.status == Erasing ==>
          s.user.value.erasureClaimedAt == Some(s.claims[|s.claims| - 1]))
  }

  predicate CleanupInv(s: State) {
    && (forall r :: r in s.runners ==> DoneUpTo(s, s.runners[r].pc))
    && (s.user.None? ==> DoneUpTo(s, STEPS))
  }

  predicate MailInv(s: State) {
    && s.mails <= 1
    && (s.user.Some? ==> s.deletedBy == None)
    && (s.deletedBy == None ==> s.mails == 0)
    && (s.deletedBy.Some? ==> s.deletedBy.value in s.known)
    && (forall r :: r in s.runners && s.runners[r].deleted ==>
          && s.deletedBy == Some(r)
          && s.runners[r].pc > DELETE_USER
          && (s.mails == 1 ==> s.runners[r].pc == STEPS))
  }

  lemma NextKeepsClaimInv(s: State, step: Step)
    requires ClaimInv(s) && Enabled(s, step)
    ensures ClaimInv(Next(s, step))
    ensures Claimed(s) ==> Claimed(Next(s, step))
  {
    match step {
      case Do(r) => PerformFrame(s, r, Cascade(s.runners[r].pc));
      case Claim(r, now) => assert r in Next(s, step).runners;
      case _ =>
    }
  }

  lemma PerformFrame(s: State, r: Runner, step: CascadeStep)
    requires r in s.runners
    ensures var t := Perform(s, r, step);
      && t.claims == s.claims && t.known == s.known && t.lease == s.lease
      && t.runners.Keys == s.runners.Keys
      && (t.user == s.user || (step.DeleteUser? && t.user.None? && s.user.Some? && s.user.value.status == Erasing))
  {
  }

  lemma DoKeepsMailInv(s: State, r: Runner)
    requires ClaimInv(s) && MailInv(s) && Enabled(s, Do(r))
    ensures MailInv(Next(s, Do(r)))
  {
    var pc := s.runners[r].pc;
    if pc == DELETE_USER {
      assert Cascade(pc).DeleteUser?;
    } else if pc == DELETE_USER + 1 {
      assert Cascade(pc).Mail?;
    } else {
      assert !Cascade(pc).DeleteUser? && !Cascade(pc).Mail?;
      PerformLeavesMail(s, r, Cascade(pc));
    }
  }

  lemma PerformLeavesMail(s: State, r: Runner, step: CascadeStep)
    requires r in s.runners && !step.DeleteUser? && !step.Mail?
    ensures var t := Perform(s, r, step);
      && t.user == s.user && t.mails == s.mails && t.deletedBy == s.deletedBy && t.known == s.known
      && t.runners.Keys == s.runners.Keys
      && forall x :: x in s.runners ==> t.runners[x].deleted == s.runners[x].deleted && t.runners[x].pc == s.runners[x].pc
  {
  }

  /** The steps inside the domain drain and the clicks. */
  predicate IsInner(step: Step) {
    step.ListPage? || step.ScrubDomain? || step.DeleteDomainLinks? || step.RemoveDomain? || step.ClearChunk?
  }

  lemma InnerStepKeepsMailInv(s: State, step: Step)
    requires MailInv(s) && Enabled(s, step) && IsInner(step)
    ensures MailInv(Next(s, step))
  {
    var r, t := step.runner, Next(s, step);
    assert s.runners[r].pc <= CLICKS_BY_URL && t.runners == s.runners[r := t.runners[r]];
    assert t.runners[r].deleted == s.runners[r].deleted;
    assert t.user == s.user && t.mails == s.mails && t.deletedBy == s.deletedBy && t.known == s.known;
  }

  lemma NextKeepsMailInv(s: State, step: Step)
    requires ClaimInv(s) && MailInv(s) && Enabled(s, step)
    ensures MailInv(Next(s, step))
  {
    if step.Do? {
      DoKeepsMailInv(s, step.runner);
    } else if IsInner(step) {
      InnerStepKeepsMailInv(s, step);
    } else if step.Claim? {
      assert step.runner !in s.known;
    }
  }

  /** A finished step stays finished once the account is claimed, whatever runs next. */
  lemma DoneIsStable(s: State, step: Step, done: CascadeStep)
    requires ClaimInv(s) && Enabled(s, step) && Claimed(s) && Done(s, done)
    ensures Done(Next(s, step), done)
  {
    if step.Do? {
      PerformKeepsDone(s, step.runner, Cascade(s.runners[step.runner].pc), done);
    }
  }

  lemma PerformKeepsDone(s: State, r: Runner, step: CascadeStep, done: CascadeStep)
    requires r in s.runners && Done(s, done)
    ensures Done(Perform(s, r, step), done)
  {
  }

  lemma PerformFinishes(s: State, r: Runner, step: CascadeStep)
    requires r in s.runners && Claimed(s) && !step.DrainDomains?
    ensures Done(Perform(s, r, step), step)
  {
  }

  lemma DoneUpToIsStable(s: State, step: Step, pc: nat)
    requires ClaimInv(s) && Enabled(s, step) && Claimed(s) && DoneUpTo(s, pc)
    ensures DoneUpTo(Next(s, step), pc)
  {
    forall i | 0 <= i < pc && i < STEPS ensures Done(Next(s, step), Cascade(i)) {
      DoneIsStable(s, step, Cascade(i));
    }
  }

  lemma PerformKeepsPlaces(s: State, r: Runner, step: CascadeStep)
    requires r in s.runners
    ensures Perform(s, r, step).runners.Keys == s.runners.Keys
    ensures forall x :: x in s.runners ==> Perform(s, r, step).runners[x].pc == s.runners[x].pc
  {
  }

  lemma DoFinishes(s: State, r: Runner)
    requires ClaimInv(s) && Enabled(s, Do(r)) && Claimed(s) && DoneUpTo(s, s.runners[r].pc)
    ensures DoneUpTo(Next(s, Do(r)), s.runners[r].pc + 1)
  {
    DoneUpToIsStable(s, Do(r), s.runners[r].pc);
    PerformFinishes(s, r, Cascade(s.runners[r].pc));
    assert Done(Next(s, Do(r)), Cascade(s.runners[r].pc));
  }

  lemma DoneUpToTheMail(s: State)
    requires DoneUpTo(s, DELETE_USER + 1)
    ensures DoneUpTo(s, STEPS)
  {
  }

  lemma DoKeepsPlaces(s: State, r: Runner)
    requires Enabled(s, Do(r))
    ensures var t := Next(s, Do(r));
      && t.runners.Keys == s.runners.Keys
      && t.runners[r].pc == s.runners[r].pc + 1
      && (forall x :: x in s.runners && x != r ==> t.runners[x].pc == s.runners[x].pc)
      && (s.user.Some? && t.user.None? ==> s.runners[r].pc == DELETE_USER)
  {
    PerformKeepsPlaces(s, r, Cascade(s.runners[r].pc));
    PerformFrame(s, r, Cascade(s.runners[r].pc));
  }

  lemma DoKeepsCleanupInv(s: State, r: Runner)
    requires ClaimInv(s) && CleanupInv(s) && Enabled(s, Do(r))
    ensures CleanupInv(Next(s, Do(r)))
  {
    DoKeepsPlaces(s, r);
    DoFinishes(s, r);
    forall x | x in s.runners && x != r ensures DoneUpTo(Next(s, Do(r)), s.runners[x].pc) {
      DoneUpToIsStable(s, Do(r), s.runners[x].pc);
    }
    if s.user.None? {
      DoneUpToIsStable(s, Do(r), STEPS);
    } else if s.runners[r].pc == DELETE_USER {
      DoneUpToTheMail(Next(s, Do(r)));
    }
  }

  lemma NextKeepsCleanupInv(s: State, step: Step)
    requires ClaimInv(s) && CleanupInv(s) && Enabled(s, step)
    ensures CleanupInv(Next(s, step))
  {
    if step.Do? {
      DoKeepsCleanupInv(s, step.runner);
    } else if Claimed(s) {
      forall x | x in s.runners ensures DoneUpTo(Next(s, step), s.runners[x].pc) {
        DoneUpToIsStable(s, step, s.runners[x].pc);
      }
      if s.user.None? {
        DoneUpToIsStable(s, step, STEPS);
      }
    }
  }

  predicate Inv(s: State) { ClaimInv(s) && CleanupInv(s) && MailInv(s) }

  lemma NextKeepsLease(s: State, step: Step)
    requires Enabled(s, step)
    ensures Next(s, step).lease == s.lease
  {
    if step.Do? {
      PerformFrame(s, step.runner, Cascade(s.runners[step.runner].pc));
    }
  }

  lemma {:induction false} RunKeepsInv(s: State, steps: seq<Step>)
    requires Inv(s) && Runs(s, steps)
    ensures Inv(Run(s, steps)) && Run(s, steps).lease == s.lease
    decreases |steps|
  {
    if steps != [] {
      NextKeepsClaimInv(s, steps[0]);
      NextKeepsCleanupInv(s, steps[0]);
      NextKeepsMailInv(s, steps[0]);
      NextKeepsLease(s, steps[0]);
      RunKeepsInv(Next(s, steps[0]), steps[1..]);
    }
  }

  /** Once the cascade has removed anything, the account is ERASING or gone, and stays so. */
  lemma {:induction false} ErasureIsFinal(s: State, steps: seq<Step>)
    requires ClaimInv(s) && Claimed(s) && Runs(s, steps)
    ensures Claimed(Run(s, steps))
    decreases |steps|
  {
    if steps != [] {
      NextKeepsClaimInv(s, steps[0]);
      ErasureIsFinal(Next(s, steps[0]), steps[1..]);
    }
  }

  /** Every row, link and click of `s` is still there at `t`, and so is the account. */
  ghost predicate KeepsAll(s: State, t: State) {
    && t.user.Some? && s.links.Keys <= t.links.Keys && s.preClaimClicks <= t.preClaimClicks
    && forall c :: Rows(s, c) <= Rows(t, c)
  }

  lemma UnclaimedStepKeepsAll(s: State, step: Step)
    requires ClaimInv(s) && Enabled(s, step) && !Claimed(Next(s, step))
    ensures !Claimed(s) && KeepsAll(s, Next(s, step))
  {
    NextKeepsClaimInv(s, step);
  }

  lemma {:induction false} UnclaimedRunKeepsAll(s: State, steps: seq<Step>)
    requires ClaimInv(s) && Runs(s, steps) && !Claimed(Run(s, steps))
    ensures KeepsAll(s, Run(s, steps))
    decreases |steps|
  {
    if steps != [] {
      NextKeepsClaimInv(s, steps[0]);
      UnclaimedRunKeepsAll(Next(s, steps[0]), steps[1..]);
      if Claimed(Next(s, steps[0])) {
        ErasureIsFinal(Next(s, steps[0]), steps[1..]);
      }
      UnclaimedStepKeepsAll(s, steps[0]);
    }
  }

  /** If anything that was there at some point of a run is gone later on, or a runner has a step to take,
      then the account is ERASING or gone, and stays so. */
  lemma RemovalImpliesClaimForGood(s: State, before: seq<Step>, between: seq<Step>, after: seq<Step>)
    requires Initial(s) && Runs(s, before) && Runs(Run(s, before), between)
    requires Runs(Run(Run(s, before), between), after)
    requires var t := Run(Run(s, before), between);
      !KeepsAll(Run(s, before), t) || exists step, r :: By(step, r) && Enabled(t, step)
    ensures var t := Run(Run(s, before), between);
      Claimed(t) && Claimed(Run(t, after))
  {
    RunKeepsInv(s, before);
    RunKeepsInv(Run(s, before), between);
    var t := Run(Run(s, before), between);
    if !Claimed(t) {
      UnclaimedRunKeepsAll(Run(s, before), between);
    }
    ErasureIsFinal(t, after);
  }

  lemma GoneMeansSatellitesEmpty(s: State, steps: seq<Step>)
    requires Initial(s) && Runs(s, steps) && Run(s, steps).user.None?
    ensures forall c :: Rows(Run(s, steps), c) == {}
  {
    RunKeepsInv(s, steps);
    var t := Run(s, steps);
    assert DoneUpTo(t, STEPS);
    forall c ensures Rows(t, c) == {} {
      var i := match c
        case Domains => DRAIN_DOMAINS case Tags => 4 case OwnerClicks => 6 case ApiKeys => 7
        case VerificationTokens => 8 case PageLayouts => 9 case AppGrants => 10
        case WebhookEndpoints => 11 case WebhookEvents => 12 case WebhookDeliveries => 13
        case ReportSubmissions => 14 case Reports => 15 case FeatureFlags => 16 case R2Objects => 17;
      assert Done(t, Cascade(i));
    }
  }

  /** Any two successful claims are at least a lease apart on the claimants' clocks. */
  lemma ClaimsAreSpaced(s: State, steps: seq<Step>, i: nat, j: nat)
    requires Initial(s) && Runs(s, steps)
    requires i < j < |Run(s, steps).claims|
    ensures Run(s, steps).claims[i] + s.lease <= Run(s, steps).claims[j]
  {
    RunKeepsInv(s, steps);
  }

  lemma AtMostOneConfirmationMail(s: State, steps: seq<Step>)
    requires Initial(s) && Runs(s, steps)
    ensures Run(s, steps).mails <= 1
    ensures Run(s, steps).mails == 1 ==> Run(s, steps).user.None?
  {
    RunKeepsInv(s, steps);
  }

  // ----- Recovery: a later uninterrupted run finishes -----

  lemma RunsCons(s: State, step: Step, rest: seq<Step>)
    requires Enabled(s, step) && Runs(Next(s, step), rest)
    ensures Runs(s, [step] + rest) && Run(s, [step] + rest) == Run(Next(s, step), rest)
  {
    assert ([step] + rest)[1..] == rest;
  }

  lemma {:induction false} RunsConcat(s: State, first: seq<Step>, second: seq<Step>)
    requires Runs(s, first) && Runs(Run(s, first), second)
    ensures Runs(s, first + second) && Run(s, first + second) == Run(Run(s, first), second)
    decreases |first|
  {
    if first == [] {
      assert first + second == second;
    } else {
      RunsConcat(Next(s, first[0]), first[1..], second);
      assert (first + second)[1..] == first[1..] + second;
    }
  }

  lemma RunsOneMore(s: State, steps: seq<Step>, step: Step)
    requires Runs(s, steps) && Enabled(Run(s, steps), step)
    ensures Runs(s, steps + [step]) && Run(s, steps + [step]) == Next(Run(s, steps), step)
  {
    var none: seq<Step> := [];
    RunsCons(Run(s, steps), step, none);
    assert [step] + none == [step];
    RunsConcat(s, steps, [step]);
  }

  /** A step of runner `r` other than its crash. */
  predicate By(step: Step, r: Runner) { (step.Do? || IsInner(step)) && step.runner == r }

  /** Runner `r` at work with nobody else. */
  predicate Alone(steps: seq<Step>, r: Runner) { forall i :: 0 <= i < |steps| ==> By(steps[i], r) }

  predicate IsErasing(s: State) { s.user.Some? && s.user.value.status == Erasing }

  /** The page at hand is of domains that are still there, as it is while nobody else removes any. */
  ghost predicate PageStands(s: State, r: Runner)
    requires r in s.runners
  {
    var p := s.runners[r];
    && Distinct(p.page) && Members(p.page) <= Rows(s, Domains)
    && (p.page != [] ==> p.pc == DRAIN_DOMAINS)
  }

  ghost predicate CanGoOn(s: State, r: Runner) {
    && r in s.runners && IsErasing(s) && PageStands(s, r)
    && !s.runners[r].deleted && s.runners[r].pc <= DELETE_USER
  }

  /** How many steps runner `r` can still take alone at most: one for each step of the cascade, one for
      each link, and four for each domain, of which its place on the page tells what is done. */
  function Budget(s: State, r: Runner): int
    requires r in s.runners
  {
    var p := s.runners[r];
    STEPS - p.pc + |Named(s, r)| +
    if p.pc > DRAIN_DOMAINS then 0
    else 4 * |Rows(s, Domains)| -
         if p.page == [] then 0
         else match p.stage case ToScrub => 1 case ToDelete => 2 case ToRemove => 3
  }

  /** The links whose clicks a runner at `s` has still to delete, if it listed them or will. */
  function Named(s: State, r: Runner): set<LinkId>
    requires r in s.runners
  {
    if s.runners[r].pc == 0 then s.links.Keys else s.runners[r].urlIds
  }

  /** `t` is on the way of runner `r` alone from `s`. */
  ghost predicate SoloAt(s: State, t: State, r: Runner) {
    && r in s.runners && r in t.runners && PageStands(t, r)
    && var (from, p) := (s.runners[r].pc, t.runners[r]);
    && from <= p.pc <= STEPS
    && Named(t, r) <= Named(s, r)
    && (p.pc < CLICKS_BY_URL || from > CLICKS_BY_URL ==> Named(t, r) == Named(s, r))
    && (from <= CLICKS_BY_URL < p.pc ==> Named(t, r) == {})
    && t.preClaimClicks == s.preClaimClicks - (Named(s, r) - Named(t, r))
    && (p.deleted <==> p.pc > DELETE_USER)
    && t.user == (if p.pc > DELETE_USER then None else s.user)
    && t.mails == s.mails + (if p.pc == STEPS then 1 else 0)
  }

  lemma PerformLocally(s: State, r: Runner, step: CascadeStep)
    requires r in s.runners && !step.DeleteUser? && !step.Mail?
    ensures var t := Perform(s, r, step);
      && t.user == s.user && t.mails == s.mails && t.preClaimClicks == s.preClaimClicks
      && t.runners == (if step.ListLinks? then s.runners[r := s.runners[r].(urlIds := s.links.Keys)] else s.runners)
      && (step != Wipe(Domains) ==> Rows(t, Domains) == Rows(s, Domains))
  {
  }

  lemma SoloStep(s: State, r: Runner)
    requires Enabled(s, Do(r)) && s.runners[r].pc < DELETE_USER && PageStands(s, r)
    ensures var t := Next(s, Do(r));
      var p := s.runners[r];
      && t.user == s.user && t.mails == s.mails && PageStands(t, r)
      && t.runners[r] == p.(pc := p.pc + 1, urlIds := if p.pc == 0 then s.links.Keys else p.urlIds)
      && t.preClaimClicks == s.preClaimClicks
      && Rows(t, Domains) == Rows(s, Domains)
  {
    PerformLocally(s, r, Cascade(s.runners[r].pc));
  }

  lemma DeleteStep(s: State, r: Runner)
    requires r in s.runners && s.runners[r].pc == DELETE_USER && IsErasing(s) && PageStands(s, r)
    ensures var t := Next(s, Do(r));
      && t.runners[r] == s.runners[r].(pc := DELETE_USER + 1, deleted := true) && PageStands(t, r)
      && t.user.None? && t.mails == s.mails && t.preClaimClicks == s.preClaimClicks
  {
  }

  lemma MailStep(s: State, r: Runner)
    requires r in s.runners && s.runners[r].pc == DELETE_USER + 1 && s.runners[r].deleted && PageStands(s, r)
    ensures var t := Next(s, Do(r));
      && t.runners[r] == s.runners[r].(pc := STEPS) && PageStands(t, r)
      && t.user == s.user && t.mails == s.mails + 1 && t.preClaimClicks == s.preClaimClicks
  {
  }

  lemma SoloDoes(s: State, t: State, r: Runner)
    requires CanGoOn(s, r) && SoloAt(s, t, r) && Enabled(t, Do(r))
    ensures SoloAt(s, Next(t, Do(r)), r)
    ensures Budget(Next(t, Do(r)), r) < Budget(t, r)
  {
    var pc := t.runners[r].pc;
    if pc < DELETE_USER {
      SoloStep(t, r);
    } else if pc == DELETE_USER {
      DeleteStep(t, r);
    } else {
      MailStep(t, r);
    }
  }

  lemma DistinctTail(page: seq<Row>, rows: set<Row>)
    requires page != [] && Distinct(page) && Members(page) <= rows
    ensures Distinct(page[1..]) && Members(page[1..]) <= rows - {page[0]}
  {
  }

  lemma ChunkMoves(t: State, r: Runner, chunk: set<LinkId>)
    requires r in t.runners && PageStands(t, r) && Enabled(t, ClearChunk(r, chunk))
    ensures var u := Next(t, ClearChunk(r, chunk));
      && r in u.runners && PageStands(u, r)
      && u.user == t.user && u.mails == t.mails && u.preClaimClicks == t.preClaimClicks - chunk
      && u.runners[r].pc == (if chunk == Named(t, r) then t.runners[r].pc + 1 else t.runners[r].pc)
      && Named(u, r) == Named(t, r) - chunk && u.runners[r].deleted == t.runners[r].deleted
      && Budget(u, r) < Budget(t, r)
  {
    assert |t.runners[r].urlIds| == |t.runners[r].urlIds - chunk| + |chunk| by {
      assert t.runners[r].urlIds == (t.runners[r].urlIds - chunk) + chunk;
    }
  }

  lemma DrainMoves(t: State, r: Runner, step: Step)
    requires r in t.runners && PageStands(t, r) && By(step, r) && !step.Do? && !step.ClearChunk? && Enabled(t, step)
    ensures var u := Next(t, step);
      && r in u.runners && PageStands(u, r)
      && u.user == t.user && u.mails == t.mails && u.preClaimClicks == t.preClaimClicks
      && u.runners[r].pc == (if step.ListPage? && step.page == [] then t.runners[r].pc + 1 else t.runners[r].pc)
      && u.runners[r].urlIds == t.runners[r].urlIds && u.runners[r].deleted == t.runners[r].deleted
      && Budget(u, r) < Budget(t, r)
  {
    if step.RemoveDomain? {
      DistinctTail(t.runners[r].page, Rows(t, Domains));
    }
  }

  lemma ClearedSoFar(clicks: set<LinkId>, named: set<LinkId>, left: set<LinkId>, chunk: set<LinkId>)
    requires chunk <= left <= named
    ensures clicks - (named - left) - chunk == clicks - (named - (left - chunk))
  {
  }

  lemma SoloClears(s: State, t: State, r: Runner, chunk: set<LinkId>)
    requires CanGoOn(s, r) && SoloAt(s, t, r) && Enabled(t, ClearChunk(r, chunk))
    ensures SoloAt(s, Next(t, ClearChunk(r, chunk)), r)
    ensures Budget(Next(t, ClearChunk(r, chunk)), r) < Budget(t, r)
  {
    ChunkMoves(t, r, chunk);
    assert s.runners[r].pc <= CLICKS_BY_URL;
    ClearedSoFar(s.preClaimClicks, Named(s, r), Named(t, r), chunk);
  }

  lemma SoloDrains(s: State, t: State, r: Runner, step: Step)
    requires CanGoOn(s, r) && SoloAt(s, t, r) && Enabled(t, step)
    requires By(step, r) && !step.Do? && !step.ClearChunk?
    ensures SoloAt(s, Next(t, step), r)
    ensures Budget(Next(t, step), r) < Budget(t, r)
  {
    DrainMoves(t, r, step);
    assert t.runners[r].pc == DRAIN_DOMAINS;
  }

  lemma SoloMoves(s: State, t: State, r: Runner, step: Step)
    requires CanGoOn(s, r) && SoloAt(s, t, r) && By(step, r) && Enabled(t, step)
    ensures SoloAt(s, Next(t, step), r)
    ensures Budget(Next(t, step), r) < Budget(t, r)
  {
    if step.Do? {
      SoloDoes(s, t, r);
    } else if step.ClearChunk? {
      SoloClears(s, t, r, step.chunk);
    } else {
      SoloDrains(s, t, r, step);
    }
  }

  lemma {:induction false} SoloHolds(s: State, t: State, r: Runner, steps: seq<Step>)
    requires CanGoOn(s, r) && SoloAt(s, t, r) && Runs(t, steps) && Alone(steps, r)
    ensures SoloAt(s, Run(t, steps), r)
    ensures |steps| + Budget(Run(t, steps), r) <= Budget(t, r)
    decreases |steps|
  {
    if steps != [] {
      SoloMoves(s, t, r, steps[0]);
      SoloHolds(s, Next(t, steps[0]), r, steps[1..]);
    }
  }

  /** Some of the rows, as many as fit a page. */
  lemma SomePage(rows: set<Row>) returns (page: seq<Row>)
    ensures IsPage(page, rows)
  {
    var list := ListMembers(rows);
    page := if |list| < PAGE_SIZE then list else list[..PAGE_SIZE];
  }

  lemma SomeChunk(urlIds: set<LinkId>) returns (chunk: set<LinkId>)
    ensures IsChunk(chunk, urlIds)
  {
    if |urlIds| < CLICK_ID_CHUNK {
      chunk := urlIds;
    } else {
      chunk := SubsetOfSize(urlIds, CLICK_ID_CHUNK);
    }
  }

  lemma {:induction false} SubsetOfSize(items: set<LinkId>, n: nat) returns (some: set<LinkId>)
    requires n <= |items|
    ensures some <= items && |some| == n
  {
    if n == 0 {
      some := {};
    } else {
      var x :| x in items;
      var rest := SubsetOfSize(items - {x}, n - 1);
      some := rest + {x};
    }
  }

  /** A lone runner short of the end has a step to take. */
  lemma NextMove(t: State, r: Runner) returns (step: Step)
    requires r in t.runners && PageStands(t, r) && t.runners[r].pc < STEPS
    ensures By(step, r) && Enabled(t, step)
  {
    var p := t.runners[r];
    if p.pc == CLICKS_BY_URL {
      var chunk := SomeChunk(p.urlIds);
      step := ClearChunk(r, chunk);
    } else if p.pc != DRAIN_DOMAINS {
      step := Do(r);
    } else if p.page == [] {
      var page := SomePage(Rows(t, Domains));
      step := ListPage(r, page);
    } else {
      assert p.page[0] in Members(p.page);
      step := match p.stage
        case ToScrub => ScrubDomain(r)
        case ToDelete => DeleteDomainLinks(r)
        case ToRemove => RemoveDomain(r);
    }
  }

  /** What runner `r`, alone from `s`, leaves when it is through. */
  ghost predicate Erased(s: State, t: State, r: Runner)
    requires r in s.runners
  {
    && t.user.None? && t.mails == s.mails + 1
    && t.preClaimClicks ==
       if s.runners[r].pc <= CLICKS_BY_URL then s.preClaimClicks - Named(s, r) else s.preClaimClicks
  }

  /** A runner of an ERASING account that is left alone, wherever it stands, cannot work forever nor get
      stuck before it is through, and when it is through the account is erased. */
  lemma SoloFinishes(s: State, r: Runner, steps: seq<Step>)
    requires CanGoOn(s, r) && Runs(s, steps) && Alone(steps, r)
    ensures var t := Run(s, steps);
      && |steps| <= Budget(s, r) && r in t.runners
      && (if t.runners[r].pc < STEPS then exists step :: By(step, r) && Enabled(t, step) else Erased(s, t, r))
  {
    SoloHolds(s, s, r, steps);
    var t := Run(s, steps);
    assert Budget(t, r) >= 0 by {
      if t.runners[r].page != [] { assert t.runners[r].page[0] in Rows(t, Domains); }
    }
    if t.runners[r].pc < STEPS {
      var step := NextMove(t, r);
    }
  }

  lemma {:induction false} SoloGoesOn(s: State, t: State, r: Runner) returns (steps: seq<Step>)
    requires CanGoOn(s, r) && SoloAt(s, t, r)
    ensures Runs(t, steps) && Alone(steps, r) && SoloAt(s, Run(t, steps), r) && Run(t, steps).runners[r].pc == STEPS
    decreases Budget(t, r) + 3
  {
    steps := [];
    if t.runners[r].pc < STEPS {
      var step := NextMove(t, r);
      SoloMoves(s, t, r, step);
      var rest := SoloGoesOn(s, Next(t, step), r);
      RunsCons(t, step, rest);
      steps := [step] + rest;
    }
  }

  /** And there is such a run. */
  lemma SoloCompletes(s: State, r: Runner) returns (steps: seq<Step>)
    requires CanGoOn(s, r)
    ensures Runs(s, steps) && Alone(steps, r) && Erased(s, Run(s, steps), r)
  {
    steps := SoloGoesOn(s, s, r);
  }

  /** A crashed cascade can be claimed again once its lease has run out, and a run that is then left
      alone, which there is, removes the account and sends the mail. It clears exactly the pre-claim
      clicks of links that still existed when it began. */
  lemma ReclaimedRunErases(s: State, steps: seq<Step>, r: Runner, now: Time) returns (solo: seq<Step>)
    requires Initial(s) && Runs(s, steps)
    requires var t := Run(s, steps);
      && IsErasing(t) && r !in t.known
      && t.claims != [] && t.claims[|t.claims| - 1] + t.lease <= now
    ensures var t := Run(s, steps);
      && Enabled(t, Claim(r, now))
      && Runs(Next(t, Claim(r, now)), solo) && Alone(solo, r)
      && var u := Run(Next(t, Claim(r, now)), solo);
        && u.user.None? && u.mails == 1
        && u.preClaimClicks == t.preClaimClicks - t.links.Keys
  {
    RunKeepsInv(s, steps);
    solo := SoloCompletes(Next(Run(s, steps), Claim(r, now)), r);
  }

  // ----- What becomes of the links -----

  /** A link as the fate of links sees it. */
  function LifeOf(s: State, l: LinkId): Life {
    if l !in s.links then Gone else Lives(s.links[l].blocked, s.links[l].pii)
  }

  /** The link, if still there, lives on the domain row `home`. */
  predicate LivesOn(s: State, l: LinkId, home: Option<Row>) { l in s.links ==> s.links[l].domain == home }

  /** What a step does to the link `l` that lives on `home`. */
  ghost function TouchOf(s: State, step: Step, l: LinkId, home: Option<Row>): Touch
    requires Enabled(s, step)
  {
    match step
    case SafetyBlock(x) => if x == l then Blocks else Passes
    case SafetyUnblock(x) => if x == l then Unblocks else Passes
    case Do(r) =>
      if s.runners[r].pc == SCRUB then Scrubs
      else if s.runners[r].pc == DELETE_LINKS then Deletes
      else Passes
    case ScrubDomain(r) => if home == Some(s.runners[r].page[0]) then Scrubs else Passes
    case DeleteDomainLinks(r) => if home == Some(s.runners[r].page[0]) then Deletes else Passes
    case _ => Passes
  }

  /** What a run does to one link, in order. */
  ghost function Touches(s: State, steps: seq<Step>, l: LinkId, home: Option<Row>): (ts: seq<Touch>)
    requires Runs(s, steps)
    ensures |ts| == |steps|
    decreases |steps|
  {
    if steps == [] then [] else [TouchOf(s, steps[0], l, home)] + Touches(Next(s, steps[0]), steps[1..], l, home)
  }

  lemma ScrubMeetsLife(links: map<LinkId, Link>, scope: Option<Row>, l: LinkId)
    ensures l in Scrub(links, scope) <==> l in links
    ensures l in links ==>
              Scrub(links, scope)[l] == links[l].(pii := links[l].pii && !(InScope(links[l], scope) && links[l].blocked))
  {
  }

  lemma DeleteMeetsLife(links: map<LinkId, Link>, scope: Option<Row>, l: LinkId)
    ensures l in DeleteUnblocked(links, scope) <==> l in links && (InScope(links[l], scope) ==> links[l].blocked)
    ensures l in DeleteUnblocked(links, scope) ==> DeleteUnblocked(links, scope)[l] == links[l]
  {
  }

  lemma OtherStepsPass(s: State, r: Runner, step: CascadeStep)
    requires r in s.runners && !step.ScrubBlocked? && !step.DeleteLinks?
    ensures Perform(s, r, step).links == s.links
  {
  }

  lemma DoMeetsLife(s: State, r: Runner, l: LinkId, home: Option<Row>)
    requires Enabled(s, Do(r)) && LivesOn(s, l, home)
    ensures var t := Next(s, Do(r));
      LifeOf(t, l) == Meet(LifeOf(s, l), TouchOf(s, Do(r), l, home)) && LivesOn(t, l, home)
  {
    var step := Cascade(s.runners[r].pc);
    match step {
      case ScrubBlocked => ScrubMeetsLife(s.links, None, l);
      case DeleteLinks => DeleteMeetsLife(s.links, None, l);
      case _ => OtherStepsPass(s, r, step);
    }
  }

  lemma StepMeetsLife(s: State, step: Step, l: LinkId, home: Option<Row>)
    requires Claimed(s) && Enabled(s, step) && LivesOn(s, l, home)
    ensures var t := Next(s, step);
      LifeOf(t, l) == Meet(LifeOf(s, l), TouchOf(s, step, l, home)) && LivesOn(t, l, home)
  {
    match step {
      case Do(r) => DoMeetsLife(s, r, l, home);
      case ScrubDomain(r) => ScrubMeetsLife(s.links, Some(s.runners[r].page[0]), l);
      case DeleteDomainLinks(r) => DeleteMeetsLife(s.links, Some(s.runners[r].page[0]), l);
      case _ =>
    }
  }

  /** Every link goes through a claimed run as the touches of the run alone decide. */
  lemma {:induction false} RunMeetsLife(s: State, steps: seq<Step>, l: LinkId, home: Option<Row>)
    requires ClaimInv(s) && Claimed(s) && Runs(s, steps) && LivesOn(s, l, home)
    ensures LifeOf(Run(s, steps), l) == LifeAfter(LifeOf(s, l), Touches(s, steps, l, home), |steps|)
    decreases |steps|
  {
    if steps != [] {
      var next, ts := Next(s, steps[0]), Touches(s, steps, l, home);
      NextKeepsClaimInv(s, steps[0]);
      StepMeetsLife(s, steps[0], l, home);
      RunMeetsLife(next, steps[1..], l, home);
      assert ts[0] == TouchOf(s, steps[0], l, home) && ts[1..] == Touches(next, steps[1..], l, home);
      LifeFromTheFront(LifeOf(s, l), ts, |ts|);
    }
  }

  /** No runner is past the owner-wide delete. */
  predicate NoneDeleted(s: State) { forall r :: r in s.runners ==> s.runners[r].pc <= DELETE_LINKS }

  ghost predicate IsDelete(s: State, step: Step)
    requires Enabled(s, step)
  {
    step.Do? && s.runners[step.runner].pc == DELETE_LINKS
  }

  lemma OnlyTheDeletePasses(s: State, step: Step)
    requires Enabled(s, step) && NoneDeleted(s) && !IsDelete(s, step)
    ensures NoneDeleted(Next(s, step)) && (s.user.Some? ==> Next(s, step).user.Some?)
  {
    if step.Do? {
      DoKeepsPlaces(s, step.runner);
    }
  }

  /** An account that goes takes a runner through the owner-wide delete. */
  lemma {:induction false} DeleteHappens(s: State, steps: seq<Step>, l: LinkId, home: Option<Row>)
    requires Runs(s, steps) && s.user.Some? && Run(s, steps).user.None? && NoneDeleted(s)
    ensures Deletes in Touches(s, steps, l, home)
    decreases |steps|
  {
    var next, ts := Next(s, steps[0]), Touches(s, steps, l, home);
    if IsDelete(s, steps[0]) {
      assert ts[0] == Deletes;
    } else {
      OnlyTheDeletePasses(s, steps[0]);
      DeleteHappens(next, steps[1..], l, home);
      assert ts[1..] == Touches(next, steps[1..], l, home);
    }
  }

  // ----- The second pass over the links of a custom domain -----

  /** Enforcement leaves the link alone. */
  predicate Undisturbed(steps: seq<Step>, l: LinkId) {
    forall step :: step in steps && (step.SafetyBlock? || step.SafetyUnblock?) ==> step.link != l
  }

  /** What a domain's own scrub, for a blocked link, or delete, for another one, has seen to. */
  predicate SeenTo(s: State, l: LinkId, blocked: bool) {
    l in s.links ==> blocked && !s.links[l].pii
  }

  /** The runner is at the row and past the pass that concerns such a link. */
  ghost predicate PastPass(p: Progress, row: Row, blocked: bool) {
    && p.pc == DRAIN_DOMAINS && p.page != [] && p.page[0] == row
    && (p.stage == ToRemove || (blocked && p.stage == ToDelete))
  }

  /** A link on the row, blocked or not throughout, is seen to before the row goes. */
  ghost predicate RowInv(s: State, l: LinkId, row: Row, blocked: bool) {
    && (l in s.links ==> s.links[l].domain == Some(row) && s.links[l].blocked == blocked)
    && (row !in Rows(s, Domains) ==> SeenTo(s, l, blocked))
    && (forall r :: r in s.runners && PastPass(s.runners[r], row, blocked) ==> SeenTo(s, l, blocked))
    && (forall r :: r in s.runners && s.runners[r].page != [] ==> s.runners[r].pc == DRAIN_DOMAINS)
  }

  lemma DoKeepsRowInv(s: State, r: Runner, l: LinkId, row: Row, blocked: bool)
    requires Claimed(s) && Enabled(s, Do(r)) && RowInv(s, l, row, blocked)
    ensures RowInv(Next(s, Do(r)), l, row, blocked)
  {
    DoMeetsLife(s, r, l, Some(row));
    DoKeepsDrains(s, r);
  }

  lemma DoKeepsDrains(s: State, r: Runner)
    requires Enabled(s, Do(r))
    ensures var t := Next(s, Do(r));
      && t.runners.Keys == s.runners.Keys && Rows(t, Domains) == Rows(s, Domains)
      && forall x :: x in s.runners ==>
           && t.runners[x].page == s.runners[x].page && t.runners[x].stage == s.runners[x].stage
           && t.runners[x].pc == if x == r then s.runners[r].pc + 1 else s.runners[x].pc
  {
    PerformKeepsDrains(s, r, Cascade(s.runners[r].pc));
  }

  lemma PerformKeepsDrains(s: State, r: Runner, step: CascadeStep)
    requires r in s.runners && step != Wipe(Domains)
    ensures var t := Perform(s, r, step);
      && t.runners.Keys == s.runners.Keys && Rows(t, Domains) == Rows(s, Domains)
      && forall x :: x in s.runners ==>
           && t.runners[x].page == s.runners[x].page && t.runners[x].stage == s.runners[x].stage
           && t.runners[x].pc == s.runners[x].pc
  {
  }

  lemma ScrubKeepsRowInv(s: State, r: Runner, l: LinkId, row: Row, blocked: bool)
    requires Enabled(s, ScrubDomain(r)) && RowInv(s, l, row, blocked)
    ensures RowInv(Next(s, ScrubDomain(r)), l, row, blocked)
  {
    ScrubMeetsLife(s.links, Some(s.runners[r].page[0]), l);
    var t := Next(s, ScrubDomain(r));
    forall x | x in t.runners && PastPass(t.runners[x], row, blocked) ensures SeenTo(t, l, blocked) {
      if x != r {
        assert PastPass(s.runners[x], row, blocked);
      }
    }
  }

  lemma DeleteKeepsRowInv(s: State, r: Runner, l: LinkId, row: Row, blocked: bool)
    requires Enabled(s, DeleteDomainLinks(r)) && RowInv(s, l, row, blocked)
    ensures RowInv(Next(s, DeleteDomainLinks(r)), l, row, blocked)
  {
    DeleteMeetsLife(s.links, Some(s.runners[r].page[0]), l);
    var t := Next(s, DeleteDomainLinks(r));
    forall x | x in t.runners && PastPass(t.runners[x], row, blocked) ensures SeenTo(t, l, blocked) {
      if x != r || blocked {
        assert PastPass(s.runners[x], row, blocked);
      }
    }
  }

  /** Any other step: the link and the rows are as they were, but for a row that is removed, and no
      runner gets past a pass. */
  lemma OtherStepKeepsRowInv(s: State, step: Step, l: LinkId, row: Row, blocked: bool)
    requires ClaimInv(s) && Claimed(s) && Enabled(s, step) && RowInv(s, l, row, blocked)
    requires !step.Do? && !step.ScrubDomain? && !step.DeleteDomainLinks?
    requires step.SafetyBlock? || step.SafetyUnblock? ==> step.link != l
    ensures RowInv(Next(s, step), l, row, blocked)
  {
    var t := Next(s, step);
    StepMeetsLife(s, step, l, Some(row));
    forall x | x in t.runners && PastPass(t.runners[x], row, blocked) ensures SeenTo(s, l, blocked) {
      assert x in s.runners && PastPass(s.runners[x], row, blocked);
    }
    if row in Rows(s, Domains) && row !in Rows(t, Domains) {
      assert PastPass(s.runners[step.runner], row, blocked);
    }
  }

  lemma {:induction false} RunKeepsRowInv(s: State, steps: seq<Step>, l: LinkId, row: Row, blocked: bool)
    requires ClaimInv(s) && Claimed(s) && Runs(s, steps) && Undisturbed(steps, l) && RowInv(s, l, row, blocked)
    ensures RowInv(Run(s, steps), l, row, blocked)
    decreases |steps|
  {
    if steps != [] {
      NextKeepsClaimInv(s, steps[0]);
      match steps[0] {
        case Do(r) => DoKeepsRowInv(s, r, l, row, blocked);
        case ScrubDomain(r) => ScrubKeepsRowInv(s, r, l, row, blocked);
        case DeleteDomainLinks(r) => DeleteKeepsRowInv(s, r, l, row, blocked);
        case _ => OtherStepKeepsRowInv(s, steps[0], l, row, blocked);
      }
      RunKeepsRowInv(Next(s, steps[0]), steps[1..], l, row, blocked);
    }
  }

  /** No runner is past a pass over the row. */
  ghost predicate NobodyPast(s: State, row: Row) {
    forall r :: r in s.runners && Drains(s, r) && s.runners[r].page != [] && s.runners[r].page[0] == row ==>
      s.runners[r].stage == ToScrub
  }

  ghost predicate PagesOnlyDrain(s: State) {
    forall r :: r in s.runners && s.runners[r].page != [] ==> s.runners[r].pc == DRAIN_DOMAINS
  }

  lemma NextKeepsPages(s: State, step: Step)
    requires Enabled(s, step) && PagesOnlyDrain(s)
    ensures PagesOnlyDrain(Next(s, step))
  {
    if step.Do? {
      DoKeepsDrains(s, step.runner);
    }
  }

  lemma {:induction false} RunKeepsPages(s: State, steps: seq<Step>)
    requires Runs(s, steps) && PagesOnlyDrain(s)
    ensures PagesOnlyDrain(Run(s, steps))
    decreases |steps|
  {
    if steps != [] {
      NextKeepsPages(s, steps[0]);
      RunKeepsPages(Next(s, steps[0]), steps[1..]);
    }
  }

  /** A link on a custom domain that is still there gets a second pass by the domain's own scrub and delete,
      whoever runs them: if enforcement leaves the link alone from some point of a claimed run on, no
      runner being past a pass over the row there, and the account goes, then the link, when blocked, has
      lost its personal data, and otherwise is gone. */
  lemma DomainLinksGetASecondPass(s: State, before: seq<Step>, after: seq<Step>, l: LinkId, row: Row)
    requires Initial(s) && Runs(s, before) && Runs(Run(s, before), after)
    requires var t := Run(s, before);
      && Claimed(t) && row in Rows(t, Domains) && NobodyPast(t, row)
      && l in t.links && t.links[l].domain == Some(row)
    requires Undisturbed(after, l) && Run(Run(s, before), after).user.None?
    ensures var t, end := Run(s, before), Run(Run(s, before), after);
      l in end.links ==> t.links[l].blocked && !end.links[l].pii
  {
    var t := Run(s, before);
    RunKeepsInv(s, before);
    RunKeepsPages(s, before);
    RunKeepsInv(t, after);
    RunKeepsRowInv(t, after, l, row, t.links[l].blocked);
    assert Cascade(DRAIN_DOMAINS) == DrainDomains && Done(Run(t, after), DrainDomains);
  }

  // ----- What becomes of the clicks stamped before a link was claimed -----

  /** A runner that listed the link comes to its chunk. */
  ghost predicate ClearsClicks(s: State, step: Step, l: LinkId)
    requires Enabled(s, step)
  {
    step.ClearChunk? && l in step.chunk
  }

  ghost predicate Cleared(s: State, steps: seq<Step>, l: LinkId)
    requires Runs(s, steps)
    decreases |steps|
  {
    steps != [] && (ClearsClicks(s, steps[0], l) || Cleared(Next(s, steps[0]), steps[1..], l))
  }

  lemma StepClearsClicksIff(s: State, step: Step, l: LinkId)
    requires Claimed(s) && Enabled(s, step)
    ensures l in Next(s, step).preClaimClicks <==> l in s.preClaimClicks && !ClearsClicks(s, step, l)
  {
    if step.Do? {
      var next := Cascade(s.runners[step.runner].pc);
      if !next.DeleteUser? && !next.Mail? {
        PerformLocally(s, step.runner, next);
      }
    }
  }

  /** Over a claimed run a link's clicks from before it was claimed stay iff no runner that had listed
      the link came to its chunk. */
  lemma {:induction false} ClicksSurviveIff(s: State, steps: seq<Step>, l: LinkId)
    requires ClaimInv(s) && Claimed(s) && Runs(s, steps)
    ensures l in Run(s, steps).preClaimClicks <==> l in s.preClaimClicks && !Cleared(s, steps, l)
    decreases |steps|
  {
    if steps != [] {
      NextKeepsClaimInv(s, steps[0]);
      StepClearsClicksIff(s, steps[0], l);
      ClicksSurviveIff(Next(s, steps[0]), steps[1..], l);
    }
  }

  /** Every runner past the listing has still to clear the clicks of every link that is left, up to where
      it has cleared all it listed; so the clicks that outlive the account are of links that do not. */
  predicate ClicksInv(s: State) {
    && (forall r :: r in s.runners ==> ClicksAhead(s, s.runners[r]))
    && (s.user.None? ==> s.preClaimClicks !! s.links.Keys)
  }

  predicate ClicksAhead(s: State, p: Progress) {
    && (p.pc > 0 ==> s.preClaimClicks * s.links.Keys <= p.urlIds)
    && (p.pc > CLICKS_BY_URL ==> p.urlIds == {})
  }

  lemma DoKeepsClicksInv(s: State, r: Runner)
    requires Enabled(s, Do(r)) && ClicksInv(s)
    ensures ClicksInv(Next(s, Do(r)))
  {
    var t := Next(s, Do(r));
    DoKeepsPlaces(s, r);
    DoKeepsClicks(s, r);
    forall x | x in s.runners ensures ClicksAhead(t, t.runners[x]) {
      assert ClicksAhead(s, s.runners[x]);
    }
    if t.user.None? && s.user.Some? {
      assert ClicksAhead(s, s.runners[r]);
      assert s.preClaimClicks * s.links.Keys == {};
    }
  }

  lemma PerformKeepsClicks(s: State, r: Runner, step: CascadeStep)
    requires r in s.runners
    ensures var t := Perform(s, r, step);
      && t.preClaimClicks == s.preClaimClicks && t.links.Keys <= s.links.Keys
      && t.runners.Keys == s.runners.Keys
      && (forall x :: x in s.runners && x != r ==> t.runners[x].urlIds == s.runners[x].urlIds)
      && t.runners[r].urlIds == (if step.ListLinks? then s.links.Keys else s.runners[r].urlIds)
  {
  }

  lemma DoKeepsClicks(s: State, r: Runner)
    requires Enabled(s, Do(r))
    ensures var t := Next(s, Do(r));
      && t.preClaimClicks == s.preClaimClicks && t.links.Keys <= s.links.Keys
      && t.runners.Keys == s.runners.Keys
      && (forall x :: x in s.runners && x != r ==> t.runners[x].urlIds == s.runners[x].urlIds)
      && t.runners[r].urlIds == (if s.runners[r].pc == 0 then s.links.Keys else s.runners[r].urlIds)
  {
    PerformKeepsClicks(s, r, Cascade(s.runners[r].pc));
  }

  lemma NextKeepsClicksInv(s: State, step: Step)
    requires ClaimInv(s) && Enabled(s, step) && ClicksInv(s)
    ensures ClicksInv(Next(s, step))
  {
    var t := Next(s, step);
    if step.Do? {
      DoKeepsClicksInv(s, step.runner);
    } else {
      forall x | x in t.runners ensures ClicksAhead(t, t.runners[x]) {
        if x in s.runners {
          assert ClicksAhead(s, s.runners[x]);
        }
      }
    }
  }

  lemma {:induction false} RunKeepsClicksInv(s: State, steps: seq<Step>)
    requires ClaimInv(s) && ClicksInv(s) && Runs(s, steps)
    ensures ClicksInv(Run(s, steps))
    decreases |steps|
  {
    if steps != [] {
      NextKeepsClaimInv(s, steps[0]);
      NextKeepsClicksInv(s, steps[0]);
      RunKeepsClicksInv(Next(s, steps[0]), steps[1..]);
    }
  }

  /** Over every run that ends with the account gone, a link that is retained has lost its clicks, those
      from before it was claimed included. */
  lemma RetainedLinksHaveNoClicks(s: State, steps: seq<Step>)
    requires Initial(s) && Runs(s, steps) && Run(s, steps).user.None?
    ensures Run(s, steps).preClaimClicks !! Run(s, steps).links.Keys
    ensures Rows(Run(s, steps), OwnerClicks) == {}
  {
    RunKeepsClicksInv(s, steps);
    GoneMeansSatellitesEmpty(s, steps);
  }

  // ----- What an erased account leaves behind -----

  /** The first claim of a run: the account is writable before it, and `steps` goes on after it. */
  ghost predicate ClaimSplits(s: State, steps: seq<Step>, before: seq<Step>, claim: Step, after: seq<Step>)
    requires Runs(s, steps)
  {
    && steps == before + [claim] + after && claim.Claim?
    && Runs(s, before) && Writable(Run(s, before)) && Enabled(Run(s, before), claim)
    && Runs(Next(Run(s, before), claim), after) && Run(Next(Run(s, before), claim), after) == Run(s, steps)
  }

  lemma ClaimFirst(s: State, steps: seq<Step>)
    requires steps != [] && Writable(s) && Runs(s, steps) && !Writable(Next(s, steps[0]))
    ensures ClaimSplits(s, steps, [], steps[0], steps[1..])
  {
    var none: seq<Step> := [];
    assert Run(s, none) == s;
    assert steps == none + [steps[0]] + steps[1..];
    if steps[0].Do? {
      PerformFrame(s, steps[0].runner, Cascade(s.runners[steps[0].runner].pc));
    }
  }

  lemma ClaimLater(s: State, steps: seq<Step>, before: seq<Step>, claim: Step, after: seq<Step>)
    requires steps != [] && Writable(s) && Runs(s, steps)
    requires ClaimSplits(Next(s, steps[0]), steps[1..], before, claim, after)
    ensures ClaimSplits(s, steps, [steps[0]] + before, claim, after)
  {
    RunsCons(s, steps[0], before);
    assert steps == [steps[0]] + steps[1..];
  }

  lemma {:induction false} FirstClaim(s: State, steps: seq<Step>) returns (before: seq<Step>, claim: Step, after: seq<Step>)
    requires Writable(s) && Runs(s, steps) && !Writable(Run(s, steps))
    ensures ClaimSplits(s, steps, before, claim, after)
    decreases |steps|
  {
    if Writable(Next(s, steps[0])) {
      before, claim, after := FirstClaim(Next(s, steps[0]), steps[1..]);
      ClaimLater(s, steps, before, claim, after);
      before := [steps[0]] + before;
    } else {
      ClaimFirst(s, steps);
      before, claim, after := [], steps[0], steps[1..];
    }
  }

  /** Over every run that ends with the account gone: the satellites are empty; of the links that existed
      at the first claim exactly those survive that were blocked at every delete that reached them,
      owner-wide or of their domain and by any runner; a survivor keeps its personal data iff it was not
      blocked at any scrub that reached it, and it ends unblocked iff it was unblocked for good after the
      last delete; and a link's clicks from before it was claimed survive iff no runner that had listed
      the link came to its chunk, which happens only to links that are gone. */
  lemma GoneMeansErased(s: State, steps: seq<Step>) returns (before: seq<Step>, claim: Step, after: seq<Step>)
    requires Initial(s) && Runs(s, steps) && Run(s, steps).user.None?
    ensures forall c :: Rows(Run(s, steps), c) == {}
    ensures ClaimSplits(s, steps, before, claim, after)
    ensures forall l :: SurvivesAsRuled(Next(Run(s, before), claim), after, l, Run(s, steps))
    ensures forall l :: l in Run(s, steps).preClaimClicks <==>
      l in Run(s, before).preClaimClicks && !Cleared(Next(Run(s, before), claim), after, l)
    ensures Run(s, steps).preClaimClicks !! Run(s, steps).links.Keys
  {
    GoneMeansSatellitesEmpty(s, steps);
    RetainedLinksHaveNoClicks(s, steps);
    before, claim, after := FirstClaim(s, steps);
    RunKeepsInv(s, before);
    var writable := Run(s, before);
    var claimed := Next(writable, claim);
    NextKeepsClaimInv(writable, claim);
    assert writable.runners == map[];
    forall l ensures SurvivesAsRuled(claimed, after, l, Run(s, steps)) {
      LinkSurvivesAsRuled(claimed, after, l);
    }
    forall l ensures l in Run(s, steps).preClaimClicks <==> l in writable.preClaimClicks && !Cleared(claimed, after, l) {
      ClicksSurviveIff(claimed, after, l);
    }
  }

  /** Link `l`, `after` the account was claimed at `s`, ends in `t` as enforcement and cascade met. */
  ghost predicate SurvivesAsRuled(s: State, after: seq<Step>, l: LinkId, t: State)
    requires Runs(s, after)
  {
    if l !in s.links then l !in t.links
    else
      var link := s.links[l];
      var ts := Touches(s, after, l, link.domain);
      && (l in t.links <==> Outlives(link.blocked, ts, |ts|))
      && (l in t.links ==> (t.links[l].pii <==> link.pii && EscapesScrubs(link.blocked, ts, |ts|)))
      && (l in t.links ==> (!t.links[l].blocked <==> exists k :: 0 <= k < |ts| && UnblockedForGood(ts, k)))
  }

  lemma LinkSurvivesAsRuled(s: State, after: seq<Step>, l: LinkId)
    requires ClaimInv(s) && Claimed(s) && s.user.Some? && Runs(s, after) && Run(s, after).user.None?
    requires NoneDeleted(s)
    ensures SurvivesAsRuled(s, after, l, Run(s, after))
  {
    var home := if l in s.links then s.links[l].domain else None;
    RunMeetsLife(s, after, l, home);
    var ts := Touches(s, after, l, home);
    if l in s.links {
      var life := LifeOf(s, l);
      FateIff(life.blocked, life.pii, ts, |ts|);
      DeleteHappens(s, after, l, home);
      if Outlives(life.blocked, ts, |ts|) {
        SurvivorIsUnblockedIff(life.blocked, ts);
      }
    } else {
      GoneStaysGone(ts, |ts|);
    }
  }

  // ----- Where the guarantee stops -----

  /** Runner `r` of an ERASING account stands before step `pc` of its cascade. */
  ghost predicate Stands(t: State, r: Runner, pc: nat) {
    CanGoOn(t, r) && ClaimInv(t) && t.runners[r].pc == pc
  }

  lemma RequestAndClaim(s: State, r: Runner) returns (steps: seq<Step>)
    requires Initial(s) && s.user.value.status == Active
    ensures Runs(s, steps) && Stands(Run(s, steps), r, 0)
    ensures var t := Run(s, steps);
      t.links == s.links && t.preClaimClicks == s.preClaimClicks && t.known == {r} && t.claims == [0] && t.lease == s.lease
  {
    var none: seq<Step> := [];
    RunsOneMore(s, none, Request(0, 0));
    RunsOneMore(s, none + [Request(0, 0)], Claim(r, 0));
    steps := none + [Request(0, 0)] + [Claim(r, 0)];
    RunKeepsInv(s, steps);
  }

  /** One step up to the delete, seen from one link. */
  lemma EarlyStep(s: State, r: Runner, pc: nat, l: LinkId, home: Option<Row>)
    requires Stands(s, r, pc) && pc <= DELETE_LINKS && LivesOn(s, l, home)
    ensures var t := Next(s, Do(r));
      && Enabled(s, Do(r)) && Stands(t, r, pc + 1) && LivesOn(t, l, home)
      && LifeOf(t, l) == Meet(LifeOf(s, l), if pc == SCRUB then Scrubs else if pc == DELETE_LINKS then Deletes else Passes)
      && t.preClaimClicks == s.preClaimClicks && t.user == s.user
      && t.known == s.known && t.claims == s.claims && t.lease == s.lease
  {
    SoloStep(s, r);
    NextKeepsClaimInv(s, Do(r));
    StepMeetsLife(s, Do(r), l, home);
    PerformFrame(s, r, Cascade(pc));
  }

  lemma BlockInBetween(s: State, r: Runner, l: LinkId)
    requires Stands(s, r, DELETE_LINKS) && LifeOf(s, l) == Lives(false, true) && LivesOn(s, l, None)
    ensures var t := Next(s, SafetyBlock(l));
      && Enabled(s, SafetyBlock(l)) && Stands(t, r, DELETE_LINKS)
      && LifeOf(t, l) == Lives(true, true) && LivesOn(t, l, None)
  {
    NextKeepsClaimInv(s, SafetyBlock(l));
  }

  lemma LoneStep(s: State, r: Runner, step: Step)
    requires r in s.runners && By(step, r) && Enabled(s, step)
    ensures r in Next(s, step).runners && s.runners[r].pc <= Next(s, step).runners[r].pc
  {
    if step.Do? {
      DoKeepsPlaces(s, r);
    }
  }

  /** A lone runner past the scrub leaves a link off the custom domains to deletes alone. */
  lemma {:induction false} LoneTouches(s: State, r: Runner, steps: seq<Step>, l: LinkId)
    requires Runs(s, steps) && Alone(steps, r) && r in s.runners && s.runners[r].pc >= DELETE_LINKS
    ensures forall t :: t in Touches(s, steps, l, None) ==> t == Deletes || t == Passes
    decreases |steps|
  {
    if steps != [] {
      LoneStep(s, r, steps[0]);
      LoneTouches(Next(s, steps[0]), r, steps[1..], l);
    }
  }

  lemma {:induction false} StaysBlocked(ts: seq<Touch>, k: nat)
    requires k <= |ts| && forall t :: t in ts ==> t == Deletes || t == Passes
    ensures BlockedAt(true, ts, k)
  {
    if k > 0 {
      assert ts[k - 1] in ts;
      StaysBlocked(ts, k - 1);
    }
  }

  lemma LoneRunnerSpares(s: State, r: Runner, steps: seq<Step>, l: LinkId)
    requires Stands(s, r, DELETE_LINKS) && LifeOf(s, l) == Lives(true, true) && LivesOn(s, l, None)
    requires Runs(s, steps) && Alone(steps, r)
    ensures LifeOf(Run(s, steps), l) == Lives(true, true)
  {
    var ts := Touches(s, steps, l, None);
    RunMeetsLife(s, steps, l, None);
    LoneTouches(s, r, steps, l);
    FateIff(true, true, ts, |ts|);
    forall k: nat | k <= |ts| ensures BlockedAt(true, ts, k) {
      StaysBlocked(ts, k);
    }
    assert Scrubs !in ts;
    assert forall k: nat :: k < |ts| ==> ts[k] in ts;
  }

  /** From any fresh account: an unblocked link with personal data, off the custom domains, that is
      blocked between the scrub and the delete outlives the account with that data. */
  lemma PiiCanOutliveTheAccount(s: State, r: Runner, l: LinkId) returns (steps: seq<Step>)
    requires Initial(s) && s.user.value.status == Active && LifeOf(s, l) == Lives(false, true) && LivesOn(s, l, None)
    ensures Runs(s, steps) && Run(s, steps).user.None?
    ensures l in Run(s, steps).links && Run(s, steps).links[l].pii && Run(s, steps).links[l].blocked
  {
    steps := RequestAndClaim(s, r);
    EarlyStep(Run(s, steps), r, 0, l, None);
    RunsOneMore(s, steps, Do(r));
    steps := steps + [Do(r)];
    EarlyStep(Run(s, steps), r, SCRUB, l, None);
    RunsOneMore(s, steps, Do(r));
    steps := steps + [Do(r)];
    BlockInBetween(Run(s, steps), r, l);
    RunsOneMore(s, steps, SafetyBlock(l));
    steps := steps + [SafetyBlock(l)];
    var solo := SoloCompletes(Run(s, steps), r);
    LoneRunnerSpares(Run(s, steps), r, solo, l);
    RunsConcat(s, steps, solo);
    steps := steps + solo;
  }

  lemma DeleteThemAll(s: State, r: Runner, l: LinkId) returns (steps: seq<Step>)
    requires Initial(s) && s.user.value.status == Active && l in s.links && !s.links[l].blocked
    ensures Runs(s, steps)
    ensures var t := Run(s, steps);
      && Stands(t, r, DELETE_LINKS + 1) && l !in t.links
      && t.preClaimClicks == s.preClaimClicks && t.known == {r} && t.claims == [0] && t.lease == s.lease
  {
    var home := s.links[l].domain;
    steps := RequestAndClaim(s, r);
    EarlyStep(Run(s, steps), r, 0, l, home);
    RunsOneMore(s, steps, Do(r));
    steps := steps + [Do(r)];
    EarlyStep(Run(s, steps), r, SCRUB, l, home);
    RunsOneMore(s, steps, Do(r));
    steps := steps + [Do(r)];
    EarlyStep(Run(s, steps), r, DELETE_LINKS, l, home);
    RunsOneMore(s, steps, Do(r));
    steps := steps + [Do(r)];
  }

  lemma CrashAndReclaim(s: State, r: Runner, retry: Runner)
    requires Stands(s, r, DELETE_LINKS + 1) && s.known == {r} && retry != r && s.claims == [0]
    ensures Enabled(s, Crash(r)) && Enabled(Next(s, Crash(r)), Claim(retry, s.lease))
    ensures var t := Next(Next(s, Crash(r)), Claim(retry, s.lease));
      Stands(t, retry, 0) && t.links == s.links && t.preClaimClicks == s.preClaimClicks
  {
    NextKeepsClaimInv(s, Crash(r));
    NextKeepsClaimInv(Next(s, Crash(r)), Claim(retry, s.lease));
  }

  /** From any fresh account: after a crash between the link delete and the clicks, the retry can no
      longer name the links that went, so their clicks from before they were claimed outlive the account. */
  lemma PreClaimClicksCanOutliveTheAccount(s: State, r: Runner, retry: Runner, l: LinkId) returns (steps: seq<Step>)
    requires Initial(s) && s.user.value.status == Active && r != retry
    requires l in s.links && !s.links[l].blocked && l in s.preClaimClicks
    ensures Runs(s, steps) && Run(s, steps).user.None? && l in Run(s, steps).preClaimClicks
  {
    steps := DeleteThemAll(s, r, l);
    CrashAndReclaim(Run(s, steps), r, retry);
    RunsOneMore(s, steps, Crash(r));
    steps := steps + [Crash(r)];
    RunsOneMore(s, steps, Claim(retry, s.lease));
    steps := steps + [Claim(retry, s.lease)];
    var solo := SoloCompletes(Run(s, steps), retry);
    RunsConcat(s, steps, solo);
    steps := steps + solo;
  }
}
