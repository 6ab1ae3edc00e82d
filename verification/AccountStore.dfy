/**
 The user document as the deletion and erasure code sees it, and the guarded single-document
 updates on it. Every update names its expected status in the filter, so each one is a function
 from the stored document to the new one and a flag telling whether it matched.
 */
module AccountStore {
  import opened Prelude

  type Time = int

  datatype Status = Active | Inactive | PendingDeletion | Erasing

  datatype User = User(
    status: Status,
    hasPassword: bool,
    purgeAfter: Option<Time>,
    erasureClaimedAt: Option<Time>)

  /** ACTIVE only: repeats and other statuses are no-ops. */
  function MarkPending(user: Option<User>, now: Time, grace: nat): (Option<User>, bool) {
    if user.Some? && user.value.status == Active
    then (Some(user.value.(status := PendingDeletion, purgeAfter := Some(now + grace))), true)
    else (user, false)
  }

  /** PENDING_DELETION only: an erasure that has claimed the account is final. */
  function Restore(user: Option<User>): (Option<User>, bool) {
    if user.Some? && user.value.status == PendingDeletion
    then (Some(user.value.(status := Active, purgeAfter := None, erasureClaimedAt := None)), true)
    else (user, false)
  }

  /** Past its deadline, or ERASING under a claim whose lease has run out. A missing timestamp
      never satisfies the comparison. */
  predicate PurgeDue(u: User, now: Time, lease: nat) {
    || (u.status == PendingDeletion && u.purgeAfter.Some? && u.purgeAfter.value <= now)
    || (u.status == Erasing && u.erasureClaimedAt.Some? && u.erasureClaimedAt.value <= now - lease)
  }

  function ClaimForErasure(user: Option<User>, now: Time, lease: nat): (Option<User>, bool) {
    if user.Some? && PurgeDue(user.value, now, lease)
    then (Some(user.value.(status := Erasing, erasureClaimedAt := Some(now))), true)
    else (user, false)
  }

  function DeleteHard(user: Option<User>): (Option<User>, bool) {
    if user.Some? && user.value.status == Erasing then (None, true) else (user, false)
  }

  // ----- What the updates mean to each other -----

  /** An account that has just been marked can be claimed exactly from the end of its grace period on,
      whatever the lease, and until then a restore gives back the account as it was. */
  lemma MarkedAccountIsDueAfterGrace(u: User, now: Time, grace: nat, t: Time, lease: nat)
    requires u.purgeAfter == None && u.erasureClaimedAt == None
    ensures var (marked, flipped) := MarkPending(Some(u), now, grace);
      && (flipped <==> u.status == Active)
      && (flipped ==> (ClaimForErasure(marked, t, lease).1 <==> now + grace <= t))
      && (flipped ==> Restore(marked) == (Some(u), true))
      && (flipped ==> !MarkPending(marked, t, grace).1)
  {
  }

  /** A restored account is out of the sweep's reach until somebody marks it again; a claimed one can
      neither be restored nor marked, and only it can be removed. */
  lemma RestoreAndClaimExclude(u: User, now: Time, t: Time, lease: nat)
    ensures Restore(Some(u)).1 ==> !ClaimForErasure(Restore(Some(u)).0, t, lease).1
    ensures Restore(Some(u)).1 ==> Restore(Some(u)).0 == Some(User(Active, u.hasPassword, None, None))
    ensures var (claimed, won) := ClaimForErasure(Some(u), now, lease);
      won ==> !Restore(claimed).1 && !MarkPending(claimed, t, lease).1 && DeleteHard(claimed) == (None, true)
    ensures DeleteHard(Some(u)).1 ==> !Restore(Some(u)).1 && !MarkPending(Some(u), t, lease).1
    ensures var (claimed, won) := ClaimForErasure(Some(u), now, lease);
      won ==> (ClaimForErasure(claimed, t, lease).1 <==> now + lease <= t)
  {
  }
}
