/**
 The rule of the bulk operations for one link, and its set-based application to many: what a bulk
 delete, status, expiry or tag change refuses, leaves as it is, or writes.
 */
module BulkRule {
  import opened Prelude
  import opened LinkStore

  const TAGS_MAX_PER_LINK := 10

  datatype Op =
    | Delete
    | SetStatus(status: Status)
    | SetExpiry(until: Option<Time>)
    | Retag(add: seq<Tag>, remove: seq<Tag>)

  function NextTags(tags: seq<Tag>, add: seq<Tag>, remove: seq<Tag>): seq<Tag> {
    var kept := Select(tags, t => t !in remove);
    kept + Select(add, t => t !in kept)
  }

  predicate Changes(op: Op, d: Doc) {
    match op
    case Delete => true
    case SetStatus(s) => d.status != s
    case SetExpiry(until) => d.expireAfter != until
    case Retag(add, remove) => NextTags(d.tags, add, remove) != d.tags
  }

  function Write(op: Op, now: Time, d: Doc): Doc {
    match op
    case Delete => d
    case SetStatus(s) => d.(status := s, updatedAt := now)
    case SetExpiry(until) =>
      d.(expireAfter := until, updatedAt := now, status := if d.status == Expired then Active else d.status)
    case Retag(add, remove) => d.(tags := NextTags(d.tags, add, remove), updatedAt := now)
  }

  predicate OverTagCap(op: Op, d: Doc) {
    op.Retag? && |NextTags(d.tags, op.add, op.remove)| > TAGS_MAX_PER_LINK
  }

  function Refusal(op: Op, d: Doc): Option<Code> {
    if d.status == Blocked then Some(Forbidden)
    else if Changes(op, d) && OverTagCap(op, d) then Some(ValidationError)
    else None
  }

  function VerdictOn(op: Op, d: Option<Doc>): Verdict {
    if d.None? then Rejected(NotFound)
    else
      var refusal := Refusal(op, d.value);
      if refusal.Some? then Rejected(refusal.value) else Done
  }

  /** Whether an accepted item is written at all: same-value items are no-ops. */
  predicate Written(op: Op, db: Db, owner: Owner, id: Id) {
    var d := Owned(db, owner, id);
    d.Some? && Refusal(op, d.value) == None && Changes(op, d.value)
  }

  /** Every written id of `ids` at once. */
  function ApplyAll(op: Op, now: Time, db: Db, owner: Owner, ids: seq<Id>): Db {
    map id | id in db && !(op == Delete && id in ids && Written(op, db, owner, id)) ::
      if id in ids && Written(op, db, owner, id) then Write(op, now, db[id]) else db[id]
  }

  /** What becomes of one requested link. */
  function Fate(op: Op, now: Time, db: Db, owner: Owner, id: Id): Option<Doc> {
    if id !in db then None
    else if !Written(op, db, owner, id) then Some(db[id])
    else if op == Delete then None
    else Some(Write(op, now, db[id]))
  }

  lemma ApplyAllIsFate(op: Op, now: Time, db: Db, owner: Owner, ids: seq<Id>, id: Id)
    ensures Lookup(ApplyAll(op, now, db, owner, ids), id) ==
              if id in ids then Fate(op, now, db, owner, id) else Lookup(db, id)
  {
  }

  // ----- Tag lists -----

  /** No tag twice, and no more than a link can carry. */
  ghost predicate WellTagged(d: Doc) { Distinct(d.tags) && |d.tags| <= TAGS_MAX_PER_LINK }

  lemma NextTagsAreDistinct(tags: seq<Tag>, add: seq<Tag>, remove: seq<Tag>)
    requires Distinct(tags) && Distinct(add)
    ensures Distinct(NextTags(tags, add, remove))
    ensures forall t :: t in NextTags(tags, add, remove) <==> (t in tags && t !in remove) || t in add
  {
    var kept := Select(tags, t => t !in remove);
    var added := Select(add, t => t !in kept);
    assert forall t :: t in kept + added <==> t in kept || t in added;
    forall i, j | 0 <= i < j < |kept + added| ensures (kept + added)[i] != (kept + added)[j] {
      if i < |kept| <= j {
        assert (kept + added)[i] in kept && (kept + added)[j] in added;
      }
    }
  }

  /** Every write keeps the tag lists well formed. */
  lemma WritesKeepTagsWell(op: Op, now: Time, db: Db, owner: Owner, id: Id)
    requires Written(op, db, owner, id) && WellTagged(db[id]) && (op.Retag? ==> Distinct(op.add))
    ensures WellTagged(Write(op, now, db[id]))
  {
    if op.Retag? {
      NextTagsAreDistinct(db[id].tags, op.add, op.remove);
    }
  }
}
