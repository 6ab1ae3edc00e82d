/**
 The single-item update and delete, as the link service runs them, and exactly when a bulk operation
 gives what calling them for each link in turn gives. A tag change has no single-item form of its own:
 the caller sends the whole new list, which is checked and stored as a whole.
 */
module SingleUrls {
  import opened Prelude
  import opened BulkRule
  import opened LinkStore

  /** The fields of an update request these operations use; a missing field is left alone. */
  datatype Request = Request(status: Option<Status>, expiry: Option<Option<Time>>, tags: Option<seq<Tag>>)

  // ----- The update of one link -----

  function StatusOp(d: Doc, q: Request): Option<Status> {
    if q.status.Some? && q.status.value != d.status then q.status else None
  }

  function ExpiryOp(d: Doc, q: Request): Option<Option<Time>> {
    match q.expiry
    case None => None
    case Some(None) => if d.expireAfter.Some? then Some(None) else None
    case Some(Some(t)) => if d.expireAfter != Some(t) then Some(Some(t)) else None
  }

  function TagsOp(d: Doc, q: Request): Option<seq<Tag>> {
    if q.tags.Some? && q.tags.value != d.tags then q.tags else None
  }

  predicate InThePast(q: Request, now: Time) {
    q.expiry.Some? && q.expiry.value.Some? && q.expiry.value.value <= now
  }

  /** Every tag of a submitted list must be the owner's, whether or not the link already carries it. */
  predicate UnknownTags(q: Request, registry: set<Tag>) {
    q.tags.Some? && exists t :: t in q.tags.value && t !in registry
  }

  predicate StartsTooLate(d: Doc, expiry: Option<Option<Time>>) {
    expiry.Some? && expiry.value.Some? && d.startsAt.Some? && d.startsAt.value >= expiry.value.value
  }

  /** An EXPIRED link whose expiry changes for the better comes back, unless the status was set. */
  predicate Reactivates(d: Doc, status: Option<Status>, expiry: Option<Option<Time>>, now: Time) {
    && d.status == Expired && status == None
    && expiry.Some? && (expiry.value.None? || expiry.value.value > now)
  }

  function UpdateUrl(d: Doc, request: Request, registry: set<Tag>, now: Time): Result<Doc, Code> {
    var q := request.(tags := if request.tags.Some? then Some(Dedupe(request.tags.value)) else None);
    if q.tags.Some? && |q.tags.value| > TAGS_MAX_PER_LINK then Err(ValidationError)
    else if d.status == Blocked then Err(Forbidden)
    else
      var status, expiry, tags := StatusOp(d, q), ExpiryOp(d, q), TagsOp(d, q);
      if InThePast(q, now) || UnknownTags(q, registry) || StartsTooLate(d, expiry) then Err(ValidationError)
      else
        var woken := if Reactivates(d, status, expiry, now) then Some(Active) else status;
        if woken == None && expiry == None && tags == None then Ok(d)
        else
          Ok(d.(status := if woken.Some? then woken.value else d.status,
                expireAfter := if expiry.Some? then expiry.value else d.expireAfter,
                tags := if tags.Some? then tags.value else d.tags,
                updatedAt := now))
  }

  /** What an update refuses: too many tags whatever the link, then any change of a blocked link, then an
      expiry that is past or, where it changes, not after the start, and tags that are not the owner's. */
  lemma UpdateRefusesIff(d: Doc, q: Request, registry: set<Tag>, now: Time)
    ensures var r := UpdateUrl(d, q, registry, now);
      var tooMany := q.tags.Some? && |Dedupe(q.tags.value)| > 10;
      && (r == Err(Forbidden) <==> !tooMany && d.status == Blocked)
      && (r == Err(ValidationError) <==>
            || tooMany
            || (d.status != Blocked
                && (|| (q.tags.Some? && exists t :: t in q.tags.value && t !in registry)
                    || (q.expiry.Some? && q.expiry.value.Some?
                        && (|| q.expiry.value.value <= now
                            || (q.expiry.value != d.expireAfter && d.startsAt.Some? && q.expiry.value.value <= d.startsAt.value))))))
      && (r.Err? ==> r.error in {Forbidden, ValidationError})
  {
    if q.tags.Some? {
      var asked := q.(tags := Some(Dedupe(q.tags.value)));
      assert UnknownTags(asked, registry) <==> exists t :: t in q.tags.value && t !in registry;
    }
  }

  /** What an update that is not refused leaves: the fields that were sent, the tags once each; an EXPIRED
      link whose expiry changes comes back ACTIVE unless a new status was sent; the stamp moves iff
      something changed. */
  lemma UpdateWrites(d: Doc, q: Request, registry: set<Tag>, now: Time)
    requires UpdateUrl(d, q, registry, now).Ok?
    ensures var after := UpdateUrl(d, q, registry, now).value;
      && after.expireAfter == (if q.expiry.Some? then q.expiry.value else d.expireAfter)
      && after.tags == (if q.tags.Some? then Dedupe(q.tags.value) else d.tags)
      && after.status == (if q.status.Some? && q.status.value != d.status then q.status.value
                          else if d.status == Expired && after.expireAfter != d.expireAfter then Active
                          else d.status)
      && after.updatedAt == (if after.(updatedAt := d.updatedAt) == d then d.updatedAt else now)
      && after.owner == d.owner && after.alias == d.alias && after.domain == d.domain && after.startsAt == d.startsAt
  {
  }

  // ----- One link at a time -----

  /** What a caller sends to have one link treated as the bulk operation would. */
  function RequestFor(op: Op, d: Doc): Request {
    match op
    case SetStatus(s) => Request(Some(s), None, None)
    case SetExpiry(until) => Request(None, Some(until), None)
    case Retag(add, remove) => Request(None, None, Some(NextTags(d.tags, add, remove)))
    case Delete => Request(None, None, None)
  }

  function SingleOne(op: Op, registry: set<Tag>, now: Time, db: Db, owner: Owner, id: Id): (Db, Verdict) {
    if id !in db then (db, Rejected(NotFound))
    else if db[id].owner != owner then (db, Rejected(Forbidden))
    else if op == Delete then
      if db[id].status == Blocked then (db, Rejected(Forbidden)) else (db - {id}, Done)
    else
      match UpdateUrl(db[id], RequestFor(op, db[id]), registry, now)
      case Ok(d) => (db[id := d], Done)
      case Err(code) => (db, Rejected(code))
  }

  function SingleLoop(op: Op, registry: set<Tag>, now: Time, db: Db, owner: Owner, ids: seq<Id>): (Db, seq<Verdict>)
    decreases |ids|
  {
    if ids == [] then (db, [])
    else
      var n := |ids| - 1;
      var (before, verdicts) := SingleLoop(op, registry, now, db, owner, ids[..n]);
      var (after, verdict) := SingleOne(op, registry, now, before, owner, ids[n]);
      (after, verdicts + [verdict])
  }

  lemma SingleOneIsLocal(op: Op, registry: set<Tag>, now: Time, db: Db, other: Db, owner: Owner, id: Id)
    requires Lookup(db, id) == Lookup(other, id)
    ensures var (after, verdict) := SingleOne(op, registry, now, db, owner, id);
      && verdict == SingleOne(op, registry, now, other, owner, id).1
      && Lookup(after, id) == Lookup(SingleOne(op, registry, now, other, owner, id).0, id)
      && forall x :: x != id ==> Lookup(after, x) == Lookup(db, x)
  {
  }

  /** A call for somebody else's link is forbidden, one for a missing link finds nothing, and neither writes. */
  lemma OthersLinksAreRefused(op: Op, registry: set<Tag>, now: Time, db: Db, owner: Owner, id: Id)
    requires id in db ==> db[id].owner != owner
    ensures SingleOne(op, registry, now, db, owner, id) == (db, Rejected(if id in db then Forbidden else NotFound))
  {
  }

  /** Calling for each link in turn treats every link as if it were called for alone. */
  lemma {:induction false} SingleLoopIsPointwise(op: Op, registry: set<Tag>, now: Time, db: Db, owner: Owner, ids: seq<Id>)
    requires Distinct(ids)
    ensures var (after, verdicts) := SingleLoop(op, registry, now, db, owner, ids);
      && (forall id :: Lookup(after, id) ==
            if id in ids then Lookup(SingleOne(op, registry, now, db, owner, id).0, id) else Lookup(db, id))
      && |verdicts| == |ids|
      && forall i :: 0 <= i < |ids| ==> verdicts[i] == SingleOne(op, registry, now, db, owner, ids[i]).1
    decreases |ids|
  {
    if ids != [] {
      var n := |ids| - 1;
      var init, last := ids[..n], ids[n];
      assert ids == init + [last];
      SingleLoopIsPointwise(op, registry, now, db, owner, init);
      var before := SingleLoop(op, registry, now, db, owner, init).0;
      assert last !in init;
      SingleOneIsLocal(op, registry, now, before, db, owner, last);
    }
  }

  // ----- When a bulk operation is the same -----

  /** What the request as a whole is checked for before any link is looked at. */
  ghost predicate Envelope(op: Op, registry: set<Tag>, now: Time) {
    && (op.SetExpiry? && op.until.Some? ==> now < op.until.value)
    && (op.Retag? ==> Distinct(op.add) && forall t :: t in op.add ==> t in registry)
  }

  /** A link that would expire before it starts. */
  predicate NeverLive(op: Op, d: Doc) {
    op.SetExpiry? && op.until.Some? && d.startsAt.Some? && d.startsAt.value >= op.until.value
  }

  predicate AllKnown(tags: seq<Tag>, registry: set<Tag>) { forall t :: t in tags ==> t in registry }

  /** The owner's link is treated alike: a changed expiry does not precede its start, the tags it keeps
      are still in the registry, and a blocked link is not also over the tag cap. */
  predicate Alike(op: Op, registry: set<Tag>, d: Doc) {
    match op
    case Delete => true
    case SetStatus(_) => true
    case SetExpiry(_) => d.status != Blocked && Changes(op, d) ==> !NeverLive(op, d)
    case Retag(add, remove) =>
      if OverTagCap(op, d) then d.status != Blocked
      else d.status != Blocked ==> AllKnown(NextTags(d.tags, add, remove), registry)
  }

  lemma {:induction false} DedupeOfDistinct(tags: seq<Tag>)
    requires Distinct(tags)
    ensures Dedupe(tags) == tags
  {
    if tags != [] {
      var init := tags[..|tags| - 1];
      DedupeOfDistinct(init);
      assert tags == init + [tags[|tags| - 1]];
    }
  }

  /** What the bulk rule makes of one link. */
  function Ruled(op: Op, now: Time, d: Doc): Result<Doc, Code> {
    var refusal := Refusal(op, d);
    if refusal.Some? then Err(refusal.value) else Ok(if Changes(op, d) then Write(op, now, d) else d)
  }

  lemma StatusIsTheRule(op: Op, registry: set<Tag>, now: Time, d: Doc)
    requires op.SetStatus?
    ensures UpdateUrl(d, RequestFor(op, d), registry, now) == Ruled(op, now, d)
  {
  }

  lemma ExpiryIsTheRuleIff(op: Op, registry: set<Tag>, now: Time, d: Doc)
    requires op.SetExpiry? && Envelope(op, registry, now)
    ensures UpdateUrl(d, RequestFor(op, d), registry, now) == Ruled(op, now, d)
            <==> (d.status != Blocked && Changes(op, d) ==> !NeverLive(op, d))
  {
  }

  lemma TagsAreTheRuleIff(op: Op, registry: set<Tag>, now: Time, d: Doc, next: seq<Tag>)
    requires op.Retag? && next == NextTags(d.tags, op.add, op.remove) && Distinct(next) && |d.tags| <= TAGS_MAX_PER_LINK
    ensures UpdateUrl(d, RequestFor(op, d), registry, now) == Ruled(op, now, d)
            <==> if OverTagCap(op, d) then d.status != Blocked else d.status != Blocked ==> AllKnown(next, registry)
  {
    DedupeOfDistinct(next);
    var q := Request(None, None, Some(next));
    assert RequestFor(op, d) == q && q.(tags := Some(Dedupe(next))) == q;
    assert UnknownTags(q, registry) <==> !AllKnown(next, registry);
  }

  /** One update against the bulk rule. */
  lemma UpdateIsTheRuleIff(op: Op, registry: set<Tag>, now: Time, d: Doc)
    requires op != Delete && Envelope(op, registry, now) && WellTagged(d)
    ensures UpdateUrl(d, RequestFor(op, d), registry, now) == Ruled(op, now, d) <==> Alike(op, registry, d)
  {
    match op {
      case SetStatus(_) => StatusIsTheRule(op, registry, now, d);
      case SetExpiry(_) => ExpiryIsTheRuleIff(op, registry, now, d);
      case Retag(add, remove) =>
        NextTagsAreDistinct(d.tags, add, remove);
        TagsAreTheRuleIff(op, registry, now, d, NextTags(d.tags, add, remove));
    }
  }

  predicate IsForeign(db: Db, owner: Owner, id: Id) { id in db && db[id].owner != owner }

  predicate AlikeFor(op: Op, registry: set<Tag>, db: Db, owner: Owner, id: Id) {
    id in db ==> !IsForeign(db, owner, id) && Alike(op, registry, db[id])
  }

  lemma ItemMatchesIff(op: Op, registry: set<Tag>, now: Time, db: Db, owner: Owner, id: Id)
    requires Envelope(op, registry, now) && (id in db ==> WellTagged(db[id]))
    ensures
      var (after, verdict) := SingleOne(op, registry, now, db, owner, id);
      Lookup(after, id) == Fate(op, now, db, owner, id) && verdict == VerdictOn(op, Owned(db, owner, id))
      <==> AlikeFor(op, registry, db, owner, id)
  {
    if id in db && op != Delete {
      UpdateIsTheRuleIff(op, registry, now, db[id]);
    }
  }

  function Verdicts(op: Op, db: Db, owner: Owner, ids: seq<Id>): seq<Verdict> {
    seq(|ids|, i requires 0 <= i < |ids| => VerdictOn(op, Owned(db, owner, ids[i])))
  }

  /** A bulk operation gives the database and the verdicts of the single-item calls in first-seen order
      iff no requested link is somebody else's and every one of the owner's is treated alike. */
  lemma BulkMatchesSingleIff(op: Op, registry: set<Tag>, now: Time, db: Db, owner: Owner, ids: seq<Id>)
    requires Distinct(ids) && Envelope(op, registry, now) && forall id :: id in db ==> WellTagged(db[id])
    ensures SingleLoop(op, registry, now, db, owner, ids) == (ApplyAll(op, now, db, owner, ids), Verdicts(op, db, owner, ids))
            <==> forall id :: id in ids ==> AlikeFor(op, registry, db, owner, id)
  {
    SingleLoopIsPointwise(op, registry, now, db, owner, ids);
    var (after, verdicts) := SingleLoop(op, registry, now, db, owner, ids);
    var bulk := ApplyAll(op, now, db, owner, ids);
    forall id ensures Lookup(bulk, id) == if id in ids then Fate(op, now, db, owner, id) else Lookup(db, id) {
      ApplyAllIsFate(op, now, db, owner, ids, id);
    }
    if forall id :: id in ids ==> AlikeFor(op, registry, db, owner, id) {
      forall id ensures Lookup(after, id) == Lookup(bulk, id) {
        if id in ids {
          ItemMatchesIff(op, registry, now, db, owner, id);
        }
      }
      SameLookups(after, bulk);
      forall i | 0 <= i < |ids| ensures verdicts[i] == Verdicts(op, db, owner, ids)[i] {
        ItemMatchesIff(op, registry, now, db, owner, ids[i]);
      }
      assert verdicts == Verdicts(op, db, owner, ids);
    } else {
      var id :| id in ids && !AlikeFor(op, registry, db, owner, id);
      ItemMatchesIff(op, registry, now, db, owner, id);
      var i :| 0 <= i < |ids| && ids[i] == id;
      assert Lookup(after, id) != Lookup(bulk, id) || verdicts[i] != Verdicts(op, db, owner, ids)[i];
    }
  }

  lemma SameLookups(a: Db, b: Db)
    requires forall id :: Lookup(a, id) == Lookup(b, id)
    ensures a == b
  {
    forall id ensures id in a <==> id in b {
      assert Lookup(a, id) == Lookup(b, id);
    }
    forall id | id in a ensures a[id] == b[id] {
      assert Lookup(a, id) == Lookup(b, id);
    }
  }

  /** For instance, a scheduled link given an expiry at its start: bulk accepts, single refuses. */
  lemma ExpiryAtStartPartsThePaths(d: Doc, start: Time, registry: set<Tag>, now: Time)
    requires d.status != Blocked && d.startsAt == Some(start) && d.expireAfter != Some(start)
    ensures VerdictOn(SetExpiry(Some(start)), Some(d)) == Done
    ensures UpdateUrl(d, RequestFor(SetExpiry(Some(start)), d), registry, now) == Err(ValidationError)
  {
  }

  lemma AddOneTag(gone: Tag, tag: Tag)
    requires tag != gone
    ensures NextTags([gone], [tag], []) == [gone, tag]
  {
    SelectAll([gone], t => t !in []);
    SelectAll([tag], t => t !in [gone]);
    assert [gone] + [tag] == [gone, tag];
  }

  lemma SelectAll(tags: seq<Tag>, keep: Tag -> bool)
    requires |tags| == 1 && keep(tags[0])
    ensures Select(tags, keep) == tags
  {
  }

  lemma UnknownTagIsRefused(d: Doc, tags: seq<Tag>, registry: set<Tag>, now: Time)
    requires Distinct(tags) && |tags| <= TAGS_MAX_PER_LINK && d.status != Blocked && !AllKnown(tags, registry)
    ensures UpdateUrl(d, Request(None, None, Some(tags)), registry, now) == Err(ValidationError)
  {
    DedupeOfDistinct(tags);
    assert UnknownTags(Request(None, None, Some(tags)), registry);
  }

  /** And a link that still carries a tag the owner has deleted: adding another one in bulk succeeds,
      sending the whole list back is refused. */
  lemma DeletedTagPartsThePaths(d: Doc, gone: Tag, tag: Tag, now: Time)
    requires d.status != Blocked && d.tags == [gone] && tag != gone
    ensures VerdictOn(Retag([tag], []), Some(d)) == Done
    ensures UpdateUrl(d, RequestFor(Retag([tag], []), d), {tag}, now) == Err(ValidationError)
  {
    AddOneTag(gone, tag);
    assert gone in [gone, tag];
    UnknownTagIsRefused(d, [gone, tag], {tag}, now);
  }
}
