/**
 The bulk service: one owned fetch, one set-based write for the actionable slice, one verdict per
 unique requested id, and a redirect cache that keeps agreeing with the database.
 */
module BulkUrls {
  import opened Prelude
  import opened BulkMove
  import opened BulkRule
  import opened LinkStore
  import opened SingleUrls

  // ----- The batch of verdicts -----

  datatype Report = Report(total: nat, succeeded: nat, failed: nat, results: seq<(Id, Verdict)>)

  function DoneRows(results: seq<(Id, Verdict)>): set<nat> { set i: nat | i < |results| && results[i].1 == Done }

  function RefusedRows(results: seq<(Id, Verdict)>): set<nat> { set i: nat | i < |results| && results[i].1.Rejected? }

  lemma OneMoreDone(results: seq<(Id, Verdict)>, row: (Id, Verdict))
    ensures |DoneRows(results + [row])| == |DoneRows(results)| + (if row.1 == Done then 1 else 0)
  {
    assert DoneRows(results + [row]) == DoneRows(results) + if row.1 == Done then {|results|} else {};
  }

  lemma OneMoreRefused(results: seq<(Id, Verdict)>, row: (Id, Verdict))
    ensures |RefusedRows(results + [row])| == |RefusedRows(results)| + (if row.1.Rejected? then 1 else 0)
  {
    assert RefusedRows(results + [row]) == RefusedRows(results) + if row.1.Rejected? then {|results|} else {};
  }

  /** The totals are those of the rows. */
  ghost predicate AddsUp(r: Report) {
    && r.total == |r.results|
    && r.succeeded == |set i | 0 <= i < |r.results| && r.results[i].1 == Done|
    && r.failed == |set i | 0 <= i < |r.results| && r.results[i].1.Rejected?|
  }

  function Unanswered(order: seq<Id>, docs: map<Id, Doc>, rows: map<Id, Verdict>): (pending: seq<Id>)
    ensures forall id :: id in pending <==> id in order && id in docs && id !in rows
    ensures Distinct(order) ==> Distinct(pending)
  {
    Select(order, (id: Id) => id in docs && id !in rows)
  }

  class BulkBatch {
    const order: seq<Id>
    const docs: map<Id, Doc>
    var rows: map<Id, Verdict>

    constructor (order: seq<Id>, docs: map<Id, Doc>)
      ensures this.order == order && this.docs == docs && rows == map[]
    {
      this.order, this.docs, rows := order, docs, map[];
    }

    method Answer(ids: seq<Id>, verdict: Verdict)
      modifies this
      ensures forall id :: id in rows <==> id in old(rows) || id in ids
      ensures forall id :: id in rows ==> rows[id] == if id in ids then verdict else old(rows)[id]
    {
      ghost var before := rows;
      for i := 0 to |ids|
        invariant forall id :: id in rows <==> id in before || id in ids[..i]
        invariant forall id :: id in rows ==> rows[id] == if id in ids[..i] then verdict else before[id]
      {
        assert ids[..i + 1] == ids[..i] + [ids[i]];
        rows := rows[ids[i] := verdict];
      }
      assert ids[..|ids|] == ids;
    }

    function Pending(): (pending: seq<Id>)
      reads this
      ensures pending == Unanswered(order, docs, rows)
    {
      Unanswered(order, docs, rows)
    }

    /** Refuses to report while an id lacks a verdict; otherwise one row per id, in request order. */
    method MakeReport() returns (r: Result<Report, nat>)
      ensures r.Err? <==> exists id :: id in order && id !in rows
      ensures r.Ok? ==>
        && AddsUp(r.value) && r.value.total == |order|
        && r.value.succeeded == |set i | 0 <= i < |r.value.results| && r.value.results[i].1 == Done|
        && r.value.failed == |set i | 0 <= i < |r.value.results| && r.value.results[i].1.Rejected?|
        && forall i :: 0 <= i < |order| ==> order[i] in rows && r.value.results[i] == (order[i], rows[order[i]])
    {
      var answered := rows;
      var missing := Select(order, id => id !in answered);
      if missing != [] {
        assert missing[0] in missing;
        return Err(|missing|);
      }
      forall id | id in order ensures id in rows {
        assert id !in missing;
      }
      var results, succeeded := [], 0;
      for i := 0 to |order|
        invariant |results| == i
        invariant forall k :: 0 <= k < i ==> results[k] == (order[k], rows[order[k]])
        invariant succeeded == |DoneRows(results)| && |results| - succeeded == |RefusedRows(results)|
      {
        var row := (order[i], rows[order[i]]);
        OneMoreDone(results, row);
        OneMoreRefused(results, row);
        results := results + [row];
        if row.1 == Done {
          succeeded := succeeded + 1;
        }
      }
      r := Ok(Report(|results|, succeeded, |results| - succeeded, results));
      assert DoneRows(results) == set i | 0 <= i < |results| && results[i].1 == Done;
      assert RefusedRows(results) == set i | 0 <= i < |results| && results[i].1.Rejected?;
    }
  }

  // ----- The service -----

  datatype Error = PastExpiry | ForeignTags | MissingVerdicts

  /** How one write of the batch ends: a failing write may have applied to any of its documents. */
  datatype WriteIo = WriteIo(fails: bool, applied: set<Id>)

  predicate Lands(io: WriteIo, id: Id) { !io.fails || id in io.applied }

  /** A SetExpiry batch writes its EXPIRED items separately; every other operation writes once. */
  function IoFor(op: Op, d: Doc, io: WriteIo, reactivating: WriteIo): WriteIo {
    if op.SetExpiry? && d.status == Expired then reactivating else io
  }

  predicate Landed(op: Op, db: Db, owner: Owner, id: Id, io: WriteIo, reactivating: WriteIo) {
    Written(op, db, owner, id) && Lands(IoFor(op, db[id], io, reactivating), id)
  }

  /** The database after the batch's writes, however they end. */
  function ApplyLanded(op: Op, now: Time, db: Db, owner: Owner, ids: seq<Id>, io: WriteIo, reactivating: WriteIo): Db {
    map id | id in db && !(op == Delete && id in ids && Landed(op, db, owner, id, io, reactivating)) ::
      if id in ids && Landed(op, db, owner, id, io, reactivating) then Write(op, now, db[id]) else db[id]
  }

  /** The row of one item: exact where the outcome is known. A failing update reports its whole slice
      `internal`; a failing delete is re-queried, unless that fails too. */
  function RowVerdict(op: Op, db: Db, owner: Owner, id: Id, io: WriteIo, reactivating: WriteIo, requeryFails: bool): Verdict {
    var verdict := VerdictOn(op, Owned(db, owner, id));
    if !Written(op, db, owner, id) || !IoFor(op, db[id], io, reactivating).fails then verdict
    else if op != Delete then Rejected(Internal)
    else if requeryFails then Rejected(NotAttempted)
    else if Lands(io, id) then Done
    else Rejected(Internal)
  }

  /** Every requested id has its row. */
  ghost predicate Answered(rows: map<Id, Verdict>, op: Op, db: Db, owner: Owner, ids: seq<Id>,
                           io: WriteIo, reactivating: WriteIo, requeryFails: bool) {
    forall id :: id in ids ==> id in rows && rows[id] == RowVerdict(op, db, owner, id, io, reactivating, requeryFails)
  }

  /** The verdicts the fetch alone decides. */
  ghost predicate BaseRows(rows: map<Id, Verdict>, db: Db, owner: Owner, ids: seq<Id>) {
    && (forall id :: id in rows <==> id in ids && (Owned(db, owner, id) == None || db[id].status == Blocked))
    && (forall id :: id in rows ==>
          rows[id] == if Owned(db, owner, id) == None then Rejected(NotFound) else Rejected(Forbidden))
  }

  ghost predicate IsWrittenSlice(slice: seq<Id>, op: Op, db: Db, owner: Owner, ids: seq<Id>) {
    forall id :: id in slice <==> id in ids && Written(op, db, owner, id)
  }

  ghost predicate IsFetched(docs: map<Id, Doc>, db: Db, owner: Owner, ids: seq<Id>) {
    docs == map id | id in db && id in ids && db[id].owner == owner :: db[id]
  }

  /** The actionable documents that change, within the tag cap, are the ones the rule writes. */
  lemma ActionableChangesAreWritten(op: Op, db: Db, owner: Owner, ids: seq<Id>, base: map<Id, Verdict>,
                                    docs: map<Id, Doc>, slice: seq<Id>)
    requires BaseRows(base, db, owner, ids) && IsFetched(docs, db, owner, ids)
    requires forall id :: id in slice <==>
               id in ids && id in docs && id !in base && Changes(op, docs[id]) && !OverTagCap(op, docs[id])
    ensures IsWrittenSlice(slice, op, db, owner, ids)
  {
    forall id ensures id in slice <==> id in ids && Written(op, db, owner, id) {
      if id in ids && id in docs {
        assert Owned(db, owner, id) == Some(docs[id]);
      }
    }
  }

  lemma DeletedAsRuled(before: Db, after: Db, owner: Owner, ids: seq<Id>, docs: seq<Id>,
                       base: map<Id, Verdict>, rows: map<Id, Verdict>, io: WriteIo, requeryFails: bool)
    requires BaseRows(base, before, owner, ids) && IsWrittenSlice(docs, Delete, before, owner, ids)
    requires after == map id | id in before && !(id in docs && before[id].owner == owner && Lands(io, id)) :: before[id]
    requires forall id :: id in rows <==> id in base || id in docs
    requires forall id :: id in rows ==>
               rows[id] ==
                 if id !in docs then base[id]
                 else if !io.fails then Done
                 else if requeryFails then Rejected(NotAttempted)
                 else if id in after && after[id].owner == owner then Rejected(Internal)
                 else Done
    ensures after == ApplyLanded(Delete, 0, before, owner, ids, io, io)
    ensures Answered(rows, Delete, before, owner, ids, io, io, requeryFails)
  {
    forall id | id in ids
      ensures id in rows && rows[id] == RowVerdict(Delete, before, owner, id, io, io, requeryFails)
    {
      assert id in base || Written(Delete, before, owner, id);
    }
  }

  /** Every item that will not be written has its verdict, and no other item has one. */
  ghost predicate Planned(rows: map<Id, Verdict>, op: Op, db: Db, owner: Owner, ids: seq<Id>) {
    && (forall id :: id in rows <==> id in ids && !Written(op, db, owner, id))
    && (forall id :: id in rows ==> rows[id] == VerdictOn(op, Owned(db, owner, id)))
  }

  lemma NoOpsAndRefusalsArePlanned(op: Op, db: Db, owner: Owner, ids: seq<Id>, docs: map<Id, Doc>,
                                   base: map<Id, Verdict>, rows: map<Id, Verdict>)
    requires op != Delete && BaseRows(base, db, owner, ids) && IsFetched(docs, db, owner, ids)
    requires forall id :: id in rows <==>
               id in base || (id in ids && id in docs && (!Changes(op, docs[id]) || OverTagCap(op, docs[id])))
    requires forall id :: id in rows ==>
               rows[id] == if id in base then base[id]
                           else if !Changes(op, docs[id]) then Done else Rejected(ValidationError)
    ensures Planned(rows, op, db, owner, ids)
  {
    forall id
      ensures id in rows <==> id in ids && !Written(op, db, owner, id)
      ensures id in rows ==> rows[id] == VerdictOn(op, Owned(db, owner, id))
    {
      if id in ids && id in docs {
        assert Owned(db, owner, id) == Some(docs[id]);
      }
    }
  }

  /** Answering the written slice by how its write ended completes the batch. */
  lemma WrittenSliceCompletes(op: Op, db: Db, owner: Owner, ids: seq<Id>, slice: seq<Id>, planned: map<Id, Verdict>,
                              rows: map<Id, Verdict>, io: WriteIo, reactivating: WriteIo)
    requires op != Delete && Planned(planned, op, db, owner, ids) && IsWrittenSlice(slice, op, db, owner, ids)
    requires forall id :: id in planned && id !in slice ==> id in rows && rows[id] == planned[id]
    requires forall id :: id in slice ==>
               && id in rows && id in db
               && rows[id] == if IoFor(op, db[id], io, reactivating).fails then Rejected(Internal) else Done
    ensures Answered(rows, op, db, owner, ids, io, reactivating, false)
  {
  }

  lemma UpdatedAsRuled(op: Op, now: Time, before: Db, after: Db, owner: Owner, ids: seq<Id>, slice: seq<Id>, io: WriteIo)
    requires op != Delete && !op.SetExpiry? && IsWrittenSlice(slice, op, before, owner, ids)
    requires Updated(before, after, slice, op, now, owner, io)
    ensures after == ApplyLanded(op, now, before, owner, ids, io, io)
  {
  }

  ghost predicate Updated(before: Db, after: Db, slice: seq<Id>, op: Op, now: Time, owner: Owner, io: WriteIo) {
    after == map id | id in before ::
               if id in slice && before[id].owner == owner && Lands(io, id) then Write(op, now, before[id]) else before[id]
  }

  /** Cached entries only disappear, and none under the key of a document of the slice is left. */
  ghost predicate Dropped(before: Cache, after: Cache, slice: seq<Id>, docs: map<Id, Doc>)
    requires forall id :: id in slice ==> id in docs
  {
    && (forall k :: k in after ==> k in before && after[k] == before[k])
    && (forall id :: id in slice ==> KeyOf(docs[id]) !in after)
  }

  lemma ExpiryUpdatedAsRuled(op: Op, now: Time, before: Db, middle: Db, after: Db, owner: Owner, ids: seq<Id>,
                             plain: seq<Id>, expired: seq<Id>, io: WriteIo, reactivating: WriteIo)
    requires op.SetExpiry?
    requires IsWrittenSlice(plain + expired, op, before, owner, ids)
    requires forall id :: id in plain ==> id in before && before[id].status != Expired
    requires forall id :: id in expired ==> id in before && before[id].status == Expired
    requires Updated(before, middle, plain, op, now, owner, io)
    requires Updated(middle, after, expired, op, now, owner, reactivating)
    ensures after == ApplyLanded(op, now, before, owner, ids, io, reactivating)
  {
    var ruled := ApplyLanded(op, now, before, owner, ids, io, reactivating);
    forall id | id in before ensures after[id] == ruled[id] {
      assert id in plain + expired <==> id in plain || id in expired;
      if id in expired {
        assert middle[id] == before[id];
      }
    }
  }

  /** Exactly one row per unique requested id, in first-seen order, and totals that add up. */
  ghost predicate ReportsEach(r: Report, op: Op, db: Db, owner: Owner, ids: seq<Id>,
                              io: WriteIo, reactivating: WriteIo, requeryFails: bool) {
    && AddsUp(r) && r.total == |Dedupe(ids)|
    && forall i :: 0 <= i < |r.results| ==>
         r.results[i] == (Dedupe(ids)[i], RowVerdict(op, db, owner, Dedupe(ids)[i], io, reactivating, requeryFails))
  }

  lemma QuietWritesApplyTheRule(op: Op, now: Time, db: Db, owner: Owner, ids: seq<Id>, io: WriteIo, reactivating: WriteIo)
    requires !io.fails && !reactivating.fails
    ensures ApplyLanded(op, now, db, owner, ids, io, reactivating) == ApplyAll(op, now, db, owner, ids)
    ensures forall id, requeryFails ::
              RowVerdict(op, db, owner, id, io, reactivating, requeryFails) == VerdictOn(op, Owned(db, owner, id))
  {
  }

  ghost predicate RowsAre(r: Report, ids: seq<Id>, verdicts: seq<Verdict>) {
    && |r.results| == |ids| == |verdicts|
    && forall i :: 0 <= i < |ids| ==> r.results[i] == (ids[i], verdicts[i])
  }

  lemma RowsAreAtMostOne(r: Report, ids: seq<Id>, one: seq<Verdict>, other: seq<Verdict>)
    requires RowsAre(r, ids, one) && |other| == |ids|
    ensures RowsAre(r, ids, other) <==> one == other
  {
    if RowsAre(r, ids, other) {
      forall i | 0 <= i < |ids| ensures one[i] == other[i] {
        assert r.results[i] == (ids[i], other[i]);
      }
    }
  }

  lemma QuietRows(op: Op, now: Time, db: Db, owner: Owner, ids: seq<Id>, io: WriteIo, reactivating: WriteIo,
                  requeryFails: bool, r: Report)
    requires !io.fails && !reactivating.fails && ReportsEach(r, op, db, owner, ids, io, reactivating, requeryFails)
    ensures ApplyLanded(op, now, db, owner, ids, io, reactivating) == ApplyAll(op, now, db, owner, Dedupe(ids))
    ensures RowsAre(r, Dedupe(ids), Verdicts(op, db, owner, Dedupe(ids)))
  {
    QuietWritesApplyTheRule(op, now, db, owner, ids, io, reactivating);
    assert ApplyAll(op, now, db, owner, ids) == ApplyAll(op, now, db, owner, Dedupe(ids));
  }

  /** With no failing write, what a bulk operation leaves and reports is what calling the single-item
      endpoint for each unique id in first-seen order leaves and answers, iff no requested link is
      somebody else's and every one of the owner's is treated alike. */
  lemma QuietBulkIsTheSingleLoopIff(op: Op, registry: set<Tag>, now: Time, db: Db, owner: Owner, ids: seq<Id>,
                                    io: WriteIo, reactivating: WriteIo, requeryFails: bool, r: Report)
    requires !io.fails && !reactivating.fails && ReportsEach(r, op, db, owner, ids, io, reactivating, requeryFails)
    requires Envelope(op, registry, now) && forall id :: id in db ==> WellTagged(db[id])
    ensures
      var (after, verdicts) := SingleLoop(op, registry, now, db, owner, Dedupe(ids));
      ApplyLanded(op, now, db, owner, ids, io, reactivating) == after && RowsAre(r, Dedupe(ids), verdicts)
      <==> forall id :: id in ids ==> AlikeFor(op, registry, db, owner, id)
  {
    var unique := Dedupe(ids);
    QuietRows(op, now, db, owner, ids, io, reactivating, requeryFails, r);
    BulkMatchesSingleIff(op, registry, now, db, owner, unique);
    var verdicts := SingleLoop(op, registry, now, db, owner, unique).1;
    if |verdicts| == |unique| {
      RowsAreAtMostOne(r, unique, Verdicts(op, db, owner, unique), verdicts);
    }
  }

  /** A row never misstates the database: an accepted item is as the rule wants it, and a refused one
      is untouched, except that `internal` updates and `not_attempted` deletes may have landed. */
  lemma RowsTellTheTruth(op: Op, now: Time, db: Db, owner: Owner, ids: seq<Id>, id: Id,
                         io: WriteIo, reactivating: WriteIo, requeryFails: bool)
    requires id in ids
    ensures var row := RowVerdict(op, db, owner, id, io, reactivating, requeryFails);
      var after := ApplyLanded(op, now, db, owner, ids, io, reactivating);
      && (row == Done ==> Lookup(after, id) == Lookup(ApplyAll(op, now, db, owner, ids), id))
      && (row.Rejected? && row.code != NotAttempted && (row.code != Internal || op == Delete) ==>
            Lookup(after, id) == Lookup(db, id))
  {
  }

  /** The excluded path, exactly: a failed delete that cannot re-query drops no key, so the cache still
      agrees iff none of the owner's unblocked requested links that did go was cached under its key. */
  lemma BlindDeleteAgreesIff(db: Db, cache: Cache, owner: Owner, ids: seq<Id>, io: WriteIo)
    requires CacheAgrees(db, cache) && UniqueKeys(db)
    ensures CacheAgrees(ApplyLanded(Delete, 0, db, owner, ids, io, io), cache)
            <==> forall id :: id in ids && id in db && db[id].owner == owner && db[id].status != Blocked && Lands(io, id) ==>
                   KeyOf(db[id]) !in cache
  {
    var after := ApplyLanded(Delete, 0, db, owner, ids, io, io);
    forall k | k in cache
      ensures cache[k].id in after <==> !(cache[k].id in ids && Landed(Delete, db, owner, cache[k].id, io, io))
    {
    }
    forall id | id in db && KeyOf(db[id]) in cache ensures cache[KeyOf(db[id])].id == id {
    }
  }

  // ----- Moving links to another domain -----

  datatype Snapshot = Snapshot(db: Db, cache: Cache, rows: map<Id, Verdict>)

  /** After `k` items: the moves still to make lead where all the moves lead, the items behind have
      their rows, and the ones ahead are as they were fetched. */
  ghost predicate RowsSoFar(m: Move, items: seq<Id>, io: Id -> MoveIo, start: Snapshot, at: Snapshot, k: nat)
    requires k <= |items|
  {
    var (end, all) := Moves(m, start.db, items, io);
    var (landing, rest) := Moves(m, at.db, items[k..], io);
    && end == landing
    && (forall j :: 0 <= j < |items| ==> items[j] in start.db && items[j] in all)
    && (forall j :: 0 <= j < k ==> items[j] in at.rows && all[items[j]] == at.rows[items[j]])
    && (forall j :: k <= j < |items| ==>
          && items[j] in rest && all[items[j]] == rest[items[j]]
          && items[j] in at.db && at.db[items[j]] == start.db[items[j]])
    && (forall id :: id in start.rows && id !in items ==> id in at.rows && at.rows[id] == start.rows[id])
    && (forall id :: id in at.rows ==> id in start.rows || id in items)
  }

  predicate HasRow(s: Snapshot, id: Id, verdict: Verdict) { id in s.rows && s.rows[id] == verdict }

  /** The ids the loop has moved among its first `k`. */
  ghost predicate MovedSoFar(m: Move, items: seq<Id>, start: Db, rows: map<Id, Verdict>, k: nat, moved: seq<Id>)
    requires k <= |items|
  {
    && (forall id :: id in moved ==> id in items[..k])
    && (forall j :: 0 <= j < k && items[j] in start && items[j] in rows ==>
          (items[j] in moved <==> rows[items[j]] == Done && start[items[j]].domain != m.target))
  }

  /** Documents change only by moving, or under an unknown outcome; the cache only loses entries,
      among them both keys of every item with an unknown outcome. */
  ghost predicate SettledSoFar(m: Move, items: seq<Id>, start: Snapshot, at: Snapshot, k: nat)
    requires k <= |items|
  {
    && (forall key :: key in at.cache ==> key in start.cache && at.cache[key] == start.cache[key])
    && (forall j :: 0 <= j < k && HasRow(at, items[j], Rejected(Internal)) && items[j] in start.db ==>
          KeyOf(start.db[items[j]]) !in at.cache && (start.db[items[j]].alias, m.target) !in at.cache)
    && (forall id :: id in start.db ==>
          && id in at.db
          && (at.db[id] != start.db[id] ==>
                && id in items && start.db[id].domain != m.target
                && (HasRow(at, id, Done) || HasRow(at, id, Rejected(Internal)))))
  }

  ghost predicate MoveLoop(m: Move, items: seq<Id>, io: Id -> MoveIo, start: Snapshot, at: Snapshot, k: nat, moved: seq<Id>) {
    && k <= |items| && RowsSoFar(m, items, io, start, at, k)
    && MovedSoFar(m, items, start.db, at.rows, k, moved) && SettledSoFar(m, items, start, at, k)
  }

  ghost predicate ItemMoved(m: Move, id: Id, io: MoveIo, at: Snapshot, after: Snapshot) {
    && after.db == MoveOne(m, at.db, id, io).0
    && after.rows == at.rows[id := MoveOne(m, at.db, id, io).1]
    && (forall key :: key in after.cache ==> key in at.cache && after.cache[key] == at.cache[key])
  }

  lemma RowsStep(m: Move, items: seq<Id>, io: Id -> MoveIo, start: Snapshot, at: Snapshot, after: Snapshot, k: nat)
    requires k < |items| && Distinct(items) && IntrudersApart(items, io)
    requires RowsSoFar(m, items, io, start, at, k) && ItemMoved(m, items[k], io(items[k]), at, after)
    ensures RowsSoFar(m, items, io, start, after, k + 1)
  {
    var id := items[k];
    assert items[k..][0] == id && items[k..][1..] == items[k + 1..];
    MoveOneFrame(m, at.db, id, io(id));
    MovesAnswerEveryItem(m, after.db, items[k + 1..], io);
    assert Moves(m, at.db, items[k..], io).1 == Moves(m, after.db, items[k + 1..], io).1[id := after.rows[id]];
    forall j | k < j < |items| ensures items[j] in Moves(m, after.db, items[k + 1..], io).1 {
      assert items[j] == items[k + 1..][j - k - 1];
    }
  }

  /** What one item can change, whatever its outcome. */
  ghost predicate ItemFramed(m: Move, id: Id, at: Snapshot, after: Snapshot) {
    && (forall x :: x in at.db ==> x in after.db && (x != id ==> after.db[x] == at.db[x]))
    && id in after.rows && after.rows == at.rows[id := after.rows[id]]
    && (after.rows[id] != Done && after.rows[id] != Rejected(Internal) && id in at.db ==> after.db[id] == at.db[id])
    && (id in at.db && at.db[id].domain == m.target ==> after.db[id] == at.db[id])
    && (forall key :: key in after.cache ==> key in at.cache && after.cache[key] == at.cache[key])
  }

  lemma ItemMovedIsFramed(m: Move, id: Id, io: MoveIo, at: Snapshot, after: Snapshot)
    requires ItemMoved(m, id, io, at, after)
    ensures ItemFramed(m, id, at, after)
  {
    MoveOneFrame(m, at.db, id, io);
  }

  lemma MovedStep(m: Move, items: seq<Id>, start: Db, rows: map<Id, Verdict>, verdict: Verdict,
                  k: nat, moved: seq<Id>, next: seq<Id>)
    requires k < |items| && Distinct(items) && items[k] in start
    requires MovedSoFar(m, items, start, rows, k, moved)
    requires next == if verdict == Done && start[items[k]].domain != m.target then moved + [items[k]] else moved
    ensures MovedSoFar(m, items, start, rows[items[k] := verdict], k + 1, next)
  {
    assert items[..k + 1] == items[..k] + [items[k]];
    assert items[k] !in items[..k];
  }

  lemma SettledStep(m: Move, items: seq<Id>, start: Snapshot, at: Snapshot, after: Snapshot, k: nat)
    requires k < |items| && Distinct(items)
    requires SettledSoFar(m, items, start, at, k) && ItemFramed(m, items[k], at, after)
    requires items[k] in start.db && items[k] in at.db && at.db[items[k]] == start.db[items[k]]
    requires HasRow(after, items[k], Rejected(Internal)) ==>
               KeyOf(start.db[items[k]]) !in after.cache && (start.db[items[k]].alias, m.target) !in after.cache
    ensures SettledSoFar(m, items, start, after, k + 1)
  {
  }

  /** One row per unique id, in first-seen order, with totals that add up. */
  ghost predicate ReportsMoves(r: Report, verdicts: map<Id, Verdict>, ids: seq<Id>) {
    && AddsUp(r) && r.total == |ids|
    && forall i :: 0 <= i < |r.results| ==> ids[i] in verdicts && r.results[i] == (ids[i], verdicts[ids[i]])
  }

  /** A row that says moved, or says it cannot tell. */
  predicate MayHaveMoved(m: Move, start: Db, id: Id, row: Verdict) {
    id in start && (row == Rejected(Internal) || (row == Done && start[id].domain != m.target))
  }

  ghost predicate BothKeysDropped(r: Report, m: Move, before: Db, cache: Cache) {
    forall row :: row in r.results && MayHaveMoved(m, before, row.0, row.1) ==>
      KeyOf(before[row.0]) !in cache && (before[row.0].alias, m.target) !in cache
  }

  lemma UnansweredAreActionable(m: Move, db: Db, ids: seq<Id>, docs: map<Id, Doc>, base: map<Id, Verdict>)
    requires IsFetched(docs, db, m.owner, ids) && BaseRows(base, db, m.owner, ids)
    ensures Unanswered(Dedupe(ids), docs, base) == ActionableItems(m, db, Dedupe(ids))
  {
    var p: Id -> bool := (id: Id) => id in docs && id !in base;
    var q: Id -> bool := (id: Id) => Actionable(m, db, id);
    SelectsAlike(Dedupe(ids), p, q);
  }

  /** The database and the rows of a finished batch, link by link. */
  lemma RowsAreRight(m: Move, start: Db, ids: seq<Id>, io: Id -> MoveIo, r: Report)
    requires Distinct(ids) && IntrudersApart(ids, io) && ReportsMoves(r, Moves(m, start, ids, io).1, ids)
    ensures var after := Moves(m, start, ids, io).0;
      && (forall id :: id in start ==> id in after && MovedByRight(m, start[id], after[id]))
      && (forall row :: row in r.results ==> RowIsRight(m, Lookup(start, row.0), Lookup(after, row.0), row.1))
  {
    var after := Moves(m, start, ids, io).0;
    forall id | id in start ensures id in after && MovedByRight(m, start[id], after[id]) {
      EveryMoveIsByRight(m, start, ids, io, id);
    }
    forall row | row in r.results ensures RowIsRight(m, Lookup(start, row.0), Lookup(after, row.0), row.1) {
      var i :| 0 <= i < |r.results| && r.results[i] == row;
      assert ids[i] in ids;
      EveryMoveIsByRight(m, start, ids, io, row.0);
    }
  }

  ghost predicate LoopDone(m: Move, ids: seq<Id>, pending: seq<Id>, io: Id -> MoveIo, start: Snapshot, at: Snapshot, moved: seq<Id>) {
    && pending == ActionableItems(m, start.db, Dedupe(ids)) && IntrudersApart(Dedupe(ids), io)
    && BaseRows(start.rows, start.db, m.owner, ids)
    && MoveLoop(m, pending, io, start, at, |pending|, moved)
  }

  /** The loop over the actionable items ends where the single-item calls end, with their rows. */
  lemma MovedBatchIsComplete(m: Move, ids: seq<Id>, pending: seq<Id>, io: Id -> MoveIo, start: Snapshot, at: Snapshot, moved: seq<Id>)
    requires LoopDone(m, ids, pending, io, start, at, moved)
    ensures at.db == Moves(m, start.db, Dedupe(ids), io).0
    ensures forall id :: id in Dedupe(ids) ==>
              id in at.rows && id in Moves(m, start.db, Dedupe(ids), io).1 && at.rows[id] == Moves(m, start.db, Dedupe(ids), io).1[id]
  {
    SkippingRefusedItems(m, start.db, start.db, Dedupe(ids), pending, io);
    assert pending[|pending|..] == [];
    forall id | id in pending ensures id in at.rows && at.rows[id] == Moves(m, start.db, pending, io).1[id] {
      var j :| 0 <= j < |pending| && pending[j] == id;
    }
  }

  ghost predicate KeysGone(m: Move, start: Db, moved: seq<Id>, cache: Cache) {
    forall id :: id in moved && id in start ==> KeyOf(start[id]) !in cache && (start[id].alias, m.target) !in cache
  }

  lemma MovedKeysAreGone(m: Move, ids: seq<Id>, pending: seq<Id>, io: Id -> MoveIo, start: Snapshot, at: Snapshot,
                         moved: seq<Id>, cache: Cache)
    requires LoopDone(m, ids, pending, io, start, at, moved) && KeysGone(m, start.db, moved, cache)
    requires forall key :: key in cache ==> key in at.cache
    ensures forall id :: id in ids && id in at.rows && MayHaveMoved(m, start.db, id, at.rows[id]) ==>
              KeyOf(start.db[id]) !in cache && (start.db[id].alias, m.target) !in cache
  {
    forall id | id in ids && id in at.rows && MayHaveMoved(m, start.db, id, at.rows[id])
      ensures KeyOf(start.db[id]) !in cache && (start.db[id].alias, m.target) !in cache
    {
      assert id in pending;
      var j :| 0 <= j < |pending| && pending[j] == id;
      assert HasRow(at, pending[j], at.rows[id]);
    }
  }

  lemma MovedBatchKeepsAgreement(m: Move, ids: seq<Id>, pending: seq<Id>, io: Id -> MoveIo, start: Snapshot, at: Snapshot,
                                 moved: seq<Id>, cache: Cache)
    requires LoopDone(m, ids, pending, io, start, at, moved) && CacheAgrees(start.db, start.cache)
    requires forall key :: key in cache ==> key in at.cache && cache[key] == at.cache[key]
    requires forall id :: id in ids && id in at.rows && MayHaveMoved(m, start.db, id, at.rows[id]) ==> KeyOf(start.db[id]) !in cache
    ensures CacheAgrees(at.db, cache)
  {
    var touched := set id | id in start.db && at.db[id] != start.db[id];
    forall id | id in touched ensures KeyOf(start.db[id]) !in cache {
      assert id in pending && id in ids;
      assert MayHaveMoved(m, start.db, id, at.rows[id]);
    }
    DroppingTouchedKeysKeepsAgreement(start.db, at.db, start.cache, cache, touched);
  }

  lemma MoveReportIsTrue(m: Move, ids: seq<Id>, start: Db, rows: map<Id, Verdict>, verdicts: map<Id, Verdict>, cache: Cache, r: Report)
    requires AddsUp(r) && r.total == |Dedupe(ids)|
    requires forall id :: id in Dedupe(ids) ==> id in rows && id in verdicts && rows[id] == verdicts[id]
    requires forall i :: 0 <= i < |r.results| ==> r.results[i] == (Dedupe(ids)[i], rows[Dedupe(ids)[i]])
    requires forall id :: id in ids && id in rows && MayHaveMoved(m, start, id, rows[id]) ==>
               KeyOf(start[id]) !in cache && (start[id].alias, m.target) !in cache
    ensures ReportsMoves(r, verdicts, Dedupe(ids)) && BothKeysDropped(r, m, start, cache)
  {
    forall row | row in r.results && MayHaveMoved(m, start, row.0, row.1)
      ensures KeyOf(start[row.0]) !in cache && (start[row.0].alias, m.target) !in cache
    {
      var i :| 0 <= i < |r.results| && r.results[i] == row;
      assert Dedupe(ids)[i] in Dedupe(ids);
    }
  }

  class BulkUrlService {
    var db: Db
    var cache: Cache

    constructor (db: Db, cache: Cache)
      ensures this.db == db && this.cache == cache
    {
      this.db, this.cache := db, cache;
    }

    /** Dedupe, fetch the owned documents, and give out the base verdicts. */
    method Load(ids: seq<Id>, owner: Owner) returns (batch: BulkBatch)
      ensures fresh(batch)
      ensures batch.order == Dedupe(ids)
      ensures IsFetched(batch.docs, db, owner, ids)
      ensures BaseRows(batch.rows, db, owner, ids)
    {
      var unique: seq<Id> := [];
      for i := 0 to |ids|
        invariant unique == Dedupe(ids[..i])
      {
        assert ids[..i + 1][..i] == ids[..i];
        if ids[i] !in unique {
          unique := unique + [ids[i]];
        }
      }
      assert ids[..|ids|] == ids;
      var docs := map id | id in db && id in ids && db[id].owner == owner :: db[id];
      batch := new BulkBatch(unique, docs);
      batch.Answer(Select(unique, id => id !in docs), Rejected(NotFound));
      batch.Answer(Select(unique, id => id in docs && docs[id].status == Blocked), Rejected(Forbidden));
    }

    /** Origin invalidation, one delete per domain. */
    method Invalidate(pairs: seq<Key>)
      modifies this`cache
      ensures cache == map k | k in old(cache) && k !in pairs :: old(cache)[k]
    {
      ghost var before := cache;
      var byDomain: map<string, set<string>> := map[];
      for i := 0 to |pairs|
        invariant forall a, d :: d in byDomain && a in byDomain[d] <==> (a, d) in pairs[..i]
      {
        var (alias, domain) := pairs[i];
        assert pairs[..i + 1] == pairs[..i] + [(alias, domain)];
        var sofar := if domain in byDomain then byDomain[domain] else {};
        byDomain := byDomain[domain := sofar + {alias}];
      }
      var todo := byDomain.Keys;
      while todo != {}
        invariant todo <= byDomain.Keys
        invariant cache == map k | k in before && (k.1 in byDomain && k.1 !in todo ==> k.0 !in byDomain[k.1]) :: before[k]
        decreases todo
      {
        var domain :| domain in todo;
        var aliases := byDomain[domain];
        cache := map k | k in cache && !(k.1 == domain && k.0 in aliases) :: cache[k];
        todo := todo - {domain};
      }
      assert pairs[..|pairs|] == pairs;
      assert forall k: Key | k in before :: (k.1 in byDomain && k.0 in byDomain[k.1]) <==> (k.0, k.1) in pairs;
    }

    method InvalidateDocs(ids: seq<Id>, docs: map<Id, Doc>)
      requires forall id :: id in ids ==> id in docs
      modifies this`cache
      ensures cache == map k | k in old(cache) && (forall id :: id in ids ==> KeyOf(docs[id]) != k) :: old(cache)[k]
    {
      var pairs := seq(|ids|, i requires 0 <= i < |ids| => KeyOf(docs[ids[i]]));
      Invalidate(pairs);
      forall k ensures k in pairs <==> exists id :: id in ids && KeyOf(docs[id]) == k {
        if id :| id in ids && KeyOf(docs[id]) == k {
          var j :| 0 <= j < |ids| && ids[j] == id;
          assert pairs[j] == k;
        }
      }
    }

    /** `ApplyUpdate`, then the invalidation a landed update owes. */
    method UpdateAndInvalidate(batch: BulkBatch, slice: seq<Id>, op: Op, now: Time, owner: Owner, io: WriteIo)
      requires forall id :: id in slice ==> id in batch.docs
      modifies this, batch
      ensures Updated(old(db), db, slice, op, now, owner, io)
      ensures forall id :: id in batch.rows <==> id in old(batch.rows) || id in slice
      ensures forall id :: id in batch.rows ==>
                batch.rows[id] == if id in slice then (if io.fails then Rejected(Internal) else Done) else old(batch.rows)[id]
      ensures forall k :: k in cache ==> k in old(cache) && cache[k] == old(cache)[k]
      ensures forall id :: id in slice ==> KeyOf(batch.docs[id]) !in cache
    {
      var ok := ApplyUpdate(batch, slice, op, now, owner, io);
      if ok {
        InvalidateDocs(slice, batch.docs);
      }
    }

    /** One set-based update over `slice`, verdicts either way; on failure the slice's keys go too. */
    method ApplyUpdate(batch: BulkBatch, slice: seq<Id>, op: Op, now: Time, owner: Owner, io: WriteIo) returns (ok: bool)
      requires forall id :: id in slice ==> id in batch.docs
      modifies this, batch
      ensures ok == !io.fails
      ensures Updated(old(db), db, slice, op, now, owner, io)
      ensures forall id :: id in batch.rows <==> id in old(batch.rows) || id in slice
      ensures forall id :: id in batch.rows ==>
                batch.rows[id] == if id in slice then (if ok then Done else Rejected(Internal)) else old(batch.rows)[id]
      ensures forall k :: k in cache ==> k in old(cache) && cache[k] == old(cache)[k]
      ensures io.fails ==> forall id :: id in slice ==> KeyOf(batch.docs[id]) !in cache
    {
      var stored := db;
      db := map id | id in stored ::
        if id in slice && stored[id].owner == owner && Lands(io, id) then Write(op, now, stored[id]) else stored[id];
      if io.fails {
        batch.Answer(slice, Rejected(Internal));
        InvalidateDocs(slice, batch.docs);
        return false;
      }
      batch.Answer(slice, Done);
      return true;
    }

    // ----- Moving links to another domain -----

    /** One document's write, arbitrated by the unique index. */
    method WriteDomain(id: Id, m: Move, io: MoveIo) returns (outcome: Verdict)
      requires id in db
      modifies this`db
      ensures (db, outcome) == WriteMove(m, old(db), id, io)
    {
      var duplicate := Taken(db, (db[id].alias, m.target));
      ghost var before := db;
      if !duplicate && (!io.fails || io.applied) {
        db := db[id := db[id].(domain := m.target, updatedAt := m.now)];
        assert KeyOf(db[id]) == (db[id].alias, m.target);
        assert db != before;
      }
      outcome := if io.fails then Rejected(Internal) else if duplicate then Rejected(Conflict) else Done;
    }

    /** One actionable item: check, write, verdict; an unknown outcome drops both of its keys. */
    method MoveItem(batch: BulkBatch, id: Id, m: Move, io: MoveIo, claimed: set<string>) returns (moved: bool)
      requires id in batch.docs && id in db && db[id] == batch.docs[id] && Actionable(m, db, id)
      requires forall alias :: alias in claimed ==> Taken(db, (alias, m.target))
      modifies this, batch
      ensures db == MoveOne(m, old(db), id, io).0
      ensures batch.rows == old(batch.rows)[id := MoveOne(m, old(db), id, io).1]
      ensures moved <==> batch.rows[id] == Done && batch.docs[id].domain != m.target
      ensures forall k :: k in cache ==> k in old(cache) && cache[k] == old(cache)[k]
      ensures batch.rows[id] == Rejected(Internal) ==> KeyOf(batch.docs[id]) !in cache && (batch.docs[id].alias, m.target) !in cache
      ensures moved ==> Taken(db, (batch.docs[id].alias, m.target))
    {
      var d := batch.docs[id];
      if d.domain == m.target {
        batch.Answer([id], Done);
        return false;
      }
      if m.target == m.spaces.systemDefault && d.alias in m.spaces.reserved {
        batch.Answer([id], Rejected(ValidationError));
        return false;
      }
      if d.alias in claimed || !Available(m, db, d.alias) {
        batch.Answer([id], Rejected(Conflict));
        return false;
      }
      db := Insert(db, io.intruder);
      var outcome := WriteDomain(id, m, io);
      batch.Answer([id], outcome);
      if outcome == Rejected(Internal) {
        Invalidate([(d.alias, d.domain), (d.alias, m.target)]);
      }
      moved := outcome == Done;
      assert moved ==> KeyOf(db[id]) == (d.alias, m.target);
    }

    /** The loop over the actionable items, in request order. */
    method MoveItems(batch: BulkBatch, pending: seq<Id>, m: Move, io: Id -> MoveIo) returns (moved: seq<Id>)
      requires Distinct(pending) && IntrudersApart(pending, io)
      requires forall id :: id in pending ==> id in batch.docs && id in db && db[id] == batch.docs[id] && Actionable(m, db, id)
      modifies this, batch
      ensures MoveLoop(m, pending, io, Snapshot(old(db), old(cache), old(batch.rows)),
                       Snapshot(db, cache, batch.rows), |pending|, moved)
      ensures forall id :: id in moved ==> id in pending
    {
      moved := [];
      var claimed: set<string> := {};
      ghost var start := Snapshot(db, cache, batch.rows);
      MovesAnswerEveryItem(m, db, pending, io);
      for k := 0 to |pending|
        invariant MoveLoop(m, pending, io, start, Snapshot(db, cache, batch.rows), k, moved)
        invariant start.db == old(db) && start.cache == old(cache) && start.rows == old(batch.rows)
        invariant forall alias :: alias in claimed ==> Taken(db, (alias, m.target))
      {
        claimed, moved := MoveNext(batch, pending, k, m, io, claimed, moved, start);
      }
    }

    /** One turn of the loop. */
    method MoveNext(batch: BulkBatch, pending: seq<Id>, k: nat, m: Move, io: Id -> MoveIo, claimed: set<string>,
                    moved: seq<Id>, ghost start: Snapshot)
      returns (claims: set<string>, next: seq<Id>)
      requires k < |pending| && Distinct(pending) && IntrudersApart(pending, io)
      requires forall id :: id in pending ==>
                 id in batch.docs && id in start.db && start.db[id] == batch.docs[id] && Actionable(m, start.db, id)
      requires MoveLoop(m, pending, io, start, Snapshot(db, cache, batch.rows), k, moved)
      requires forall alias :: alias in claimed ==> Taken(db, (alias, m.target))
      modifies this, batch
      ensures MoveLoop(m, pending, io, start, Snapshot(db, cache, batch.rows), k + 1, next)
      ensures forall alias :: alias in claims ==> Taken(db, (alias, m.target))
    {
      var id := pending[k];
      ghost var at := Snapshot(db, cache, batch.rows);
      var won := MoveItem(batch, id, m, io(id), claimed);
      ghost var after := Snapshot(db, cache, batch.rows);
      claims, next := claimed, moved;
      if won {
        claims := claims + {batch.docs[id].alias};
        next := next + [id];
      }
      ItemMovedIsFramed(m, id, io(id), at, after);
      RowsStep(m, pending, io, start, at, after, k);
      MovedStep(m, pending, start.db, at.rows, after.rows[id], k, moved, next);
      SettledStep(m, pending, start, at, after, k);
      TakenStaysTaken(m, at.db, id, io(id));
    }

    /** The key each moved link had, and the one it has now. */
    method DropBothKeys(batch: BulkBatch, moved: seq<Id>, m: Move)
      requires forall id :: id in moved ==> id in batch.docs
      modifies this`cache
      ensures forall k :: k in cache ==> k in old(cache) && cache[k] == old(cache)[k]
      ensures forall id :: id in moved ==> KeyOf(batch.docs[id]) !in cache && (batch.docs[id].alias, m.target) !in cache
    {
      var pairs: seq<Key> := [];
      for i := 0 to |moved|
        invariant forall j :: 0 <= j < i ==> KeyOf(batch.docs[moved[j]]) in pairs && (batch.docs[moved[j]].alias, m.target) in pairs
      {
        var d := batch.docs[moved[i]];
        pairs := pairs + [(d.alias, d.domain), (d.alias, m.target)];
      }
      Invalidate(pairs);
    }

    /** Move links to another domain: the calls to the single-item endpoint in request order, whatever
        happens around each write. The unique index and the cache agreement survive, and neither key
        of a moved link, nor of one whose write has an unknown outcome, stays cached. */
    method BulkMoveDomain(ids: seq<Id>, domain: Option<string>, owner: Owner, now: Time, spaces: Namespaces, io: Id -> MoveIo)
      returns (r: Result<Report, Error>)
      requires IntrudersApart(Dedupe(ids), io)
      modifies this
      ensures var m := Move(spaces, TargetOf(spaces, domain), owner, now);
        && r.Ok?
        && db == Moves(m, old(db), Dedupe(ids), io).0
        && ReportsMoves(r.value, Moves(m, old(db), Dedupe(ids), io).1, Dedupe(ids))
        && BothKeysDropped(r.value, m, old(db), cache)
      ensures var target := if domain.Some? && domain.value != "" then domain.value else spaces.systemDefault;
        && (forall id :: id in old(db) ==> id in db && MovedByRight(Move(spaces, target, owner, now), old(db)[id], db[id]))
        && (forall row :: row in r.value.results ==>
              RowIsRight(Move(spaces, target, owner, now), Lookup(old(db), row.0), Lookup(db, row.0), row.1))
      ensures UniqueKeys(old(db)) ==> UniqueKeys(db)
      ensures CacheAgrees(old(db), old(cache)) ==> CacheAgrees(db, cache)
    {
      var m := Move(spaces, TargetOf(spaces, domain), owner, now);
      var batch, start, at, pending, moved := MoveBatch(ids, m, io);
      MovedBatchIsComplete(m, ids, pending, io, start, at, moved);
      MovedKeysAreGone(m, ids, pending, io, start, at, moved, cache);
      if CacheAgrees(start.db, start.cache) {
        MovedBatchKeepsAgreement(m, ids, pending, io, start, at, moved, cache);
      }
      if UniqueKeys(start.db) {
        MovesKeepKeysUnique(m, start.db, Dedupe(ids), io);
      }
      var report := batch.MakeReport();
      r := Ok(report.value);
      MoveReportIsTrue(m, ids, start.db, batch.rows, Moves(m, start.db, Dedupe(ids), io).1, cache, report.value);
      RowsAreRight(m, start.db, Dedupe(ids), io, report.value);
    }

    /** Load, loop, and the invalidation the moved items owe. */
    method MoveBatch(ids: seq<Id>, m: Move, io: Id -> MoveIo)
      returns (batch: BulkBatch, ghost start: Snapshot, ghost at: Snapshot, ghost pending: seq<Id>, ghost moved: seq<Id>)
      requires IntrudersApart(Dedupe(ids), io)
      modifies this
      ensures batch.order == Dedupe(ids) && start.db == old(db) && start.cache == old(cache)
      ensures LoopDone(m, ids, pending, io, start, at, moved) && at.db == db && at.rows == batch.rows
      ensures forall key :: key in cache ==> key in at.cache && cache[key] == at.cache[key]
      ensures KeysGone(m, start.db, moved, cache)
    {
      batch := Load(ids, m.owner);
      start := Snapshot(db, cache, batch.rows);
      var actionable := batch.Pending();
      UnansweredAreActionable(m, db, ids, batch.docs, batch.rows);
      var landed := MoveItems(batch, actionable, m, io);
      pending, moved, at := actionable, landed, Snapshot(db, cache, batch.rows);
      if landed != [] {
        DropBothKeys(batch, landed, m);
      }
    }

    method Finish(batch: BulkBatch, ghost op: Op, ghost before: Db, ghost owner: Owner, ghost ids: seq<Id>,
                  ghost io: WriteIo, ghost reactivating: WriteIo, ghost requeryFails: bool)
      returns (r: Result<Report, Error>)
      requires batch.order == Dedupe(ids)
      requires Answered(batch.rows, op, before, owner, ids, io, reactivating, requeryFails)
      ensures r.Ok? && ReportsEach(r.value, op, before, owner, ids, io, reactivating, requeryFails)
    {
      var report := batch.MakeReport();
      match report {
        case Ok(value) =>
          r := Ok(value);
          forall i | 0 <= i < |value.results|
            ensures value.results[i] == (Dedupe(ids)[i], RowVerdict(op, before, owner, Dedupe(ids)[i], io, reactivating, requeryFails))
          {
            assert batch.order[i] in ids;
          }
        case Err(_) => r := Err(MissingVerdicts);
      }
    }

    /** The one delete of the batch and its verdicts; a failure is attributed by a re-query. */
    method DeleteDocs(batch: BulkBatch, docs: seq<Id>, owner: Owner, io: WriteIo, requeryFails: bool)
      requires forall id :: id in docs ==> id in batch.docs
      modifies this, batch
      ensures db == map id | id in old(db) && !(id in docs && old(db)[id].owner == owner && Lands(io, id)) :: old(db)[id]
      ensures forall id :: id in batch.rows <==> id in old(batch.rows) || id in docs
      ensures forall id :: id in batch.rows ==>
                batch.rows[id] ==
                  if id !in docs then old(batch.rows)[id]
                  else if !io.fails then Done
                  else if requeryFails then Rejected(NotAttempted)
                  else if id in db && db[id].owner == owner then Rejected(Internal)
                  else Done
      ensures forall k :: k in cache ==> k in old(cache) && cache[k] == old(cache)[k]
      ensures io.fails && requeryFails ==> cache == old(cache)
      ensures !(io.fails && requeryFails) ==>
                forall id :: id in docs && id !in db ==> KeyOf(batch.docs[id]) !in cache
    {
      var stored := db;
      db := map id | id in stored && !(id in docs && stored[id].owner == owner && Lands(io, id)) :: stored[id];
      if !io.fails {
        batch.Answer(docs, Done);
        InvalidateDocs(docs, batch.docs);
      } else if requeryFails {
        batch.Answer(docs, Rejected(NotAttempted));
      } else {
        var current := db;
        var gone := Select(docs, id => !(id in current && current[id].owner == owner));
        batch.Answer(gone, Done);
        InvalidateDocs(gone, batch.docs);
        batch.Answer(Select(docs, id => id in current && current[id].owner == owner), Rejected(Internal));
      }
    }

    /** Delete the owned, unblocked links of `ids`. The cache keeps agreeing with the database on
        every path but one: a failed delete whose re-query fails as well. */
    method BulkDelete(ids: seq<Id>, owner: Owner, io: WriteIo, requeryFails: bool) returns (r: Result<Report, Error>)
      modifies this
      ensures r.Ok? && db == ApplyLanded(Delete, 0, old(db), owner, ids, io, io)
      ensures ReportsEach(r.value, Delete, old(db), owner, ids, io, io, requeryFails)
      ensures CacheAgrees(old(db), old(cache)) && !(io.fails && requeryFails) ==> CacheAgrees(db, cache)
      ensures io.fails && requeryFails ==> cache == old(cache)
    {
      ghost var before, cached := db, cache;
      var batch := Load(ids, owner);
      ghost var base := batch.rows;
      var docs := batch.Pending();
      ActionableChangesAreWritten(Delete, before, owner, ids, base, batch.docs, docs);
      if docs != [] {
        DeleteDocs(batch, docs, owner, io, requeryFails);
      }
      DeletedAsRuled(before, db, owner, ids, docs, base, batch.rows, io, requeryFails);
      if CacheAgrees(before, cached) && !(io.fails && requeryFails) {
        DroppingTouchedKeysKeepsAgreement(before, db, cached, cache, before.Keys - db.Keys);
      }
      r := Finish(batch, Delete, before, owner, ids, io, io, requeryFails);
    }

    /** Answer the no-ops and the refusals; what is left is the slice to write. */
    method Plan(batch: BulkBatch, op: Op, owner: Owner, ids: seq<Id>) returns (changed: seq<Id>)
      requires op != Delete && batch.order == Dedupe(ids)
      requires BaseRows(batch.rows, db, owner, ids) && IsFetched(batch.docs, db, owner, ids)
      modifies batch
      ensures Planned(batch.rows, op, db, owner, ids) && IsWrittenSlice(changed, op, db, owner, ids)
      ensures forall id :: id in changed ==> id in batch.docs && id in db && batch.docs[id] == db[id]
    {
      ghost var base := batch.rows;
      var pending := batch.Pending();
      changed := AnswerUnwritten(batch, op, pending);
      ActionableChangesAreWritten(op, db, owner, ids, base, batch.docs, changed);
      NoOpsAndRefusalsArePlanned(op, db, owner, ids, batch.docs, base, batch.rows);
    }

    method AnswerUnwritten(batch: BulkBatch, op: Op, pending: seq<Id>) returns (changed: seq<Id>)
      requires forall id :: id in pending ==> id in batch.docs
      modifies batch
      ensures forall id :: id in changed <==>
                id in pending && Changes(op, batch.docs[id]) && !OverTagCap(op, batch.docs[id])
      ensures forall id :: id in batch.rows <==>
                id in old(batch.rows) || (id in pending && (!Changes(op, batch.docs[id]) || OverTagCap(op, batch.docs[id])))
      ensures forall id :: id in batch.rows ==>
                batch.rows[id] ==
                  if id !in pending || (Changes(op, batch.docs[id]) && !OverTagCap(op, batch.docs[id])) then old(batch.rows)[id]
                  else if !Changes(op, batch.docs[id]) then Done else Rejected(ValidationError)
    {
      var docs := batch.docs;
      var same := Select(pending, id => id in docs && !Changes(op, docs[id]));
      var over := Select(pending, id => id in docs && Changes(op, docs[id]) && OverTagCap(op, docs[id]));
      changed := Select(pending, id => id in docs && Changes(op, docs[id]) && !OverTagCap(op, docs[id]));
      batch.Answer(same, Done);
      batch.Answer(over, Rejected(ValidationError));
    }

    /** Activate or deactivate: same-status items succeed without a write. */
    method BulkSetStatus(ids: seq<Id>, status: Status, owner: Owner, now: Time, io: WriteIo) returns (r: Result<Report, Error>)
      modifies this
      ensures r.Ok? && db == ApplyLanded(SetStatus(status), now, old(db), owner, ids, io, io)
      ensures ReportsEach(r.value, SetStatus(status), old(db), owner, ids, io, io, false)
      ensures CacheAgrees(old(db), old(cache)) ==> CacheAgrees(db, cache)
    {
      ghost var before, cached := db, cache;
      var op := SetStatus(status);
      var batch := Load(ids, owner);
      var changed := Plan(batch, op, owner, ids);
      ghost var planned := batch.rows;
      if changed != [] {
        UpdateAndInvalidate(batch, changed, op, now, owner, io);
      }
      UpdatedAsRuled(op, now, before, db, owner, ids, changed, io);
      WrittenSliceCompletes(op, before, owner, ids, changed, planned, batch.rows, io, io);
      if CacheAgrees(before, cached) {
        DroppingTouchedKeysKeepsAgreement(before, db, cached, cache, set id | id in changed);
      }
      r := Finish(batch, op, before, owner, ids, io, io, false);
    }

    /** The two writes of an expiry batch: the EXPIRED items come back ACTIVE, the others keep their
        status; the keys of whatever applied or may have applied are dropped. */
    method ApplyExpiry(batch: BulkBatch, plain: seq<Id>, expired: seq<Id>, op: Op, now: Time, owner: Owner,
                       io: WriteIo, reactivating: WriteIo)
      returns (ghost middle: Db)
      requires forall id :: id in plain ==> id in batch.docs && id !in expired
      requires forall id :: id in expired ==> id in batch.docs
      modifies this, batch
      ensures Updated(old(db), middle, plain, op, now, owner, io)
      ensures Updated(middle, db, expired, op, now, owner, reactivating)
      ensures forall id :: id in batch.rows <==> id in old(batch.rows) || id in plain || id in expired
      ensures forall id :: id in batch.rows ==>
                batch.rows[id] ==
                  if id in expired then (if reactivating.fails then Rejected(Internal) else Done)
                  else if id in plain then (if io.fails then Rejected(Internal) else Done)
                  else old(batch.rows)[id]
      ensures Dropped(old(cache), cache, plain, batch.docs) && Dropped(old(cache), cache, expired, batch.docs)
    {
      var applied: seq<Id> := [];
      if plain != [] {
        var ok := ApplyUpdate(batch, plain, op, now, owner, io);
        applied := if ok then plain else [];
      }
      middle := db;
      if expired != [] {
        var ok := ApplyUpdate(batch, expired, op, now, owner, reactivating);
        applied := applied + (if ok then expired else []);
      }
      if applied != [] {
        InvalidateDocs(applied, batch.docs);
      }
    }

    /** Set or clear the expiry: EXPIRED links whose expiry changes come back ACTIVE. */
    method BulkSetExpiry(ids: seq<Id>, until: Option<Time>, owner: Owner, now: Time, io: WriteIo, reactivating: WriteIo)
      returns (r: Result<Report, Error>)
      modifies this
      ensures until.Some? && until.value <= now ==> r == Err(PastExpiry) && db == old(db) && cache == old(cache)
      ensures !(until.Some? && until.value <= now) ==>
        && r.Ok?
        && db == ApplyLanded(SetExpiry(until), now, old(db), owner, ids, io, reactivating)
        && ReportsEach(r.value, SetExpiry(until), old(db), owner, ids, io, reactivating, false)
      ensures CacheAgrees(old(db), old(cache)) ==> CacheAgrees(db, cache)
    {
      if until.Some? && until.value <= now {
        return Err(PastExpiry);
      }
      ghost var before, cached := db, cache;
      var op := SetExpiry(until);
      var batch := Load(ids, owner);
      var changed := Plan(batch, op, owner, ids);
      ghost var planned := batch.rows;
      var docs := batch.docs;
      var expired := Select(changed, id => id in docs && docs[id].status == Expired);
      var plain := Select(changed, id => id in docs && docs[id].status != Expired);
      ghost var middle := ApplyExpiry(batch, plain, expired, op, now, owner, io, reactivating);
      ExpiryUpdatedAsRuled(op, now, before, middle, db, owner, ids, plain, expired, io, reactivating);
      WrittenSliceCompletes(op, before, owner, ids, changed, planned, batch.rows, io, reactivating);
      if CacheAgrees(before, cached) {
        DroppingTouchedKeysKeepsAgreement(before, db, cached, cache, set id | id in changed);
      }
      r := Finish(batch, op, before, owner, ids, io, reactivating, false);
    }

    /** One set-based tag write over `slice`; a failure answers the whole slice `internal`. */
    method TagDocs(batch: BulkBatch, slice: seq<Id>, op: Op, now: Time, owner: Owner, io: WriteIo)
      modifies this`db, batch
      ensures Updated(old(db), db, slice, op, now, owner, io)
      ensures forall id :: id in batch.rows <==> id in old(batch.rows) || id in slice
      ensures forall id :: id in batch.rows ==>
                batch.rows[id] == if id in slice then (if io.fails then Rejected(Internal) else Done) else old(batch.rows)[id]
    {
      var stored := db;
      db := map id | id in stored ::
        if id in slice && stored[id].owner == owner && Lands(io, id) then Write(op, now, stored[id]) else stored[id];
      batch.Answer(slice, if io.fails then Rejected(Internal) else Done);
    }

    /** Retag: kept tags in order, then the added ones. No cached field changes, so no key is dropped. */
    method BulkTag(ids: seq<Id>, add: seq<Tag>, remove: seq<Tag>, registry: set<Tag>, owner: Owner, now: Time, io: WriteIo)
      returns (r: Result<Report, Error>)
      modifies this
      ensures cache == old(cache)
      ensures !AllKnown(add, registry) ==> r == Err(ForeignTags) && db == old(db)
      ensures AllKnown(add, registry) ==>
        && r.Ok?
        && db == ApplyLanded(Retag(add, remove), now, old(db), owner, ids, io, io)
        && ReportsEach(r.value, Retag(add, remove), old(db), owner, ids, io, io, false)
      ensures CacheAgrees(old(db), old(cache)) ==> CacheAgrees(db, cache)
    {
      if !AllKnown(add, registry) {
        return Err(ForeignTags);
      }
      ghost var before, cached := db, cache;
      var op := Retag(add, remove);
      var batch := Load(ids, owner);
      var changed := Plan(batch, op, owner, ids);
      ghost var planned := batch.rows;
      if changed != [] {
        TagDocs(batch, changed, op, now, owner, io);
      }
      UpdatedAsRuled(op, now, before, db, owner, ids, changed, io);
      WrittenSliceCompletes(op, before, owner, ids, changed, planned, batch.rows, io, io);
      if CacheAgrees(before, cached) {
        RetagKeepsEntries(op, now, before, db, cache);
      }
      r := Finish(batch, op, before, owner, ids, io, io, false);
    }
  }

  lemma RetagKeepsEntries(op: Op, now: Time, before: Db, after: Db, cache: Cache)
    requires op.Retag? && CacheAgrees(before, cache)
    requires after.Keys == before.Keys
    requires forall id :: id in before ==> after[id] == before[id] || after[id] == Write(op, now, before[id])
    ensures CacheAgrees(after, cache)
  {
    DroppingTouchedKeysKeepsAgreement(before, after, cache, cache, {});
  }
}
