/**
 Moving links to another domain namespace, one by one. The bulk move writes per item because the
 items interact: two links with one alias cannot both land on the target. Between the availability
 check and the write of an item somebody else may insert a link, and a write may fail with or
 without having applied.
 */
module BulkMove {
  import opened Prelude
  import opened LinkStore

  /** The system default domain, the aliases reserved there, and those its legacy collections hold. */
  datatype Namespaces = Namespaces(systemDefault: string, reserved: set<string>, legacy: set<string>)

  datatype Move = Move(spaces: Namespaces, target: string, owner: Owner, now: Time)

  /** What happens around the write of one item. */
  datatype MoveIo = MoveIo(intruder: Option<(Id, Doc)>, fails: bool, applied: bool)

  function TargetOf(spaces: Namespaces, domain: Option<string>): string {
    if domain.Some? && domain.value != "" then domain.value else spaces.systemDefault
  }

  ghost predicate UniqueKeys(db: Db) {
    forall a, b :: a in db && b in db && a != b ==> KeyOf(db[a]) != KeyOf(db[b])
  }

  predicate Taken(db: Db, key: Key) { exists id :: id in db && KeyOf(db[id]) == key }

  predicate Reserved(m: Move, alias: string) {
    m.target == m.spaces.systemDefault && alias in m.spaces.reserved
  }

  /** The single-item availability check: the new collection, and the legacy ones on the default. */
  predicate Available(m: Move, db: Db, alias: string) {
    !Taken(db, (alias, m.target)) && !(m.target == m.spaces.systemDefault && alias in m.spaces.legacy)
  }

  /** An insert by somebody else, refused by the unique index when its key is taken. */
  function Insert(db: Db, intruder: Option<(Id, Doc)>): Db {
    if intruder.Some? && intruder.value.0 !in db && !Taken(db, KeyOf(intruder.value.1))
    then db[intruder.value.0 := intruder.value.1]
    else db
  }

  function Moved(m: Move, d: Doc): Doc { d.(domain := m.target, updatedAt := m.now) }

  /** The guarded write: the unique index arbitrates. */
  function WriteMove(m: Move, db: Db, id: Id, io: MoveIo): (Db, Verdict)
    requires id in db
  {
    var landed := if Taken(db, (db[id].alias, m.target)) then db else db[id := Moved(m, db[id])];
    if io.fails then (if io.applied then landed else db, Rejected(Internal))
    else if landed == db then (db, Rejected(Conflict))
    else (landed, Done)
  }

  /** One item, as the single-item endpoint moves it; like the batch, it answers a foreign link as a
      missing one. */
  function MoveOne(m: Move, db: Db, id: Id, io: MoveIo): (Db, Verdict) {
    var d := Owned(db, m.owner, id);
    if d == None then (db, Rejected(NotFound))
    else if d.value.status == Blocked then (db, Rejected(Forbidden))
    else if d.value.domain == m.target then (db, Done)
    else if Reserved(m, d.value.alias) then (db, Rejected(ValidationError))
    else if !Available(m, db, d.value.alias) then (db, Rejected(Conflict))
    else WriteMove(m, Insert(db, io.intruder), id, io)
  }

  /** The single-item endpoint called for each id in turn. */
  function Moves(m: Move, db: Db, ids: seq<Id>, io: Id -> MoveIo): (Db, map<Id, Verdict>)
    decreases |ids|
  {
    if ids == [] then (db, map[])
    else
      var (first, verdict) := MoveOne(m, db, ids[0], io(ids[0]));
      var (after, rows) := Moves(m, first, ids[1..], io);
      (after, rows[ids[0] := verdict])
  }

  /** Somebody else's inserts have ids of their own. */
  ghost predicate IntrudersApart(ids: seq<Id>, io: Id -> MoveIo) {
    forall id, other :: id in ids && other in ids && io(id).intruder.Some? ==> io(id).intruder.value.0 != other
  }

  ghost predicate Quiet(ids: seq<Id>, io: Id -> MoveIo) {
    forall id :: id in ids ==> io(id) == MoveIo(None, false, false)
  }

  // ----- What one move touches -----

  lemma MoveOneFrame(m: Move, db: Db, id: Id, io: MoveIo)
    ensures var (after, verdict) := MoveOne(m, db, id, io);
      && (forall x :: x in db ==> x in after && (x != id ==> after[x] == db[x]))
      && (forall x :: x in after && x !in db ==> io.intruder.Some? && x == io.intruder.value.0)
      && (id in db ==> after[id] == db[id] || after[id] == Moved(m, db[id]))
      && (verdict.Rejected? && verdict.code != Internal && id in db ==> after[id] == db[id])
  {
  }

  /** A key on the target, once held, is held for good: items never move away from the target. */
  lemma TakenStaysTaken(m: Move, db: Db, id: Id, io: MoveIo)
    ensures forall alias :: Taken(db, (alias, m.target)) ==> Taken(MoveOne(m, db, id, io).0, (alias, m.target))
  {
    var after := MoveOne(m, db, id, io).0;
    MoveOneFrame(m, db, id, io);
    forall alias | Taken(db, (alias, m.target)) ensures Taken(after, (alias, m.target)) {
      var x :| x in db && KeyOf(db[x]) == (alias, m.target);
      assert KeyOf(after[x]) == (alias, m.target);
    }
  }

  /** The unique index survives every move, whatever happens around its write. */
  lemma MoveOneKeepsKeysUnique(m: Move, db: Db, id: Id, io: MoveIo)
    requires UniqueKeys(db)
    ensures UniqueKeys(MoveOne(m, db, id, io).0)
  {
    var middle := Insert(db, io.intruder);
    assert UniqueKeys(middle);
    if id in middle && !Taken(middle, (middle[id].alias, m.target)) {
      assert UniqueKeys(middle[id := Moved(m, middle[id])]);
    }
  }

  lemma {:induction false} MovesKeepKeysUnique(m: Move, db: Db, ids: seq<Id>, io: Id -> MoveIo)
    requires UniqueKeys(db)
    ensures UniqueKeys(Moves(m, db, ids, io).0)
    decreases |ids|
  {
    if ids != [] {
      MoveOneKeepsKeysUnique(m, db, ids[0], io(ids[0]));
      MovesKeepKeysUnique(m, MoveOne(m, db, ids[0], io(ids[0])).0, ids[1..], io);
    }
  }

  lemma {:induction false} MovesAnswerEveryItem(m: Move, db: Db, ids: seq<Id>, io: Id -> MoveIo)
    ensures forall id :: id in Moves(m, db, ids, io).1 <==> id in ids
    decreases |ids|
  {
    if ids != [] {
      MovesAnswerEveryItem(m, MoveOne(m, db, ids[0], io(ids[0])).0, ids[1..], io);
      assert ids == [ids[0]] + ids[1..];
    }
  }

  /** A link stays as it is, or it is the owner's, not blocked, and goes to the target with nothing else
      changed but its stamp; and nothing lands on the system default under an alias that is reserved
      there or held by its legacy collections. */
  ghost predicate MovedByRight(m: Move, d: Doc, after: Doc) {
    after == d
    || (&& d.owner == m.owner && d.status != Blocked
        && after == d.(domain := m.target, updatedAt := m.now)
        && (m.target == m.spaces.systemDefault ==> d.alias !in m.spaces.reserved && d.alias !in m.spaces.legacy))
  }

  /** What the row of a requested link says of it as it was and as it is. */
  ghost predicate RowIsRight(m: Move, d: Option<Doc>, after: Option<Doc>, row: Verdict) {
    && (row == Rejected(NotFound) <==> d.None? || d.value.owner != m.owner)
    && (row == Rejected(Forbidden) <==> d.Some? && d.value.owner == m.owner && d.value.status == Blocked)
    && (row == Rejected(ValidationError) <==>
          && d.Some? && d.value.owner == m.owner && d.value.status != Blocked
          && d.value.domain != m.target && m.target == m.spaces.systemDefault && d.value.alias in m.spaces.reserved)
    && (row == Done ==> after.Some? && after.value.domain == m.target)
    && (row.Rejected? && row.code != Internal && d.Some? ==> after == d)
    && (row.Rejected? ==> row.code in {NotFound, Forbidden, ValidationError, Conflict, Internal})
  }

  lemma MoveOneIsByRight(m: Move, db: Db, id: Id, io: MoveIo)
    requires io.intruder.Some? ==> io.intruder.value.0 != id
    ensures var (after, row) := MoveOne(m, db, id, io);
      && (id in db ==> id in after && MovedByRight(m, db[id], after[id]))
      && RowIsRight(m, Lookup(db, id), Lookup(after, id), row)
      && (row == Rejected(Internal) ==> io.fails)
      && (io.fails && !io.applied && id in db ==> after[id] == db[id])
      && (row == Rejected(Conflict) ==> id in db && ConflictStands(m, after, db[id]))
  {
  }

  /** The alias is held on the target, by a link or by the legacy collections of the system default. */
  predicate ConflictStands(m: Move, db: Db, d: Doc) {
    || (m.target == m.spaces.systemDefault && d.alias in m.spaces.legacy)
    || Taken(db, (d.alias, m.target))
  }

  lemma {:induction false} MovesKeepTaken(m: Move, db: Db, ids: seq<Id>, io: Id -> MoveIo, alias: string)
    requires Taken(db, (alias, m.target))
    ensures Taken(Moves(m, db, ids, io).0, (alias, m.target))
    decreases |ids|
  {
    if ids != [] {
      TakenStaysTaken(m, db, ids[0], io(ids[0]));
      MovesKeepTaken(m, MoveOne(m, db, ids[0], io(ids[0])).0, ids[1..], io, alias);
    }
  }

  /** A conflict is for a reason that stands to the end, and an unknown outcome takes a failing write. */
  lemma {:induction false} RefusalsStand(m: Move, db: Db, ids: seq<Id>, io: Id -> MoveIo, id: Id)
    requires Distinct(ids) && IntrudersApart(ids, io) && id in ids
    ensures var (after, rows) := Moves(m, db, ids, io);
      && id in rows
      && (rows[id] == Rejected(Internal) ==> io(id).fails)
      && (rows[id] == Rejected(Conflict) ==> id in db && ConflictStands(m, after, db[id]))
    decreases |ids|
  {
    var first := MoveOne(m, db, ids[0], io(ids[0])).0;
    assert ids == [ids[0]] + ids[1..];
    assert ids[0] in ids && forall x :: x in ids[1..] ==> x in ids;
    MoveOneIsByRight(m, db, ids[0], io(ids[0]));
    MoveOneFrame(m, db, ids[0], io(ids[0]));
    if id == ids[0] {
      if id in db && Taken(first, (db[id].alias, m.target)) {
        MovesKeepTaken(m, first, ids[1..], io, db[id].alias);
      }
    } else {
      RefusalsStand(m, first, ids[1..], io, id);
    }
  }

  /** Whatever happens around the writes, every link of the collection moves by right or not at all, and
      every row is right about its link. */
  lemma {:induction false} EveryMoveIsByRight(m: Move, db: Db, ids: seq<Id>, io: Id -> MoveIo, id: Id)
    requires Distinct(ids) && IntrudersApart(ids, io)
    ensures var (after, rows) := Moves(m, db, ids, io);
      && (id in db ==> id in after && MovedByRight(m, db[id], after[id]) && (id !in ids ==> after[id] == db[id]))
      && (id in ids ==> id in rows && RowIsRight(m, Lookup(db, id), Lookup(after, id), rows[id]))
    decreases |ids|
  {
    if ids != [] {
      var first := MoveOne(m, db, ids[0], io(ids[0])).0;
      assert ids == [ids[0]] + ids[1..];
      assert ids[0] in ids && forall x :: x in ids[1..] ==> x in ids;
      MoveOneFrame(m, db, ids[0], io(ids[0]));
      MoveOneIsByRight(m, db, ids[0], io(ids[0]));
      EveryMoveIsByRight(m, first, ids[1..], io, id);
      if id in ids && id != ids[0] {
        assert Lookup(first, id) == Lookup(db, id);
      }
    }
  }

  // ----- Only actionable items matter -----

  predicate Actionable(m: Move, db: Db, id: Id) {
    var d := Owned(db, m.owner, id);
    d.Some? && d.value.status != Blocked
  }

  function ActionableItems(m: Move, db: Db, ids: seq<Id>): (kept: seq<Id>)
    ensures forall id :: id in kept <==> id in ids && Actionable(m, db, id)
    ensures Distinct(ids) ==> Distinct(kept)
  {
    Select(ids, (id: Id) => Actionable(m, db, id))
  }

  function BaseVerdict(m: Move, db: Db, id: Id): Verdict {
    if Owned(db, m.owner, id) == None then Rejected(NotFound) else Rejected(Forbidden)
  }

  /** Fetching every document up front and looping over the actionable ones comes to the same as
      calling the single-item endpoint for every id. */
  lemma {:induction false} SkippingRefusedItems(m: Move, origin: Db, db: Db, ids: seq<Id>, kept: seq<Id>, io: Id -> MoveIo)
    requires Distinct(ids) && IntrudersApart(ids, io)
    requires forall id :: id in ids ==> Owned(db, m.owner, id) == Owned(origin, m.owner, id)
    requires kept == ActionableItems(m, origin, ids)
    ensures Moves(m, db, ids, io).0 == Moves(m, db, kept, io).0
    ensures forall id :: id in ids ==>
              && id in Moves(m, db, ids, io).1
              && (if id in kept
                  then id in Moves(m, db, kept, io).1 && Moves(m, db, ids, io).1[id] == Moves(m, db, kept, io).1[id]
                  else Moves(m, db, ids, io).1[id] == BaseVerdict(m, origin, id))
    decreases |ids|
  {
    if ids != [] {
      var first := MoveOne(m, db, ids[0], io(ids[0])).0;
      MoveOneFrame(m, db, ids[0], io(ids[0]));
      var rest := ActionableItems(m, origin, ids[1..]);
      assert ids == [ids[0]] + ids[1..];
      assert forall id :: id in ids[1..] ==> id in ids && id != ids[0];
      SkippingRefusedItems(m, origin, first, ids[1..], rest, io);
      assert ([ids[0]] + rest)[1..] == rest;
      assert kept == if Actionable(m, origin, ids[0]) then [ids[0]] + rest else rest;
    }
  }

  // ----- Who moves -----

  /** The item's alias is allowed and free on the target before the batch. */
  predicate Eligible(m: Move, db: Db, id: Id) {
    && Actionable(m, db, id) && db[id].domain != m.target
    && !Reserved(m, db[id].alias) && Available(m, db, db[id].alias)
  }

  /** Written out: the owner's unblocked link elsewhere, whose alias nothing on the target holds and, on the
      system default, is neither reserved nor a legacy one. */
  lemma EligibleIff(m: Move, db: Db, id: Id)
    ensures Eligible(m, db, id) <==>
      && id in db && db[id].owner == m.owner && db[id].status != Blocked && db[id].domain != m.target
      && (m.target != m.spaces.systemDefault || (db[id].alias !in m.spaces.reserved && db[id].alias !in m.spaces.legacy))
      && forall other :: other in db ==> !(db[other].alias == db[id].alias && db[other].domain == m.target)
  {
    if id in db && Taken(db, (db[id].alias, m.target)) {
      var other :| other in db && KeyOf(db[other]) == (db[id].alias, m.target);
      assert db[other].alias == db[id].alias && db[other].domain == m.target;
    }
    if other :| id in db && other in db && db[other].alias == db[id].alias && db[other].domain == m.target {
      assert KeyOf(db[other]) == (db[id].alias, m.target);
    }
  }

  /** The first eligible item with its alias. */
  predicate Wins(m: Move, db: Db, ids: seq<Id>, i: nat)
    requires i < |ids|
  {
    Eligible(m, db, ids[i]) && forall j :: 0 <= j < i && Eligible(m, db, ids[j]) ==> db[ids[j]].alias != db[ids[i]].alias
  }

  lemma QuietMove(m: Move, db: Db, id: Id, other: Id)
    requires id != other
    ensures
      var after := MoveOne(m, db, id, MoveIo(None, false, false)).0;
      && after == (if Eligible(m, db, id) then db[id := Moved(m, db[id])] else db)
      && (Eligible(m, after, other) <==>
            Eligible(m, db, other) && !(Eligible(m, db, id) && db[id].alias == db[other].alias))
  {
    var after := MoveOne(m, db, id, MoveIo(None, false, false)).0;
    if Eligible(m, db, id) {
      assert after[id] != db[id];
      forall alias ensures Taken(after, (alias, m.target)) <==> Taken(db, (alias, m.target)) || alias == db[id].alias {
        if x :| x in db && KeyOf(db[x]) == (alias, m.target) {
          assert KeyOf(after[x]) == (alias, m.target);
        }
        assert KeyOf(after[id]) == (db[id].alias, m.target);
      }
    }
  }

  function QuietVerdict(m: Move, db: Db, ids: seq<Id>, i: nat): Verdict
    requires i < |ids|
  {
    if !Actionable(m, db, ids[i]) then BaseVerdict(m, db, ids[i])
    else if db[ids[i]].domain == m.target || Wins(m, db, ids, i) then Done
    else if Reserved(m, db[ids[i]].alias) then Rejected(ValidationError)
    else Rejected(Conflict)
  }

  /** Moving the first item changes neither what a later item holds nor how it is ruled on, but for
      the alias the first item may have taken. */
  lemma LaterItemIsRuledAlike(m: Move, db: Db, first: Db, ids: seq<Id>, i: nat)
    requires Distinct(ids) && 0 < i < |ids|
    requires first == MoveOne(m, db, ids[0], MoveIo(None, false, false)).0
    ensures ids[i] == ids[1..][i - 1]
    ensures Wins(m, db, ids, i) <==> Wins(m, first, ids[1..], i - 1)
    ensures ids[i] in db <==> ids[i] in first
    ensures ids[i] in db ==> first[ids[i]] == db[ids[i]]
    ensures QuietVerdict(m, db, ids, i) == QuietVerdict(m, first, ids[1..], i - 1)
  {
    QuietMove(m, db, ids[0], ids[i]);
    WinsAfterFirst(m, db, first, ids, i);
  }

  /** With no failing write and nobody else writing, an item moves iff it is the first one whose alias
      is allowed and was free on the target before the batch; everything else stays as it was, and
      the rows say so. */
  lemma {:induction false} FirstEligibleWins(m: Move, db: Db, ids: seq<Id>, io: Id -> MoveIo)
    requires Distinct(ids) && Quiet(ids, io)
    ensures
      var after := Moves(m, db, ids, io).0;
      && after.Keys == db.Keys
      && (forall id :: id in db && id !in ids ==> after[id] == db[id])
      && forall i :: 0 <= i < |ids| && ids[i] in db ==>
           after[ids[i]] == if Wins(m, db, ids, i) then Moved(m, db[ids[i]]) else db[ids[i]]
    ensures
      var rows := Moves(m, db, ids, io).1;
      forall i :: 0 <= i < |ids| ==> ids[i] in rows && rows[ids[i]] == QuietVerdict(m, db, ids, i)
    decreases |ids|
  {
    if ids != [] {
      var id, rest := ids[0], ids[1..];
      var first := MoveOne(m, db, id, io(id)).0;
      assert ids == [id] + rest;
      QuietMove(m, db, id, id + 1);
      FirstEligibleWins(m, first, rest, io);
      forall i | 0 < i < |ids|
        ensures ids[i] == rest[i - 1] && (Wins(m, db, ids, i) <==> Wins(m, first, rest, i - 1))
        ensures (ids[i] in db <==> ids[i] in first) && (ids[i] in db ==> first[ids[i]] == db[ids[i]])
        ensures QuietVerdict(m, db, ids, i) == QuietVerdict(m, first, rest, i - 1)
      {
        LaterItemIsRuledAlike(m, db, first, ids, i);
      }
    }
  }

  lemma WinsAfterFirst(m: Move, db: Db, first: Db, ids: seq<Id>, i: nat)
    requires Distinct(ids) && 0 < i < |ids|
    requires first == MoveOne(m, db, ids[0], MoveIo(None, false, false)).0
    ensures Wins(m, db, ids, i) <==> Wins(m, first, ids[1..], i - 1)
  {
    forall j | 0 < j < |ids|
      ensures Eligible(m, first, ids[j]) <==>
                Eligible(m, db, ids[j]) && !(Eligible(m, db, ids[0]) && db[ids[0]].alias == db[ids[j]].alias)
      ensures ids[j] in db ==> ids[j] in first && first[ids[j]] == db[ids[j]]
    {
      QuietMove(m, db, ids[0], ids[j]);
    }
    var rest := ids[1..];
    assert forall j :: 0 <= j < |rest| ==> rest[j] == ids[j + 1];
    if Wins(m, first, rest, i - 1) {
      forall j | 0 <= j < i && Eligible(m, db, ids[j]) ensures db[ids[j]].alias != db[ids[i]].alias {
        if j > 0 {
          assert rest[j - 1] == ids[j];
        }
      }
    }
  }
}
