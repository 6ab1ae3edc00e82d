/** The link documents, the redirect cache over them, and the lists the bulk operations build. */
module LinkStore {
  import opened Prelude

  type Id = nat
  type Owner = nat
  type Tag = nat
  type Time = int
  type Key = (string, string)   // (alias, domain)

  datatype Status = Active | Inactive | Expired | Blocked

  datatype Doc = Doc(
    owner: Owner,
    alias: string,
    domain: string,
    status: Status,
    expireAfter: Option<Time>,
    startsAt: Option<Time>,
    tags: seq<Tag>,
    updatedAt: Time)

  type Db = map<Id, Doc>

  function KeyOf(d: Doc): Key { (d.alias, d.domain) }

  /** The caller's link, if it is one: a foreign link answers like a missing one. */
  function Owned(db: Db, owner: Owner, id: Id): Option<Doc> {
    if id in db && db[id].owner == owner then Some(db[id]) else None
  }

  // ----- The verdict on one requested link -----

  datatype Code = NotFound | Forbidden | ValidationError | Conflict | Internal | NotAttempted

  datatype Verdict = Done | Rejected(code: Code)

  // ----- The redirect cache -----

  /** What the cache stores of a document: everything a redirect needs, no tags, no audit fields. */
  datatype Entry = Entry(id: Id, owner: Owner, alias: string, domain: string, status: Status,
                         expireAfter: Option<Time>, startsAt: Option<Time>)

  type Cache = map<Key, Entry>

  function Project(id: Id, d: Doc): Entry {
    Entry(id, d.owner, d.alias, d.domain, d.status, d.expireAfter, d.startsAt)
  }

  /** Every cached entry shows the stored document that holds its key. */
  ghost predicate CacheAgrees(db: Db, cache: Cache) {
    forall k :: k in cache ==>
      && cache[k].id in db
      && KeyOf(db[cache[k].id]) == k
      && cache[k] == Project(cache[k].id, db[cache[k].id])
  }

  /** Dropping the keys of every document a write may have touched keeps the agreement. */
  lemma DroppingTouchedKeysKeepsAgreement(db: Db, after: Db, cache: Cache, kept: Cache, touched: set<Id>)
    requires CacheAgrees(db, cache)
    requires forall id :: id in db && id !in touched ==> id in after && Project(id, after[id]) == Project(id, db[id])
    requires forall k :: k in kept ==> k in cache && kept[k] == cache[k]
    requires forall id :: id in touched && id in db ==> KeyOf(db[id]) !in kept
    ensures CacheAgrees(after, kept)
  {
    forall k | k in kept
      ensures kept[k].id in after && KeyOf(after[kept[k].id]) == k
      ensures kept[k] == Project(kept[k].id, after[kept[k].id])
    {
      var id := cache[k].id;
      assert id !in touched;
      assert Project(id, after[id]) == Project(id, db[id]);
    }
  }

  // ----- Lists -----

  /** First occurrences, in order. */
  function Dedupe(ids: seq<Id>): (unique: seq<Id>)
    ensures Distinct(unique)
    ensures forall id :: id in unique <==> id in ids
  {
    if ids == [] then []
    else
      var init, last := Dedupe(ids[..|ids| - 1]), ids[|ids| - 1];
      assert ids == ids[..|ids| - 1] + [last];
      if last in init then init else init + [last]
  }

  function Select(ids: seq<Id>, p: Id -> bool): (kept: seq<Id>)
    ensures forall id :: id in kept <==> id in ids && p(id)
    ensures Distinct(ids) ==> Distinct(kept)
  {
    if ids == [] then []
    else
      var rest := Select(ids[1..], p);
      assert ids == [ids[0]] + ids[1..];
      if p(ids[0]) then [ids[0]] + rest else rest
  }

  lemma SelectsAlike(ids: seq<Id>, p: Id -> bool, q: Id -> bool)
    requires forall id :: id in ids ==> p(id) == q(id)
    ensures Select(ids, p) == Select(ids, q)
  {
  }
}
