/**
 Erasing every custom domain of an account, page by page: page zero is re-read because deletions
 shift the pages, each domain's edge entry must be acknowledged as evicted before its document goes,
 and the number of passes is bounded up front.
 */
module DomainDrain {
  import opened Prelude

  type Id = nat
  type Owner = nat

  const PAGE_SIZE := 50

  datatype Domain = Domain(owner: Owner, fqdn: string)

  type Domains = map<Id, Domain>

  datatype Error = Upstream | EdgeNotAcknowledged | DeleteRemovedNothing | Exhausted

  datatype DeleteOutcome = Deleted | GoneAlready | Raises

  /** What the outside answers for one domain: its link cascade, its edge eviction, its delete. */
  datatype DomainIo = DomainIo(cascadeRaises: bool, acknowledged: bool, delete: DeleteOutcome)

  predicate Smooth(io: DomainIo) { !io.cascadeRaises && io.acknowledged && io.delete == Deleted }

  function OwnedIds(domains: Domains, owner: Owner): set<Id> {
    set id | id in domains && domains[id].owner == owner
  }

  lemma {:induction false} DistinctMembers(page: seq<Id>)
    requires Distinct(page)
    ensures |Members(page)| == |page|
  {
    if page != [] {
      var init, last := page[..|page| - 1], page[|page| - 1];
      DistinctMembers(init);
      assert page == init + [last];
      assert Members(page) == Members(init) + {last};
      assert last !in Members(init);
    }
  }

  lemma MembersOfLonger(page: seq<Id>, id: Id)
    ensures Members(page + [id]) == Members(page) + {id}
    ensures Distinct(page) && id !in Members(page) ==> Distinct(page + [id])
  {
  }

  /** How many passes the initial count allows. */
  function MaxPasses(total: nat): nat { total / PAGE_SIZE + 2 }

  /** What is left of `total` domains after so many full passes. */
  function Remaining(total: nat, passes: nat): nat {
    if passes * PAGE_SIZE < total then total - passes * PAGE_SIZE else 0
  }

  /** What a failure says of the domain it stopped at, and whether its document is still there: a link
      cascade or a delete raised, the eviction was not acknowledged, or the delete found nothing. */
  predicate Explained(failure: Error, io: DomainIo, stays: bool) {
    match failure
    case Upstream => stays && (io.cascadeRaises || (io.acknowledged && io.delete == Raises))
    case EdgeNotAcknowledged => stays && !io.cascadeRaises && !io.acknowledged
    case DeleteRemovedNothing => !stays && !io.cascadeRaises && io.acknowledged && io.delete == GoneAlready
    case Exhausted => false
  }

  class CustomDomainService {
    var domains: Domains

    constructor (domains: Domains)
      ensures this.domains == domains
    {
      this.domains := domains;
    }

    /** One page of the owner's domains. */
    method ListByOwner(owner: Owner, limit: nat) returns (page: seq<Id>)
      ensures Distinct(page) && Members(page) <= OwnedIds(domains, owner)
      ensures |page| == if |OwnedIds(domains, owner)| < limit then |OwnedIds(domains, owner)| else limit
      ensures |page| < limit ==> Members(page) == OwnedIds(domains, owner)
    {
      page := [];
      var rest := OwnedIds(domains, owner);
      while |page| < limit && rest != {}
        invariant Distinct(page) && Members(page) !! rest
        invariant Members(page) + rest == OwnedIds(domains, owner)
        invariant |page| + |rest| == |OwnedIds(domains, owner)| && |page| <= limit
        decreases rest
      {
        var id :| id in rest;
        MembersOfLonger(page, id);
        page := page + [id];
        rest := rest - {id};
      }
    }

    /** Cascade, evict, delete: in that order, so a domain whose eviction is not acknowledged keeps its
        document. */
    method EraseOne(id: Id, io: DomainIo) returns (failure: Option<Error>)
      requires id in domains
      modifies this
      ensures failure == None <==> Smooth(io)
      ensures failure.Some? ==> Explained(failure.value, io, id in domains)
      ensures domains ==
                if !io.cascadeRaises && io.acknowledged && io.delete != Raises then old(domains) - {id} else old(domains)
    {
      if io.cascadeRaises {
        return Some(Upstream);
      }
      if !io.acknowledged {
        return Some(EdgeNotAcknowledged);
      }
      if io.delete == Raises {
        return Some(Upstream);
      }
      domains := domains - {id};
      return if io.delete == Deleted then None else Some(DeleteRemovedNothing);
    }

    method ErasePage(page: seq<Id>, io: Id -> DomainIo) returns (failure: Option<Error>, removed: nat)
      requires Distinct(page) && Members(page) <= domains.Keys
      modifies this
      ensures failure == None <==> forall id :: id in page ==> Smooth(io(id))
      ensures failure == None ==> domains == old(domains) - Members(page) && removed == |page|
      ensures failure.Some? ==> exists id :: id in Members(page) && Explained(failure.value, io(id), id in domains)
      ensures OnlyAcknowledgedGone(old(domains), domains, io)
      ensures domains.Keys <= old(domains).Keys && old(domains).Keys - domains.Keys <= Members(page)
    {
      removed := 0;
      ghost var before := domains;
      for i := 0 to |page|
        invariant removed == i && forall j :: 0 <= j < i ==> Smooth(io(page[j]))
        invariant domains == before - Members(page[..i])
      {
        assert page[i] in domains;
        failure := EraseOne(page[i], io(page[i]));
        assert page[..i + 1] == page[..i] + [page[i]];
        assert Members(page[..i + 1]) == Members(page[..i]) + {page[i]};
        assert Members(page[..i + 1]) <= Members(page);
        if failure.Some? {
          return;
        }
        removed := removed + 1;
      }
      assert page[..|page|] == page;
      failure := None;
    }

    /** Erase every domain of the owner; `arrivals` are documents inserted before each pass. Whatever
        happens, a domain's document, there from the start or inserted meanwhile, goes only after its
        eviction was acknowledged, and other owners' documents stay. With smooth answers and nobody
        inserting, all of them go, within the passes
        allowed; running out of passes takes somebody inserting. */
    method DeleteAllForOwner(owner: Owner, io: Id -> DomainIo, arrivals: nat -> Domains)
      returns (r: Result<nat, Error>, ghost passes: nat)
      requires ArrivalsApart(domains, arrivals)
      modifies this
      ensures passes <= MaxPasses(|OwnedIds(old(domains), owner)|)
      ensures OnlyAcknowledgedGone(old(domains), domains, io) && OthersStay(old(domains), domains, owner)
      ensures forall k: nat :: k < passes ==>
                OnlyAcknowledgedGone(arrivals(k), domains, io) && OthersStay(arrivals(k), domains, owner)
      ensures forall id :: id in domains && id !in old(domains) ==> exists k: nat :: k < passes && id in arrivals(k)
      ensures r.Ok? ==> OwnedIds(domains, owner) == {}
      ensures Silent(arrivals) && (forall id :: id in OwnedIds(old(domains), owner) ==> Smooth(io(id))) ==>
                r == Ok(|OwnedIds(old(domains), owner)|)
      ensures r == Err(Exhausted) ==> !Silent(arrivals) && passes == |OwnedIds(old(domains), owner)| / 50 + 2
      ensures r.Err? && r.error != Exhausted ==>
                exists id :: Explained(r.error, io(id), id in domains && domains[id].owner == owner)
    {
      ghost var before := domains;
      var total := |OwnedIds(domains, owner)|;
      var maxPasses := MaxPasses(total);
      var removed := 0;
      passes := 0;
      for pass := 0 to maxPasses
        invariant passes == pass
        invariant Drained(before, domains, owner, io, arrivals, pass, removed)
      {
        var failure, erased := RunPass(owner, io, arrivals, pass, removed, before);
        passes := pass + 1;
        if failure.Some? {
          return Err(failure.value), passes;
        }
        if erased == 0 {
          return Ok(removed), passes;
        }
        removed := removed + erased;
      }
      return Err(Exhausted), passes;
    }

    /** Re-read page zero and erase it; nothing erased means nothing was left. */
    method RunPass(owner: Owner, io: Id -> DomainIo, arrivals: nat -> Domains, pass: nat, removed: nat, ghost before: Domains)
      returns (failure: Option<Error>, erased: nat)
      requires ArrivalsApart(before, arrivals) && Drained(before, domains, owner, io, arrivals, pass, removed)
      modifies this
      ensures Kept(before, domains, owner, io, arrivals, pass + 1)
      ensures failure.Some? ==> exists id :: Explained(failure.value, io(id), id in domains && domains[id].owner == owner)
      ensures failure == None && erased > 0 ==> Drained(before, domains, owner, io, arrivals, pass + 1, removed + erased)
      ensures failure == None && erased == 0 ==> OwnedIds(domains, owner) == {}
      ensures failure == None && erased == 0 && Silent(arrivals) ==> removed == |OwnedIds(before, owner)|
      ensures failure.Some? && Silent(arrivals) ==> exists id :: id in OwnedIds(before, owner) && !Smooth(io(id))
    {
      ArrivalsJoin(before, domains, arrivals, pass, owner, io);
      domains := domains + arrivals(pass);
      ghost var seen := domains;
      var page := ListByOwner(owner, PAGE_SIZE);
      failure, erased := ErasePage(page, io);
      PageKeeps(before, seen, domains, page, owner, io, arrivals, pass + 1);
      PageLeaves(seen, page, owner);
      if failure.Some? && Silent(arrivals) {
        var id :| id in page && !Smooth(io(id));
        assert id in Members(page) && id in OwnedIds(seen, owner);
      }
    }
  }

  /** What every pass keeps, whatever happens in it. */
  ghost predicate Kept(before: Domains, domains: Domains, owner: Owner, io: Id -> DomainIo, arrivals: nat -> Domains, passes: nat) {
    && OnlyAcknowledgedGone(before, domains, io) && OthersStay(before, domains, owner)
    && (forall k: nat :: k < passes ==>
          OnlyAcknowledgedGone(arrivals(k), domains, io) && OthersStay(arrivals(k), domains, owner))
    && CameFrom(before, domains, arrivals, passes)
  }

  /** ... and how far the passes without a failure have come, when nobody inserts. */
  ghost predicate Drained(before: Domains, domains: Domains, owner: Owner, io: Id -> DomainIo, arrivals: nat -> Domains,
                          passes: nat, removed: nat)
  {
    && Kept(before, domains, owner, io, arrivals, passes)
    && (Silent(arrivals) ==>
          var total := |OwnedIds(before, owner)|;
          passes <= total / PAGE_SIZE + 1 && |OwnedIds(domains, owner)| == Remaining(total, passes) == total - removed)
  }

  /** Every document is an original or arrived before one of the passes so far. */
  ghost predicate CameFrom(before: Domains, domains: Domains, arrivals: nat -> Domains, passes: nat) {
    forall id :: id in domains ==>
      (id in before && domains[id] == before[id]) || (id !in before && exists k: nat :: k < passes && id in arrivals(k))
  }

  lemma ArrivalsJoin(before: Domains, domains: Domains, arrivals: nat -> Domains, pass: nat, owner: Owner, io: Id -> DomainIo)
    requires ArrivalsApart(before, arrivals) && Kept(before, domains, owner, io, arrivals, pass)
    ensures Kept(before, domains + arrivals(pass), owner, io, arrivals, pass + 1)
    ensures Silent(arrivals) ==> domains + arrivals(pass) == domains
  {
    var joined := domains + arrivals(pass);
    JoinKeepsOthers(before, domains, arrivals(pass), owner, io);
    forall k: nat | k < pass + 1
      ensures OnlyAcknowledgedGone(arrivals(k), joined, io) && OthersStay(arrivals(k), joined, owner)
    {
      if k < pass {
        ApartAt(before, arrivals, k, pass);
        JoinKeepsOthers(arrivals(k), domains, arrivals(pass), owner, io);
      } else {
        JoinedIsThere(domains, arrivals(pass), owner, io);
      }
    }
    JoinCameFrom(before, domains, arrivals, pass);
  }

  lemma ApartAt(before: Domains, arrivals: nat -> Domains, j: nat, k: nat)
    requires ArrivalsApart(before, arrivals) && j < k
    ensures forall id :: id in arrivals(k) ==> id !in arrivals(j)
  {
  }

  lemma JoinedIsThere(domains: Domains, more: Domains, owner: Owner, io: Id -> DomainIo)
    ensures OnlyAcknowledgedGone(more, domains + more, io) && OthersStay(more, domains + more, owner)
  {
  }

  lemma JoinCameFrom(before: Domains, domains: Domains, arrivals: nat -> Domains, pass: nat)
    requires CameFrom(before, domains, arrivals, pass) && forall id :: id in arrivals(pass) ==> id !in before
    ensures CameFrom(before, domains + arrivals(pass), arrivals, pass + 1)
  {
  }

  lemma JoinKeepsOthers(source: Domains, domains: Domains, more: Domains, owner: Owner, io: Id -> DomainIo)
    requires OnlyAcknowledgedGone(source, domains, io) && OthersStay(source, domains, owner)
    requires forall id :: id in more ==> id !in source
    ensures OnlyAcknowledgedGone(source, domains + more, io) && OthersStay(source, domains + more, owner)
  {
  }

  lemma PageKeeps(before: Domains, seen: Domains, domains: Domains, page: seq<Id>, owner: Owner, io: Id -> DomainIo,
                  arrivals: nat -> Domains, passes: nat)
    requires Kept(before, seen, owner, io, arrivals, passes)
    requires Members(page) <= OwnedIds(seen, owner) && seen.Keys - domains.Keys <= Members(page)
    requires OnlyAcknowledgedGone(seen, domains, io) && domains.Keys <= seen.Keys
    ensures Kept(before, domains, owner, io, arrivals, passes)
  {
    PageKeepsOthers(before, seen, domains, page, owner, io);
    forall k: nat | k < passes
      ensures OnlyAcknowledgedGone(arrivals(k), domains, io) && OthersStay(arrivals(k), domains, owner)
    {
      PageKeepsOthers(arrivals(k), seen, domains, page, owner, io);
    }
  }

  lemma PageKeepsOthers(source: Domains, seen: Domains, domains: Domains, page: seq<Id>, owner: Owner, io: Id -> DomainIo)
    requires OnlyAcknowledgedGone(source, seen, io) && OthersStay(source, seen, owner)
    requires Members(page) <= OwnedIds(seen, owner) && seen.Keys - domains.Keys <= Members(page)
    requires OnlyAcknowledgedGone(seen, domains, io) && domains.Keys <= seen.Keys
    ensures OnlyAcknowledgedGone(source, domains, io) && OthersStay(source, domains, owner)
  {
    forall id | id in source && source[id].owner != owner ensures id in domains && domains[id] == source[id] {
      assert seen[id] == source[id];
      assert id !in Members(page) && id !in seen.Keys - domains.Keys;
    }
  }

  lemma PageLeaves(seen: Domains, page: seq<Id>, owner: Owner)
    requires Distinct(page) && Members(page) <= OwnedIds(seen, owner)
    ensures |OwnedIds(seen - Members(page), owner)| == |OwnedIds(seen, owner)| - |page|
  {
    DistinctMembers(page);
    assert OwnedIds(seen - Members(page), owner) == OwnedIds(seen, owner) - Members(page);
  }

  /** Documents leave the collection only for domains whose eviction was acknowledged, and are never edited. */
  ghost predicate OnlyAcknowledgedGone(before: Domains, after: Domains, io: Id -> DomainIo) {
    forall id :: id in before ==> if id in after then after[id] == before[id] else io(id).acknowledged
  }

  /** Other owners' documents are untouched. */
  ghost predicate OthersStay(before: Domains, after: Domains, owner: Owner) {
    forall id :: id in before && before[id].owner != owner ==> id in after && after[id] == before[id]
  }

  ghost predicate Silent(arrivals: nat -> Domains) { forall k: nat :: arrivals(k) == map[] }

  ghost predicate ArrivalsApart(domains: Domains, arrivals: nat -> Domains) {
    && (forall k: nat, id :: id in arrivals(k) ==> id !in domains)
    && (forall j: nat, k: nat, id :: j < k && id in arrivals(j) ==> id !in arrivals(k))
  }
}
