/**
 Stamping links with their parsed destinations: what a stamp says, and the keyset-paginated passes
 that write it. URL parsing is a parameter; everything else, including the filters that re-assert
 what was read, is as the script has it.
 */
module DestBackfill {
  import opened Prelude

  type Id = nat

  const BATCH := 1000

  // ----- Stamps -----

  datatype Parts = Parts(host: string, registrable: string)

  type Parser = string -> Option<Parts>

  datatype Secondary = Secondary(hosts: seq<string>, registrable: seq<string>)

  /** The stored `dest`: missing, null, or an object that may lack its host or its secondary lists. */
  datatype Dest = Absent | Null | Stamp(host: Option<string>, registrable: string, secondary: Option<Secondary>)

  datatype Doc = Doc(
    url: Option<string>,
    geo: Option<seq<string>>,         // the values of an object, in order
    variants: Option<seq<string>>,    // the urls of an array, in order
    preStart: Option<string>,
    expired: Option<string>,
    dest: Dest)

  function Listed(field: Option<string>): seq<string> { if field.Some? then [field.value] else [] }

  /** Every extra destination a link routes to. */
  function SecondaryUrls(d: Doc): seq<string> {
    (if d.geo.Some? then d.geo.value else []) + (if d.variants.Some? then d.variants.value else [])
    + Listed(d.preStart) + Listed(d.expired)
  }

  // ----- One parsed destination per distinct host, sorted by host -----

  predicate Less(a: string, b: string) {
    if b == "" then false
    else if a == "" then true
    else a[0] < b[0] || (a[0] == b[0] && Less(a[1..], b[1..]))
  }

  lemma {:induction false} LessIsTotal(a: string, b: string)
    ensures Less(a, b) || Less(b, a) || a == b
    ensures !(Less(a, b) && Less(b, a)) && (a == b ==> !Less(a, b))
    decreases |a|
  {
    if a != "" && b != "" {
      LessIsTotal(a[1..], b[1..]);
      assert a == [a[0]] + a[1..] && b == [b[0]] + b[1..];
    }
  }

  lemma {:induction false} LessIsTransitive(a: string, b: string, c: string)
    requires Less(a, b) && Less(b, c)
    ensures Less(a, c)
    decreases |a|
  {
    if a != "" && a[0] == b[0] == c[0] {
      LessIsTransitive(a[1..], b[1..], c[1..]);
    }
  }

  function HostsOf(parts: seq<Parts>): (hosts: seq<string>)
    ensures |hosts| == |parts| && forall i :: 0 <= i < |parts| ==> hosts[i] == parts[i].host
  {
    seq(|parts|, i requires 0 <= i < |parts| => parts[i].host)
  }

  /** The dictionary, in insertion order: the first parse of each host other than the main one. */
  function ByHost(parse: Parser, urls: seq<string>, main: string): (parts: seq<Parts>)
    ensures forall i, j :: 0 <= i < j < |parts| ==> parts[i].host != parts[j].host
  {
    if urls == [] then []
    else
      var before := ByHost(parse, urls[..|urls| - 1], main);
      var p := parse(urls[|urls| - 1]);
      if p.Some? && p.value.host != main && p.value.host !in HostsOf(before) then before + [p.value] else before
  }

  function Insert(sorted: seq<Parts>, p: Parts): seq<Parts> {
    if sorted == [] || Less(p.host, sorted[0].host) then [p] + sorted else [sorted[0]] + Insert(sorted[1..], p)
  }

  function SortByHost(parts: seq<Parts>): seq<Parts> {
    if parts == [] then [] else Insert(SortByHost(parts[1..]), parts[0])
  }

  function SecondaryParts(parse: Parser, urls: seq<string>, main: string): seq<Parts> {
    SortByHost(ByHost(parse, urls, main))
  }

  function SecondaryFields(parse: Parser, urls: seq<string>, main: string): Secondary {
    var parts := SecondaryParts(parse, urls, main);
    Secondary(HostsOf(parts), seq(|parts|, i requires 0 <= i < |parts| => parts[i].registrable))
  }

  ghost predicate StrictlySorted(parts: seq<Parts>) {
    forall i, j :: 0 <= i < j < |parts| ==> Less(parts[i].host, parts[j].host)
  }

  lemma ConsSorted(p: Parts, rest: seq<Parts>)
    requires StrictlySorted(rest) && forall q :: q in rest ==> Less(p.host, q.host)
    ensures StrictlySorted([p] + rest)
  {
  }

  lemma {:induction false} InsertKeepsSorted(sorted: seq<Parts>, p: Parts)
    requires StrictlySorted(sorted) && forall q :: q in sorted ==> q.host != p.host
    ensures StrictlySorted(Insert(sorted, p))
    ensures forall q :: q in Insert(sorted, p) <==> q == p || q in sorted
  {
    if sorted == [] {
    } else if Less(p.host, sorted[0].host) {
      forall q | q in sorted ensures Less(p.host, q.host) {
        if q != sorted[0] {
          LessIsTransitive(p.host, sorted[0].host, q.host);
        }
      }
      ConsSorted(p, sorted);
    } else {
      var rest := sorted[1..];
      assert sorted == [sorted[0]] + rest;
      InsertKeepsSorted(rest, p);
      LessIsTotal(p.host, sorted[0].host);
      ConsSorted(sorted[0], Insert(rest, p));
    }
  }

  lemma {:induction false} SortSorts(parts: seq<Parts>)
    requires forall i, j :: 0 <= i < j < |parts| ==> parts[i].host != parts[j].host
    ensures StrictlySorted(SortByHost(parts))
    ensures forall q :: q in SortByHost(parts) <==> q in parts
  {
    if parts != [] {
      SortSorts(parts[1..]);
      assert parts == [parts[0]] + parts[1..];
      InsertKeepsSorted(SortByHost(parts[1..]), parts[0]);
    }
  }

  ghost predicate HasHost(parse: Parser, urls: seq<string>, host: string) {
    exists i :: 0 <= i < |urls| && parse(urls[i]).Some? && parse(urls[i]).value.host == host
  }

  /** `p` is what the first url with its host parses to. */
  ghost predicate IsFirstParse(parse: Parser, urls: seq<string>, p: Parts) {
    exists i :: 0 <= i < |urls| && parse(urls[i]) == Some(p) && !HasHost(parse, urls[..i], p.host)
  }

  lemma OneMoreUrl(parse: Parser, init: seq<string>, last: string, p: Parts)
    ensures HasHost(parse, init + [last], p.host) <==>
              HasHost(parse, init, p.host) || (parse(last).Some? && parse(last).value.host == p.host)
    ensures IsFirstParse(parse, init + [last], p) <==>
              IsFirstParse(parse, init, p) || (parse(last) == Some(p) && !HasHost(parse, init, p.host))
  {
    var urls := init + [last];
    assert urls[|init|] == last && urls[..|init|] == init;
    assert forall i :: 0 <= i < |init| ==> urls[i] == init[i] && urls[..i] == init[..i];
  }

  lemma {:induction false} ByHostHoldsFirstParses(parse: Parser, urls: seq<string>, main: string)
    ensures forall p :: p in ByHost(parse, urls, main) <==> p.host != main && IsFirstParse(parse, urls, p)
    ensures forall host :: host in HostsOf(ByHost(parse, urls, main)) <==> host != main && HasHost(parse, urls, host)
  {
    if urls != [] {
      var init, last := urls[..|urls| - 1], urls[|urls| - 1];
      assert urls == init + [last];
      ByHostHoldsFirstParses(parse, init, main);
      forall p: Parts
        ensures p in ByHost(parse, urls, main) <==> p.host != main && IsFirstParse(parse, urls, p)
      {
        OneMoreUrl(parse, init, last, p);
      }
      forall host ensures host in HostsOf(ByHost(parse, urls, main)) <==> host != main && HasHost(parse, urls, host) {
        OneMoreUrl(parse, init, last, Parts(host, ""));
        HostsOfOneMore(ByHost(parse, init, main), parse(last));
      }
    }
  }

  lemma HostsOfOneMore(parts: seq<Parts>, p: Option<Parts>)
    ensures p.Some? ==> HostsOf(parts + [p.value]) == HostsOf(parts) + [p.value.host]
  {
  }

  lemma SameMembersSameHosts(parts: seq<Parts>, others: seq<Parts>)
    requires forall q :: q in parts <==> q in others
    ensures forall host :: host in HostsOf(parts) <==> host in HostsOf(others)
  {
    HostsAreIncluded(parts, others);
    HostsAreIncluded(others, parts);
  }

  lemma HostsAreIncluded(parts: seq<Parts>, others: seq<Parts>)
    requires forall q :: q in parts ==> q in others
    ensures forall host :: host in HostsOf(parts) ==> host in HostsOf(others)
  {
    forall host | host in HostsOf(parts) ensures host in HostsOf(others) {
      var i :| 0 <= i < |parts| && HostsOf(parts)[i] == host;
      assert parts[i] in others;
      var k :| 0 <= k < |others| && others[k] == parts[i];
      assert HostsOf(others)[k] == host;
    }
  }

  /** The secondary lists of a stamp: strictly sorted, without the main host, index-aligned, and holding
      exactly the hosts the urls parse to, each with the registrable domain of its first url. */
  lemma SecondaryFieldsAreExact(parse: Parser, urls: seq<string>, main: string)
    ensures
      var f := SecondaryFields(parse, urls, main);
      && |f.hosts| == |f.registrable|
      && (forall i, j :: 0 <= i < j < |f.hosts| ==> Less(f.hosts[i], f.hosts[j]))
      && main !in f.hosts
      && (forall host :: host in f.hosts <==> host != main && HasHost(parse, urls, host))
      && (forall i :: 0 <= i < |f.hosts| ==> IsFirstParse(parse, urls, Parts(f.hosts[i], f.registrable[i])))
  {
    var dict := ByHost(parse, urls, main);
    var parts := SecondaryParts(parse, urls, main);
    var f := SecondaryFields(parse, urls, main);
    ByHostHoldsFirstParses(parse, urls, main);
    SortSorts(dict);
    SameMembersSameHosts(parts, dict);
    forall i | 0 <= i < |f.hosts| ensures IsFirstParse(parse, urls, Parts(f.hosts[i], f.registrable[i])) {
      assert parts[i] in parts && parts[i] == Parts(f.hosts[i], f.registrable[i]);
    }
  }

  // ----- What the two passes select and write -----

  function Parsed(parse: Parser, d: Doc): Option<Parts> { if d.url.Some? then parse(d.url.value) else None }

  function MainHost(parse: Parser, d: Doc): string {
    var parts := Parsed(parse, d);
    if parts.Some? then parts.value.host else ""
  }

  /** The full stamp of a document: its parsed url plus its secondary lists, null when there is neither. */
  function DestFor(parse: Parser, d: Doc): Dest {
    var parts := Parsed(parse, d);
    var extra := SecondaryFields(parse, SecondaryUrls(d), MainHost(parse, d));
    if parts == None && extra.hosts == [] then Null
    else
      Stamp(Some(MainHost(parse, d)), if parts.Some? then parts.value.registrable else "",
            if extra.hosts != [] then Some(extra) else None)
  }

  /** Parsed hosts are never empty. */
  ghost predicate NamesHosts(parse: Parser) { forall u :: parse(u).Some? ==> parse(u).value.host != "" }

  /** Somewhere the link can send a visitor besides its url: by country, as a variant, before its start, or
      after its end. */
  predicate RoutesTo(d: Doc, u: string) {
    || (d.geo.Some? && u in d.geo.value)
    || (d.variants.Some? && u in d.variants.value)
    || d.preStart == Some(u)
    || d.expired == Some(u)
  }

  ghost predicate ReachesHost(parse: Parser, d: Doc, host: string) {
    exists u :: RoutesTo(d, u) && parse(u).Some? && parse(u).value.host == host
  }

  lemma SecondaryUrlsAreTheRoutes(d: Doc, u: string)
    ensures u in SecondaryUrls(d) <==> RoutesTo(d, u)
  {
    assert forall x: string :: x in [u] <==> x == u;
  }

  lemma ReachesItsSecondaryHosts(parse: Parser, d: Doc, host: string)
    ensures HasHost(parse, SecondaryUrls(d), host) <==> ReachesHost(parse, d, host)
  {
    var urls := SecondaryUrls(d);
    if HasHost(parse, urls, host) {
      var i :| 0 <= i < |urls| && parse(urls[i]).Some? && parse(urls[i]).value.host == host;
      SecondaryUrlsAreTheRoutes(d, urls[i]);
      assert RoutesTo(d, urls[i]);
    }
    if u :| RoutesTo(d, u) && parse(u).Some? && parse(u).value.host == host {
      SecondaryUrlsAreTheRoutes(d, u);
      var i :| 0 <= i < |urls| && urls[i] == u;
    }
  }

  /** A document's full stamp names its url's host and lists, besides, exactly the hosts that one of its
      country, variant, pre-start and expired destinations parses to; there is none iff nothing parses. */
  lemma StampListsEveryHost(parse: Parser, d: Doc)
    requires NamesHosts(parse)
    ensures var stamp := DestFor(parse, d);
      && (stamp == Null <==> Parsed(parse, d) == None && forall host :: !ReachesHost(parse, d, host))
      && (stamp != Null ==>
            && stamp.Stamp? && stamp.host == Some(MainHost(parse, d))
            && (forall host :: stamp.secondary.Some? && host in stamp.secondary.value.hosts <==>
                  host != MainHost(parse, d) && ReachesHost(parse, d, host)))
  {
    var urls, main := SecondaryUrls(d), MainHost(parse, d);
    var hosts := SecondaryFields(parse, urls, main).hosts;
    SecondaryFieldsAreExact(parse, urls, main);
    forall host ensures HasHost(parse, urls, host) <==> ReachesHost(parse, d, host) {
      ReachesItsSecondaryHosts(parse, d, host);
    }
    if Parsed(parse, d) == None {
      assert !ReachesHost(parse, d, "");
      if hosts != [] {
        assert hosts[0] in hosts;
      }
    }
  }

  /** The second pass lists them on a stamp that is there, besides the host it names. */
  lemma SecondPassListsEveryHost(parse: Parser, read: Doc, now: Doc)
    requires SecondaryWrite(parse, read, now).Some? && read.dest.Stamp?
    ensures var stamp := SecondaryWrite(parse, read, now).value.dest;
      && stamp.Stamp? && stamp.host == now.dest.host && stamp.secondary.Some?
      && forall host :: host in stamp.secondary.value.hosts <==>
           Some(host) != now.dest.host && ReachesHost(parse, now, host)
  {
    SecondaryFieldsAreExact(parse, SecondaryUrls(read), HostOr(read.dest));
    forall host ensures HasHost(parse, SecondaryUrls(read), host) <==> ReachesHost(parse, read, host) {
      ReachesItsSecondaryHosts(parse, read, host);
    }
    forall host ensures ReachesHost(parse, read, host) <==> ReachesHost(parse, now, host) {
      assert forall u :: RoutesTo(read, u) <==> RoutesTo(now, u);
    }
  }

  predicate PrimaryMatches(d: Doc) { d.dest == Absent }

  /** The update of the first pass, whose filter re-asserts the url, the geo rules and the missing stamp
      of the document as it was read. */
  function PrimaryWrite(parse: Parser, read: Doc, now: Doc): Option<Doc> {
    if now.url == read.url && now.geo == read.geo && now.dest == Absent
    then Some(now.(dest := DestFor(parse, read)))
    else None
  }

  predicate Unstamped(dest: Dest) { dest.Stamp? ==> dest.secondary == None }

  predicate SecondaryMatches(d: Doc) {
    (d.geo.Some? || d.variants.Some? || d.preStart.Some? || d.expired.Some?) && Unstamped(d.dest)
  }

  function HostOr(dest: Dest): string { if dest.Stamp? && dest.host.Some? then dest.host.value else "" }

  /** Both lists on an existing stamp, or a whole stamp when there is none; empty lists mark it done. */
  function SecondarySet(parse: Parser, read: Doc, dest: Dest): Dest {
    if read.dest.Stamp? && dest.Stamp? then
      dest.(secondary := Some(SecondaryFields(parse, SecondaryUrls(read), HostOr(read.dest))))
    else
      var full := DestFor(parse, read);
      if full == Null then Stamp(Some(""), "", Some(Secondary([], [])))
      else if full.Stamp? && full.secondary == None then full.(secondary := Some(Secondary([], [])))
      else full
  }

  /** The update of the second pass re-asserts every secondary source and the stamp's host; a stamp
      without a host is asked for the empty one, which it does not have. */
  function SecondaryWrite(parse: Parser, read: Doc, now: Doc): Option<Doc> {
    if && now.geo == read.geo && now.variants == read.variants
       && now.preStart == read.preStart && now.expired == read.expired && Unstamped(now.dest)
       && (if read.dest.Stamp? then now.dest.Stamp? && now.dest.host == Some(HostOr(read.dest)) else !now.dest.Stamp?)
    then Some(now.(dest := SecondarySet(parse, read, now.dest)))
    else None
  }

  // ----- One keyset pass -----

  type Docs = map<Id, Doc>

  /** A pass: what it selects, what it writes, which writes fail, and who edits a document in between
      its read and its write. */
  datatype Pass = Pass(
    matches: Doc -> bool,
    write: (Doc, Doc) -> Option<Doc>,
    fails: Id -> bool,
    edits: Id -> Option<Doc>)

  function Current(p: Pass, id: Id, read: Doc): Doc { if p.edits(id).Some? then p.edits(id).value else read }

  predicate Skips(p: Pass, id: Id, read: Doc) { !p.fails(id) && p.write(read, Current(p, id, read)) == None }

  function Outcome(p: Pass, id: Id, read: Doc): Doc {
    var now := Current(p, id, read);
    if p.fails(id) || Skips(p, id, read) then now else p.write(read, now).value
  }

  function Matching(p: Pass, docs: Docs): set<Id> { set id | id in docs && p.matches(docs[id]) }

  /** Every document that matched gets its one outcome; the others stay. */
  function AfterPass(p: Pass, docs: Docs): Docs {
    map id | id in docs :: if p.matches(docs[id]) then Outcome(p, id, docs[id]) else docs[id]
  }

  ghost predicate Increasing(ids: seq<Id>) { forall i, j :: 0 <= i < j < |ids| ==> ids[i] < ids[j] }

  ghost predicate Lists(ids: seq<Id>, members: set<Id>) {
    Increasing(ids) && forall id :: id in ids <==> id in members
  }

  function FailedIds(p: Pass, ids: seq<Id>): set<Id> { set id | id in ids && p.fails(id) }

  function SkippedIds(p: Pass, ids: seq<Id>, read: Docs): set<Id> {
    set id | id in ids && id in read && Skips(p, id, read[id])
  }

  lemma IdsOfBoth(p: Pass, ids: seq<Id>, more: seq<Id>, read: Docs)
    requires forall id :: id in more ==> id !in ids
    ensures |FailedIds(p, ids + more)| == |FailedIds(p, ids)| + |FailedIds(p, more)|
    ensures |SkippedIds(p, ids + more, read)| == |SkippedIds(p, ids, read)| + |SkippedIds(p, more, read)|
  {
    assert FailedIds(p, ids + more) == FailedIds(p, ids) + FailedIds(p, more);
    assert SkippedIds(p, ids + more, read) == SkippedIds(p, ids, read) + SkippedIds(p, more, read);
  }

  lemma CountOneMore(p: Pass, batch: seq<Id>, read: Docs, i: nat)
    requires i < |batch| && Increasing(batch) && batch[i] in read
    ensures |FailedIds(p, batch[..i + 1])| == |FailedIds(p, batch[..i])| + (if p.fails(batch[i]) then 1 else 0)
    ensures |SkippedIds(p, batch[..i + 1], read)|
            == |SkippedIds(p, batch[..i], read)| + (if Skips(p, batch[i], read[batch[i]]) then 1 else 0)
  {
    var id := batch[i];
    assert batch[..i + 1] == batch[..i] + [id];
    IdsOfBoth(p, batch[..i], [id], read);
    assert FailedIds(p, [id]) == if p.fails(id) then {id} else {};
    assert SkippedIds(p, [id], read) == if Skips(p, id, read[id]) then {id} else {};
  }

  ghost predicate Beyond(last: Option<Id>, id: Id) { last.Some? ==> id > last.value }

  class LinkCollection {
    var docs: Docs

    constructor (docs: Docs)
      ensures this.docs == docs
    {
      this.docs := docs;
    }

    /** The next page: the smallest matching ids beyond the last one seen, in order. */
    method NextBatch(p: Pass, last: Option<Id>, limit: nat) returns (batch: seq<Id>)
      requires limit > 0
      ensures Increasing(batch) && |batch| <= limit
      ensures forall id :: id in batch ==> id in docs && p.matches(docs[id]) && Beyond(last, id)
      ensures forall id :: id in Matching(p, docs) && Beyond(last, id) && id !in batch ==>
                batch != [] && id > batch[|batch| - 1]
    {
      var rest := set id | id in docs && p.matches(docs[id]) && (last.Some? ==> id > last.value);
      ghost var all := rest;
      batch := [];
      while |batch| < limit && rest != {}
        invariant Increasing(batch) && |batch| <= limit
        invariant rest <= all && forall id :: id in all <==> id in rest || id in batch
        invariant forall id :: id in batch ==> id in all
        invariant forall id :: id in rest && batch != [] ==> id > batch[|batch| - 1]
        invariant rest != all ==> batch != []
        decreases rest
      {
        var least := Least(rest);
        batch := batch + [least];
        rest := rest - {least};
      }
    }

    method Least(ids: set<Id>) returns (least: Id)
      requires ids != {}
      ensures least in ids && forall id :: id in ids ==> least <= id
    {
      least :| least in ids;
      var rest := ids - {least};
      while rest != {}
        invariant least in ids && rest <= ids && forall id :: id in ids && id !in rest ==> least <= id
        decreases rest
      {
        var id :| id in rest;
        if id < least {
          least := id;
        }
        rest := rest - {id};
      }
    }

    /** One update: whatever was edited since the read, then the write if its filter still matches. */
    method WriteOne(p: Pass, id: Id, read: Doc) returns (failed: bool, skipped: bool)
      requires id in docs
      modifies this
      ensures docs == old(docs)[id := Outcome(p, id, read)]
      ensures failed == p.fails(id) && skipped == Skips(p, id, read)
    {
      var now := Current(p, id, read);
      var written := p.write(read, now);
      failed, skipped := p.fails(id), !p.fails(id) && written == None;
      docs := docs[id := if failed || skipped then now else written.value];
    }

    /** One unordered bulk write over a page that was read as `read`. */
    method BulkWrite(p: Pass, batch: seq<Id>, read: Docs) returns (failed: nat, skipped: nat)
      requires Increasing(batch) && forall id :: id in batch ==> id in docs && id in read && docs[id] == read[id]
      modifies this
      ensures docs.Keys == old(docs).Keys
      ensures forall id :: id in docs ==> docs[id] == if id in batch then Outcome(p, id, read[id]) else old(docs)[id]
      ensures failed == |FailedIds(p, batch)| && skipped == |SkippedIds(p, batch, read)|
    {
      failed, skipped := 0, 0;
      ghost var before := docs;
      for i := 0 to |batch|
        invariant docs.Keys == before.Keys
        invariant failed == |FailedIds(p, batch[..i])| && skipped == |SkippedIds(p, batch[..i], read)|
        invariant forall id :: id in docs ==> docs[id] == if id in batch[..i] then Outcome(p, id, read[id]) else before[id]
      {
        var id := batch[i];
        CountOneMore(p, batch, read, i);
        assert batch[..i + 1] == batch[..i] + [id];
        var failure, miss := WriteOne(p, id, read[id]);
        failed, skipped := failed + (if failure then 1 else 0), skipped + (if miss then 1 else 0);
      }
      assert batch[..|batch|] == batch;
    }

    /** The loop: each matching document is attempted exactly once, in id order, although every success
        takes one out of the filter and every failure leaves one in it. */
    method Backfill(p: Pass) returns (attempted: seq<Id>, failed: nat, skipped: nat)
      modifies this
      ensures Lists(attempted, Matching(p, old(docs)))
      ensures docs == AfterPass(p, old(docs))
      ensures failed == |FailedIds(p, attempted)| && skipped == |SkippedIds(p, attempted, old(docs))|
    {
      ghost var before := docs;
      attempted, failed, skipped := [], 0, 0;
      var last: Option<Id> := None;
      while true
        invariant Reached(p, before, docs, attempted, last)
        invariant failed == |FailedIds(p, attempted)| && skipped == |SkippedIds(p, attempted, before)|
        decreases Ahead(p, before, last)
      {
        var batch := NextBatch(p, last, BATCH);
        var read := docs;
        if batch == [] {
          break;
        }
        var failures, misses := BulkWrite(p, batch, read);
        PageReached(p, before, read, docs, attempted, last, batch);
        assert SkippedIds(p, batch, read) == SkippedIds(p, batch, before);
        IdsOfBoth(p, attempted, batch, before);
        last := Some(batch[|batch| - 1]);
        attempted, failed, skipped := attempted + batch, failed + failures, skipped + misses;
      }
    }
  }

  ghost function Ahead(p: Pass, docs: Docs, last: Option<Id>): set<Id> {
    set id | id in Matching(p, docs) && Beyond(last, id)
  }

  /** After some pages: everything matching up to the last id has been attempted, in order, and has its
      outcome; everything else is as it was. */
  ghost predicate Reached(p: Pass, before: Docs, docs: Docs, attempted: seq<Id>, last: Option<Id>) {
    && docs.Keys == before.Keys
    && Increasing(attempted)
    && (forall id :: id in attempted <==> id in Matching(p, before) && !Beyond(last, id))
    && (forall id :: id in docs ==> docs[id] == if id in attempted then Outcome(p, id, before[id]) else before[id])
  }

  lemma PageReached(p: Pass, before: Docs, read: Docs, docs: Docs, attempted: seq<Id>, last: Option<Id>, batch: seq<Id>)
    requires Reached(p, before, read, attempted, last) && batch != [] && Increasing(batch)
    requires forall id :: id in batch ==> id in read && p.matches(read[id]) && Beyond(last, id)
    requires forall id :: id in Matching(p, read) && Beyond(last, id) && id !in batch ==> id > batch[|batch| - 1]
    requires docs.Keys == read.Keys
    requires forall id :: id in docs ==> docs[id] == if id in batch then Outcome(p, id, read[id]) else read[id]
    ensures Reached(p, before, docs, attempted + batch, Some(batch[|batch| - 1]))
    ensures Ahead(p, before, Some(batch[|batch| - 1])) < Ahead(p, before, last)
  {
    var end := batch[|batch| - 1];
    var both := attempted + batch;
    assert forall id :: id in both <==> id in attempted || id in batch;
    forall id ensures id in batch <==> id in Matching(p, before) && Beyond(last, id) && id <= end {
      if id in batch {
        assert id !in attempted && read[id] == before[id];
        LastIsGreatest(batch, id);
      }
      if id in Matching(p, before) && Beyond(last, id) && id <= end {
        assert id !in attempted && read[id] == before[id];
        assert id in Matching(p, read);
      }
    }
    assert end in batch;
    forall id ensures id in both <==> id in Matching(p, before) && !Beyond(Some(end), id) {
    }
    forall i, j | 0 <= i < j < |both| ensures both[i] < both[j] {
      if i < |attempted| <= j {
        assert both[i] in attempted && both[j] in batch;
      }
    }
    assert end in Ahead(p, before, last) && end !in Ahead(p, before, Some(end));
    assert Ahead(p, before, Some(end)) <= Ahead(p, before, last);
  }

  lemma LastIsGreatest(ids: seq<Id>, id: Id)
    requires Increasing(ids) && id in ids
    ensures id <= ids[|ids| - 1]
  {
  }

  // ----- What the passes leave -----

  function PrimaryPass(parse: Parser, fails: Id -> bool, edits: Id -> Option<Doc>): Pass {
    Pass(PrimaryMatches, (read, now) => PrimaryWrite(parse, read, now), fails, edits)
  }

  function SecondaryPass(parse: Parser, fails: Id -> bool, edits: Id -> Option<Doc>): Pass {
    Pass(SecondaryMatches, (read, now) => SecondaryWrite(parse, read, now), fails, edits)
  }

  ghost predicate NoWriters(p: Pass) { forall id :: p.edits(id) == None }

  lemma PrimaryOutcome(parse: Parser, p: Pass, id: Id, d: Doc)
    requires p == PrimaryPass(parse, p.fails, p.edits) && NoWriters(p) && PrimaryMatches(d)
    ensures Outcome(p, id, d) == if p.fails(id) then d else d.(dest := DestFor(parse, d))
  {
    assert p.write(d, d) == PrimaryWrite(parse, d, d);
  }

  /** With nobody else writing, the first pass leaves exactly the failed documents matching, and a
      rerun with none failed changes nothing. */
  lemma PrimaryLeavesTheFailed(parse: Parser, p: Pass, docs: Docs)
    requires p == PrimaryPass(parse, p.fails, p.edits) && NoWriters(p)
    ensures
      var after := AfterPass(p, docs);
      && Matching(p, after) == (set id | id in Matching(p, docs) && p.fails(id))
      && (forall id :: id in Matching(p, docs) && !p.fails(id) ==> after[id] == docs[id].(dest := DestFor(parse, docs[id])))
      && ((forall id :: id in Matching(p, docs) ==> !p.fails(id)) ==> AfterPass(p, after) == after)
  {
    forall id | id in Matching(p, docs)
      ensures Outcome(p, id, docs[id]) == if p.fails(id) then docs[id] else docs[id].(dest := DestFor(parse, docs[id]))
    {
      PrimaryOutcome(parse, p, id, docs[id]);
    }
  }

  /** A stamp object without a host is selected by the second pass and never matched by its update. */
  predicate Hostless(d: Doc) { d.dest.Stamp? && d.dest.host == None }

  /** The stamp the second pass means a document to have. */
  function WithSecondary(parse: Parser, d: Doc): Doc { d.(dest := SecondarySet(parse, d, d.dest)) }

  lemma SecondaryOutcome(parse: Parser, p: Pass, id: Id, d: Doc)
    requires p == SecondaryPass(parse, p.fails, p.edits) && NoWriters(p) && SecondaryMatches(d)
    ensures Outcome(p, id, d) == if p.fails(id) || Hostless(d) then d else WithSecondary(parse, d)
    ensures SecondaryMatches(Outcome(p, id, d)) <==> p.fails(id) || Hostless(d)
  {
    assert p.write(d, d) == SecondaryWrite(parse, d, d);
    assert !Unstamped(SecondarySet(parse, d, d.dest));
  }

  /** The second pass leaves exactly the failed documents and the ones whose stamp has no host. */
  lemma SecondaryLeavesFailedAndHostless(parse: Parser, p: Pass, docs: Docs)
    requires p == SecondaryPass(parse, p.fails, p.edits) && NoWriters(p)
    ensures
      var after := AfterPass(p, docs);
      && Matching(p, after) == (set id | id in Matching(p, docs) && (p.fails(id) || Hostless(docs[id])))
      && (forall id :: id in Matching(p, docs) && !p.fails(id) && !Hostless(docs[id]) ==>
            after[id] == WithSecondary(parse, docs[id]))
  {
    forall id | id in Matching(p, docs)
      ensures Outcome(p, id, docs[id]) == if p.fails(id) || Hostless(docs[id]) then docs[id] else WithSecondary(parse, docs[id])
      ensures SecondaryMatches(Outcome(p, id, docs[id])) <==> p.fails(id) || Hostless(docs[id])
    {
      SecondaryOutcome(parse, p, id, docs[id]);
    }
  }

  // ----- Edits between the read and the write -----

  /** The service stamps as the script does, but drops the stamp when nothing parses. */
  function Restamp(parse: Parser, d: Doc): Doc {
    d.(dest := if DestFor(parse, d) == Null then Absent else DestFor(parse, d))
  }

  /** What the service can make of a document between its read and its write: nothing, an edit that
      concerns no destination, or any destination edits, after each of which it stamps anew. */
  predicate IsServiceEdit(parse: Parser, read: Doc, now: Doc) { now == read || now == Restamp(parse, now) }

  /** Some url of the document parses. */
  predicate HasSource(parse: Parser, d: Doc) {
    Parsed(parse, d).Some? || exists i :: 0 <= i < |SecondaryUrls(d)| && parse(SecondaryUrls(d)[i]).Some?
  }

  lemma NullIffNoSource(parse: Parser, d: Doc)
    requires NamesHosts(parse)
    ensures DestFor(parse, d) == Null <==> !HasSource(parse, d)
  {
    var urls, main := SecondaryUrls(d), MainHost(parse, d);
    SecondaryFieldsAreExact(parse, urls, main);
    var hosts := SecondaryFields(parse, urls, main).hosts;
    if Parsed(parse, d) == None {
      if HasSource(parse, d) {
        var i :| 0 <= i < |urls| && parse(urls[i]).Some?;
        assert HasHost(parse, urls, parse(urls[i]).value.host);
        assert parse(urls[i]).value.host in hosts;
      }
      if hosts != [] {
        assert hosts[0] in hosts && HasHost(parse, urls, hosts[0]);
      }
    }
  }

  /** The first pass lands a stamp that does not fit the document as it is then iff the service edit in
      between left the url and the geo rules alone and took away the last destination that parses: the
      service then drops the stamp, and the document looks untouched to the filter. */
  lemma PrimaryStampIsStaleIff(parse: Parser, read: Doc, now: Doc)
    requires NamesHosts(parse) && PrimaryMatches(read) && IsServiceEdit(parse, read, now)
    ensures
      var landed := PrimaryWrite(parse, read, now);
      landed.Some? && landed.value.dest != DestFor(parse, now)
      <==> now.url == read.url && now.geo == read.geo && HasSource(parse, read) && !HasSource(parse, now)
  {
    NullIffNoSource(parse, read);
    NullIffNoSource(parse, now);
  }

  /** Such an edit: a link whose url does not parse loses its one variant. */
  lemma LastVariantRemoved(parse: Parser, url: string, variant: string)
    requires NamesHosts(parse) && parse(url) == None && parse(variant).Some?
    ensures
      var read := Doc(Some(url), None, Some([variant]), None, None, Absent);
      var now := read.(variants := None);
      && PrimaryMatches(read) && IsServiceEdit(parse, read, now)
      && PrimaryWrite(parse, read, now).Some?
      && PrimaryWrite(parse, read, now).value.dest != DestFor(parse, now)
  {
    var read := Doc(Some(url), None, Some([variant]), None, None, Absent);
    var now := read.(variants := None);
    assert SecondaryUrls(read)[0] == variant;
    assert SecondaryUrls(now) == [];
    NullIffNoSource(parse, now);
    PrimaryStampIsStaleIff(parse, read, now);
  }

  /** A stamp fits: its main part is the document's parsed url, and its lists are the document's
      secondary hosts other than the stamped host. */
  predicate MainFits(parse: Parser, d: Doc) {
    && d.dest.Stamp? && d.dest.host == Some(MainHost(parse, d))
    && d.dest.registrable == (if Parsed(parse, d).Some? then Parsed(parse, d).value.registrable else "")
  }

  predicate ListsFit(parse: Parser, d: Doc) {
    && d.dest.Stamp? && d.dest.host.Some?
    && d.dest.secondary == Some(SecondaryFields(parse, SecondaryUrls(d), d.dest.host.value))
  }

  lemma ListsOnAStampFit(parse: Parser, read: Doc, now: Doc)
    requires SecondaryWrite(parse, read, now).Some? && read.dest.Stamp?
    ensures
      var after := SecondaryWrite(parse, read, now).value;
      ListsFit(parse, after) && (MainFits(parse, after) <==> MainFits(parse, now))
  {
    assert SecondaryUrls(now) == SecondaryUrls(read);
  }

  /** A whole stamp: the lists are never left out, and the main part is the read document's. */
  lemma WholeStamp(parse: Parser, read: Doc)
    requires !read.dest.Stamp?
    ensures SecondarySet(parse, read, read.dest)
            == Stamp(Some(MainHost(parse, read)),
                     if Parsed(parse, read).Some? then Parsed(parse, read).value.registrable else "",
                     Some(SecondaryFields(parse, SecondaryUrls(read), MainHost(parse, read))))
  {
    var fields := SecondaryFields(parse, SecondaryUrls(read), MainHost(parse, read));
    SecondaryFieldsAreExact(parse, SecondaryUrls(read), MainHost(parse, read));
    if fields.hosts == [] {
      assert fields.registrable == [] && fields == Secondary([], []);
    }
  }

  lemma WholeStampFits(parse: Parser, read: Doc, now: Doc)
    requires NamesHosts(parse) && SecondaryWrite(parse, read, now).Some? && !read.dest.Stamp?
    ensures
      var after := SecondaryWrite(parse, read, now).value;
      ListsFit(parse, after) && (MainFits(parse, after) <==> Parsed(parse, now) == Parsed(parse, read))
  {
    WholeStamp(parse, read);
    assert SecondaryUrls(now) == SecondaryUrls(read);
    var after := SecondaryWrite(parse, read, now).value;
    assert after.dest == SecondarySet(parse, read, read.dest);
  }

  /** The lists the second pass writes fit whatever the document has become. The main part is the
      document's own where there is a stamp; where there is none it is that of the url as it was read,
      which nothing re-asserts, so it fits iff the url still parses to the same. */
  lemma SecondaryStampFitsIff(parse: Parser, read: Doc, now: Doc)
    requires NamesHosts(parse) && SecondaryWrite(parse, read, now).Some?
    ensures
      var after := SecondaryWrite(parse, read, now).value;
      && ListsFit(parse, after)
      && (MainFits(parse, after) <==> if read.dest.Stamp? then MainFits(parse, now) else Parsed(parse, now) == Parsed(parse, read))
  {
    if read.dest.Stamp? {
      ListsOnAStampFit(parse, read, now);
    } else {
      WholeStampFits(parse, read, now);
    }
  }

  /** With only the service editing, what the second pass leaves is wrong iff the stamp it found was
      already wrong and nobody edited the document, or the document had no stamp, its url parsed, and an
      edit left no destination that parses. */
  lemma SecondaryStampIsStaleIff(parse: Parser, read: Doc, now: Doc)
    requires NamesHosts(parse) && SecondaryWrite(parse, read, now).Some? && IsServiceEdit(parse, read, now)
    ensures
      var after := SecondaryWrite(parse, read, now).value;
      !(MainFits(parse, after) && ListsFit(parse, after))
      <==> if read.dest.Stamp? then now == read && !MainFits(parse, read)
           else Parsed(parse, read).Some? && !HasSource(parse, now)
  {
    SecondaryStampFitsIff(parse, read, now);
    NullIffNoSource(parse, now);
  }

  // ----- Every stamp has a host -----

  predicate Hosted(d: Doc) { !Hostless(d) }

  ghost predicate ServiceEdits(parse: Parser, p: Pass, docs: Docs) {
    forall id :: id in docs && p.edits(id).Some? ==> IsServiceEdit(parse, docs[id], p.edits(id).value)
  }

  /** No writer, neither the service nor either pass, ever stores a stamp without a host; so on documents
      they wrote the second pass leaves exactly the failed ones. */
  lemma StampsKeepTheirHosts(parse: Parser, p: Pass, docs: Docs)
    requires p == PrimaryPass(parse, p.fails, p.edits) || p == SecondaryPass(parse, p.fails, p.edits)
    requires ServiceEdits(parse, p, docs) && forall id :: id in docs ==> Hosted(docs[id])
    ensures forall id :: id in AfterPass(p, docs) ==> Hosted(AfterPass(p, docs)[id])
  {
    forall id | id in docs && p.matches(docs[id]) ensures Hosted(Outcome(p, id, docs[id])) {
      var now := Current(p, id, docs[id]);
      assert Hosted(now);
      if p == PrimaryPass(parse, p.fails, p.edits) {
        assert p.write(docs[id], now) == PrimaryWrite(parse, docs[id], now);
      } else {
        assert p.write(docs[id], now) == SecondaryWrite(parse, docs[id], now);
      }
    }
  }

  lemma SecondaryLeavesTheFailed(parse: Parser, p: Pass, docs: Docs)
    requires p == SecondaryPass(parse, p.fails, p.edits) && NoWriters(p)
    requires forall id :: id in docs ==> Hosted(docs[id])
    ensures Matching(p, AfterPass(p, docs)) == set id | id in Matching(p, docs) && p.fails(id)
    ensures (forall id :: id in Matching(p, docs) ==> !p.fails(id)) ==> AfterPass(p, AfterPass(p, docs)) == AfterPass(p, docs)
  {
    SecondaryLeavesFailedAndHostless(parse, p, docs);
    assert forall id :: id in Matching(p, docs) ==> !Hostless(docs[id]);
    if forall id :: id in Matching(p, docs) ==> !p.fails(id) {
      NothingMatchesNothingChanges(p, AfterPass(p, docs));
    }
  }

  lemma NothingMatchesNothingChanges(p: Pass, docs: Docs)
    requires Matching(p, docs) == {}
    ensures AfterPass(p, docs) == docs
  {
    assert forall id :: id in docs ==> id !in Matching(p, docs);
  }
}
