/**
 Sorting a batch of abuse reports into accepted and rejected items, and merging the accepted ones
 into one safety event per destination host. Normalizing a reported code, resolving it to its
 destinations and parsing a destination are parameters.
 */
module ReportTriage {
  import opened Prelude

  type Target = (Option<string>, string)   // (domain, code); no domain is the system default

  datatype Item = Item(codeOrUrl: string, reason: string)

  datatype Accepted = Accepted(target: Target, item: Item, destinations: seq<string>)

  datatype Reason = InvalidInput | DuplicateInBatch | NotFound

  datatype Rejected = Rejected(index: nat, codeOrUrl: string, reason: Reason)

  /** How reported codes are read: normalization, and the existence check that yields destinations. */
  datatype Resolver = Resolver(normalize: string -> Option<Target>, resolve: Target -> Option<seq<string>>)

  // ----- Triage -----

  predicate SeenBefore(l: Resolver, items: seq<Item>, i: nat)
    requires i < |items|
  {
    exists j :: 0 <= j < i && l.normalize(items[j].codeOrUrl) == l.normalize(items[i].codeOrUrl)
  }

  /** Why item `i` is refused, if it is: decided by the item and the ones before it alone. */
  function Refusal(l: Resolver, items: seq<Item>, i: nat): Option<Reason>
    requires i < |items|
  {
    var target := l.normalize(items[i].codeOrUrl);
    if target == None then Some(InvalidInput)
    else if SeenBefore(l, items, i) then Some(DuplicateInBatch)
    else if l.resolve(target.value) == None then Some(NotFound)
    else None
  }

  function AcceptedAt(l: Resolver, items: seq<Item>, i: nat): Accepted
    requires i < |items| && Refusal(l, items, i) == None
  {
    var target := l.normalize(items[i].codeOrUrl).value;
    Accepted(target, items[i], l.resolve(target).value)
  }

  /** The two lists of the first `n` items. */
  function Triaged(l: Resolver, items: seq<Item>, n: nat): (seq<Accepted>, seq<Rejected>)
    requires n <= |items|
  {
    if n == 0 then ([], [])
    else
      var (accepted, rejected) := Triaged(l, items, n - 1);
      var refusal := Refusal(l, items, n - 1);
      if refusal == None then (accepted + [AcceptedAt(l, items, n - 1)], rejected)
      else (accepted, rejected + [Rejected(n - 1, items[n - 1].codeOrUrl, refusal.value)])
  }

  /** Every index ends in exactly one list; the rejected ones carry theirs, in order, with the reason
      the batch gives them; the accepted targets are distinct, and each is the first item to name it. */
  lemma {:induction false} TriagePartitions(l: Resolver, items: seq<Item>, n: nat)
    requires n <= |items|
    ensures
      var (accepted, rejected) := Triaged(l, items, n);
      && |accepted| + |rejected| == n
      && (forall k :: 0 <= k < |rejected| ==>
            && rejected[k].index < n
            && rejected[k] == Rejected(rejected[k].index, items[rejected[k].index].codeOrUrl, rejected[k].reason)
            && Refusal(l, items, rejected[k].index) == Some(rejected[k].reason))
      && (forall j, k :: 0 <= j < k < |rejected| ==> rejected[j].index < rejected[k].index)
      && (forall j, k :: 0 <= j < k < |accepted| ==> accepted[j].target != accepted[k].target)
      && (forall a :: a in accepted ==> IsFirstToName(l, items, n, a))
  {
    if n > 0 {
      TriagePartitions(l, items, n - 1);
      var (accepted, rejected) := Triaged(l, items, n - 1);
      forall a | a in accepted ensures IsFirstToName(l, items, n, a) {
        var i: nat :| i < n - 1 && Refusal(l, items, i) == None && a == AcceptedAt(l, items, i);
      }
      if Refusal(l, items, n - 1) == None {
        var last := AcceptedAt(l, items, n - 1);
        assert IsFirstToName(l, items, n, last);
        forall a | a in accepted ensures a.target != last.target {
          var i: nat :| i < n - 1 && Refusal(l, items, i) == None && a == AcceptedAt(l, items, i);
          assert l.normalize(items[i].codeOrUrl) != l.normalize(items[n - 1].codeOrUrl);
        }
      }
    }
  }

  ghost predicate IsFirstToName(l: Resolver, items: seq<Item>, n: nat, a: Accepted)
    requires n <= |items|
  {
    exists i: nat :: i < n && Refusal(l, items, i) == None && a == AcceptedAt(l, items, i)
  }

  /** Item `i` is in the list it belongs in: refused as unreadable when it names no target, as a duplicate
      when an earlier item names the same one, as unknown when the target does not exist, and accepted
      with the target's destinations otherwise. */
  ghost predicate IsDecided(l: Resolver, items: seq<Item>, i: nat, accepted: seq<Accepted>, rejected: seq<Rejected>)
    requires i < |items|
  {
    var item := items[i];
    match l.normalize(item.codeOrUrl)
    case None => Rejected(i, item.codeOrUrl, InvalidInput) in rejected
    case Some(target) =>
      if exists j :: 0 <= j < i && l.normalize(items[j].codeOrUrl) == Some(target)
      then Rejected(i, item.codeOrUrl, DuplicateInBatch) in rejected
      else
        match l.resolve(target)
        case None => Rejected(i, item.codeOrUrl, NotFound) in rejected
        case Some(destinations) => Accepted(target, item, destinations) in accepted
  }

  lemma {:induction false} TriageDecidesEach(l: Resolver, items: seq<Item>, n: nat)
    requires n <= |items|
    ensures forall i: nat :: i < n ==> IsDecided(l, items, i, Triaged(l, items, n).0, Triaged(l, items, n).1)
  {
    if n > 0 {
      TriageDecidesEach(l, items, n - 1);
      var (accepted, rejected) := Triaged(l, items, n - 1);
      var (more, refused) := Triaged(l, items, n);
      assert forall a :: a in accepted ==> a in more;
      assert forall r :: r in rejected ==> r in refused;
      if Refusal(l, items, n - 1) == None {
        assert more[|accepted|] == AcceptedAt(l, items, n - 1);
      } else {
        assert refused[|rejected|] == Rejected(n - 1, items[n - 1].codeOrUrl, Refusal(l, items, n - 1).value);
      }
      forall i: nat | i < n - 1 ensures IsDecided(l, items, i, more, refused) {
        assert IsDecided(l, items, i, accepted, rejected);
      }
    }
  }

  /** The loop: a target is remembered as soon as it is named, so a second naming is a duplicate even
      when the first turned out not to exist. */
  method Triage(l: Resolver, items: seq<Item>) returns (accepted: seq<Accepted>, rejected: seq<Rejected>)
    ensures (accepted, rejected) == Triaged(l, items, |items|)
    ensures |accepted| + |rejected| == |items|
    ensures forall i: nat :: i < |items| ==> IsDecided(l, items, i, accepted, rejected)
  {
    TriagePartitions(l, items, |items|);
    TriageDecidesEach(l, items, |items|);
    var seen: set<Target> := {};
    accepted, rejected := [], [];
    for i := 0 to |items|
      invariant (accepted, rejected) == Triaged(l, items, i)
      invariant forall t :: t in seen <==> exists j :: 0 <= j < i && l.normalize(items[j].codeOrUrl) == Some(t)
    {
      var item := items[i];
      var target := l.normalize(item.codeOrUrl);
      if target == None {
        rejected := rejected + [Rejected(i, item.codeOrUrl, InvalidInput)];
      } else if target.value in seen {
        rejected := rejected + [Rejected(i, item.codeOrUrl, DuplicateInBatch)];
      } else {
        seen := seen + {target.value};
        var destinations := l.resolve(target.value);
        if destinations.Some? {
          accepted := accepted + [Accepted(target.value, item, destinations.value)];
        } else {
          rejected := rejected + [Rejected(i, item.codeOrUrl, NotFound)];
        }
      }
    }
  }

  // ----- One event per destination host -----

  datatype Parts = Parts(host: string, registrable: string)

  type Parser = string -> Option<Parts>

  datatype Event = Event(
    url: string,
    host: string,
    registrable: string,
    reasons: set<string>,
    codes: seq<string>,
    linkDestinations: Option<seq<string>>)

  /** An accepted item as the merge sees it. */
  datatype Report = Report(code: string, reason: string, destinations: seq<string>)

  function Known(e: Event): seq<string> {
    if e.linkDestinations.Some? && e.linkDestinations.value != [] then e.linkDestinations.value else [e.url]
  }

  predicate Hits(parse: Parser, urls: seq<string>, host: string) {
    exists i :: 0 <= i < |urls| && parse(urls[i]).Some? && parse(urls[i]).value.host == host
  }

  /** The reports among the first `i`, and the first `j` destinations of report `i`, that reach the host. */
  function Reaching(parse: Parser, reports: seq<Report>, i: nat, j: nat, host: string): set<nat> {
    set k: nat | k < |reports| &&
      ((k < i && Hits(parse, reports[k].destinations, host))
       || (k == i && j <= |reports[k].destinations| && Hits(parse, reports[k].destinations[..j], host)))
  }

  function ReasonsOf(reports: seq<Report>, ks: set<nat>): set<string> {
    set k | k in ks && k < |reports| :: reports[k].reason
  }

  function CodesOf(reports: seq<Report>, ks: set<nat>): set<string> {
    set k | k in ks && k < |reports| :: reports[k].code
  }

  function DestinationsOf(reports: seq<Report>, ks: set<nat>): set<string> {
    set k, u | k in ks && k < |reports| && u in reports[k].destinations :: u
  }

  /** The event is the union of exactly these reports; destinations are listed when there are several. */
  ghost predicate IsUnion(e: Event, parse: Parser, reports: seq<Report>, ks: set<nat>, host: string) {
    && e.host == host
    && parse(e.url) == Some(Parts(host, e.registrable))
    && e.reasons == ReasonsOf(reports, ks)
    && Members(e.codes) == CodesOf(reports, ks)
    && Members(Known(e)) == DestinationsOf(reports, ks)
    && (forall x, y :: 0 <= x < y < |e.codes| ==> e.codes[x] != e.codes[y])
    && (e.linkDestinations.Some? ==> |e.linkDestinations.value| > 1)
  }

  ghost predicate AllMerged(byHost: map<string, Event>, parse: Parser, reports: seq<Report>, i: nat, j: nat) {
    forall host ::
      var ks := Reaching(parse, reports, i, j, host);
      && (host in byHost <==> ks != {})
      && (host in byHost ==> IsUnion(byHost[host], parse, reports, ks, host))
  }

  function Merge(e: Event, r: Report): Event {
    var known := Known(e);
    var merged := known + Fresh(r.destinations, known);
    e.(reasons := e.reasons + {r.reason},
       codes := if r.code in e.codes then e.codes else e.codes + [r.code],
       linkDestinations := if |merged| > 1 then Some(merged) else e.linkDestinations)
  }

  function Fresh(urls: seq<string>, known: seq<string>): (added: seq<string>)
    ensures forall u :: u in added <==> u in urls && u !in known
  {
    if urls == [] then []
    else
      var rest := Fresh(urls[1..], known);
      assert urls == [urls[0]] + urls[1..];
      if urls[0] in known then rest else [urls[0]] + rest
  }

  function NewEvent(url: string, parts: Parts, r: Report): Event {
    Event(url, parts.host, parts.registrable, {r.reason}, [r.code],
          if |r.destinations| > 1 then Some(r.destinations) else None)
  }

  lemma NewEventIsUnion(parse: Parser, reports: seq<Report>, i: nat, url: string)
    requires i < |reports| && url in reports[i].destinations && parse(url).Some?
    ensures IsUnion(NewEvent(url, parse(url).value, reports[i]), parse, reports, {i}, parse(url).value.host)
  {
    var e := NewEvent(url, parse(url).value, reports[i]);
    assert Members(e.codes) == {reports[i].code} == CodesOf(reports, {i});
    assert Members(Known(e)) == DestinationsOf(reports, {i});
  }

  lemma MergeIsUnion(e: Event, parse: Parser, reports: seq<Report>, ks: set<nat>, i: nat, host: string)
    requires i < |reports| && IsUnion(e, parse, reports, ks, host)
    ensures IsUnion(Merge(e, reports[i]), parse, reports, ks + {i}, host)
  {
    var r, after := reports[i], Merge(e, reports[i]);
    assert ReasonsOf(reports, ks + {i}) == ReasonsOf(reports, ks) + {r.reason};
    assert CodesOf(reports, ks + {i}) == CodesOf(reports, ks) + {r.code};
    assert Members(after.codes) == Members(e.codes) + {r.code};
    assert DestinationsOf(reports, ks + {i}) == DestinationsOf(reports, ks) + Members(r.destinations);
    var merged := Known(e) + Fresh(r.destinations, Known(e));
    assert Members(merged) == Members(Known(e)) + Members(r.destinations);
  }

  lemma ReachingOneMore(parse: Parser, reports: seq<Report>, i: nat, j: nat, host: string)
    requires i < |reports| && j < |reports[i].destinations|
    ensures
      var p := parse(reports[i].destinations[j]);
      Reaching(parse, reports, i, j + 1, host)
      == Reaching(parse, reports, i, j, host) + (if p.Some? && p.value.host == host then {i} else {})
  {
    var urls := reports[i].destinations;
    assert urls[..j + 1] == urls[..j] + [urls[j]];
  }

  lemma ReachingNextReport(parse: Parser, reports: seq<Report>, i: nat, host: string)
    requires i < |reports|
    ensures Reaching(parse, reports, i + 1, 0, host) == Reaching(parse, reports, i, |reports[i].destinations|, host)
  {
    assert reports[i].destinations[..|reports[i].destinations|] == reports[i].destinations;
  }

  /** The reports that reach a host. */
  function AllReaching(parse: Parser, reports: seq<Report>, host: string): set<nat> {
    set k: nat | k < |reports| && Hits(parse, reports[k].destinations, host)
  }

  /** Exactly one event per host some destination parses to, each the union of the reports reaching it:
      their reasons, their codes without repetition, and all of their destinations. */
  method MergeEvents(parse: Parser, reports: seq<Report>) returns (byHost: map<string, Event>)
    ensures forall host :: host in byHost <==> AllReaching(parse, reports, host) != {}
    ensures forall host :: host in byHost ==> IsUnion(byHost[host], parse, reports, AllReaching(parse, reports, host), host)
  {
    byHost := map[];
    NothingMerged(parse, reports);
    for i := 0 to |reports|
      invariant AllMerged(byHost, parse, reports, i, 0)
    {
      byHost := MergeReport(parse, reports, i, byHost);
    }
    EveryReportMerged(byHost, parse, reports);
  }

  /** The destinations of one report, in order. */
  method MergeReport(parse: Parser, reports: seq<Report>, i: nat, events: map<string, Event>) returns (byHost: map<string, Event>)
    requires i < |reports| && AllMerged(events, parse, reports, i, 0)
    ensures AllMerged(byHost, parse, reports, i + 1, 0)
  {
    var r := reports[i];
    byHost := events;
    for j := 0 to |r.destinations|
      invariant AllMerged(byHost, parse, reports, i, j)
    {
      var url := r.destinations[j];
      var parts := parse(url);
      ghost var before := byHost;
      if parts.Some? {
        var host := parts.value.host;
        byHost := byHost[host := if host in byHost then Merge(byHost[host], r) else NewEvent(url, parts.value, r)];
      }
      OneMoreMerged(before, byHost, parse, reports, i, j);
    }
    NextReportMerged(byHost, parse, reports, i);
  }

  lemma NothingMerged(parse: Parser, reports: seq<Report>)
    ensures AllMerged(map[], parse, reports, 0, 0)
  {
    forall host ensures Reaching(parse, reports, 0, 0, host) == {} {
    }
  }

  lemma NextReportMerged(byHost: map<string, Event>, parse: Parser, reports: seq<Report>, i: nat)
    requires i < |reports| && AllMerged(byHost, parse, reports, i, |reports[i].destinations|)
    ensures AllMerged(byHost, parse, reports, i + 1, 0)
  {
    forall host
      ensures Reaching(parse, reports, i + 1, 0, host) == Reaching(parse, reports, i, |reports[i].destinations|, host)
    {
      ReachingNextReport(parse, reports, i, host);
    }
  }

  lemma EveryReportMerged(byHost: map<string, Event>, parse: Parser, reports: seq<Report>)
    requires AllMerged(byHost, parse, reports, |reports|, 0)
    ensures forall host :: host in byHost <==> AllReaching(parse, reports, host) != {}
    ensures forall host :: host in byHost ==> IsUnion(byHost[host], parse, reports, AllReaching(parse, reports, host), host)
  {
    forall host ensures Reaching(parse, reports, |reports|, 0, host) == AllReaching(parse, reports, host) {
    }
  }

  lemma OneMoreMerged(before: map<string, Event>, after: map<string, Event>, parse: Parser, reports: seq<Report>, i: nat, j: nat)
    requires i < |reports| && j < |reports[i].destinations| && AllMerged(before, parse, reports, i, j)
    requires
      var r := reports[i];
      var url := r.destinations[j];
      var parts := parse(url);
      after == if parts == None then before
               else before[parts.value.host := if parts.value.host in before then Merge(before[parts.value.host], r)
                                               else NewEvent(url, parts.value, r)]
    ensures AllMerged(after, parse, reports, i, j + 1)
  {
    var parts := parse(reports[i].destinations[j]);
    forall host
      ensures
        var ks := Reaching(parse, reports, i, j + 1, host);
        && (host in after <==> ks != {})
        && (host in after ==> IsUnion(after[host], parse, reports, ks, host))
    {
      ReachingOneMore(parse, reports, i, j, host);
      if parts.Some? && parts.value.host == host {
        if host in before {
          MergeIsUnion(before[host], parse, reports, Reaching(parse, reports, i, j, host), i, host);
        } else {
          NewEventIsUnion(parse, reports, i, reports[i].destinations[j]);
        }
      }
    }
  }
}
