/**
 Compiling statistics filters to a query over the clicks collection: a small query language with its
 evaluator, the builder that fills a query in place, and what a click must satisfy to be counted.
 */
module StatsQuery {
  import opened Prelude

  type ObjectId = nat
  type Time = int

  datatype Dimension =
    | Browser | Os | Device | Country | City | Referrer | ShortCode | UrlId
    | UtmSource | UtmMedium | UtmCampaign | Tag | TagId | Variant | TimeBucket

  /** Stored fields: most dimensions are stored under their own name. */
  datatype Field = MetaOwnerId | MetaUrlId | MetaShortCode | VariantIndex | ClickedAt | Plain(dimension: Dimension)

  datatype Value = Null | Str(s: string) | Int(n: nat) | Oid(id: ObjectId)

  datatype Click = Click(fields: map<Field, Value>, at: Time)

  type Filters = map<Dimension, seq<string>>

  /** Spelling of object ids: the canonical one, and a parser that may accept others. */
  datatype Codec = Codec(parse: string -> ObjectId, show: ObjectId -> string)

  ghost predicate RoundTrips(c: Codec) { forall id :: c.parse(c.show(id)) == id }

  function Stored(click: Click, f: Field): Value { if f in click.fields then click.fields[f] else Null }

  // ----- The query language -----

  datatype Cond = Equals(value: Value) | In(values: seq<Value>) | Between(from: Time, until: Time) | Missing

  type Arm = (Field, Cond)

  /** A match document: one condition per field, an optional $or, and an $and of further $ors. */
  datatype Match = Match(conds: map<Field, Cond>, anyOf: Option<seq<Arm>>, allOf: seq<seq<Arm>>)

  predicate Holds(f: Field, c: Cond, click: Click) {
    match c
    case Equals(v) => f in click.fields && click.fields[f] == v
    case In(vs) => Stored(click, f) in vs
    case Between(from, until) => from <= click.at <= until
    case Missing => f !in click.fields
  }

  predicate SomeArm(group: seq<Arm>, click: Click) {
    exists i :: 0 <= i < |group| && Holds(group[i].0, group[i].1, click)
  }

  predicate AllConds(conds: map<Field, Cond>, click: Click) { forall f :: f in conds ==> Holds(f, conds[f], click) }

  predicate AllGroups(groups: seq<seq<Arm>>, click: Click) {
    forall i :: 0 <= i < |groups| ==> SomeArm(groups[i], click)
  }

  predicate Matches(m: Match, click: Click) {
    AllConds(m.conds, click) && (m.anyOf.Some? ==> SomeArm(m.anyOf.value, click)) && AllGroups(m.allOf, click)
  }

  // ----- What a filter asks of a click -----

  function Sentinel(d: Dimension): Option<string> {
    match d
    case Referrer => Some("Direct")
    case Device => Some("unknown")
    case UtmSource | UtmMedium | UtmCampaign => Some("(none)")
    case Variant => Some("(default)")
    case _ => None
  }

  function FieldOf(d: Dimension): Field {
    match d
    case ShortCode => MetaShortCode
    case UrlId => MetaUrlId
    case Variant => VariantIndex
    case _ => Plain(d)
  }

  predicate IsDigits(s: string) { s != "" && forall i :: 0 <= i < |s| ==> '0' <= s[i] <= '9' }

  function IntOf(s: string): nat
    requires forall i :: 0 <= i < |s| ==> '0' <= s[i] <= '9'
  {
    if s == "" then 0 else 10 * IntOf(s[..|s| - 1]) + (s[|s| - 1] as int - '0' as int)
  }

  /** A wire value in its stored type: variant indices are ints. */
  function StoredValue(d: Dimension, s: string): Value {
    if d == Variant && IsDigits(s) then Int(IntOf(s)) else Str(s)
  }

  predicate IsBlank(v: Value) { v == Null || v == Str("") }

  /** The click carries one of the values, or carries none and the values name the dimension's sentinel. */
  predicate Passes(c: Codec, d: Dimension, values: seq<string>, click: Click) {
    var v := Stored(click, FieldOf(d));
    if d == UrlId then exists i :: 0 <= i < |values| && v == Oid(c.parse(values[i]))
    else
      || (exists i :: 0 <= i < |values| && v == StoredValue(d, values[i]))
      || (Sentinel(d).Some? && Sentinel(d).value in values && IsBlank(v))
  }

  /** Every non-empty filter passes; a filter on the link of a query already locked to one is ignored. */
  ghost predicate PassesAll(c: Codec, filters: Filters, locked: bool, click: Click) {
    forall d :: d in filters && filters[d] != [] && !(locked && d == UrlId) ==> Passes(c, d, filters[d], click)
  }

  /** What one value asks for, dimension by dimension: codes and links are matched where clicks keep them,
      and the values a report shows for clicks that carry none also select those. */
  lemma OneValueMeans(c: Codec, d: Dimension, x: string, click: Click)
    ensures Passes(c, d, [x], click) <==>
      var v := Stored(click, Plain(d));
      var none := v == Null || v == Str("");
      match d
      case ShortCode => Stored(click, MetaShortCode) == Str(x)
      case UrlId => Stored(click, MetaUrlId) == Oid(c.parse(x))
      case Referrer => v == Str(x) || (x == "Direct" && none)
      case Device => v == Str(x) || (x == "unknown" && none)
      case UtmSource => v == Str(x) || (x == "(none)" && none)
      case UtmMedium => v == Str(x) || (x == "(none)" && none)
      case UtmCampaign => v == Str(x) || (x == "(none)" && none)
      case Variant =>
        var index := Stored(click, VariantIndex);
        if IsDigits(x) then index == Int(IntOf(x))
        else index == Str(x) || (x == "(default)" && (index == Null || index == Str("")))
      case _ => v == Str(x)
  {
    assert [x][0] == x;
    assert "(default)"[0] == '(';
  }

  /** A list of values selects what its values select one by one. */
  lemma FilterIsTheUnion(c: Codec, d: Dimension, values: seq<string>, click: Click)
    ensures Passes(c, d, values, click) <==> exists i :: 0 <= i < |values| && Passes(c, d, [values[i]], click)
  {
    var v := Stored(click, FieldOf(d));
    forall i | 0 <= i < |values|
      ensures Passes(c, d, [values[i]], click) <==>
        if d == UrlId then v == Oid(c.parse(values[i]))
        else v == StoredValue(d, values[i]) || (Sentinel(d) == Some(values[i]) && IsBlank(v))
    {
      assert [values[i]][0] == values[i];
    }
  }

  // ----- The builder -----

  function StoredValues(d: Dimension, values: seq<string>): seq<Value> {
    seq(|values|, i requires 0 <= i < |values| => StoredValue(d, values[i]))
  }

  function IdValues(c: Codec, values: seq<string>): seq<Value> {
    seq(|values|, i requires 0 <= i < |values| => Oid(c.parse(values[i])))
  }

  lemma InStoredValues(d: Dimension, values: seq<string>, v: Value)
    ensures v in StoredValues(d, values) <==> exists i :: 0 <= i < |values| && v == StoredValue(d, values[i])
  {
    assert forall i :: 0 <= i < |values| ==> StoredValues(d, values)[i] == StoredValue(d, values[i]);
  }

  lemma InIdValues(c: Codec, values: seq<string>, v: Value)
    ensures v in IdValues(c, values) <==> exists i :: 0 <= i < |values| && v == Oid(c.parse(values[i]))
  {
    assert forall i :: 0 <= i < |values| ==> IdValues(c, values)[i] == Oid(c.parse(values[i]));
  }

  function SentinelGroup(d: Dimension, values: seq<string>): seq<Arm> {
    [(FieldOf(d), In(StoredValues(d, values))), (FieldOf(d), In([Null, Str("")])), (FieldOf(d), Missing)]
  }

  lemma SentinelGroupMeans(c: Codec, d: Dimension, values: seq<string>, click: Click)
    requires d != UrlId && Sentinel(d).Some? && Sentinel(d).value in values
    ensures SomeArm(SentinelGroup(d, values), click) <==> Passes(c, d, values, click)
  {
    var group, v := SentinelGroup(d, values), Stored(click, FieldOf(d));
    InStoredValues(d, values, v);
    assert SomeArm(group, click) <==>
      Holds(group[0].0, group[0].1, click) || Holds(group[1].0, group[1].1, click) || Holds(group[2].0, group[2].1, click);
  }

  lemma FieldsDiffer(d: Dimension, e: Dimension)
    requires d != e
    ensures FieldOf(d) != FieldOf(e)
  {
  }

  /** A match document under construction. */
  class MatchBuilder {
    var conds: map<Field, Cond>
    var orGroups: seq<seq<Arm>>

    constructor (conds: map<Field, Cond>, orGroups: seq<seq<Arm>>)
      ensures this.conds == conds && this.orGroups == orGroups
    {
      this.conds, this.orGroups := conds, orGroups;
    }

    /** One dimension: a condition on its field, or a group when its sentinel is asked for. */
    method ApplyDimension(c: Codec, d: Dimension, values: seq<string>)
      requires values != [] && (d != UrlId ==> FieldOf(d) !in conds)
      modifies this
      ensures Meant(old(conds), old(orGroups), conds, orGroups, c, d, values, d == UrlId && MetaUrlId in old(conds))
      ensures old(conds).Keys <= conds.Keys <= old(conds).Keys + {FieldOf(d)}
    {
      ghost var before, groups := conds, orGroups;
      if d == ShortCode {
        conds := conds[MetaShortCode := In(StoredValues(d, values))];
      } else if d == UrlId {
        if MetaUrlId in conds {
          return;
        }
        conds := conds[MetaUrlId := In(IdValues(c, values))];
      } else if Sentinel(d).Some? && Sentinel(d).value in values {
        orGroups := orGroups + [SentinelGroup(d, values)];
      } else {
        conds := conds[FieldOf(d) := In(StoredValues(d, values))];
      }
      forall click ensures Selects(conds, orGroups, click) <==> Selects(before, groups, click) && Passes(c, d, values, click) {
        if orGroups != groups {
          SentinelGroupMeans(c, d, values, click);
          OneMoreGroup(before, groups, SentinelGroup(d, values), click);
        } else {
          InStoredValues(d, values, Stored(click, FieldOf(d)));
          InIdValues(c, values, Stored(click, FieldOf(d)));
          OneMoreCond(before, groups, FieldOf(d), conds[FieldOf(d)], click);
        }
      }
    }

    /** The loop over the filters, in any order. */
    method ApplyDimensionFilters(c: Codec, filters: Filters)
      requires forall d :: d in filters && d != UrlId ==> FieldOf(d) !in conds
      modifies this
      ensures forall click :: Selects(conds, orGroups, click) <==>
                Selects(old(conds), old(orGroups), click) && PassesAll(c, filters, MetaUrlId in old(conds), click)
    {
      ghost var before, groups := conds, orGroups;
      var todo := filters.Keys;
      ghost var locked := MetaUrlId in conds;
      while todo != {}
        invariant todo <= filters.Keys
        invariant forall d :: d in todo && d != UrlId ==> FieldOf(d) !in conds
        invariant UrlId in todo ==> (MetaUrlId in conds <==> locked)
        invariant forall click :: Selects(conds, orGroups, click) <==>
                    Selects(before, groups, click) && PassesAll(c, Restrict(filters, todo), locked, click)
        decreases todo
      {
        var d :| d in todo;
        ghost var at, held, left := conds, orGroups, todo;
        todo := todo - {d};
        if filters[d] != [] {
          ApplyDimension(c, d, filters[d]);
          forall e | e in todo ensures FieldOf(e) != FieldOf(d) {
            FieldsDiffer(d, e);
          }
        }
        forall click ensures Selects(conds, orGroups, click) <==>
                       Selects(before, groups, click) && PassesAll(c, Restrict(filters, todo), locked, click)
        {
          OneMoreFilter(c, filters, left, d, locked, click);
        }
      }
      assert Restrict(filters, {}) == filters;
    }

    /** One group is the $or; several nest under $and. */
    method MergeOrGroups() returns (m: Match)
      ensures forall click :: Matches(m, click) <==> Selects(conds, orGroups, click)
    {
      if |orGroups| == 1 {
        m := Match(conds, Some(orGroups[0]), []);
      } else {
        m := Match(conds, None, orGroups);
      }
    }
  }

  predicate Selects(conds: map<Field, Cond>, groups: seq<seq<Arm>>, click: Click) {
    AllConds(conds, click) && AllGroups(groups, click)
  }

  ghost predicate Meant(conds: map<Field, Cond>, groups: seq<seq<Arm>>, after: map<Field, Cond>, grown: seq<seq<Arm>>,
                        c: Codec, d: Dimension, values: seq<string>, ignored: bool)
  {
    forall click :: Selects(after, grown, click) <==>
      Selects(conds, groups, click) && (ignored || Passes(c, d, values, click))
  }

  /** The filters whose turn has come. */
  function Restrict(filters: Filters, todo: set<Dimension>): Filters { map d | d in filters && d !in todo :: filters[d] }

  lemma OneMoreFilter(c: Codec, filters: Filters, todo: set<Dimension>, d: Dimension, locked: bool, click: Click)
    requires d in todo && todo <= filters.Keys
    ensures PassesAll(c, Restrict(filters, todo - {d}), locked, click) <==>
              PassesAll(c, Restrict(filters, todo), locked, click)
              && (filters[d] != [] && !(locked && d == UrlId) ==> Passes(c, d, filters[d], click))
  {
    var fewer, more := Restrict(filters, todo), Restrict(filters, todo - {d});
    assert more == fewer[d := filters[d]];
    assert d !in fewer && more[d] == filters[d];
    assert forall e :: e in fewer ==> e in more && more[e] == fewer[e];
  }

  lemma OneMoreGroup(conds: map<Field, Cond>, groups: seq<seq<Arm>>, group: seq<Arm>, click: Click)
    ensures Selects(conds, groups + [group], click) <==> Selects(conds, groups, click) && SomeArm(group, click)
  {
    assert (groups + [group])[|groups|] == group;
    assert forall i :: 0 <= i < |groups| ==> (groups + [group])[i] == groups[i];
  }

  lemma OneMoreCond(conds: map<Field, Cond>, groups: seq<seq<Arm>>, f: Field, cond: Cond, click: Click)
    requires f !in conds
    ensures Selects(conds[f := cond], groups, click) <==> Selects(conds, groups, click) && Holds(f, cond, click)
  {
    var after := conds[f := cond];
    assert f in after && after[f] == cond;
    assert forall g :: g in conds ==> g in after && after[g] == conds[g];
  }

  // ----- The two queries -----

  /** Who may be counted for an account: its own stamp, or a link it claimed. */
  predicate Scoped(owner: ObjectId, claimed: seq<ObjectId>, click: Click) {
    || Stored(click, MetaOwnerId) == Oid(owner)
    || exists i :: 0 <= i < |claimed| && Stored(click, MetaUrlId) == Oid(claimed[i])
  }

  function Ids(ids: seq<ObjectId>): seq<Value> { seq(|ids|, i requires 0 <= i < |ids| => Oid(ids[i])) }

  function OwnerGroup(owner: ObjectId, claimed: seq<ObjectId>): seq<Arm> {
    [(MetaOwnerId, Equals(Oid(owner))), (MetaUrlId, In(Ids(claimed)))]
  }

  lemma OwnerGroupMeans(owner: ObjectId, claimed: seq<ObjectId>, click: Click)
    ensures SomeArm(OwnerGroup(owner, claimed), click) <==> Scoped(owner, claimed, click)
  {
    var group, v := OwnerGroup(owner, claimed), Stored(click, MetaUrlId);
    assert forall i :: 0 <= i < |claimed| ==> Ids(claimed)[i] == Oid(claimed[i]);
    assert SomeArm(group, click) <==> Holds(group[0].0, group[0].1, click) || Holds(group[1].0, group[1].1, click);
  }

  /** The account query selects exactly the clicks in scope, in the window, that pass every filter. */
  method BuildClickQuery(c: Codec, owner: ObjectId, from: Time, until: Time, filters: Filters, claimed: seq<ObjectId>)
    returns (m: Match)
    ensures forall click :: Matches(m, click) <==>
              Scoped(owner, claimed, click) && from <= click.at <= until && PassesAll(c, filters, false, click)
  {
    var b: MatchBuilder;
    if claimed != [] {
      b := new MatchBuilder(map[ClickedAt := Between(from, until)], [OwnerGroup(owner, claimed)]);
    } else {
      b := new MatchBuilder(map[MetaOwnerId := Equals(Oid(owner)), ClickedAt := Between(from, until)], []);
    }
    forall click ensures Selects(b.conds, b.orGroups, click) <==> Scoped(owner, claimed, click) && from <= click.at <= until {
      BaseMeans(owner, claimed, from, until, b.conds, b.orGroups, click);
    }
    b.ApplyDimensionFilters(c, filters);
    m := b.MergeOrGroups();
  }

  lemma BaseMeans(owner: ObjectId, claimed: seq<ObjectId>, from: Time, until: Time, conds: map<Field, Cond>,
                  groups: seq<seq<Arm>>, click: Click)
    requires
      if claimed != [] then conds == map[ClickedAt := Between(from, until)] && groups == [OwnerGroup(owner, claimed)]
      else conds == map[MetaOwnerId := Equals(Oid(owner)), ClickedAt := Between(from, until)] && groups == []
    ensures Selects(conds, groups, click) <==> Scoped(owner, claimed, click) && from <= click.at <= until
  {
    var window := Between(from, until);
    assert Holds(ClickedAt, window, click) <==> from <= click.at <= until;
    if claimed != [] {
      OwnerGroupMeans(owner, claimed, click);
      assert groups[0] == OwnerGroup(owner, claimed);
      assert AllGroups(groups, click) <==> SomeArm(groups[0], click);
      assert AllConds(conds, click) <==> Holds(ClickedAt, conds[ClickedAt], click);
    } else {
      assert AllConds(conds, click) <==>
        Holds(ClickedAt, conds[ClickedAt], click) && Holds(MetaOwnerId, conds[MetaOwnerId], click);
    }
  }

  /** The per-link query selects exactly that link's clicks in the window that pass the other filters:
      no filter, and no filter on links in particular, widens it. */
  method BuildLinkQuery(c: Codec, link: ObjectId, from: Time, until: Time, filters: Filters) returns (m: Match)
    ensures forall click :: Matches(m, click) <==>
              Stored(click, MetaUrlId) == Oid(link) && from <= click.at <= until && PassesAll(c, filters, true, click)
  {
    var b := new MatchBuilder(map[MetaUrlId := Equals(Oid(link)), ClickedAt := Between(from, until)], []);
    forall click ensures Selects(b.conds, b.orGroups, click) <==> Stored(click, MetaUrlId) == Oid(link) && from <= click.at <= until {
      assert AllConds(b.conds, click) <==>
        Holds(ClickedAt, b.conds[ClickedAt], click) && Holds(MetaUrlId, b.conds[MetaUrlId], click);
    }
    b.ApplyDimensionFilters(c, filters);
    m := b.MergeOrGroups();
  }

  // ----- A filter against the bucket it names -----

  /** Dimensions whose stored values are the strings shown. */
  predicate IsTextual(d: Dimension) { d in {Browser, Os, Device, City, Referrer, UtmSource, UtmMedium, UtmCampaign} }

  /** The bucket a click is shown in when grouped: its value, or the default for a null or missing one. */
  function Bucket(d: Dimension, click: Click): string
    requires Stored(click, FieldOf(d)).Str? || Stored(click, FieldOf(d)).Null?
  {
    var v := Stored(click, FieldOf(d));
    if v.Str? then v.s else if Sentinel(d).Some? then Sentinel(d).value else "Unknown"
  }

  /** Filtering by a bucket's label selects the clicks shown in it, but for two kinds: a null value of a
      dimension without a sentinel is shown as "Unknown" and never selected, and an empty string is
      selected by the sentinel and shown in a bucket of its own. */
  lemma FilterSelectsItsBucketIff(c: Codec, d: Dimension, shown: string, click: Click)
    requires IsTextual(d) && (Stored(click, FieldOf(d)).Str? || Stored(click, FieldOf(d)).Null?)
    ensures
      var v := Stored(click, FieldOf(d));
      Passes(c, d, [shown], click) <==>
        || (Bucket(d, click) == shown && (v.Str? || Sentinel(d).Some?))
        || (v == Str("") && Sentinel(d) == Some(shown))
  {
    assert [shown][0] == shown;
  }

  /** Decimal spelling, without leading zeros. */
  function Show(n: nat): (s: string)
    ensures IsDigits(s)
  {
    if n < 10 then ["0123456789"[n]] else Show(n / 10) + ["0123456789"[n % 10]]
  }

  lemma DigitValue(d: nat)
    requires d < 10
    ensures "0123456789"[d] as int == '0' as int + d
  {
  }

  /** Reading undoes spelling. */
  lemma {:induction false} IntOfShow(n: nat)
    ensures IntOf(Show(n)) == n
  {
    DigitValue(n % 10);
    if n < 10 {
      assert Show(n)[..0] == "";
    } else {
      IntOfShow(n / 10);
      assert Show(n)[..|Show(n)| - 1] == Show(n / 10);
    }
  }

  /** Every spelling of digits that starts with no zero is the one its number is shown by. */
  lemma {:induction false} ShowIntOf(s: string)
    requires IsDigits(s) && (|s| > 1 ==> s[0] != '0')
    ensures Show(IntOf(s)) == s
    ensures |s| > 1 ==> IntOf(s) >= 10
  {
    var init, last := s[..|s| - 1], s[|s| - 1];
    assert s == init + [last];
    var d := last as int - '0' as int;
    DigitValue(d);
    if init == "" {
      assert IntOf(init) == 0 && IntOf(s) == d;
    } else {
      ShowIntOf(init);
      assert IntOf(init) > 0 by {
        if |init| == 1 {
          assert init[..0] == "" && IntOf(init) == init[0] as int - '0' as int;
        }
      }
      assert IntOf(s) == 10 * IntOf(init) + d && IntOf(s) / 10 == IntOf(init) && IntOf(s) % 10 == d;
    }
  }

  lemma SameSpellingIff(n: nat, m: nat)
    ensures Show(n) == Show(m) <==> n == m
  {
    IntOfShow(n);
    IntOfShow(m);
  }

  /** Filtering by the number of a variant selects exactly the clicks of that variant. */
  lemma VariantFilterSelects(c: Codec, n: nat, click: Click)
    ensures Passes(c, Variant, [Show(n)], click) <==> Stored(click, VariantIndex) == Int(n)
  {
    IntOfShow(n);
    OneValueMeans(c, Variant, Show(n), click);
  }

  /** The label a click is shown under when grouped by variant. */
  function VariantBucket(click: Click): string
    requires Stored(click, VariantIndex).Int? || Stored(click, VariantIndex).Null?
  {
    if Stored(click, VariantIndex).Int? then Show(Stored(click, VariantIndex).n) else "(default)"
  }

  /** Filtering by a variant's label selects the clicks shown under it, null ones under "(default)"; a
      number spelled with leading zeros, which no label is, selects the bucket of that number. */
  lemma VariantFilterSelectsItsBucketIff(c: Codec, shown: string, click: Click)
    requires Stored(click, VariantIndex).Int? || Stored(click, VariantIndex).Null?
    ensures Passes(c, Variant, [shown], click) <==>
      VariantBucket(click) == if IsDigits(shown) then Show(IntOf(shown)) else shown
    ensures IsDigits(shown) && (|shown| > 1 ==> shown[0] != '0') ==> Show(IntOf(shown)) == shown
  {
    OneValueMeans(c, Variant, shown, click);
    if IsDigits(shown) {
      if Stored(click, VariantIndex).Int? {
        SameSpellingIff(Stored(click, VariantIndex).n, IntOf(shown));
      } else {
        assert "(default)"[0] == '(' && Show(IntOf(shown))[0] != '(';
      }
      if |shown| == 1 || shown[0] != '0' {
        ShowIntOf(shown);
      }
    }
  }

  // ----- Tags -----

  datatype Link = Link(owner: ObjectId, tags: set<ObjectId>)

  /** No document can hold this id. */
  const NO_URL_ID := "000000000000000000000000"

  function ValuesOf(filters: Filters, d: Dimension): seq<string> { if d in filters then filters[d] else [] }

  /** The owner's links that carry any of the tags. */
  function TaggedLinks(links: map<ObjectId, Link>, owner: ObjectId, tags: set<ObjectId>): set<ObjectId> {
    set id | id in links && links[id].owner == owner && links[id].tags * tags != {}
  }

  /** The tag ids the filters ask for: the ids as given, the names through the registry if there is one. */
  function AskedTags(c: Codec, filters: Filters, registry: Option<map<string, ObjectId>>): set<ObjectId> {
    (set s | s in ValuesOf(filters, TagId) :: c.parse(s))
    + (if registry.Some?
       then set s | s in ValuesOf(filters, Tag) && s in registry.value :: registry.value[s]
       else {})
  }

  predicate AsksForTags(filters: Filters) { ValuesOf(filters, Tag) != [] || ValuesOf(filters, TagId) != [] }

  /** A link is in the scope of the tag filters iff it is the owner's and carries a tag whose id was given
      or whose name was, as the registry has it. */
  lemma InTagScopeIff(c: Codec, filters: Filters, owner: ObjectId, links: map<ObjectId, Link>,
                      registry: Option<map<string, ObjectId>>, id: ObjectId)
    ensures id in TaggedLinks(links, owner, AskedTags(c, filters, registry)) <==>
      && id in links && links[id].owner == owner
      && ((exists s :: TagId in filters && s in filters[TagId] && c.parse(s) in links[id].tags)
          || (exists s :: Tag in filters && s in filters[Tag] && registry.Some? && s in registry.value
                          && registry.value[s] in links[id].tags))
  {
    var asked := AskedTags(c, filters, registry);
    if id in links {
      if t :| t in links[id].tags * asked {
        assert t in links[id].tags;
      }
      if s :| TagId in filters && s in filters[TagId] && c.parse(s) in links[id].tags {
        assert c.parse(s) in links[id].tags * asked;
      }
      if s :| Tag in filters && s in filters[Tag] && registry.Some? && s in registry.value && registry.value[s] in links[id].tags {
        assert registry.value[s] in links[id].tags * asked;
      }
    }
  }

  /** The canonical spellings of the tagged links, cut down to the explicit ones when there are any. */
  function ResolvedIds(c: Codec, tagged: set<ObjectId>, explicit: seq<string>): set<string> {
    var spelled := set id | id in tagged :: c.show(id);
    if explicit == [] then spelled else set s | s in spelled && s in explicit
  }

  /** Swap the tag filters for the url ids they resolve to; a scope nobody is in matches nothing. */
  method ResolveTagFilter(c: Codec, filters: Filters, owner: ObjectId, links: map<ObjectId, Link>,
                          registry: Option<map<string, ObjectId>>)
    returns (resolved: Filters)
    ensures !AsksForTags(filters) ==> resolved == filters
    ensures AsksForTags(filters) ==>
              var ids := ResolvedIds(c, TaggedLinks(links, owner, AskedTags(c, filters, registry)), ValuesOf(filters, UrlId));
              && UrlId in resolved && resolved[UrlId] != []
              && (forall s :: s in resolved[UrlId] <==> s in ids || (ids == {} && s == NO_URL_ID))
              && resolved.Keys == filters.Keys - {Tag, TagId} + {UrlId}
              && (forall d :: d in resolved && d != UrlId ==> resolved[d] == filters[d])
  {
    var names, raw := ValuesOf(filters, Tag), ValuesOf(filters, TagId);
    if names == [] && raw == [] {
      return filters;
    }
    resolved := filters - {Tag, TagId};
    var tags := set s | s in raw :: c.parse(s);
    if registry.Some? {
      tags := tags + set s | s in names && s in registry.value :: registry.value[s];
    }
    assert tags == AskedTags(c, filters, registry);
    var ids: set<string> := {};
    if tags != {} {
      ids := set id | id in links && links[id].owner == owner && links[id].tags * tags != {} :: c.show(id);
    }
    var explicit := ValuesOf(resolved, UrlId);
    if explicit != [] {
      ids := set s | s in ids && s in explicit;
    }
    assert ids == ResolvedIds(c, TaggedLinks(links, owner, tags), explicit);
    assert explicit == ValuesOf(filters, UrlId);
    var list := Listed(ids);
    if list == [] {
      assert ids == {} by {
        assert forall s :: s in ids ==> s in list;
      }
      list := [NO_URL_ID];
    } else {
      assert list[0] in ids;
    }
    resolved := resolved[UrlId := list];
  }

  method Listed(items: set<string>) returns (list: seq<string>)
    ensures forall s :: s in list <==> s in items
  {
    list := [];
    var rest := items;
    while rest != {}
      invariant rest <= items && forall s :: s in items <==> s in rest || s in list
      decreases rest
    {
      var s :| s in rest;
      list := list + [s];
      rest := rest - {s};
    }
  }

  predicate InExplicit(c: Codec, explicit: seq<string>, id: ObjectId) {
    explicit == [] || exists i :: 0 <= i < |explicit| && c.parse(explicit[i]) == id
  }

  predicate SpelledCanonically(c: Codec, explicit: seq<string>, id: ObjectId) {
    explicit == [] || c.show(id) in explicit
  }

  lemma ResolvedIdPassesIff(c: Codec, tagged: set<ObjectId>, explicit: seq<string>, values: seq<string>, id: ObjectId)
    requires RoundTrips(c) && id != c.parse(NO_URL_ID)
    requires var ids := ResolvedIds(c, tagged, explicit);
             forall s :: s in values <==> s in ids || (ids == {} && s == NO_URL_ID)
    ensures (exists i :: 0 <= i < |values| && c.parse(values[i]) == id) <==> id in tagged && SpelledCanonically(c, explicit, id)
  {
    var ids := ResolvedIds(c, tagged, explicit);
    if i :| 0 <= i < |values| && c.parse(values[i]) == id {
      assert values[i] in values && values[i] in ids;
      var t :| t in tagged && values[i] == c.show(t);
      assert t == id;
    }
    if id in tagged && SpelledCanonically(c, explicit, id) {
      assert c.show(id) in ids && c.show(id) in values;
      var i :| 0 <= i < |values| && values[i] == c.show(id);
    }
  }

  /** The resolved filter selects the clicks of exactly the owner's tagged links among the explicit ones
      iff every tagged link the explicit values name is also named in its canonical spelling: the
      intersection compares spellings, not ids. */
  lemma TagFilterIsTheIntersectionIff(c: Codec, tagged: set<ObjectId>, explicit: seq<string>, values: seq<string>)
    requires RoundTrips(c) && c.parse(NO_URL_ID) !in tagged
    requires var ids := ResolvedIds(c, tagged, explicit);
             forall s :: s in values <==> s in ids || (ids == {} && s == NO_URL_ID)
    ensures (forall click :: Stored(click, MetaUrlId) != Oid(c.parse(NO_URL_ID)) ==>
               (Passes(c, UrlId, values, click) <==>
                  Stored(click, MetaUrlId).Oid? && Stored(click, MetaUrlId).id in tagged
                  && InExplicit(c, explicit, Stored(click, MetaUrlId).id)))
            <==> (forall id :: id in tagged && InExplicit(c, explicit, id) ==> SpelledCanonically(c, explicit, id))
  {
    forall click | Stored(click, MetaUrlId) != Oid(c.parse(NO_URL_ID))
      ensures Passes(c, UrlId, values, click) <==>
                Stored(click, MetaUrlId).Oid? && Stored(click, MetaUrlId).id in tagged
                && SpelledCanonically(c, explicit, Stored(click, MetaUrlId).id)
    {
      if Stored(click, MetaUrlId).Oid? {
        ResolvedIdPassesIff(c, tagged, explicit, values, Stored(click, MetaUrlId).id);
      }
    }
    forall id | SpelledCanonically(c, explicit, id) ensures InExplicit(c, explicit, id) {
      if explicit != [] {
        var i :| 0 <= i < |explicit| && explicit[i] == c.show(id);
      }
    }
    if id :| id in tagged && InExplicit(c, explicit, id) && !SpelledCanonically(c, explicit, id) {
      var click := Click(map[MetaUrlId := Oid(id)], 0);
      assert Stored(click, MetaUrlId) == Oid(id);
    }
  }

  /** A second spelling of an id is a valid filter value, and with a tag it matches nothing. */
  lemma OtherSpellingMissesTheLink(c: Codec, id: ObjectId, spelling: string)
    requires RoundTrips(c) && c.parse(spelling) == id && spelling != c.show(id)
    ensures InExplicit(c, [spelling], id) && ResolvedIds(c, {id}, [spelling]) == {}
  {
    assert [spelling][0] == spelling;
  }

  /** What the filters of an account query ask of a click, tags included. */
  ghost predicate PassesAccount(c: Codec, filters: Filters, owner: ObjectId, links: map<ObjectId, Link>,
                                registry: Option<map<string, ObjectId>>, click: Click)
  {
    && (forall d :: d in filters && d !in {Tag, TagId, UrlId} && filters[d] != [] ==> Passes(c, d, filters[d], click))
    && (if AsksForTags(filters) then
          && Stored(click, MetaUrlId).Oid?
          && Stored(click, MetaUrlId).id in TaggedLinks(links, owner, AskedTags(c, filters, registry))
          && SpelledCanonically(c, ValuesOf(filters, UrlId), Stored(click, MetaUrlId).id)
        else ValuesOf(filters, UrlId) != [] ==> Passes(c, UrlId, filters[UrlId], click))
  }

  /** Resolve the tags, then build: scope, window, every filter, and the tagged links. */
  method BuildAccountQuery(c: Codec, owner: ObjectId, from: Time, until: Time, filters: Filters, claimed: seq<ObjectId>,
                           links: map<ObjectId, Link>, registry: Option<map<string, ObjectId>>)
    returns (m: Match)
    requires RoundTrips(c)
    ensures forall click :: Stored(click, MetaUrlId) != Oid(c.parse(NO_URL_ID)) ==>
              (Matches(m, click) <==>
                 && Scoped(owner, claimed, click) && from <= click.at <= until
                 && PassesAccount(c, filters, owner, links, registry, click))
  {
    var resolved := ResolveTagFilter(c, filters, owner, links, registry);
    m := BuildClickQuery(c, owner, from, until, resolved, claimed);
    forall click | Stored(click, MetaUrlId) != Oid(c.parse(NO_URL_ID))
      ensures PassesAll(c, resolved, false, click) <==> PassesAccount(c, filters, owner, links, registry, click)
    {
      ResolvedFiltersMean(c, filters, resolved, owner, links, registry, click);
    }
  }

  lemma ResolvedFiltersMean(c: Codec, filters: Filters, resolved: Filters, owner: ObjectId, links: map<ObjectId, Link>,
                            registry: Option<map<string, ObjectId>>, click: Click)
    requires RoundTrips(c) && Stored(click, MetaUrlId) != Oid(c.parse(NO_URL_ID))
    requires !AsksForTags(filters) ==> resolved == filters
    requires AsksForTags(filters) ==>
               var ids := ResolvedIds(c, TaggedLinks(links, owner, AskedTags(c, filters, registry)), ValuesOf(filters, UrlId));
               && UrlId in resolved && resolved[UrlId] != []
               && (forall s :: s in resolved[UrlId] <==> s in ids || (ids == {} && s == NO_URL_ID))
               && resolved.Keys == filters.Keys - {Tag, TagId} + {UrlId}
               && (forall d :: d in resolved && d != UrlId ==> resolved[d] == filters[d])
    ensures PassesAll(c, resolved, false, click) <==> PassesAccount(c, filters, owner, links, registry, click)
  {
    if AsksForTags(filters) {
      var tagged := TaggedLinks(links, owner, AskedTags(c, filters, registry));
      var v := Stored(click, MetaUrlId);
      if v.Oid? {
        ResolvedIdPassesIff(c, tagged, ValuesOf(filters, UrlId), resolved[UrlId], v.id);
      }
      assert forall d :: d in resolved <==> d == UrlId || (d in filters && d !in {Tag, TagId});
    }
  }
}
