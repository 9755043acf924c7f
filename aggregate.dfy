/** `getAllMonuments` and `getMonumentTypes`: fetch every source, normalise
    its records, concatenate the lists in base-URL order, then optionally keep
    only the monuments within a radius of a centre. The network and the
    great-circle distance are parameters. */
module Aggregate {
  import opened Values
  import opened Sources
  import opened QueryBuilder
  import opened Normalise

  /** What one GET request yields: a payload with its `results` list, or a
      failure (network error, error status, malformed payload). */
  datatype Response = Failure | Success(results: seq<RawRecord>)

  /** `calculateDistance(lat1, lon1, lat2, lon2)`, in metres, on four finite
      numbers. Its first step subtracts the coordinates, so an undefined or
      NaN argument makes every later step NaN; that case is handled by `Near`
      before this function is consulted. */
  type Distance = (real, real, real, real) -> Num

  /** `fetchMonuments`: the normalised records of one response, or none at all
      when the request fails or the mapping throws. */
  function FetchMonuments(url: string, response: Response, toNumber: string -> Num): (r: seq<Monument>)
    ensures response.Failure? ==> r == []
    ensures r == [] || (response.Success? && |r| == |response.results|)
  {
    match response
    case Failure => []
    case Success(data) =>
      match NormaliseAll(data, Detect(url), toNumber)
      case Thrown => []
      case Ok(ms) => ms
  }

  /** The per-source lists of a round of requests, concatenated in order. */
  function Gather(urls: seq<string>, fetch: string -> Response, toNumber: string -> Num): seq<Monument>
    decreases |urls|
  {
    if urls == [] then []
    else
      var last := urls[|urls| - 1];
      Gather(urls[..|urls| - 1], fetch, toNumber) + FetchMonuments(last, fetch(last), toNumber)
  }

  /** One more request adds its list at the end. */
  lemma GatherStep(urls: seq<string>, k: nat, fetch: string -> Response, toNumber: string -> Num)
    requires k < |urls|
    ensures Gather(urls[..k + 1], fetch, toNumber)
      == Gather(urls[..k], fetch, toNumber) + FetchMonuments(urls[k], fetch(urls[k]), toNumber)
  {
    assert urls[..k + 1][..k] == urls[..k];
    assert urls[..k + 1][k] == urls[k];
  }

  /** The request URL of each source, in base-URL order. */
  function RequestUrls(c: Criteria): (urls: seq<string>)
    ensures |urls| == 3
  {
    [RequestUrl(BaseUrls[0], c), RequestUrl(BaseUrls[1], c), RequestUrl(BaseUrls[2], c)]
  }

  /** The monument list before any geographic filtering. */
  function Aggregated(c: Criteria, fetch: string -> Response, toNumber: string -> Num): seq<Monument>
  {
    Gather(RequestUrls(c), fetch, toNumber)
  }

  /** Both members of a coordinate object are defined finite numbers. */
  predicate Located(c: Coords)
  {
    c.lat.Some? && c.lat.value.Finite? && c.lon.Some? && c.lon.value.Finite?
  }

  /** The filter callback: the item has coordinates and lies within the
      radius. With an undefined or NaN member on either side the distance is
      NaN, and `NaN <= radius` is false. */
  predicate Near(m: Monument, lat: Num, lon: Num, radius: Num, dist: Distance)
  {
    && m.coordonneesGeographiques.Some?
    && Located(m.coordonneesGeographiques.value)
    && lat.Finite? && lon.Finite?
    && var c := m.coordonneesGeographiques.value;
       LessEq(dist(lat.value, lon.value, c.lat.value.value, c.lon.value.value), radius)
  }

  /** `results.filter(...)` with the Near callback. */
  function NearOnly(items: seq<Monument>, lat: Num, lon: Num, radius: Num, dist: Distance): (r: seq<Monument>)
    ensures forall m :: m in r <==> m in items && Near(m, lat, lon, radius, dist)
    ensures forall m :: multiset(r)[m] == if Near(m, lat, lon, radius, dist) then multiset(items)[m] else 0
    decreases |items|
  {
    if items == [] then []
    else
      var rest := NearOnly(items[1..], lat, lon, radius, dist);
      assert items == [items[0]] + items[1..];
      assert multiset(items) == multiset{items[0]} + multiset(items[1..]);
      if Near(items[0], lat, lon, radius, dist) then [items[0]] + rest else rest
  }

  /** `small` is `big` with some elements left out, the others in their order. */
  predicate Sublist<T(==)>(small: seq<T>, big: seq<T>)
    decreases |big|
  {
    if small == [] then true
    else if big == [] then false
    else (small[0] == big[0] && Sublist(small[1..], big[1..])) || Sublist(small, big[1..])
  }

  /** The geographic filter keeps the order of what it keeps. */
  lemma {:induction false} NearOnlyIsSublist(items: seq<Monument>, lat: Num, lon: Num, radius: Num, dist: Distance)
    ensures Sublist(NearOnly(items, lat, lon, radius, dist), items)
    decreases |items|
  {
    if items != [] {
      NearOnlyIsSublist(items[1..], lat, lon, radius, dist);
      var r := NearOnly(items, lat, lon, radius, dist);
      var rest := NearOnly(items[1..], lat, lon, radius, dist);
      if Near(items[0], lat, lon, radius, dist) {
        assert r[0] == items[0] && r[1..] == rest;
      } else if r != [] {
        assert r == rest;
      }
    }
  }

  /** The guarantees of the geographic filter: an order-preserving sublist,
      every kept item near and with a finite latitude and longitude, every
      item without coordinates dropped, every near item kept, and nothing kept
      around a NaN centre. */
  lemma GeoFilterGuarantees(items: seq<Monument>, lat: Num, lon: Num, radius: Num, dist: Distance)
    ensures var r := NearOnly(items, lat, lon, radius, dist);
      && Sublist(r, items)
      && (forall m :: m in r ==> m.coordonneesGeographiques.Some? && Near(m, lat, lon, radius, dist))
      && (forall m :: m in r ==> Located(m.coordonneesGeographiques.value))
      && (forall m :: m in items && m.coordonneesGeographiques.None? ==> m !in r)
      && (forall m :: m in items && Near(m, lat, lon, radius, dist) ==> m in r)
      && (lat.NaN? || lon.NaN? ==> r == [])
  {
    NearOnlyIsSublist(items, lat, lon, radius, dist);
  }

  /** A Lille record whose `coord_geo` has no comma is mapped, but its
      longitude is undefined, so the geographic filter drops it whatever the
      centre, the radius and the distance function. */
  lemma CommaFreeLilleDropped(item: RawRecord, toNumber: string -> Num, lat: Num, lon: Num, radius: Num, dist: Distance)
    requires item.coordGeo.Some? && ',' !in item.coordGeo.value
    ensures NormaliseRecord(item, Intended(Lille), toNumber).Ok?
    ensures NearOnly([NormaliseRecord(item, Intended(Lille), toNumber).value], lat, lon, radius, dist) == []
  {
    var m := NormaliseRecord(item, Intended(Lille), toNumber).value;
    assert m.coordonneesGeographiques == Some(ParseCoordGeo(item.coordGeo.value, toNumber));
    assert !Near(m, lat, lon, radius, dist);
  }

  /** Whether the request filters by position: centre and radius all given. */
  predicate GeoActive(lat: Option<Num>, lon: Option<Num>, radius: Option<Num>)
  {
    lat.Some? && lon.Some? && radius.Some?
  }

  /** `getAllMonuments(ville, date, type, id, lat, lon, radius)`. */
  method GetAllMonuments(
    c: Criteria, lat: Option<Num>, lon: Option<Num>, radius: Option<Num>,
    fetch: string -> Response, toNumber: string -> Num, dist: Distance)
    returns (results: seq<Monument>)
    ensures !GeoActive(lat, lon, radius) ==> results == Aggregated(c, fetch, toNumber)
    ensures GeoActive(lat, lon, radius) ==>
      results == NearOnly(Aggregated(c, fetch, toNumber), lat.value, lon.value, radius.value, dist)
  {
    var urls := BuildRequestUrls(c);
    assert urls == RequestUrls(c);
    results := [];
    for k := 0 to |urls|
      invariant results == Gather(urls[..k], fetch, toNumber)
    {
      GatherStep(urls, k, fetch, toNumber);
      results := results + FetchMonuments(urls[k], fetch(urls[k]), toNumber);
    }
    assert urls[..|urls|] == urls;
    if lat.Some? && lon.Some? && radius.Some? {
      results := NearOnly(results, lat.value, lon.value, radius.value, dist);
    }
  }

  /** The aggregate is exactly the three per-source lists in base-URL order. */
  lemma AggregatedIsConcatenation(c: Criteria, fetch: string -> Response, toNumber: string -> Num)
    ensures var u := RequestUrls(c);
      Aggregated(c, fetch, toNumber)
        == FetchMonuments(u[0], fetch(u[0]), toNumber)
         + FetchMonuments(u[1], fetch(u[1]), toNumber)
         + FetchMonuments(u[2], fetch(u[2]), toNumber)
  {
    var u := RequestUrls(c);
    assert u[..3] == u;
    assert u[..2][..1] == u[..1] && u[..1][..0] == [];
    assert Gather(u[..1], fetch, toNumber) == FetchMonuments(u[0], fetch(u[0]), toNumber);
    assert Gather(u[..2], fetch, toNumber) == Gather(u[..1], fetch, toNumber) + FetchMonuments(u[1], fetch(u[1]), toNumber);
  }

  /** A failing source contributes nothing and the others are unaffected:
      the aggregate equals the one obtained with that source answering an
      empty list. */
  lemma FailingSourceContributesNothing(c: Criteria, fetch: string -> Response, toNumber: string -> Num, k: nat)
    requires k < 3 && fetch(RequestUrls(c)[k]).Failure?
    ensures var u := RequestUrls(c);
      Aggregated(c, fetch, toNumber)
        == Aggregated(c, url => if url == u[k] then Success([]) else fetch(url), toNumber)
  {
    var u := RequestUrls(c);
    var fetch' := url => if url == u[k] then Success([]) else fetch(url);
    AggregatedIsConcatenation(c, fetch, toNumber);
    AggregatedIsConcatenation(c, fetch', toNumber);
    forall j | 0 <= j < 3
      ensures FetchMonuments(u[j], fetch(u[j]), toNumber) == FetchMonuments(u[j], fetch'(u[j]), toNumber)
    {
      if u[j] == u[k] {
        assert NormaliseAll([], Detect(u[j]), toNumber) == Ok([]);
      }
    }
  }

  /** When no criterion names another source's dataset, every record of
      source k is mapped through that source's field table. */
  lemma RecordsMappedBySource(k: nat, c: Criteria, item: RawRecord, toNumber: string -> Num)
    requires k < 3 && NamesNoOtherDataset(c, SourceAt(k))
    ensures NormaliseRecord(item, Detect(RequestUrls(c)[k]), toNumber) == MapWithTable(SourceAt(k), item, toNumber)
  {
    RequestUrlDetected(k, c);
    NormaliseMatchesTable(SourceAt(k), item, toNumber);
  }

  /** `self.indexOf(x)`: the first position of x, or -1. */
  function IndexOf<T(==)>(s: seq<T>, x: T): (i: int)
    ensures -1 <= i < |s|
    ensures i == -1 <==> x !in s
    ensures i >= 0 ==> s[i] == x && forall j :: 0 <= j < i ==> s[j] != x
    decreases |s|
  {
    if s == [] then -1
    else if s[0] == x then 0
    else
      var i := IndexOf(s[1..], x);
      if i == -1 then -1 else i + 1
  }

  /** The filter `(value, index, self) => self.indexOf(value) === index`
      applied from position i on. */
  function FirstOccurrencesFrom<T(==)>(s: seq<T>, i: nat): seq<T>
    requires i <= |s|
    decreases |s| - i
  {
    if i == |s| then []
    else if IndexOf(s, s[i]) == i then [s[i]] + FirstOccurrencesFrom(s, i + 1)
    else FirstOccurrencesFrom(s, i + 1)
  }

  /** Distinct values in the order they are first seen. */
  function FirstOccurrences<T(==)>(s: seq<T>): seq<T>
  {
    FirstOccurrencesFrom(s, 0)
  }

  /** The first occurrence of the value at j is at or before j. */
  lemma IndexOfAt<T>(s: seq<T>, j: nat)
    requires j < |s|
    ensures 0 <= IndexOf(s, s[j]) <= j
  {
  }

  /** Every value of r occurs in s, first at position i or later. */
  ghost predicate OnlyFirstSeenFrom<T>(s: seq<T>, r: seq<T>, i: nat)
  {
    forall a :: 0 <= a < |r| ==> r[a] in s && IndexOf(s, r[a]) >= i
  }

  /** Every value of s first seen at position i or later is in r. */
  ghost predicate AllFirstSeenFrom<T>(s: seq<T>, r: seq<T>, i: nat)
  {
    forall j :: 0 <= j < |s| && IndexOf(s, s[j]) >= i ==> s[j] in r
  }

  /** r lists values in the order of their first occurrence in s. */
  ghost predicate InFirstSeenOrder<T>(s: seq<T>, r: seq<T>)
  {
    forall a, b :: 0 <= a < b < |r| ==> IndexOf(s, r[a]) < IndexOf(s, r[b])
  }

  /** From position i on, the filter keeps only values first seen at i or later. */
  lemma {:induction false} FirstOccurrencesFromSound<T>(s: seq<T>, i: nat)
    requires i <= |s|
    ensures OnlyFirstSeenFrom(s, FirstOccurrencesFrom(s, i), i)
    decreases |s| - i
  {
    if i < |s| {
      FirstOccurrencesFromSound(s, i + 1);
      var r := FirstOccurrencesFrom(s, i);
      var rest := FirstOccurrencesFrom(s, i + 1);
      if IndexOf(s, s[i]) == i {
        assert r == [s[i]] + rest;
        assert forall a :: 1 <= a < |r| ==> r[a] == rest[a - 1];
      } else {
        assert r == rest;
      }
    }
  }

  /** From position i on, the filter keeps every value first seen at i or later. */
  lemma {:induction false} FirstOccurrencesFromComplete<T>(s: seq<T>, i: nat)
    requires i <= |s|
    ensures AllFirstSeenFrom(s, FirstOccurrencesFrom(s, i), i)
    decreases |s| - i
  {
    if i < |s| {
      FirstOccurrencesFromComplete(s, i + 1);
      var r := FirstOccurrencesFrom(s, i);
      forall j | 0 <= j < |s| && IndexOf(s, s[j]) >= i
        ensures s[j] in r
      {
        if IndexOf(s, s[j]) == i {
          assert s[i] == s[j];
        }
      }
    }
  }

  /** From position i on, the filter lists values by their first occurrence. */
  lemma {:induction false} FirstOccurrencesFromOrdered<T>(s: seq<T>, i: nat)
    requires i <= |s|
    ensures InFirstSeenOrder(s, FirstOccurrencesFrom(s, i))
    decreases |s| - i
  {
    if i < |s| {
      FirstOccurrencesFromOrdered(s, i + 1);
      FirstOccurrencesFromSound(s, i + 1);
      var r := FirstOccurrencesFrom(s, i);
      var rest := FirstOccurrencesFrom(s, i + 1);
      if IndexOf(s, s[i]) == i {
        assert r == [s[i]] + rest;
        forall a, b | 0 <= a < b < |r|
          ensures IndexOf(s, r[a]) < IndexOf(s, r[b])
        {
          assert r[b] == rest[b - 1];
          if a > 0 {
            assert r[a] == rest[a - 1];
          } else {
            assert IndexOf(s, r[a]) == i;
          }
        }
      } else {
        assert r == rest;
      }
    }
  }

  /** The type list has no duplicates, holds every value that occurs, and
      lists values in order of their first occurrence. */
  lemma FirstOccurrencesProperties<T>(s: seq<T>)
    ensures var r := FirstOccurrences(s);
      && (forall a, b :: 0 <= a < b < |r| ==> r[a] != r[b])
      && (forall a :: 0 <= a < |r| ==> r[a] in s)
      && (forall j :: 0 <= j < |s| ==> s[j] in r)
      && (forall a, b :: 0 <= a < b < |r| ==> IndexOf(s, r[a]) < IndexOf(s, r[b]))
  {
    FirstOccurrencesFromSound(s, 0);
    FirstOccurrencesFromComplete(s, 0);
    FirstOccurrencesFromOrdered(s, 0);
    var r := FirstOccurrences(s);
    forall j | 0 <= j < |s|
      ensures s[j] in r
    {
      IndexOfAt(s, j);
    }
  }

  /** `allData.map(item => item.type)`. */
  function TypesOf(ms: seq<Monument>): (ts: seq<Option<string>>)
    ensures |ts| == |ms| && forall k :: 0 <= k < |ms| ==> ts[k] == ms[k].monumentType
  {
    seq(|ms|, k requires 0 <= k < |ms| => ms[k].monumentType)
  }

  /** `getMonumentTypes()`: every source fetched without criteria, the types
      of all the records, each kept once in first-seen order. An absent type
      counts as a value of its own. */
  method GetMonumentTypes(fetch: string -> Response, toNumber: string -> Num) returns (types: seq<Option<string>>)
    ensures types == FirstOccurrences(TypesOf(Gather(BaseUrls, fetch, toNumber)))
    ensures forall a, b :: 0 <= a < b < |types| ==> types[a] != types[b]
    ensures forall a :: 0 <= a < |types| ==> types[a] in TypesOf(Gather(BaseUrls, fetch, toNumber))
    ensures var all := Gather(BaseUrls, fetch, toNumber);
      forall j :: 0 <= j < |all| ==> all[j].monumentType in types
  {
    var allData: seq<Monument> := [];
    for k := 0 to |BaseUrls|
      invariant allData == Gather(BaseUrls[..k], fetch, toNumber)
    {
      GatherStep(BaseUrls, k, fetch, toNumber);
      allData := allData + FetchMonuments(BaseUrls[k], fetch(BaseUrls[k]), toNumber);
    }
    assert BaseUrls[..|BaseUrls|] == BaseUrls;
    types := FirstOccurrences(TypesOf(allData));
    FirstOccurrencesProperties(TypesOf(allData));
  }

  /** The type enumeration requests the same URLs as a query without criteria. */
  lemma TypesUseBareUrls()
    ensures RequestUrls(NoCriteria) == BaseUrls
  {
    BareUrlIffNoCriteria(BaseUrls[0], NoCriteria);
    BareUrlIffNoCriteria(BaseUrls[1], NoCriteria);
    BareUrlIffNoCriteria(BaseUrls[2], NoCriteria);
  }
}
