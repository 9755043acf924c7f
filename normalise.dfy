/** Mapping the raw records of a source into the canonical monument shape
    `{id, coordonnees_geographiques, type, ville, date}`, driven by the
    dataset flags detected from the request URL. */
module Normalise {
  import opened Values
  import opened Strings
  import opened Sources

  /** A `{lat, lon}` object; either member may be missing. */
  datatype Coords = Coords(lat: Option<Num>, lon: Option<Num>)

  /** The fields of a raw record that the service reads; each may be absent. */
  datatype RawRecord = RawRecord(
    idMerimee: Option<string>,
    monumHisComId: Option<string>,
    edifice: Option<string>,
    appellationCourante: Option<string>,
    commune: Option<string>,
    datationBatiLmcu: Option<string>,
    coordonneesGeographiques: Option<Coords>,
    coordGeo: Option<string>,
    geoPoint2d: Option<Coords>)

  /** The canonical monument. */
  datatype Monument = Monument(
    id: Option<string>,
    coordonneesGeographiques: Option<Coords>,
    monumentType: Option<string>,
    ville: Option<string>,
    date: Option<string>)

  /** `coord_geo.split(',').map(Number)` destructured into `[lat, lon]`: the
      first piece is always there, the second only if the text has a comma. */
  function ParseCoordGeo(text: string, toNumber: string -> Num): (r: Coords)
    ensures r.lat.Some?
    ensures r.lon.Some? <==> ',' in text
  {
    var parts := Split(text, ',');
    Coords(Some(toNumber(parts[0])), if |parts| > 1 then Some(toNumber(parts[1])) else None)
  }

  /** `normalizedCoordinates`: the Armentieres flag is tested first, then
      Lille, then Roubaix. Splitting an absent `coord_geo` throws. */
  function NormalizedCoordinates(item: RawRecord, d: Detection, toNumber: string -> Num): Result<Option<Coords>>
  {
    if d.isArmentiere then Ok(item.coordonneesGeographiques)
    else if d.isLille then
      if item.coordGeo.Some? then Ok(Some(ParseCoordGeo(item.coordGeo.value, toNumber))) else Thrown
    else if d.isRoubaix then Ok(item.geoPoint2d)
    else Ok(None)
  }

  /** The object built for one record by the callback of `data.map`. */
  function NormaliseRecord(item: RawRecord, d: Detection, toNumber: string -> Num): Result<Monument>
  {
    match NormalizedCoordinates(item, d, toNumber)
    case Thrown => Thrown
    case Ok(coords) =>
      Ok(Monument(
        if d.isLille then item.idMerimee else if d.isRoubaix then item.monumHisComId else None,
        coords,
        if d.isLille then item.edifice else item.appellationCourante,
        item.commune,
        item.datationBatiLmcu))
  }

  /** `data.map(...)`: one monument per record, in order, or a throw as soon
      as one record throws. */
  function NormaliseAll(data: seq<RawRecord>, d: Detection, toNumber: string -> Num): (r: Result<seq<Monument>>)
    ensures r.Ok? <==> forall k :: 0 <= k < |data| ==> NormaliseRecord(data[k], d, toNumber).Ok?
    ensures r.Ok? ==> |r.value| == |data|
    ensures r.Ok? ==> forall k :: 0 <= k < |data| ==> r.value[k] == NormaliseRecord(data[k], d, toNumber).value
    decreases |data|
  {
    if data == [] then Ok([])
    else
      match NormaliseRecord(data[0], d, toNumber)
      case Thrown => Thrown
      case Ok(m) =>
        match NormaliseAll(data[1..], d, toNumber)
        case Thrown =>
          assert forall k :: 1 <= k < |data| ==> data[k] == data[1..][k - 1];
          Thrown
        case Ok(ms) =>
          assert forall k :: 1 <= k < |data| ==> data[k] == data[1..][k - 1];
          Ok([m] + ms)
  }

  /** A record throws exactly when it is handled as Lille, not as Armentieres,
      and has no `coord_geo`. */
  lemma ThrowsIff(item: RawRecord, d: Detection, toNumber: string -> Num)
    ensures NormaliseRecord(item, d, toNumber).Thrown?
      <==> !d.isArmentiere && d.isLille && item.coordGeo.None?
  {
  }

  /** The per-source field table: where each canonical field comes from. */
  datatype FieldMap = FieldMap(
    id: RawRecord -> Option<string>,
    monumentType: RawRecord -> Option<string>,
    coords: (RawRecord, string -> Num) -> Result<Option<Coords>>)

  function LilleCoords(item: RawRecord, toNumber: string -> Num): Result<Option<Coords>>
  {
    match item.coordGeo
    case None => Thrown
    case Some(text) => Ok(Some(ParseCoordGeo(text, toNumber)))
  }

  function Fields(src: Source): FieldMap
  {
    match src
    case Armentieres =>
      FieldMap(
        (item: RawRecord) => None,
        (item: RawRecord) => item.appellationCourante,
        (item: RawRecord, toNumber: string -> Num) => Ok(item.coordonneesGeographiques))
    case Lille =>
      FieldMap(
        (item: RawRecord) => item.idMerimee,
        (item: RawRecord) => item.edifice,
        LilleCoords)
    case Roubaix =>
      FieldMap(
        (item: RawRecord) => item.monumHisComId,
        (item: RawRecord) => item.appellationCourante,
        (item: RawRecord, toNumber: string -> Num) => Ok(item.geoPoint2d))
  }

  /** A record mapped through a source's field table. */
  function MapWithTable(src: Source, item: RawRecord, toNumber: string -> Num): Result<Monument>
  {
    var f := Fields(src);
    match f.coords(item, toNumber)
    case Thrown => Thrown
    case Ok(coords) => Ok(Monument(f.id(item), coords, f.monumentType(item), item.commune, item.datationBatiLmcu))
  }

  /** Under the flags of exactly one source, the service's nested tests agree
      with that source's field table on every record. */
  lemma NormaliseMatchesTable(src: Source, item: RawRecord, toNumber: string -> Num)
    ensures NormaliseRecord(item, Intended(src), toNumber) == MapWithTable(src, item, toNumber)
  {
  }

  /** Lille coordinates: with text "a,b" or "a,b,..." (a and b comma-free)
      the latitude is read from a and the longitude from b. */
  lemma LilleCoordsTwoParts(a: string, b: string, rest: string, toNumber: string -> Num)
    requires ',' !in a && ',' !in b
    requires rest == [] || rest[0] == ','
    ensures ParseCoordGeo(a + [','] + b + rest, toNumber) == Coords(Some(toNumber(a)), Some(toNumber(b)))
  {
    assert a + [','] + b + rest == a + [','] + (b + rest);
    SplitAtFirst(a, ',', b + rest);
    if rest == [] {
      assert b + rest == b;
      SplitWithoutSeparator(b, ',');
    } else {
      assert b + rest == b + [','] + rest[1..];
      SplitAtFirst(b, ',', rest[1..]);
    }
  }

  /** Lille coordinates: text without a comma gives a latitude but no longitude. */
  lemma LilleCoordsOnePart(a: string, toNumber: string -> Num)
    requires ',' !in a
    ensures ParseCoordGeo(a, toNumber) == Coords(Some(toNumber(a)), None)
  {
    SplitWithoutSeparator(a, ',');
  }
}
