# Monument aggregation service — Dafny model

This project models the core of a NestJS service answering queries for
historical monuments of three towns of the Lille metropolitan area: Armentières,
Lille and Roubaix. Each town publishes its own open-data dataset, and each uses a
different record layout. The service does the following:

- builds one request URL per dataset from the optional criteria (identifier,
  commune, type substring, year ± 10), in that dataset's own field names;
- recognises the dataset of a URL by the dataset name appearing in it;
- maps every raw record to the canonical shape
  `{id, coordonnees_geographiques, type, ville, date}`;
- concatenates the three lists in a fixed order, a failed source giving an
  empty list;
- optionally keeps only the monuments within a radius of a centre;
- lists the distinct monument types in first-seen order;
- appends a monument to a user's favourites when it is not there yet.

Modules, one file each:

- `Values` (`values.dfy`): options, results, JavaScript numbers with NaN, and
  the truthiness tests the service applies to its criteria (`if (id)`: an
  empty string or a year of 0 counts as absent).
- `Strings` (`strings.dfy`): `includes`, one-character `split`, `join`, and the
  decimal rendering of integers, with `split`/`join` and render/parse round trips.
- `Sources` (`sources.dfy`): the three base URLs and the substring detection of
  `fetchMonuments`. It proves that a base URL followed by a query string raises
  exactly its own source's flag if and only if the query string names no other
  dataset.
- `QueryBuilder` (`query_builder.dfy`): the where clause of each request, as the
  imperative push sequence of the source and as the function it is proved
  against.
- `Normalise` (`normalise.dfy`): the record mapping and coordinate
  normalisation, including the throw on a Lille record without `coord_geo`.
- `Aggregate` (`aggregate.dfy`): `fetchMonuments`, `getAllMonuments` with its
  geographic filter, and `getMonumentTypes` with its first-occurrence
  deduplication.
- `Favorites` (`favorites.dfy`): `addFavorite`, as a class over an in-memory
  picture of the favourites files.

The network is a parameter `fetch: string -> Response`, where a response is a
list of raw records or a failure. The `Number` conversion of the Lille
coordinate text is a parameter `toNumber`. The great-circle distance is a
parameter `dist`. Nothing is assumed about any of them.

Behaviour of the code worth knowing:

- The dataset is detected on the **full** request URL, where clause included
  (`src/monuments/monuments.service.ts:14-16`). A criterion can therefore
  change how a source's records are mapped.
  `QueryBuilder.TypeCriterionCanMimicLille` shows an Armentières request
  raising the Lille flag too.
- The clause builder tests only the base URL
  (`src/monuments/monuments.service.ts:56`, `:68`).
- A Lille record without `coord_geo` makes `split` throw. The catch at
  `src/monuments/monuments.service.ts:38-41` then turns the **whole** Lille
  answer into `[]`; the record does not simply get undefined coordinates.
- The Lille type clause filters on `denomination` while the mapping reads
  `edifice` (`src/monuments/monuments.service.ts:69`, `:33`). Both are modelled
  as written.

## Model

| member | source | states |
|---|---|---|
| Values.TruthyText | src/monuments/monuments.service.ts:55 | `if (id)`, `if (ville)`, `if (type)`: an undefined or empty string is falsy; stated through `QueryBuilder.ClauseCount` |
| Values.TruthyInt | src/monuments/monuments.service.ts:74 | `if (date)`: an undefined year or a year of 0 is falsy; stated through `QueryBuilder.ClauseCount` and `QueryBuilder.YearWindow` |
| Values.LessEq | src/monuments/monuments.service.ts:96 | `distance <= radius`, false when either side is NaN; stated through `Aggregate.NearOnly` |
| Strings.Join | src/monuments/monuments.service.ts:81 | `join(' AND ')`; stated by `Strings.SplitJoin` and `QueryBuilder.BareUrlIffNoCriteria` |
| Strings.IntToString | src/monuments/monuments.service.ts:77-78 | `${startYear}` and `${endYear}`; stated by `Strings.IntToStringRoundTrip` |
| Strings.Contains | src/monuments/monuments.service.ts:14-16 | `String.prototype.includes`, also used at :56 and :68; stated by `Sources.DetectBaseUrl`, `Sources.DatasetsApart` and `QueryBuilder.CriteriaInUrl` |
| Strings.Split | src/monuments/monuments.service.ts:22 | `split(',')` gives at least one piece, no piece holds a comma, the pieces joined with commas give back the text, and there is more than one piece exactly when the text has a comma |
| Strings.SplitJoin | src/monuments/monuments.service.ts:22 | `split(',')` recovers the comma-free pieces that were joined with commas |
| Strings.IntToStringRoundTrip | src/monuments/monuments.service.ts:75-78 | the year bound rendered in the template literal reads back as the same integer |
| Sources.SourceAt | src/monuments/monuments.service.ts:46-50 | each position of the base-URL list holds the records endpoint of the dataset of that source |
| Sources.DatasetsApart | src/monuments/monuments.service.ts:14-16 | no dataset name occurs inside another, so the three `includes` tests can tell the names apart |
| Sources.Detect | src/monuments/monuments.service.ts:14-16 | the three flags, each an independent substring test on the whole URL; its properties are stated by the lemmas below |
| Sources.OwnDatasetDetected | src/monuments/monuments.service.ts:14-16 | whatever follows a base URL, that URL raises its own source's flag |
| Sources.OtherDatasetSpoilsDetection | src/monuments/monuments.service.ts:14-16 | a URL holding the name of a dataset other than src's is not detected as exactly src |
| Sources.DetectBaseUrl | src/monuments/monuments.service.ts:14-16 | a base URL followed by nothing or by a `?` query string is detected as exactly its own source if and only if the query string holds no other source's dataset name |
| QueryBuilder.RequestUrl | src/monuments/monuments.service.ts:52-83 | the request URL as a function of the base URL and the criteria, which `BuildRequestUrl` is proved against; stated by the lemmas below |
| QueryBuilder.BuildRequestUrl | src/monuments/monuments.service.ts:52-83 | the clauses pushed one by one, in the order id, commune, type, lower and upper year bound, give exactly the request URL of `RequestUrl` |
| QueryBuilder.BuildRequestUrls | src/monuments/monuments.service.ts:46-83 | one request URL per source, in base-URL order, each built from its own base URL |
| QueryBuilder.BareUrlIffNoCriteria | src/monuments/monuments.service.ts:81-82 | a request URL equals its base URL if and only if no criterion is truthy; otherwise it is base + `?where=` + the clauses joined by ` AND `; it always starts with the base URL |
| QueryBuilder.ClauseCount | src/monuments/monuments.service.ts:55-79 | each truthy text criterion adds one clause and a truthy year adds two |
| QueryBuilder.YearWindow | src/monuments/monuments.service.ts:74-79 | a truthy year D ends the clauses with `datation_bati_lmcu>=` D-10 and `datation_bati_lmcu<=` D+10; a year of 0 gives the same clauses as no year |
| QueryBuilder.YearClausesSameForAllSources | src/monuments/monuments.service.ts:74-79 | the two year clauses are identical for all three sources |
| QueryBuilder.NamesLilleOnlyLille | src/monuments/monuments.service.ts:56 | the builder's `includes` test holds for the Lille base URL and for no other |
| QueryBuilder.FieldNames | src/monuments/monuments.service.ts:55-72 | Lille gets `id_merimee=<id>` unquoted and `denomination LIKE`; the others get `monum_his_com_id='<id>'` and `appellation_courante LIKE`; the commune clause is the same everywhere |
| QueryBuilder.CriteriaInUrl | src/monuments/monuments.service.ts:55-82 | every truthy identifier, commune and type criterion appears verbatim in the request URL, whatever the other criteria |
| QueryBuilder.MentionedInUrl | src/monuments/monuments.service.ts:55-82 | any text held by a truthy criterion is held by the request URL |
| QueryBuilder.RequestUrlDetected | src/monuments/monuments.service.ts:14-16 | a built request URL is detected as exactly its own source if and only if no criterion holds another source's dataset name |
| QueryBuilder.TypeCriterionCanMimicLille | src/monuments/monuments.service.ts:14-16 | the Armentières request whose type criterion is the Lille dataset name raises both the Armentières and the Lille flags |
| Normalise.ParseCoordGeo | src/monuments/monuments.service.ts:22 | `[lat, lon]` destructured from the split text: the latitude is always defined, the longitude exactly when the text has a comma |
| Normalise.NormalizedCoordinates | src/monuments/monuments.service.ts:19-27 | the coordinate choice, Armentières tested first, then Lille, then Roubaix, undefined otherwise; its properties are stated by `ThrowsIff` and `NormaliseMatchesTable` |
| Normalise.NormaliseRecord | src/monuments/monuments.service.ts:30-36 | the object built for one record; its properties are stated by `ThrowsIff` and `NormaliseMatchesTable` |
| Normalise.NormaliseAll | src/monuments/monuments.service.ts:30-36 | the mapping succeeds if and only if no record throws, and then yields one monument per record in order |
| Normalise.ThrowsIff | src/monuments/monuments.service.ts:19-22 | a record throws if and only if it is handled as Lille, not as Armentières, and has no `coord_geo` |
| Normalise.NormaliseMatchesTable | src/monuments/monuments.service.ts:19-36 | under one source's flags each record takes id, type and coordinates from that source's fields (Armentières: no id, `appellation_courante`, `coordonnees_geographiques`; Lille: `id_merimee`, `edifice`, `coord_geo`; Roubaix: `monum_his_com_id`, `appellation_courante`, `geo_point_2d`), `ville` from `commune` and `date` from `datation_bati_lmcu` |
| Normalise.LilleCoordsTwoParts | src/monuments/monuments.service.ts:22-23 | with text `a,b` or `a,b,…` the latitude is read from `a` and the longitude from `b` |
| Normalise.LilleCoordsOnePart | src/monuments/monuments.service.ts:22-23 | with text without a comma the latitude is read from it and the longitude is undefined |
| Aggregate.FetchMonuments | src/monuments/monuments.service.ts:9-42 | a failed request gives `[]`; otherwise the result is `[]` or has one monument per record |
| Aggregate.GeoActive | src/monuments/monuments.service.ts:90 | `lat !== undefined && lon !== undefined && radius !== undefined`; stated through `GetAllMonuments` |
| Aggregate.GetAllMonuments | src/monuments/monuments.service.ts:45-101 | the result is the aggregate of the three request URLs, filtered by the geographic test exactly when lat, lon and radius are all given |
| Aggregate.Gather | src/monuments/monuments.service.ts:86-87 | `Promise.all(...).flat()` over a list of URLs; stated by `AggregatedIsConcatenation` |
| Aggregate.AggregatedIsConcatenation | src/monuments/monuments.service.ts:86-87 | the aggregate is the Armentières, Lille and Roubaix lists concatenated in that order |
| Aggregate.FailingSourceContributesNothing | src/monuments/monuments.service.ts:38-41 | a failing source gives the same aggregate as one answering an empty list |
| Aggregate.RecordsMappedBySource | src/monuments/monuments.service.ts:14-36 | when no criterion holds another source's dataset name, each record of a source is mapped through that source's field table |
| Aggregate.Near | src/monuments/monuments.service.ts:91-97 | the filter callback: coordinates present, their latitude and longitude and the centre all defined finite numbers (otherwise the distance of :122-131 is NaN and the item is dropped), and distance at most the radius, false when the distance or the radius is NaN; stated by `NearOnly` and `GeoFilterGuarantees` |
| Aggregate.NearOnly | src/monuments/monuments.service.ts:91-97 | an item is kept if and only if `Near` holds of it (finite coordinates and centre, distance within the radius), each as often as it occurs |
| Aggregate.NearOnlyIsSublist | src/monuments/monuments.service.ts:91-97 | the filter keeps the order of the items it keeps |
| Aggregate.GeoFilterGuarantees | src/monuments/monuments.service.ts:90-98 | the filtered list is an ordered sublist; every kept item is near and has a finite latitude and longitude; items without coordinates are dropped; every near item is kept; a NaN centre keeps nothing |
| Aggregate.CommaFreeLilleDropped | src/monuments/monuments.service.ts:22-23 | a Lille record whose `coord_geo` has no comma is mapped, but the filter drops it whatever the centre, radius and distance, its longitude being undefined |
| Aggregate.IndexOf | src/monuments/monuments.service.ts:113 | `indexOf` gives the first position of a value, and -1 exactly when it is absent |
| Aggregate.FirstOccurrences | src/monuments/monuments.service.ts:113 | `filter((value, index, self) => self.indexOf(value) === index)`; stated by `FirstOccurrencesProperties` |
| Aggregate.FirstOccurrencesProperties | src/monuments/monuments.service.ts:113 | the deduplicated list has no duplicates, holds only and all values of the input, in order of first occurrence |
| Aggregate.TypesOf | src/monuments/monuments.service.ts:113 | `map(item => item.type)`: one entry per monument, in order, each that monument's type |
| Aggregate.GetMonumentTypes | src/monuments/monuments.service.ts:103-116 | the types of all records of the three bare URLs, each once, every record's type included |
| Aggregate.TypesUseBareUrls | src/monuments/monuments.service.ts:104-110 | the type listing requests the same URLs as a query without criteria |
| Favorites.FavoritesPath | src/monuments/monuments.service.ts:142 | the path string `data/favorites-<userId>.json`; stated by `FavoritesPathInjective` |
| Favorites.FavoritesPathInjective | src/monuments/monuments.service.ts:142 | distinct user ids give distinct path strings |
| Favorites.WithFavorite | src/monuments/monuments.service.ts:151-152 | the id is in the result; the old list is kept as a prefix; at most the id is appended, and only when it was missing |
| Favorites.WithFavoriteSet | src/monuments/monuments.service.ts:151-152 | the set of favourites grows by exactly the id |
| Favorites.WithFavoriteIdempotent | src/monuments/monuments.service.ts:151-152 | adding the same id twice is the same as adding it once |
| Favorites.AddedOnce | src/monuments/monuments.service.ts:151-152 | an id that was not a favourite occurs exactly once however many times it is added |
| Favorites.WithFavoriteKeepsDistinct | src/monuments/monuments.service.ts:151-152 | a list without duplicates stays without duplicates |
| Favorites.FavoritesStore.Stored | src/monuments/monuments.service.ts:143-149 | the list `addFavorite` starts from: the parsed file when it exists, `[]` otherwise; stated through `AddFavorite` |
| Favorites.FavoritesStore.AddFavorite | src/monuments/monuments.service.ts:140-155 | an id already present changes nothing and writes nothing; otherwise the user's file becomes the old list plus the id and one write of that file is recorded; other users' lists are unchanged |

## Left out

- HTTP requests through axios and the concurrency of `Promise.all`: each request is a call of the `fetch` parameter and the answers are combined in base-URL order.
- `console.error` logging in the catch block.
- The haversine formula and degree conversion (`calculateDistance`, `degreesToRadians`): floating-point trigonometry, modelled as the `dist` parameter on four finite reals, with no property assumed. The NaN that JavaScript arithmetic produces from an undefined or NaN argument is modelled, in `Aggregate.Near`.
- `Number` applied to the pieces of `coord_geo`: modelled as the `toNumber` parameter; floating-point values are `Values.Num`, a real or NaN, and comparisons with NaN are false.
- Infinities and floating-point years: `date` is an integer criterion, and its bounds are rendered in plain decimal notation. The exponent form JavaScript uses for very large numbers is not modelled.
- The types of JSON fields: raw record fields are text (or a `{lat, lon}` object for the coordinate fields). Records whose fields have other JSON types are not modelled.
- File-system access and JSON parsing in `addFavorite`: the files are a map from path to parsed list. A missing file is an absent key. Unreadable or malformed files, which would make `addFavorite` throw, are not modelled.
- A failing `writeFileSync`, for example when the `data/` directory is missing, which makes `addFavorite` throw after the list was updated in memory: the model's write always succeeds.
- File-system aliasing: the map is keyed by the path string, so two path strings naming one file are not modelled. Examples are user ids `Bob` and `bob` on a case-insensitive file system, or a user id holding `/../` segments.
- Favorites.FavoritesStore.AddFavorite: models the write as a record of the path in `writes` plus the new map entry, not the JSON text written.
- Aggregate.GetMonumentTypes: a `null` type and a missing type are both `None` in the model, so they are one value in its list. In the source's list they are two, because `indexOf` compares with strict equality and `null !== undefined`.
- Aggregate.Near: an absent coordinate member (`None`) stands for `undefined`, which makes the distance NaN. A JSON `null` member, which JavaScript arithmetic turns into 0 instead, is not told apart from `undefined`.
- The commented-out favourites variant without a user identifier: it is dead code.
- `src/monuments/monuments.controller.ts` (query-string parsing, the default radius, the user-identifier check) and the NestJS module wiring are not part of this model.
- Aggregate.FetchMonuments: states the length of a successful answer and the failure case. The per-record contents are stated by `Normalise.NormaliseAll`.
- Aggregate.RecordsMappedBySource: states one direction only. With a criterion holding another dataset name the detection differs (`QueryBuilder.RequestUrlDetected`), but a record may still map the same way, for instance when the affected fields are equal.
