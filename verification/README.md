# Ship registry: filters and entity rules

A model of the core of a small ship-registry web service. The service stores ships
(name, planet, ship type, production date, used flag, speed, crew size, derived rating)
and exposes list, count, get, create, update and delete over HTTP.

The model covers two parts:

- **Filter composition** (`ShipServiceImpl`). Each `filterByX` turns optional query
  parameters into either no constraint (a specification whose predicate is `null`, which the `and` chain drops) or one comparison
  on one field. The controller chains all eight with `and`. Each filter is an
  `Option<Criterion>` (`ShipFilters`). `Matches` is the conjunction of the chain, and
  `Selected` is an independent, parameter-by-parameter reference definition. `MatchesIff`
  proves the two agree. List and count evaluate the same conjunction (`ShipQueries`).
- **Entity rules** (`RestShipController`). Covered here are field-range validation, create
  with its required fields and the `isUsed` default, partial update, and the identifier
  rules of get, update and delete (`ShipController`). The store is a `map<int, Ship>`.
  Create, update and delete return an `Effect`: the response (`Ok`, `BadRequest` or
  `NotFound`) together with the store after the call. This lets "nothing else changes" be
  stated directly. `GetShip` returns only a `Response`, so it cannot change the store;
  `ValidateFields` returns a `bool`.

Modelling choices:

- The year of a timestamp comes from the platform calendar and depends on the time zone.
  It is the parameter `yearOf: int -> int`.
- The rating derivation (`calculateRating`) lives in `Ship.java`, which is not part of
  this model; the controller calls it without arguments. It is the parameter
  `rate: (real, bool, int) -> real`, applied to speed, used flag and production date.
  That the rating depends on these three fields alone, and not on the stored rating or any
  other field, is an assumption taken from the entity's documented rating rule.
  `MergeTwice`, `MergeIdempotent`, `EmptyMergeKeepsShip` and `EmptyUpdateChangesNothing`
  rest on it.
- The store generates identifiers. Create therefore receives the fresh identifier as a
  parameter, and it must be positive and unused.
- `speed` and `rating` are `real`. They are only compared against bounds. The Java
  constants `0.01D` and `0.99D` are taken as exact decimals.
- `prodDate` is an epoch-millisecond `int`. Crew size and dates are compared as reals in
  the filters; integers embed exactly.
- Name and planet filters use the pattern `%value%`. This is modelled as substring
  containment (`Contains`).

Two behaviours of the code worth noting:

- The date filter compares the raw millisecond values of `after` and `before`
  (`ShipServiceImpl.java:71-84`). A helper that would normalise a timestamp to January 1
  of its year (`ShipServiceImpl.java:162-168`) is never called.
- Update validates the body before it looks at the identifier
  (`RestShipController.java:113-115`). An invalid body is therefore a bad request even
  when the id is unknown or non-positive.

## Model

| member | source | states |
|---|---|---|
| ShipFilters.TextFilter | src/main/java/com/space/service/ShipServiceImpl.java:153-160 | an absent value gives no filter; a present value admits exactly the ships whose field contains it as a substring |
| ShipFilters.FilterByName | src/main/java/com/space/service/ShipServiceImpl.java:45-48 | admits every ship when the name is absent, otherwise exactly the ships whose name contains it |
| ShipFilters.FilterByPlanet | src/main/java/com/space/service/ShipServiceImpl.java:50-53 | admits every ship when the planet is absent, otherwise exactly the ships whose planet contains it |
| ShipFilters.FilterByShipType | src/main/java/com/space/service/ShipServiceImpl.java:55-63 | no filter when the type is absent; otherwise admits exactly the ships of an equal type |
| ShipFilters.FilterByDate | src/main/java/com/space/service/ShipServiceImpl.java:65-87 | no filter iff both bounds are absent; admits a ship iff `after <= prodDate` (when after is given) and `prodDate <= before` (when before is given), on raw milliseconds |
| ShipFilters.FilterByUsage | src/main/java/com/space/service/ShipServiceImpl.java:89-100 | no filter when absent; `true` admits exactly the used ships, `false` exactly the unused ones |
| ShipFilters.RangeFilter | src/main/java/com/space/service/ShipServiceImpl.java:107-114 | no filter iff both bounds are absent; max alone is an upper bound, min alone a lower bound; a ship is admitted iff its value lies within every present bound, inclusive |
| ShipFilters.FilterBySpeed | src/main/java/com/space/service/ShipServiceImpl.java:102-117 | admits a ship iff its speed lies within the present bounds, inclusive |
| ShipFilters.FilterByCrewSize | src/main/java/com/space/service/ShipServiceImpl.java:119-134 | admits a ship iff its crew size lies within the present bounds, inclusive |
| ShipFilters.FilterByRating | src/main/java/com/space/service/ShipServiceImpl.java:136-151 | admits a ship iff its rating lies within the present bounds, inclusive |
| ShipFilters.InvertedRangeAdmitsNothing | src/main/java/com/space/service/ShipServiceImpl.java:114 | when min > max, the both-bounds filter admits no ship |
| ShipFilters.EmptyFragmentAdmitsAll | src/main/java/com/space/service/ShipServiceImpl.java:157 | an empty name or planet fragment admits every ship |
| ShipFilters.AllAdmitEach | src/main/java/com/space/controller/RestShipController.java:169-178 | a chain of filters admits a ship iff each filter in it does, with absent filters admitting all |
| ShipFilters.MatchesIff | src/main/java/com/space/controller/RestShipController.java:169-178 | the chained specification of the eight filters matches a ship iff every supplied parameter's condition holds of it |
| ShipFilters.NoQueryMatchesAll | src/main/java/com/space/controller/RestShipController.java:169-178 | with no parameter at all, every ship matches |
| ShipQueries.Listed | src/main/java/com/space/controller/RestShipController.java:166-181 | the unpaged list holds exactly the stored ships that satisfy every supplied parameter, unchanged |
| ShipQueries.CountWhere | src/main/java/com/space/controller/RestShipController.java:66-69 | the result is the number of stored identifiers whose ship satisfies the predicate, the size of the unpaged result (computed here by a scan of the store; the code takes the list's size) |
| ShipQueries.CountShips | src/main/java/com/space/controller/RestShipController.java:51-70 | the count equals the size of the unpaged list and the number of stored ships satisfying the parameters |
| ShipQueries.Page | src/main/java/com/space/controller/RestShipController.java:46 | a page is the contiguous run of rows starting at `pageNumber * pageSize`: `pageSize` rows when enough remain, all remaining rows on the last page, none past the end |
| ShipQueries.RowOnItsPage | src/main/java/com/space/controller/RestShipController.java:46 | row k appears on page `k / pageSize` at offset `k % pageSize` |
| ShipQueries.PageKeepsFilter | src/main/java/com/space/controller/RestShipController.java:46-48 | a page of a filtered listing holds only ships that satisfy the filters |
| ShipQueries.InvertedDateRangeListsNothing | src/main/java/com/space/service/ShipServiceImpl.java:82-84 | after later than before lists no ship |
| ShipQueries.InvertedSpeedRangeListsNothing | src/main/java/com/space/service/ShipServiceImpl.java:114 | minSpeed above maxSpeed lists no ship |
| ShipQueries.InvertedCrewSizeRangeListsNothing | src/main/java/com/space/service/ShipServiceImpl.java:131 | minCrewSize above maxCrewSize lists no ship |
| ShipQueries.InvertedRatingRangeListsNothing | src/main/java/com/space/service/ShipServiceImpl.java:148 | minRating above maxRating lists no ship |
| ShipQueries.NoQueryListsAll | src/main/java/com/space/controller/RestShipController.java:166-181 | with no parameter, the list is the whole store |
| ShipController.ValidateFields | src/main/java/com/space/controller/RestShipController.java:183-203 | a body passes iff each present name and planet has length in [1, 50], crew size is in [1, 9999], speed in [0.01, 0.99] and production year in [2800, 3019]; an empty body passes |
| ShipController.CreateShip | src/main/java/com/space/controller/RestShipController.java:84-108 | succeeds iff all six required fields are present and in range; otherwise a bad request with the store unchanged; on success exactly the new id is added, holding the body's fields, `isUsed` false unless supplied true, and the derived rating |
| ShipController.Merge | src/main/java/com/space/controller/RestShipController.java:124-146 | every supplied field overwrites the stored one, every omitted field keeps its value, the id is kept, and the rating is re-derived from the merged fields |
| ShipController.UpdateShip | src/main/java/com/space/controller/RestShipController.java:110-151 | an invalid body is a bad request whatever the id; then id < 1 is a bad request and an unknown id is not found, with the store unchanged in each case; on success only that id's entry changes, to the merged ship |
| ShipController.GetShip | src/main/java/com/space/controller/RestShipController.java:72-82 | id < 1 is a bad request whatever the store holds; an unknown id is not found; otherwise the stored ship is returned |
| ShipController.DeleteShip | src/main/java/com/space/controller/RestShipController.java:153-164 | id < 1 is a bad request and an unknown id is not found, with the store unchanged; otherwise exactly that key is removed and the rest is kept |
| ShipController.MergeTwice | src/main/java/com/space/controller/RestShipController.java:125-146 | two updates in a row equal one update with the later body's fields winning |
| ShipController.MergeIdempotent | src/main/java/com/space/controller/RestShipController.java:125-146 | applying the same body twice equals applying it once |
| ShipController.EmptyMergeKeepsShip | src/main/java/com/space/controller/RestShipController.java:125-146 | merging an empty body into a ship whose rating is consistent returns the ship unchanged |
| ShipController.MergeKeepsValid | src/main/java/com/space/controller/RestShipController.java:113-146 | merging a validated body into a valid ship yields a valid ship |
| ShipController.CreateKeepsGoodStore | src/main/java/com/space/controller/RestShipController.java:96-102 | create keeps every stored ship under its own id, in range and consistently rated |
| ShipController.UpdateKeepsGoodStore | src/main/java/com/space/controller/RestShipController.java:113-148 | update keeps every stored ship under its own id, in range and consistently rated |
| ShipController.DeleteKeepsGoodStore | src/main/java/com/space/controller/RestShipController.java:153-164 | delete keeps the store invariant |
| ShipController.EmptyUpdateChangesNothing | src/main/java/com/space/controller/RestShipController.java:110-151 | on a store that keeps its invariant, an update with an empty body leaves the store as it was |
| ShipController.CreateThenGet | src/main/java/com/space/controller/RestShipController.java:96-102 | after a successful create, getting the new id returns the created ship |
| ShipController.CreateThenDelete | src/main/java/com/space/controller/RestShipController.java:153-164 | deleting the id a create used gives back the original store, whether or not the create succeeded |
| ShipController.DeleteThenGet | src/main/java/com/space/controller/RestShipController.java:153-164 | after a delete, getting or deleting the same id is not found |

## Left out

- The web and persistence framework: the criteria-builder expression trees, the repository,
  dependency injection and the HTTP annotations. Filters are plain predicates, and the
  repository is a map.
- Sorting and the order enumeration (`ShipOrder`, not part of this model). `Page` takes an
  already ordered sequence. Bad page numbers or sizes raise exceptions inside the paging
  library, so `Page` requires `pageSize >= 1`.
- The body of `calculateRating` and its half-up rounding. `Ship.java` is not part of this
  model, and the arithmetic is floating point. The rating is the uninterpreted parameter
  `rate`, so no concrete rating value is proved.
- Year extraction through the platform calendar. It depends on the time zone and is the
  parameter `yearOf`.
- The unused year-normalisation helper (`ShipServiceImpl.java:162-168`). No caller uses it.
- SQL `LIKE` wildcards inside user values (`%`, `_`), database collation and case
  sensitivity. A name or planet filter is modelled as plain substring containment.
- `ShipService.java`. It only declares signatures.
- Client-supplied `id` and `rating` in request bodies. Create overwrites the rating and
  update re-derives it. Create, however, passes the whole body, id included, to the
  repository's `save` (`RestShipController.java:101`), so a body carrying a stored ship's
  id reaches the repository with that id; what `save` then does is persistence behaviour.
- CreateShip: its `e.store == store[newId := s]` assumes the request body carries no id,
  so that the store assigns the fresh `newId`.
- Java `String.length()` counts UTF-16 code units. The model counts characters of a
  `string`.
- The repository lookup that get, update and delete perform before checking `id < 1`.
  It has no effect on the store.
- Java integer widths (`Long`, `Integer`). Values are unbounded `int`. Crew size is
  range-checked before it is stored, and timestamps are only compared.
