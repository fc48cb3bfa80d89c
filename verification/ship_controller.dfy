/** The entity rules of the ship controller: field validation, create with its defaults,
    partial update, and the identifier rules of get, update and delete. */
module ShipController {
  import opened Options
  import opened ShipModel
  import opened ShipQueries

  /** What the controller answers; `Ok(None)` is a success with an empty body. */
  datatype Response = Ok(body: Option<Ship>) | BadRequest | NotFound

  /** A response together with the store after the call. */
  datatype Effect = Effect(response: Response, store: Store)

  /** Every supplied field of a body lies in its range; absent fields pass. */
  predicate BodyInRange(b: ShipBody, yearOf: YearOf) {
    && (b.name.None? || TextOk(b.name.value))
    && (b.planet.None? || TextOk(b.planet.value))
    && (b.crewSize.None? || CrewSizeOk(b.crewSize.value))
    && (b.speed.None? || SpeedOk(b.speed.value))
    && (b.prodDate.None? || YearOk(yearOf(b.prodDate.value)))
  }

  /** Field validation as the controller runs it: name, planet, crew size and speed are
      rejected in turn when present and out of range, and a present production date
      decides the outcome by its year. */
  function ValidateFields(b: ShipBody, yearOf: YearOf): (ok: bool)
    ensures ok <==> BodyInRange(b, yearOf)
    ensures b.Empty() ==> ok
  {
    if b.name.Some? && (|b.name.value| < MinTextLength || |b.name.value| > MaxTextLength) then false
    else if b.planet.Some? && (|b.planet.value| < MinTextLength || |b.planet.value| > MaxTextLength) then false
    else if b.crewSize.Some? && (b.crewSize.value < MinCrewSize || b.crewSize.value > MaxCrewSize) then false
    else if b.speed.Some? && (b.speed.value < MinSpeed || b.speed.value > MaxSpeed) then false
    else if b.prodDate.Some? then
      var year := yearOf(b.prodDate.value);
      year >= MinYear && year <= MaxYear
    else true
  }

  /** The fields create demands; `isUsed` is the only optional one. */
  predicate Complete(b: ShipBody) {
    b.name.Some? && b.planet.Some? && b.shipType.Some? && b.prodDate.Some?
    && b.speed.Some? && b.crewSize.Some?
  }

  /** Every stored ship sits under its own id, has fields in range and the rating its
      fields derive. */
  predicate GoodStore(store: Store, yearOf: YearOf, rate: Rater) {
    forall id :: id in store ==>
      store[id].id == id && ValidShip(store[id], yearOf) && RatingConsistent(store[id], rate)
  }

  /** Create. `newId` is the identifier the store generates for the new row. */
  function CreateShip(store: Store, b: ShipBody, newId: int, yearOf: YearOf, rate: Rater): (e: Effect)
    requires newId >= 1 && newId !in store
    ensures e.response.Ok? <==> Complete(b) && BodyInRange(b, yearOf)
    ensures !e.response.Ok? ==> e.response == BadRequest && e.store == store
    ensures e.response.Ok? ==> e.response.body.Some?
    ensures e.response.Ok? && e.response.body.Some? ==>
      var s := e.response.body.value;
      && e.store == store[newId := s]
      && s.id == newId
      && s.name == b.name.value && s.planet == b.planet.value
      && s.shipType == b.shipType.value && s.prodDate == b.prodDate.value
      && s.isUsed == (b.isUsed == Some(true))
      && s.speed == b.speed.value && s.crewSize == b.crewSize.value
      && s.rating == rate(s.speed, s.isUsed, s.prodDate)
  {
    if b.name.None? || b.planet.None? || b.shipType.None? || b.prodDate.None?
       || b.speed.None? || b.crewSize.None?
    then Effect(BadRequest, store)
    else
      var used := b.isUsed.GetOr(false);
      var filled := b.(isUsed := Some(used));
      if ValidateFields(filled, yearOf) then
        var s := Ship(newId, b.name.value, b.planet.value, b.shipType.value, b.prodDate.value,
                      used, b.speed.value, b.crewSize.value, 0.0);
        var rated := s.(rating := rate(s.speed, s.isUsed, s.prodDate));
        Effect(Ok(Some(rated)), store[newId := rated])
      else Effect(BadRequest, store)
  }

  /** Copy each supplied field over the stored ship, then re-derive the rating from the result. */
  function Merge(stored: Ship, b: ShipBody, rate: Rater): (s: Ship)
    ensures s.id == stored.id
    ensures s.name == b.name.GetOr(stored.name)
    ensures s.planet == b.planet.GetOr(stored.planet)
    ensures s.shipType == b.shipType.GetOr(stored.shipType)
    ensures s.prodDate == b.prodDate.GetOr(stored.prodDate)
    ensures s.isUsed == b.isUsed.GetOr(stored.isUsed)
    ensures s.speed == b.speed.GetOr(stored.speed)
    ensures s.crewSize == b.crewSize.GetOr(stored.crewSize)
    ensures RatingConsistent(s, rate)
  {
    var edited := stored.(
      name := b.name.GetOr(stored.name),
      planet := b.planet.GetOr(stored.planet),
      shipType := b.shipType.GetOr(stored.shipType),
      prodDate := b.prodDate.GetOr(stored.prodDate),
      isUsed := b.isUsed.GetOr(stored.isUsed),
      speed := b.speed.GetOr(stored.speed),
      crewSize := b.crewSize.GetOr(stored.crewSize));
    edited.(rating := rate(edited.speed, edited.isUsed, edited.prodDate))
  }

  /** Update: the body is validated before the identifier is looked at; then a
      non-positive id is a bad request and an unknown id is not found. */
  function UpdateShip(store: Store, id: int, b: ShipBody, yearOf: YearOf, rate: Rater): (e: Effect)
    ensures !BodyInRange(b, yearOf) ==> e == Effect(BadRequest, store)
    ensures BodyInRange(b, yearOf) && id < 1 ==> e == Effect(BadRequest, store)
    ensures BodyInRange(b, yearOf) && id >= 1 && id !in store ==> e == Effect(NotFound, store)
    ensures e.response.Ok? <==> BodyInRange(b, yearOf) && id >= 1 && id in store
    ensures e.response.Ok? ==>
      && e.response.body == Some(Merge(store[id], b, rate))
      && e.store.Keys == store.Keys
      && e.store[id] == Merge(store[id], b, rate)
      && forall k :: k in store && k != id ==> e.store[k] == store[k]
  {
    if !ValidateFields(b, yearOf) then Effect(BadRequest, store)
    else if id < 1 then Effect(BadRequest, store)
    else if id !in store then Effect(NotFound, store)
    else
      var edited := Merge(store[id], b, rate);
      Effect(Ok(Some(edited)), store[id := edited])
  }

  /** Get by identifier. */
  function GetShip(store: Store, id: int): (r: Response)
    ensures id < 1 ==> r == BadRequest
    ensures id >= 1 && id !in store ==> r == NotFound
    ensures r.Ok? <==> id >= 1 && id in store
    ensures r.Ok? ==> r.body == Some(store[id])
  {
    if id < 1 then BadRequest
    else if id !in store then NotFound
    else Ok(Some(store[id]))
  }

  /** Delete by identifier; success answers with an empty body. */
  function DeleteShip(store: Store, id: int): (e: Effect)
    ensures id < 1 ==> e == Effect(BadRequest, store)
    ensures id >= 1 && id !in store ==> e == Effect(NotFound, store)
    ensures e.response.Ok? <==> id >= 1 && id in store
    ensures e.response.Ok? ==>
      && e.response.body.None?
      && e.store.Keys == store.Keys - {id}
      && forall k :: k in e.store ==> e.store[k] == store[k]
  {
    if id < 1 then Effect(BadRequest, store)
    else if id !in store then Effect(NotFound, store)
    else Effect(Ok(None), store - {id})
  }

  /** A later body's supplied fields win over an earlier one's. */
  function Overlay(first: ShipBody, second: ShipBody): (b: ShipBody)
    ensures b.Empty() <==> first.Empty() && second.Empty()
  {
    ShipBody(
      if second.name.Some? then second.name else first.name,
      if second.planet.Some? then second.planet else first.planet,
      if second.shipType.Some? then second.shipType else first.shipType,
      if second.prodDate.Some? then second.prodDate else first.prodDate,
      if second.isUsed.Some? then second.isUsed else first.isUsed,
      if second.speed.Some? then second.speed else first.speed,
      if second.crewSize.Some? then second.crewSize else first.crewSize)
  }

  /** Two merges in a row are one merge of the overlaid bodies: the last writer wins field by field. */
  lemma MergeTwice(s: Ship, first: ShipBody, second: ShipBody, rate: Rater)
    ensures Merge(Merge(s, first, rate), second, rate) == Merge(s, Overlay(first, second), rate)
  {
  }

  /** Applying the same body twice changes nothing the first application did not. */
  lemma MergeIdempotent(s: Ship, b: ShipBody, rate: Rater)
    ensures Merge(Merge(s, b, rate), b, rate) == Merge(s, b, rate)
  {
  }

  /** An update with an empty body leaves a consistent ship exactly as it was. */
  lemma EmptyMergeKeepsShip(s: Ship, rate: Rater)
    requires RatingConsistent(s, rate)
    ensures Merge(s, EmptyBody, rate) == s
  {
  }

  /** A merged body that passed validation keeps a valid ship valid. */
  lemma MergeKeepsValid(s: Ship, b: ShipBody, yearOf: YearOf, rate: Rater)
    requires ValidShip(s, yearOf) && BodyInRange(b, yearOf)
    ensures ValidShip(Merge(s, b, rate), yearOf)
  {
  }

  /** Create keeps the store invariant. */
  lemma CreateKeepsGoodStore(store: Store, b: ShipBody, newId: int, yearOf: YearOf, rate: Rater)
    requires newId >= 1 && newId !in store
    requires GoodStore(store, yearOf, rate)
    ensures GoodStore(CreateShip(store, b, newId, yearOf, rate).store, yearOf, rate)
  {
  }

  /** Update keeps the store invariant: omitted fields were already valid, supplied ones were
      validated, and the rating is re-derived. */
  lemma UpdateKeepsGoodStore(store: Store, id: int, b: ShipBody, yearOf: YearOf, rate: Rater)
    requires GoodStore(store, yearOf, rate)
    ensures GoodStore(UpdateShip(store, id, b, yearOf, rate).store, yearOf, rate)
  {
  }

  /** Delete keeps the store invariant. */
  lemma DeleteKeepsGoodStore(store: Store, id: int, yearOf: YearOf, rate: Rater)
    requires GoodStore(store, yearOf, rate)
    ensures GoodStore(DeleteShip(store, id).store, yearOf, rate)
  {
  }

  /** An update with an empty body, on a store that keeps its invariant, changes nothing. */
  lemma EmptyUpdateChangesNothing(store: Store, id: int, yearOf: YearOf, rate: Rater)
    requires GoodStore(store, yearOf, rate)
    ensures UpdateShip(store, id, EmptyBody, yearOf, rate).store == store
  {
  }

  /** A created ship can be read back under its new id. */
  lemma CreateThenGet(store: Store, b: ShipBody, newId: int, yearOf: YearOf, rate: Rater)
    requires newId >= 1 && newId !in store
    ensures var e := CreateShip(store, b, newId, yearOf, rate);
      e.response.Ok? ==> GetShip(e.store, newId) == e.response
  {
  }

  /** Deleting a freshly created ship restores the store. */
  lemma CreateThenDelete(store: Store, b: ShipBody, newId: int, yearOf: YearOf, rate: Rater)
    requires newId >= 1 && newId !in store
    ensures DeleteShip(CreateShip(store, b, newId, yearOf, rate).store, newId).store == store
  {
  }

  /** After a delete the id is gone: reading it is not found, deleting it again is not found. */
  lemma DeleteThenGet(store: Store, id: int)
    requires id >= 1 && id in store
    ensures GetShip(DeleteShip(store, id).store, id) == NotFound
    ensures DeleteShip(DeleteShip(store, id).store, id).response == NotFound
  {
  }
}
