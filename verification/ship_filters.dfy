/** The per-field filters of the ship service and their conjunction.
    Each filter is either "no constraint" (`None`, a specification whose predicate is null) or one
    comparison on one field (`Some(criterion)`). */
module ShipFilters {
  import opened Options
  import opened ShipModel

  datatype TextField = NameField | PlanetField
  datatype NumericField = ProdDateField | SpeedField | CrewSizeField | RatingField

  function TextOf(s: Ship, f: TextField): (r: string) {
    match f
    case NameField => s.name
    case PlanetField => s.planet
  }

  /** Numeric fields are compared as reals; integer fields embed exactly. */
  function NumberOf(s: Ship, f: NumericField): (r: real) {
    match f
    case ProdDateField => s.prodDate as real
    case SpeedField => s.speed
    case CrewSizeField => s.crewSize as real
    case RatingField => s.rating
  }

  /** The comparisons the service asks the criteria builder for. */
  datatype Criterion =
    | Like(text: TextField, fragment: string)
    | TypeIs(shipType: ShipType)
    | UsedIs(used: bool)
    | AtMost(field: NumericField, max: real)
    | AtLeast(field: NumericField, min: real)
    | Between(field: NumericField, min: real, max: real)

  /** `fragment` occurs in `text` starting at index `i`. */
  predicate OccursAt(text: string, fragment: string, i: int) {
    0 <= i && i + |fragment| <= |text| && text[i..i + |fragment|] == fragment
  }

  /** Substring containment: the meaning of the pattern `%fragment%` when the fragment holds no wildcard. */
  predicate Contains(text: string, fragment: string) {
    exists i :: 0 <= i <= |text| && OccursAt(text, fragment, i)
  }

  predicate Satisfies(s: Ship, c: Criterion) {
    match c
    case Like(f, fragment) => Contains(TextOf(s, f), fragment)
    case TypeIs(t) => s.shipType == t
    case UsedIs(b) => if b then s.isUsed else !s.isUsed
    case AtMost(f, max) => NumberOf(s, f) <= max
    case AtLeast(f, min) => NumberOf(s, f) >= min
    case Between(f, min, max) => min <= NumberOf(s, f) <= max
  }

  /** A filter; `None` imposes no constraint. */
  type Filter = Option<Criterion>

  predicate Admits(f: Filter, s: Ship) {
    f.None? || Satisfies(s, f.value)
  }

  /** Reference meaning of an optional inclusive range: each present bound holds. */
  predicate InRange(x: real, min: Option<real>, max: Option<real>) {
    (min.None? || min.value <= x) && (max.None? || x <= max.value)
  }

  function IntToReal(o: Option<int>): (r: Option<real>)
    ensures r.None? <==> o.None?
    ensures o.Some? ==> r.value == o.value as real
  {
    match o
    case None => None
    case Some(n) => Some(n as real)
  }

  /** The shared substring filter behind the name and planet filters. */
  function TextFilter(field: TextField, value: Option<string>): (f: Filter)
    ensures f.None? <==> value.None?
    ensures forall s :: Admits(f, s) <==> value.None? || Contains(TextOf(s, field), value.value)
  {
    if value.None? then None else Some(Like(field, value.value))
  }

  /** The four-case range filter shared by the date, speed, crew-size and rating filters:
      neither bound gives no constraint, max alone an upper bound, min alone a lower bound,
      both an inclusive range. */
  function RangeFilter(field: NumericField, min: Option<real>, max: Option<real>): (f: Filter)
    ensures f.None? <==> min.None? && max.None?
    ensures min.None? && max.Some? ==> f == Some(AtMost(field, max.value))
    ensures min.Some? && max.None? ==> f == Some(AtLeast(field, min.value))
    ensures forall s :: Admits(f, s) <==> InRange(NumberOf(s, field), min, max)
  {
    if min.None? && max.None? then None
    else if min.None? then Some(AtMost(field, max.value))
    else if max.None? then Some(AtLeast(field, min.value))
    else Some(Between(field, min.value, max.value))
  }

  /** An inverted range (min > max) admits no ship, since both ends are inclusive. */
  lemma InvertedRangeAdmitsNothing(field: NumericField, min: real, max: real, s: Ship)
    requires min > max
    ensures !Admits(RangeFilter(field, Some(min), Some(max)), s)
  {
  }

  function FilterByName(name: Option<string>): (f: Filter)
    ensures f.None? <==> name.None?
    ensures forall s :: Admits(f, s) <==> name.None? || Contains(s.name, name.value)
  {
    TextFilter(NameField, name)
  }

  function FilterByPlanet(planet: Option<string>): (f: Filter)
    ensures f.None? <==> planet.None?
    ensures forall s :: Admits(f, s) <==> planet.None? || Contains(s.planet, planet.value)
  {
    TextFilter(PlanetField, planet)
  }

  function FilterByShipType(shipType: Option<ShipType>): (f: Filter)
    ensures f.None? <==> shipType.None?
    ensures forall s :: Admits(f, s) <==> shipType.None? || s.shipType == shipType.value
  {
    if shipType.None? then None else Some(TypeIs(shipType.value))
  }

  /** Raw millisecond bounds: `after` is the lower bound and `before` the upper one. */
  function FilterByDate(after: Option<int>, before: Option<int>): (f: Filter)
    ensures f.None? <==> after.None? && before.None?
    ensures forall s :: Admits(f, s) <==>
      (after.None? || after.value <= s.prodDate) && (before.None? || s.prodDate <= before.value)
  {
    RangeFilter(ProdDateField, IntToReal(after), IntToReal(before))
  }

  function FilterByUsage(isUsed: Option<bool>): (f: Filter)
    ensures f.None? <==> isUsed.None?
    ensures isUsed == Some(true) ==> forall s :: Admits(f, s) <==> s.isUsed
    ensures isUsed == Some(false) ==> forall s :: Admits(f, s) <==> !s.isUsed
  {
    if isUsed.None? then None else Some(UsedIs(isUsed.value))
  }

  function FilterBySpeed(min: Option<real>, max: Option<real>): (f: Filter)
    ensures f.None? <==> min.None? && max.None?
    ensures forall s :: Admits(f, s) <==> InRange(s.speed, min, max)
  {
    RangeFilter(SpeedField, min, max)
  }

  function FilterByCrewSize(min: Option<int>, max: Option<int>): (f: Filter)
    ensures f.None? <==> min.None? && max.None?
    ensures forall s :: Admits(f, s) <==>
      (min.None? || min.value <= s.crewSize) && (max.None? || s.crewSize <= max.value)
  {
    RangeFilter(CrewSizeField, IntToReal(min), IntToReal(max))
  }

  function FilterByRating(min: Option<real>, max: Option<real>): (f: Filter)
    ensures f.None? <==> min.None? && max.None?
    ensures forall s :: Admits(f, s) <==> InRange(s.rating, min, max)
  {
    RangeFilter(RatingField, min, max)
  }

  /** The optional query parameters shared by the list and count endpoints. */
  datatype Query = Query(
    name: Option<string>,
    planet: Option<string>,
    shipType: Option<ShipType>,
    after: Option<int>,
    before: Option<int>,
    isUsed: Option<bool>,
    minSpeed: Option<real>,
    maxSpeed: Option<real>,
    minCrewSize: Option<int>,
    maxCrewSize: Option<int>,
    minRating: Option<real>,
    maxRating: Option<real>)

  const NoQuery := Query(None, None, None, None, None, None, None, None, None, None, None, None)

  /** The eight filters, in the order the controller chains them with `and`. */
  function Filters(q: Query): (fs: seq<Filter>)
    ensures |fs| == 8
  {
    [ FilterByName(q.name),
      FilterByPlanet(q.planet),
      FilterByShipType(q.shipType),
      FilterByDate(q.after, q.before),
      FilterByUsage(q.isUsed),
      FilterBySpeed(q.minSpeed, q.maxSpeed),
      FilterByCrewSize(q.minCrewSize, q.maxCrewSize),
      FilterByRating(q.minRating, q.maxRating) ]
  }

  /** Conjunction of a chain of filters; an absent filter drops out of the chain. */
  predicate AllAdmit(fs: seq<Filter>, s: Ship) {
    |fs| == 0 || (Admits(fs[0], s) && AllAdmit(fs[1..], s))
  }

  /** The composed specification of a query. */
  predicate Matches(s: Ship, q: Query) {
    AllAdmit(Filters(q), s)
  }

  /** Reference definition of a query, parameter by parameter. */
  predicate Selected(s: Ship, q: Query) {
    && (q.name.None? || Contains(s.name, q.name.value))
    && (q.planet.None? || Contains(s.planet, q.planet.value))
    && (q.shipType.None? || s.shipType == q.shipType.value)
    && (q.after.None? || q.after.value <= s.prodDate)
    && (q.before.None? || s.prodDate <= q.before.value)
    && (q.isUsed.None? || s.isUsed == q.isUsed.value)
    && (q.minSpeed.None? || q.minSpeed.value <= s.speed)
    && (q.maxSpeed.None? || s.speed <= q.maxSpeed.value)
    && (q.minCrewSize.None? || q.minCrewSize.value <= s.crewSize)
    && (q.maxCrewSize.None? || s.crewSize <= q.maxCrewSize.value)
    && (q.minRating.None? || q.minRating.value <= s.rating)
    && (q.maxRating.None? || s.rating <= q.maxRating.value)
  }

  /** A chain admits a ship exactly when every filter in it does. */
  lemma {:induction false} AllAdmitEach(fs: seq<Filter>, s: Ship)
    ensures AllAdmit(fs, s) <==> forall i :: 0 <= i < |fs| ==> Admits(fs[i], s)
    decreases |fs|
  {
    if |fs| > 0 {
      AllAdmitEach(fs[1..], s);
      assert forall i :: 1 <= i < |fs| ==> fs[i] == fs[1..][i - 1];
    }
  }

  /** The composed specification selects exactly the ships the parameters describe. */
  lemma MatchesIff(s: Ship, q: Query)
    ensures Matches(s, q) <==> Selected(s, q)
  {
    var fs := Filters(q);
    AllAdmitEach(fs, s);
    assert (forall i :: 0 <= i < |fs| ==> Admits(fs[i], s)) <==>
      Admits(fs[0], s) && Admits(fs[1], s) && Admits(fs[2], s) && Admits(fs[3], s)
      && Admits(fs[4], s) && Admits(fs[5], s) && Admits(fs[6], s) && Admits(fs[7], s);
  }

  /** With no parameter at all, every ship matches. */
  lemma NoQueryMatchesAll(s: Ship)
    ensures Matches(s, NoQuery)
  {
    MatchesIff(s, NoQuery);
  }

  /** An empty name fragment (pattern `%%`) admits every ship. */
  lemma EmptyFragmentAdmitsAll(field: TextField, s: Ship)
    ensures Admits(TextFilter(field, Some([])), s)
  {
    assert OccursAt(TextOf(s, field), [], 0);
  }
}
