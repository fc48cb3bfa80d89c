/** The ship entity, the request body that carries a partial ship, and the field ranges
    that the controller enforces. */
module ShipModel {
  import opened Options

  datatype ShipType = Transport | Military | Merchant

  /** A stored ship. `prodDate` is the production date as epoch milliseconds;
      `speed` and `rating` are compared against bounds only, so they are reals. */
  datatype Ship = Ship(
    id: int,
    name: string,
    planet: string,
    shipType: ShipType,
    prodDate: int,
    isUsed: bool,
    speed: real,
    crewSize: int,
    rating: real)

  /** A ship as it arrives in a JSON request body: every client-supplied field may be null.
      The body's id and rating are never read by the controller, so they are not carried. */
  datatype ShipBody = ShipBody(
    name: Option<string>,
    planet: Option<string>,
    shipType: Option<ShipType>,
    prodDate: Option<int>,
    isUsed: Option<bool>,
    speed: Option<real>,
    crewSize: Option<int>)
  {
    /** True when the client supplied no field at all. */
    predicate Empty() {
      name.None? && planet.None? && shipType.None? && prodDate.None?
      && isUsed.None? && speed.None? && crewSize.None?
    }
  }

  const EmptyBody := ShipBody(None, None, None, None, None, None, None)

  /** Field ranges, all inclusive. */
  const MinTextLength := 1
  const MaxTextLength := 50
  const MinCrewSize := 1
  const MaxCrewSize := 9999
  const MinSpeed: real := 0.01
  const MaxSpeed: real := 0.99
  const MinYear := 2800
  const MaxYear := 3019

  /** Year of a millisecond timestamp, as the platform calendar computes it (time-zone dependent). */
  type YearOf = int -> int

  /** The rating derivation, a function of speed, usage flag and production date. */
  type Rater = (real, bool, int) -> real

  predicate TextOk(s: string) { MinTextLength <= |s| <= MaxTextLength }
  predicate CrewSizeOk(n: int) { MinCrewSize <= n <= MaxCrewSize }
  predicate SpeedOk(x: real) { MinSpeed <= x <= MaxSpeed }
  predicate YearOk(y: int) { MinYear <= y <= MaxYear }

  /** Every range rule holds of the ship's fields. */
  predicate ValidShip(s: Ship, yearOf: YearOf) {
    && TextOk(s.name)
    && TextOk(s.planet)
    && CrewSizeOk(s.crewSize)
    && SpeedOk(s.speed)
    && YearOk(yearOf(s.prodDate))
  }

  /** The stored rating is the one derived from the ship's own fields. */
  predicate RatingConsistent(s: Ship, rate: Rater) {
    s.rating == rate(s.speed, s.isUsed, s.prodDate)
  }
}
