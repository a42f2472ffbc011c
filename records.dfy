/**
 * The records the inventory pages read and write: a child ("kid") and a clothing item,
 * with the enumerations the backend schemas allow for an item's garment type, season and
 * status, and the range the backend admits for a measured height.
 */
module Records {
  import opened Wrappers

  datatype Garment = Jacket | Pants | Boots | Hat | Top | Gloves | Other

  datatype Season = Winter | Spring | Summer | Autumn | All

  datatype Status = Current | Needed | Stored | ToSell

  /** The string a status is stored and filtered under. */
  function StatusName(s: Status): string {
    match s
    case Current => "current"
    case Needed => "needed"
    case Stored => "stored"
    case ToSell => "to-sell"
  }

  /** A clothing item as the server returns it; `id` is its `_id`. */
  datatype Item = Item(id: string, childId: string, garment: Garment, size: string,
                       season: Season, status: Status, notes: string)

  /**
   * A child as the server returns it: `birthMs` is the birthdate in epoch milliseconds and
   * `height` the optional measured height in cm.
   */
  datatype Kid = Kid(id: string, name: string, birthMs: int, height: Option<real>)

  const MIN_HEIGHT_CM: real := 40.0
  const MAX_HEIGHT_CM: real := 200.0

  /** The range of measured heights (in cm) the backend accepts. */
  predicate AdmissibleHeight(h: real) {
    MIN_HEIGHT_CM <= h <= MAX_HEIGHT_CM
  }

  /** A stored child: its height, when there is one, is in the accepted range. */
  predicate StoredKid(k: Kid) {
    k.height.Some? ==> AdmissibleHeight(k.height.value)
  }
}
