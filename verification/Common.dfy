/** Types shared by the controller, the store and the send path. */
module Common {

  datatype Option<+T> = None | Some(value: T) {
    function GetOr(default: T): T {
      match this
      case None => default
      case Some(v) => v
    }
  }

  /** A value, or an error without further detail. */
  datatype Try<+T> = Success(value: T) | Failure

  /** A probe is identified by the run that sent it and its sequence number in that run. */
  datatype ProbeKey = ProbeKey(run: nat, sequence: nat)

  function Max(a: int, b: int): int { if a < b then b else a }

  function Min(a: int, b: int): int { if a < b then a else b }

  /** Some element of a non-empty set: the order in which a Go map is visited is unspecified. */
  ghost function Pick<T>(s: set<T>): (x: T)
    requires s != {}
    ensures x in s
  {
    var x :| x in s;
    x
  }

  method Choose<T(==)>(s: set<T>) returns (x: T)
    requires s != {}
    ensures x in s
  {
    x :| x in s;
  }
}
