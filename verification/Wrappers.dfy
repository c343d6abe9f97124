/** Shared value types. */
module Wrappers {

  datatype Option<+T> = None | Some(value: T)

  datatype Result<+T, +E> = Ok(value: T) | Err(error: E)

  /** A JavaScript number: finite, or one of the infinities and NaN. */
  datatype Num = Finite(value: real) | NotFinite

  function Max(a: int, b: int): int {
    if a >= b then a else b
  }

  function Min(a: int, b: int): int {
    if a <= b then a else b
  }

  /** Some number is not in use. */
  lemma {:induction false} FreshId(ids: set<nat>) returns (id: nat)
    ensures forall x: nat | x in ids :: x < id
  {
    if ids == {} {
      id := 0;
    } else {
      var y: nat :| y in ids;
      var rest := FreshId(ids - {y});
      id := Max(rest, y + 1);
      forall x: nat | x in ids ensures x < id {
        assert x == y || x in ids - {y};
      }
    }
  }
}
