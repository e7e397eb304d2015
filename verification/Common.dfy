/** Types and integer arithmetic shared by every part of the model. */
module Common {

  datatype Option<+T> = None | Some(value: T)

  datatype Result<+T, +E> = Ok(value: T) | Err(error: E) {
    predicate IsFailure() {
      Err?
    }

    function PropagateFailure<U>(): Result<U, E>
      requires Err?
    {
      Err(error)
    }

    function Extract(): T
      requires Ok?
    {
      value
    }
  }

  /** Primary key of a row in the user table. */
  type UserId = nat

  /** An instant or a duration, in nanoseconds, as Go's time package counts them. */
  type Nanos = int

  const SECOND: int := 1_000_000_000
  const TWO_TO_THE_63: int := 0x8000_0000_0000_0000
  const TWO_TO_THE_64: int := 0x1_0000_0000_0000_0000

  /** The value a mathematical integer has once it is stored in an int64. */
  function WrapInt64(x: int): (r: int)
    ensures -TWO_TO_THE_63 <= r < TWO_TO_THE_63
    ensures -TWO_TO_THE_63 <= x < TWO_TO_THE_63 ==> r == x
    ensures (x - r) % TWO_TO_THE_64 == 0
  {
    (x + TWO_TO_THE_63) % TWO_TO_THE_64 - TWO_TO_THE_63
  }

  /** The largest number of seconds whose nanosecond count still fits an int64. */
  const MAX_SECONDS: int := 9_223_372_036

  /** The Go expression `time.Duration(seconds) * time.Second`. */
  function DurationOfSeconds(seconds: int): Nanos {
    WrapInt64(seconds * SECOND)
  }

  function Max(a: int, b: int): int {
    if a < b then b else a
  }

  function Min(a: int, b: int): int {
    if a < b then a else b
  }

  lemma SomeElement<T>(s: set<T>) returns (x: T)
    requires s != {}
    ensures x in s
  {
    x :| x in s;
  }

  /** The integers lo, lo + 1, ..., hi - 1 in order. */
  function Range(lo: int, hi: int): (r: seq<int>)
    ensures |r| == if lo <= hi then hi - lo else 0
    ensures forall i | 0 <= i < |r| :: r[i] == lo + i
  {
    if lo <= hi then seq(hi - lo, i requires 0 <= i < hi - lo => lo + i) else []
  }
}
