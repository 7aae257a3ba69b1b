/** The random draws of the glitch engine.

    The program takes all its randomness from Python's `random.randint(lo, hi)`,
    which returns an integer in the closed range [lo, hi] and raises ValueError
    when lo > hi.  Here the generator's output is injected: a raw draw `r: nat`
    selects the value `lo + r % (hi - lo + 1)`, so every value of the range is
    selected by some draw (RandIntReaches) and no draw selects anything else.
 */
module Random {

  /** The error randint raises for an empty range. */
  datatype RangeError = EmptyRange(lo: int, hi: int)

  /** The outcome of a draw, or of a computation that draws. */
  datatype Result<+T> = Ok(value: T) | Err(error: RangeError)

  /** randint(lo, hi) with the generator's raw output `r`. */
  function RandInt(lo: int, hi: int, r: nat): (v: Result<int>)
    ensures v.Ok? <==> lo <= hi
    ensures v.Ok? ==> lo <= v.value <= hi
    ensures v.Err? ==> v.error == EmptyRange(lo, hi)
  {
    if lo <= hi then Ok(lo + r % (hi - lo + 1)) else Err(EmptyRange(lo, hi))
  }

  /** Every value of a non-empty range is the outcome of some draw. */
  lemma RandIntReaches(lo: int, hi: int, v: int)
    requires lo <= v <= hi
    ensures exists r: nat :: RandInt(lo, hi, r) == Ok(v)
  {
    RandIntExact(lo, hi, v);
  }

  /** The draw v - lo selects v itself. */
  lemma RandIntExact(lo: int, hi: int, v: int)
    requires lo <= v <= hi
    ensures RandInt(lo, hi, v - lo) == Ok(v)
  {
  }
}
