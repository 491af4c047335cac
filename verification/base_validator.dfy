/** `BaseValidator`: the hour bands of the four strategies. Each band is the
    half-open interval [lower, upper) of weekly hours ("CHS AMB."). */
module BaseValidator {
  import opened Common

  datatype Band = Band40 | Band30 | Band20 | Band10

  /** The lower bound each strategy passes to the constructor; it is also the
      admission threshold of its pass. */
  function LowerBound(band: Band): real
  {
    match band
    case Band40 => 40.0
    case Band30 => 30.0
    case Band20 => 20.0
    case Band10 => 10.0
  }

  /** The upper bound each strategy passes; `None` is `float('inf')`. */
  function UpperBound(band: Band): Option<real>
  {
    match band
    case Band40 => None
    case Band30 => Some(40.0)
    case Band20 => Some(30.0)
    case Band10 => Some(20.0)
  }

  /** `_is_in_range`: `lower <= hours < upper`. */
  predicate InRange(band: Band, hours: real)
  {
    LowerBound(band) <= hours && (UpperBound(band).None? || hours < UpperBound(band).value)
  }

  /** Each band's lower bound is the next band's upper bound, so the upper
      bound is exclusive and the lower one inclusive. */
  lemma BandsAreAdjacent()
    ensures UpperBound(Band30) == Some(LowerBound(Band40))
    ensures UpperBound(Band20) == Some(LowerBound(Band30))
    ensures UpperBound(Band10) == Some(LowerBound(Band20))
  {
  }

  /** Every number of hours from 10 up lies in exactly one band, and fewer
      than 10 hours in none. */
  lemma BandsPartitionHours(hours: real)
    ensures hours < 10.0 ==> forall b: Band :: !InRange(b, hours)
    ensures hours >= 10.0 ==> exists b: Band :: InRange(b, hours)
    ensures forall b1: Band, b2: Band :: InRange(b1, hours) && InRange(b2, hours) ==> b1 == b2
  {
    if hours >= 10.0 {
      var b := if hours >= 40.0 then Band40 else if hours >= 30.0 then Band30 else if hours >= 20.0 then Band20 else Band10;
      assert InRange(b, hours);
    }
  }

  /** The 10–20 band rejects 8 hours, accepts 10 and rejects 20. */
  lemma Band10Examples()
    ensures !InRange(Band10, 8.0) && InRange(Band10, 10.0) && !InRange(Band10, 20.0)
  {
  }
}
