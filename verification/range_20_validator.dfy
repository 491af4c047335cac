/** `Range20Validator`: up to two 20–30 hour rows per month are counted; a
    month with both a 30–40 and a 20–30 count is credited in full. */
module Range20Validator {
  import opened Common
  import opened Records
  import opened ValidationResult
  import opened BaseValidator

  /** `MAX_OCCURENCY_20` */
  const MaxOccurrences: nat := 2

  /** `validate`: a row is counted, and accepted, exactly when it is in band,
      its month is not in `top` and the month's count is below the cap. */
  function Validate(line: RowProcessData, acc: Accumulator, row: Row): (r: Accumulator)
    ensures var m := line.compValue;
      var counted := InRange(Band20, line.chsAmb) && m !in acc.top && Count(acc.c20, m) < MaxOccurrences;
      && (counted ==> r.c20 == acc.c20[m := Count(acc.c20, m) + 1] && r.validRows == acc.validRows + [row])
      && (!counted ==> r == acc)
    ensures r.top == acc.top && r.c30 == acc.c30 && r.c10 == acc.c10
    ensures r.candidates == acc.candidates && r.added == acc.added && r.validCnes == acc.validCnes
    ensures AtMost(acc.c20, MaxOccurrences) ==> AtMost(r.c20, MaxOccurrences)
    ensures Positive(acc.c20) ==> Positive(r.c20)
  {
    var m := line.compValue;
    if !InRange(Band20, line.chsAmb) || m in acc.top then
      acc
    else
      var occurrences := Count(acc.c20, m);
      if occurrences < MaxOccurrences then
        acc.(c20 := acc.c20[m := occurrences + 1], validRows := acc.validRows + [row])
      else
        acc
  }

  /** `_promote_overlapping_values_20_30`: the months present in both the
      30–40 and the 20–30 counts leave both and are credited in full; months
      in only one of them keep their counts. */
  function PostValidate(acc: Accumulator): (r: Accumulator)
    ensures forall k :: k in r.top <==> k in acc.top || (k in acc.c30 && k in acc.c20)
    ensures forall k :: k in r.c30 <==> k in acc.c30 && k !in acc.c20
    ensures forall k :: k in r.c20 <==> k in acc.c20 && k !in acc.c30
    ensures forall k :: k in r.c30 ==> r.c30[k] == acc.c30[k]
    ensures forall k :: k in r.c20 ==> r.c20[k] == acc.c20[k]
    ensures r.c30.Keys !! r.c20.Keys
    ensures r.c10 == acc.c10 && r.validRows == acc.validRows
    ensures r.candidates == acc.candidates && r.added == acc.added && r.validCnes == acc.validCnes
  {
    var common := acc.c30.Keys * acc.c20.Keys;
    acc.(top := acc.top + common, c30 := acc.c30 - common, c20 := acc.c20 - common)
  }

  /** A third row for a month already counted twice is dropped. */
  lemma ThirdRowIsDropped(line: RowProcessData, acc: Accumulator, row: Row)
    requires line.compValue in acc.c20 && acc.c20[line.compValue] == 2
    ensures Validate(line, acc, row) == acc
  {
  }
}
