/** `Range30Validator`: up to two 30–40 hour rows per month are counted; two
    of them together credit the month in full. */
module Range30Validator {
  import opened Common
  import opened Records
  import opened ValidationResult
  import opened BaseValidator

  /** `MAX_OCCURENCY_30` */
  const MaxOccurrences: nat := 2

  /** `validate`: a row is counted, and accepted, exactly when it is in band,
      its month is not in `top` and the month's count is below the cap. */
  function Validate(line: RowProcessData, acc: Accumulator, row: Row): (r: Accumulator)
    ensures var m := line.compValue;
      var counted := InRange(Band30, line.chsAmb) && m !in acc.top && Count(acc.c30, m) < MaxOccurrences;
      && (counted ==> r.c30 == acc.c30[m := Count(acc.c30, m) + 1] && r.validRows == acc.validRows + [row])
      && (!counted ==> r == acc)
    ensures r.top == acc.top && r.c20 == acc.c20 && r.c10 == acc.c10
    ensures r.candidates == acc.candidates && r.added == acc.added && r.validCnes == acc.validCnes
    ensures AtMost(acc.c30, MaxOccurrences) ==> AtMost(r.c30, MaxOccurrences)
    ensures Positive(acc.c30) ==> Positive(r.c30)
  {
    var m := line.compValue;
    if !InRange(Band30, line.chsAmb) || m in acc.top then
      acc
    else
      var occurrences := Count(acc.c30, m);
      if occurrences < MaxOccurrences then
        acc.(c30 := acc.c30[m := occurrences + 1], validRows := acc.validRows + [row])
      else
        acc
  }

  /** `_handle_promotion_to_40`: every month counted twice or more leaves the
      30–40 counts and is credited in full; the other months keep their
      counts. Rows and the other maps are untouched. */
  function PostValidate(acc: Accumulator): (r: Accumulator)
    ensures forall k :: k in r.top <==> k in acc.top || (k in acc.c30 && acc.c30[k] >= MaxOccurrences)
    ensures forall k :: k in r.c30 <==> k in acc.c30 && acc.c30[k] < MaxOccurrences
    ensures forall k :: k in r.c30 ==> r.c30[k] == acc.c30[k]
    ensures AtMost(r.c30, MaxOccurrences - 1)
    ensures r.c20 == acc.c20 && r.c10 == acc.c10 && r.validRows == acc.validRows
    ensures r.candidates == acc.candidates && r.added == acc.added && r.validCnes == acc.validCnes
  {
    var promoted := set k | k in acc.c30 && acc.c30[k] >= MaxOccurrences;
    acc.(top := acc.top + promoted,
         c30 := map k | k in acc.c30 && acc.c30[k] < MaxOccurrences :: acc.c30[k])
  }

  /** A third row for a month already counted twice is dropped. */
  lemma ThirdRowIsDropped(line: RowProcessData, acc: Accumulator, row: Row)
    requires line.compValue in acc.c30 && acc.c30[line.compValue] == 2
    ensures Validate(line, acc, row) == acc
  {
  }
}
