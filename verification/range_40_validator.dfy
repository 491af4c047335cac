/** `Range40Validator`: 40 hours or more credit the month in full, once. */
module Range40Validator {
  import opened Records
  import opened ValidationResult
  import opened BaseValidator

  /** `validate`: an in-band row whose month is not yet credited credits it
      and is accepted; any other row changes nothing. No count map or buffer
      is touched. */
  function Validate(line: RowProcessData, acc: Accumulator, row: Row): (r: Accumulator)
    ensures var accepted := InRange(Band40, line.chsAmb) && line.compValue !in acc.top;
      && (accepted ==> r.top == acc.top + {line.compValue} && r.validRows == acc.validRows + [row])
      && (!accepted ==> r == acc)
    ensures r.c30 == acc.c30 && r.c20 == acc.c20 && r.c10 == acc.c10
    ensures r.candidates == acc.candidates && r.added == acc.added && r.validCnes == acc.validCnes
    ensures |r.top| - |acc.top| == |r.validRows| - |acc.validRows|
  {
    if InRange(Band40, line.chsAmb) && line.compValue !in acc.top then
      acc.(top := acc.top + {line.compValue}, validRows := acc.validRows + [row])
    else
      acc
  }
}
