/** `Range10Validator`: 10–20 hour rows are buffered per month and accepted
    once a month has two of them; a single such row can also upgrade a month
    already holding one 30–40 or one 20–30 count. */
module Range10Validator {
  import opened Common
  import opened Records
  import opened ValidationResult
  import opened BaseValidator

  /** `MAX_OCCURENCY_10` */
  const MaxOccurrences: nat := 4
  /** `MIN_PROMOTION_OCURRENCIES` */
  const MinPromotion: nat := 2

  /** `_should_count_row_10_and_append_to_candidates` */
  predicate ShouldCount(m: string, acc: Accumulator)
  {
    Count(acc.c30, m) == 0 && Count(acc.c20, m) == 0 && Count(acc.c10, m) < MaxOccurrences
  }

  /** `_should_upgrade_to_40` */
  predicate ShouldUpgradeTo40(m: string, acc: Accumulator)
  {
    m in acc.c30 && acc.c30[m] == 1
  }

  /** `_should_upgrade_to_30` */
  predicate ShouldUpgradeTo30(m: string, acc: Accumulator)
  {
    m in acc.c20 && acc.c20[m] == 1
  }

  /** `_update_added_rows_and_clear_candidate_rows`: the month's buffered
      rows move to its accepted rows and the buffer is emptied. */
  function MoveCandidates(m: string, acc: Accumulator): (r: Accumulator)
    ensures m in r.added && r.added[m] == Rows(acc.added, m) + Rows(acc.candidates, m)
    ensures m in r.candidates && r.candidates[m] == []
    ensures forall k :: k != m ==> Rows(r.added, k) == Rows(acc.added, k) && (k in r.added <==> k in acc.added)
    ensures forall k :: k != m ==> Rows(r.candidates, k) == Rows(acc.candidates, k)
    ensures r.(added := acc.added, candidates := acc.candidates) == acc
  {
    acc.(added := acc.added[m := Rows(acc.added, m) + Rows(acc.candidates, m)],
         candidates := acc.candidates[m := []])
  }

  /** `_process_candidate_rows`, called right after a row was buffered: two
      or more buffered rows are all accepted; otherwise the one buffered row
      is accepted at once if the month already had rows accepted. */
  function ProcessCandidates(m: string, acc: Accumulator): (r: Accumulator)
    requires |Rows(acc.candidates, m)| >= 1
    ensures |Rows(acc.candidates, m)| >= MinPromotion ==>
      r.validRows == acc.validRows + Rows(acc.candidates, m) && r == MoveCandidates(m, acc).(validRows := r.validRows)
    ensures |Rows(acc.candidates, m)| < MinPromotion && m in acc.added ==>
      r.validRows == acc.validRows + [Rows(acc.candidates, m)[0]] && r == MoveCandidates(m, acc).(validRows := r.validRows)
    ensures |Rows(acc.candidates, m)| < MinPromotion && m !in acc.added ==> r == acc
    ensures r.(validRows := acc.validRows, candidates := acc.candidates, added := acc.added) == acc
    ensures |acc.validRows| <= |r.validRows| && r.validRows[..|acc.validRows|] == acc.validRows
    ensures forall x :: x in r.validRows[|acc.validRows|..] ==> x in Rows(acc.candidates, m)
    ensures forall k :: k != m ==> Rows(r.candidates, k) == Rows(acc.candidates, k) && Rows(r.added, k) == Rows(acc.added, k)
    ensures forall x :: x in Rows(r.candidates, m) ==> x in Rows(acc.candidates, m)
  {
    var buffered := Rows(acc.candidates, m);
    if |buffered| >= MinPromotion then
      MoveCandidates(m, acc.(validRows := acc.validRows + buffered))
    else if m in acc.added then
      MoveCandidates(m, acc.(validRows := acc.validRows + [buffered[0]]))
    else
      acc
  }

  /** The first branch of `validate`: count the row, buffer it, and process
      the month's buffer. Only month `m`'s count and buffers change. */
  function CountRow(m: string, acc: Accumulator, row: Row): (r: Accumulator)
    ensures Count(r.c10, m) == Count(acc.c10, m) + 1
    ensures forall k :: k != m ==> Count(r.c10, k) == Count(acc.c10, k)
    ensures forall k :: k != m ==> Rows(r.candidates, k) == Rows(acc.candidates, k) && Rows(r.added, k) == Rows(acc.added, k)
    ensures r.top == acc.top && r.c30 == acc.c30 && r.c20 == acc.c20 && r.validCnes == acc.validCnes
    ensures |acc.validRows| <= |r.validRows| && r.validRows[..|acc.validRows|] == acc.validRows
    ensures forall x :: x in r.validRows[|acc.validRows|..] ==> x == row || x in Rows(acc.candidates, m)
    ensures forall k, x :: x in Rows(r.candidates, k) ==> x == row || x in Rows(acc.candidates, k)
  {
    var counted := acc.(c10 := acc.c10[m := Count(acc.c10, m) + 1],
                        candidates := acc.candidates[m := Rows(acc.candidates, m) + [row]]);
    ProcessCandidates(m, counted)
  }

  /** `validate`, with its three branches in the order the source tests them:
      buffer and count the row, else upgrade a single 30–40 count to a full
      month, else upgrade a single 20–30 count to a 30–40 count. */
  function Validate(line: RowProcessData, acc: Accumulator, row: Row): (r: Accumulator)
    ensures !InRange(Band10, line.chsAmb) || line.compValue in acc.top ==> r == acc
    ensures AtMost(acc.c10, MaxOccurrences) ==> AtMost(r.c10, MaxOccurrences)
    ensures Count(r.c10, line.compValue) == Count(acc.c10, line.compValue) + 1
        <==> InRange(Band10, line.chsAmb) && line.compValue !in acc.top && ShouldCount(line.compValue, acc)
    ensures forall k :: k != line.compValue ==> Count(r.c10, k) == Count(acc.c10, k)
    ensures forall k :: k != line.compValue ==> Count(r.c30, k) == Count(acc.c30, k) && Count(r.c20, k) == Count(acc.c20, k)
    ensures forall k :: k != line.compValue ==> (k in r.top <==> k in acc.top)
    ensures forall k :: k != line.compValue ==> Rows(r.candidates, k) == Rows(acc.candidates, k) && Rows(r.added, k) == Rows(acc.added, k)
    ensures |acc.validRows| <= |r.validRows| && r.validRows[..|acc.validRows|] == acc.validRows
    ensures forall x :: x in r.validRows[|acc.validRows|..] ==> x == row || x in Rows(acc.candidates, line.compValue)
    ensures forall k, x :: x in Rows(r.candidates, k) ==> x == row || x in Rows(acc.candidates, k)
    ensures r.validCnes == acc.validCnes
  {
    var m := line.compValue;
    if !InRange(Band10, line.chsAmb) || m in acc.top then
      acc
    else if ShouldCount(m, acc) then
      CountRow(m, acc, row)
    else if ShouldUpgradeTo40(m, acc) then
      acc.(c30 := acc.c30 - {m}, top := acc.top + {m}, validRows := acc.validRows + [row])
    else if ShouldUpgradeTo30(m, acc) then
      var dropped := acc.(c20 := acc.c20 - {m});
      if Count(dropped.c30, m) == 0 then
        dropped.(c30 := dropped.c30[m := 1], validRows := dropped.validRows + [row])
      else
        dropped
    else
      acc
  }

  /** `counts[k] = 1` for every month whose 10–20 count lies in [lo, hi). */
  function SetToOne(counts: map<string, nat>, c10: map<string, nat>, lo: nat, hi: nat): (r: map<string, nat>)
    ensures forall k :: k in r <==> k in counts || (k in c10 && lo <= c10[k] < hi)
    ensures forall k :: k in r ==> r[k] == if k in c10 && lo <= c10[k] < hi then 1 else counts[k]
  {
    var promoted := map k | k in c10 && lo <= c10[k] < hi :: 1;
    assert forall k :: k in promoted <==> k in c10 && lo <= c10[k] < hi;
    counts + promoted
  }

  /** The months whose 10–20 count is at least `lo`. */
  function CountedAtLeast(c10: map<string, nat>, lo: nat): (r: set<string>)
    ensures forall k :: k in r <==> k in c10 && c10[k] >= lo
  {
    set k | k in c10 && c10[k] >= lo
  }

  /** `_handle_promotions`: four counts credit the month in full, three set
      its 30–40 count to 1, two set its 20–30 count to 1, one does nothing.
      The 10–20 counts themselves stay. */
  function PostValidate(acc: Accumulator): (r: Accumulator)
    ensures forall k :: k in r.top <==> k in acc.top || (k in acc.c10 && acc.c10[k] >= 4)
    ensures forall k :: k in r.c30 <==> k in acc.c30 || (k in acc.c10 && acc.c10[k] == 3)
    ensures forall k :: k in r.c30 ==> r.c30[k] == if k in acc.c10 && acc.c10[k] == 3 then 1 else acc.c30[k]
    ensures forall k :: k in r.c20 <==> k in acc.c20 || (k in acc.c10 && acc.c10[k] == 2)
    ensures forall k :: k in r.c20 ==> r.c20[k] == if k in acc.c10 && acc.c10[k] == 2 then 1 else acc.c20[k]
    ensures r.c10 == acc.c10 && r.validRows == acc.validRows
    ensures r.candidates == acc.candidates && r.added == acc.added && r.validCnes == acc.validCnes
  {
    acc.(top := acc.top + CountedAtLeast(acc.c10, MaxOccurrences),
         c30 := SetToOne(acc.c30, acc.c10, 3, 4),
         c20 := SetToOne(acc.c20, acc.c10, 2, 3))
  }

  // ----- Buffer bookkeeping -----

  /** For month `m`: every counted 10–20 row is either buffered or accepted;
      at most one row waits; and from the second row on the month has
      accepted rows and none waiting. */
  predicate BufferedMonth(acc: Accumulator, m: string)
  {
    && Count(acc.c10, m) == |Rows(acc.added, m)| + |Rows(acc.candidates, m)|
    && |Rows(acc.candidates, m)| <= 1
    && (Count(acc.c10, m) >= MinPromotion ==> m in acc.added && Rows(acc.candidates, m) == [])
    && (Count(acc.c10, m) < MinPromotion ==> m !in acc.added)
  }

  ghost predicate Buffers(acc: Accumulator)
  {
    forall m :: BufferedMonth(acc, m)
  }

  /** `validate` keeps the buffer bookkeeping of every month. */
  lemma ValidateKeepsBuffers(line: RowProcessData, acc: Accumulator, row: Row)
    requires Buffers(acc)
    ensures Buffers(Validate(line, acc, row))
  {
    var r := Validate(line, acc, row);
    var m := line.compValue;
    forall k
      ensures BufferedMonth(r, k)
    {
      assert BufferedMonth(acc, k);
      if k == m && InRange(Band10, line.chsAmb) && m !in acc.top && ShouldCount(m, acc) {
        CountedMonthBuffered(line, acc, row);
      }
    }
  }

  /** The month of a counted row stays balanced: the row is buffered and,
      from the second row on, everything buffered is accepted. */
  lemma CountedMonthBuffered(line: RowProcessData, acc: Accumulator, row: Row)
    requires BufferedMonth(acc, line.compValue)
    requires InRange(Band10, line.chsAmb) && line.compValue !in acc.top && ShouldCount(line.compValue, acc)
    ensures BufferedMonth(Validate(line, acc, row), line.compValue)
  {
    var m := line.compValue;
    var counted := acc.(c10 := acc.c10[m := Count(acc.c10, m) + 1],
                        candidates := acc.candidates[m := Rows(acc.candidates, m) + [row]]);
    assert Validate(line, acc, row) == CountRow(m, acc, row) == ProcessCandidates(m, counted);
    assert Count(counted.c10, m) == Count(acc.c10, m) + 1;
    assert Rows(counted.candidates, m) == Rows(acc.candidates, m) + [row];
    assert counted.added == acc.added;
  }

  /** `post_validate` keeps it too: it touches neither counts of the band
      nor buffers. */
  lemma PostValidateKeepsBuffers(acc: Accumulator)
    requires Buffers(acc)
    ensures Buffers(PostValidate(acc))
  {
    var r := PostValidate(acc);
    forall k
      ensures BufferedMonth(r, k)
    {
      assert BufferedMonth(acc, k);
    }
  }

  /** An accumulator with no 10–20 counts and no buffers satisfies it. */
  lemma FreshBuffersOf(acc: Accumulator)
    requires acc.c10 == map[] && acc.candidates == map[] && acc.added == map[]
    ensures Buffers(acc)
  {
    forall k
      ensures BufferedMonth(acc, k)
    {
    }
  }

  // ----- The branches, one at a time -----

  /** A month holding a single 30–40 count and no full credit becomes a full
      month with one 10–20 row, which is accepted; its 30–40 count goes. */
  lemma UpgradeTo40(line: RowProcessData, acc: Accumulator, row: Row)
    requires InRange(Band10, line.chsAmb) && line.compValue !in acc.top
    requires line.compValue in acc.c30 && acc.c30[line.compValue] == 1
    ensures var r := Validate(line, acc, row);
      && line.compValue in r.top && line.compValue !in r.c30
      && r.validRows == acc.validRows + [row]
      && r.c10 == acc.c10 && r.c20 == acc.c20
  {
  }

  /** A month holding a single 20–30 count and no 30–40 count becomes a
      single 30–40 month with one 10–20 row, which is accepted. */
  lemma UpgradeTo30(line: RowProcessData, acc: Accumulator, row: Row)
    requires InRange(Band10, line.chsAmb) && line.compValue !in acc.top
    requires line.compValue in acc.c20 && acc.c20[line.compValue] == 1
    requires Count(acc.c30, line.compValue) == 0
    ensures var r := Validate(line, acc, row);
      && line.compValue !in r.c20
      && line.compValue in r.c30 && r.c30[line.compValue] == 1
      && r.validRows == acc.validRows + [row]
      && r.c10 == acc.c10 && r.top == acc.top
  {
  }

  /** The other outcome of the same branch: a month holding a single 20–30
      count and two or more 30–40 counts loses its 20–30 count, gains no
      credit, and the row is not accepted. After the 30–40 pass's
      consolidation no month holds two 30–40 counts, so in the pipeline this
      outcome does not arise. */
  lemma UpgradeTo30WithoutCredit(line: RowProcessData, acc: Accumulator, row: Row)
    requires InRange(Band10, line.chsAmb) && line.compValue !in acc.top
    requires line.compValue in acc.c20 && acc.c20[line.compValue] == 1
    requires Count(acc.c30, line.compValue) >= 2
    ensures var r := Validate(line, acc, row);
      && line.compValue !in r.c20
      && (forall k :: k != line.compValue ==> Count(r.c20, k) == Count(acc.c20, k))
      && r.c30 == acc.c30 && r.top == acc.top && r.c10 == acc.c10
      && r.validRows == acc.validRows
  {
  }

  /** A month already counted four times in the band ignores further rows
      of the band, and all four of its rows are accepted. */
  lemma FifthRowIsIgnored(line: RowProcessData, acc: Accumulator, row: Row)
    requires Buffers(acc)
    requires Count(acc.c10, line.compValue) == MaxOccurrences
    requires line.compValue !in acc.c30 && line.compValue !in acc.c20
    ensures Validate(line, acc, row) == acc
    ensures |Rows(acc.added, line.compValue)| == MaxOccurrences
  {
    assert BufferedMonth(acc, line.compValue);
  }
}
