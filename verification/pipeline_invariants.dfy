/** What holds of the accumulator through the four passes of
    `DataProcessor.process_csv`, from a fresh accumulator: the caps, the
    separation of the full, 30–40 and 20–30 months, the bookkeeping of the
    10–20 buffers, and where the accepted rows come from. */
module PipelineInvariants {
  import opened Common
  import opened Records
  import opened ValidationResult
  import opened BaseValidator
  import opened DataProcessor
  import R30 = Range30Validator
  import R20 = Range20Validator
  import R10 = Range10Validator

  /** A pass keeps any property that each of its steps keeps. */
  lemma {:induction false} ScanKeeps(band: Band, inv: Accumulator -> bool, acc: Accumulator, rows: seq<Row>)
    requires inv(acc)
    requires forall a, i :: 0 <= i < |rows| && inv(a) ==> inv(Step(band, a, rows[i]))
    ensures inv(Scan(band, acc, rows))
    decreases |rows|
  {
    if |rows| > 0 {
      var prefix := rows[..|rows| - 1];
      assert forall i :: 0 <= i < |prefix| ==> prefix[i] == rows[i];
      ScanKeeps(band, inv, acc, prefix);
      assert inv(Step(band, Scan(band, acc, prefix), rows[|rows| - 1]));
    }
  }

  predicate AllOne(counts: map<string, nat>)
  {
    forall k :: k in counts ==> counts[k] == 1
  }

  predicate OneOrTwo(counts: map<string, nat>)
  {
    forall k :: k in counts ==> 1 <= counts[k] <= 2
  }

  /** Nothing of the 10–20 band yet. */
  predicate NoTenBand(acc: Accumulator)
  {
    acc.c10 == map[] && acc.candidates == map[] && acc.added == map[]
  }

  // ----- Pass 40 -----

  /** During the 40-hour pass only full months and rows are recorded, one
      row per full month. */
  predicate During40(acc: Accumulator)
  {
    acc.c30 == map[] && acc.c20 == map[] && NoTenBand(acc) && |acc.top| == |acc.validRows|
  }

  lemma Step40(acc: Accumulator, row: Row)
    requires During40(acc)
    ensures During40(Step(Band40, acc, row))
  {
  }

  /** From a fresh accumulator, the 40-hour pass accepts exactly one row per
      credited month and records nothing else. */
  lemma Pass40(validCnes: seq<string>, rows: seq<Row>)
    ensures During40(ProcessValidator(Band40, Fresh().(validCnes := validCnes), rows))
  {
    forall a, i | 0 <= i < |rows| && During40(a)
      ensures During40(Step(Band40, a, rows[i]))
    {
      Step40(a, rows[i]);
    }
    ScanKeeps(Band40, a => During40(a), Fresh().(validCnes := validCnes), rows);
  }

  // ----- Pass 30 -----

  predicate During30(acc: Accumulator)
  {
    acc.c20 == map[] && NoTenBand(acc) && acc.top !! acc.c30.Keys && OneOrTwo(acc.c30)
  }

  predicate After30(acc: Accumulator)
  {
    acc.c20 == map[] && NoTenBand(acc) && acc.top !! acc.c30.Keys && AllOne(acc.c30)
  }

  lemma Step30(acc: Accumulator, row: Row)
    requires During30(acc)
    ensures During30(Step(Band30, acc, row))
  {
  }

  lemma Pass30(acc: Accumulator, rows: seq<Row>)
    requires During40(acc)
    ensures After30(ProcessValidator(Band30, acc, rows))
  {
    forall a, i | 0 <= i < |rows| && During30(a)
      ensures During30(Step(Band30, a, rows[i]))
    {
      Step30(a, rows[i]);
    }
    ScanKeeps(Band30, a => During30(a), acc, rows);
  }

  // ----- Pass 20 -----

  predicate During20(acc: Accumulator)
  {
    NoTenBand(acc) && acc.top !! acc.c30.Keys && acc.top !! acc.c20.Keys && AllOne(acc.c30) && OneOrTwo(acc.c20)
  }

  /** Full months, 30–40 months and 20–30 months are three separate sets;
      each 30–40 month has one count and each 20–30 month one or two. */
  predicate Settled(acc: Accumulator)
  {
    && acc.top !! acc.c30.Keys && acc.top !! acc.c20.Keys && acc.c30.Keys !! acc.c20.Keys
    && AllOne(acc.c30) && OneOrTwo(acc.c20)
  }

  lemma Step20(acc: Accumulator, row: Row)
    requires During20(acc)
    ensures During20(Step(Band20, acc, row))
  {
  }

  lemma Pass20(acc: Accumulator, rows: seq<Row>)
    requires After30(acc)
    ensures Settled(ProcessValidator(Band20, acc, rows)) && NoTenBand(ProcessValidator(Band20, acc, rows))
  {
    forall a, i | 0 <= i < |rows| && During20(a)
      ensures During20(Step(Band20, a, rows[i]))
    {
      Step20(a, rows[i]);
    }
    ScanKeeps(Band20, a => During20(a), acc, rows);
  }

  // ----- Pass 10 -----

  /** The months counted in the 10–20 band are in none of the three sets. */
  predicate TenApart(acc: Accumulator)
  {
    forall k :: k in acc.c10 ==> k !in acc.top && k !in acc.c30 && k !in acc.c20
  }

  ghost predicate During10(acc: Accumulator)
  {
    Settled(acc) && TenApart(acc) && Positive(acc.c10) && AtMost(acc.c10, R10.MaxOccurrences) && R10.Buffers(acc)
  }

  /** Separation of the three sets and of the 10–20 counts, with positive counts. */
  predicate Apart(acc: Accumulator)
  {
    Settled(acc) && TenApart(acc) && Positive(acc.c10)
  }

  /** Buffering and counting a row touches only the 10–20 count of a month
      that is in none of the three sets. */
  lemma CountedKeepsApart(line: RowProcessData, acc: Accumulator, row: Row)
    requires Apart(acc) && InRange(Band10, line.chsAmb) && line.compValue !in acc.top
    requires R10.ShouldCount(line.compValue, acc)
    ensures Apart(R10.Validate(line, acc, row))
  {
    var m := line.compValue;
    var r := R10.CountRow(m, acc, row);
    assert R10.Validate(line, acc, row) == r;
  }

  /** A single 30–40 count upgraded to a full month leaves the sets apart. */
  lemma UpgradeTo40KeepsApart(line: RowProcessData, acc: Accumulator, row: Row)
    requires Apart(acc) && InRange(Band10, line.chsAmb) && line.compValue !in acc.top
    requires !R10.ShouldCount(line.compValue, acc) && R10.ShouldUpgradeTo40(line.compValue, acc)
    ensures Apart(R10.Validate(line, acc, row))
  {
    var m := line.compValue;
    assert m !in acc.c20 && m !in acc.c10;
    var r := R10.Validate(line, acc, row);
    assert r.c30 == acc.c30 - {m} && r.top == acc.top + {m} && r.c20 == acc.c20 && r.c10 == acc.c10;
  }

  /** A single 20–30 count upgraded to a 30–40 count leaves the sets apart. */
  lemma UpgradeTo30KeepsApart(line: RowProcessData, acc: Accumulator, row: Row)
    requires Apart(acc) && InRange(Band10, line.chsAmb) && line.compValue !in acc.top
    requires !R10.ShouldCount(line.compValue, acc) && !R10.ShouldUpgradeTo40(line.compValue, acc)
    requires R10.ShouldUpgradeTo30(line.compValue, acc)
    ensures Apart(R10.Validate(line, acc, row))
  {
    var m := line.compValue;
    assert m !in acc.c30 && m !in acc.c10;
  }

  lemma Validate10(line: RowProcessData, acc: Accumulator, row: Row)
    requires During10(acc)
    ensures During10(R10.Validate(line, acc, row))
  {
    R10.ValidateKeepsBuffers(line, acc, row);
    var m := line.compValue;
    if InRange(Band10, line.chsAmb) && m !in acc.top {
      if R10.ShouldCount(m, acc) {
        CountedKeepsApart(line, acc, row);
      } else if R10.ShouldUpgradeTo40(m, acc) {
        UpgradeTo40KeepsApart(line, acc, row);
      } else if R10.ShouldUpgradeTo30(m, acc) {
        UpgradeTo30KeepsApart(line, acc, row);
      }
    }
  }

  lemma Step10(acc: Accumulator, row: Row)
    requires During10(acc)
    ensures During10(Step(Band10, acc, row))
  {
    match ToProcessData(row)
    case None =>
    case Some(line) =>
      if IsValidRow(line, acc.validCnes, LowerBound(Band10)) {
        Validate10(line, acc, row);
      }
  }

  /** The 10–20 consolidation keeps the three sets apart: the months it
      promotes were in none of them, and each goes to exactly one. */
  lemma Post10(acc: Accumulator)
    requires During10(acc)
    ensures Settled(R10.PostValidate(acc)) && R10.Buffers(R10.PostValidate(acc))
    ensures AtMost(R10.PostValidate(acc).c10, R10.MaxOccurrences)
  {
    R10.PostValidateKeepsBuffers(acc);
  }

  lemma Pass10(acc: Accumulator, rows: seq<Row>)
    requires Settled(acc) && NoTenBand(acc)
    ensures var r := ProcessValidator(Band10, acc, rows);
      Settled(r) && R10.Buffers(r) && AtMost(r.c10, R10.MaxOccurrences)
  {
    R10.FreshBuffersOf(acc);
    forall a, i | 0 <= i < |rows| && During10(a)
      ensures During10(Step(Band10, a, rows[i]))
    {
      Step10(a, rows[i]);
    }
    ScanKeeps(Band10, a => During10(a), acc, rows);
    Post10(Scan(Band10, acc, rows));
  }

  // ----- All four passes -----

  lemma {:induction false} RunFour(validCnes: seq<string>, rows: seq<Row>)
    ensures var a0 := Fresh().(validCnes := validCnes);
      var a1 := ProcessValidator(Band40, a0, rows);
      var a2 := ProcessValidator(Band30, a1, rows);
      var a3 := ProcessValidator(Band20, a2, rows);
      RunAll(validCnes, rows) == ProcessValidator(Band10, a3, rows)
  {
    var a0 := Fresh().(validCnes := validCnes);
    var a1 := ProcessValidator(Band40, a0, rows);
    var a2 := ProcessValidator(Band30, a1, rows);
    var a3 := ProcessValidator(Band20, a2, rows);
    assert Strategies[1..] == [Band30, Band20, Band10];
    assert Strategies[1..][1..] == [Band20, Band10];
    assert Strategies[1..][1..][1..] == [Band10];
    assert RunPasses([Band10], a3, rows) == RunPasses([], ProcessValidator(Band10, a3, rows), rows);
  }

  /** After the four passes, no month is both a full month and a 30–40 or
      20–30 month, nor both a 30–40 and a 20–30 month; each 30–40 month has
      one count, each 20–30 month one or two; the 10–20 counts stay within
      the cap and the buffers balance. */
  lemma RunAllSettled(validCnes: seq<string>, rows: seq<Row>)
    ensures var r := RunAll(validCnes, rows);
      Settled(r) && R10.Buffers(r) && AtMost(r.c10, R10.MaxOccurrences)
  {
    RunFour(validCnes, rows);
    var a0 := Fresh().(validCnes := validCnes);
    Pass40(validCnes, rows);
    var a1 := ProcessValidator(Band40, a0, rows);
    Pass30(a1, rows);
    var a2 := ProcessValidator(Band30, a1, rows);
    Pass20(a2, rows);
    var a3 := ProcessValidator(Band20, a2, rows);
    Pass10(a3, rows);
  }

  // ----- Each month is credited at most once -----

  /** What one month adds to the total. */
  function MonthCredit(acc: Accumulator, m: string): real
  {
    (if m in acc.top then 1.0 else 0.0) + Count(acc.c30, m) as real * 0.75 + Count(acc.c20, m) as real * 0.5
  }

  /** In a settled accumulator no month is worth more than one month. */
  lemma SettledCreditsAtMostOne(acc: Accumulator, m: string)
    requires Settled(acc)
    ensures MonthCredit(acc, m) <= 1.0
  {
  }

  /** So the total never exceeds the number of distinct credited months. */
  lemma SettledTotalBound(acc: Accumulator)
    requires Settled(acc)
    ensures ValidMonths(acc) <= |acc.top + acc.c30.Keys + acc.c20.Keys| as real
  {
    SumOfOnes(acc.c30);
    SumAtMostTwice(acc.c20);
    assert |acc.c30| == |acc.c30.Keys|;
    assert |acc.top + acc.c30.Keys| == |acc.top| + |acc.c30.Keys|;
    assert |acc.top + acc.c30.Keys + acc.c20.Keys| == |acc.top| + |acc.c30.Keys| + |acc.c20.Keys|;
  }

  /** The pipeline's total is at most the number of months it credits. */
  lemma TotalIsAtMostCreditedMonths(validCnes: seq<string>, rows: seq<Row>)
    ensures var r := RunAll(validCnes, rows);
      ValidMonths(r) <= |r.top + r.c30.Keys + r.c20.Keys| as real
  {
    RunAllSettled(validCnes, rows);
    SettledTotalBound(RunAll(validCnes, rows));
  }

  // ----- Where the accepted rows come from -----

  /** A row that passed the admission gate of the lowest band: hours present,
      at least 10, and a family-medicine description, or a clinician or
      generalist description at an accepted facility. */
  predicate Admitted(x: Row, validCnes: seq<string>)
  {
    x.hours.Some? && IsValidRow(ToProcessData(x).value, validCnes, LowerBound(Band10))
  }

  /** Every accepted and every buffered row is an input row that was admitted
      against the accumulator's facilities. */
  ghost predicate FromInput(acc: Accumulator, rows: seq<Row>)
  {
    && (forall x :: x in acc.validRows ==> x in rows && Admitted(x, acc.validCnes))
    && (forall k, x :: x in Rows(acc.candidates, k) ==> x in rows && Admitted(x, acc.validCnes))
  }

  /** An accumulator that only gained the admitted row and rows buffered
      under month `m` still holds only admitted input rows. */
  lemma GrowsFromInput(acc: Accumulator, r: Accumulator, row: Row, m: string, rows: seq<Row>)
    requires FromInput(acc, rows) && row in rows && Admitted(row, acc.validCnes)
    requires r.validCnes == acc.validCnes
    requires |acc.validRows| <= |r.validRows| && r.validRows[..|acc.validRows|] == acc.validRows
    requires forall x :: x in r.validRows[|acc.validRows|..] ==> x == row || x in Rows(acc.candidates, m)
    requires forall k, x :: x in Rows(r.candidates, k) ==> x == row || x in Rows(acc.candidates, k)
    ensures FromInput(r, rows)
  {
    var n := |acc.validRows|;
    assert r.validRows == r.validRows[..n] + r.validRows[n..];
  }

  lemma ValidateFromInput(band: Band, line: RowProcessData, acc: Accumulator, row: Row, rows: seq<Row>)
    requires FromInput(acc, rows) && row in rows && Admitted(row, acc.validCnes)
    ensures FromInput(Validate(band, line, acc, row), rows)
  {
    var r := Validate(band, line, acc, row);
    var n := |acc.validRows|;
    if band != Band10 {
      assert r.candidates == acc.candidates;
      assert r.validRows == acc.validRows || r.validRows == acc.validRows + [row];
      assert r.validRows[n..] == [] || r.validRows[n..] == [row];
    }
    GrowsFromInput(acc, r, row, line.compValue, rows);
  }

  lemma StepFromInput(band: Band, acc: Accumulator, row: Row, rows: seq<Row>)
    requires FromInput(acc, rows) && row in rows
    ensures FromInput(Step(band, acc, row), rows)
  {
    match ToProcessData(row)
    case None =>
    case Some(line) =>
      if IsValidRow(line, acc.validCnes, LowerBound(band)) {
        assert Admitted(row, acc.validCnes);
        ValidateFromInput(band, line, acc, row, rows);
      }
  }

  /** The consolidation after a pass accepts and buffers no row. */
  lemma PostFromInput(band: Band, acc: Accumulator, rows: seq<Row>)
    requires FromInput(acc, rows)
    ensures FromInput(PostValidate(band, acc), rows)
  {
    var r := PostValidate(band, acc);
    assert r.validRows == acc.validRows && r.candidates == acc.candidates && r.validCnes == acc.validCnes;
  }

  lemma {:induction false} PassesFromInput(bands: seq<Band>, acc: Accumulator, rows: seq<Row>)
    requires FromInput(acc, rows)
    ensures FromInput(RunPasses(bands, acc, rows), rows)
    decreases |bands|
  {
    if |bands| > 0 {
      forall a, i | 0 <= i < |rows| && FromInput(a, rows)
        ensures FromInput(Step(bands[0], a, rows[i]), rows)
      {
        StepFromInput(bands[0], a, rows[i], rows);
      }
      ScanKeeps(bands[0], a => FromInput(a, rows), acc, rows);
      PostFromInput(bands[0], Scan(bands[0], acc, rows), rows);
      PassesFromInput(bands[1..], ProcessValidator(bands[0], acc, rows), rows);
    }
  }

  /** Every row the pipeline accepts is one of its input rows, with hours,
      and passed the admission gate against the accepted facilities. */
  lemma AcceptedRowsAreAdmitted(validCnes: seq<string>, rows: seq<Row>)
    ensures forall x :: x in RunAll(validCnes, rows).validRows ==> x in rows && Admitted(x, validCnes)
  {
    PassesFromInput(Strategies, Fresh().(validCnes := validCnes), rows);
    RunKeepsFacilities(Strategies, Fresh().(validCnes := validCnes), rows);
  }

  /** The passes never change the accepted facilities. */
  lemma {:induction false} RunKeepsFacilities(bands: seq<Band>, acc: Accumulator, rows: seq<Row>)
    ensures RunPasses(bands, acc, rows).validCnes == acc.validCnes
    decreases |bands|
  {
    if |bands| > 0 {
      var next := ProcessValidator(bands[0], acc, rows);
      assert next.validCnes == acc.validCnes;
      RunKeepsFacilities(bands[1..], next, rows);
    }
  }
}
