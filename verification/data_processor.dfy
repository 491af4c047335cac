/** `DataProcessor`: the four band passes over the registration lines, the
    ordering of the accepted rows and the eligibility verdict. */
module DataProcessor {
  import opened Common
  import opened Records
  import opened ValidationResult
  import opened BaseValidator
  import opened CboChecker
  import opened DateParser
  import EstablishmentValidator
  import R40 = Range40Validator
  import R30 = Range30Validator
  import R20 = Range20Validator
  import R10 = Range10Validator

  /** `VALIDATION_STRATEGIES`, in the order they run. */
  const Strategies: seq<Band> := [Band40, Band30, Band20, Band10]

  /** `REQUIRED_COLUMNS` */
  const RequiredColumns: set<string> := {"CNES", "IBGE", "ESTABELECIMENTO", "CHS AMB.", "DESCRICAO CBO", "COMP."}

  /** `_validate_columns`: every required column is in the header. */
  predicate ValidateColumns(fieldnames: seq<string>)
  {
    forall c :: c in RequiredColumns ==> c in fieldnames
  }

  /** `_is_valid_row`: enough hours for the pass, and either the
      family-medicine vocabulary, or the clinician or generalist vocabulary
      at an accepted facility. The facility is the line's CNES as written. */
  predicate IsValidRow(line: RowProcessData, validCnes: seq<string>, threshold: real)
  {
    && line.chsAmb >= threshold
    && (|| Familia(line.cboDesc)
        || (Clinico(line.cboDesc) && line.cnes in validCnes)
        || (Generalista(line.cboDesc) && line.cnes in validCnes))
  }

  /** The strategy's `validate`. */
  function Validate(band: Band, line: RowProcessData, acc: Accumulator, row: Row): (r: Accumulator)
    ensures r.validCnes == acc.validCnes
    ensures |acc.validRows| <= |r.validRows| && r.validRows[..|acc.validRows|] == acc.validRows
  {
    match band
    case Band40 => R40.Validate(line, acc, row)
    case Band30 => R30.Validate(line, acc, row)
    case Band20 => R20.Validate(line, acc, row)
    case Band10 => R10.Validate(line, acc, row)
  }

  /** The strategy's `post_validate`; the 40-hour strategy keeps the default,
      which does nothing. */
  function PostValidate(band: Band, acc: Accumulator): (r: Accumulator)
    ensures band == Band40 ==> r == acc
  {
    match band
    case Band40 => acc
    case Band30 => R30.PostValidate(acc)
    case Band20 => R20.PostValidate(acc)
    case Band10 => R10.PostValidate(acc)
  }

  /** One line of one pass: a line whose hours are not a number is skipped
      (the `ValueError` is caught), a line the gate refuses changes nothing,
      and any other line goes to the strategy. */
  function Step(band: Band, acc: Accumulator, row: Row): (r: Accumulator)
    ensures r.validCnes == acc.validCnes
    ensures row.hours.None? ==> r == acc
    ensures row.hours.Some? && !IsValidRow(ToProcessData(row).value, acc.validCnes, LowerBound(band)) ==> r == acc
  {
    match ToProcessData(row)
    case None => acc
    case Some(line) =>
      if IsValidRow(line, acc.validCnes, LowerBound(band)) then Validate(band, line, acc, row) else acc
  }

  /** The rows of one pass, in order. */
  function Scan(band: Band, acc: Accumulator, rows: seq<Row>): (r: Accumulator)
    ensures r.validCnes == acc.validCnes
    decreases |rows|
  {
    if |rows| == 0 then acc else Step(band, Scan(band, acc, rows[..|rows| - 1]), rows[|rows| - 1])
  }

  /** `_process_validator`: every row, then the consolidation once. */
  function ProcessValidator(band: Band, acc: Accumulator, rows: seq<Row>): Accumulator
  {
    PostValidate(band, Scan(band, acc, rows))
  }

  /** The passes of the given strategies, in order. */
  function RunPasses(bands: seq<Band>, acc: Accumulator, rows: seq<Row>): Accumulator
    decreases |bands|
  {
    if |bands| == 0 then acc else RunPasses(bands[1..], ProcessValidator(bands[0], acc, rows), rows)
  }

  /** The four passes, from a fresh accumulator holding the accepted facilities. */
  function RunAll(validCnes: seq<string>, rows: seq<Row>): Accumulator
  {
    RunPasses(Strategies, Fresh().(validCnes := validCnes), rows)
  }

  // ----- Scanning -----

  /** A pass over two stretches of lines is the pass over the first followed
      by the pass over the second. */
  lemma {:induction false} ScanAppend(band: Band, acc: Accumulator, xs: seq<Row>, ys: seq<Row>)
    ensures Scan(band, acc, xs + ys) == Scan(band, Scan(band, acc, xs), ys)
    decreases |ys|
  {
    if |ys| == 0 {
      assert xs + ys == xs;
    } else {
      var zs := xs + ys;
      assert zs[..|zs| - 1] == xs + ys[..|ys| - 1];
      assert zs[|zs| - 1] == ys[|ys| - 1];
      ScanAppend(band, acc, xs, ys[..|ys| - 1]);
    }
  }

  /** A line the pass does not take, whether its hours are not a number or
      the gate refuses it, is as if it were absent; the lines after it are
      still processed. */
  lemma SkippedLine(band: Band, acc: Accumulator, xs: seq<Row>, bad: Row, ys: seq<Row>)
    requires bad.hours.None? || !IsValidRow(ToProcessData(bad).value, acc.validCnes, LowerBound(band))
    ensures Scan(band, acc, xs + [bad] + ys) == Scan(band, acc, xs + ys)
  {
    ScanAppend(band, acc, xs + [bad], ys);
    ScanAppend(band, acc, xs, [bad]);
    ScanAppend(band, acc, xs, ys);
    assert Scan(band, Scan(band, acc, xs), [bad]) == Step(band, Scan(band, acc, xs), bad) by {
      assert [bad][..0] == [];
    }
  }

  // ----- Ordering the accepted rows -----

  /** `DateParser.parse(x["COMP."])` as a number of months, later months
      larger. Only used once every accepted row's month parses. */
  function SortKey(row: Row): int
  {
    match Parse(row.comp)
    case Some(d) => MonthIndex(d)
    case None => 0
  }

  predicate AllParse(rows: seq<Row>)
  {
    forall i :: 0 <= i < |rows| ==> Parse(rows[i].comp).Some?
  }

  /** Largest key first. */
  predicate Descending(key: Row -> int, rows: seq<Row>)
  {
    forall i, j :: 0 <= i < j < |rows| ==> key(rows[i]) >= key(rows[j])
  }

  /** No row has a key above `bound`. */
  predicate NoLaterThan(key: Row -> int, bound: int, rows: seq<Row>)
  {
    forall i :: 0 <= i < |rows| ==> key(rows[i]) <= bound
  }

  /** `[x]` if its key is `k`, else nothing. */
  function Own(key: Row -> int, x: Row, k: int): seq<Row>
  {
    if key(x) == k then [x] else []
  }

  /** The rows whose key is `k`, in order. */
  function OfKey(key: Row -> int, rows: seq<Row>, k: int): seq<Row>
  {
    if |rows| == 0 then [] else Own(key, rows[0], k) + OfKey(key, rows[1..], k)
  }

  lemma {:induction false} OfKeyAppend(key: Row -> int, xs: seq<Row>, ys: seq<Row>, k: int)
    ensures OfKey(key, xs + ys, k) == OfKey(key, xs, k) + OfKey(key, ys, k)
    decreases |xs|
  {
    if |xs| == 0 {
      assert xs + ys == ys;
    } else {
      assert (xs + ys)[0] == xs[0];
      assert (xs + ys)[1..] == xs[1..] + ys;
      OfKeyAppend(key, xs[1..], ys, k);
      calc {
        OfKey(key, xs + ys, k);
        Own(key, xs[0], k) + OfKey(key, xs[1..] + ys, k);
        Own(key, xs[0], k) + (OfKey(key, xs[1..], k) + OfKey(key, ys, k));
        (Own(key, xs[0], k) + OfKey(key, xs[1..], k)) + OfKey(key, ys, k);
      }
    }
  }

  lemma {:induction false} OfLargerKeyIsEmpty(key: Row -> int, rows: seq<Row>, k: int)
    requires NoLaterThan(key, k - 1, rows)
    ensures OfKey(key, rows, k) == []
    decreases |rows|
  {
    if |rows| > 0 {
      OfLargerKeyIsEmpty(key, rows[1..], k);
    }
  }

  /** Puts `x` after every row whose key is at least its own. */
  function Insert(key: Row -> int, x: Row, sorted: seq<Row>): (r: seq<Row>)
    requires Descending(key, sorted)
    ensures Descending(key, r)
    ensures multiset(r) == multiset(sorted) + multiset{x}
    decreases |sorted|, 0
  {
    if |sorted| == 0 || key(sorted[0]) < key(x) then
      [x] + sorted
    else
      var rest := Insert(key, x, sorted[1..]);
      assert sorted == [sorted[0]] + sorted[1..];
      assert NoLaterThan(key, key(sorted[0]), sorted[1..]);
      InsertBounded(key, x, sorted[1..], key(sorted[0]));
      [sorted[0]] + rest
  }

  /** Inserting a row no later than `bound` among rows no later than `bound`
      keeps them all no later than `bound`. */
  lemma {:induction false} InsertBounded(key: Row -> int, x: Row, sorted: seq<Row>, bound: int)
    requires Descending(key, sorted)
    requires NoLaterThan(key, bound, sorted) && key(x) <= bound
    ensures NoLaterThan(key, bound, Insert(key, x, sorted))
    decreases |sorted|, 1
  {
    if !(|sorted| == 0 || key(sorted[0]) < key(x)) {
      InsertBounded(key, x, sorted[1..], bound);
    }
  }

  /** A row later than all the others goes first, and none of them shares its key. */
  lemma InsertFirst(key: Row -> int, x: Row, sorted: seq<Row>, k: int)
    requires Descending(key, sorted)
    requires |sorted| == 0 || key(sorted[0]) < key(x)
    ensures OfKey(key, Insert(key, x, sorted), k) == OfKey(key, sorted, k) + Own(key, x, k)
  {
    var r := [x] + sorted;
    assert Insert(key, x, sorted) == r;
    assert r[0] == x && r[1..] == sorted;
    assert OfKey(key, r, k) == Own(key, x, k) + OfKey(key, sorted, k);
    if key(x) == k {
      assert NoLaterThan(key, k - 1, sorted);
      OfLargerKeyIsEmpty(key, sorted, k);
    }
  }

  lemma OfKeyCons(key: Row -> int, h: Row, rest: seq<Row>, k: int)
    ensures OfKey(key, [h] + rest, k) == Own(key, h, k) + OfKey(key, rest, k)
  {
    assert ([h] + rest)[0] == h && ([h] + rest)[1..] == rest;
  }

  /** A row no later than the head goes after it. */
  lemma InsertAfterHead(key: Row -> int, x: Row, sorted: seq<Row>)
    requires Descending(key, sorted)
    requires |sorted| > 0 && key(sorted[0]) >= key(x)
    ensures Insert(key, x, sorted) == [sorted[0]] + Insert(key, x, sorted[1..])
  {
  }

  /** Inserting keeps the rows of each key in order, `x` last among its own. */
  lemma {:induction false} InsertIsStable(key: Row -> int, x: Row, sorted: seq<Row>, k: int)
    requires Descending(key, sorted)
    ensures OfKey(key, Insert(key, x, sorted), k) == OfKey(key, sorted, k) + Own(key, x, k)
    decreases |sorted|
  {
    if |sorted| == 0 || key(sorted[0]) < key(x) {
      InsertFirst(key, x, sorted, k);
    } else {
      var tail := sorted[1..];
      DescendingTail(key, sorted);
      InsertIsStable(key, x, tail, k);
      InsertAfterHead(key, x, sorted);
      ConsKeepsOrder(key, sorted[0], tail, Insert(key, x, tail), x, k);
      assert [sorted[0]] + tail == sorted;
    }
  }

  lemma DescendingTail(key: Row -> int, rows: seq<Row>)
    requires Descending(key, rows) && |rows| > 0
    ensures Descending(key, rows[1..])
  {
    assert forall i :: 0 <= i < |rows| - 1 ==> rows[1..][i] == rows[i + 1];
  }

  /** Putting the same row in front of two sequences keeps a relation
      between their rows of key `k`. */
  lemma ConsKeepsOrder(key: Row -> int, h: Row, tail: seq<Row>, rest: seq<Row>, x: Row, k: int)
    requires OfKey(key, rest, k) == OfKey(key, tail, k) + Own(key, x, k)
    ensures OfKey(key, [h] + rest, k) == OfKey(key, [h] + tail, k) + Own(key, x, k)
  {
    OfKeyCons(key, h, rest, k);
    OfKeyCons(key, h, tail, k);
    calc {
      OfKey(key, [h] + rest, k);
      Own(key, h, k) + (OfKey(key, tail, k) + Own(key, x, k));
      (Own(key, h, k) + OfKey(key, tail, k)) + Own(key, x, k);
    }
  }

  /** `sort(key=…, reverse=True)`, as a stable insertion sort. */
  function SortDescending(key: Row -> int, rows: seq<Row>): (r: seq<Row>)
    ensures Descending(key, r)
    ensures multiset(r) == multiset(rows)
    decreases |rows|
  {
    if |rows| == 0 then []
    else
      assert rows == rows[..|rows| - 1] + [rows[|rows| - 1]];
      Insert(key, rows[|rows| - 1], SortDescending(key, rows[..|rows| - 1]))
  }

  /** The sort is stable: the rows of each key come out in the order they
      went in. */
  lemma {:induction false} SortIsStable(key: Row -> int, rows: seq<Row>, k: int)
    ensures OfKey(key, SortDescending(key, rows), k) == OfKey(key, rows, k)
    decreases |rows|
  {
    if |rows| > 0 {
      var prefix := rows[..|rows| - 1];
      var last := rows[|rows| - 1];
      SortIsStable(key, prefix, k);
      InsertIsStable(key, last, SortDescending(key, prefix), k);
      assert rows == prefix + [last];
      OfKeyAppend(key, prefix, [last], k);
      assert OfKey(key, [last], k) == Own(key, last, k) by {
        assert [last][1..] == [];
      }
    }
  }

  // ----- The verdict -----

  datatype Status = Eligible | NotEligible

  /** `overall_result[...]`: the verdict, the months still missing for 48,
      and how many whole semesters each band gives. */
  datatype Summary = Summary(status: Status, pending: real, semesters40: nat, semesters30: nat, semesters20: nat)

  /** What `process_csv` leaves behind when it completes: the accepted rows in
      their written order, and the summary. */
  datatype Report = Report(validRows: seq<Row>, summary: Summary)

  /** The months needed for eligibility. */
  const RequiredMonths: real := 48.0

  /** `process_csv`. A header missing a required column, or an accepted row
      whose month does not parse (the sort raises), makes the result 0 with
      no report. Otherwise the result is the accumulator's valid months
      after the four passes, and the report holds the sorted rows and the
      verdict. Reading the file is replaced by the header and the lines;
      the registry store and the online check are parameters. */
  method ProcessCsv(header: Option<seq<string>>, rows: seq<Row>,
                    store: string -> Call<Option<bool>>, online: (string, string) -> Call<bool>)
    returns (total: real, report: Option<Report>)
    ensures header.None? || !ValidateColumns(header.value) ==> total == 0.0 && report.None?
    ensures var acc := RunAll(EstablishmentValidator.CheckEstablishment(rows, store, online), rows);
      header.Some? && ValidateColumns(header.value) ==>
        && (report.None? <==> !AllParse(acc.validRows))
        && (report.None? ==> total == 0.0)
        && (report.Some? ==>
            && total == ValidMonths(acc)
            && multiset(report.value.validRows) == multiset(acc.validRows)
            && Descending(SortKey, report.value.validRows)
            && (forall k :: OfKey(SortKey, report.value.validRows, k) == OfKey(SortKey, acc.validRows, k))
            && (report.value.summary.status == Eligible <==> total >= RequiredMonths)
            && report.value.summary.pending == (if RequiredMonths - total > 0.0 then RequiredMonths - total else 0.0)
            && report.value.summary.semesters40 == |acc.top| / 6
            && report.value.summary.semesters30 == SumValues(acc.c30) / 6
            && report.value.summary.semesters20 == SumValues(acc.c20) / 6)
  {
    if header.None? || !ValidateColumns(header.value) {
      return 0.0, None;
    }
    var validCnes := EstablishmentValidator.CheckEstablishment(rows, store, online);
    var acc := RunAll(validCnes, rows);
    if !AllParse(acc.validRows) {
      return 0.0, None;
    }
    var sorted := SortDescending(SortKey, acc.validRows);
    forall k
      ensures OfKey(SortKey, sorted, k) == OfKey(SortKey, acc.validRows, k)
    {
      SortIsStable(SortKey, acc.validRows, k);
    }
    total := CalculateValidMonths(acc);
    var sum30 := SumCounts(acc.c30);
    var sum20 := SumCounts(acc.c20);
    var status := if total >= RequiredMonths then Eligible else NotEligible;
    var pending := if RequiredMonths - total > 0.0 then RequiredMonths - total else 0.0;
    report := Some(Report(sorted, Summary(status, pending, |acc.top| / 6, sum30 / 6, sum20 / 6)));
  }
}
