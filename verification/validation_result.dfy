/** `ProfessionalExperienceValidator`: the state the four band passes share,
    and the weighted count of valid months it yields. */
module ValidationResult {
  import opened Common
  import opened Records

  /** The accumulator. Months are the raw `COMP.` strings.
      - `top`: months credited in full (`unique_rows_above_40`);
      - `c30`, `c20`, `c10`: per-month counts of rows in the 30–40, 20–30
        and 10–20 hour bands;
      - `validRows`: the accepted rows, in acceptance order;
      - `validCnes`: the facilities the resolver accepted;
      - `candidates`, `added`: per-month rows of the 10–20 band waiting to
        be accepted, and already accepted. */
  datatype Accumulator = Accumulator(
    top: set<string>,
    c30: map<string, nat>,
    c20: map<string, nat>,
    c10: map<string, nat>,
    validRows: seq<Row>,
    validCnes: seq<string>,
    candidates: map<string, seq<Row>>,
    added: map<string, seq<Row>>)

  /** The state right after construction: everything empty. */
  function Fresh(): (acc: Accumulator)
    ensures acc.top == {} && acc.c30 == map[] && acc.c20 == map[] && acc.c10 == map[]
    ensures acc.validRows == [] && acc.validCnes == []
    ensures acc.candidates == map[] && acc.added == map[]
  {
    Accumulator({}, map[], map[], map[], [], [], map[], map[])
  }

  /** Some key of a non-empty map. */
  ghost function Pick(counts: map<string, nat>): (k: string)
    requires |counts| > 0
    ensures k in counts
  {
    var k :| k in counts; k
  }

  /** `sum(counts.values())` */
  ghost function SumValues(counts: map<string, nat>): nat
    decreases |counts|
  {
    if |counts| == 0 then 0
    else
      var k := Pick(counts);
      counts[k] + SumValues(counts - {k})
  }

  /** The sum does not depend on which key is taken out first. */
  lemma {:induction false} SumRemove(counts: map<string, nat>, k: string)
    requires k in counts
    ensures SumValues(counts) == counts[k] + SumValues(counts - {k})
    decreases |counts|
  {
    var j := Pick(counts);
    if j != k {
      var rest := counts - {j};
      var other := counts - {k};
      var both := counts - {j, k};
      assert rest - {k} == both;
      assert other - {j} == both;
      assert |rest| < |counts| && |other| < |counts|;
      SumRemove(rest, k);
      SumRemove(other, j);
      assert SumValues(rest) == counts[k] + SumValues(both);
      assert SumValues(other) == counts[j] + SumValues(both);
    }
  }

  /** A map whose values are all 1 sums to its size. */
  lemma {:induction false} SumOfOnes(counts: map<string, nat>)
    requires forall k :: k in counts ==> counts[k] == 1
    ensures SumValues(counts) == |counts|
    decreases |counts|
  {
    if |counts| > 0 {
      var k :| k in counts;
      SumRemove(counts, k);
      SumOfOnes(counts - {k});
    }
  }

  /** A map whose values are at most 2 sums to at most twice its size. */
  lemma {:induction false} SumAtMostTwice(counts: map<string, nat>)
    requires forall k :: k in counts ==> counts[k] <= 2
    ensures SumValues(counts) <= 2 * |counts|
    decreases |counts|
  {
    if |counts| > 0 {
      var k :| k in counts;
      SumRemove(counts, k);
      SumAtMostTwice(counts - {k});
    }
  }

  /** `calculate_valid_months`: one month per top month, three quarters of a
      month per 30–40 count and half a month per 20–30 count. */
  ghost function ValidMonths(acc: Accumulator): real
  {
    |acc.top| as real + SumValues(acc.c30) as real * 0.75 + SumValues(acc.c20) as real * 0.5
  }

  /** Adds up the values of a count map, one key at a time. */
  method SumCounts(counts: map<string, nat>) returns (total: nat)
    ensures total == SumValues(counts)
  {
    total := 0;
    var rest := counts;
    while rest != map[]
      invariant total + SumValues(rest) == SumValues(counts)
      decreases |rest|
    {
      var k :| k in rest;
      SumRemove(rest, k);
      total := total + rest[k];
      rest := rest - {k};
    }
  }

  /** `calculate_valid_months`, computed. The total is never negative and
      the 10–20 counts never enter it. */
  method CalculateValidMonths(acc: Accumulator) returns (total: real)
    ensures total == ValidMonths(acc)
    ensures total >= 0.0
    ensures total >= |acc.top| as real
  {
    var total30 := SumCounts(acc.c30);
    var total20 := SumCounts(acc.c20);
    total := |acc.top| as real + total30 as real * 0.75 + total20 as real * 0.5;
  }

  /** The 10–20 counts and the buffers do not change the total. */
  lemma TenBandIsNotCounted(acc: Accumulator, c10: map<string, nat>, candidates: map<string, seq<Row>>, added: map<string, seq<Row>>)
    ensures ValidMonths(acc.(c10 := c10, candidates := candidates, added := added)) == ValidMonths(acc)
  {
  }

  /** Three top months, two 30–40 counts and two 20–30 counts make 5.5
      months; the two 10–20 counts add nothing. */
  lemma ValidMonthsExample(acc: Accumulator)
    requires acc.top == {"1", "2", "3"}
    requires acc.c30 == map["1" := 1, "2" := 1] && acc.c20 == map["1" := 1, "2" := 1]
    requires acc.c10 == map["1" := 1, "2" := 1]
    ensures ValidMonths(acc) == 5.5
  {
    assert |acc.top| == 3 by {
      assert acc.top == {"1"} + {"2"} + {"3"};
    }
    var m := map["1" := 1, "2" := 1];
    SumOfOnes(m);
    assert |m.Keys| == 2 by {
      assert m.Keys == {"1", "2"};
    }
  }
}
