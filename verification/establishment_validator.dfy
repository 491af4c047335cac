/** `EstablishmentValidator`: which facilities (CNES codes) are accepted for
    the clinician and generalist vocabularies. The registry store and the
    online check are parameters: the store answers `Some(true)`,
    `Some(false)` or `None` (not registered) for a key, and either call may
    raise. */
module EstablishmentValidator {
  import opened Common
  import opened Text
  import opened Records
  import opened CboChecker
  import opened DateParser

  /** `while len(cnes) < 7: cnes = "0" + cnes` */
  function PadCnes(cnes: string): (r: string)
    ensures |r| == if |cnes| < 7 then 7 else |cnes|
    ensures r[|r| - |cnes|..] == cnes
    ensures forall i :: 0 <= i < |r| - |cnes| ==> r[i] == '0'
    decreases 7 - |cnes|
  {
    if |cnes| < 7 then
      var padded := "0" + cnes;
      var r := PadCnes(padded);
      assert r[|r| - |padded|..] == padded;
      assert r[|r| - |cnes|..] == padded[1..];
      r
    else
      cnes
  }

  /** `_create_entry`: the typed record of a line, with the CNES padded and the
      month converted from YYYYMM; a month that does not convert or hours that
      are not a number make the line invalid (`None`). */
  function CreateEntry(row: Row): (r: Option<RowProcessData>)
    ensures r.Some? <==> row.hours.Some? && FormatYyyymm(row.comp).Some?
    ensures r.Some? ==> r.value == RowProcessData(PadCnes(row.cnes), row.ibge, row.name, row.hours.value,
                                                  row.cbo, FormatYyyymm(row.comp).value)
  {
    match FormatYyyymm(row.comp)
    case None => None
    case Some(comp) =>
      match row.hours
      case None => None
      case Some(h) => Some(RowProcessData(PadCnes(row.cnes), row.ibge, row.name, h, row.cbo, comp))
  }

  /** The facility of an entry needs checking: 10 hours or more under the
      clinician or generalist vocabulary. Family-medicine rows never need it. */
  predicate Candidate(entry: RowProcessData)
  {
    entry.chsAmb >= 10.0 && (Clinico(entry.cboDesc) || Generalista(entry.cboDesc))
  }

  function CnesOf(entries: seq<RowProcessData>): (codes: seq<string>)
    ensures |codes| == |entries|
    ensures forall k :: 0 <= k < |entries| ==> codes[k] == entries[k].cnes
  {
    if |entries| == 0 then [] else [entries[0].cnes] + CnesOf(entries[1..])
  }

  /** `_should_validate`: a candidate whose CNES is not among those kept so far. */
  predicate ShouldValidate(entry: RowProcessData, unique: seq<RowProcessData>)
  {
    Candidate(entry) && entry.cnes !in CnesOf(unique)
  }

  /** The entry a line yields if it is a candidate. */
  function CandidateOf(row: Row): Option<RowProcessData>
  {
    match CreateEntry(row)
    case Some(e) => if Candidate(e) then Some(e) else None
    case None => None
  }

  /** `_get_unique_entries`: lines that fail to convert are skipped; a
      candidate is kept unless an earlier kept entry has its CNES. */
  function UniqueEntries(rows: seq<Row>): (unique: seq<RowProcessData>)
    ensures forall i, j :: 0 <= i < j < |unique| ==> unique[i].cnes != unique[j].cnes
    ensures forall k :: 0 <= k < |unique| ==> Candidate(unique[k])
    decreases |rows|
  {
    if |rows| == 0 then []
    else
      var unique := UniqueEntries(rows[..|rows| - 1]);
      match CreateEntry(rows[|rows| - 1])
      case None => unique
      case Some(e) => if ShouldValidate(e, unique) then unique + [e] else unique
  }

  /** The first line whose candidate entry has that CNES. */
  ghost predicate FirstWithCnes(rows: seq<Row>, i: int, cnes: string)
  {
    && 0 <= i < |rows|
    && CandidateOf(rows[i]).Some? && CandidateOf(rows[i]).value.cnes == cnes
    && forall j :: 0 <= j < i ==> CandidateOf(rows[j]).None? || CandidateOf(rows[j]).value.cnes != cnes
  }

  /** One more line either keeps the entries so far or adds its own. */
  lemma UniqueEntriesStep(rows: seq<Row>)
    requires |rows| > 0
    ensures var before := UniqueEntries(rows[..|rows| - 1]);
      var last := rows[|rows| - 1];
      && (CandidateOf(last).Some? && CandidateOf(last).value.cnes !in CnesOf(before) ==>
            UniqueEntries(rows) == before + [CandidateOf(last).value])
      && (CandidateOf(last).None? || CandidateOf(last).value.cnes in CnesOf(before) ==>
            UniqueEntries(rows) == before)
  {
  }

  ghost predicate FirstOccurrences(rows: seq<Row>, unique: seq<RowProcessData>)
  {
    forall k :: 0 <= k < |unique| ==> exists i :: FirstWithCnes(rows, i, unique[k].cnes) && CandidateOf(rows[i]) == Some(unique[k])
  }

  /** The kept entries are each the first candidate entry of their CNES. */
  lemma {:induction false} UniqueEntriesAreFirstOccurrences(rows: seq<Row>)
    ensures FirstOccurrences(rows, UniqueEntries(rows))
    decreases |rows|
  {
    if |rows| > 0 {
      var prefix := rows[..|rows| - 1];
      var last := rows[|rows| - 1];
      UniqueEntriesAreFirstOccurrences(prefix);
      UniqueEntriesCoverCandidates(prefix);
      UniqueEntriesStep(rows);
      var before := UniqueEntries(prefix);
      var unique := UniqueEntries(rows);
      forall k | 0 <= k < |unique|
        ensures exists i :: FirstWithCnes(rows, i, unique[k].cnes) && CandidateOf(rows[i]) == Some(unique[k])
      {
        if k < |before| {
          assert unique[k] == before[k];
          var i :| FirstWithCnes(prefix, i, before[k].cnes) && CandidateOf(prefix[i]) == Some(before[k]);
          StillFirst(rows, i, before[k].cnes);
        } else {
          assert unique[k] == CandidateOf(last).value;
          forall j | 0 <= j < |rows| - 1 && CandidateOf(rows[j]).Some?
            ensures CandidateOf(rows[j]).value.cnes != unique[k].cnes
          {
            assert rows[j] == prefix[j];
          }
          LastIsFirst(rows, unique[k].cnes);
        }
      }
    }
  }

  /** A first occurrence among the earlier lines stays first with one more line. */
  lemma StillFirst(rows: seq<Row>, i: int, cnes: string)
    requires |rows| > 0 && FirstWithCnes(rows[..|rows| - 1], i, cnes)
    ensures FirstWithCnes(rows, i, cnes) && CandidateOf(rows[i]) == CandidateOf(rows[..|rows| - 1][i])
  {
    var prefix := rows[..|rows| - 1];
    assert forall j :: 0 <= j <= i ==> prefix[j] == rows[j];
  }

  /** The last line is the first with its CNES when no earlier line has it. */
  lemma LastIsFirst(rows: seq<Row>, cnes: string)
    requires |rows| > 0
    requires CandidateOf(rows[|rows| - 1]).Some? && CandidateOf(rows[|rows| - 1]).value.cnes == cnes
    requires forall j :: 0 <= j < |rows| - 1 && CandidateOf(rows[j]).Some? ==> CandidateOf(rows[j]).value.cnes != cnes
    ensures FirstWithCnes(rows, |rows| - 1, cnes)
  {
  }

  /** Every candidate line's CNES is among the kept ones. */
  lemma {:induction false} UniqueEntriesCoverCandidates(rows: seq<Row>)
    ensures forall i :: 0 <= i < |rows| && CandidateOf(rows[i]).Some? ==> CandidateOf(rows[i]).value.cnes in CnesOf(UniqueEntries(rows))
    decreases |rows|
  {
    if |rows| > 0 {
      var prefix := rows[..|rows| - 1];
      var last := rows[|rows| - 1];
      UniqueEntriesCoverCandidates(prefix);
      UniqueEntriesStep(rows);
      var before := UniqueEntries(prefix);
      var unique := UniqueEntries(rows);
      assert forall c :: c in CnesOf(before) ==> c in CnesOf(unique) by {
        forall c | c in CnesOf(before)
          ensures c in CnesOf(unique)
        {
          var k :| 0 <= k < |before| && CnesOf(before)[k] == c;
          assert unique[k] == before[k];
          assert CnesOf(unique)[k] == c;
        }
      }
      forall i | 0 <= i < |rows| && CandidateOf(rows[i]).Some?
        ensures CandidateOf(rows[i]).value.cnes in CnesOf(unique)
      {
        if i < |rows| - 1 {
          assert rows[i] == prefix[i];
        } else if CandidateOf(last).value.cnes !in CnesOf(before) {
          assert CnesOf(unique)[|before|] == CandidateOf(last).value.cnes;
        }
      }
    }
  }

  // ----- The facility checks -----

  /** One call into a collaborator: the registry store with its key, or the
      online check with the CNES and the facility name. */
  datatype Query = StoreQuery(key: string) | OnlineQuery(cnes: string, name: string)

  /** `cnes_validation is True`, or a clean "not registered" followed by a
      successful online check. A call that raises accepts nothing. */
  predicate Accepted(entry: RowProcessData, store: string -> Call<Option<bool>>, online: (string, string) -> Call<bool>)
  {
    match store(entry.ibge + entry.cnes)
    case Returned(Some(b)) => b
    case Returned(None) => online(entry.cnes, entry.name) == Returned(true)
    case Raised => false
  }

  /** The calls checking one entry makes: the store first, and the online
      check only after the store answered "not registered". */
  function QueriesFor(entry: RowProcessData, store: string -> Call<Option<bool>>): (q: seq<Query>)
    ensures |q| >= 1 && q[0] == StoreQuery(entry.ibge + entry.cnes)
    ensures |q| == 2 <==> store(entry.ibge + entry.cnes) == Returned(None)
    ensures |q| <= 2
    ensures |q| == 2 ==> q[1] == OnlineQuery(entry.cnes, entry.name)
  {
    var key := entry.ibge + entry.cnes;
    [StoreQuery(key)] + (if store(key) == Returned(None) then [OnlineQuery(entry.cnes, entry.name)] else [])
  }

  /** `_get_valid_cnes`, from the left: an entry whose CNES is already
      accepted is passed over without any call; otherwise it is checked and
      its CNES appended when accepted. Every failure, of either call, only
      excludes that entry. Returns the accepted codes and the calls made. */
  function ValidCnes(entries: seq<RowProcessData>, store: string -> Call<Option<bool>>, online: (string, string) -> Call<bool>): (r: (seq<string>, seq<Query>))
    ensures forall i, j :: 0 <= i < j < |r.0| ==> r.0[i] != r.0[j]
    ensures forall c :: c in r.0 <==> exists k :: 0 <= k < |entries| && entries[k].cnes == c && Accepted(entries[k], store, online)
    decreases |entries|
  {
    if |entries| == 0 then ([], [])
    else
      var (valid, queries) := ValidCnes(entries[..|entries| - 1], store, online);
      var e := entries[|entries| - 1];
      assert forall k :: 0 <= k < |entries| - 1 ==> entries[..|entries| - 1][k] == entries[k];
      if e.cnes in valid then
        (valid, queries)
      else if Accepted(e, store, online) then
        (valid + [e.cnes], queries + QueriesFor(e, store))
      else
        (valid, queries + QueriesFor(e, store))
  }

  predicate OnlineFollowsUnknown(q: seq<Query>, store: string -> Call<Option<bool>>)
  {
    forall i :: 0 <= i < |q| && q[i].OnlineQuery? ==> i >= 1 && q[i - 1].StoreQuery? && store(q[i - 1].key) == Returned(None)
  }

  /** The online check is called only right after the store answered "not
      registered" for the same facility. */
  lemma {:induction false} OnlineOnlyAfterUnknown(entries: seq<RowProcessData>, store: string -> Call<Option<bool>>, online: (string, string) -> Call<bool>)
    ensures OnlineFollowsUnknown(ValidCnes(entries, store, online).1, store)
    decreases |entries|
  {
    if |entries| > 0 {
      var prefix := entries[..|entries| - 1];
      var e := entries[|entries| - 1];
      OnlineOnlyAfterUnknown(prefix, store, online);
      var before := ValidCnes(prefix, store, online);
      var valid, queries := before.0, before.1;
      var q := ValidCnes(entries, store, online).1;
      if e.cnes !in valid {
        var extra := QueriesFor(e, store);
        assert q == queries + extra;
        forall i | 0 <= i < |q| && q[i].OnlineQuery?
          ensures i >= 1 && q[i - 1].StoreQuery? && store(q[i - 1].key) == Returned(None)
        {
          if i < |queries| {
            assert q[i] == queries[i];
            assert i >= 1;
            assert q[i - 1] == queries[i - 1];
          } else {
            assert q[i] == extra[i - |queries|];
            assert i - |queries| == 1;
            assert q[i - 1] == extra[0];
          }
        }
      }
    }
  }

  /** The query is about that entry: the store is asked for its IBGE code
      followed by its CNES, the online check for its CNES and name. */
  predicate AsksAbout(q: Query, e: RowProcessData)
  {
    match q
    case StoreQuery(key) => key == e.ibge + e.cnes
    case OnlineQuery(cnes, name) => cnes == e.cnes && name == e.name
  }

  ghost predicate QueriesAreAboutEntries(q: seq<Query>, entries: seq<RowProcessData>)
  {
    forall i :: 0 <= i < |q| ==> exists k :: 0 <= k < |entries| && AsksAbout(q[i], entries[k])
  }

  /** Every store lookup and every online check is about one of the kept
      entries: the resolver asks about nothing else. */
  lemma {:induction false} QueryKeys(entries: seq<RowProcessData>, store: string -> Call<Option<bool>>, online: (string, string) -> Call<bool>)
    ensures QueriesAreAboutEntries(ValidCnes(entries, store, online).1, entries)
    decreases |entries|
  {
    if |entries| > 0 {
      var prefix := entries[..|entries| - 1];
      var e := entries[|entries| - 1];
      QueryKeys(prefix, store, online);
      var before := ValidCnes(prefix, store, online);
      var valid, queries := before.0, before.1;
      var q := ValidCnes(entries, store, online).1;
      var extra := QueriesFor(e, store);
      assert e.cnes in valid ==> q == queries;
      assert e.cnes !in valid ==> q == queries + extra;
      forall i | 0 <= i < |q|
        ensures exists k :: 0 <= k < |entries| && AsksAbout(q[i], entries[k])
      {
        if i < |queries| {
          assert q[i] == queries[i];
          var k :| 0 <= k < |prefix| && AsksAbout(queries[i], prefix[k]);
          assert prefix[k] == entries[k];
        } else {
          assert q[i] == extra[i - |queries|];
          assert AsksAbout(q[i], entries[|entries| - 1]);
        }
      }
    }
  }

  /** `check_establishment`: the accepted codes of the kept entries. */
  function CheckEstablishment(rows: seq<Row>, store: string -> Call<Option<bool>>, online: (string, string) -> Call<bool>): (valid: seq<string>)
    ensures forall i, j :: 0 <= i < j < |valid| ==> valid[i] != valid[j]
    ensures forall c :: c in valid <==>
      exists k :: 0 <= k < |UniqueEntries(rows)| && UniqueEntries(rows)[k].cnes == c && Accepted(UniqueEntries(rows)[k], store, online)
  {
    ValidCnes(UniqueEntries(rows), store, online).0
  }

  /** Every accepted code is the padded CNES of a candidate line. */
  lemma AcceptedAreCandidates(rows: seq<Row>, store: string -> Call<Option<bool>>, online: (string, string) -> Call<bool>)
    ensures forall c :: c in CheckEstablishment(rows, store, online) ==>
      exists i :: 0 <= i < |rows| && CandidateOf(rows[i]).Some? && CandidateOf(rows[i]).value.cnes == c && c == PadCnes(rows[i].cnes)
  {
    UniqueEntriesAreFirstOccurrences(rows);
    var unique := UniqueEntries(rows);
    forall c | c in CheckEstablishment(rows, store, online)
      ensures exists i :: 0 <= i < |rows| && CandidateOf(rows[i]).Some? && CandidateOf(rows[i]).value.cnes == c && c == PadCnes(rows[i].cnes)
    {
      var k :| 0 <= k < |unique| && unique[k].cnes == c && Accepted(unique[k], store, online);
      var i :| FirstWithCnes(rows, i, unique[k].cnes) && CandidateOf(rows[i]) == Some(unique[k]);
    }
  }
}
