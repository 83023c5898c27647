/**
 * The warehouse loader: registers the years and sectors a converted document
 * mentions in the two dimension tables, inserting only those not yet there,
 * then appends one fact row per (GDP row, sector) pair whose keys are
 * resolved against those tables.
 */
module Loader {
  import opened Wrappers
  import opened IndicatorDocument

  /** A row of a dimension table: its auto-increment surrogate key and its
      natural key. */
  datatype DimRow<K> = DimRow(id: int, key: K)

  /** A row of `dimension_year`: `id_annee` and `annee`. */
  type YearRow = DimRow<int>

  /** A row of `dimension_sector`: `id_secteur` and `nom_secteur`. */
  type SectorRow = DimRow<string>

  /** A row of `fact_economic_data`. A value is None where the document
      holds a JSON null. */
  datatype FactRow = FactRow(
    idAnnee: int,
    idSecteur: int,
    pibTotal: Option<real>,
    tauxCroissance: Option<real>,
    inflation: Option<real>,
    tauxChomage: Option<real>)

  /** Why loading stops: a bucket key the document lacks, or a year or sector
      with no dimension row. */
  datatype LoadError =
    | MissingBucket(bucket: Bucket)
    | UnknownYear(annee: int)
    | UnknownSector(nom: string)

  /** What one run reports: the years and sectors it inserted and the number
      of fact rows it appended. */
  datatype LoadReport = LoadReport(newYears: seq<int>, newSectors: seq<string>, factCount: nat)

  /** The fixed sector list. */
  const Sectors: seq<string> := ["Agriculture", "Industrie", "Services"]

  predicate Distinct<T(==)>(s: seq<T>)
  {
    forall i, j :: 0 <= i < j < |s| ==> s[i] != s[j]
  }

  /** A non-empty set has a member: the witness `:|` needs before it picks
      one. */
  lemma NonEmptyHasMember(s: set<int>)
    requires s != {}
    ensures exists y :: y in s
  {
    if forall y :: y !in s {
      // A set with no member is {}, which the precondition rules out.
      assert false;
    }
  }

  /** The set comprehension's choice: the values of `candidates` not in
      `existing`, each once, in an arbitrary order (a Python set's iteration
      order). */
  method SelectNew(candidates: set<int>, existing: set<int>) returns (picked: seq<int>)
    ensures Distinct(picked)
    ensures forall y :: y in picked <==> y in candidates && y !in existing
    ensures candidates <= existing ==> picked == []
  {
    var remaining := candidates;
    picked := [];
    while remaining != {}
      invariant remaining <= candidates
      invariant forall y :: y in picked <==> y in candidates && y !in remaining && y !in existing
      invariant Distinct(picked)
      decreases |remaining|
    {
      NonEmptyHasMember(remaining);
      var y :| y in remaining;
      if y !in existing {
        picked := picked + [y];
      }
      remaining := remaining - {y};
    }
    if picked != [] {
      assert picked[0] in picked;
    }
  }

  // ---------------------------------------------------------------------------
  // Dimension tables
  // ---------------------------------------------------------------------------

  /** The natural keys present in a dimension table. */
  function KeySet<K>(rows: seq<DimRow<K>>): set<K>
  {
    set r | r in rows :: r.key
  }

  /** Surrogate keys increase in table order and stay below `next`, the key
      the auto-increment column hands out next. */
  predicate IdsBelow<K>(rows: seq<DimRow<K>>, next: int)
  {
    (forall k, m :: 0 <= k < m < |rows| ==> rows[k].id < rows[m].id) &&
    (forall k :: 0 <= k < |rows| ==> rows[k].id < next)
  }

  /** No natural key appears in two rows. */
  predicate UniqueKeys<K(==)>(rows: seq<DimRow<K>>)
  {
    forall k, m :: 0 <= k < m < |rows| ==> rows[k].key != rows[m].key
  }

  /** The rows a batch insert of `ks` appends: consecutive surrogate keys
      from `first`, in batch order. */
  function NewRows<K>(ks: seq<K>, first: int): (r: seq<DimRow<K>>)
    ensures |r| == |ks|
    ensures forall k :: 0 <= k < |ks| ==> r[k] == DimRow(first + k, ks[k])
  {
    if ks == [] then [] else [DimRow(first, ks[0])] + NewRows(ks[1..], first + 1)
  }

  /** Appending a batch adds exactly its keys, keeps surrogate keys
      increasing, and keeps natural keys unique when the batch is distinct
      and new. */
  lemma AppendRows<K>(rows: seq<DimRow<K>>, ks: seq<K>, first: int)
    ensures KeySet(rows + NewRows(ks, first)) == KeySet(rows) + (set x | x in ks)
    ensures IdsBelow(rows, first) ==> IdsBelow(rows + NewRows(ks, first), first + |ks|)
    ensures UniqueKeys(rows) && Distinct(ks) && (forall x :: x in ks ==> x !in KeySet(rows)) ==>
      UniqueKeys(rows + NewRows(ks, first))
  {
    var added := NewRows(ks, first);
    var all := rows + added;
    forall x | x in ks
      ensures x in KeySet(all)
    {
      var k :| 0 <= k < |ks| && ks[k] == x;
      assert all[|rows| + k] == added[k];
    }
    forall x | x in KeySet(all)
      ensures x in KeySet(rows) + (set y | y in ks)
    {
      var r :| r in all && r.key == x;
      var k :| 0 <= k < |all| && all[k] == r;
      if k >= |rows| {
        assert added[k - |rows|].key == ks[k - |rows|];
      }
    }
    if UniqueKeys(rows) && Distinct(ks) && (forall x :: x in ks ==> x !in KeySet(rows)) {
      forall k, m | 0 <= k < m < |all|
        ensures all[k].key != all[m].key
      {
        if m < |rows| {
          assert all[k] == rows[k] && all[m] == rows[m];
        } else if k < |rows| {
          assert all[k] == rows[k] && all[m] == added[m - |rows|];
          assert rows[k].key in KeySet(rows);
        } else {
          assert all[k] == added[k - |rows|] && all[m] == added[m - |rows|];
        }
      }
    }
  }

  /** The first row with natural key `key`: what a SELECT without ORDER BY
      followed by `.iloc[0]` returns. */
  function FirstRow<K(==)>(rows: seq<DimRow<K>>, key: K): (r: Option<nat>)
    ensures r.Some? ==> r.value < |rows| && rows[r.value].key == key &&
                        forall k :: 0 <= k < r.value ==> rows[k].key != key
    ensures r.None? <==> key !in KeySet(rows)
  {
    if rows == [] then None
    else if rows[0].key == key then Some(0)
    else
      assert KeySet(rows) == {rows[0].key} + KeySet(rows[1..]) by {
        assert rows == [rows[0]] + rows[1..];
      }
      match FirstRow(rows[1..], key)
      case None => None
      case Some(k) => Some(k + 1)
  }

  // ---------------------------------------------------------------------------
  // Diffs against the dimension tables
  // ---------------------------------------------------------------------------

  /** The distinct years of the GDP rows. */
  function CandidateYears(pib: seq<Observation>): (r: set<int>)
    ensures forall y :: y in r <==> exists i :: 0 <= i < |pib| && pib[i].annee == y
  {
    set i | 0 <= i < |pib| :: pib[i].annee
  }

  /** The names of `names` not in `existing`, in list order. */
  function Missing(names: seq<string>, existing: set<string>): (r: seq<string>)
    ensures forall s :: s in r <==> s in names && s !in existing
    ensures Distinct(names) ==> Distinct(r)
  {
    if names == [] then []
    else
      var rest := Missing(names[1..], existing);
      if names[0] in existing then rest
      else [names[0]] + rest
  }

  /** The filter distributes over concatenation: it keeps list order. */
  lemma {:induction false} MissingAppend(a: seq<string>, b: seq<string>, existing: set<string>)
    ensures Missing(a + b, existing) == Missing(a, existing) + Missing(b, existing)
  {
    if a != [] {
      assert (a + b)[0] == a[0] && (a + b)[1..] == a[1..] + b;
      MissingAppend(a[1..], b, existing);
      assert Missing(a + b, existing) ==
        (if a[0] in existing then [] else [a[0]]) + Missing(a[1..] + b, existing);
    } else {
      assert a + b == b;
    }
  }

  /** The fixed sector list names no sector twice. */
  lemma SectorsDistinct()
    ensures Distinct(Sectors)
  {
  }

  /** Appending the rows of the missing names: afterwards every name is
      present, nothing is appended when none is missing, and a duplicate-free
      name list keeps natural keys unique. */
  lemma AppendMissing(rows: seq<SectorRow>, names: seq<string>, first: int)
    ensures var added := NewRows(Missing(names, KeySet(rows)), first);
      KeySet(rows + added) == KeySet(rows) + (set s | s in names) &&
      ((set s | s in names) <= KeySet(rows) ==> Missing(names, KeySet(rows)) == []) &&
      (IdsBelow(rows, first) ==> IdsBelow(rows + added, first + |added|)) &&
      (UniqueKeys(rows) && Distinct(names) ==> UniqueKeys(rows + added))
  {
    var missing := Missing(names, KeySet(rows));
    AppendRows(rows, missing, first);
    if missing != [] {
      assert missing[0] in names;
    }
  }

  // ---------------------------------------------------------------------------
  // Fact assembly
  // ---------------------------------------------------------------------------

  /** The `valeur` of the first row of year `annee`, or 0 when there is none:
      `next` over a generator with a default. */
  function FirstValeurOr0(rows: seq<Observation>, annee: int): (r: Option<real>)
    ensures (exists k :: 0 <= k < |rows| && rows[k].annee == annee) ==>
      exists k :: 0 <= k < |rows| && rows[k].annee == annee && r == rows[k].valeur &&
                  forall m :: 0 <= m < k ==> rows[m].annee != annee
    ensures (forall k :: 0 <= k < |rows| ==> rows[k].annee != annee) ==> r == Some(0.0)
  {
    match FirstYearIndex(rows, annee)
    case None => Some(0.0)
    case Some(k) => rows[k].valeur
  }

  /** What goes wrong, if anything, when the fact for GDP row `i` and sector
      `j` is built: the year lookup, then the sector lookup, then the three
      rate buckets, in that order. */
  function Fault(d: Document, years: seq<YearRow>, sectors: seq<SectorRow>, i: int, j: int): Option<LoadError>
    requires PibTotal in d.buckets && 0 <= i < |d.buckets[PibTotal]| && 0 <= j < |Sectors|
  {
    var annee := d.buckets[PibTotal][i].annee;
    if FirstRow(years, annee).None? then Some(UnknownYear(annee))
    else if FirstRow(sectors, Sectors[j]).None? then Some(UnknownSector(Sectors[j]))
    else if TauxCroissance !in d.buckets then Some(MissingBucket(TauxCroissance))
    else if Inflation !in d.buckets then Some(MissingBucket(Inflation))
    else if TauxChomage !in d.buckets then Some(MissingBucket(TauxChomage))
    else None
  }

  /** The fact for GDP row `i` and sector `j`, when nothing goes wrong. */
  function FactFor(d: Document, years: seq<YearRow>, sectors: seq<SectorRow>, i: int, j: int): FactRow
    requires PibTotal in d.buckets && 0 <= i < |d.buckets[PibTotal]| && 0 <= j < |Sectors|
    requires Fault(d, years, sectors, i, j).None?
  {
    var annee := d.buckets[PibTotal][i].annee;
    FactRow(
      years[FirstRow(years, annee).value].id,
      sectors[FirstRow(sectors, Sectors[j]).value].id,
      FirstValeurOr0(d.buckets[PibTotal], annee),
      FirstValeurOr0(d.buckets[TauxCroissance], annee),
      FirstValeurOr0(d.buckets[Inflation], annee),
      FirstValeurOr0(d.buckets[TauxChomage], annee))
  }

  /** Nothing goes wrong for any (GDP row, sector) step before step (i, j),
      GDP rows outermost. */
  predicate NoFaultBefore(d: Document, years: seq<YearRow>, sectors: seq<SectorRow>, i: int, j: int)
    requires PibTotal in d.buckets
  {
    forall i', j' :: 0 <= i' < |d.buckets[PibTotal]| && 0 <= j' < |Sectors| && (i' < i || (i' == i && j' < j)) ==>
      Fault(d, years, sectors, i', j').None?
  }

  /** `rows` holds the facts of every step before step (i, j), in step order:
      the fact of step (i', j') at position 3 * i' + j'. */
  predicate FactsUpTo(d: Document, years: seq<YearRow>, sectors: seq<SectorRow>, i: int, j: int, rows: seq<FactRow>)
    requires PibTotal in d.buckets
  {
    NoFaultBefore(d, years, sectors, i, j) &&
    |rows| == |Sectors| * i + j &&
    forall i', j' :: 0 <= i' < |d.buckets[PibTotal]| && 0 <= j' < |Sectors| && (i' < i || (i' == i && j' < j)) ==>
      |Sectors| * i' + j' < |rows| && rows[|Sectors| * i' + j'] == FactFor(d, years, sectors, i', j')
  }

  /** The GDP value of a fact is always found: it is the `valeur` of the
      first GDP row of the fact's year, never the default. */
  lemma PibValueFound(pib: seq<Observation>, i: int)
    requires 0 <= i < |pib|
    ensures FirstYearIndex(pib, pib[i].annee).Some?
    ensures FirstValeurOr0(pib, pib[i].annee) == pib[FirstYearIndex(pib, pib[i].annee).value].valeur
  {
  }

  /** The three sector facts of a GDP row carry the same values; they differ
      only in the sector key. */
  lemma SectorFactsShareValues(d: Document, years: seq<YearRow>, sectors: seq<SectorRow>, i: int, j: int, j': int)
    requires PibTotal in d.buckets && 0 <= i < |d.buckets[PibTotal]|
    requires 0 <= j < |Sectors| && 0 <= j' < |Sectors|
    requires Fault(d, years, sectors, i, j).None? && Fault(d, years, sectors, i, j').None?
    ensures FactFor(d, years, sectors, i, j).(idSecteur := 0) == FactFor(d, years, sectors, i, j').(idSecteur := 0)
  {
  }

  /** Two GDP rows of the same year give the same facts: a repeated year
      yields duplicate fact rows. */
  lemma RepeatedYearDuplicates(d: Document, years: seq<YearRow>, sectors: seq<SectorRow>, i: int, i': int, j: int)
    requires PibTotal in d.buckets && 0 <= i < |d.buckets[PibTotal]| && 0 <= i' < |d.buckets[PibTotal]|
    requires 0 <= j < |Sectors|
    requires d.buckets[PibTotal][i].annee == d.buckets[PibTotal][i'].annee
    requires Fault(d, years, sectors, i, j).None?
    ensures Fault(d, years, sectors, i', j).None?
    ensures FactFor(d, years, sectors, i, j) == FactFor(d, years, sectors, i', j)
  {
  }

  /** Once every GDP year and every sector has a dimension row, the only
      thing that can go wrong is a missing rate bucket. */
  lemma OnlyBucketsFault(d: Document, years: seq<YearRow>, sectors: seq<SectorRow>)
    requires PibTotal in d.buckets
    requires CandidateYears(d.buckets[PibTotal]) <= KeySet(years)
    requires (set s | s in Sectors) <= KeySet(sectors)
    ensures forall i, j :: 0 <= i < |d.buckets[PibTotal]| && 0 <= j < |Sectors| ==>
      (Fault(d, years, sectors, i, j).None? <==>
       TauxCroissance in d.buckets && Inflation in d.buckets && TauxChomage in d.buckets)
    ensures forall i, j :: 0 <= i < |d.buckets[PibTotal]| && 0 <= j < |Sectors| && Fault(d, years, sectors, i, j).Some? ==>
      Fault(d, years, sectors, i, j).value.MissingBucket?
  {
    forall i, j | 0 <= i < |d.buckets[PibTotal]| && 0 <= j < |Sectors|
      ensures FirstRow(years, d.buckets[PibTotal][i].annee).Some?
      ensures FirstRow(sectors, Sectors[j]).Some?
    {
      assert d.buckets[PibTotal][i].annee in CandidateYears(d.buckets[PibTotal]);
      assert Sectors[j] in (set s | s in Sectors);
    }
  }

  /** With every year and sector registered, assembly succeeds exactly when
      there is no GDP row or all three rate buckets are present. */
  lemma AssemblyOutcome(d: Document, years: seq<YearRow>, sectors: seq<SectorRow>)
    requires PibTotal in d.buckets
    requires CandidateYears(d.buckets[PibTotal]) <= KeySet(years)
    requires (set s | s in Sectors) <= KeySet(sectors)
    ensures NoFaultBefore(d, years, sectors, |d.buckets[PibTotal]|, 0) <==>
      d.buckets[PibTotal] == [] ||
      (TauxCroissance in d.buckets && Inflation in d.buckets && TauxChomage in d.buckets)
  {
    OnlyBucketsFault(d, years, sectors);
    if d.buckets[PibTotal] != [] && NoFaultBefore(d, years, sectors, |d.buckets[PibTotal]|, 0) {
      assert Fault(d, years, sectors, 0, 0).None?;
    }
  }

  /** The facts of a whole assembly are determined by the document and the
      two dimension tables: assembling twice against the same tables gives
      the same rows. */
  lemma FactsUpToUnique(d: Document, years: seq<YearRow>, sectors: seq<SectorRow>, a: seq<FactRow>, b: seq<FactRow>)
    requires PibTotal in d.buckets
    requires FactsUpTo(d, years, sectors, |d.buckets[PibTotal]|, 0, a)
    requires FactsUpTo(d, years, sectors, |d.buckets[PibTotal]|, 0, b)
    ensures a == b
  {
    forall k | 0 <= k < |a|
      ensures a[k] == b[k]
    {
      var i, j := k / 3, k % 3;
      assert |Sectors| * i + j == k;
      assert 0 <= i < |d.buckets[PibTotal]| && 0 <= j < |Sectors|;
      assert a[k] == FactFor(d, years, sectors, i, j) == b[k];
    }
  }

  /** Two appends of a whole assembly against the same dimension tables:
      the table keeps its old rows and then holds the same block twice. */
  lemma RerunFacts(d: Document, years: seq<YearRow>, sectors: seq<SectorRow>,
                   facts0: seq<FactRow>, facts1: seq<FactRow>, facts2: seq<FactRow>)
    requires PibTotal in d.buckets
    requires |facts0| <= |facts1| <= |facts2|
    requires facts1[..|facts0|] == facts0 && facts2[..|facts1|] == facts1
    requires FactsUpTo(d, years, sectors, |d.buckets[PibTotal]|, 0, facts1[|facts0|..])
    requires FactsUpTo(d, years, sectors, |d.buckets[PibTotal]|, 0, facts2[|facts1|..])
    ensures var n := |Sectors| * |d.buckets[PibTotal]|;
      |facts2| == |facts0| + 2 * n &&
      facts2[..|facts0|] == facts0 &&
      facts2[|facts0|..|facts0| + n] == facts1[|facts0|..] &&
      facts2[|facts0| + n..] == facts2[|facts0|..|facts0| + n]
  {
    var n := |Sectors| * |d.buckets[PibTotal]|;
    assert facts2[|facts0|..|facts0| + n] == facts1[|facts0|..];
    FactsUpToUnique(d, years, sectors, facts1[|facts0|..], facts2[|facts1|..]);
  }

  /** The dimension tables after one run's inserts, from those before it:
      the GDP years not yet present are appended, each once, in the order
      `added`, and the missing sectors in list order, all with fresh keys. */
  predicate Inserted(d: Document, years0: seq<YearRow>, sectors0: seq<SectorRow>, nextYear0: int, nextSector0: int,
                     years: seq<YearRow>, sectors: seq<SectorRow>, nextYear: int, nextSector: int, added: seq<int>)
    requires PibTotal in d.buckets
  {
    Distinct(added) &&
    (set y | y in added) == CandidateYears(d.buckets[PibTotal]) - KeySet(years0) &&
    years == years0 + NewRows(added, nextYear0) &&
    nextYear == nextYear0 + |added| &&
    sectors == sectors0 + NewRows(Missing(Sectors, KeySet(sectors0)), nextSector0) &&
    nextSector == nextSector0 + |Missing(Sectors, KeySet(sectors0))|
  }

  // ---------------------------------------------------------------------------
  // The warehouse
  // ---------------------------------------------------------------------------

  /** The three tables, with the next surrogate key of each dimension table. */
  class Warehouse {
    var years: seq<YearRow>
    var sectors: seq<SectorRow>
    var facts: seq<FactRow>
    var nextYearId: int
    var nextSectorId: int

    /** Surrogate keys increase in table order and stay below the next key,
        and no natural key appears twice in a dimension table. */
    predicate Valid()
      reads this
    {
      IdsBelow(years, nextYearId) && IdsBelow(sectors, nextSectorId) &&
      UniqueKeys(years) && UniqueKeys(sectors)
    }

    /** An empty warehouse. */
    constructor ()
      ensures years == [] && sectors == [] && facts == []
      ensures nextYearId == 1 && nextSectorId == 1
      ensures Valid()
    {
      years, sectors, facts := [], [], [];
      nextYearId, nextSectorId := 1, 1;
    }

    /** The GDP years not yet in `dimension_year` are collected, in the
        iteration order of the year set, and inserted in one batch, or not at
        all when there are none. */
    method AddNewYears(pib: seq<Observation>) returns (inserted: seq<int>)
      requires Valid()
      modifies this
      ensures Valid()
      ensures Distinct(inserted)
      ensures (set y | y in inserted) == CandidateYears(pib) - old(KeySet(years))
      ensures years == old(years) + NewRows(inserted, old(nextYearId))
      ensures nextYearId == old(nextYearId) + |inserted|
      ensures sectors == old(sectors) && facts == old(facts) && nextSectorId == old(nextSectorId)
      ensures KeySet(years) == old(KeySet(years)) + CandidateYears(pib)
      ensures CandidateYears(pib) <= old(KeySet(years)) ==> inserted == [] && years == old(years)
    {
      inserted := SelectNew(CandidateYears(pib), KeySet(years));
      AppendRows(years, inserted, nextYearId);
      if inserted != [] {
        years := years + NewRows(inserted, nextYearId);
        nextYearId := nextYearId + |inserted|;
      }
    }

    /** The fixed sectors not yet in `dimension_sector` are inserted in list
        order in one batch, or not at all when there are none. */
    method AddNewSectors() returns (inserted: seq<string>)
      requires Valid()
      modifies this
      ensures Valid()
      ensures inserted == Missing(Sectors, old(KeySet(sectors)))
      ensures sectors == old(sectors) + NewRows(inserted, old(nextSectorId))
      ensures nextSectorId == old(nextSectorId) + |inserted|
      ensures years == old(years) && facts == old(facts) && nextYearId == old(nextYearId)
      ensures KeySet(sectors) == old(KeySet(sectors)) + (set s | s in Sectors)
      ensures (set s | s in Sectors) <= old(KeySet(sectors)) ==> inserted == [] && sectors == old(sectors)
    {
      inserted := Missing(Sectors, KeySet(sectors));
      SectorsDistinct();
      AppendMissing(sectors, Sectors, nextSectorId);
      if inserted != [] {
        sectors := sectors + NewRows(inserted, nextSectorId);
        nextSectorId := nextSectorId + |inserted|;
      }
    }

    /** One fact per GDP row and sector, GDP rows outermost, with the year
        key resolved once per GDP row and the sector key once per sector; the
        first lookup that fails stops the whole batch. */
    method AssembleFacts(d: Document) returns (r: Result<seq<FactRow>, LoadError>)
      ensures PibTotal !in d.buckets ==> r == Err(MissingBucket(PibTotal))
      ensures PibTotal in d.buckets ==>
        (r.Ok? <==> NoFaultBefore(d, years, sectors, |d.buckets[PibTotal]|, 0))
      ensures PibTotal in d.buckets && r.Ok? ==>
        FactsUpTo(d, years, sectors, |d.buckets[PibTotal]|, 0, r.value)
      ensures PibTotal in d.buckets && r.Err? ==>
        exists i, j :: 0 <= i < |d.buckets[PibTotal]| && 0 <= j < |Sectors| &&
          NoFaultBefore(d, years, sectors, i, j) &&
          Fault(d, years, sectors, i, j) == Some(r.error)
    {
      if PibTotal !in d.buckets {
        return Err(MissingBucket(PibTotal));
      }
      var pib := d.buckets[PibTotal];
      var acc: seq<FactRow> := [];
      var i := 0;
      while i < |pib|
        invariant 0 <= i <= |pib|
        invariant FactsUpTo(d, years, sectors, i, 0, acc)
      {
        var annee := pib[i].annee;
        var yearRow := FirstRow(years, annee);
        if yearRow.None? {
          assert Fault(d, years, sectors, i, 0) == Some(UnknownYear(annee));
          return Err(UnknownYear(annee));
        }
        var j := 0;
        while j < |Sectors|
          invariant 0 <= j <= |Sectors|
          invariant FactsUpTo(d, years, sectors, i, j, acc)
        {
          var sectorRow := FirstRow(sectors, Sectors[j]);
          if sectorRow.None? {
            assert Fault(d, years, sectors, i, j) == Some(UnknownSector(Sectors[j]));
            return Err(UnknownSector(Sectors[j]));
          }
          if TauxCroissance !in d.buckets {
            assert Fault(d, years, sectors, i, j) == Some(MissingBucket(TauxCroissance));
            return Err(MissingBucket(TauxCroissance));
          }
          if Inflation !in d.buckets {
            assert Fault(d, years, sectors, i, j) == Some(MissingBucket(Inflation));
            return Err(MissingBucket(Inflation));
          }
          if TauxChomage !in d.buckets {
            assert Fault(d, years, sectors, i, j) == Some(MissingBucket(TauxChomage));
            return Err(MissingBucket(TauxChomage));
          }
          var fact := FactRow(
            years[yearRow.value].id,
            sectors[sectorRow.value].id,
            FirstValeurOr0(pib, annee),
            FirstValeurOr0(d.buckets[TauxCroissance], annee),
            FirstValeurOr0(d.buckets[Inflation], annee),
            FirstValeurOr0(d.buckets[TauxChomage], annee));
          assert fact == FactFor(d, years, sectors, i, j);
          acc := acc + [fact];
          j := j + 1;
        }
        i := i + 1;
      }
      return Ok(acc);
    }

    /** The whole script on one document: read the GDP rows (a missing key
        stops it before any insert), insert the new years, insert the new
        sectors, then assemble the facts and append them in one batch. The
        dimension inserts stay when assembly fails. `addedYears` names the
        years inserted, in the order they were inserted. */
    method Load(d: Document) returns (r: Result<LoadReport, LoadError>, ghost addedYears: seq<int>)
      requires Valid()
      modifies this
      ensures Valid()
      ensures PibTotal !in d.buckets ==>
        r == Err(MissingBucket(PibTotal)) && addedYears == [] &&
        years == old(years) && sectors == old(sectors) && facts == old(facts) &&
        nextYearId == old(nextYearId) && nextSectorId == old(nextSectorId)
      ensures PibTotal in d.buckets ==>
        Inserted(d, old(years), old(sectors), old(nextYearId), old(nextSectorId),
                 years, sectors, nextYearId, nextSectorId, addedYears)
      ensures PibTotal in d.buckets ==>
        KeySet(years) == old(KeySet(years)) + CandidateYears(d.buckets[PibTotal]) &&
        KeySet(sectors) == old(KeySet(sectors)) + (set s | s in Sectors)
      ensures PibTotal in d.buckets && CandidateYears(d.buckets[PibTotal]) <= old(KeySet(years)) ==>
        addedYears == [] && years == old(years) && nextYearId == old(nextYearId)
      ensures (set s | s in Sectors) <= old(KeySet(sectors)) ==>
        sectors == old(sectors) && nextSectorId == old(nextSectorId)
      ensures r.Ok? <==>
        PibTotal in d.buckets &&
        (d.buckets[PibTotal] == [] ||
         (TauxCroissance in d.buckets && Inflation in d.buckets && TauxChomage in d.buckets))
      ensures r.Err? ==> r.error.MissingBucket? && facts == old(facts)
      ensures r.Ok? ==>
        r.value.factCount == |Sectors| * |d.buckets[PibTotal]| &&
        |facts| == |old(facts)| + r.value.factCount &&
        facts[..|old(facts)|] == old(facts) &&
        FactsUpTo(d, years, sectors, |d.buckets[PibTotal]|, 0, facts[|old(facts)|..])
      ensures r.Ok? ==>
        r.value.newYears == addedYears &&
        r.value.newSectors == Missing(Sectors, old(KeySet(sectors)))
    {
      addedYears := [];
      if PibTotal !in d.buckets {
        return Err(MissingBucket(PibTotal)), addedYears;
      }
      var newYears := AddNewYears(d.buckets[PibTotal]);
      addedYears := newYears;
      var newSectors := AddNewSectors();
      var assembled := AssembleFacts(d);
      AssemblyOutcome(d, years, sectors);
      OnlyBucketsFault(d, years, sectors);
      match assembled {
        case Err(e) =>
          return Err(e), addedYears;
        case Ok(rows) =>
          facts := facts + rows;
          assert facts[..|old(facts)|] == old(facts);
          assert facts[|old(facts)|..] == rows;
          return Ok(LoadReport(newYears, newSectors, |rows|)), addedYears;
      }
    }

    /** Loading the same document twice: both runs succeed or fail alike, as
        one run does; the dimension tables end up as one run leaves them, so
        the second run inserts no year and no sector; and on success the
        second run appends the same facts as the first, once more. */
    method LoadTwice(d: Document) returns (first: Result<LoadReport, LoadError>, second: Result<LoadReport, LoadError>, ghost addedYears: seq<int>)
      requires Valid()
      modifies this
      ensures Valid()
      ensures first.Ok? <==>
        PibTotal in d.buckets &&
        (d.buckets[PibTotal] == [] ||
         (TauxCroissance in d.buckets && Inflation in d.buckets && TauxChomage in d.buckets))
      ensures first.Ok? <==> second.Ok?
      ensures PibTotal !in d.buckets ==>
        years == old(years) && sectors == old(sectors) && facts == old(facts) &&
        nextYearId == old(nextYearId) && nextSectorId == old(nextSectorId)
      ensures PibTotal in d.buckets ==>
        Inserted(d, old(years), old(sectors), old(nextYearId), old(nextSectorId),
                 years, sectors, nextYearId, nextSectorId, addedYears)
      ensures first.Err? ==> facts == old(facts)
      ensures second.Ok? ==>
        second.value.newYears == [] && second.value.newSectors == [] &&
        second.value.factCount == first.value.factCount
      ensures first.Ok? ==>
        var n := first.value.factCount;
        |facts| == |old(facts)| + 2 * n &&
        facts[..|old(facts)|] == old(facts) &&
        FactsUpTo(d, years, sectors, |d.buckets[PibTotal]|, 0, facts[|old(facts)|..|old(facts)| + n]) &&
        facts[|old(facts)| + n..] == facts[|old(facts)|..|old(facts)| + n]
    {
      ghost var again;
      first, addedYears := Load(d);
      ghost var facts1, years1, sectors1 := facts, years, sectors;
      ghost var nextYear1, nextSector1 := nextYearId, nextSectorId;
      if PibTotal in d.buckets {
        assert (set s | s in Sectors) <= KeySet(sectors1);
        assert CandidateYears(d.buckets[PibTotal]) <= KeySet(years1);
      }
      second, again := Load(d);
      assert years == years1 && sectors == sectors1;
      assert nextYearId == nextYear1 && nextSectorId == nextSector1;
      if first.Ok? {
        RerunFacts(d, years, sectors, old(facts), facts1, facts);
      }
    }
  }
}
