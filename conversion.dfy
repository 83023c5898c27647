/**
 * The converter: turns the percentage-of-GDP rows of the sector and public
 * debt buckets into monetary amounts using the GDP of the same year, names
 * the converted file, and stamps the document with its conversion time.
 */
module Conversion {
  import opened Wrappers
  import opened IndicatorDocument

  /** Why a conversion stops: a bucket key the document lacks, a bucket whose
      list is empty (its table then has no `valeur` column), or a row whose
      year has no GDP row. */
  datatype ConversionError =
    | MissingBucket(bucket: Bucket)
    | NoValeurColumn(bucket: Bucket)
    | NoGdpForYear(bucket: Bucket, annee: int)

  /** The null-to-zero fill applied to every `valeur` column. */
  function Filled(v: Option<real>): real
  {
    if v.Some? then v.value else 0.0
  }

  /** The GDP of year `annee`: the filled `valeur` of the first GDP row of
      that year, if any row has it. */
  function GdpFor(pib: seq<Observation>, annee: int): (r: Option<real>)
    ensures r.Some? <==> exists j :: 0 <= j < |pib| && pib[j].annee == annee
    ensures r.Some? ==> exists j :: 0 <= j < |pib| && pib[j].annee == annee && r.value == Filled(pib[j].valeur) &&
                                    forall i :: 0 <= i < j ==> pib[i].annee != annee
  {
    match FirstYearIndex(pib, annee)
    case None => None
    case Some(j) => Some(Filled(pib[j].valeur))
  }

  /** A share of `valeur` percent of a GDP of `gdp`, as an amount. */
  function Monetary(valeur: real, gdp: real): real
  {
    valeur * gdp / 100.0
  }

  /** One row through the conversion, given the GDP `g` of its year. */
  function ConvertRow(row: Observation, g: real): (r: Observation)
    ensures r.annee == row.annee && r.pays == row.pays && r.indicateur == row.indicateur
    ensures r.unite == "USD"
    ensures r.valeur == Some(Filled(row.valeur))
    ensures r.valeurMonetary == Some(Monetary(Filled(row.valeur), g))
    ensures row.valeur.None? ==> r.valeur == Some(0.0) && r.valeurMonetary == Some(0.0)
  {
    row.(valeur := Some(Filled(row.valeur)), unite := "USD",
         valeurMonetary := Some(Monetary(Filled(row.valeur), g)))
  }

  /** `out` is `rows` converted row by row against the GDP rows `pib`. */
  predicate ConvertedRows(rows: seq<Observation>, pib: seq<Observation>, out: seq<Observation>)
  {
    |out| == |rows| &&
    forall i :: 0 <= i < |rows| ==>
      GdpFor(pib, rows[i].annee).Some? &&
      out[i] == ConvertRow(rows[i], GdpFor(pib, rows[i].annee).value)
  }

  /** Every row of `rows` has a GDP row of its year. */
  predicate AllYearsKnown(rows: seq<Observation>, pib: seq<Observation>)
  {
    forall i :: 0 <= i < |rows| ==> GdpFor(pib, rows[i].annee).Some?
  }

  /** The row-wise `apply` over the rows of bucket `b`: every row is converted
      in order, and the first row whose year has no GDP row stops it. */
  function ConvertRows(rows: seq<Observation>, pib: seq<Observation>, b: Bucket): (r: Result<seq<Observation>, ConversionError>)
    ensures r.Ok? <==> AllYearsKnown(rows, pib)
    ensures r.Ok? ==> ConvertedRows(rows, pib, r.value)
    ensures r.Err? ==> exists i :: 0 <= i < |rows| && GdpFor(pib, rows[i].annee).None? &&
                                  r.error == NoGdpForYear(b, rows[i].annee) &&
                                  forall j :: 0 <= j < i ==> GdpFor(pib, rows[j].annee).Some?
  {
    if rows == [] then Ok([])
    else
      match GdpFor(pib, rows[0].annee)
      case None =>
        Err(NoGdpForYear(b, rows[0].annee))
      case Some(g) =>
        match ConvertRows(rows[1..], pib, b)
        case Err(e) =>
          assert forall j :: 0 < j < |rows| ==> rows[j] == rows[1..][j - 1];
          Err(e)
        case Ok(rest) =>
          assert forall j :: 0 < j < |rows| ==> rows[j] == rows[1..][j - 1];
          Ok([ConvertRow(rows[0], g)] + rest)
  }

  /** The three buckets the conversion reads are present and non-empty. */
  predicate Convertible(d: Document)
  {
    PibTotal in d.buckets && PibSecteur in d.buckets && DettePublique in d.buckets &&
    d.buckets[PibTotal] != [] && d.buckets[PibSecteur] != [] && d.buckets[DettePublique] != []
  }

  /** `convert_sectors_and_debt_to_monetary_value`. The three lists are read
      (a missing key fails, in the order GDP, sectors, debt), their `valeur`
      columns are filled (an empty list fails, same order), the sector rows
      and then the debt rows are converted, and only the sector and debt
      buckets of the document are replaced. */
  function ConvertSectorsAndDebt(d: Document): (r: Result<Document, ConversionError>)
    ensures r.Ok? <==> Convertible(d) &&
                       AllYearsKnown(d.buckets[PibSecteur], d.buckets[PibTotal]) &&
                       AllYearsKnown(d.buckets[DettePublique], d.buckets[PibTotal])
    ensures r.Ok? ==>
      r.value.metadata == d.metadata && r.value.dateConversion == d.dateConversion &&
      r.value.buckets.Keys == d.buckets.Keys &&
      (forall b :: b in d.buckets && b != PibSecteur && b != DettePublique ==> r.value.buckets[b] == d.buckets[b]) &&
      ConvertedRows(d.buckets[PibSecteur], d.buckets[PibTotal], r.value.buckets[PibSecteur]) &&
      ConvertedRows(d.buckets[DettePublique], d.buckets[PibTotal], r.value.buckets[DettePublique])
    ensures r.Err? && r.error.MissingBucket? ==>
      r.error.bucket !in d.buckets && r.error.bucket in {PibTotal, PibSecteur, DettePublique}
    ensures r.Err? && r.error.NoValeurColumn? ==>
      r.error.bucket in d.buckets && d.buckets[r.error.bucket] == [] &&
      r.error.bucket in {PibTotal, PibSecteur, DettePublique}
    ensures r.Err? && r.error.NoGdpForYear? ==>
      (r.error.bucket == PibSecteur || r.error.bucket == DettePublique) &&
      r.error.bucket in d.buckets && PibTotal in d.buckets &&
      exists i :: 0 <= i < |d.buckets[r.error.bucket]| &&
        d.buckets[r.error.bucket][i].annee == r.error.annee &&
        GdpFor(d.buckets[PibTotal], r.error.annee).None?
  {
    if PibTotal !in d.buckets then Err(MissingBucket(PibTotal))
    else if PibSecteur !in d.buckets then Err(MissingBucket(PibSecteur))
    else if DettePublique !in d.buckets then Err(MissingBucket(DettePublique))
    else
      var pib, secteur, dette := d.buckets[PibTotal], d.buckets[PibSecteur], d.buckets[DettePublique];
      if pib == [] then Err(NoValeurColumn(PibTotal))
      else if secteur == [] then Err(NoValeurColumn(PibSecteur))
      else if dette == [] then Err(NoValeurColumn(DettePublique))
      else
        match ConvertRows(secteur, pib, PibSecteur)
        case Err(e) => Err(e)
        case Ok(secteur') =>
          match ConvertRows(dette, pib, DettePublique)
          case Err(e) => Err(e)
          case Ok(dette') => Ok(d.(buckets := d.buckets[PibSecteur := secteur'][DettePublique := dette']))
  }

  // ---------------------------------------------------------------------------
  // Re-conversion
  // ---------------------------------------------------------------------------

  /** Converting an already converted row again changes nothing. */
  lemma ConvertRowStable(row: Observation, g: real)
    ensures ConvertRow(ConvertRow(row, g), g) == ConvertRow(row, g)
  {
  }

  /** Converting already converted rows again yields the same rows. */
  lemma {:induction false} ConvertRowsStable(rows: seq<Observation>, pib: seq<Observation>, b: Bucket)
    requires AllYearsKnown(rows, pib)
    ensures ConvertRows(ConvertRows(rows, pib, b).value, pib, b) == ConvertRows(rows, pib, b)
  {
    if rows != [] {
      var out := ConvertRows(rows, pib, b).value;
      assert AllYearsKnown(rows[1..], pib) by {
        forall i | 0 <= i < |rows[1..]| ensures GdpFor(pib, rows[1..][i].annee).Some? {
          assert rows[1..][i] == rows[i + 1];
        }
      }
      ConvertRowsStable(rows[1..], pib, b);
      ConvertRowStable(rows[0], GdpFor(pib, rows[0].annee).value);
      assert out == [out[0]] + out[1..];
      assert out[1..] == ConvertRows(rows[1..], pib, b).value;
    }
  }

  /** A converted file fed back to the converter (as happens to a file
      already named `_conv.json`) comes out exactly as it went in. */
  lemma ConvertTwice(d: Document)
    requires ConvertSectorsAndDebt(d).Ok?
    ensures ConvertSectorsAndDebt(ConvertSectorsAndDebt(d).value) == ConvertSectorsAndDebt(d)
  {
    var pib := d.buckets[PibTotal];
    var c := ConvertSectorsAndDebt(d).value;
    ConvertRowsStable(d.buckets[PibSecteur], pib, PibSecteur);
    ConvertRowsStable(d.buckets[DettePublique], pib, DettePublique);
    assert c.buckets[PibTotal] == pib;
    assert c.buckets[PibSecteur] == ConvertRows(d.buckets[PibSecteur], pib, PibSecteur).value;
    assert c.buckets[DettePublique] == ConvertRows(d.buckets[DettePublique], pib, DettePublique).value;
    assert c.buckets[PibSecteur := c.buckets[PibSecteur]][DettePublique := c.buckets[DettePublique]] == c.buckets;
  }

  // ---------------------------------------------------------------------------
  // A worked example
  // ---------------------------------------------------------------------------

  function Row(annee: int, valeur: Option<real>, unite: string, indicateur: string): Observation
  {
    Observation(annee, valeur, unite, "Maroc", indicateur, None)
  }

  /** A GDP of 1000 in 2020 turns an agriculture share of 10 % into 100 USD
      and a debt of 60 % into 600 USD; a null share becomes 0. */
  lemma ConvertExample()
    ensures var d := Document(
              map[PibTotal := [Row(2020, Some(1000.0), "USD", "PIB total")],
                  PibSecteur := [Row(2020, Some(10.0), "% du PIB", "Agriculture"),
                                 Row(2020, None, "% du PIB", "Industrie")],
                  DettePublique := [Row(2020, Some(60.0), "% du PIB", "Dette publique totale")]],
              Metadata("Banque Mondiale", "2025-01-01 00:00:00", ""), None);
            var r := ConvertSectorsAndDebt(d);
            r.Ok? &&
            r.value.buckets[PibSecteur][0].valeurMonetary == Some(100.0) &&
            r.value.buckets[PibSecteur][0].unite == "USD" &&
            r.value.buckets[PibSecteur][1].valeur == Some(0.0) &&
            r.value.buckets[PibSecteur][1].valeurMonetary == Some(0.0) &&
            r.value.buckets[DettePublique][0].valeurMonetary == Some(600.0)
  {
    var pib := [Row(2020, Some(1000.0), "USD", "PIB total")];
    assert GdpFor(pib, 2020) == Some(1000.0);
  }

  /** An empty debt list stops the conversion even though every sector row
      could be converted. */
  lemma EmptyDebtFails()
    ensures var d := Document(
              map[PibTotal := [Row(2020, Some(1000.0), "USD", "PIB total")],
                  PibSecteur := [Row(2020, Some(10.0), "% du PIB", "Agriculture")],
                  DettePublique := []],
              Metadata("Banque Mondiale", "2025-01-01 00:00:00", ""), None);
            ConvertSectorsAndDebt(d) == Err(NoValeurColumn(DettePublique))
  {
  }

  /** A sector row of a year without a GDP row stops the conversion. */
  lemma MissingYearFails()
    ensures var d := Document(
              map[PibTotal := [Row(2020, Some(1000.0), "USD", "PIB total")],
                  PibSecteur := [Row(2019, Some(10.0), "% du PIB", "Agriculture")],
                  DettePublique := [Row(2020, Some(60.0), "% du PIB", "Dette publique totale")]],
              Metadata("Banque Mondiale", "2025-01-01 00:00:00", ""), None);
            ConvertSectorsAndDebt(d) == Err(NoGdpForYear(PibSecteur, 2019))
  {
    assert GdpFor([Row(2020, Some(1000.0), "USD", "PIB total")], 2019).None?;
  }

  // ---------------------------------------------------------------------------
  // The output file name
  // ---------------------------------------------------------------------------

  predicate EndsWith(s: string, suffix: string)
  {
    |suffix| <= |s| && s[|s| - |suffix|..] == suffix
  }

  /** `pat` occurs in `s` at position `i`. */
  predicate OccursAt(s: string, pat: string, i: int)
  {
    0 <= i && i + |pat| <= |s| && s[i..i + |pat|] == pat
  }

  /** No proper suffix of `pat` starts like `pat`: two occurrences of such a
      pattern never overlap. */
  predicate Unbordered(pat: string)
  {
    pat != [] && forall k :: 0 < k < |pat| ==> pat[k] != pat[0]
  }

  /** `pat` does not occur in `s` at any position before `i`. */
  predicate NoOccurrenceBefore(s: string, pat: string, i: nat)
    decreases i
  {
    i == 0 || (|s| > 0 && !OccursAt(s, pat, 0) && NoOccurrenceBefore(s[1..], pat, i - 1))
  }

  /** `NoOccurrenceBefore` is what it says: no position before `i` holds an
      occurrence, for `i` within the string. */
  lemma {:induction false} NoOccurrenceBeforeMeans(s: string, pat: string, i: nat)
    requires i <= |s|
    ensures NoOccurrenceBefore(s, pat, i) <==> forall k :: 0 <= k < i ==> !OccursAt(s, pat, k)
    decreases i
  {
    if i > 0 {
      var t := s[1..];
      NoOccurrenceBeforeMeans(t, pat, i - 1);
      forall k | 0 <= k < i - 1
        ensures OccursAt(t, pat, k) <==> OccursAt(s, pat, k + 1)
      {
        if k + 1 + |pat| <= |s| {
          assert t[k..k + |pat|] == s[k + 1..k + 1 + |pat|];
        }
      }
      if forall k :: 0 <= k < i ==> !OccursAt(s, pat, k) {
        assert !OccursAt(s, pat, 0);
      }
      if NoOccurrenceBefore(s, pat, i) {
        forall k | 0 <= k < i
          ensures !OccursAt(s, pat, k)
        {
          if k > 0 {
            assert !OccursAt(t, pat, k - 1);
          }
        }
      }
    }
  }

  /** Python's `s.replace(pat, rep)` for a non-empty `pat`: occurrences are
      found left to right, each replaced, and scanning resumes after it. */
  function ReplaceAll(s: string, pat: string, rep: string): (r: string)
    requires pat != []
    decreases |s|
  {
    if |s| < |pat| then s
    else if s[..|pat|] == pat then rep + ReplaceAll(s[|pat|..], pat, rep)
    else [s[0]] + ReplaceAll(s[1..], pat, rep)
  }


  /** One step of `ReplaceAll` at an occurrence of the pattern. */
  lemma ReplaceAllHit(s: string, pat: string, rep: string)
    requires pat != [] && OccursAt(s, pat, 0)
    ensures ReplaceAll(s, pat, rep) == rep + ReplaceAll(s[|pat|..], pat, rep)
  {
    assert s[..|pat|] == pat;
  }

  /** A string with no occurrence of the pattern is returned unchanged. */
  lemma {:induction false} ReplaceAllNoOccurrence(s: string, pat: string, rep: string)
    requires pat != []
    ensures (forall i :: !OccursAt(s, pat, i)) ==> ReplaceAll(s, pat, rep) == s
    decreases |s|
  {
    if (forall i :: !OccursAt(s, pat, i)) && |pat| <= |s| {
      var t := s[1..];
      assert !OccursAt(s, pat, 0);
      forall i | OccursAt(t, pat, i)
        ensures OccursAt(s, pat, i + 1)
      {
        assert t[i..i + |pat|] == s[i + 1..i + 1 + |pat|];
      }
      ReplaceAllNoOccurrence(t, pat, rep);
      ReplaceAllMiss(s, pat, rep);
      assert [s[0]] + t == s;
    }
  }

  /** One step of `ReplaceAll` past a character where the pattern does not
      start. */
  lemma ReplaceAllMiss(s: string, pat: string, rep: string)
    requires pat != [] && |pat| <= |s| && !OccursAt(s, pat, 0)
    ensures ReplaceAll(s, pat, rep) == [s[0]] + ReplaceAll(s[1..], pat, rep)
  {
  }

  /** Before the first occurrence of the pattern, `ReplaceAll` copies the
      text unchanged. */
  lemma {:induction false} ReplaceAllCopies(s: string, pat: string, rep: string, i: nat)
    requires pat != [] && i + |pat| <= |s| && NoOccurrenceBefore(s, pat, i)
    ensures ReplaceAll(s, pat, rep) == s[..i] + ReplaceAll(s[i..], pat, rep)
    decreases i
  {
    if i == 0 {
      assert s[..i] == [];
      assert s[i..] == s;
    } else {
      var t := s[1..];
      ReplaceAllCopies(t, pat, rep, i - 1);
      ReplaceAllMiss(s, pat, rep);
      assert t[i - 1..] == s[i..];
      assert s[..i] == [s[0]] + t[..i - 1];
      Splice(ReplaceAll(s, pat, rep), [s[0]], ReplaceAll(t, pat, rep), t[..i - 1], ReplaceAll(s[i..], pat, rep));
    }
  }

  /** `ReplaceAll` replaces the first occurrence of `pat`, keeps what comes
      before it, and goes on with the text after it: every occurrence found
      scanning left to right is replaced. */
  lemma ReplaceAllFirst(s: string, pat: string, rep: string, i: nat)
    requires pat != [] && OccursAt(s, pat, i) && NoOccurrenceBefore(s, pat, i)
    ensures ReplaceAll(s, pat, rep) == s[..i] + rep + ReplaceAll(s[i + |pat|..], pat, rep)
  {
    ReplaceAllCopies(s, pat, rep, i);
    var u, v := s[i..], s[i + |pat|..];
    assert u[..|pat|] == s[i..i + |pat|];
    ReplaceAllHit(u, pat, rep);
    assert u[|pat|..] == v;
    Splice(ReplaceAll(s, pat, rep), s[..i], ReplaceAll(u, pat, rep), rep, ReplaceAll(v, pat, rep));
  }

  /** Substituting a split of the tail into a split of the whole. */
  lemma Splice(x: string, a: string, y: string, b: string, c: string)
    requires x == a + y && y == b + c
    ensures x == a + b + c
  {
  }

  /** The converted file's name (lines 85-88): a name already ending in
      `_conv.json` is kept, any other has every `.json` replaced. Every
      `.json` file is written to a name ending in `_conv.json`, and a name
      without `.json` is kept as it is. */
  function OutputName(filename: string): (r: string)
    ensures EndsWith(filename, "_conv.json") ==> r == filename
    ensures !EndsWith(filename, "_conv.json") ==> r == ReplaceAll(filename, ".json", "_conv.json")
    ensures EndsWith(filename, ".json") ==> EndsWith(r, "_conv.json")
    ensures (forall i :: !OccursAt(filename, ".json", i)) ==> r == filename
  {
    if EndsWith(filename, "_conv.json") then filename
    else
      ReplaceAllNoOccurrence(filename, ".json", "_conv.json");
      assert EndsWith(filename, ".json") ==>
             EndsWith(ReplaceAll(filename, ".json", "_conv.json"), "_conv.json") by {
        if EndsWith(filename, ".json") {
          assert Unbordered(".json");
          ReplaceAllSuffix(filename, ".json", "_conv.json");
        }
      }
      ReplaceAll(filename, ".json", "_conv.json")
  }

  /** Dropping a prefix no longer than what precedes the suffix keeps it. */
  lemma EndsWithDrop(s: string, suffix: string, n: nat)
    requires EndsWith(s, suffix) && n + |suffix| <= |s|
    ensures EndsWith(s[n..], suffix)
  {
    assert s[n..][|s[n..]| - |suffix|..] == s[|s| - |suffix|..];
  }

  /** Prepending text keeps a suffix. */
  lemma EndsWithPrepend(x: string, t: string, suffix: string)
    requires EndsWith(t, suffix)
    ensures EndsWith(x + t, suffix)
  {
    assert (x + t)[|x + t| - |suffix|..] == t[|t| - |suffix|..];
  }

  /** A string that starts and ends with an unbordered pattern, and is longer
      than it, holds the two occurrences side by side. */
  lemma NoOverlap(s: string, pat: string)
    requires Unbordered(pat) && |pat| < |s| && s[..|pat|] == pat && EndsWith(s, pat)
    ensures 2 * |pat| <= |s|
  {
    assert s[|s| - |pat|] == s[|s| - |pat|..][0] == pat[0];
  }

  /** Replacing an unbordered pattern in a string that ends with it yields a
      string that ends with the replacement. */
  lemma {:induction false} ReplaceAllSuffix(s: string, pat: string, rep: string)
    requires Unbordered(pat) && EndsWith(s, pat)
    ensures EndsWith(ReplaceAll(s, pat, rep), rep)
    decreases |s|
  {
    if s[..|pat|] == pat {
      var rest := s[|pat|..];
      assert ReplaceAll(s, pat, rep) == rep + ReplaceAll(rest, pat, rep);
      if rest == [] {
        assert ReplaceAll(rest, pat, rep) == [];
        assert EndsWith(rep + [], rep);
      } else {
        NoOverlap(s, pat);
        EndsWithDrop(s, pat, |pat|);
        ReplaceAllSuffix(rest, pat, rep);
        EndsWithPrepend(rep, ReplaceAll(rest, pat, rep), rep);
      }
    } else {
      assert s != pat;
      var rest := s[1..];
      assert ReplaceAll(s, pat, rep) == [s[0]] + ReplaceAll(rest, pat, rep);
      EndsWithDrop(s, pat, 1);
      ReplaceAllSuffix(rest, pat, rep);
      EndsWithPrepend([s[0]], ReplaceAll(rest, pat, rep), rep);
    }
  }

  /** Every `.json`, not only the last, is replaced: `a.json.json` is
      written to `a_conv.json_conv.json`. */
  lemma OutputNameEveryOccurrence()
    ensures OutputName("a" + ".json" + ".json") == "a" + "_conv.json" + "_conv.json"
  {
    var pat, rep := ".json", "_conv.json";
    var s := "a" + pat + pat;
    assert s[1] != '_';
    assert !EndsWith(s, rep);
    assert s[0] != '.';
    assert s[..1] == "a" && s[1..6] == pat && s[6..] == pat;
    ReplaceAllFirst(s, pat, rep, 1);
    ReplaceAllHit(pat, pat, rep);
    assert pat[5..] == [];
  }

  /** For `.json` files, naming the output of an output gives it back. */
  lemma OutputNameIdempotent(filename: string)
    requires EndsWith(filename, ".json")
    ensures OutputName(OutputName(filename)) == OutputName(filename)
  {
  }

  // ---------------------------------------------------------------------------
  // Saving
  // ---------------------------------------------------------------------------

  /** `save_json` sets `date_conversion` to the saving time `now`. */
  function StampConversion(d: Document, now: string): (r: Document)
    ensures Keys(r) == Keys(d) + {"date_conversion"}
    ensures r.buckets == d.buckets && r.metadata == d.metadata
    ensures r.dateConversion == Some(now)
  {
    d.(dateConversion := Some(now))
  }

  /** A converted file: its name and the document written under it. */
  datatype SavedFile = SavedFile(name: string, doc: Document)

  /** One pass of the directory loop on one file: convert, name, stamp. */
  function ConvertFile(filename: string, d: Document, now: string): (r: Result<SavedFile, ConversionError>)
    ensures r.Ok? <==> ConvertSectorsAndDebt(d).Ok?
    ensures r.Ok? ==> r.value.name == OutputName(filename) &&
                      r.value.doc == StampConversion(ConvertSectorsAndDebt(d).value, now)
    ensures r.Ok? && EndsWith(filename, ".json") ==> EndsWith(r.value.name, "_conv.json")
    ensures r.Ok? ==> Keys(r.value.doc) == Keys(d) + {"date_conversion"}
  {
    match ConvertSectorsAndDebt(d)
    case Err(e) => Err(e)
    case Ok(converted) =>
      Ok(SavedFile(OutputName(filename), StampConversion(converted, now)))
  }
}
