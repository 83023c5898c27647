/**
 * The collector: one World Bank request per catalogue indicator, each
 * response shaped into observation records, and each indicator's records
 * routed into one of the eight buckets of the output document.
 *
 * The HTTP call is an oracle `fetch` from indicator code to what the request
 * yielded; everything after it is modelled exactly.
 */
module Collector {
  import opened Wrappers
  import opened IndicatorDocument

  // ---------------------------------------------------------------------------
  // Shaping one response
  // ---------------------------------------------------------------------------

  /** The `value` of one API entry as `float()` sees it: JSON null, a value
      `float()` accepts, or one it rejects (or a missing key). */
  datatype RawValue = Null | Number(x: real) | Malformed

  /** One entry of the API's data array; `date` is None when `int()` rejects
      it (or the key is missing). */
  datatype RawEntry = RawEntry(date: Option<int>, value: RawValue)

  /** What one request yields: `Failed` for a connection error, an error
      status, or a body that is not a JSON list; otherwise the body's top-level
      list, whose element 1 is the data array (None when it is JSON null).
      Element 0, the paging metadata, is never read: only the list's length
      and element 1 matter, so every element is given the data-array type. */
  datatype FetchResult = Failed | Received(body: seq<Option<seq<RawEntry>>>)

  const Country: string := "Maroc"

  /** An entry the comprehension gets through: a null value is filtered out
      before its date is read; any other entry needs a readable date and value. */
  predicate Parses(e: RawEntry)
  {
    e.value.Null? || (e.date.Some? && e.value.Number?)
  }

  predicate AllParse(entries: seq<RawEntry>)
  {
    forall i :: 0 <= i < |entries| ==> Parses(entries[i])
  }

  /** The record built for one non-null entry. */
  function Shape(e: RawEntry, name: string, unit: string): Observation
    requires e.date.Some? && e.value.Number?
  {
    Observation(e.date.value, Some(e.value.x), unit, Country, name, None)
  }

  /** The comprehension over a data array whose entries all parse: one record
      per non-null entry, in order. */
  function Keep(entries: seq<RawEntry>, name: string, unit: string): (r: seq<Observation>)
    requires AllParse(entries)
    ensures |r| <= |entries|
    ensures forall k :: 0 <= k < |r| ==>
      r[k].valeur.Some? && r[k].unite == unit && r[k].pays == Country &&
      r[k].indicateur == name && r[k].valeurMonetary.None?
  {
    if entries == [] then []
    else
      var rest := Keep(entries[1..], name, unit);
      if entries[0].value.Null? then rest else [Shape(entries[0], name, unit)] + rest
  }

  /** Records for one indicator: any failure of the request, of reading
      element 1, or of parsing a non-null entry gives the empty list. */
  function GetWorldBankData(response: FetchResult, name: string, unit: string): (r: seq<Observation>)
    ensures forall k :: 0 <= k < |r| ==>
      r[k].valeur.Some? && r[k].unite == unit && r[k].pays == Country && r[k].indicateur == name
    ensures r != [] ==>
      response.Received? && |response.body| >= 2 && response.body[1].Some? &&
      AllParse(response.body[1].value)
  {
    match response
    case Failed => []
    case Received(body) =>
      if |body| < 2 || body[1].None? then []
      else if AllParse(body[1].value) then Keep(body[1].value, name, unit)
      else []
  }

  /** Keeping commutes with concatenation: records come out in input order. */
  lemma {:induction false} KeepAppend(a: seq<RawEntry>, b: seq<RawEntry>, name: string, unit: string)
    requires AllParse(a) && AllParse(b)
    ensures AllParse(a + b)
    ensures Keep(a + b, name, unit) == Keep(a, name, unit) + Keep(b, name, unit)
  {
    if a == [] {
      assert a + b == b;
    } else {
      assert (a + b)[1..] == a[1..] + b;
      KeepAppend(a[1..], b, name, unit);
    }
  }

  /** Every entry with a non-null value is kept. */
  lemma {:induction false} KeepComplete(entries: seq<RawEntry>, name: string, unit: string, i: nat)
    requires AllParse(entries)
    requires i < |entries| && entries[i].value.Number?
    ensures Shape(entries[i], name, unit) in Keep(entries, name, unit)
  {
    if i > 0 {
      KeepComplete(entries[1..], name, unit, i - 1);
    }
  }

  /** Only entries with a non-null value are kept. */
  lemma {:induction false} KeepSound(entries: seq<RawEntry>, name: string, unit: string, o: Observation)
    requires AllParse(entries)
    requires o in Keep(entries, name, unit)
    ensures exists i :: 0 <= i < |entries| && entries[i].value.Number? && o == Shape(entries[i], name, unit)
  {
    if entries[0].value.Number? && o == Shape(entries[0], name, unit) {
    } else {
      KeepSound(entries[1..], name, unit, o);
      var i :| 0 <= i < |entries[1..]| && entries[1..][i].value.Number? && o == Shape(entries[1..][i], name, unit);
      assert entries[i + 1] == entries[1..][i];
    }
  }

  /** A well-formed response yields exactly the non-null entries, shaped;
      a single unparsable non-null entry empties the whole indicator. */
  lemma WorldBankDataOutcome(body: seq<Option<seq<RawEntry>>>, name: string, unit: string)
    requires |body| >= 2 && body[1].Some?
    ensures AllParse(body[1].value) ==>
      (forall i :: 0 <= i < |body[1].value| && body[1].value[i].value.Number? ==>
         Shape(body[1].value[i], name, unit) in GetWorldBankData(Received(body), name, unit))
    ensures AllParse(body[1].value) ==>
      (forall o :: o in GetWorldBankData(Received(body), name, unit) ==>
         exists i :: 0 <= i < |body[1].value| && body[1].value[i].value.Number? &&
                     o == Shape(body[1].value[i], name, unit))
    ensures !AllParse(body[1].value) ==> GetWorldBankData(Received(body), name, unit) == []
  {
    var es := body[1].value;
    if AllParse(es) {
      forall i | 0 <= i < |es| && es[i].value.Number?
        ensures Shape(es[i], name, unit) in GetWorldBankData(Received(body), name, unit)
      {
        KeepComplete(es, name, unit, i);
      }
      forall o | o in GetWorldBankData(Received(body), name, unit)
        ensures exists i :: 0 <= i < |es| && es[i].value.Number? && o == Shape(es[i], name, unit)
      {
        KeepSound(es, name, unit, o);
      }
    }
  }

  // ---------------------------------------------------------------------------
  // The catalogue
  // ---------------------------------------------------------------------------

  /** One catalogue entry: World Bank code, display name, unit. */
  datatype Indicator = Indicator(code: string, name: string, unit: string)

  const GdpTotal: Indicator := Indicator("NY.GDP.MKTP.CD", "PIB total", "USD")
  const GrowthRate: Indicator := Indicator("NY.GDP.MKTP.KD.ZG", "Taux de croissance", "%")
  const ConsumerInflation: Indicator := Indicator("FP.CPI.TOTL.ZG", "Inflation", "%")
  const Unemployment: Indicator := Indicator("SL.UEM.TOTL.ZS", "Taux de chômage", "%")

  const SectorShares: seq<Indicator> := [
    Indicator("NV.AGR.TOTL.ZS", "Agriculture", "% du PIB"),
    Indicator("NV.IND.TOTL.ZS", "Industrie", "% du PIB"),
    Indicator("NV.SRV.TOTL.ZS", "Services", "% du PIB")]

  const TradeIndicators: seq<Indicator> := [
    Indicator("NE.EXP.GNFS.CD", "Exportations", "USD"),
    Indicator("NE.IMP.GNFS.CD", "Importations", "USD"),
    Indicator("NE.RSB.GNFS.CD", "Balance commerciale", "USD"),
    Indicator("NE.TRD.GNFS.ZS", "Commerce extérieur", "% du PIB")]

  const BankingIndicators: seq<Indicator> := [
    Indicator("FR.INR.DPST", "Taux d'intérêt sur les dépôts", "%"),
    Indicator("FR.INR.LEND", "Taux d'intérêt sur les prêts", "%"),
    Indicator("FB.BNK.CAPA.ZS", "Capital bancaire", "% des actifs"),
    Indicator("FB.CBK.BRCH.P5", "Succursales bancaires", "pour 100 000 adultes"),
    Indicator("FB.ATM.TOTL.P5", "Distributeurs automatiques", "pour 100 000 adultes"),
    Indicator("FS.AST.DOMS.GD.ZS", "Crédit domestique", "% du PIB")]

  const DebtIndicators: seq<Indicator> := [
    Indicator("GC.DOD.TOTL.GD.ZS", "Dette publique totale", "% du PIB"),
    Indicator("GC.DOD.TOTL.CN", "Dette publique totale", "Devise locale"),
    Indicator("GC.DOD.TOTL.CD", "Dette publique totale", "USD"),
    Indicator("GC.DOD.TOTL.DT.DS", "Service de la dette", "USD")]

  /** The twenty-one indicators in the order the collector walks them. */
  const Catalogue: seq<Indicator> :=
    [GdpTotal, GrowthRate, ConsumerInflation, Unemployment] + SectorShares + TradeIndicators +
    BankingIndicators + DebtIndicators

  // ---------------------------------------------------------------------------
  // Routing
  // ---------------------------------------------------------------------------

  /** Where an indicator's records go: a bucket that is overwritten, or one
      that is extended. */
  datatype Route = Assign(bucket: Bucket) | Extend(bucket: Bucket)

  /** The buckets the collector overwrites rather than extends. */
  predicate IsAssigned(b: Bucket)
  {
    b.PibTotal? || b.TauxCroissance? || b.Inflation? || b.TauxChomage?
  }

  const TradeNames: seq<string> :=
    ["Exportations", "Importations", "Balance commerciale", "Commerce extérieur"]
  const BankingNames: seq<string> :=
    ["Taux d'intérêt sur les dépôts", "Taux d'intérêt sur les prêts", "Capital bancaire",
     "Succursales bancaires", "Distributeurs automatiques", "Crédit domestique"]
  const DebtNames: seq<string> := ["Dette publique totale", "Service de la dette"]

  /** The display-name dispatch: four names are assigned to their own bucket,
      three name lists extend theirs, and every other name extends
      `pib_secteur`. */
  function RouteOf(name: string): (r: Route)
    ensures r.Assign? <==> IsAssigned(r.bucket)
  {
    if name == "PIB total" then Assign(PibTotal)
    else if name == "Taux de croissance" then Assign(TauxCroissance)
    else if name == "Inflation" then Assign(Inflation)
    else if name == "Taux de chômage" then Assign(TauxChomage)
    else if name in TradeNames then Extend(CommerceExterieur)
    else if name in BankingNames then Extend(SecteurBancaire)
    else if name in DebtNames then Extend(DettePublique)
    else Extend(PibSecteur)
  }

  /** The records each indicator contributes, as a function of the
      indicator. */
  function Fetcher(fetch: string -> FetchResult): Indicator -> seq<Observation>
  {
    (ind: Indicator) => GetWorldBankData(fetch(ind.code), ind.name, ind.unit)
  }

  /** The records of every indicator of `cat`, concatenated in order. */
  function Flat(get: Indicator -> seq<Observation>, cat: seq<Indicator>): seq<Observation>
  {
    if cat == [] then [] else Flat(get, cat[..|cat| - 1]) + get(cat[|cat| - 1])
  }

  /** The number of records the indicators of `cat` contribute together. */
  function CountAll(get: Indicator -> seq<Observation>, cat: seq<Indicator>): nat
  {
    if cat == [] then 0 else CountAll(get, cat[..|cat| - 1]) + |get(cat[|cat| - 1])|
  }

  /** What an extended bucket holds after walking `cat`: the records of every
      indicator routed to it, in catalogue order. */
  function Gathered(get: Indicator -> seq<Observation>, route: string -> Route, cat: seq<Indicator>, b: Bucket): seq<Observation>
  {
    if cat == [] then []
    else
      var last := cat[|cat| - 1];
      Gathered(get, route, cat[..|cat| - 1], b) +
      (if route(last.name) == Extend(b) then get(last) else [])
  }

  /** What an assigned bucket holds after walking `cat`: the records of the
      last indicator routed to it, or nothing. */
  function Latest(get: Indicator -> seq<Observation>, route: string -> Route, cat: seq<Indicator>, b: Bucket): seq<Observation>
  {
    if cat == [] then []
    else
      var last := cat[|cat| - 1];
      if route(last.name) == Assign(b) then get(last)
      else Latest(get, route, cat[..|cat| - 1], b)
  }

  /** The content of bucket `b` after walking `cat`. */
  function Expected(get: Indicator -> seq<Observation>, route: string -> Route, cat: seq<Indicator>, b: Bucket): seq<Observation>
  {
    if IsAssigned(b) then Latest(get, route, cat, b) else Gathered(get, route, cat, b)
  }

  /** Total number of records across the eight buckets. */
  function TotalCount(buckets: map<Bucket, seq<Observation>>): nat
    requires AllBuckets <= buckets.Keys
  {
    |buckets[PibTotal]| + |buckets[TauxCroissance]| + |buckets[Inflation]| +
    |buckets[TauxChomage]| + |buckets[PibSecteur]| + |buckets[CommerceExterieur]| +
    |buckets[SecteurBancaire]| + |buckets[DettePublique]|
  }

  const Source: string := "Banque Mondiale"
  const Description: string := "Données économiques du Maroc collectées depuis la Banque Mondiale"

  /** The collection loop: starting from eight empty buckets, each indicator
      of `catalogue` is fetched in turn and its records either replace the
      content of an assigned bucket or are appended to an extended one. */
  method Dispatch(fetch: string -> FetchResult, catalogue: seq<Indicator>) returns (res: map<Bucket, seq<Observation>>)
    ensures res == Snapshot(Fetcher(fetch), RouteOf, catalogue)
  {
    res := NoBuckets;
    SnapshotStart(Fetcher(fetch), RouteOf);
    var i := 0;
    while i < |catalogue|
      invariant 0 <= i <= |catalogue|
      invariant res == Snapshot(Fetcher(fetch), RouteOf, catalogue[..i])
    {
      var info := catalogue[i];
      var data := GetWorldBankData(fetch(info.code), info.name, info.unit);
      assert catalogue[..i + 1] == catalogue[..i] + [info];
      match RouteOf(info.name) {
        case Assign(b) =>
          SnapshotAssign(Fetcher(fetch), RouteOf, catalogue[..i], info, b);
          res := res[b := data];
        case Extend(b) =>
          SnapshotExtend(Fetcher(fetch), RouteOf, catalogue[..i], info, b);
          res := res[b := res[b] + data];
      }
      i := i + 1;
    }
    assert catalogue[..i] == catalogue;
  }

  /** What a collection run at time `now` builds: the eight buckets and no
      conversion stamp; metadata from "Banque Mondiale" stamped `now`; each
      1:1 bucket holds its own indicator's records; each extended bucket its
      group's records in catalogue order; and no record lost or duplicated. */
  predicate Collected(fetch: string -> FetchResult, now: string, d: Document)
  {
    d.buckets.Keys == AllBuckets && d.dateConversion.None? &&
    d.metadata == Metadata(Source, now, Description) &&
    d.buckets[PibTotal] == Fetcher(fetch)(GdpTotal) &&
    d.buckets[TauxCroissance] == Fetcher(fetch)(GrowthRate) &&
    d.buckets[Inflation] == Fetcher(fetch)(ConsumerInflation) &&
    d.buckets[TauxChomage] == Fetcher(fetch)(Unemployment) &&
    d.buckets[PibSecteur] == Flat(Fetcher(fetch), SectorShares) &&
    d.buckets[CommerceExterieur] == Flat(Fetcher(fetch), TradeIndicators) &&
    d.buckets[SecteurBancaire] == Flat(Fetcher(fetch), BankingIndicators) &&
    d.buckets[DettePublique] == Flat(Fetcher(fetch), DebtIndicators) &&
    TotalCount(d.buckets) == CountAll(Fetcher(fetch), Catalogue)
  }

  /** The collection run. `now` stands for the formatted collection time.
      The result is never None: every failure inside the loop is absorbed per
      indicator, so the top-level handler has nothing to catch. */
  method GetIndicateurs(fetch: string -> FetchResult, now: string) returns (r: Option<Document>)
    ensures r.Some?
    ensures Collected(fetch, now, r.value)
  {
    var res := Dispatch(fetch, Catalogue);
    CatalogueCollected(fetch, now);
    r := Some(Document(res, Metadata(Source, now, Description), None));
  }

  /** The document built from the buckets of the whole catalogue is the
      collected one. */
  lemma CatalogueCollected(fetch: string -> FetchResult, now: string)
    ensures Collected(fetch, now, Document(Snapshot(Fetcher(fetch), RouteOf, Catalogue), Metadata(Source, now, Description), None))
  {
    CatalogueTracked(Fetcher(fetch));
  }

  /** The `__main__` guard: a document that is present and non-empty is
      saved; otherwise the run reports that nothing was collected. */
  datatype MainAction = SaveDocument(doc: Document) | ReportNothingCollected

  function MainOutcome(collected: Option<Document>): (a: MainAction)
    ensures a.SaveDocument? <==> collected.Some?
    ensures a.SaveDocument? ==> a.doc == collected.value
  {
    if collected.Some? && Keys(collected.value) != {} then SaveDocument(collected.value)
    else ReportNothingCollected
  }

  /** The script's entry point: collect, then save what was collected. Every
      run reaches the save step with the document the collection built. */
  method CollectAndSave(fetch: string -> FetchResult, now: string) returns (a: MainAction)
    ensures a.SaveDocument?
    ensures Collected(fetch, now, a.doc)
  {
    var collected := GetIndicateurs(fetch, now);
    a := MainOutcome(collected);
  }

  // ---------------------------------------------------------------------------
  // Lemmas about routing
  // ---------------------------------------------------------------------------

  /** The buckets the walk over `cat` leaves: each bucket holds what
      `Expected` says of it. */
  function Snapshot(get: Indicator -> seq<Observation>, route: string -> Route, cat: seq<Indicator>): map<Bucket, seq<Observation>>
  {
    map b | b in AllBuckets :: Expected(get, route, cat, b)
  }

  /** The eight buckets, all empty, as the collection starts. */
  const NoBuckets: map<Bucket, seq<Observation>> := map[
    PibTotal := [], TauxCroissance := [], Inflation := [], TauxChomage := [],
    PibSecteur := [], CommerceExterieur := [], SecteurBancaire := [], DettePublique := []]

  /** Before any indicator is walked, the buckets are all empty. */
  lemma SnapshotStart(get: Indicator -> seq<Observation>, route: string -> Route)
    ensures Snapshot(get, route, []) == NoBuckets
  {
  }

  /** An indicator routed to an assigned bucket replaces that bucket's
      content and leaves every other bucket as it was. */
  lemma SnapshotAssign(get: Indicator -> seq<Observation>, route: string -> Route, cat: seq<Indicator>, x: Indicator, a: Bucket)
    requires route(x.name) == Assign(a) && IsAssigned(a)
    ensures Snapshot(get, route, cat + [x]) == Snapshot(get, route, cat)[a := get(x)]
  {
    forall b | b in AllBuckets
      ensures Snapshot(get, route, cat + [x])[b] == Snapshot(get, route, cat)[a := get(x)][b]
    {
      ExpectedStep(get, route, cat, x, b);
    }
  }

  /** An indicator routed to an extended bucket appends its records to that
      bucket and leaves every other bucket as it was. */
  lemma SnapshotExtend(get: Indicator -> seq<Observation>, route: string -> Route, cat: seq<Indicator>, x: Indicator, e: Bucket)
    requires route(x.name) == Extend(e) && !IsAssigned(e)
    ensures Snapshot(get, route, cat + [x]) ==
      Snapshot(get, route, cat)[e := Snapshot(get, route, cat)[e] + get(x)]
  {
    forall b | b in AllBuckets
      ensures Snapshot(get, route, cat + [x])[b] ==
        Snapshot(get, route, cat)[e := Snapshot(get, route, cat)[e] + get(x)][b]
    {
      ExpectedStep(get, route, cat, x, b);
    }
  }

  /** After the walk over the whole catalogue every bucket holds its group's
      records and the total count is the catalogue's. */
  lemma CatalogueTracked(get: Indicator -> seq<Observation>)
    ensures Snapshot(get, RouteOf, Catalogue)[PibTotal] == get(GdpTotal)
    ensures Snapshot(get, RouteOf, Catalogue)[TauxCroissance] == get(GrowthRate)
    ensures Snapshot(get, RouteOf, Catalogue)[Inflation] == get(ConsumerInflation)
    ensures Snapshot(get, RouteOf, Catalogue)[TauxChomage] == get(Unemployment)
    ensures Snapshot(get, RouteOf, Catalogue)[PibSecteur] == Flat(get, SectorShares)
    ensures Snapshot(get, RouteOf, Catalogue)[CommerceExterieur] == Flat(get, TradeIndicators)
    ensures Snapshot(get, RouteOf, Catalogue)[SecteurBancaire] == Flat(get, BankingIndicators)
    ensures Snapshot(get, RouteOf, Catalogue)[DettePublique] == Flat(get, DebtIndicators)
    ensures TotalCount(Snapshot(get, RouteOf, Catalogue)) == CountAll(get, Catalogue)
  {
    CatalogueAssigned(get);
    CatalogueSectorTrade(get);
    CatalogueBankingDebt(get);
    LayoutCount(get, GdpTotal, GrowthRate, ConsumerInflation, Unemployment,
                SectorShares, TradeIndicators, BankingIndicators, DebtIndicators);
  }

  /** One step of the walk: the indicator's route decides whether bucket `b`
      is overwritten, extended or left alone. */
  lemma ExpectedStep(get: Indicator -> seq<Observation>, route: string -> Route, cat: seq<Indicator>, x: Indicator, b: Bucket)
    requires route(x.name).Assign? <==> IsAssigned(route(x.name).bucket)
    ensures Expected(get, route, cat + [x], b) ==
      if route(x.name) == Assign(b) then get(x)
      else if route(x.name) == Extend(b) then Expected(get, route, cat, b) + get(x)
      else Expected(get, route, cat, b)
  {
    assert (cat + [x])[..|cat + [x]| - 1] == cat;
    assert (cat + [x])[|cat + [x]| - 1] == x;
  }

  lemma {:induction false} GatheredAppend(get: Indicator -> seq<Observation>, route: string -> Route, a: seq<Indicator>, c: seq<Indicator>, b: Bucket)
    ensures Gathered(get, route, a + c, b) == Gathered(get, route, a, b) + Gathered(get, route, c, b)
    decreases |c|
  {
    if c == [] {
      assert a + c == a;
    } else {
      var c' := c[..|c| - 1];
      assert (a + c)[..|a + c| - 1] == a + c';
      GatheredAppend(get, route, a, c', b);
    }
  }

  /** Counts add up over a split of the catalogue. */
  lemma {:induction false} CountAppend(get: Indicator -> seq<Observation>, a: seq<Indicator>, c: seq<Indicator>)
    ensures CountAll(get, a + c) == CountAll(get, a) + CountAll(get, c)
    decreases |c|
  {
    if c == [] {
      assert a + c == a;
    } else {
      var c' := c[..|c| - 1];
      assert (a + c)[..|a + c| - 1] == a + c';
      CountAppend(get, a, c');
    }
  }

  /** The length of the concatenation is the sum of the counts. */
  lemma {:induction false} FlatCount(get: Indicator -> seq<Observation>, cat: seq<Indicator>)
    ensures |Flat(get, cat)| == CountAll(get, cat)
  {
    if cat != [] {
      FlatCount(get, cat[..|cat| - 1]);
    }
  }

  /** A segment whose every indicator is routed to `b` adds all its records. */
  lemma {:induction false} GatheredAll(get: Indicator -> seq<Observation>, route: string -> Route, cat: seq<Indicator>, b: Bucket)
    requires forall x :: x in cat ==> route(x.name) == Extend(b)
    ensures Gathered(get, route, cat, b) == Flat(get, cat)
  {
    if cat != [] {
      GatheredAll(get, route, cat[..|cat| - 1], b);
    }
  }

  /** A segment with no indicator routed to extend `b` adds nothing to it. */
  lemma {:induction false} GatheredNone(get: Indicator -> seq<Observation>, route: string -> Route, cat: seq<Indicator>, b: Bucket)
    requires forall x :: x in cat ==> route(x.name) != Extend(b)
    ensures Gathered(get, route, cat, b) == []
  {
    if cat != [] {
      GatheredNone(get, route, cat[..|cat| - 1], b);
    }
  }

  /** Indicators not assigned to `b` leave an assigned bucket as it was. */
  lemma {:induction false} LatestSkip(get: Indicator -> seq<Observation>, route: string -> Route, a: seq<Indicator>, c: seq<Indicator>, b: Bucket)
    requires forall x :: x in c ==> route(x.name) != Assign(b)
    ensures Latest(get, route, a + c, b) == Latest(get, route, a, b)
    decreases |c|
  {
    if c == [] {
      assert a + c == a;
    } else {
      var c' := c[..|c| - 1];
      assert (a + c)[..|a + c| - 1] == a + c';
      assert (a + c)[|a + c| - 1] == c[|c| - 1];
      LatestSkip(get, route, a, c', b);
    }
  }

  /** A single indicator contributes its own records to the count. */
  lemma CountOne(get: Indicator -> seq<Observation>, x: Indicator)
    ensures CountAll(get, [x]) == |get(x)|
  {
    assert [x][..0] == [];
  }

  /** How each group of the catalogue is routed. */
  lemma CoreRoutes()
    ensures RouteOf(GdpTotal.name) == Assign(PibTotal)
    ensures RouteOf(GrowthRate.name) == Assign(TauxCroissance)
    ensures RouteOf(ConsumerInflation.name) == Assign(Inflation)
    ensures RouteOf(Unemployment.name) == Assign(TauxChomage)
  {
  }

  lemma SectorSharesRoute()
    ensures forall x :: x in SectorShares ==> RouteOf(x.name) == Extend(PibSecteur)
  {
    forall j | 0 <= j < |SectorShares|
      ensures RouteOf(SectorShares[j].name) == Extend(PibSecteur)
    {
      assert SectorShares[j].name !in TradeNames;
      assert SectorShares[j].name !in BankingNames;
      assert SectorShares[j].name !in DebtNames;
    }
  }

  lemma TradeRoute()
    ensures forall x :: x in TradeIndicators ==> RouteOf(x.name) == Extend(CommerceExterieur)
  {
  }

  lemma BankingRoute()
    ensures forall x :: x in BankingIndicators ==> RouteOf(x.name) == Extend(SecteurBancaire)
  {
    forall j | 0 <= j < |BankingIndicators|
      ensures RouteOf(BankingIndicators[j].name) == Extend(SecteurBancaire)
    {
      assert BankingIndicators[j].name in BankingNames;
    }
  }

  lemma DebtRoute()
    ensures forall x :: x in DebtIndicators ==> RouteOf(x.name) == Extend(DettePublique)
  {
    forall j | 0 <= j < |DebtIndicators|
      ensures RouteOf(DebtIndicators[j].name) == Extend(DettePublique)
    {
      assert DebtIndicators[j].name in DebtNames;
      assert DebtIndicators[j].name !in TradeNames;
      assert DebtIndicators[j].name !in BankingNames;
    }
  }

  /** The four leading indicators each fill their own assigned bucket. */
  lemma LatestCore(get: Indicator -> seq<Observation>, route: string -> Route, p: Indicator, c: Indicator, i: Indicator, u: Indicator)
    requires route(p.name) == Assign(PibTotal)
    requires route(c.name) == Assign(TauxCroissance)
    requires route(i.name) == Assign(Inflation)
    requires route(u.name) == Assign(TauxChomage)
    ensures Latest(get, route, [p, c, i, u], PibTotal) == get(p)
    ensures Latest(get, route, [p, c, i, u], TauxCroissance) == get(c)
    ensures Latest(get, route, [p, c, i, u], Inflation) == get(i)
    ensures Latest(get, route, [p, c, i, u], TauxChomage) == get(u)
  {
    assert [p, c, i, u][..3] == [p, c, i];
    assert [p, c, i][..2] == [p, c];
    assert [p, c][..1] == [p];
    assert [p][..0] == [];
    forall b | b != TauxChomage
      ensures Latest(get, route, [p, c, i, u], b) == Latest(get, route, [p, c, i], b)
    {}
    forall b | b != Inflation
      ensures Latest(get, route, [p, c, i], b) == Latest(get, route, [p, c], b)
    {}
    forall b | b != TauxCroissance
      ensures Latest(get, route, [p, c], b) == Latest(get, route, [p], b)
    {}
  }

  /** Groups routed only to extended buckets leave every assigned bucket as
      the leading indicators set it. */
  lemma LayoutAssigned(get: Indicator -> seq<Observation>, route: string -> Route, core: seq<Indicator>,
                       s: seq<Indicator>, t: seq<Indicator>, k: seq<Indicator>, d: seq<Indicator>, b: Bucket)
    requires forall y :: y in s + t + k + d ==> route(y.name).Extend?
    ensures Latest(get, route, core + s + t + k + d, b) == Latest(get, route, core, b)
  {
    LatestSkip(get, route, core + s + t + k, d, b);
    LatestSkip(get, route, core + s + t, k, b);
    LatestSkip(get, route, core + s, t, b);
    LatestSkip(get, route, core, s, b);
  }

  /** An extended bucket collects, group by group, what each group routes to it. */
  lemma LayoutExtended(get: Indicator -> seq<Observation>, route: string -> Route, core: seq<Indicator>,
                       s: seq<Indicator>, t: seq<Indicator>, k: seq<Indicator>, d: seq<Indicator>, b: Bucket)
    ensures Gathered(get, route, core + s + t + k + d, b) ==
      Gathered(get, route, core, b) + Gathered(get, route, s, b) + Gathered(get, route, t, b) +
      Gathered(get, route, k, b) + Gathered(get, route, d, b)
  {
    GatheredAppend(get, route, core + s + t + k, d, b);
    GatheredAppend(get, route, core + s + t, k, b);
    GatheredAppend(get, route, core + s, t, b);
    GatheredAppend(get, route, core, s, b);
  }

  /** The record count of such a catalogue, group by group. */
  lemma LayoutCount(get: Indicator -> seq<Observation>, p: Indicator, c: Indicator, i: Indicator, u: Indicator,
                    s: seq<Indicator>, t: seq<Indicator>, k: seq<Indicator>, d: seq<Indicator>)
    ensures CountAll(get, [p, c, i, u] + s + t + k + d) ==
      |get(p)| + |get(c)| + |get(i)| + |get(u)| +
      |Flat(get, s)| + |Flat(get, t)| + |Flat(get, k)| + |Flat(get, d)|
  {
    var x1 := [p] + [c];
    var x2 := x1 + [i];
    var x3 := x2 + [u];
    var x4 := x3 + s;
    var x5 := x4 + t;
    var x6 := x5 + k;
    assert [p, c, i, u] + s + t + k + d == x6 + d;
    CountAppend(get, x6, d);
    CountAppend(get, x5, k);
    CountAppend(get, x4, t);
    CountAppend(get, x3, s);
    CountAppend(get, x2, [u]);
    CountAppend(get, x1, [i]);
    CountAppend(get, [p], [c]);
    CountOne(get, p);
    CountOne(get, c);
    CountOne(get, i);
    CountOne(get, u);
    FlatCount(get, s);
    FlatCount(get, t);
    FlatCount(get, k);
    FlatCount(get, d);
  }

  /** The real catalogue fills each of the four assigned buckets with the
      records of its one indicator. */
  lemma CatalogueAssigned(get: Indicator -> seq<Observation>)
    ensures Expected(get, RouteOf, Catalogue, PibTotal) == get(GdpTotal)
    ensures Expected(get, RouteOf, Catalogue, TauxCroissance) == get(GrowthRate)
    ensures Expected(get, RouteOf, Catalogue, Inflation) == get(ConsumerInflation)
    ensures Expected(get, RouteOf, Catalogue, TauxChomage) == get(Unemployment)
  {
    var core := [GdpTotal, GrowthRate, ConsumerInflation, Unemployment];
    var s, t, k, d := SectorShares, TradeIndicators, BankingIndicators, DebtIndicators;
    CoreRoutes();
    SectorSharesRoute();
    TradeRoute();
    BankingRoute();
    DebtRoute();
    LatestCore(get, RouteOf, GdpTotal, GrowthRate, ConsumerInflation, Unemployment);
    LayoutAssigned(get, RouteOf, core, s, t, k, d, PibTotal);
    LayoutAssigned(get, RouteOf, core, s, t, k, d, TauxCroissance);
    LayoutAssigned(get, RouteOf, core, s, t, k, d, Inflation);
    LayoutAssigned(get, RouteOf, core, s, t, k, d, TauxChomage);
  }

  /** The real catalogue fills the sector and trade buckets with the records
      of their groups, in catalogue order. */
  lemma CatalogueSectorTrade(get: Indicator -> seq<Observation>)
    ensures Expected(get, RouteOf, Catalogue, PibSecteur) == Flat(get, SectorShares)
    ensures Expected(get, RouteOf, Catalogue, CommerceExterieur) == Flat(get, TradeIndicators)
  {
    CatalogueRoutes();
    SectorGathered(get, RouteOf, [GdpTotal, GrowthRate, ConsumerInflation, Unemployment],
                   SectorShares, TradeIndicators, BankingIndicators, DebtIndicators);
    TradeGathered(get, RouteOf, [GdpTotal, GrowthRate, ConsumerInflation, Unemployment],
                  SectorShares, TradeIndicators, BankingIndicators, DebtIndicators);
  }

  /** The real catalogue fills the banking and debt buckets with the records
      of their groups, in catalogue order. */
  lemma CatalogueBankingDebt(get: Indicator -> seq<Observation>)
    ensures Expected(get, RouteOf, Catalogue, SecteurBancaire) == Flat(get, BankingIndicators)
    ensures Expected(get, RouteOf, Catalogue, DettePublique) == Flat(get, DebtIndicators)
  {
    CatalogueRoutes();
    BankingGathered(get, RouteOf, [GdpTotal, GrowthRate, ConsumerInflation, Unemployment],
                    SectorShares, TradeIndicators, BankingIndicators, DebtIndicators);
    DebtGathered(get, RouteOf, [GdpTotal, GrowthRate, ConsumerInflation, Unemployment],
                 SectorShares, TradeIndicators, BankingIndicators, DebtIndicators);
  }

  /** Where the dispatch sends each part of the real catalogue. */
  lemma CatalogueRoutes()
    ensures forall y :: y in [GdpTotal, GrowthRate, ConsumerInflation, Unemployment] ==> RouteOf(y.name).Assign?
    ensures forall x :: x in SectorShares ==> RouteOf(x.name) == Extend(PibSecteur)
    ensures forall x :: x in TradeIndicators ==> RouteOf(x.name) == Extend(CommerceExterieur)
    ensures forall x :: x in BankingIndicators ==> RouteOf(x.name) == Extend(SecteurBancaire)
    ensures forall x :: x in DebtIndicators ==> RouteOf(x.name) == Extend(DettePublique)
  {
    CoreRoutes();
    SectorSharesRoute();
    TradeRoute();
    BankingRoute();
    DebtRoute();
  }

  // When each group routes all of its indicators to its own extended bucket,
  // that bucket receives exactly the group's records.

  /** The sector bucket receives exactly the sector group's records. */
  lemma SectorGathered(get: Indicator -> seq<Observation>, route: string -> Route, core: seq<Indicator>,
                       s: seq<Indicator>, t: seq<Indicator>, k: seq<Indicator>, d: seq<Indicator>)
    requires forall y :: y in core ==> route(y.name).Assign?
    requires forall x :: x in s ==> route(x.name) == Extend(PibSecteur)
    requires forall x :: x in t ==> route(x.name) == Extend(CommerceExterieur)
    requires forall x :: x in k ==> route(x.name) == Extend(SecteurBancaire)
    requires forall x :: x in d ==> route(x.name) == Extend(DettePublique)
    ensures Gathered(get, route, core + s + t + k + d, PibSecteur) == Flat(get, s)
  {
    LayoutExtended(get, route, core, s, t, k, d, PibSecteur);
    GatheredNone(get, route, core, PibSecteur);
    GatheredAll(get, route, s, PibSecteur);
    GatheredNone(get, route, t, PibSecteur);
    GatheredNone(get, route, k, PibSecteur);
    GatheredNone(get, route, d, PibSecteur);
  }

  /** The trade bucket receives exactly the trade group's records. */
  lemma TradeGathered(get: Indicator -> seq<Observation>, route: string -> Route, core: seq<Indicator>,
                      s: seq<Indicator>, t: seq<Indicator>, k: seq<Indicator>, d: seq<Indicator>)
    requires forall y :: y in core ==> route(y.name).Assign?
    requires forall x :: x in s ==> route(x.name) == Extend(PibSecteur)
    requires forall x :: x in t ==> route(x.name) == Extend(CommerceExterieur)
    requires forall x :: x in k ==> route(x.name) == Extend(SecteurBancaire)
    requires forall x :: x in d ==> route(x.name) == Extend(DettePublique)
    ensures Gathered(get, route, core + s + t + k + d, CommerceExterieur) == Flat(get, t)
  {
    LayoutExtended(get, route, core, s, t, k, d, CommerceExterieur);
    GatheredNone(get, route, core, CommerceExterieur);
    GatheredNone(get, route, s, CommerceExterieur);
    GatheredAll(get, route, t, CommerceExterieur);
    GatheredNone(get, route, k, CommerceExterieur);
    GatheredNone(get, route, d, CommerceExterieur);
  }

  /** The banking bucket receives exactly the banking group's records. */
  lemma BankingGathered(get: Indicator -> seq<Observation>, route: string -> Route, core: seq<Indicator>,
                        s: seq<Indicator>, t: seq<Indicator>, k: seq<Indicator>, d: seq<Indicator>)
    requires forall y :: y in core ==> route(y.name).Assign?
    requires forall x :: x in s ==> route(x.name) == Extend(PibSecteur)
    requires forall x :: x in t ==> route(x.name) == Extend(CommerceExterieur)
    requires forall x :: x in k ==> route(x.name) == Extend(SecteurBancaire)
    requires forall x :: x in d ==> route(x.name) == Extend(DettePublique)
    ensures Gathered(get, route, core + s + t + k + d, SecteurBancaire) == Flat(get, k)
  {
    LayoutExtended(get, route, core, s, t, k, d, SecteurBancaire);
    GatheredNone(get, route, core, SecteurBancaire);
    GatheredNone(get, route, s, SecteurBancaire);
    GatheredNone(get, route, t, SecteurBancaire);
    GatheredAll(get, route, k, SecteurBancaire);
    GatheredNone(get, route, d, SecteurBancaire);
  }

  /** The debt bucket receives exactly the debt group's records. */
  lemma DebtGathered(get: Indicator -> seq<Observation>, route: string -> Route, core: seq<Indicator>,
                     s: seq<Indicator>, t: seq<Indicator>, k: seq<Indicator>, d: seq<Indicator>)
    requires forall y :: y in core ==> route(y.name).Assign?
    requires forall x :: x in s ==> route(x.name) == Extend(PibSecteur)
    requires forall x :: x in t ==> route(x.name) == Extend(CommerceExterieur)
    requires forall x :: x in k ==> route(x.name) == Extend(SecteurBancaire)
    requires forall x :: x in d ==> route(x.name) == Extend(DettePublique)
    ensures Gathered(get, route, core + s + t + k + d, DettePublique) == Flat(get, d)
  {
    LayoutExtended(get, route, core, s, t, k, d, DettePublique);
    GatheredNone(get, route, core, DettePublique);
    GatheredNone(get, route, s, DettePublique);
    GatheredNone(get, route, t, DettePublique);
    GatheredNone(get, route, k, DettePublique);
    GatheredAll(get, route, d, DettePublique);
  }
}
