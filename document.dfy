/**
 * The indicator document that flows between the stages: eight buckets of
 * observation records, a metadata block, and the conversion timestamp the
 * converter adds.
 */
module IndicatorDocument {
  import opened Wrappers

  /** One observation record: the JSON keys `annee`, `valeur` (None is JSON
      null), `unite`, `pays`, `indicateur`, and `valeur_monetary`, which only
      rows produced by the converter carry. */
  datatype Observation = Observation(
    annee: int,
    valeur: Option<real>,
    unite: string,
    pays: string,
    indicateur: string,
    valeurMonetary: Option<real>)

  /** The `metadata` block: `source`, `date_collecte`, `description`. */
  datatype Metadata = Metadata(source: string, dateCollecte: string, description: string)

  /** The eight bucket lists of a document. */
  datatype Bucket =
    | PibTotal | TauxCroissance | Inflation | TauxChomage
    | PibSecteur | CommerceExterieur | SecteurBancaire | DettePublique

  /** The JSON key under which a bucket is stored. */
  function Key(b: Bucket): string
  {
    match b
    case PibTotal => "pib_total"
    case TauxCroissance => "taux_croissance"
    case Inflation => "inflation"
    case TauxChomage => "taux_chomage"
    case PibSecteur => "pib_secteur"
    case CommerceExterieur => "commerce_exterieur"
    case SecteurBancaire => "secteur_bancaire"
    case DettePublique => "dette_publique"
  }

  const AllBuckets: set<Bucket> :=
    {PibTotal, TauxCroissance, Inflation, TauxChomage,
     PibSecteur, CommerceExterieur, SecteurBancaire, DettePublique}

  /** A whole document: the bucket lists present, `metadata`, and the optional
      top-level `date_conversion` string. */
  datatype Document = Document(
    buckets: map<Bucket, seq<Observation>>,
    metadata: Metadata,
    dateConversion: Option<string>)

  /** The top-level keys of the JSON object a document serialises to. */
  function Keys(d: Document): set<string>
  {
    (set b | b in d.buckets :: Key(b)) + {"metadata"} +
    (if d.dateConversion.Some? then {"date_conversion"} else {})
  }

  /** Position of the first row whose `annee` equals `annee`, if there is one. */
  function FirstYearIndex(rows: seq<Observation>, annee: int): (r: Option<nat>)
    ensures r.Some? ==> r.value < |rows| && rows[r.value].annee == annee
    ensures r.Some? ==> forall j :: 0 <= j < r.value ==> rows[j].annee != annee
    ensures r.None? ==> forall j :: 0 <= j < |rows| ==> rows[j].annee != annee
  {
    if rows == [] then None
    else if rows[0].annee == annee then Some(0)
    else match FirstYearIndex(rows[1..], annee)
      case None => None
      case Some(k) => Some(k + 1)
  }
}
