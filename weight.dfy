/** Domain types of the weight ledger: source kinds, provenance tags, the 14 measurement
    fields, raw per-source records and canonical measurements. */
module Weight {
  import opened Wrappers

  /** An instant, in whole seconds since the Unix epoch. */
  type Timestamp = int

  /** The two kinds of source a raw record can come from. */
  datatype SourceType = Csv | Fit

  /** The string value of a source kind ("csv" / "fit"). */
  function SourceTypeValue(s: SourceType): (v: string)
    ensures |v| == 3
  {
    match s
    case Csv => "csv"
    case Fit => "fit"
  }

  /** How the value of one canonical field was obtained. */
  datatype FieldSource = FromCsv | FromFit | Merged | Conflict

  /** The 14 optional numeric measurement fields. */
  datatype Field =
    | WeightKg | BodyFatPct | FatMassKg | FatFreePct | FatFreeMassKg
    | SkeletalMusclePct | SkeletalMuscleMassKg | MusclePct | MuscleMassKg
    | BoneMassKg | BodyWater | BmrKcal | MetabolicAge | VisceralFatRating

  /** The attribute name of a field, as used for dictionary keys and preferences. */
  function FieldName(f: Field): string
  {
    match f
    case WeightKg => "weight_kg"
    case BodyFatPct => "body_fat_pct"
    case FatMassKg => "fat_mass_kg"
    case FatFreePct => "fat_free_pct"
    case FatFreeMassKg => "fat_free_mass_kg"
    case SkeletalMusclePct => "skeletal_muscle_pct"
    case SkeletalMuscleMassKg => "skeletal_muscle_mass_kg"
    case MusclePct => "muscle_pct"
    case MuscleMassKg => "muscle_mass_kg"
    case BoneMassKg => "bone_mass_kg"
    case BodyWater => "body_water"
    case BmrKcal => "bmr_kcal"
    case MetabolicAge => "metabolic_age"
    case VisceralFatRating => "visceral_fat_rating"
  }

  /** The field table, in the order the consolidator merges the fields. */
  const AllFields: seq<Field> :=
    [ WeightKg, BodyFatPct, FatMassKg, FatFreePct, FatFreeMassKg,
      SkeletalMusclePct, SkeletalMuscleMassKg, MusclePct, MuscleMassKg,
      BoneMassKg, BodyWater, BmrKcal, MetabolicAge, VisceralFatRating ]

  /** Every field is in the table. */
  lemma FieldListed(f: Field)
    ensures f in AllFields
  {
    match f
    case WeightKg => assert AllFields[0] == f;
    case BodyFatPct => assert AllFields[1] == f;
    case FatMassKg => assert AllFields[2] == f;
    case FatFreePct => assert AllFields[3] == f;
    case FatFreeMassKg => assert AllFields[4] == f;
    case SkeletalMusclePct => assert AllFields[5] == f;
    case SkeletalMuscleMassKg => assert AllFields[6] == f;
    case MusclePct => assert AllFields[7] == f;
    case MuscleMassKg => assert AllFields[8] == f;
    case BoneMassKg => assert AllFields[9] == f;
    case BodyWater => assert AllFields[10] == f;
    case BmrKcal => assert AllFields[11] == f;
    case MetabolicAge => assert AllFields[12] == f;
    case VisceralFatRating => assert AllFields[13] == f;
  }

  /** The table lists every field exactly once. */
  lemma AllFieldsTable()
    ensures |AllFields| == 14
    ensures forall f: Field :: f in AllFields
    ensures forall i, j :: 0 <= i < j < |AllFields| ==> AllFields[i] != AllFields[j]
  {
    forall f: Field ensures f in AllFields {
      FieldListed(f);
    }
  }

  /** Distinct fields have distinct names, so name-keyed tables and field-keyed tables agree. */
  lemma FieldNameInjective(f: Field, g: Field)
    requires FieldName(f) == FieldName(g)
    ensures f == g
  {
  }

  /** One measurement as produced by a single source file. A field missing from `values`
      is a field the source did not report. */
  datatype RawWeightRecord = RawWeightRecord(
    timestamp: Timestamp,
    values: map<Field, real>,
    sourceFileName: string,
    sourceFileId: string,
    sourceType: SourceType)
  {
    /** The value of a field, or None when the source did not report it. */
    function Get(f: Field): Option<real>
    {
      if f in values then Some(values[f]) else None
    }
  }

  /** A canonical measurement with lineage and audit fields. `values` holds the merged
      field values (a missing key is a None field). */
  datatype WeightMeasurement = WeightMeasurement(
    recordId: string,
    timestamp: Timestamp,
    values: map<Field, real>,
    sourceFiles: seq<string>,
    sourceTypes: set<SourceType>,
    driveFileIds: seq<string>,
    fieldSources: map<Field, FieldSource>,
    conflictingFields: seq<Field>,
    chosenSource: Option<SourceType>,
    weightKgCsv: Option<real>,
    weightKgFit: Option<real>,
    bodyFatPctCsv: Option<real>,
    bodyFatPctFit: Option<real>)
}
