/** The consolidation service: merging the CSV and FIT readings of one measurement field
    by field, and consolidating a batch of raw records into canonical measurements. */
module Consolidation {
  import opened Wrappers
  import opened Weight
  import opened Parameters
  import opened TimezoneUtils
  import opened Grouping
  import opened Hashing

  // ---------------------------------------------------------------------------------
  // One field
  // ---------------------------------------------------------------------------------

  /** What `_merge_field` returns: the merged value, how it was resolved, and whether the
      two sources disagreed beyond the numeric tolerance. */
  datatype FieldMerge = FieldMerge(value: Option<real>, source: FieldSource, conflict: bool)

  function AbsReal(x: real): (r: real)
    ensures r >= 0.0 && (r == x || r == -x)
  {
    if x < 0.0 then -x else x
  }

  /** `field_preferences.get(field_name, default_preference)`. */
  function Preference(f: Field, cr: ConflictResolutionConfig): Option<string>
  {
    if FieldName(f) in cr.fieldPreferences then Some(cr.fieldPreferences[FieldName(f)])
    else cr.defaultPreference
  }

  /** `_merge_field`: a missing side yields the other side; two values within the
      tolerance merge to the CSV value; two values further apart are a conflict resolved
      by the field's preference, where anything other than "fit" keeps the CSV value. */
  function MergeField(csvValue: Option<real>, fitValue: Option<real>, f: Field,
                      config: ProcessingConfig): (m: FieldMerge)
    ensures m.value.None? <==> csvValue.None? && fitValue.None?
  {
    if csvValue.None? && fitValue.None? then FieldMerge(None, Merged, false)
    else if csvValue.None? then FieldMerge(fitValue, FromFit, false)
    else if fitValue.None? then FieldMerge(csvValue, FromCsv, false)
    else if AbsReal(csvValue.value - fitValue.value) <= config.numericTolerance then
      FieldMerge(csvValue, Merged, false)
    else
      var preference := Preference(f, config.conflictResolution);
      if preference == Some("csv") then FieldMerge(csvValue, Conflict, true)
      else if preference == Some("fit") then FieldMerge(fitValue, Conflict, true)
      else FieldMerge(csvValue, Conflict, true)
  }

  /** The merge outcome in full: which side wins, the tag, and when a conflict arises. */
  lemma MergeFieldOutcome(csvValue: Option<real>, fitValue: Option<real>, f: Field,
                          config: ProcessingConfig)
    ensures var m := MergeField(csvValue, fitValue, f, config);
            && (m.value.None? <==> csvValue.None? && fitValue.None?)
            && (m.conflict <==> csvValue.Some? && fitValue.Some?
                                && AbsReal(csvValue.value - fitValue.value) > config.numericTolerance)
            && (m.source == Conflict <==> m.conflict)
            && (m.source == FromCsv <==> csvValue.Some? && fitValue.None?)
            && (m.source == FromFit <==> csvValue.None? && fitValue.Some?)
            && (m.source == Merged <==> csvValue.Some? == fitValue.Some? && !m.conflict)
            && (csvValue.None? ==> m.value == fitValue)
            && (!m.conflict && csvValue.Some? ==> m.value == csvValue)
            && (m.conflict ==> m.value == (if Preference(f, config.conflictResolution) == Some("fit")
                                           then fitValue else csvValue))
  {
  }

  // ---------------------------------------------------------------------------------
  // One measurement
  // ---------------------------------------------------------------------------------

  /** Why `_merge_records` raises. */
  datatype MergeError =
    | NoRecords                  // IndexError: both record lists are empty
    | MissingWeight              // ConsolidationError: no weight_kg on either side
    | RecordIdFailed(cause: IdError)

  /** `records[0] if records else None`. */
  function Representative(rs: seq<RawWeightRecord>): (rep: Option<RawWeightRecord>)
    ensures rep.Some? <==> rs != []
    ensures rep.Some? ==> rep.value == rs[0]
  {
    if rs == [] then None else Some(rs[0])
  }

  /** `data.field if data else None`. */
  function ValueOf(rep: Option<RawWeightRecord>, f: Field): Option<real>
  {
    match rep
    case None => None
    case Some(r) => r.Get(f)
  }

  /** The per-field merge between the two representatives. */
  function FieldMerger(csvRep: Option<RawWeightRecord>, fitRep: Option<RawWeightRecord>,
                       config: ProcessingConfig): Field -> FieldMerge
  {
    (f: Field) => MergeField(ValueOf(csvRep, f), ValueOf(fitRep, f), f, config)
  }

  /** The two fields whose conflicts are recorded in `conflicting_fields`. */
  predicate ReportsConflict(f: Field)
  {
    f == WeightKg || f == BodyFatPct
  }

  /** The merged values of the fields `fs` (a field merged to None has no entry). */
  function MergedValues(fs: seq<Field>, merge: Field -> FieldMerge): (vs: map<Field, real>)
    ensures forall f :: f in vs <==> f in fs && merge(f).value.Some?
    ensures forall f :: f in vs ==> Some(vs[f]) == merge(f).value
  {
    if fs == [] then map[]
    else
      var init := fs[..|fs| - 1];
      var f := fs[|fs| - 1];
      assert fs == init + [f];
      var p := MergedValues(init, merge);
      if merge(f).value.Some? then p[f := merge(f).value.value] else p
  }

  /** The resolution tag of every field in `fs`. */
  function FieldSources(fs: seq<Field>, merge: Field -> FieldMerge): (tags: map<Field, FieldSource>)
    ensures forall f :: f in tags <==> f in fs
    ensures forall f :: f in tags ==> tags[f] == merge(f).source
  {
    if fs == [] then map[]
    else
      var init := fs[..|fs| - 1];
      var f := fs[|fs| - 1];
      assert fs == init + [f];
      FieldSources(init, merge)[f := merge(f).source]
  }

  /** The reported conflicts among the fields `fs`, in the order of `fs`. */
  function ConflictsAmong(fs: seq<Field>, merge: Field -> FieldMerge): seq<Field>
  {
    if fs == [] then []
    else
      var init := fs[..|fs| - 1];
      var f := fs[|fs| - 1];
      assert fs == init + [f];
      ConflictsAmong(init, merge) + (if ReportsConflict(f) && merge(f).conflict then [f] else [])
  }

  function FileNameOf(r: RawWeightRecord): string { r.sourceFileName }
  function FileIdOf(r: RawWeightRecord): string { r.sourceFileId }
  function TimestampOf(r: RawWeightRecord): Timestamp { r.timestamp }
  function KindOf(r: RawWeightRecord): SourceType { r.sourceType }

  /** `{r.source_type for r in records}`. */
  function SourceTypesOf(rs: seq<RawWeightRecord>): (types: set<SourceType>)
    ensures forall t :: t in types <==> exists r :: r in rs && r.sourceType == t
  {
    set r | r in rs :: r.sourceType
  }

  /** The measurement before the audit fields are filled in. */
  function Assemble(csvRecs: seq<RawWeightRecord>, fitRecs: seq<RawWeightRecord>, id: string,
                    values: map<Field, real>, tags: map<Field, FieldSource>, conflicts: seq<Field>)
    : WeightMeasurement
    requires |csvRecs| + |fitRecs| > 0
  {
    var all := csvRecs + fitRecs;
    WeightMeasurement(id, all[0].timestamp, values, MapSeq(all, FileNameOf), SourceTypesOf(all),
                      MapSeq(all, FileIdOf), tags, conflicts, None, None, None, None, None)
  }

  /** The audit fields: both sides' readings of a field, kept only for the two reported
      fields and only when that field is among the conflicts. */
  function WithAudit(m: WeightMeasurement, csvRep: Option<RawWeightRecord>,
                     fitRep: Option<RawWeightRecord>): WeightMeasurement
  {
    var w := WeightKg in m.conflictingFields;
    var b := BodyFatPct in m.conflictingFields;
    m.(weightKgCsv := if w then ValueOf(csvRep, WeightKg) else m.weightKgCsv,
       weightKgFit := if w then ValueOf(fitRep, WeightKg) else m.weightKgFit,
       bodyFatPctCsv := if b then ValueOf(csvRep, BodyFatPct) else m.bodyFatPctCsv,
       bodyFatPctFit := if b then ValueOf(fitRep, BodyFatPct) else m.bodyFatPctFit)
  }

  /** `_merge_records` as a value: every field merged between the first CSV and the first
      FIT record, a missing weight rejected before the identifier is generated, lineage
      taken from all records, and the audit fields set for conflicting fields. */
  function MergeSpec(csvRecs: seq<RawWeightRecord>, fitRecs: seq<RawWeightRecord>,
                     config: ProcessingConfig, prims: IdPrimitives)
    : Result<WeightMeasurement, MergeError>
  {
    if csvRecs + fitRecs == [] then Failure(NoRecords)
    else
    var csvRep := Representative(csvRecs);
    var fitRep := Representative(fitRecs);
    var merge := FieldMerger(csvRep, fitRep, config);
    var values := MergedValues(AllFields, merge);
    if WeightKg !in values then Failure(MissingWeight)
    else
      var all := csvRecs + fitRecs;
      var types := SourceTypesOf(all);
      match GenerateRecordId(all[0].timestamp, values[WeightKg], types, config.recordId, prims)
      case Failure(e) => Failure(RecordIdFailed(e))
      case Success(id) =>
        var m := Assemble(csvRecs, fitRecs, id, values, FieldSources(AllFields, merge),
                          ConflictsAmong(AllFields, merge));
        Success(WithAudit(m, csvRep, fitRep))
  }

  /** How the merged values, tags and conflicts of a prefix of the fields grow by one field. */
  lemma FieldsStep(fs: seq<Field>, i: nat, merge: Field -> FieldMerge)
    requires i < |fs|
    ensures var f := fs[i];
            MergedValues(fs[..i + 1], merge)
            == if merge(f).value.Some? then MergedValues(fs[..i], merge)[f := merge(f).value.value]
               else MergedValues(fs[..i], merge)
    ensures FieldSources(fs[..i + 1], merge) == FieldSources(fs[..i], merge)[fs[i] := merge(fs[i]).source]
    ensures ConflictsAmong(fs[..i + 1], merge)
            == ConflictsAmong(fs[..i], merge)
               + (if ReportsConflict(fs[i]) && merge(fs[i]).conflict then [fs[i]] else [])
  {
    assert fs[..i + 1][..i] == fs[..i];
  }

  /** The field-by-field part of `_merge_records`: merges every field in the order of
      the measurement schema, collecting the values, the resolution tags and the
      reported conflicts. */
  method MergeFields(csvData: Option<RawWeightRecord>, fitData: Option<RawWeightRecord>,
                     config: ProcessingConfig)
    returns (values: map<Field, real>, fieldSources: map<Field, FieldSource>, conflictingFields: seq<Field>)
    ensures values == MergedValues(AllFields, FieldMerger(csvData, fitData, config))
    ensures fieldSources == FieldSources(AllFields, FieldMerger(csvData, fitData, config))
    ensures conflictingFields == ConflictsAmong(AllFields, FieldMerger(csvData, fitData, config))
  {
    ghost var merge := FieldMerger(csvData, fitData, config);
    values := map[];
    fieldSources := map[];
    conflictingFields := [];
    for i := 0 to |AllFields|
      invariant values == MergedValues(AllFields[..i], merge)
      invariant fieldSources == FieldSources(AllFields[..i], merge)
      invariant conflictingFields == ConflictsAmong(AllFields[..i], merge)
    {
      var f := AllFields[i];
      FieldsStep(AllFields, i, merge);
      var m := MergeField(ValueOf(csvData, f), ValueOf(fitData, f), f, config);
      assert m == merge(f);
      if m.value.Some? {
        values := values[f := m.value.value];
      }
      fieldSources := fieldSources[f := m.source];
      if m.conflict && ReportsConflict(f) {
        conflictingFields := conflictingFields + [f];
      }
    }
    assert AllFields[..|AllFields|] == AllFields;
  }

  /** `_merge_records`: merges the fields one after another in the order of the
      measurement schema, collecting resolution tags and reported conflicts. */
  method MergeRecords(csvRecs: seq<RawWeightRecord>, fitRecs: seq<RawWeightRecord>,
                      config: ProcessingConfig, prims: IdPrimitives)
    returns (res: Result<WeightMeasurement, MergeError>)
    ensures res == MergeSpec(csvRecs, fitRecs, config, prims)
  {
    var all := csvRecs + fitRecs;
    if all == [] {
      return Failure(NoRecords);
    }
    var timestamp := all[0].timestamp;
    var sourceFiles := MapSeq(all, FileNameOf);
    var driveFileIds := MapSeq(all, FileIdOf);
    var sourceTypes := SourceTypesOf(all);
    var csvData := Representative(csvRecs);
    var fitData := Representative(fitRecs);
    ghost var merge := FieldMerger(csvData, fitData, config);

    var values, fieldSources, conflictingFields := MergeFields(csvData, fitData, config);

    if WeightKg !in values {
      return Failure(MissingWeight);
    }
    var recordId := GenerateRecordId(timestamp, values[WeightKg], sourceTypes, config.recordId, prims);
    if recordId.Failure? {
      return Failure(RecordIdFailed(recordId.error));
    }
    var measurement := WeightMeasurement(recordId.value, timestamp, values, sourceFiles,
                                         sourceTypes, driveFileIds, fieldSources,
                                         conflictingFields, None, None, None, None, None);
    assert measurement == Assemble(csvRecs, fitRecs, recordId.value, values, fieldSources, conflictingFields);
    if conflictingFields != [] {
      if WeightKg in conflictingFields {
        measurement := measurement.(weightKgCsv := ValueOf(csvData, WeightKg),
                                    weightKgFit := ValueOf(fitData, WeightKg));
      }
      if BodyFatPct in conflictingFields {
        measurement := measurement.(bodyFatPctCsv := ValueOf(csvData, BodyFatPct),
                                    bodyFatPctFit := ValueOf(fitData, BodyFatPct));
      }
    }
    assert measurement == WithAudit(Assemble(csvRecs, fitRecs, recordId.value, values, fieldSources,
                                             conflictingFields), csvData, fitData);
    res := Success(measurement);
  }

  // ---------------------------------------------------------------------------------
  // Properties of one merge
  // ---------------------------------------------------------------------------------

  lemma {:induction false} ConflictsAmongAppend(a: seq<Field>, b: seq<Field>, merge: Field -> FieldMerge)
    ensures ConflictsAmong(a + b, merge) == ConflictsAmong(a, merge) + ConflictsAmong(b, merge)
  {
    if b != [] {
      var init := b[..|b| - 1];
      assert (a + b)[..|a + b| - 1] == a + init;
      ConflictsAmongAppend(a, init, merge);
    } else {
      assert a + b == a;
    }
  }

  /** A field list that reports no field has no recorded conflicts. */
  lemma {:induction false} NoReportedConflicts(fs: seq<Field>, merge: Field -> FieldMerge)
    requires forall j :: 0 <= j < |fs| ==> !ReportsConflict(fs[j])
    ensures ConflictsAmong(fs, merge) == []
  {
    if fs != [] {
      NoReportedConflicts(fs[..|fs| - 1], merge);
    }
  }

  /** For a field list that starts with weight_kg and body_fat_pct and reports nothing
      else, the conflicts are those two fields in that order, each when it conflicts. */
  lemma ConflictsOfSchema(fs: seq<Field>, merge: Field -> FieldMerge)
    requires |fs| >= 2 && fs[0] == WeightKg && fs[1] == BodyFatPct
    requires forall j :: 2 <= j < |fs| ==> !ReportsConflict(fs[j])
    ensures ConflictsAmong(fs, merge)
         == (if merge(WeightKg).conflict then [WeightKg] else [])
            + (if merge(BodyFatPct).conflict then [BodyFatPct] else [])
  {
    var head := fs[..2];
    var tail := fs[2..];
    assert fs == head + tail;
    ConflictsAmongAppend(head, tail, merge);
    NoReportedConflicts(tail, merge);
    var w := [WeightKg];
    assert w[..0] == [];
    assert ConflictsAmong(w, merge) == (if merge(WeightKg).conflict then [WeightKg] else []);
    assert head[..1] == w;
    assert ConflictsAmong(head, merge)
        == ConflictsAmong(w, merge) + (if merge(BodyFatPct).conflict then [BodyFatPct] else []);
  }

  /** `conflicting_fields` lists weight_kg then body_fat_pct, each exactly when that
      field conflicts, and nothing else. */
  lemma ConflictOrder(merge: Field -> FieldMerge)
    ensures ConflictsAmong(AllFields, merge)
         == (if merge(WeightKg).conflict then [WeightKg] else [])
            + (if merge(BodyFatPct).conflict then [BodyFatPct] else [])
  {
    AllFieldsTable();
    assert AllFields[0] == WeightKg && AllFields[1] == BodyFatPct;
    ConflictsOfSchema(AllFields, merge);
  }

  /** A successful merge is the assembled measurement with its audit fields filled in,
      built from a merged weight. */
  lemma MergeShape(csvRecs: seq<RawWeightRecord>, fitRecs: seq<RawWeightRecord>,
                   config: ProcessingConfig, prims: IdPrimitives)
    returns (id: string)
    requires MergeSpec(csvRecs, fitRecs, config, prims).Success?
    ensures |csvRecs| + |fitRecs| > 0
    ensures WeightKg in MergedValues(AllFields, FieldMerger(Representative(csvRecs),
                                                            Representative(fitRecs), config))
    ensures var csvRep := Representative(csvRecs);
            var fitRep := Representative(fitRecs);
            var merge := FieldMerger(csvRep, fitRep, config);
            MergeSpec(csvRecs, fitRecs, config, prims).value
            == WithAudit(Assemble(csvRecs, fitRecs, id, MergedValues(AllFields, merge),
                                  FieldSources(AllFields, merge), ConflictsAmong(AllFields, merge)),
                         csvRep, fitRep)
  {
    id := MergeSpec(csvRecs, fitRecs, config, prims).value.recordId;
  }

  /** A merge fails for lack of weight exactly when there are records but neither
      representative carries a weight. */
  lemma MissingWeightExactly(csvRecs: seq<RawWeightRecord>, fitRecs: seq<RawWeightRecord>,
                             config: ProcessingConfig, prims: IdPrimitives)
    ensures MergeSpec(csvRecs, fitRecs, config, prims) == Failure(MissingWeight)
        <==> |csvRecs| + |fitRecs| > 0
             && (csvRecs == [] || WeightKg !in csvRecs[0].values)
             && (fitRecs == [] || WeightKg !in fitRecs[0].values)
  {
    FieldListed(WeightKg);
    var merge := FieldMerger(Representative(csvRecs), Representative(fitRecs), config);
    assert merge(WeightKg) == MergeField(ValueOf(Representative(csvRecs), WeightKg),
                                         ValueOf(Representative(fitRecs), WeightKg), WeightKg, config);
  }

  /** The failure modes of a merge: no records at all, no weight, or the record
      identifier's own error for the merged weight. */
  lemma MergeFailureCauses(csvRecs: seq<RawWeightRecord>, fitRecs: seq<RawWeightRecord>,
                           config: ProcessingConfig, prims: IdPrimitives)
    requires MergeSpec(csvRecs, fitRecs, config, prims).Failure?
    ensures var e := MergeSpec(csvRecs, fitRecs, config, prims).error;
            && (e == NoRecords <==> csvRecs + fitRecs == [])
            && (e.RecordIdFailed? ==>
                  exists w: real :: GenerateRecordId((csvRecs + fitRecs)[0].timestamp, w,
                                      SourceTypesOf(csvRecs + fitRecs), config.recordId, prims)
                                    == Failure(e.cause))
  {
    var e := MergeSpec(csvRecs, fitRecs, config, prims).error;
    if e.RecordIdFailed? {
      var merge := FieldMerger(Representative(csvRecs), Representative(fitRecs), config);
      var w := MergedValues(AllFields, merge)[WeightKg];
      assert GenerateRecordId((csvRecs + fitRecs)[0].timestamp, w,
                              SourceTypesOf(csvRecs + fitRecs), config.recordId, prims)
          == Failure(e.cause);
    }
  }

  /** The lineage part of an assembled measurement, whatever its merged fields. */
  lemma AssembledLineage(csvRecs: seq<RawWeightRecord>, fitRecs: seq<RawWeightRecord>, id: string,
                         values: map<Field, real>, tags: map<Field, FieldSource>, conflicts: seq<Field>,
                         csvRep: Option<RawWeightRecord>, fitRep: Option<RawWeightRecord>)
    requires |csvRecs| + |fitRecs| > 0
    ensures var m := WithAudit(Assemble(csvRecs, fitRecs, id, values, tags, conflicts), csvRep, fitRep);
            && m.recordId == id && m.values == values && m.fieldSources == tags
            && m.timestamp == (if csvRecs != [] then csvRecs[0].timestamp else fitRecs[0].timestamp)
            && m.sourceFiles == MapSeq(csvRecs, FileNameOf) + MapSeq(fitRecs, FileNameOf)
            && m.driveFileIds == MapSeq(csvRecs, FileIdOf) + MapSeq(fitRecs, FileIdOf)
            && m.sourceTypes == SourceTypesOf(csvRecs) + SourceTypesOf(fitRecs)
            && m.chosenSource.None?
  {
    MapSeqAppend(csvRecs, fitRecs, FileNameOf);
    MapSeqAppend(csvRecs, fitRecs, FileIdOf);
    assert SourceTypesOf(csvRecs + fitRecs) == SourceTypesOf(csvRecs) + SourceTypesOf(fitRecs);
  }

  /** Lineage of a merged measurement: the timestamp of the first record (CSV first), the
      file names and identifiers of all records CSV first, the set of their source types,
      a resolution tag for every field, a weight, and no chosen source. */
  lemma MergeLineage(csvRecs: seq<RawWeightRecord>, fitRecs: seq<RawWeightRecord>,
                     config: ProcessingConfig, prims: IdPrimitives)
    requires MergeSpec(csvRecs, fitRecs, config, prims).Success?
    ensures var m := MergeSpec(csvRecs, fitRecs, config, prims).value;
            && m.timestamp == (if csvRecs != [] then csvRecs[0].timestamp else fitRecs[0].timestamp)
            && m.sourceFiles == MapSeq(csvRecs, FileNameOf) + MapSeq(fitRecs, FileNameOf)
            && m.driveFileIds == MapSeq(csvRecs, FileIdOf) + MapSeq(fitRecs, FileIdOf)
            && m.sourceTypes == SourceTypesOf(csvRecs) + SourceTypesOf(fitRecs)
            && (forall f :: f in m.fieldSources)
            && m.chosenSource.None?
            && WeightKg in m.values
  {
    var id := MergeShape(csvRecs, fitRecs, config, prims);
    var csvRep := Representative(csvRecs);
    var fitRep := Representative(fitRecs);
    var merge := FieldMerger(csvRep, fitRep, config);
    AssembledLineage(csvRecs, fitRecs, id, MergedValues(AllFields, merge), FieldSources(AllFields, merge),
                     ConflictsAmong(AllFields, merge), csvRep, fitRep);
    forall f: Field ensures f in AllFields {
      FieldListed(f);
    }
  }

  /** Every field's merged value and tag are those of merging the two representatives;
      a field is present exactly when at least one representative reports it. */
  lemma MergeValues(csvRecs: seq<RawWeightRecord>, fitRecs: seq<RawWeightRecord>,
                    config: ProcessingConfig, prims: IdPrimitives, f: Field)
    requires MergeSpec(csvRecs, fitRecs, config, prims).Success?
    ensures var m := MergeSpec(csvRecs, fitRecs, config, prims).value;
            var c := ValueOf(Representative(csvRecs), f);
            var d := ValueOf(Representative(fitRecs), f);
            && (f in m.values <==> c.Some? || d.Some?)
            && (f in m.values ==> Some(m.values[f]) == MergeField(c, d, f, config).value)
            && f in m.fieldSources && m.fieldSources[f] == MergeField(c, d, f, config).source
  {
    var id := MergeShape(csvRecs, fitRecs, config, prims);
    var merge := FieldMerger(Representative(csvRecs), Representative(fitRecs), config);
    assert merge(f) == MergeField(ValueOf(Representative(csvRecs), f),
                                  ValueOf(Representative(fitRecs), f), f, config);
    FieldListed(f);
  }

  /** The audit copies of a reported field: its CSV and its FIT reading. */
  function AuditReadings(m: WeightMeasurement, f: Field): (Option<real>, Option<real>)
    requires ReportsConflict(f)
  {
    if f == WeightKg then (m.weightKgCsv, m.weightKgFit) else (m.bodyFatPctCsv, m.bodyFatPctFit)
  }

  /** The audit part of an assembled measurement: the conflicts are kept as given, and a
      reported field's audit copies are the two representatives' readings exactly when
      that field is among the conflicts. */
  lemma AssembledAudit(csvRecs: seq<RawWeightRecord>, fitRecs: seq<RawWeightRecord>, id: string,
                       values: map<Field, real>, tags: map<Field, FieldSource>, conflicts: seq<Field>,
                       csvRep: Option<RawWeightRecord>, fitRep: Option<RawWeightRecord>, f: Field)
    requires |csvRecs| + |fitRecs| > 0
    requires ReportsConflict(f)
    ensures var m := WithAudit(Assemble(csvRecs, fitRecs, id, values, tags, conflicts), csvRep, fitRep);
            && m.conflictingFields == conflicts
            && AuditReadings(m, f) == if f in conflicts then (ValueOf(csvRep, f), ValueOf(fitRep, f))
                                      else (None, None)
  {
  }

  /** Two readings disagree when both are present and further apart than the tolerance. */
  predicate Disagree(c: Option<real>, d: Option<real>, tol: real)
  {
    c.Some? && d.Some? && AbsReal(c.value - d.value) > tol
  }

  /** A reported field is among the conflicts of a merge exactly when the two
      representatives' readings of it disagree. */
  lemma ReportedConflict(csvRep: Option<RawWeightRecord>, fitRep: Option<RawWeightRecord>,
                         config: ProcessingConfig, f: Field)
    requires ReportsConflict(f)
    ensures f in ConflictsAmong(AllFields, FieldMerger(csvRep, fitRep, config))
            <==> Disagree(ValueOf(csvRep, f), ValueOf(fitRep, f), config.numericTolerance)
  {
    var c := ValueOf(csvRep, f);
    var d := ValueOf(fitRep, f);
    MergeFieldOutcome(c, d, f, config);
    assert FieldMerger(csvRep, fitRep, config)(f) == MergeField(c, d, f, config);
    ConflictOrder(FieldMerger(csvRep, fitRep, config));
  }

  /** The conflict audit of weight_kg and body_fat_pct: the field is listed as conflicting
      exactly when both representatives report it and they differ by more than the
      tolerance; its per-source audit copies are then the two readings, and unset
      otherwise. */
  lemma ConflictAudit(csvRecs: seq<RawWeightRecord>, fitRecs: seq<RawWeightRecord>,
                      config: ProcessingConfig, prims: IdPrimitives, f: Field)
    requires MergeSpec(csvRecs, fitRecs, config, prims).Success?
    requires ReportsConflict(f)
    ensures var m := MergeSpec(csvRecs, fitRecs, config, prims).value;
            var c := ValueOf(Representative(csvRecs), f);
            var d := ValueOf(Representative(fitRecs), f);
            && (f in m.conflictingFields <==> Disagree(c, d, config.numericTolerance))
            && AuditReadings(m, f) == if Disagree(c, d, config.numericTolerance) then (c, d) else (None, None)
  {
    var id := MergeShape(csvRecs, fitRecs, config, prims);
    var csvRep := Representative(csvRecs);
    var fitRep := Representative(fitRecs);
    var merge := FieldMerger(csvRep, fitRep, config);
    AssembledAudit(csvRecs, fitRecs, id, MergedValues(AllFields, merge), FieldSources(AllFields, merge),
                   ConflictsAmong(AllFields, merge), csvRep, fitRep, f);
    ReportedConflict(csvRep, fitRep, config, f);
  }

  /** `conflicting_fields` of a merged measurement lists weight_kg before body_fat_pct and
      holds no other field. */
  lemma ConflictList(csvRecs: seq<RawWeightRecord>, fitRecs: seq<RawWeightRecord>,
                     config: ProcessingConfig, prims: IdPrimitives)
    requires MergeSpec(csvRecs, fitRecs, config, prims).Success?
    ensures var m := MergeSpec(csvRecs, fitRecs, config, prims).value;
            m.conflictingFields == (if WeightKg in m.conflictingFields then [WeightKg] else [])
                                   + (if BodyFatPct in m.conflictingFields then [BodyFatPct] else [])
  {
    var id := MergeShape(csvRecs, fitRecs, config, prims);
    var merge := FieldMerger(Representative(csvRecs), Representative(fitRecs), config);
    ConflictOrder(merge);
  }
}

module ConsolidationBatch {
  import opened Wrappers
  import opened Weight
  import opened TimezoneUtils
  import opened Grouping
  import opened Hashing
  import opened Parameters
  import opened Consolidation

  /** A merge group: the CSV records and the FIT records merged into one measurement. */
  type MergeGroup = (seq<RawWeightRecord>, seq<RawWeightRecord>)

  /** Why `consolidate` raises: every failure of a merge aborts the whole batch. */
  datatype ConsolidationError = ConsolidationFailed(cause: MergeError)

  /** The FIT records absorbed by the CSV timestamp `csvTs`: the groups of every FIT
      timestamp within the tolerance, in FIT key order. */
  function AbsorbedFit(fitKeys: seq<Timestamp>, fit: seq<RawWeightRecord>, csvTs: Timestamp,
                       tol: int): (rs: seq<RawWeightRecord>)
    ensures forall r :: r in rs <==> r in fit && r.timestamp in fitKeys
                                     && TimestampsMatch(csvTs, r.timestamp, tol)
  {
    if fitKeys == [] then []
    else
      var init := fitKeys[..|fitKeys| - 1];
      var last := fitKeys[|fitKeys| - 1];
      assert fitKeys == init + [last];
      AbsorbedFit(init, fit, csvTs, tol)
      + (if TimestampsMatch(csvTs, last, tol) then Select(fit, TimestampOf, last) else [])
  }

  /** Some CSV timestamp lies within the tolerance of `fitTs`. */
  predicate MatchedByAny(csvKeys: seq<Timestamp>, fitTs: Timestamp, tol: int)
  {
    exists c :: c in csvKeys && TimestampsMatch(c, fitTs, tol)
  }

  /** `matched_fit_timestamps` once the CSV timestamps `csvKeys` have been processed. */
  function MatchedSet(csvKeys: seq<Timestamp>, fitKeys: seq<Timestamp>, tol: int): set<Timestamp>
  {
    set k | k in fitKeys && MatchedByAny(csvKeys, k, tol)
  }

  /** The FIT timestamps that no CSV timestamp matches, in FIT key order. */
  function Leftovers(fitKeys: seq<Timestamp>, csvKeys: seq<Timestamp>, tol: int): (ls: seq<Timestamp>)
    ensures forall k :: k in ls <==> k in fitKeys && !MatchedByAny(csvKeys, k, tol)
  {
    if fitKeys == [] then []
    else
      var init := fitKeys[..|fitKeys| - 1];
      var last := fitKeys[|fitKeys| - 1];
      assert fitKeys == init + [last];
      Leftovers(init, csvKeys, tol) + (if MatchedByAny(csvKeys, last, tol) then [] else [last])
  }

  /** One group per CSV timestamp: its CSV records and the FIT records it absorbs. */
  function CsvGroups(csv: seq<RawWeightRecord>, csvKeys: seq<Timestamp>,
                     fit: seq<RawWeightRecord>, fitKeys: seq<Timestamp>, tol: int)
    : (gs: seq<MergeGroup>)
    ensures |gs| == |csvKeys|
    ensures forall i :: 0 <= i < |csvKeys| ==>
              gs[i] == (Select(csv, TimestampOf, csvKeys[i]), AbsorbedFit(fitKeys, fit, csvKeys[i], tol))
  {
    seq(|csvKeys|, i requires 0 <= i < |csvKeys| =>
      (Select(csv, TimestampOf, csvKeys[i]), AbsorbedFit(fitKeys, fit, csvKeys[i], tol)))
  }

  /** One FIT-only group per leftover FIT timestamp. */
  function FitGroups(fit: seq<RawWeightRecord>, keys: seq<Timestamp>): (gs: seq<MergeGroup>)
    ensures |gs| == |keys|
    ensures forall i :: 0 <= i < |keys| ==> gs[i] == ([], Select(fit, TimestampOf, keys[i]))
  {
    seq(|keys|, i requires 0 <= i < |keys| => ([], Select(fit, TimestampOf, keys[i])))
  }

  /** The records of one source type, in input order. */
  function OfType(raw: seq<RawWeightRecord>, t: SourceType): seq<RawWeightRecord>
  {
    Select(raw, KindOf, t)
  }

  /** The distinct timestamps of `rs`, in order of first occurrence. */
  function KeysOf(rs: seq<RawWeightRecord>): seq<Timestamp>
  {
    Dedup(MapSeq(rs, TimestampOf))
  }

  /** The CSV timestamps of a batch in first-occurrence order: the keys of `csv_by_timestamp`. */
  function CsvKeys(raw: seq<RawWeightRecord>): seq<Timestamp>
  {
    KeysOf(OfType(raw, Csv))
  }

  /** The FIT timestamps of a batch in first-occurrence order: the keys of `fit_by_timestamp`. */
  function FitKeys(raw: seq<RawWeightRecord>): seq<Timestamp>
  {
    KeysOf(OfType(raw, Fit))
  }

  /** The groups the first loop of `consolidate` merges: per CSV timestamp, its CSV
      records with the FIT records of every FIT timestamp within the tolerance. */
  function CsvPlan(raw: seq<RawWeightRecord>, tol: int): seq<MergeGroup>
  {
    CsvGroups(OfType(raw, Csv), CsvKeys(raw), OfType(raw, Fit), FitKeys(raw), tol)
  }

  /** The groups the second loop merges: per FIT timestamp no CSV timestamp matched,
      its FIT records alone. */
  function FitOnlyPlan(raw: seq<RawWeightRecord>, tol: int): seq<MergeGroup>
  {
    FitGroups(OfType(raw, Fit), Leftovers(FitKeys(raw), CsvKeys(raw), tol))
  }

  /** All the merge groups of `consolidate`, in the order it merges them. */
  function MergePlan(raw: seq<RawWeightRecord>, tol: int): seq<MergeGroup>
  {
    CsvPlan(raw, tol) + FitOnlyPlan(raw, tol)
  }

  /** `_merge_records` applied to one group. */
  function MergeGroupWith(config: ProcessingConfig, prims: IdPrimitives)
    : MergeGroup -> Result<WeightMeasurement, MergeError>
  {
    (g: MergeGroup) => MergeSpec(g.0, g.1, config, prims)
  }

  /** Merging the groups in order with `merge`, stopping at the first failure. */
  function MergeAll<M, E>(plan: seq<MergeGroup>, merge: MergeGroup -> Result<M, E>)
    : (r: Result<seq<M>, E>)
    ensures r.Success? ==> |r.value| == |plan|
  {
    if plan == [] then Success([])
    else
      var init := plan[..|plan| - 1];
      var g := plan[|plan| - 1];
      match MergeAll(init, merge)
      case Failure(e) => Failure(e)
      case Success(ms) =>
        match merge(g)
        case Failure(e) => Failure(e)
        case Success(m) => Success(ms + [m])
  }

  /** Merging succeeds exactly when every group merges, and then yields the groups'
      measurements in plan order. */
  lemma {:induction false} MergeAllSuccess<M, E>(plan: seq<MergeGroup>, merge: MergeGroup -> Result<M, E>)
    ensures MergeAll(plan, merge).Success? <==> forall i :: 0 <= i < |plan| ==> merge(plan[i]).Success?
    ensures MergeAll(plan, merge).Success? ==>
              forall i :: 0 <= i < |plan| ==> merge(plan[i]) == Success(MergeAll(plan, merge).value[i])
  {
    if plan != [] {
      var init := plan[..|plan| - 1];
      assert plan == init + [plan[|plan| - 1]];
      MergeAllSuccess(init, merge);
    }
  }

  /** A failed merge reports the error of the first group that fails. */
  lemma {:induction false} MergeAllFirstFailure<M, E>(plan: seq<MergeGroup>, merge: MergeGroup -> Result<M, E>)
    requires MergeAll(plan, merge).Failure?
    ensures exists i :: 0 <= i < |plan| && merge(plan[i]) == Failure(MergeAll(plan, merge).error)
                        && forall j :: 0 <= j < i ==> merge(plan[j]).Success?
  {
    var init := plan[..|plan| - 1];
    assert plan == init + [plan[|plan| - 1]];
    if MergeAll(init, merge).Failure? {
      MergeAllFirstFailure(init, merge);
      var i :| 0 <= i < |init| && merge(init[i]) == Failure(MergeAll(init, merge).error)
               && forall j :: 0 <= j < i ==> merge(init[j]).Success?;
      assert merge(plan[i]) == Failure(MergeAll(plan, merge).error);
    } else {
      MergeAllSuccess(init, merge);
      assert merge(plan[|plan| - 1]) == Failure(MergeAll(plan, merge).error);
    }
  }

  predicate SortedByTimestamp(ms: seq<WeightMeasurement>)
  {
    forall i, j :: 0 <= i < j < |ms| ==> ms[i].timestamp <= ms[j].timestamp
  }

  /** The measurements of `ms` with timestamp `t`, in order. */
  function WithTimestamp(ms: seq<WeightMeasurement>, t: Timestamp): seq<WeightMeasurement>
  {
    if ms == [] then []
    else (if ms[0].timestamp == t then [ms[0]] else []) + WithTimestamp(ms[1..], t)
  }

  /** Inserting `m` before the first measurement that is not earlier than it. */
  function InsertByTimestamp(m: WeightMeasurement, ms: seq<WeightMeasurement>)
    : (r: seq<WeightMeasurement>)
    ensures |r| == |ms| + 1
    ensures multiset(r) == multiset(ms) + multiset{m}
  {
    if ms == [] || m.timestamp <= ms[0].timestamp then [m] + ms
    else
      assert ms == [ms[0]] + ms[1..];
      [ms[0]] + InsertByTimestamp(m, ms[1..])
  }

  /** A measurement no later than any of a sorted sequence can go in front of it. */
  lemma SortedCons(a: WeightMeasurement, s: seq<WeightMeasurement>)
    requires SortedByTimestamp(s)
    requires forall x :: x in s ==> a.timestamp <= x.timestamp
    ensures SortedByTimestamp([a] + s)
  {
    var r := [a] + s;
    forall i, j | 0 <= i < j < |r| ensures r[i].timestamp <= r[j].timestamp {
      assert r[j] == s[j - 1];
      if i > 0 {
        assert r[i] == s[i - 1];
      } else {
        assert s[j - 1] in s;
      }
    }
  }

  /** Insertion adds `m` and nothing else. */
  lemma InsertMembers(m: WeightMeasurement, ms: seq<WeightMeasurement>)
    ensures forall x :: x in InsertByTimestamp(m, ms) ==> x == m || x in ms
  {
    forall x | x in InsertByTimestamp(m, ms) ensures x == m || x in ms {
      assert x in multiset(InsertByTimestamp(m, ms));
    }
  }

  lemma {:induction false} InsertSorted(m: WeightMeasurement, ms: seq<WeightMeasurement>)
    requires SortedByTimestamp(ms)
    ensures SortedByTimestamp(InsertByTimestamp(m, ms))
  {
    if ms == [] || m.timestamp <= ms[0].timestamp {
      forall x | x in ms ensures m.timestamp <= x.timestamp {
        var k :| 0 <= k < |ms| && ms[k] == x;
      }
      SortedCons(m, ms);
    } else {
      var rest := ms[1..];
      InsertSorted(m, rest);
      InsertMembers(m, rest);
      forall x | x in rest ensures ms[0].timestamp <= x.timestamp {
        var k :| 0 <= k < |rest| && rest[k] == x;
        assert ms[k + 1] == x;
      }
      SortedCons(ms[0], InsertByTimestamp(m, rest));
    }
  }

  lemma WithTimestampCons(x: WeightMeasurement, s: seq<WeightMeasurement>, t: Timestamp)
    ensures WithTimestamp([x] + s, t) == (if x.timestamp == t then [x] else []) + WithTimestamp(s, t)
  {
    assert ([x] + s)[1..] == s;
  }

  /** Insertion keeps the measurements of each timestamp in order, with `m` ahead of
      those that already had its timestamp. */
  lemma {:induction false} InsertStable(m: WeightMeasurement, ms: seq<WeightMeasurement>, t: Timestamp)
    ensures WithTimestamp(InsertByTimestamp(m, ms), t)
            == (if m.timestamp == t then [m] else []) + WithTimestamp(ms, t)
  {
    if ms == [] || m.timestamp <= ms[0].timestamp {
      WithTimestampCons(m, ms, t);
    } else {
      var x, rest := ms[0], ms[1..];
      var ins := InsertByTimestamp(m, rest);
      assert InsertByTimestamp(m, ms) == [x] + ins;
      assert ms == [x] + rest;
      WithTimestampCons(x, ins, t);
      WithTimestampCons(x, rest, t);
      InsertStable(m, rest, t);
      SwapWhenOneEmpty(if x.timestamp == t then [x] else [], if m.timestamp == t then [m] else [],
                       WithTimestamp(rest, t));
    }
  }

  lemma SwapWhenOneEmpty<T>(a: seq<T>, b: seq<T>, s: seq<T>)
    requires a == [] || b == []
    ensures a + (b + s) == b + (a + s)
  {
    if a == [] {
      assert a + (b + s) == b + s == b + (a + s);
    } else {
      assert a + (b + s) == a + s == b + (a + s);
    }
  }

  /** `list.sort(key=lambda m: m.timestamp)`: a stable sort by timestamp. */
  function SortByTimestamp(ms: seq<WeightMeasurement>): (r: seq<WeightMeasurement>)
    ensures |r| == |ms|
    ensures multiset(r) == multiset(ms)
  {
    if ms == [] then []
    else
      assert ms == [ms[0]] + ms[1..];
      InsertByTimestamp(ms[0], SortByTimestamp(ms[1..]))
  }

  /** The sort orders by timestamp and is stable: the measurements sharing a timestamp
      keep their relative order. */
  lemma {:induction false} SortByTimestampSpec(ms: seq<WeightMeasurement>)
    ensures SortedByTimestamp(SortByTimestamp(ms))
    ensures forall t :: WithTimestamp(SortByTimestamp(ms), t) == WithTimestamp(ms, t)
  {
    if ms != [] {
      SortByTimestampSpec(ms[1..]);
      InsertSorted(ms[0], SortByTimestamp(ms[1..]));
      forall t ensures WithTimestamp(SortByTimestamp(ms), t) == WithTimestamp(ms, t) {
        InsertStable(ms[0], SortByTimestamp(ms[1..]), t);
      }
    }
  }

  /** `consolidate` as a value. */
  function ConsolidateSpec(raw: seq<RawWeightRecord>, config: ProcessingConfig, prims: IdPrimitives)
    : Result<seq<WeightMeasurement>, ConsolidationError>
  {
    match MergeAll(MergePlan(raw, config.timestampToleranceSeconds), MergeGroupWith(config, prims))
    case Failure(e) => Failure(ConsolidationFailed(e))
    case Success(ms) => Success(SortByTimestamp(ms))
  }

  /** An error no group produces is not the outcome of merging them all. */
  lemma {:induction false} MergeAllAvoids<M, E>(plan: seq<MergeGroup>, merge: MergeGroup -> Result<M, E>, e: E)
    requires forall g :: g in plan ==> merge(g) != Failure(e)
    ensures MergeAll(plan, merge) != Failure(e)
  {
    if plan != [] {
      var init := plan[..|plan| - 1];
      assert plan[|plan| - 1] in plan;
      forall g | g in init ensures merge(g) != Failure(e) {
        assert g in plan;
      }
      MergeAllAvoids(init, merge, e);
    }
  }

  lemma {:induction false} MergeAllFailureSticks<M, E>(p: seq<MergeGroup>, q: seq<MergeGroup>,
                                                       merge: MergeGroup -> Result<M, E>)
    requires MergeAll(p, merge).Failure?
    ensures MergeAll(p + q, merge) == MergeAll(p, merge)
  {
    if q != [] {
      var init := q[..|q| - 1];
      assert (p + q)[..|p + q| - 1] == p + init;
      MergeAllFailureSticks(p, init, merge);
    } else {
      assert p + q == p;
    }
  }

  lemma {:induction false} LeftoversAppend(a: seq<Timestamp>, b: seq<Timestamp>,
                                           csvKeys: seq<Timestamp>, tol: int)
    ensures Leftovers(a + b, csvKeys, tol) == Leftovers(a, csvKeys, tol) + Leftovers(b, csvKeys, tol)
  {
    if b != [] {
      var init := b[..|b| - 1];
      assert (a + b)[..|a + b| - 1] == a + init;
      LeftoversAppend(a, init, csvKeys, tol);
    } else {
      assert a + b == a;
    }
  }

  lemma MatchedSetAppend(a: seq<Timestamp>, b: seq<Timestamp>, fitKeys: seq<Timestamp>, tol: int)
    ensures MatchedSet(a + b, fitKeys, tol) == MatchedSet(a, fitKeys, tol) + MatchedSet(b, fitKeys, tol)
  {
    forall k | k in MatchedSet(a + b, fitKeys, tol)
      ensures k in MatchedSet(a, fitKeys, tol) + MatchedSet(b, fitKeys, tol)
    {
      var c :| c in a + b && TimestampsMatch(c, k, tol);
    }
  }

  /** `matched_fit_timestamps` after one more CSV timestamp. */
  lemma MatchedSetStep(csvKeys: seq<Timestamp>, i: nat, fitKeys: seq<Timestamp>, tol: int)
    requires i < |csvKeys|
    ensures MatchedSet(csvKeys[..i + 1], fitKeys, tol)
         == MatchedSet(csvKeys[..i], fitKeys, tol) + MatchedSet([csvKeys[i]], fitKeys, tol)
  {
    assert csvKeys[..i + 1] == csvKeys[..i] + [csvKeys[i]];
    MatchedSetAppend(csvKeys[..i], [csvKeys[i]], fitKeys, tol);
  }

  lemma MatchedSetGrow(c: Timestamp, fitKeys: seq<Timestamp>, j: nat, tol: int)
    requires j < |fitKeys|
    ensures MatchedSet([c], fitKeys[..j + 1], tol)
         == MatchedSet([c], fitKeys[..j], tol)
            + (if TimestampsMatch(c, fitKeys[j], tol) then {fitKeys[j]} else {})
  {
    assert fitKeys[..j + 1] == fitKeys[..j] + [fitKeys[j]];
    assert forall k :: MatchedByAny([c], k, tol) <==> TimestampsMatch(c, k, tol);
  }

  /** The inner loop of `consolidate` for one CSV timestamp: collects the FIT records of
      every FIT timestamp within the tolerance and marks those timestamps as matched. */
  method CollectMatchingFit(csvTs: Timestamp, fitKeys: seq<Timestamp>,
                            fitByTimestamp: map<Timestamp, seq<RawWeightRecord>>,
                            fitRecords: seq<RawWeightRecord>, tol: int)
    returns (matchedFitRecs: seq<RawWeightRecord>, matched: set<Timestamp>)
    requires forall k :: k in fitKeys ==> k in fitByTimestamp
                                          && fitByTimestamp[k] == Select(fitRecords, TimestampOf, k)
    ensures matchedFitRecs == AbsorbedFit(fitKeys, fitRecords, csvTs, tol)
    ensures matched == MatchedSet([csvTs], fitKeys, tol)
  {
    matchedFitRecs := [];
    matched := {};
    for j := 0 to |fitKeys|
      invariant matchedFitRecs == AbsorbedFit(fitKeys[..j], fitRecords, csvTs, tol)
      invariant matched == MatchedSet([csvTs], fitKeys[..j], tol)
    {
      var fitTs := fitKeys[j];
      assert fitKeys[..j + 1][..j] == fitKeys[..j];
      MatchedSetGrow(csvTs, fitKeys, j, tol);
      if TimestampsMatch(csvTs, fitTs, tol) {
        matchedFitRecs := matchedFitRecs + fitByTimestamp[fitTs];
        matched := matched + {fitTs};
      }
    }
    assert fitKeys[..|fitKeys|] == fitKeys;
  }

  /** Merging one more group after a successful prefix of the plan; a failure there is
      the outcome of the whole plan. */
  lemma MergeStep<M, E>(plan: seq<MergeGroup>, i: nat, done: seq<M>, merge: MergeGroup -> Result<M, E>)
    requires i < |plan|
    requires MergeAll(plan[..i], merge) == Success(done)
    ensures merge(plan[i]).Success? ==> MergeAll(plan[..i + 1], merge) == Success(done + [merge(plan[i]).value])
    ensures merge(plan[i]).Failure? ==> MergeAll(plan, merge) == Failure(merge(plan[i]).error)
  {
    var p := plan[..i + 1];
    assert p[..i] == plan[..i];
    if merge(plan[i]).Failure? {
      MergeAllPrefixFailure(plan, i + 1, merge);
    }
  }

  /** A failing prefix of a plan decides the outcome of the whole plan. */
  lemma {:induction false} MergeAllPrefixFailure<M, E>(plan: seq<MergeGroup>, j: nat,
                                                       merge: MergeGroup -> Result<M, E>)
    requires j <= |plan|
    requires MergeAll(plan[..j], merge).Failure?
    ensures MergeAll(plan, merge) == MergeAll(plan[..j], merge)
    decreases |plan|
  {
    if j < |plan| {
      var init := plan[..|plan| - 1];
      assert init[..j] == plan[..j];
      MergeAllPrefixFailure(init, j, merge);
    } else {
      assert plan[..j] == plan;
    }
  }

  lemma FitGroupsAppend(fit: seq<RawWeightRecord>, a: seq<Timestamp>, b: seq<Timestamp>)
    ensures FitGroups(fit, a + b) == FitGroups(fit, a) + FitGroups(fit, b)
  {
    assert forall i :: 0 <= i < |a + b| ==>
      FitGroups(fit, a + b)[i] == (FitGroups(fit, a) + FitGroups(fit, b))[i];
  }

  /** Merging one more group at the end of a plan. */
  lemma MergeAllSnoc<M, E>(p: seq<MergeGroup>, g: MergeGroup, merge: MergeGroup -> Result<M, E>)
    ensures MergeAll(p + [g], merge)
            == match MergeAll(p, merge)
               case Failure(e) => Failure(e)
               case Success(xs) =>
                 match merge(g)
                 case Failure(e) => Failure(e)
                 case Success(x) => Success(xs + [x])
  {
    assert (p + [g])[..|p|] == p;
  }

  /** Merging a plan in two parts: the first failure of either part, or both results. */
  lemma {:induction false} MergeAllConcat<M, E>(p: seq<MergeGroup>, q: seq<MergeGroup>,
                                                merge: MergeGroup -> Result<M, E>)
    ensures MergeAll(p + q, merge)
            == match MergeAll(p, merge)
               case Failure(e) => Failure(e)
               case Success(xs) =>
                 match MergeAll(q, merge)
                 case Failure(e) => Failure(e)
                 case Success(ys) => Success(xs + ys)
  {
    if q == [] {
      assert p + q == p;
      assert MergeAll(q, merge) == Success([]);
      if MergeAll(p, merge).Success? {
        assert MergeAll(p, merge).value + [] == MergeAll(p, merge).value;
      }
    } else {
      var init := q[..|q| - 1];
      assert (p + q)[..|p + q| - 1] == p + init;
      MergeAllConcat(p, init, merge);
      if MergeAll(p, merge).Success? && MergeAll(init, merge).Success?
         && merge(q[|q| - 1]).Success? {
        var xs := MergeAll(p, merge).value;
        var ys := MergeAll(init, merge).value;
        assert (xs + ys) + [merge(q[|q| - 1]).value] == xs + (ys + [merge(q[|q| - 1]).value]);
      }
    }
  }

  /** One iteration of the first loop of `consolidate`: the group of the next CSV
      timestamp is its CSV records with the FIT records it absorbs; merging it extends
      the successful prefix, or its failure is the outcome of all the CSV groups. */
  lemma CsvLoopStep(csvRecords: seq<RawWeightRecord>, csvKeys: seq<Timestamp>,
                    csvByTimestamp: map<Timestamp, seq<RawWeightRecord>>,
                    fitRecords: seq<RawWeightRecord>, fitKeys: seq<Timestamp>, i: nat,
                    config: ProcessingConfig, prims: IdPrimitives,
                    done: seq<WeightMeasurement>, matchedFitRecs: seq<RawWeightRecord>,
                    m: Result<WeightMeasurement, MergeError>)
    requires i < |csvKeys|
    requires forall k :: k in csvKeys ==> k in csvByTimestamp
                                          && csvByTimestamp[k] == Select(csvRecords, TimestampOf, k)
    requires matchedFitRecs == AbsorbedFit(fitKeys, fitRecords, csvKeys[i], config.timestampToleranceSeconds)
    requires var plan := CsvGroups(csvRecords, csvKeys, fitRecords, fitKeys, config.timestampToleranceSeconds);
             MergeAll(plan[..i], MergeGroupWith(config, prims)) == Success(done)
    requires csvKeys[i] in csvByTimestamp
             && m == MergeSpec(csvByTimestamp[csvKeys[i]], matchedFitRecs, config, prims)
    ensures var plan := CsvGroups(csvRecords, csvKeys, fitRecords, fitKeys, config.timestampToleranceSeconds);
            m.Success? ==> MergeAll(plan[..i + 1], MergeGroupWith(config, prims)) == Success(done + [m.value])
    ensures var plan := CsvGroups(csvRecords, csvKeys, fitRecords, fitKeys, config.timestampToleranceSeconds);
            m.Failure? ==> MergeAll(plan, MergeGroupWith(config, prims)) == Failure(m.error)
  {
    var plan := CsvGroups(csvRecords, csvKeys, fitRecords, fitKeys, config.timestampToleranceSeconds);
    var merge := MergeGroupWith(config, prims);
    assert csvKeys[i] in csvKeys;
    assert plan[i] == (csvByTimestamp[csvKeys[i]], matchedFitRecs);
    assert merge(plan[i]) == m;
    MergeStep(plan, i, done, merge);
  }

  /** The first loop of `consolidate`: every CSV timestamp, in first-occurrence order,
      merged with the FIT records of all FIT timestamps within the tolerance; also
      returns the FIT timestamps that some CSV timestamp matched. */
  method MergeCsvGroups(csvRecords: seq<RawWeightRecord>, csvKeys: seq<Timestamp>,
                        csvByTimestamp: map<Timestamp, seq<RawWeightRecord>>,
                        fitRecords: seq<RawWeightRecord>, fitKeys: seq<Timestamp>,
                        fitByTimestamp: map<Timestamp, seq<RawWeightRecord>>,
                        config: ProcessingConfig, prims: IdPrimitives)
    returns (res: Result<seq<WeightMeasurement>, MergeError>, matchedFitTimestamps: set<Timestamp>)
    requires forall k :: k in csvKeys ==> k in csvByTimestamp
                                          && csvByTimestamp[k] == Select(csvRecords, TimestampOf, k)
    requires forall k :: k in fitKeys ==> k in fitByTimestamp
                                          && fitByTimestamp[k] == Select(fitRecords, TimestampOf, k)
    ensures res == MergeAll(CsvGroups(csvRecords, csvKeys, fitRecords, fitKeys,
                                      config.timestampToleranceSeconds), MergeGroupWith(config, prims))
    ensures res.Success? ==>
              matchedFitTimestamps == MatchedSet(csvKeys, fitKeys, config.timestampToleranceSeconds)
  {
    var tol := config.timestampToleranceSeconds;
    ghost var plan := CsvGroups(csvRecords, csvKeys, fitRecords, fitKeys, tol);
    ghost var merge := MergeGroupWith(config, prims);
    var consolidated: seq<WeightMeasurement> := [];
    matchedFitTimestamps := {};
    for i := 0 to |csvKeys|
      invariant MergeAll(plan[..i], merge) == Success(consolidated)
      invariant matchedFitTimestamps == MatchedSet(csvKeys[..i], fitKeys, tol)
    {
      var m, matchedHere := MergeCsvTimestamp(csvRecords, csvKeys, csvByTimestamp, fitRecords, fitKeys,
                                              fitByTimestamp, i, config, prims, consolidated);
      MatchedSetStep(csvKeys, i, fitKeys, tol);
      matchedFitTimestamps := matchedFitTimestamps + matchedHere;
      if m.Failure? {
        return Failure(m.error), matchedFitTimestamps;
      }
      consolidated := consolidated + [m.value];
    }
    assert csvKeys[..|csvKeys|] == csvKeys;
    assert plan[..|plan|] == plan;
    res := Success(consolidated);
  }

  /** One pass of the first loop of `consolidate`: merge the records of the CSV timestamp
      `csvKeys[i]` with the FIT records it absorbs. */
  method MergeCsvTimestamp(csvRecords: seq<RawWeightRecord>, csvKeys: seq<Timestamp>,
                           csvByTimestamp: map<Timestamp, seq<RawWeightRecord>>,
                           fitRecords: seq<RawWeightRecord>, fitKeys: seq<Timestamp>,
                           fitByTimestamp: map<Timestamp, seq<RawWeightRecord>>, i: nat,
                           config: ProcessingConfig, prims: IdPrimitives,
                           consolidated: seq<WeightMeasurement>)
    returns (m: Result<WeightMeasurement, MergeError>, matchedHere: set<Timestamp>)
    requires i < |csvKeys|
    requires forall k :: k in csvKeys ==> k in csvByTimestamp
                                          && csvByTimestamp[k] == Select(csvRecords, TimestampOf, k)
    requires forall k :: k in fitKeys ==> k in fitByTimestamp
                                          && fitByTimestamp[k] == Select(fitRecords, TimestampOf, k)
    requires var plan := CsvGroups(csvRecords, csvKeys, fitRecords, fitKeys, config.timestampToleranceSeconds);
             MergeAll(plan[..i], MergeGroupWith(config, prims)) == Success(consolidated)
    ensures matchedHere == MatchedSet([csvKeys[i]], fitKeys, config.timestampToleranceSeconds)
    ensures var plan := CsvGroups(csvRecords, csvKeys, fitRecords, fitKeys, config.timestampToleranceSeconds);
            m.Success? ==> MergeAll(plan[..i + 1], MergeGroupWith(config, prims)) == Success(consolidated + [m.value])
    ensures var plan := CsvGroups(csvRecords, csvKeys, fitRecords, fitKeys, config.timestampToleranceSeconds);
            m.Failure? ==> MergeAll(plan, MergeGroupWith(config, prims)) == Failure(m.error)
  {
    var tol := config.timestampToleranceSeconds;
    var csvTs := csvKeys[i];
    var matchedFitRecs;
    matchedFitRecs, matchedHere := CollectMatchingFit(csvTs, fitKeys, fitByTimestamp, fitRecords, tol);
    assert csvTs in csvKeys;
    m := MergeRecords(csvByTimestamp[csvTs], matchedFitRecs, config, prims);
    CsvLoopStep(csvRecords, csvKeys, csvByTimestamp, fitRecords, fitKeys, i, config, prims,
                consolidated, matchedFitRecs, m);
  }

  /** Distinct FIT keys leave distinct leftovers. */
  lemma {:induction false} LeftoversDistinct(fitKeys: seq<Timestamp>, csvKeys: seq<Timestamp>, tol: int)
    requires Distinct(fitKeys)
    ensures Distinct(Leftovers(fitKeys, csvKeys, tol))
  {
    if fitKeys != [] {
      var init := fitKeys[..|fitKeys| - 1];
      var last := fitKeys[|fitKeys| - 1];
      LeftoversDistinct(init, csvKeys, tol);
      assert last !in init;
      var ls := Leftovers(fitKeys, csvKeys, tol);
      var p := Leftovers(init, csvKeys, tol);
      if !MatchedByAny(csvKeys, last, tol) {
        assert ls == p + [last];
        assert last !in p;
        forall i, j | 0 <= i < j < |ls| ensures ls[i] != ls[j] {
          if j < |p| {
            assert ls[i] == p[i] && ls[j] == p[j];
          } else {
            assert ls[i] in p;
          }
        }
      }
    }
  }

  lemma LeftoversStep(fitKeys: seq<Timestamp>, csvKeys: seq<Timestamp>, tol: int, j: nat)
    requires j < |fitKeys|
    ensures Leftovers(fitKeys[..j + 1], csvKeys, tol)
            == Leftovers(fitKeys[..j], csvKeys, tol)
               + (if MatchedByAny(csvKeys, fitKeys[j], tol) then [] else [fitKeys[j]])
  {
    assert fitKeys[..j + 1][..j] == fitKeys[..j];
  }

  /** Once a prefix of the leftover FIT groups fails, so does the whole of them. */
  lemma LeftoverFailureSticks(fit: seq<RawWeightRecord>, fitKeys: seq<Timestamp>,
                              csvKeys: seq<Timestamp>, tol: int, j: nat,
                              merge: MergeGroup -> Result<WeightMeasurement, MergeError>)
    requires j <= |fitKeys|
    requires MergeAll(FitGroups(fit, Leftovers(fitKeys[..j], csvKeys, tol)), merge).Failure?
    ensures MergeAll(FitGroups(fit, Leftovers(fitKeys, csvKeys, tol)), merge)
            == MergeAll(FitGroups(fit, Leftovers(fitKeys[..j], csvKeys, tol)), merge)
  {
    assert fitKeys == fitKeys[..j] + fitKeys[j..];
    LeftoversAppend(fitKeys[..j], fitKeys[j..], csvKeys, tol);
    FitGroupsAppend(fit, Leftovers(fitKeys[..j], csvKeys, tol), Leftovers(fitKeys[j..], csvKeys, tol));
    MergeAllFailureSticks(FitGroups(fit, Leftovers(fitKeys[..j], csvKeys, tol)),
                          FitGroups(fit, Leftovers(fitKeys[j..], csvKeys, tol)), merge);
  }

  /** The leftover FIT groups of a prefix of the FIT keys grow by the next key's group
      exactly when no CSV timestamp matched that key. */
  lemma LeftoverGroupsStep(fitRecords: seq<RawWeightRecord>, fitKeys: seq<Timestamp>,
                           fitByTimestamp: map<Timestamp, seq<RawWeightRecord>>,
                           csvKeys: seq<Timestamp>, matchedFitTimestamps: set<Timestamp>, tol: int, j: nat)
    requires j < |fitKeys|
    requires forall k :: k in fitKeys ==> k in fitByTimestamp
                                          && fitByTimestamp[k] == Select(fitRecords, TimestampOf, k)
    requires matchedFitTimestamps == MatchedSet(csvKeys, fitKeys, tol)
    ensures fitKeys[j] in fitByTimestamp
    ensures fitKeys[j] in matchedFitTimestamps ==>
              FitGroups(fitRecords, Leftovers(fitKeys[..j + 1], csvKeys, tol))
              == FitGroups(fitRecords, Leftovers(fitKeys[..j], csvKeys, tol))
    ensures fitKeys[j] !in matchedFitTimestamps ==>
              FitGroups(fitRecords, Leftovers(fitKeys[..j + 1], csvKeys, tol))
              == FitGroups(fitRecords, Leftovers(fitKeys[..j], csvKeys, tol)) + [([], fitByTimestamp[fitKeys[j]])]
  {
    var fitTs := fitKeys[j];
    var before := Leftovers(fitKeys[..j], csvKeys, tol);
    LeftoversStep(fitKeys, csvKeys, tol, j);
    assert fitTs in fitKeys;
    if fitTs !in matchedFitTimestamps {
      assert !MatchedByAny(csvKeys, fitTs, tol);
      FitGroupsAppend(fitRecords, before, [fitTs]);
      assert FitGroups(fitRecords, [fitTs]) == [([], fitByTimestamp[fitTs])];
    } else {
      assert MatchedByAny(csvKeys, fitTs, tol);
    }
  }

  /** One iteration of the second loop of `consolidate`: a matched FIT timestamp is
      skipped; an unmatched one adds its merged group, and its failure is the outcome
      of all the leftover groups. */
  lemma LeftoverLoopStep(fitRecords: seq<RawWeightRecord>, fitKeys: seq<Timestamp>,
                         fitByTimestamp: map<Timestamp, seq<RawWeightRecord>>,
                         csvKeys: seq<Timestamp>, matchedFitTimestamps: set<Timestamp>, tol: int, j: nat,
                         merge: MergeGroup -> Result<WeightMeasurement, MergeError>,
                         added: seq<WeightMeasurement>)
    requires j < |fitKeys|
    requires forall k :: k in fitKeys ==> k in fitByTimestamp
                                          && fitByTimestamp[k] == Select(fitRecords, TimestampOf, k)
    requires matchedFitTimestamps == MatchedSet(csvKeys, fitKeys, tol)
    requires MergeAll(FitGroups(fitRecords, Leftovers(fitKeys[..j], csvKeys, tol)), merge) == Success(added)
    ensures fitKeys[j] in fitByTimestamp
    ensures fitKeys[j] in matchedFitTimestamps ==>
              MergeAll(FitGroups(fitRecords, Leftovers(fitKeys[..j + 1], csvKeys, tol)), merge) == Success(added)
    ensures fitKeys[j] !in matchedFitTimestamps && merge(([], fitByTimestamp[fitKeys[j]])).Success? ==>
              MergeAll(FitGroups(fitRecords, Leftovers(fitKeys[..j + 1], csvKeys, tol)), merge)
              == Success(added + [merge(([], fitByTimestamp[fitKeys[j]])).value])
    ensures fitKeys[j] !in matchedFitTimestamps && merge(([], fitByTimestamp[fitKeys[j]])).Failure? ==>
              MergeAll(FitGroups(fitRecords, Leftovers(fitKeys, csvKeys, tol)), merge)
              == Failure(merge(([], fitByTimestamp[fitKeys[j]])).error)
  {
    var done := FitGroups(fitRecords, Leftovers(fitKeys[..j], csvKeys, tol));
    LeftoverGroupsStep(fitRecords, fitKeys, fitByTimestamp, csvKeys, matchedFitTimestamps, tol, j);
    if fitKeys[j] !in matchedFitTimestamps {
      var g: MergeGroup := ([], fitByTimestamp[fitKeys[j]]);
      MergeAllSnoc(done, g, merge);
      if merge(g).Failure? {
        LeftoverFailureSticks(fitRecords, fitKeys, csvKeys, tol, j + 1, merge);
      }
    }
  }

  lemma AppendOne<T>(a: seq<T>, b: seq<T>, x: T)
    ensures (a + b) + [x] == a + (b + [x])
  {
  }

  /** The second loop of `consolidate`: every FIT timestamp that no CSV timestamp
      matched, in first-occurrence order, merged on its own and appended to `consolidated`. */
  method MergeLeftoverFit(consolidated: seq<WeightMeasurement>, csvKeys: seq<Timestamp>,
                          fitRecords: seq<RawWeightRecord>, fitKeys: seq<Timestamp>,
                          fitByTimestamp: map<Timestamp, seq<RawWeightRecord>>,
                          matchedFitTimestamps: set<Timestamp>,
                          config: ProcessingConfig, prims: IdPrimitives)
    returns (res: Result<seq<WeightMeasurement>, MergeError>)
    requires forall k :: k in fitKeys ==> k in fitByTimestamp
                                          && fitByTimestamp[k] == Select(fitRecords, TimestampOf, k)
    requires matchedFitTimestamps == MatchedSet(csvKeys, fitKeys, config.timestampToleranceSeconds)
    ensures res == match MergeAll(FitGroups(fitRecords, Leftovers(fitKeys, csvKeys,
                                                                  config.timestampToleranceSeconds)),
                                  MergeGroupWith(config, prims))
                   case Failure(e) => Failure(e)
                   case Success(ms) => Success(consolidated + ms)
  {
    var tol := config.timestampToleranceSeconds;
    ghost var merge := MergeGroupWith(config, prims);
    ghost var added: seq<WeightMeasurement> := [];
    var all := consolidated;
    for j := 0 to |fitKeys|
      invariant MergeAll(FitGroups(fitRecords, Leftovers(fitKeys[..j], csvKeys, tol)), merge) == Success(added)
      invariant all == consolidated + added
    {
      var fitTs := fitKeys[j];
      LeftoverLoopStep(fitRecords, fitKeys, fitByTimestamp, csvKeys, matchedFitTimestamps, tol, j, merge, added);
      if fitTs !in matchedFitTimestamps {
        var m := MergeRecords([], fitByTimestamp[fitTs], config, prims);
        assert m == merge(([], fitByTimestamp[fitTs]));
        if m.Failure? {
          return Failure(m.error);
        }
        AppendOne(consolidated, added, m.value);
        all := all + [m.value];
        added := added + [m.value];
      }
    }
    assert fitKeys[..|fitKeys|] == fitKeys;
    res := Success(all);
  }

  /** The grouping key of `_find_matching_records`. */
  function TimestampAndKind(r: RawWeightRecord): (Timestamp, SourceType)
  {
    (r.timestamp, r.sourceType)
  }

  /** `_find_matching_records`: the records grouped by timestamp and source type, keys in
      first-occurrence order; each group holds exactly the records of its key, in input
      order. The tolerance argument is accepted and not used. */
  method FindMatchingRecords(records: seq<RawWeightRecord>, toleranceSeconds: int)
    returns (keys: seq<(Timestamp, SourceType)>,
             grouped: map<(Timestamp, SourceType), seq<RawWeightRecord>>)
    ensures Distinct(keys)
    ensures forall k :: k in grouped <==> k in keys
    ensures forall k :: k in grouped <==> exists r :: r in records && TimestampAndKind(r) == k
    ensures forall k :: k in grouped ==>
              forall r :: r in grouped[k] <==> r in records && TimestampAndKind(r) == k
    ensures forall k :: k in grouped ==> grouped[k] == Select(records, TimestampAndKind, k)
  {
    keys, grouped := GroupBy(records, TimestampAndKind);
    forall k ensures k in grouped <==> exists r :: r in records && TimestampAndKind(r) == k {
      InMapSeq(records, TimestampAndKind, k);
    }
  }

  /** `consolidate`: groups each source by timestamp, merges every CSV timestamp with all
      FIT timestamps within the tolerance, then every FIT timestamp no CSV timestamp
      matched on its own, and sorts the measurements by timestamp. Any failed merge
      aborts the whole batch. */
  method Consolidate(rawRecords: seq<RawWeightRecord>, config: ProcessingConfig, prims: IdPrimitives)
    returns (res: Result<seq<WeightMeasurement>, ConsolidationError>)
    ensures res == ConsolidateSpec(rawRecords, config, prims)
  {
    var tol := config.timestampToleranceSeconds;
    var csvRecords := OfType(rawRecords, Csv);
    var fitRecords := OfType(rawRecords, Fit);
    var csvKeys, csvByTimestamp := GroupBy(csvRecords, TimestampOf);
    var fitKeys, fitByTimestamp := GroupBy(fitRecords, TimestampOf);
    ghost var csvPlan := CsvGroups(csvRecords, csvKeys, fitRecords, fitKeys, tol);
    ghost var fitPlan := FitGroups(fitRecords, Leftovers(fitKeys, csvKeys, tol));
    assert MergePlan(rawRecords, tol) == csvPlan + fitPlan;
    MergeAllConcat(csvPlan, fitPlan, MergeGroupWith(config, prims));

    var merged, matchedFitTimestamps := MergeCsvGroups(csvRecords, csvKeys, csvByTimestamp, fitRecords,
                                                       fitKeys, fitByTimestamp, config, prims);
    if merged.Failure? {
      return Failure(ConsolidationFailed(merged.error));
    }
    var consolidated := merged.value;
    merged := MergeLeftoverFit(consolidated, csvKeys, fitRecords, fitKeys, fitByTimestamp,
                               matchedFitTimestamps, config, prims);
    if merged.Failure? {
      return Failure(ConsolidationFailed(merged.error));
    }
    consolidated := merged.value;
    res := Success(SortByTimestamp(consolidated));
  }
}
