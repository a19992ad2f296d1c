// Properties of `ConsolidationService.consolidate` over a whole batch: which records
// end up in which merge group, how many measurements come out, their order, and when
// the batch fails.

module ConsolidationFacts {
  import opened Wrappers
  import opened Weight
  import opened TimezoneUtils
  import opened Grouping
  import opened Parameters
  import opened Hashing
  import opened Consolidation
  import opened ConsolidationBatch

  /** The distinct timestamps of the batch's records of kind `t`. */
  function TimestampsOfKind(raw: seq<RawWeightRecord>, t: SourceType): set<Timestamp>
  {
    set r | r in raw && r.sourceType == t :: r.timestamp
  }

  /** Some CSV record of the batch lies within the tolerance of `t`. */
  predicate NearCsv(raw: seq<RawWeightRecord>, t: Timestamp, tol: int)
  {
    exists c :: c in raw && c.sourceType == Csv && TimestampsMatch(c.timestamp, t, tol)
  }

  /** The FIT timestamps that no CSV timestamp matches: each becomes a FIT-only measurement. */
  function UnmatchedFitTimestamps(raw: seq<RawWeightRecord>, tol: int): set<Timestamp>
  {
    set r | r in raw && r.sourceType == Fit && !NearCsv(raw, r.timestamp, tol) :: r.timestamp
  }

  /** The key list of one source kind holds exactly that kind's timestamps, once each. */
  lemma KeysOfKind(raw: seq<RawWeightRecord>, t: SourceType)
    ensures Distinct(KeysOf(OfType(raw, t)))
    ensures forall k :: k in KeysOf(OfType(raw, t)) <==> k in TimestampsOfKind(raw, t)
  {
    forall k ensures k in KeysOf(OfType(raw, t)) <==> k in TimestampsOfKind(raw, t) {
      InMapSeq(OfType(raw, t), TimestampOf, k);
      if k in TimestampsOfKind(raw, t) {
        var r :| r in raw && r.sourceType == t && r.timestamp == k;
        assert r in OfType(raw, t);
      }
    }
  }

  /** A FIT timestamp counts as matched exactly when a CSV record lies within the tolerance. */
  lemma MatchedIffNear(raw: seq<RawWeightRecord>, t: Timestamp, tol: int)
    ensures MatchedByAny(CsvKeys(raw), t, tol) <==> NearCsv(raw, t, tol)
  {
    KeysOfKind(raw, Csv);
    if NearCsv(raw, t, tol) {
      var c :| c in raw && c.sourceType == Csv && TimestampsMatch(c.timestamp, t, tol);
      assert c.timestamp in TimestampsOfKind(raw, Csv);
    }
  }

  /** The leftover FIT timestamps are the unmatched ones, once each. */
  lemma LeftoversAreUnmatched(raw: seq<RawWeightRecord>, tol: int)
    ensures Distinct(Leftovers(FitKeys(raw), CsvKeys(raw), tol))
    ensures forall k :: k in Leftovers(FitKeys(raw), CsvKeys(raw), tol) <==> k in UnmatchedFitTimestamps(raw, tol)
  {
    KeysOfKind(raw, Fit);
    LeftoversDistinct(FitKeys(raw), CsvKeys(raw), tol);
    forall k ensures k in Leftovers(FitKeys(raw), CsvKeys(raw), tol) <==> k in UnmatchedFitTimestamps(raw, tol) {
      MatchedIffNear(raw, k, tol);
      if k in UnmatchedFitTimestamps(raw, tol) {
        var r :| r in raw && r.sourceType == Fit && !NearCsv(raw, r.timestamp, tol) && r.timestamp == k;
        assert k in TimestampsOfKind(raw, Fit);
      }
    }
  }

  /** The CSV keys, as a set, are the CSV timestamps. */
  lemma CsvKeySet(raw: seq<RawWeightRecord>)
    ensures KeySet(CsvKeys(raw)) == TimestampsOfKind(raw, Csv)
  {
    KeysOfKind(raw, Csv);
  }

  /** The leftover FIT keys, as a set, are the unmatched FIT timestamps. */
  lemma LeftoverKeySet(raw: seq<RawWeightRecord>, tol: int)
    ensures KeySet(Leftovers(FitKeys(raw), CsvKeys(raw), tol)) == UnmatchedFitTimestamps(raw, tol)
  {
    LeftoversAreUnmatched(raw, tol);
  }

  /** The merge plan: one group per distinct CSV timestamp, then one per unmatched FIT
      timestamp. */
  lemma PlanSize(raw: seq<RawWeightRecord>, tol: int)
    ensures |CsvPlan(raw, tol)| == |TimestampsOfKind(raw, Csv)|
    ensures |FitOnlyPlan(raw, tol)| == |UnmatchedFitTimestamps(raw, tol)|
  {
    KeysOfKind(raw, Csv);
    LeftoversAreUnmatched(raw, tol);
    CsvKeySet(raw);
    LeftoverKeySet(raw, tol);
    DistinctCard(CsvKeys(raw));
    DistinctCard(Leftovers(FitKeys(raw), CsvKeys(raw), tol));
  }

  /** Where a CSV record goes: into the CSV part of exactly one CSV group, the one of
      its own timestamp; FIT-only groups have no CSV part. */
  lemma CsvPlacement(raw: seq<RawWeightRecord>, tol: int, r: RawWeightRecord)
    requires r in raw && r.sourceType == Csv
    ensures forall i :: 0 <= i < |CsvPlan(raw, tol)| ==>
              (r in CsvPlan(raw, tol)[i].0 <==> CsvKeys(raw)[i] == r.timestamp)
    ensures exists i :: 0 <= i < |CsvPlan(raw, tol)| && r in CsvPlan(raw, tol)[i].0
    ensures forall g :: g in FitOnlyPlan(raw, tol) ==> g.0 == []
  {
    var csvKeys := CsvKeys(raw);
    KeysOfKind(raw, Csv);
    assert r.timestamp in TimestampsOfKind(raw, Csv);
    var i :| 0 <= i < |csvKeys| && csvKeys[i] == r.timestamp;
    assert r in OfType(raw, Csv);
    assert r in CsvPlan(raw, tol)[i].0;
  }

  /** A FIT record is absorbed by exactly the CSV groups within the tolerance of it. */
  lemma FitInCsvGroups(raw: seq<RawWeightRecord>, tol: int, r: RawWeightRecord)
    requires r in raw && r.sourceType == Fit
    ensures forall i :: 0 <= i < |CsvPlan(raw, tol)| ==>
              (r in CsvPlan(raw, tol)[i].1 <==> TimestampsMatch(CsvKeys(raw)[i], r.timestamp, tol))
  {
    KeysOfKind(raw, Fit);
    assert r in OfType(raw, Fit);
    assert r.timestamp in TimestampsOfKind(raw, Fit);
  }

  /** A FIT record lies in a FIT-only group exactly when that group is its timestamp's. */
  lemma FitInFitOnlyGroups(raw: seq<RawWeightRecord>, tol: int, r: RawWeightRecord)
    requires r in raw && r.sourceType == Fit
    ensures forall j :: 0 <= j < |FitOnlyPlan(raw, tol)| ==>
              (r in FitOnlyPlan(raw, tol)[j].1 <==> Leftovers(FitKeys(raw), CsvKeys(raw), tol)[j] == r.timestamp)
  {
    assert r in OfType(raw, Fit);
  }

  /** Where a FIT record goes: into every CSV group within the tolerance of its
      timestamp, and into exactly one FIT-only group when there is no such CSV group. */
  lemma FitPlacement(raw: seq<RawWeightRecord>, tol: int, r: RawWeightRecord)
    requires r in raw && r.sourceType == Fit
    ensures forall i :: 0 <= i < |CsvPlan(raw, tol)| ==>
              (r in CsvPlan(raw, tol)[i].1 <==> TimestampsMatch(CsvKeys(raw)[i], r.timestamp, tol))
    ensures NearCsv(raw, r.timestamp, tol) ==>
              forall j :: 0 <= j < |FitOnlyPlan(raw, tol)| ==> r !in FitOnlyPlan(raw, tol)[j].1
    ensures !NearCsv(raw, r.timestamp, tol) ==>
              exists j :: 0 <= j < |FitOnlyPlan(raw, tol)| && r in FitOnlyPlan(raw, tol)[j].1
    ensures forall j, k :: (0 <= j < |FitOnlyPlan(raw, tol)| && 0 <= k < |FitOnlyPlan(raw, tol)|
                            && r in FitOnlyPlan(raw, tol)[j].1 && r in FitOnlyPlan(raw, tol)[k].1) ==> j == k
  {
    var ls := Leftovers(FitKeys(raw), CsvKeys(raw), tol);
    FitInCsvGroups(raw, tol, r);
    FitInFitOnlyGroups(raw, tol, r);
    LeftoversAreUnmatched(raw, tol);
    assert r.timestamp in UnmatchedFitTimestamps(raw, tol) <==> !NearCsv(raw, r.timestamp, tol);
    if !NearCsv(raw, r.timestamp, tol) {
      var j :| 0 <= j < |ls| && ls[j] == r.timestamp;
      assert r in FitOnlyPlan(raw, tol)[j].1;
    }
  }

  /** Every group of the plan has at least one record, so `consolidate` never asks
      `_merge_records` to merge nothing. */
  lemma PlanGroupsNonEmpty(raw: seq<RawWeightRecord>, tol: int)
    ensures forall g :: g in MergePlan(raw, tol) ==> g.0 + g.1 != []
  {
    var csvKeys := CsvKeys(raw);
    var ls := Leftovers(FitKeys(raw), csvKeys, tol);
    forall i | 0 <= i < |CsvPlan(raw, tol)| ensures CsvPlan(raw, tol)[i].0 != [] {
      assert csvKeys[i] in csvKeys;
      SelectPresent(OfType(raw, Csv), TimestampOf, csvKeys[i]);
    }
    forall j | 0 <= j < |FitOnlyPlan(raw, tol)| ensures FitOnlyPlan(raw, tol)[j].1 != [] {
      assert ls[j] in ls;
      SelectPresent(OfType(raw, Fit), TimestampOf, ls[j]);
    }
  }

  /** `consolidate` succeeds exactly when every group of the plan merges; otherwise it
      reports, wrapped, the error of the first group that fails. */
  lemma ConsolidateOutcome(raw: seq<RawWeightRecord>, config: ProcessingConfig, prims: IdPrimitives)
    ensures var plan := MergePlan(raw, config.timestampToleranceSeconds);
            ConsolidateSpec(raw, config, prims).Success?
            <==> forall i :: 0 <= i < |plan| ==> MergeSpec(plan[i].0, plan[i].1, config, prims).Success?
    ensures var plan := MergePlan(raw, config.timestampToleranceSeconds);
            ConsolidateSpec(raw, config, prims).Failure? ==>
              exists i :: 0 <= i < |plan| && MergeSpec(plan[i].0, plan[i].1, config, prims).Failure?
                          && ConsolidateSpec(raw, config, prims).error
                             == ConsolidationFailed(MergeSpec(plan[i].0, plan[i].1, config, prims).error)
                          && forall j :: 0 <= j < i ==> MergeSpec(plan[j].0, plan[j].1, config, prims).Success?
  {
    var plan := MergePlan(raw, config.timestampToleranceSeconds);
    var merge := MergeGroupWith(config, prims);
    assert forall g :: merge(g) == MergeSpec(g.0, g.1, config, prims);
    MergeAllSuccess(plan, merge);
    if MergeAll(plan, merge).Failure? {
      MergeAllFirstFailure(plan, merge);
    }
  }

  /** Since no group is empty, `consolidate` never fails for lack of records. */
  lemma NeverNoRecords(raw: seq<RawWeightRecord>, config: ProcessingConfig, prims: IdPrimitives)
    ensures ConsolidateSpec(raw, config, prims) != Failure(ConsolidationFailed(NoRecords))
  {
    var plan := MergePlan(raw, config.timestampToleranceSeconds);
    var merge := MergeGroupWith(config, prims);
    PlanGroupsNonEmpty(raw, config.timestampToleranceSeconds);
    forall g | g in plan ensures merge(g) != Failure(NoRecords) {
      assert merge(g) == MergeSpec(g.0, g.1, config, prims);
      if merge(g).Failure? {
        MergeFailureCauses(g.0, g.1, config, prims);
      }
    }
    MergeAllAvoids(plan, merge, NoRecords);
  }

  /** A CSV timestamp that no FIT key is within the tolerance of absorbs nothing. */
  lemma {:induction false} NothingAbsorbed(fitKeys: seq<Timestamp>, fit: seq<RawWeightRecord>,
                                           csvTs: Timestamp, tol: int)
    requires forall k :: k in fitKeys ==> !TimestampsMatch(csvTs, k, tol)
    ensures AbsorbedFit(fitKeys, fit, csvTs, tol) == []
  {
    if fitKeys != [] {
      var init := fitKeys[..|fitKeys| - 1];
      assert fitKeys[|fitKeys| - 1] in fitKeys;
      NothingAbsorbed(init, fit, csvTs, tol);
    }
  }

  /** A CSV timestamp none of whose records has a weight, with no FIT record within the
      tolerance, makes the whole batch fail: the group is not skipped. */
  lemma WeightlessCsvAborts(raw: seq<RawWeightRecord>, config: ProcessingConfig, prims: IdPrimitives,
                            c: RawWeightRecord)
    requires c in raw && c.sourceType == Csv
    requires forall r :: r in raw && r.sourceType == Csv && r.timestamp == c.timestamp ==> WeightKg !in r.values
    requires forall r :: r in raw && r.sourceType == Fit
                         ==> !TimestampsMatch(c.timestamp, r.timestamp, config.timestampToleranceSeconds)
    ensures ConsolidateSpec(raw, config, prims).Failure?
  {
    var tol := config.timestampToleranceSeconds;
    var plan := MergePlan(raw, tol);
    CsvPlacement(raw, tol, c);
    var i :| 0 <= i < |CsvPlan(raw, tol)| && c in CsvPlan(raw, tol)[i].0;
    var g := CsvPlan(raw, tol)[i];
    assert plan[i] == g;
    assert g.0[0] in g.0;
    assert CsvKeys(raw)[i] == c.timestamp;
    KeysOfKind(raw, Fit);
    forall k | k in FitKeys(raw) ensures !TimestampsMatch(c.timestamp, k, tol) {
      assert k in TimestampsOfKind(raw, Fit);
    }
    NothingAbsorbed(FitKeys(raw), OfType(raw, Fit), c.timestamp, tol);
    assert g.1 == [];
    MissingWeightExactly(g.0, g.1, config, prims);
    ConsolidateOutcome(raw, config, prims);
  }

  /** The output is sorted by timestamp and holds the merged groups' measurements,
      keeping plan order among equal timestamps. */
  lemma ConsolidateOrdered(raw: seq<RawWeightRecord>, config: ProcessingConfig, prims: IdPrimitives)
    requires ConsolidateSpec(raw, config, prims).Success?
    ensures var out := ConsolidateSpec(raw, config, prims).value;
            var merged := MergeAll(MergePlan(raw, config.timestampToleranceSeconds), MergeGroupWith(config, prims)).value;
            && SortedByTimestamp(out)
            && multiset(out) == multiset(merged)
            && forall t :: WithTimestamp(out, t) == WithTimestamp(merged, t)
  {
    var merged := MergeAll(MergePlan(raw, config.timestampToleranceSeconds), MergeGroupWith(config, prims)).value;
    SortByTimestampSpec(merged);
  }

  /** The number of measurements: the distinct CSV timestamps plus the distinct FIT
      timestamps no CSV timestamp matches. */
  lemma ConsolidateCount(raw: seq<RawWeightRecord>, config: ProcessingConfig, prims: IdPrimitives)
    requires ConsolidateSpec(raw, config, prims).Success?
    ensures |ConsolidateSpec(raw, config, prims).value|
            == |TimestampsOfKind(raw, Csv)| + |UnmatchedFitTimestamps(raw, config.timestampToleranceSeconds)|
  {
    PlanSize(raw, config.timestampToleranceSeconds);
  }

  function TimestampOfMeasurement(m: WeightMeasurement): Timestamp { m.timestamp }

  /** The timestamp `_merge_records` gives a group's measurement: its first record's. */
  function GroupTimestamp(g: MergeGroup): Timestamp
  {
    if g.0 != [] then g.0[0].timestamp else if g.1 != [] then g.1[0].timestamp else 0
  }

  /** Each CSV group starts with a record of its own CSV timestamp. */
  lemma CsvPlanHeads(raw: seq<RawWeightRecord>, tol: int)
    ensures forall i :: 0 <= i < |CsvPlan(raw, tol)| ==> GroupTimestamp(CsvPlan(raw, tol)[i]) == CsvKeys(raw)[i]
  {
    var csvKeys := CsvKeys(raw);
    forall i | 0 <= i < |CsvPlan(raw, tol)| ensures GroupTimestamp(CsvPlan(raw, tol)[i]) == csvKeys[i] {
      assert csvKeys[i] in csvKeys;
      SelectPresent(OfType(raw, Csv), TimestampOf, csvKeys[i]);
    }
  }

  /** Each FIT-only group starts with a record of its own FIT timestamp. */
  lemma FitOnlyPlanHeads(raw: seq<RawWeightRecord>, tol: int)
    ensures forall j :: 0 <= j < |FitOnlyPlan(raw, tol)| ==>
              GroupTimestamp(FitOnlyPlan(raw, tol)[j]) == Leftovers(FitKeys(raw), CsvKeys(raw), tol)[j]
  {
    var ls := Leftovers(FitKeys(raw), CsvKeys(raw), tol);
    forall j | 0 <= j < |FitOnlyPlan(raw, tol)| ensures GroupTimestamp(FitOnlyPlan(raw, tol)[j]) == ls[j] {
      assert ls[j] in ls;
      SelectPresent(OfType(raw, Fit), TimestampOf, ls[j]);
    }
  }

  /** The groups of the plan, in order, carry the CSV timestamps and then the leftover
      FIT timestamps. */
  lemma PlanHeads(raw: seq<RawWeightRecord>, tol: int)
    ensures MapSeq(MergePlan(raw, tol), GroupTimestamp) == CsvKeys(raw) + Leftovers(FitKeys(raw), CsvKeys(raw), tol)
  {
    CsvPlanHeads(raw, tol);
    FitOnlyPlanHeads(raw, tol);
    var n := |CsvPlan(raw, tol)|;
    forall i | 0 <= i < |MergePlan(raw, tol)|
      ensures GroupTimestamp(MergePlan(raw, tol)[i]) == (CsvKeys(raw) + Leftovers(FitKeys(raw), CsvKeys(raw), tol))[i]
    {
      if i >= n {
        assert MergePlan(raw, tol)[i] == FitOnlyPlan(raw, tol)[i - n];
      }
    }
  }

  /** Before sorting, the measurements carry the CSV timestamps in first-occurrence
      order, then the unmatched FIT timestamps. */
  lemma PlanTimestamps(raw: seq<RawWeightRecord>, config: ProcessingConfig, prims: IdPrimitives)
    requires MergeAll(MergePlan(raw, config.timestampToleranceSeconds), MergeGroupWith(config, prims)).Success?
    ensures var tol := config.timestampToleranceSeconds;
            MapSeq(MergeAll(MergePlan(raw, tol), MergeGroupWith(config, prims)).value, TimestampOfMeasurement)
            == CsvKeys(raw) + Leftovers(FitKeys(raw), CsvKeys(raw), tol)
  {
    var tol := config.timestampToleranceSeconds;
    var plan := MergePlan(raw, tol);
    var merge := MergeGroupWith(config, prims);
    var merged := MergeAll(plan, merge).value;
    PlanHeads(raw, tol);
    MergeAllSuccess(plan, merge);
    forall i | 0 <= i < |plan| ensures merged[i].timestamp == GroupTimestamp(plan[i]) {
      assert merge(plan[i]) == MergeSpec(plan[i].0, plan[i].1, config, prims);
      MergeLineage(plan[i].0, plan[i].1, config, prims);
    }
    assert MapSeq(merged, TimestampOfMeasurement) == MapSeq(plan, GroupTimestamp);
  }

  /** Reordering measurements does not change their set of timestamps. */
  lemma TimesOfPermutation(a: seq<WeightMeasurement>, b: seq<WeightMeasurement>)
    requires multiset(a) == multiset(b)
    ensures (set m | m in a :: m.timestamp) == (set m | m in b :: m.timestamp)
  {
    forall m ensures m in a <==> m in b {
      assert m in a <==> m in multiset(a);
      assert m in b <==> m in multiset(b);
    }
  }

  lemma TimesAsKeys(ms: seq<WeightMeasurement>)
    ensures (set m | m in ms :: m.timestamp) == KeySet(MapSeq(ms, TimestampOfMeasurement))
  {
    forall t | t in MapSeq(ms, TimestampOfMeasurement) ensures exists m :: m in ms && m.timestamp == t {
      InMapSeq(ms, TimestampOfMeasurement, t);
    }
  }

  /** The CSV keys and the leftover FIT keys are the CSV timestamps and the unmatched
      FIT timestamps. */
  lemma KeysAreTimestamps(raw: seq<RawWeightRecord>, tol: int)
    ensures KeySet(CsvKeys(raw) + Leftovers(FitKeys(raw), CsvKeys(raw), tol))
            == TimestampsOfKind(raw, Csv) + UnmatchedFitTimestamps(raw, tol)
  {
    KeySetAppend(CsvKeys(raw), Leftovers(FitKeys(raw), CsvKeys(raw), tol));
    CsvKeySet(raw);
    LeftoverKeySet(raw, tol);
  }

  /** The output's timestamps are exactly the CSV timestamps and the unmatched FIT
      timestamps. */
  lemma ConsolidateTimestamps(raw: seq<RawWeightRecord>, config: ProcessingConfig, prims: IdPrimitives)
    requires ConsolidateSpec(raw, config, prims).Success?
    ensures (set m | m in ConsolidateSpec(raw, config, prims).value :: m.timestamp)
            == TimestampsOfKind(raw, Csv) + UnmatchedFitTimestamps(raw, config.timestampToleranceSeconds)
  {
    var tol := config.timestampToleranceSeconds;
    var merged := MergeAll(MergePlan(raw, tol), MergeGroupWith(config, prims)).value;
    ConsolidateOrdered(raw, config, prims);
    TimesOfPermutation(ConsolidateSpec(raw, config, prims).value, merged);
    TimesAsKeys(merged);
    PlanTimestamps(raw, config, prims);
    KeysAreTimestamps(raw, tol);
  }
}
