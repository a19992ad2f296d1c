/** The comparison service: for one pair of exported files, how many readings the two
    exports share, how many only one side has, how often the shared readings disagree
    beyond the numeric tolerance, and the mean absolute weight difference; and the same
    for every file pair of a batch. */
module Comparison {
  import opened Wrappers
  import opened Weight
  import opened Parameters
  import opened TimezoneUtils
  import opened Grouping
  import opened ComparisonPairing
  import Consolidation

  /** `ComparisonResult` as `_compare_pair` leaves it. `mismatches` holds a key only once
      it has been incremented, as the `defaultdict` does. */
  datatype ComparisonResult = ComparisonResult(
    csvFileName: string,
    fitFileName: string,
    csvDriveId: string,
    fitDriveId: string,
    csvOnlyCount: nat,
    fitOnlyCount: nat,
    bothCount: nat,
    mismatches: map<Field, nat>,
    csvMinTimestamp: Option<Timestamp>,
    csvMaxTimestamp: Option<Timestamp>,
    fitMinTimestamp: Option<Timestamp>,
    fitMaxTimestamp: Option<Timestamp>,
    weightMae: Option<real>)

  /** The fields besides the weight that a matched pair is checked on, in order. */
  const ComparedFields: seq<Field> := [BodyFatPct, FatMassKg, FatFreePct, FatFreeMassKg]

  // ---------------------------------------------------------------------------------
  // Matching readings
  // ---------------------------------------------------------------------------------

  /** The index of the first FIT record within tolerance of `ts`, where the inner loop
      of `_compare_pair` breaks. */
  function FirstMatch(ts: Timestamp, fit: seq<RawWeightRecord>, tol: int): (j: Option<nat>)
    ensures j.Some? ==> j.value < |fit| && TimestampsMatch(ts, fit[j.value].timestamp, tol)
    ensures j.Some? ==> forall k :: 0 <= k < j.value ==> !TimestampsMatch(ts, fit[k].timestamp, tol)
    ensures j.None? ==> forall k :: 0 <= k < |fit| ==> !TimestampsMatch(ts, fit[k].timestamp, tol)
  {
    if fit == [] then None
    else if TimestampsMatch(ts, fit[0].timestamp, tol) then Some(0)
    else
      match FirstMatch(ts, fit[1..], tol)
      case None => None
      case Some(j) => Some(j + 1)
  }

  /** A CSV record and the FIT record it was matched with. */
  type MatchedPair = (RawWeightRecord, RawWeightRecord)

  /** The matched pairs of a CSV file against a FIT file, in CSV order. */
  function MatchedPairs(csv: seq<RawWeightRecord>, fit: seq<RawWeightRecord>, tol: int): (ps: seq<MatchedPair>)
    ensures |ps| <= |csv|
  {
    if csv == [] then []
    else
      var init, last := csv[..|csv| - 1], csv[|csv| - 1];
      assert csv == init + [last];
      MatchedPairs(init, fit, tol)
      + (match FirstMatch(last.timestamp, fit, tol)
         case None => []
         case Some(j) => [(last, fit[j])])
  }

  /** The CSV records with no FIT record within tolerance. */
  function CsvOnly(csv: seq<RawWeightRecord>, fit: seq<RawWeightRecord>, tol: int): (rs: seq<RawWeightRecord>)
  {
    if csv == [] then []
    else
      var init, last := csv[..|csv| - 1], csv[|csv| - 1];
      assert csv == init + [last];
      CsvOnly(init, fit, tol) + (if FirstMatch(last.timestamp, fit, tol).None? then [last] else [])
  }

  /** Each matched pair is a CSV record with the first FIT record within tolerance of it. */
  lemma {:induction false} MatchedPairsAreFirstMatches(csv: seq<RawWeightRecord>, fit: seq<RawWeightRecord>, tol: int)
    ensures forall p :: p in MatchedPairs(csv, fit, tol) ==>
              && p.0 in csv
              && exists j :: FirstMatch(p.0.timestamp, fit, tol) == Some(j) && p.1 == fit[j]
  {
    if csv != [] {
      var init, last := csv[..|csv| - 1], csv[|csv| - 1];
      assert csv == init + [last];
      MatchedPairsAreFirstMatches(init, fit, tol);
    }
  }

  /** A CSV record is CSV-only exactly when no FIT record is within tolerance of it. */
  lemma {:induction false} CsvOnlyExactly(csv: seq<RawWeightRecord>, fit: seq<RawWeightRecord>, tol: int)
    ensures forall r :: r in CsvOnly(csv, fit, tol) <==>
              r in csv && forall k :: 0 <= k < |fit| ==> !TimestampsMatch(r.timestamp, fit[k].timestamp, tol)
  {
    if csv != [] {
      var init, last := csv[..|csv| - 1], csv[|csv| - 1];
      assert csv == init + [last];
      CsvOnlyExactly(init, fit, tol);
    }
  }

  /** Every CSV record is either matched or CSV-only: `both_count + csv_only_count` is the
      number of CSV records. */
  lemma {:induction false} MatchedOrCsvOnly(csv: seq<RawWeightRecord>, fit: seq<RawWeightRecord>, tol: int)
    ensures |MatchedPairs(csv, fit, tol)| + |CsvOnly(csv, fit, tol)| == |csv|
  {
    if csv != [] {
      MatchedOrCsvOnly(csv[..|csv| - 1], fit, tol);
    }
  }

  /** `matched_fit_indices`: the FIT indices that the CSV records matched first, added in
      CSV order. */
  function MatchedIndices(csv: seq<RawWeightRecord>, fit: seq<RawWeightRecord>, tol: int): set<nat>
  {
    if csv == [] then {}
    else
      MatchedIndices(csv[..|csv| - 1], fit, tol)
      + (match FirstMatch(csv[|csv| - 1].timestamp, fit, tol) case None => {} case Some(j) => {j})
  }

  /** The first match of every CSV record is a matched index. */
  lemma {:induction false} FirstMatchIsMatched(csv: seq<RawWeightRecord>, fit: seq<RawWeightRecord>, tol: int, i: nat)
    requires i < |csv| && FirstMatch(csv[i].timestamp, fit, tol).Some?
    ensures FirstMatch(csv[i].timestamp, fit, tol).value in MatchedIndices(csv, fit, tol)
  {
    var n := |csv| - 1;
    if i < n {
      assert csv[..n][i] == csv[i];
      FirstMatchIsMatched(csv[..n], fit, tol, i);
    }
  }

  /** Every matched index is the first match of some CSV record. */
  lemma {:induction false} MatchedIsFirstMatch(csv: seq<RawWeightRecord>, fit: seq<RawWeightRecord>, tol: int, j: nat)
    requires j in MatchedIndices(csv, fit, tol)
    ensures exists i :: 0 <= i < |csv| && FirstMatch(csv[i].timestamp, fit, tol) == Some(j)
  {
    var n := |csv| - 1;
    if FirstMatch(csv[n].timestamp, fit, tol) != Some(j) {
      MatchedIsFirstMatch(csv[..n], fit, tol, j);
      var i :| 0 <= i < n && FirstMatch(csv[..n][i].timestamp, fit, tol) == Some(j);
      assert csv[..n][i] == csv[i];
    }
  }

  lemma MatchedIndicesSnoc(csv: seq<RawWeightRecord>, i: nat, fit: seq<RawWeightRecord>, tol: int)
    requires i < |csv|
    ensures MatchedIndices(csv[..i + 1], fit, tol)
            == MatchedIndices(csv[..i], fit, tol)
               + (match FirstMatch(csv[i].timestamp, fit, tol) case None => {} case Some(j) => {j})
  {
    assert csv[..i + 1][..i] == csv[..i];
  }

  /** The matched indices are indices of the FIT file, and there are no more of them than
      matched CSV records (two CSV records may match the same FIT record). */
  lemma {:induction false} MatchedIndicesBound(csv: seq<RawWeightRecord>, fit: seq<RawWeightRecord>, tol: int)
    ensures forall j :: j in MatchedIndices(csv, fit, tol) ==> j < |fit|
    ensures |MatchedIndices(csv, fit, tol)| <= |MatchedPairs(csv, fit, tol)|
  {
    if csv != [] {
      var n := |csv| - 1;
      MatchedIndicesBound(csv[..n], fit, tol);
    }
  }

  /** `fit_only_count`: the indices below `n` that are not in `matched`. */
  function UnmatchedCount(n: nat, matched: set<nat>): nat
  {
    if n == 0 then 0 else UnmatchedCount(n - 1, matched) + (if n - 1 in matched then 0 else 1)
  }

  /** The indices below `n` split into the matched and the unmatched ones. */
  lemma {:induction false} UnmatchedComplement(n: nat, matched: set<nat>)
    ensures UnmatchedCount(n, matched) + |set j | j in matched && j < n| == n
  {
    if n > 0 {
      UnmatchedComplement(n - 1, matched);
      var below := set j | j in matched && j < n - 1;
      if n - 1 in matched {
        assert (set j | j in matched && j < n) == below + {n - 1};
      } else {
        assert (set j | j in matched && j < n) == below;
      }
    }
  }

  /** Every FIT record is either matched or FIT-only. */
  lemma FitOnlyOrMatched(csv: seq<RawWeightRecord>, fit: seq<RawWeightRecord>, tol: int)
    ensures UnmatchedCount(|fit|, MatchedIndices(csv, fit, tol)) + |MatchedIndices(csv, fit, tol)| == |fit|
  {
    var matched := MatchedIndices(csv, fit, tol);
    MatchedIndicesBound(csv, fit, tol);
    UnmatchedComplement(|fit|, matched);
    assert (set j | j in matched && j < |fit|) == matched;
  }

  // ---------------------------------------------------------------------------------
  // Disagreements of a matched pair
  // ---------------------------------------------------------------------------------

  /** Python truthiness of an optional float: present and non-zero. */
  predicate Truthy(v: Option<real>)
  {
    v.Some? && v.value != 0.0
  }

  /** The absolute weight difference of a matched pair, when both weights are truthy. */
  function WeightDiff(c: RawWeightRecord, r: RawWeightRecord): Option<real>
  {
    if Truthy(c.Get(WeightKg)) && Truthy(r.Get(WeightKg)) then
      Some(Consolidation.AbsReal(c.Get(WeightKg).value - r.Get(WeightKg).value))
    else None
  }

  /** Whether a matched pair counts as a mismatch on field `f`: the weight when both are
      truthy and differ by more than `tol`, the four compared fields when both are present
      and differ by more than `tol`, no other field. */
  predicate Disagrees(c: RawWeightRecord, r: RawWeightRecord, f: Field, tol: real)
  {
    if f == WeightKg then WeightDiff(c, r).Some? && WeightDiff(c, r).value > tol
    else f in ComparedFields && c.Get(f).Some? && r.Get(f).Some?
         && Consolidation.AbsReal(c.Get(f).value - r.Get(f).value) > tol
  }

  /** The compared fields of `fields` on which the pair disagrees, in order. */
  function FieldMismatches(c: RawWeightRecord, r: RawWeightRecord, tol: real, fields: seq<Field>): seq<Field>
  {
    if fields == [] then []
    else
      var init, last := fields[..|fields| - 1], fields[|fields| - 1];
      assert fields == init + [last];
      FieldMismatches(c, r, tol, init)
      + (if last != WeightKg && Disagrees(c, r, last, tol) then [last] else [])
  }

  /** The fields a matched pair increments in `mismatches`, in the order they are checked. */
  function PairMismatches(c: RawWeightRecord, r: RawWeightRecord, tol: real): seq<Field>
  {
    (if Disagrees(c, r, WeightKg, tol) then [WeightKg] else []) + FieldMismatches(c, r, tol, ComparedFields)
  }

  /** A pair increments each field it disagrees on, and each only once. */
  lemma PairMismatchesExactly(c: RawWeightRecord, r: RawWeightRecord, tol: real)
    ensures forall f :: f in PairMismatches(c, r, tol) <==> Disagrees(c, r, f, tol)
    ensures Distinct(PairMismatches(c, r, tol))
  {
    var w := if Disagrees(c, r, WeightKg, tol) then [WeightKg] else [];
    var fs := FieldMismatches(c, r, tol, ComparedFields);
    assert PairMismatches(c, r, tol) == w + fs;
    FieldMismatchesExactly(c, r, tol, ComparedFields);
    forall i, j | 0 <= i < j < |w + fs| ensures (w + fs)[i] != (w + fs)[j] {
      if i < |w| {
        assert (w + fs)[j] in fs;
      }
    }
  }

  /** The compared fields a pair disagrees on, each once. */
  lemma {:induction false} FieldMismatchesExactly(c: RawWeightRecord, r: RawWeightRecord, tol: real, fields: seq<Field>)
    requires Distinct(fields)
    ensures forall f :: f in FieldMismatches(c, r, tol, fields) <==> f in fields && f != WeightKg && Disagrees(c, r, f, tol)
    ensures Distinct(FieldMismatches(c, r, tol, fields))
  {
    if fields != [] {
      var init, last := fields[..|fields| - 1], fields[|fields| - 1];
      assert fields == init + [last];
      assert Distinct(init) by {
        assert forall i, j :: 0 <= i < j < |init| ==> init[i] == fields[i] && init[j] == fields[j];
      }
      FieldMismatchesExactly(c, r, tol, init);
      assert last !in init by {
        forall k | 0 <= k < |init| ensures init[k] != last {
          assert init[k] == fields[k];
        }
      }
      var fs := FieldMismatches(c, r, tol, init);
      if last != WeightKg && Disagrees(c, r, last, tol) {
        DistinctSnoc(fs, last);
      }
    }
  }

  // ---------------------------------------------------------------------------------
  // The `mismatches` counter
  // ---------------------------------------------------------------------------------

  /** `mismatches[f]` as the `defaultdict` reads it. */
  function Count(m: map<Field, nat>, f: Field): nat
  {
    if f in m then m[f] else 0
  }

  /** `mismatches[f] += 1`. */
  function Bump(m: map<Field, nat>, f: Field): map<Field, nat>
  {
    m[f := Count(m, f) + 1]
  }

  /** Increment each field of `fs` in turn. */
  function BumpAll(m: map<Field, nat>, fs: seq<Field>): map<Field, nat>
  {
    if fs == [] then m else Bump(BumpAll(m, fs[..|fs| - 1]), fs[|fs| - 1])
  }

  /** Incrementing distinct fields adds one to each of them and creates no other key. */
  lemma {:induction false} BumpAllCount(m: map<Field, nat>, fs: seq<Field>)
    requires Distinct(fs)
    ensures forall f :: f in BumpAll(m, fs) <==> f in m || f in fs
    ensures forall f :: Count(BumpAll(m, fs), f) == Count(m, f) + (if f in fs then 1 else 0)
  {
    if fs != [] {
      var init, last := fs[..|fs| - 1], fs[|fs| - 1];
      assert fs == init + [last];
      assert Distinct(init) by {
        assert forall i, j :: 0 <= i < j < |init| ==> init[i] == fs[i] && init[j] == fs[j];
      }
      assert last !in init by {
        forall k | 0 <= k < |init| ensures init[k] != last {
          assert init[k] == fs[k];
        }
      }
      BumpAllCount(m, init);
    }
  }

  lemma {:induction false} BumpAllAppend(m: map<Field, nat>, fs: seq<Field>, gs: seq<Field>)
    ensures BumpAll(m, fs + gs) == BumpAll(BumpAll(m, fs), gs)
  {
    if gs != [] {
      var init, last := gs[..|gs| - 1], gs[|gs| - 1];
      assert (fs + gs)[..|fs + gs| - 1] == fs + init;
      assert (fs + gs)[|fs + gs| - 1] == last;
      BumpAllAppend(m, fs, init);
    } else {
      assert fs + gs == fs;
    }
  }

  /** How many matched pairs disagree on `f`. */
  function MismatchCount(ps: seq<MatchedPair>, f: Field, tol: real): (n: nat)
    ensures n <= |ps|
  {
    if ps == [] then 0
    else
      var last := ps[|ps| - 1];
      MismatchCount(ps[..|ps| - 1], f, tol) + (if Disagrees(last.0, last.1, f, tol) then 1 else 0)
  }

  /** The `mismatches` table after a list of matched pairs: each pair increments the
      fields it disagrees on. */
  function Mismatches(ps: seq<MatchedPair>, tol: real): map<Field, nat>
  {
    if ps == [] then map[]
    else
      var last := ps[|ps| - 1];
      BumpAll(Mismatches(ps[..|ps| - 1], tol), PairMismatches(last.0, last.1, tol))
  }

  /** The table counts, for each field, the matched pairs that disagree on it, and holds
      exactly the fields with a positive count. */
  lemma {:induction false} MismatchesCount(ps: seq<MatchedPair>, tol: real)
    ensures forall f :: Count(Mismatches(ps, tol), f) == MismatchCount(ps, f, tol)
    ensures forall f :: f in Mismatches(ps, tol) <==> MismatchCount(ps, f, tol) > 0
  {
    if ps != [] {
      var init, last := ps[..|ps| - 1], ps[|ps| - 1];
      MismatchesCount(init, tol);
      PairMismatchesExactly(last.0, last.1, tol);
      BumpAllCount(Mismatches(init, tol), PairMismatches(last.0, last.1, tol));
    }
  }

  /** Every counted field was compared, and its count is at most the number of matched pairs. */
  lemma MismatchesBound(ps: seq<MatchedPair>, tol: real)
    ensures forall f :: f in Mismatches(ps, tol) ==> f == WeightKg || f in ComparedFields
    ensures forall f :: f in Mismatches(ps, tol) ==> 0 < Mismatches(ps, tol)[f] <= |ps|
  {
    MismatchesCount(ps, tol);
    forall f | f in Mismatches(ps, tol) ensures f == WeightKg || f in ComparedFields {
      if f != WeightKg && f !in ComparedFields {
        NoMismatchOutsideCompared(ps, f, tol);
      }
    }
    forall f | f in Mismatches(ps, tol) ensures 0 < Mismatches(ps, tol)[f] <= |ps| {
      assert Count(Mismatches(ps, tol), f) == MismatchCount(ps, f, tol);
    }
  }

  lemma {:induction false} NoMismatchOutsideCompared(ps: seq<MatchedPair>, f: Field, tol: real)
    requires f != WeightKg && f !in ComparedFields
    ensures MismatchCount(ps, f, tol) == 0
  {
    if ps != [] {
      NoMismatchOutsideCompared(ps[..|ps| - 1], f, tol);
    }
  }

  // ---------------------------------------------------------------------------------
  // Weight differences and timestamp ranges
  // ---------------------------------------------------------------------------------

  /** `weight_differences`: the weight difference of each matched pair whose two weights
      are truthy, in order. */
  function WeightDiffs(ps: seq<MatchedPair>): seq<real>
  {
    if ps == [] then []
    else
      var last := ps[|ps| - 1];
      WeightDiffs(ps[..|ps| - 1])
      + (match WeightDiff(last.0, last.1) case None => [] case Some(d) => [d])
  }

  function Sum(xs: seq<real>): real
  {
    if xs == [] then 0.0 else Sum(xs[..|xs| - 1]) + xs[|xs| - 1]
  }

  /** `sum(xs) / len(xs)` when `xs` is not empty. */
  function Mean(xs: seq<real>): Option<real>
  {
    if xs == [] then None else Some(Sum(xs) / |xs| as real)
  }

  /** A mean of non-negative numbers is non-negative and at most their largest. */
  lemma MeanBounds(xs: seq<real>, hi: real)
    requires forall i :: 0 <= i < |xs| ==> 0.0 <= xs[i] <= hi
    ensures Mean(xs).Some? <==> xs != []
    ensures Mean(xs).Some? ==> 0.0 <= Mean(xs).value <= hi
  {
    if xs != [] {
      SumBounds(xs, hi);
    }
  }

  lemma {:induction false} SumBounds(xs: seq<real>, hi: real)
    requires forall i :: 0 <= i < |xs| ==> 0.0 <= xs[i] <= hi
    ensures 0.0 <= Sum(xs) <= hi * |xs| as real
  {
    if xs != [] {
      SumBounds(xs[..|xs| - 1], hi);
    }
  }

  /** `min(r.timestamp for r in rs)`, None for no records. */
  function MinTimestamp(rs: seq<RawWeightRecord>): Option<Timestamp>
  {
    if rs == [] then None
    else
      match MinTimestamp(rs[1..])
      case None => Some(rs[0].timestamp)
      case Some(t) => Some(if rs[0].timestamp <= t then rs[0].timestamp else t)
  }

  /** `max(r.timestamp for r in rs)`, None for no records. */
  function MaxTimestamp(rs: seq<RawWeightRecord>): Option<Timestamp>
  {
    if rs == [] then None
    else
      match MaxTimestamp(rs[1..])
      case None => Some(rs[0].timestamp)
      case Some(t) => Some(if rs[0].timestamp >= t then rs[0].timestamp else t)
  }

  /** The minimum is present exactly for a non-empty side, is the timestamp of one of its
      records, and is at most every one of them. */
  lemma {:induction false} MinTimestampIsLeast(rs: seq<RawWeightRecord>)
    ensures MinTimestamp(rs).Some? <==> rs != []
    ensures MinTimestamp(rs).Some? ==> exists i :: 0 <= i < |rs| && rs[i].timestamp == MinTimestamp(rs).value
    ensures MinTimestamp(rs).Some? ==> forall i :: 0 <= i < |rs| ==> MinTimestamp(rs).value <= rs[i].timestamp
  {
    if rs != [] {
      MinTimestampIsLeast(rs[1..]);
      assert forall i :: 1 <= i < |rs| ==> rs[i] == rs[1..][i - 1];
      if MinTimestamp(rs[1..]).Some? {
        var i :| 0 <= i < |rs[1..]| && rs[1..][i].timestamp == MinTimestamp(rs[1..]).value;
        assert rs[i + 1] == rs[1..][i];
      }
    }
  }

  /** The maximum is present exactly for a non-empty side, is the timestamp of one of its
      records, and is at least every one of them. */
  lemma {:induction false} MaxTimestampIsGreatest(rs: seq<RawWeightRecord>)
    ensures MaxTimestamp(rs).Some? <==> rs != []
    ensures MaxTimestamp(rs).Some? ==> exists i :: 0 <= i < |rs| && rs[i].timestamp == MaxTimestamp(rs).value
    ensures MaxTimestamp(rs).Some? ==> forall i :: 0 <= i < |rs| ==> rs[i].timestamp <= MaxTimestamp(rs).value
  {
    if rs != [] {
      MaxTimestampIsGreatest(rs[1..]);
      assert forall i :: 1 <= i < |rs| ==> rs[i] == rs[1..][i - 1];
      if MaxTimestamp(rs[1..]).Some? {
        var i :| 0 <= i < |rs[1..]| && rs[1..][i].timestamp == MaxTimestamp(rs[1..]).value;
        assert rs[i + 1] == rs[1..][i];
      }
    }
  }

  /** The file name of the first record, or "N/A" for an empty side. */
  function FileNameOr(rs: seq<RawWeightRecord>): string
  {
    if rs != [] then rs[0].sourceFileName else "N/A"
  }

  /** The Drive id of the first record, or "N/A" for an empty side. */
  function DriveIdOr(rs: seq<RawWeightRecord>): string
  {
    if rs != [] then rs[0].sourceFileId else "N/A"
  }

  // ---------------------------------------------------------------------------------
  // One file pair
  // ---------------------------------------------------------------------------------

  /** What `_compare_pair` returns for a CSV file and a FIT file. */
  function ComparisonOf(csv: seq<RawWeightRecord>, fit: seq<RawWeightRecord>, config: ProcessingConfig): ComparisonResult
  {
    var tol := config.timestampToleranceSeconds;
    var ps := MatchedPairs(csv, fit, tol);
    ComparisonResult(
      FileNameOr(csv), FileNameOr(fit), DriveIdOr(csv), DriveIdOr(fit),
      |CsvOnly(csv, fit, tol)|,
      UnmatchedCount(|fit|, MatchedIndices(csv, fit, tol)),
      |ps|,
      Mismatches(ps, config.numericTolerance),
      MinTimestamp(csv), MaxTimestamp(csv), MinTimestamp(fit), MaxTimestamp(fit),
      Mean(WeightDiffs(ps)))
  }

  /** The counters of one comparison add up: each CSV record is shared or CSV-only, each
      FIT record is matched or FIT-only, at most as many FIT records are matched as CSV
      records, and each mismatch count is positive, on a compared field, and at most the
      shared count. */
  lemma ComparisonCounts(csv: seq<RawWeightRecord>, fit: seq<RawWeightRecord>, config: ProcessingConfig)
    ensures var res := ComparisonOf(csv, fit, config);
            && res.bothCount + res.csvOnlyCount == |csv|
            && res.fitOnlyCount + |MatchedIndices(csv, fit, config.timestampToleranceSeconds)| == |fit|
            && |fit| - res.fitOnlyCount <= res.bothCount
            && (forall f :: f in res.mismatches ==> f == WeightKg || f in ComparedFields)
            && (forall f :: f in res.mismatches ==> 0 < res.mismatches[f] <= res.bothCount)
  {
    var tol := config.timestampToleranceSeconds;
    MatchedOrCsvOnly(csv, fit, tol);
    FitOnlyOrMatched(csv, fit, tol);
    MatchedIndicesBound(csv, fit, tol);
    MismatchesBound(MatchedPairs(csv, fit, tol), config.numericTolerance);
  }

  /** The mean absolute weight difference is present exactly when some shared reading has
      two truthy weights, and then lies between zero and the largest such difference. */
  lemma MaeBounds(csv: seq<RawWeightRecord>, fit: seq<RawWeightRecord>, config: ProcessingConfig, hi: real)
    requires forall p :: p in MatchedPairs(csv, fit, config.timestampToleranceSeconds) && WeightDiff(p.0, p.1).Some?
               ==> WeightDiff(p.0, p.1).value <= hi
    ensures var mae := ComparisonOf(csv, fit, config).weightMae;
            && (mae.Some? <==> WeightDiffs(MatchedPairs(csv, fit, config.timestampToleranceSeconds)) != [])
            && (mae.Some? ==> 0.0 <= mae.value <= hi)
  {
    var ps := MatchedPairs(csv, fit, config.timestampToleranceSeconds);
    WeightDiffsBelow(ps, hi);
    MeanBounds(WeightDiffs(ps), hi);
  }

  lemma {:induction false} WeightDiffsBelow(ps: seq<MatchedPair>, hi: real)
    requires forall p :: p in ps && WeightDiff(p.0, p.1).Some? ==> WeightDiff(p.0, p.1).value <= hi
    ensures forall i :: 0 <= i < |WeightDiffs(ps)| ==> 0.0 <= WeightDiffs(ps)[i] <= hi
  {
    if ps != [] {
      var init, last := ps[..|ps| - 1], ps[|ps| - 1];
      assert forall p :: p in init ==> p in ps;
      WeightDiffsBelow(init, hi);
    }
  }

  /** With no FIT records, every CSV record is CSV-only and nothing is compared. */
  lemma NothingToMatch(csv: seq<RawWeightRecord>, config: ProcessingConfig)
    ensures var res := ComparisonOf(csv, [], config);
            && res.bothCount == 0 && res.csvOnlyCount == |csv| && res.fitOnlyCount == 0
            && res.mismatches == map[] && res.weightMae == None
            && res.fitFileName == "N/A" && res.fitDriveId == "N/A" && res.fitMinTimestamp == None
  {
    var tol := config.timestampToleranceSeconds;
    NoPairsWithoutFit(csv, tol);
    MatchedOrCsvOnly(csv, [], tol);
    assert Mismatches([], config.numericTolerance) == map[];
  }

  lemma {:induction false} NoPairsWithoutFit(csv: seq<RawWeightRecord>, tol: int)
    ensures MatchedPairs(csv, [], tol) == []
  {
    if csv != [] {
      NoPairsWithoutFit(csv[..|csv| - 1], tol);
    }
  }

  /** Two readings of the same instant, 75.5 kg with 18.2 % body fat in the CSV export and
      76.0 kg with 18.5 % in the FIT export, with a tolerance of 0.001: one shared reading,
      a mismatch on the weight and on the body fat, and a mean absolute weight error of 0.5. */
  lemma MismatchExample(ts: Timestamp, config: ProcessingConfig)
    requires config.timestampToleranceSeconds == 60 && config.numericTolerance == 0.001
    ensures var c := RawWeightRecord(ts, map[WeightKg := 75.5, BodyFatPct := 18.2],
                                     "Peso 1-2024 Huawei Health.csv", "csv1", Csv);
            var f := RawWeightRecord(ts, map[WeightKg := 76.0, BodyFatPct := 18.5],
                                     "Peso 1-2024 Huawei Health.fit", "fit1", Fit);
            var res := ComparisonOf([c], [f], config);
            && res.bothCount == 1 && res.csvOnlyCount == 0 && res.fitOnlyCount == 0
            && res.mismatches == map[WeightKg := 1, BodyFatPct := 1]
            && res.weightMae == Some(0.5)
  {
    var c := RawWeightRecord(ts, map[WeightKg := 75.5, BodyFatPct := 18.2],
                             "Peso 1-2024 Huawei Health.csv", "csv1", Csv);
    var f := RawWeightRecord(ts, map[WeightKg := 76.0, BodyFatPct := 18.5],
                             "Peso 1-2024 Huawei Health.fit", "fit1", Fit);
    assert MatchedPairs([c], [f], 60) == [(c, f)] by {
      assert FirstMatch(ts, [f], 60) == Some(0);
      assert [c][..0] == [];
    }
    MismatchExampleTable(c, f);
    MismatchExampleMae(c, f);
    assert |CsvOnly([c], [f], 60)| == 0 && UnmatchedCount(1, MatchedIndices([c], [f], 60)) == 0 by {
      assert FirstMatch(ts, [f], 60) == Some(0);
      assert [c][..0] == [];
      assert MatchedIndices([c], [f], 60) == {0};
      MatchedOrCsvOnly([c], [f], 60);
      FitOnlyOrMatched([c], [f], 60);
    }
  }

  lemma MismatchExampleTable(c: RawWeightRecord, f: RawWeightRecord)
    requires c.values == map[WeightKg := 75.5, BodyFatPct := 18.2]
    requires f.values == map[WeightKg := 76.0, BodyFatPct := 18.5]
    ensures Mismatches([(c, f)], 0.001) == map[WeightKg := 1, BodyFatPct := 1]
  {
    var ps := [(c, f)];
    MismatchesCount(ps, 0.001);
    assert ps[..0] == [];
    var m := Mismatches(ps, 0.001);
    forall g ensures Count(m, g) == (if g == WeightKg || g == BodyFatPct then 1 else 0) {
      assert MismatchCount(ps, g, 0.001) == (if Disagrees(c, f, g, 0.001) then 1 else 0);
    }
    forall g ensures g in m <==> g == WeightKg || g == BodyFatPct {
      assert Count(m, g) == (if g == WeightKg || g == BodyFatPct then 1 else 0);
    }
    assert Count(m, WeightKg) == 1 && Count(m, BodyFatPct) == 1;
  }

  lemma MismatchExampleMae(c: RawWeightRecord, f: RawWeightRecord)
    requires c.values == map[WeightKg := 75.5, BodyFatPct := 18.2]
    requires f.values == map[WeightKg := 76.0, BodyFatPct := 18.5]
    ensures Mean(WeightDiffs([(c, f)])) == Some(0.5)
  {
    assert [(c, f)][..0] == [];
    assert WeightDiffs([(c, f)]) == [0.5];
    assert [0.5][..0] == [];
    assert Sum([0.5]) == 0.5;
  }

  /** Two CSV readings an hour apart against one FIT reading at the first of them: one
      shared reading, one CSV-only reading, no FIT-only reading. */
  lemma CsvOnlyExample(ts: Timestamp, config: ProcessingConfig)
    requires config.timestampToleranceSeconds == 60
    ensures var c1 := RawWeightRecord(ts, map[WeightKg := 75.5], "Peso 1-2024 Huawei Health.csv", "csv1", Csv);
            var c2 := RawWeightRecord(ts + 3600, map[WeightKg := 75.6], "Peso 1-2024 Huawei Health.csv", "csv1", Csv);
            var f := RawWeightRecord(ts, map[WeightKg := 75.5], "Peso 1-2024 Huawei Health.fit", "fit1", Fit);
            var res := ComparisonOf([c1, c2], [f], config);
            res.bothCount == 1 && res.csvOnlyCount == 1 && res.fitOnlyCount == 0
  {
    var c1 := RawWeightRecord(ts, map[WeightKg := 75.5], "Peso 1-2024 Huawei Health.csv", "csv1", Csv);
    var c2 := RawWeightRecord(ts + 3600, map[WeightKg := 75.6], "Peso 1-2024 Huawei Health.csv", "csv1", Csv);
    var f := RawWeightRecord(ts, map[WeightKg := 75.5], "Peso 1-2024 Huawei Health.fit", "fit1", Fit);
    assert FirstMatch(ts, [f], 60) == Some(0);
    assert FirstMatch(ts + 3600, [f], 60) == None;
    assert [c1, c2][..1] == [c1];
    assert [c1][..0] == [];
    assert MatchedPairs([c1], [f], 60) == [(c1, f)];
    assert MatchedPairs([c1, c2], [f], 60) == [(c1, f)];
    assert MatchedIndices([c1], [f], 60) == {0};
    assert MatchedIndices([c1, c2], [f], 60) == {0};
    MatchedOrCsvOnly([c1, c2], [f], 60);
    FitOnlyOrMatched([c1, c2], [f], 60);
  }

  // ---------------------------------------------------------------------------------
  // The imperative comparison
  // ---------------------------------------------------------------------------------

  /** The body of the match branch: the weight check and the loop over the four compared
      fields, updating `weight_differences` and `mismatches`. */
  method CountMatchedPair(c: RawWeightRecord, r: RawWeightRecord, tol: real,
                          mismatches: map<Field, nat>, weightDifferences: seq<real>)
    returns (mismatches': map<Field, nat>, weightDifferences': seq<real>)
    ensures mismatches' == BumpAll(mismatches, PairMismatches(c, r, tol))
    ensures weightDifferences' == weightDifferences + WeightDiffs([(c, r)])
  {
    mismatches', weightDifferences' := mismatches, weightDifferences;
    WeightCheck(c, r, tol, mismatches);
    if Truthy(c.Get(WeightKg)) && Truthy(r.Get(WeightKg)) {
      var diff := Consolidation.AbsReal(c.Get(WeightKg).value - r.Get(WeightKg).value);
      weightDifferences' := weightDifferences' + [diff];
      if diff > tol {
        mismatches' := Bump(mismatches', WeightKg);
      }
    }
    ghost var weighed := mismatches';
    mismatches' := CountFieldMismatches(c, r, tol, mismatches');
    BumpAllAppend(mismatches, if Disagrees(c, r, WeightKg, tol) then [WeightKg] else [],
                  FieldMismatches(c, r, tol, ComparedFields));
  }

  /** The loop over the four compared fields of a matched pair: a field present on both
      sides whose values differ by more than `tol` is incremented in `mismatches`. */
  method CountFieldMismatches(c: RawWeightRecord, r: RawWeightRecord, tol: real, mismatches: map<Field, nat>)
    returns (mismatches': map<Field, nat>)
    ensures mismatches' == BumpAll(mismatches, FieldMismatches(c, r, tol, ComparedFields))
  {
    mismatches' := mismatches;
    for i := 0 to |ComparedFields|
      invariant mismatches' == BumpAll(mismatches, FieldMismatches(c, r, tol, ComparedFields[..i]))
    {
      var field := ComparedFields[i];
      FieldCheck(c, r, tol, mismatches, ComparedFields, i);
      var csvVal, fitVal := c.Get(field), r.Get(field);
      if csvVal.Some? && fitVal.Some? {
        if Consolidation.AbsReal(csvVal.value - fitVal.value) > tol {
          mismatches' := Bump(mismatches', field);
        }
      }
    }
    assert ComparedFields[..|ComparedFields|] == ComparedFields;
  }

  /** The weight check of a matched pair, as the specification functions state it. */
  lemma WeightCheck(c: RawWeightRecord, r: RawWeightRecord, tol: real, m: map<Field, nat>)
    ensures BumpAll(m, if Disagrees(c, r, WeightKg, tol) then [WeightKg] else [])
            == if WeightDiff(c, r).Some? && WeightDiff(c, r).value > tol then Bump(m, WeightKg) else m
    ensures WeightDiffs([(c, r)]) == match WeightDiff(c, r) case None => [] case Some(d) => [d]
  {
    assert [WeightKg][..0] == [];
    assert [(c, r)][..0] == [];
  }

  /** One step of the loop over the compared fields, as the specification functions state it. */
  lemma FieldCheck(c: RawWeightRecord, r: RawWeightRecord, tol: real, m: map<Field, nat>, fields: seq<Field>, i: nat)
    requires i < |fields| && fields[i] in ComparedFields
    ensures var f := fields[i];
            BumpAll(m, FieldMismatches(c, r, tol, fields[..i + 1]))
            == if c.Get(f).Some? && r.Get(f).Some? && Consolidation.AbsReal(c.Get(f).value - r.Get(f).value) > tol
               then Bump(BumpAll(m, FieldMismatches(c, r, tol, fields[..i])), f)
               else BumpAll(m, FieldMismatches(c, r, tol, fields[..i]))
  {
    var f := fields[i];
    assert fields[..i + 1][..i] == fields[..i];
    assert fields[..i + 1][i] == f;
    var before := FieldMismatches(c, r, tol, fields[..i]);
    if f != WeightKg && Disagrees(c, r, f, tol) {
      assert FieldMismatches(c, r, tol, fields[..i + 1]) == before + [f];
      assert (before + [f])[..|before|] == before;
      assert (before + [f])[|before|] == f;
    } else {
      assert FieldMismatches(c, r, tol, fields[..i + 1]) == before + [];
      assert before + [] == before;
    }
  }

  /** One iteration of the outer loop of `_compare_pair`: scan the FIT records for the
      first within tolerance of `c`, and count `c` as shared or CSV-only. */
  method CompareCsvRecord(c: RawWeightRecord, fitRecords: seq<RawWeightRecord>, config: ProcessingConfig,
                          matchedFitIndices: set<nat>, bothCount: nat, csvOnlyCount: nat,
                          mismatches: map<Field, nat>, weightDifferences: seq<real>)
    returns (matchedFitIndices': set<nat>, bothCount': nat, csvOnlyCount': nat,
             mismatches': map<Field, nat>, weightDifferences': seq<real>)
    ensures match FirstMatch(c.timestamp, fitRecords, config.timestampToleranceSeconds)
            case None =>
              && matchedFitIndices' == matchedFitIndices && bothCount' == bothCount
              && csvOnlyCount' == csvOnlyCount + 1
              && mismatches' == mismatches && weightDifferences' == weightDifferences
            case Some(j) =>
              && matchedFitIndices' == matchedFitIndices + {j} && bothCount' == bothCount + 1
              && csvOnlyCount' == csvOnlyCount
              && mismatches' == BumpAll(mismatches, PairMismatches(c, fitRecords[j], config.numericTolerance))
              && weightDifferences' == weightDifferences + WeightDiffs([(c, fitRecords[j])])
  {
    matchedFitIndices', bothCount', csvOnlyCount' := matchedFitIndices, bothCount, csvOnlyCount;
    mismatches', weightDifferences' := mismatches, weightDifferences;
    var tol := config.timestampToleranceSeconds;
    var matched := false;
    var fitIdx := 0;
    while fitIdx < |fitRecords|
      invariant 0 <= fitIdx <= |fitRecords|
      invariant forall k :: 0 <= k < fitIdx ==> !TimestampsMatch(c.timestamp, fitRecords[k].timestamp, tol)
    {
      var fitRecord := fitRecords[fitIdx];
      if TimestampsMatch(c.timestamp, fitRecord.timestamp, tol) {
        matched := true;
        matchedFitIndices' := matchedFitIndices' + {fitIdx};
        bothCount' := bothCount' + 1;
        mismatches', weightDifferences' :=
          CountMatchedPair(c, fitRecord, config.numericTolerance, mismatches', weightDifferences');
        break;
      }
      fitIdx := fitIdx + 1;
    }
    if !matched {
      csvOnlyCount' := csvOnlyCount' + 1;
    }
  }

  /** `_compare_pair`. */
  method ComparePair(csvRecords: seq<RawWeightRecord>, fitRecords: seq<RawWeightRecord>, config: ProcessingConfig)
    returns (result: ComparisonResult)
    ensures result == ComparisonOf(csvRecords, fitRecords, config)
  {
    var tol := config.timestampToleranceSeconds;
    var matchedFitIndices: set<nat> := {};
    var weightDifferences: seq<real> := [];
    var mismatches: map<Field, nat> := map[];
    var bothCount, csvOnlyCount := 0, 0;
    for i := 0 to |csvRecords|
      invariant bothCount == |MatchedPairs(csvRecords[..i], fitRecords, tol)|
      invariant csvOnlyCount == |CsvOnly(csvRecords[..i], fitRecords, tol)|
      invariant matchedFitIndices == MatchedIndices(csvRecords[..i], fitRecords, tol)
      invariant mismatches == Mismatches(MatchedPairs(csvRecords[..i], fitRecords, tol), config.numericTolerance)
      invariant weightDifferences == WeightDiffs(MatchedPairs(csvRecords[..i], fitRecords, tol))
    {
      matchedFitIndices, bothCount, csvOnlyCount, mismatches, weightDifferences :=
        CompareCsvRecord(csvRecords[i], fitRecords, config,
                         matchedFitIndices, bothCount, csvOnlyCount, mismatches, weightDifferences);
      CompareStep(csvRecords, i, fitRecords, config);
    }
    assert csvRecords[..|csvRecords|] == csvRecords;

    var fitOnlyCount := 0;
    for fitIdx := 0 to |fitRecords|
      invariant fitOnlyCount == UnmatchedCount(fitIdx, matchedFitIndices)
    {
      if fitIdx !in matchedFitIndices {
        fitOnlyCount := fitOnlyCount + 1;
      }
    }

    var weightMae: Option<real> := None;
    if weightDifferences != [] {
      weightMae := Some(Sum(weightDifferences) / |weightDifferences| as real);
    }
    result := ComparisonResult(
      FileNameOr(csvRecords), FileNameOr(fitRecords), DriveIdOr(csvRecords), DriveIdOr(fitRecords),
      csvOnlyCount, fitOnlyCount, bothCount, mismatches,
      MinTimestamp(csvRecords), MaxTimestamp(csvRecords), MinTimestamp(fitRecords), MaxTimestamp(fitRecords),
      weightMae);
  }

  /** How the specification of the counters grows by one CSV record: the step that keeps
      the invariants of the outer loop of `ComparePair`. */
  lemma CompareStep(csv: seq<RawWeightRecord>, i: nat, fit: seq<RawWeightRecord>, config: ProcessingConfig)
    requires i < |csv|
    ensures var tol := config.timestampToleranceSeconds;
            var before, after := MatchedPairs(csv[..i], fit, tol), MatchedPairs(csv[..i + 1], fit, tol);
            match FirstMatch(csv[i].timestamp, fit, tol)
            case None =>
              && after == before
              && |CsvOnly(csv[..i + 1], fit, tol)| == |CsvOnly(csv[..i], fit, tol)| + 1
              && MatchedIndices(csv[..i + 1], fit, tol) == MatchedIndices(csv[..i], fit, tol)
            case Some(j) =>
              && after == before + [(csv[i], fit[j])]
              && |CsvOnly(csv[..i + 1], fit, tol)| == |CsvOnly(csv[..i], fit, tol)|
              && MatchedIndices(csv[..i + 1], fit, tol) == MatchedIndices(csv[..i], fit, tol) + {j}
              && Mismatches(after, config.numericTolerance)
                 == BumpAll(Mismatches(before, config.numericTolerance), PairMismatches(csv[i], fit[j], config.numericTolerance))
              && WeightDiffs(after) == WeightDiffs(before) + WeightDiffs([(csv[i], fit[j])])
  {
    var tol := config.timestampToleranceSeconds;
    MatchStep(csv, i, fit, tol);
    match FirstMatch(csv[i].timestamp, fit, tol)
    case None =>
    case Some(j) =>
      TallySnoc(MatchedPairs(csv[..i], fit, tol), (csv[i], fit[j]), config.numericTolerance);
  }

  /** How one more CSV reading extends the matched pairs, the CSV-only readings and the
      matched FIT indices. */
  lemma MatchStep(csv: seq<RawWeightRecord>, i: nat, fit: seq<RawWeightRecord>, tol: int)
    requires i < |csv|
    ensures var before, after := MatchedPairs(csv[..i], fit, tol), MatchedPairs(csv[..i + 1], fit, tol);
            match FirstMatch(csv[i].timestamp, fit, tol)
            case None =>
              && after == before
              && |CsvOnly(csv[..i + 1], fit, tol)| == |CsvOnly(csv[..i], fit, tol)| + 1
              && MatchedIndices(csv[..i + 1], fit, tol) == MatchedIndices(csv[..i], fit, tol)
            case Some(j) =>
              && after == before + [(csv[i], fit[j])]
              && |CsvOnly(csv[..i + 1], fit, tol)| == |CsvOnly(csv[..i], fit, tol)|
              && MatchedIndices(csv[..i + 1], fit, tol) == MatchedIndices(csv[..i], fit, tol) + {j}
  {
    assert csv[..i + 1][..i] == csv[..i];
    MatchedIndicesSnoc(csv, i, fit, tol);
  }

  /** One more matched pair adds its mismatches to the table and its weight difference
      to the list. */
  lemma TallySnoc(before: seq<MatchedPair>, p: MatchedPair, tol: real)
    ensures Mismatches(before + [p], tol) == BumpAll(Mismatches(before, tol), PairMismatches(p.0, p.1, tol))
    ensures WeightDiffs(before + [p]) == WeightDiffs(before) + WeightDiffs([p])
  {
    assert (before + [p])[..|before|] == before;
    assert [p][..0] == [];
  }

  // ---------------------------------------------------------------------------------
  // All file pairs
  // ---------------------------------------------------------------------------------

  /** `compare`: one comparison per file pair, in the order the pairs are listed. */
  method Compare(csvRecords: seq<RawWeightRecord>, fitRecords: seq<RawWeightRecord>, config: ProcessingConfig)
    returns (results: seq<ComparisonResult>)
    ensures var pairs := FilePairs(csvRecords, fitRecords);
            && |results| == |pairs|
            && forall i :: 0 <= i < |results| ==> results[i] == ComparisonOf(pairs[i].0, pairs[i].1, config)
  {
    var pairs := FindFilePairs(csvRecords, fitRecords);
    results := ComparePairs(pairs, config);
  }

  /** The loop of `compare` over the file pairs. */
  method ComparePairs(pairs: seq<RecordPair>, config: ProcessingConfig) returns (results: seq<ComparisonResult>)
    ensures |results| == |pairs|
    ensures forall i :: 0 <= i < |results| ==> results[i] == ComparisonOf(pairs[i].0, pairs[i].1, config)
  {
    results := [];
    for i := 0 to |pairs|
      invariant |results| == i
      invariant forall k :: 0 <= k < i ==> results[k] == ComparisonOf(pairs[k].0, pairs[k].1, config)
    {
      var result := ComparePair(pairs[i].0, pairs[i].1, config);
      results := results + [result];
    }
  }
}
