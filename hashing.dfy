/** Deterministic record identifiers: the timestamp is floored to a bucket, the configured
    fragments are joined with "|" and digested. */
module Hashing {
  import opened Wrappers
  import opened Weight
  import opened Parameters
  import PyText

  /** Python's floor division `a // b`. */
  function FloorDiv(a: int, b: int): (q: int)
    requires b != 0
    ensures b > 0 ==> q * b <= a < q * b + b
    ensures b < 0 ==> q * b + b < a <= q * b
  {
    if b > 0 then a / b else (-a) / (-b)
  }

  /** The quotient is the only integer whose bucket holds `a` (divisor positive). */
  lemma {:induction false} FloorDivUnique(a: int, b: int, k: int)
    requires b > 0 && k * b <= a < k * b + b
    ensures FloorDiv(a, b) == k
  {
    var q := FloorDiv(a, b);
    assert q * b < (k + 1) * b;
    MulStrictCancel(q, k + 1, b);
    assert k * b < (q + 1) * b;
    MulStrictCancel(k, q + 1, b);
  }

  lemma MulStrictCancel(x: int, y: int, b: int)
    requires b > 0 && x * b < y * b
    ensures x < y
  {
    if x >= y {
      MulMonotone(x, y, b);
    }
  }

  lemma MulMonotone(x: int, y: int, b: int)
    requires x >= y && b > 0
    ensures x * b >= y * b
  {
  }

  /** `round_timestamp`: the timestamp floored to a multiple of `roundingSeconds`. A zero
      interval is excluded; it raises ZeroDivisionError in Python (see GenerateRecordId). */
  function RoundTimestamp(t: Timestamp, roundingSeconds: int): (r: Timestamp)
    requires roundingSeconds != 0
    ensures roundingSeconds > 0 ==> r <= t < r + roundingSeconds
    ensures roundingSeconds < 0 ==> r + roundingSeconds < t <= r
  {
    FloorDiv(t, roundingSeconds) * roundingSeconds
  }

  /** The rounded value is a multiple of the interval. */
  lemma RoundTimestampIsMultiple(t: Timestamp, r: int)
    requires r > 0
    ensures RoundTimestamp(t, r) % r == 0
  {
    var q := FloorDiv(t, r);
    FloorDivUnique(q * r, r, q);
  }

  /** With a positive interval, rounding floors: the result is the largest multiple of the
      interval that is not after `t` (not the nearest one). */
  lemma {:induction false} RoundTimestampIsFloor(t: Timestamp, r: int, k: int)
    requires r > 0 && k * r <= t
    ensures k * r <= RoundTimestamp(t, r)
  {
    var q := FloorDiv(t, r);
    assert k * r < (q + 1) * r;
    MulStrictCancel(k, q + 1, r);
    MulMonotone(q, k, r);
  }

  /** Rounding an already rounded timestamp changes nothing. */
  lemma {:induction false} RoundTimestampIdempotent(t: Timestamp, r: int)
    requires r != 0
    ensures RoundTimestamp(RoundTimestamp(t, r), r) == RoundTimestamp(t, r)
  {
    var q := FloorDiv(t, r);
    if r > 0 {
      FloorDivUnique(q * r, r, q);
    } else {
      assert -(q * r) == q * (-r);
      FloorDivUnique(q * (-r), -r, q);
    }
  }

  /** Timestamps in the same bucket [k*r, k*r + r) round to the same instant. */
  lemma SameBucketSameRounding(t1: Timestamp, t2: Timestamp, r: int, k: int)
    requires r > 0
    requires k * r <= t1 < k * r + r && k * r <= t2 < k * r + r
    ensures RoundTimestamp(t1, r) == RoundTimestamp(t2, r) == k * r
  {
    FloorDivUnique(t1, r, k);
    FloorDivUnique(t2, r, k);
  }

  /** The standard-library routines the identifier uses, taken as given functions:
      `datetime.isoformat` of the rounded instant, `"{:.3f}".format` of the weight, and
      `hashlib.new(algorithm)` + `hexdigest`, which is None for an unknown algorithm. */
  datatype IdPrimitives = IdPrimitives(
    isoformat: Timestamp -> string,
    fixed3: real -> string,
    hexDigest: (string, string) -> Option<string>)

  /** Why `generate_record_id` raises. */
  datatype IdError =
    | ZeroRoundingInterval   // ZeroDivisionError in round_timestamp
    | UnsupportedAlgorithm   // ValueError from hashlib.new

  /** Python's `<` on strings: lexicographic by code point. */
  predicate StrLess(a: string, b: string)
  {
    if a == [] then b != []
    else if b == [] then false
    else if a[0] != b[0] then a[0] < b[0]
    else StrLess(a[1..], b[1..])
  }

  /** `sorted(st.value for st in source_types)`: the values in ascending string order. */
  function SortedTypeValues(types: set<SourceType>): (vs: seq<string>)
    ensures forall i, j :: 0 <= i < j < |vs| ==> StrLess(vs[i], vs[j])
    ensures forall t :: t in types <==> SourceTypeValue(t) in vs
    ensures forall v :: v in vs ==> v == "csv" || v == "fit"
  {
    assert StrLess("csv", "fit");
    (if Csv in types then ["csv"] else []) + (if Fit in types then ["fit"] else [])
  }

  /** The fragments that are joined and hashed, in the fixed order timestamp, weight,
      source types, each present only when its name is in `include_fields`. */
  function HashFragments(t: Timestamp, weightKg: real, types: set<SourceType>,
                         config: RecordIdConfig, prims: IdPrimitives): seq<string>
    requires config.timestampRoundingSeconds != 0
  {
    var roundedTs := RoundTimestamp(t, config.timestampRoundingSeconds);
    (if "timestamp" in config.includeFields then [prims.isoformat(roundedTs)] else [])
    + (if "weight_kg" in config.includeFields then [prims.fixed3(weightKg)] else [])
    + (if "source_types" in config.includeFields
       then [PyText.Join(SortedTypeValues(types), ",")] else [])
  }

  /** `generate_record_id`. */
  function GenerateRecordId(t: Timestamp, weightKg: real, types: set<SourceType>,
                            config: RecordIdConfig, prims: IdPrimitives): (r: Result<string, IdError>)
    ensures r == Failure(ZeroRoundingInterval) <==> config.timestampRoundingSeconds == 0
  {
    if config.timestampRoundingSeconds == 0 then Failure(ZeroRoundingInterval)
    else
      var hashString := PyText.Join(HashFragments(t, weightKg, types, config, prims), "|");
      match prims.hexDigest(config.algorithm, hashString)
      case None => Failure(UnsupportedAlgorithm)
      case Some(h) => Success(h)
  }

  /** Two timestamps in the same rounding bucket get the same identifier when weight,
      source types and configuration agree. */
  lemma SameBucketSameId(t1: Timestamp, t2: Timestamp, k: int, weightKg: real,
                         types: set<SourceType>, config: RecordIdConfig, prims: IdPrimitives)
    requires config.timestampRoundingSeconds > 0
    requires var r := config.timestampRoundingSeconds;
      k * r <= t1 < k * r + r && k * r <= t2 < k * r + r
    ensures GenerateRecordId(t1, weightKg, types, config, prims)
         == GenerateRecordId(t2, weightKg, types, config, prims)
  {
    SameBucketSameRounding(t1, t2, config.timestampRoundingSeconds, k);
  }

  /** Only whether each of the three known names is listed matters: the order of
      `include_fields` and any other names in it do not affect the identifier. */
  lemma IncludeFieldsOrderIrrelevant(t: Timestamp, weightKg: real, types: set<SourceType>,
                                     c1: RecordIdConfig, c2: RecordIdConfig, prims: IdPrimitives)
    requires c1.algorithm == c2.algorithm
    requires c1.timestampRoundingSeconds == c2.timestampRoundingSeconds
    requires ("timestamp" in c1.includeFields) == ("timestamp" in c2.includeFields)
    requires ("weight_kg" in c1.includeFields) == ("weight_kg" in c2.includeFields)
    requires ("source_types" in c1.includeFields) == ("source_types" in c2.includeFields)
    ensures GenerateRecordId(t, weightKg, types, c1, prims)
         == GenerateRecordId(t, weightKg, types, c2, prims)
  {
  }

  /** The source-type fragment of a single kind, or of none, is that kind's name. */
  lemma SourceTypeFragmentSingle()
    ensures PyText.Join(SortedTypeValues({}), ",") == ""
    ensures PyText.Join(SortedTypeValues({Csv}), ",") == "csv"
    ensures PyText.Join(SortedTypeValues({Fit}), ",") == "fit"
  {
    assert SortedTypeValues({Fit}) == ["fit"];
  }

  /** The source-type fragment of both kinds: sorted and comma-joined, so "csv" always
      precedes "fit". */
  lemma SourceTypeFragmentBoth()
    ensures PyText.Join(SortedTypeValues({Csv, Fit}), ",") == "csv,fit"
  {
    assert SortedTypeValues({Csv, Fit}) == ["csv", "fit"];
  }

  /** The "|" separator makes the digested string determine its fragments: when no
      rendered fragment contains "|", splitting the hashed string recovers them. */
  lemma HashStringDeterminesFragments(t: Timestamp, weightKg: real, types: set<SourceType>,
                                      config: RecordIdConfig, prims: IdPrimitives)
    requires config.timestampRoundingSeconds != 0
    requires var fs := HashFragments(t, weightKg, types, config, prims);
      |fs| >= 1 && forall i :: 0 <= i < |fs| ==> '|' !in fs[i]
    ensures var fs := HashFragments(t, weightKg, types, config, prims);
      PyText.SplitOn(PyText.Join(fs, "|"), '|') == fs
  {
    var fs := HashFragments(t, weightKg, types, config, prims);
    PyText.SplitJoin(fs, '|');
  }
}
