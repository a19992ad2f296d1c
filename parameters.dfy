/** The configuration records the core reads. */
module Parameters {
  import opened Wrappers

  /** How record identifiers are built. */
  datatype RecordIdConfig = RecordIdConfig(
    algorithm: string,
    timestampRoundingSeconds: int,
    includeFields: seq<string>)

  /** Which source wins when two values conflict: a per-field table (field name to
      "csv" or "fit") with a global fallback. */
  datatype ConflictResolutionConfig = ConflictResolutionConfig(
    defaultPreference: Option<string>,
    fieldPreferences: map<string, string>)

  /** The processing settings shared by consolidation and comparison. */
  datatype ProcessingConfig = ProcessingConfig(
    timestampToleranceSeconds: int,
    numericTolerance: real,
    recordId: RecordIdConfig,
    conflictResolution: ConflictResolutionConfig)

  /** The CSV settings used by the delimiter and column rules. */
  datatype CsvConfig = CsvConfig(
    delimiters: seq<string>,
    columnMappings: map<string, string>)
}
