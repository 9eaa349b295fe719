/** The report categories of apply-rules (apply-rules/src/apply_rules/mod.rs). Route
  * consolidation also files rows under `ConsolidationNotApplied`, so the category is part of
  * the enumeration here. */
module RuleReport {
  import Report

  datatype ReportCategory =
    | ObjectNotFound
    | InvalidFile
    | UnknownPropertyName
    | UnknownPropertyValue
    | MultipleValue
    | OldPropertyValueDoesNotMatch
    | GeometryNotValid
    | NonConvertibleString
    | ConsolidationNotApplied

  type Row = Report.ReportRow<ReportCategory>

  /** The warning a rule file's reader files for a row that does not deserialise: it names the
    * file, as `{:?}` quotes it, and gives the error. */
  function InvalidRow(name: string, error: string): Row
  {
    Report.ReportRow(InvalidFile, "Error reading \"" + name + "\": " + error)
  }
}
