/** The reports list: what a report's row shows and when two entries are the same report. */
module CrimeReportAdapter {
  import opened Records

  /** What a report's row shows. */
  datatype ReportRow = ReportRow(crimeType: string, address: string, date: string, time: string)

  /** `bind`: the four shown fields, exactly as stored. */
  function Bind(crime: CrimeReport): (r: ReportRow)
    ensures r.crimeType == crime.crimeType && r.address == crime.address
    ensures r.date == crime.date && r.time == crime.time
  {
    ReportRow(crime.crimeType, crime.address, crime.date, crime.time)
  }

  /** `areItemsTheSame`: a report is identified by its place, date and time. */
  predicate AreItemsTheSame(oldItem: CrimeReport, newItem: CrimeReport)
    ensures oldItem == newItem ==> AreItemsTheSame(oldItem, newItem)
  {
    oldItem.address == newItem.address && oldItem.date == newItem.date && oldItem.time == newItem.time
  }

  /** `areContentsTheSame`: field-by-field equality of the data class. */
  predicate AreContentsTheSame(oldItem: CrimeReport, newItem: CrimeReport)
    ensures AreContentsTheSame(oldItem, newItem) ==> AreItemsTheSame(oldItem, newItem)
  {
    oldItem == newItem
  }

  /** The identity is an equivalence relation. */
  lemma ItemsTheSameEquivalence(a: CrimeReport, b: CrimeReport, c: CrimeReport)
    ensures AreItemsTheSame(a, a)
    ensures AreItemsTheSame(a, b) ==> AreItemsTheSame(b, a)
    ensures AreItemsTheSame(a, b) && AreItemsTheSame(b, c) ==> AreItemsTheSame(a, c)
  {
  }

  /** The identity is exactly agreement of the shown address, date and time: the type and the
      raw feed fields play no part. */
  lemma ItemsTheSameIgnoresOthers(a: CrimeReport, crimeType: string, rawDate: string, rawTime: string)
    ensures AreItemsTheSame(a, a.(crimeType := crimeType, rawDate := rawDate, rawTime := rawTime))
    ensures forall b :: AreItemsTheSame(a, b) <==>
              (Bind(a).address, Bind(a).date, Bind(a).time) == (Bind(b).address, Bind(b).date, Bind(b).time)
  {
  }

  /** Equal contents imply the same item; the converse fails when only the type differs. */
  lemma ContentsImplyItems(a: CrimeReport, b: CrimeReport)
    ensures AreContentsTheSame(a, b) ==> AreItemsTheSame(a, b)
    ensures a.crimeType != b.crimeType ==> !AreContentsTheSame(a, b)
  {
  }
}
