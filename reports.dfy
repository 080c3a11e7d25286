/** The ESG reports page: checking the picked file, the upload guard, the
    period and search filters over the report list, the metric list of the
    company summary, and cancelling an edit. */
module Reports {
  import opened Text
  import opened Seqs

  /** A report row as the server returns it. `uploadedMonth` is the month
      (0..11, local time) of `uploaded_at` when the row has one. */
  datatype Report = Report(id: int, company: Option<string>, year: Option<int>,
                           metrics: Option<string>, summary: Option<string>,
                           uploadedMonth: Option<int>)

  /** A file chosen in the file input: name, MIME type and size in bytes. */
  datatype PickedFile = PickedFile(name: string, mimeType: string, size: nat)

  const MaxFileBytes: nat := 10 * 1024 * 1024

  // ---------------------------------------------------------------------
  // File selection and upload guard

  /** Why a picked file is refused, checked in the page's order: no file,
      then the type, then the size. */
  function FileChangeError(file: Option<PickedFile>): (e: Option<string>)
    ensures e == Some("No file selected.") <==> file.None?
    ensures e == Some("Only PDF files are allowed.") <==> file.Some? && file.value.mimeType != "application/pdf"
    ensures e == Some("Max file size is 10MB.") <==>
              file.Some? && file.value.mimeType == "application/pdf" && file.value.size > MaxFileBytes
    ensures e.None? <==> file.Some? && file.value.mimeType == "application/pdf" && file.value.size <= MaxFileBytes
  {
    if file.None? then Some("No file selected.")
    else if file.value.mimeType != "application/pdf" then Some("Only PDF files are allowed.")
    else if file.value.size > MaxFileBytes then Some("Max file size is 10MB.")
    else None
  }

  // ---------------------------------------------------------------------
  // Period and search filters

  /** `r.year || null`: a missing year or 0 counts as no year. */
  function YearOf(r: Report): (y: Option<int>)
    ensures y.Some? ==> y.value != 0 && r.year == y
  {
    if r.year.Some? && r.year.value != 0 then r.year else None
  }

  /** The period filter for the current year `nowYear` and month
      `nowMonth` (0..11). */
  predicate PeriodKeeps(filter: string, nowYear: int, nowMonth: nat, r: Report) {
    if filter == "all" then true
    else if filter == "monthly" && r.uploadedMonth.Some? then
      r.uploadedMonth.value == nowMonth && YearOf(r) == Some(nowYear)
    else if filter == "quarterly" && r.uploadedMonth.Some? then
      r.uploadedMonth.value >= 0 && r.uploadedMonth.value / 3 == nowMonth / 3 && YearOf(r) == Some(nowYear)
    else if filter == "yearly" then YearOf(r) == Some(nowYear)
    else false
  }

  /** The search box: an empty search keeps everything; otherwise the
      company, the metrics or the year's digits must contain it, ignoring
      case. */
  predicate SearchKeeps(search: string, r: Report) {
    search == "" ||
    (r.company.Some? && ContainsCI(r.company.value, search)) ||
    (r.metrics.Some? && ContainsCI(r.metrics.value, search)) ||
    (YearOf(r).Some? && ContainsCI(IntToString(YearOf(r).value), search))
  }

  function FilteredReports(reports: seq<Report>, filter: string, nowYear: int, nowMonth: nat,
                           search: string): (r: seq<Report>)
    ensures IsSubsequence(r, reports)
    ensures forall k :: 0 <= k < |r| ==> PeriodKeeps(filter, nowYear, nowMonth, r[k]) && SearchKeeps(search, r[k])
    ensures forall k ::
              (0 <= k < |reports| && PeriodKeeps(filter, nowYear, nowMonth, reports[k]) && SearchKeeps(search, reports[k]))
              ==> reports[k] in r
  {
    var byPeriod := Filter(reports, (x: Report) => PeriodKeeps(filter, nowYear, nowMonth, x));
    var r := Filter(byPeriod, (x: Report) => SearchKeeps(search, x));
    SubsequenceTransitive(r, byPeriod, reports);
    r
  }

  /** "all" with an empty search lists every report. */
  lemma AllKeepsEverything(reports: seq<Report>, nowYear: int, nowMonth: nat)
    ensures FilteredReports(reports, "all", nowYear, nowMonth, "") == reports
  {
  }

  /** A filter value the page does not know lists nothing. */
  lemma UnknownFilterKeepsNothing(reports: seq<Report>, filter: string, nowYear: int, nowMonth: nat,
                                  search: string)
    requires filter !in {"all", "monthly", "quarterly", "yearly"}
    ensures FilteredReports(reports, filter, nowYear, nowMonth, search) == []
  {
  }

  /** The periods nest: a report of this month is a report of this
      quarter, and a report of this quarter is a report of this year. */
  lemma PeriodsNest(r: Report, nowYear: int, nowMonth: nat)
    ensures PeriodKeeps("monthly", nowYear, nowMonth, r) ==> PeriodKeeps("quarterly", nowYear, nowMonth, r)
    ensures PeriodKeeps("quarterly", nowYear, nowMonth, r) ==> PeriodKeeps("yearly", nowYear, nowMonth, r)
    ensures PeriodKeeps("yearly", nowYear, nowMonth, r) <==> YearOf(r) == Some(nowYear)
  {
  }

  // ---------------------------------------------------------------------
  // Company summary

  /** The metric list shown for the first report: its metrics split at
      commas with each part trimmed, or the three ESG pillars when there is
      no report or it has no metrics. */
  function CompanyMetrics(reports: seq<Report>): (r: seq<string>)
    ensures |r| >= 1
    ensures forall k :: 0 <= k < |r| ==> ',' !in r[k]
    ensures reports == [] || !Truthy(reports[0].metrics) ==> r == ["Environment", "Social", "Governance"]
    ensures reports != [] && Truthy(reports[0].metrics) ==>
              var parts := Split(reports[0].metrics.value, ',');
              |r| == |parts| && forall k :: 0 <= k < |r| ==> r[k] == Trim(parts[k])
  {
    if |reports| > 0 && reports[0].metrics.Some? && reports[0].metrics.value != "" then
      TrimAll(Split(reports[0].metrics.value, ','))
    else ["Environment", "Social", "Governance"]
  }

  /** Each part trimmed; a character no part holds stays absent. */
  function TrimAll(parts: seq<string>): (r: seq<string>)
    ensures |r| == |parts|
    ensures forall k :: 0 <= k < |parts| ==> r[k] == Trim(parts[k])
    ensures forall c, k :: 0 <= k < |parts| && c !in parts[k] ==> c !in r[k]
  {
    var r := seq(|parts|, k requires 0 <= k < |parts| => Trim(parts[k]));
    assert forall c, k :: 0 <= k < |parts| && c !in parts[k] ==> c !in r[k] by {
      forall c, k | 0 <= k < |parts| && c !in parts[k]
        ensures c !in r[k]
      {
        TrimInside(parts[k], c);
      }
    }
    r
  }

  /** The metric list is the inverse of writing a list of trimmed names
      joined by commas. */
  lemma {:induction false} CompanyMetricsJoin(reports: seq<Report>, names: seq<string>)
    requires |reports| > 0 && |names| >= 1
    requires forall k :: 0 <= k < |names| ==>
               ',' !in names[k] && (names[k] == [] || (!IsSpace(names[k][0]) && !IsSpace(names[k][|names[k]| - 1])))
    requires reports[0].metrics == Some(Join(names, ','))
    requires Join(names, ',') != ""
    ensures CompanyMetrics(reports) == names
  {
    SplitJoin(names, ',');
    assert CompanyMetrics(reports) == TrimAll(names);
    forall k | 0 <= k < |names|
      ensures TrimAll(names)[k] == names[k]
    {
      TrimTrimmed(names[k]);
    }
  }

  // ---------------------------------------------------------------------
  // Page state

  /** The page's state. `editReport` maps form field names to their text. */
  class ReportsPage {
    var reports: seq<Report>
    var selectedFile: Option<PickedFile>
    var error: string
    var editingId: Option<int>
    var editReport: map<string, string>
    var updateStatus: string

    constructor()
      ensures reports == [] && selectedFile.None? && error == "" && editingId.None? && updateStatus == ""
      ensures editReport == map["company" := "", "year" := "", "metrics" := "", "summary" := ""]
    {
      reports := [];
      selectedFile := None;
      error := "";
      editingId := None;
      editReport := map["company" := "", "year" := "", "metrics" := "", "summary" := ""];
      updateStatus := "";
    }

    /** `handleFileChange`: a refused file sets its error and clears the
        selection; an accepted one is selected and clears the error. So
        afterwards exactly one of a selection and an error is present. */
    method HandleFileChange(file: Option<PickedFile>)
      modifies this
      ensures FileChangeError(file).Some? ==> error == FileChangeError(file).value && selectedFile.None?
      ensures FileChangeError(file).None? ==> error == "" && selectedFile == file
      ensures selectedFile.Some? <==> error == ""
      ensures reports == old(reports) && editingId == old(editingId)
      ensures editReport == old(editReport) && updateStatus == old(updateStatus)
    {
      if file.None? {
        error := "No file selected.";
        selectedFile := None;
        return;
      }
      if file.value.mimeType != "application/pdf" {
        error := "Only PDF files are allowed.";
        selectedFile := None;
        return;
      }
      if file.value.size > 10 * 1024 * 1024 {
        error := "Max file size is 10MB.";
        selectedFile := None;
        return;
      }
      error := "";
      selectedFile := file;
    }

    /** `handleUpload`, up to sending: without a selection it reports
        "No file selected." and sends nothing; otherwise the selected file
        is what gets sent. */
    method HandleUpload() returns (sent: Option<PickedFile>)
      modifies this
      ensures sent == old(selectedFile)
      ensures old(selectedFile).None? ==> error == "No file selected."
      ensures old(selectedFile).Some? ==> error == old(error)
      ensures selectedFile == old(selectedFile) && reports == old(reports) && editingId == old(editingId)
      ensures editReport == old(editReport) && updateStatus == old(updateStatus)
    {
      if selectedFile.None? {
        error := "No file selected.";
        return None;
      }
      sent := selectedFile;
    }

    /** `handleCancelEdit`: leaves edit mode with empty edit fields and no
        status message. */
    method HandleCancelEdit()
      modifies this
      ensures editingId.None? && updateStatus == ""
      ensures editReport == map["company" := "", "year" := "", "standard" := "", "status" := ""]
      ensures reports == old(reports) && selectedFile == old(selectedFile) && error == old(error)
    {
      editingId := None;
      editReport := map["company" := "", "year" := "", "standard" := "", "status" := ""];
      updateStatus := "";
    }
  }
}
