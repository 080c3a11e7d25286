/** The analytics page: the benchmark filters and search, the risk colour,
    and the activity log and snapshot list it appends to. */
module Analytics {
  import opened Text
  import opened Seqs

  /** A benchmark row. */
  datatype PerfRow = PerfRow(name: string, score: int, category: string, risk: string, region: string)

  function SamplePerformance(): seq<PerfRow> {
    [PerfRow("Dept A", 85, "Environment", "Low", "North"),
     PerfRow("Dept B", 72, "Social", "Medium", "South"),
     PerfRow("Dept C", 90, "Governance", "Low", "East"),
     PerfRow("Dept D", 65, "Environment", "High", "West")]
  }

  /** The headline figures; the average ESG score is kept in tenths. */
  datatype Kpi = Kpi(totalCompanies: int, avgEsgTenths: int, highRisk: int, reportsThisMonth: int,
                     yoyChange: int, momChange: int)

  function InitialKpi(): Kpi {
    Kpi(4, 805, 1, 3, 8, 3)
  }

  datatype DateRange = DateRange(from: string, to: string)

  /** The filters a snapshot records: company, category and date range
      (the region filter is not recorded). */
  datatype SnapshotFilters = SnapshotFilters(company: string, category: string, dateRange: DateRange)

  /** A saved snapshot; `date` is the clock's display text at saving. */
  datatype Snapshot = Snapshot(date: string, kpi: Kpi, filters: SnapshotFilters)

  /** An activity-log entry; `time` is the clock reading at logging. */
  datatype LogEntry = LogEntry(msg: string, time: int)

  // ---------------------------------------------------------------------
  // Filters

  /** An empty filter keeps every row; a non-empty one keeps rows whose
      field equals it. */
  predicate FieldKeeps(filter: string, value: string) {
    filter == "" || value == filter
  }

  function CompanyKeeps(company: string): PerfRow -> bool {
    (row: PerfRow) => FieldKeeps(company, row.name)
  }

  function CategoryKeeps(category: string): PerfRow -> bool {
    (row: PerfRow) => FieldKeeps(category, row.category)
  }

  function RegionKeeps(region: string): PerfRow -> bool {
    (row: PerfRow) => FieldKeeps(region, row.region)
  }

  predicate RowKeeps(company: string, category: string, region: string, row: PerfRow) {
    FieldKeeps(company, row.name) && FieldKeeps(category, row.category) && FieldKeeps(region, row.region)
  }

  /** `filteredPerformance`. */
  function FilteredPerformance(rows: seq<PerfRow>, company: string, category: string, region: string): (r: seq<PerfRow>)
    ensures IsSubsequence(r, rows)
    ensures forall k :: 0 <= k < |r| ==>
              (company != "" ==> r[k].name == company) &&
              (category != "" ==> r[k].category == category) &&
              (region != "" ==> r[k].region == region)
    ensures forall k :: 0 <= k < |rows| && RowKeeps(company, category, region, rows[k]) ==> rows[k] in r
    ensures company == "" && category == "" && region == "" ==> r == rows
  {
    Filter(rows, (row: PerfRow) => RowKeeps(company, category, region, row))
  }

  /** The three filters together are the three applied one after another. */
  lemma {:induction false} FiltersCompose(rows: seq<PerfRow>, company: string, category: string, region: string)
    ensures FilteredPerformance(rows, company, category, region) ==
              Filter(Filter(Filter(rows, CompanyKeeps(company)), CategoryKeeps(category)), RegionKeeps(region))
  {
    if rows != [] {
      FiltersCompose(rows[1..], company, category, region);
    }
  }

  /** `filteredPerformanceSearch` reads the fixed sample rows: a row is
      listed when its name, category or risk contains the search text,
      ignoring case. */
  predicate SearchHit(search: string, row: PerfRow) {
    ContainsCI(row.name, search) || ContainsCI(row.category, search) || ContainsCI(row.risk, search)
  }

  function FilteredPerformanceSearch(search: string): (r: seq<PerfRow>)
    ensures IsSubsequence(r, SamplePerformance())
    ensures forall k :: 0 <= k < |r| ==> SearchHit(search, r[k])
    ensures forall k :: 0 <= k < |SamplePerformance()| && SearchHit(search, SamplePerformance()[k]) ==>
              SamplePerformance()[k] in r
  {
    Filter(SamplePerformance(), (row: PerfRow) => SearchHit(search, row))
  }

  /** An empty search lists all four sample rows. */
  lemma EmptySearchListsSample()
    ensures FilteredPerformanceSearch("") == SamplePerformance()
  {
    var s := SamplePerformance();
    forall k | 0 <= k < |s|
      ensures SearchHit("", s[k])
    {
      EmptyIsContained(s[k].name);
    }
  }

  /** The badge colour for a risk level. */
  function RiskColor(risk: string): (r: string)
    ensures r == "bg-red-500" <==> risk == "High"
    ensures r == "bg-yellow-400" <==> risk == "Medium"
    ensures r == "bg-green-500" <==> risk != "High" && risk != "Medium"
  {
    if risk == "High" then "bg-red-500"
    else if risk == "Medium" then "bg-yellow-400"
    else "bg-green-500"
  }

  // ---------------------------------------------------------------------
  // Page state

  class AnalyticsPage {
    var companyFilter: string
    var categoryFilter: string
    var regionFilter: string
    var dateRange: DateRange
    var performance: seq<PerfRow>
    var kpi: Kpi
    var snapshotList: seq<Snapshot>
    var activityLog: seq<LogEntry>

    constructor()
      ensures companyFilter == "" && categoryFilter == "" && regionFilter == "" && dateRange == DateRange("", "")
      ensures performance == SamplePerformance() && kpi == InitialKpi()
      ensures snapshotList == [] && activityLog == []
    {
      companyFilter, categoryFilter, regionFilter := "", "", "";
      dateRange := DateRange("", "");
      performance := SamplePerformance();
      kpi := InitialKpi();
      snapshotList := [];
      activityLog := [];
    }

    /** `logActivity` at clock reading `now`: one entry at the end. */
    method LogActivity(msg: string, now: int)
      modifies this
      ensures activityLog == old(activityLog) + [LogEntry(msg, now)]
      ensures snapshotList == old(snapshotList) && kpi == old(kpi) && performance == old(performance)
      ensures companyFilter == old(companyFilter) && categoryFilter == old(categoryFilter)
      ensures regionFilter == old(regionFilter) && dateRange == old(dateRange)
    {
      activityLog := activityLog + [LogEntry(msg, now)];
    }

    /** `handleSaveSnapshot` with the clock's display text and reading: a
        copy of the figures and filters goes at the end of the snapshot list,
        and the save is logged. */
    method HandleSaveSnapshot(dateText: string, now: int)
      modifies this
      ensures snapshotList == old(snapshotList) +
                [Snapshot(dateText, old(kpi), SnapshotFilters(old(companyFilter), old(categoryFilter), old(dateRange)))]
      ensures activityLog == old(activityLog) + [LogEntry("User saved snapshot", now)]
      ensures kpi == old(kpi) && performance == old(performance)
      ensures companyFilter == old(companyFilter) && categoryFilter == old(categoryFilter)
      ensures regionFilter == old(regionFilter) && dateRange == old(dateRange)
    {
      snapshotList := snapshotList + [Snapshot(dateText, kpi, SnapshotFilters(companyFilter, categoryFilter, dateRange))];
      LogActivity("User saved snapshot", now);
    }

    /** `handleExportCSV` without the file itself: the rows written are the
        filtered rows, and the export is logged. */
    method HandleExportCsv(now: int) returns (written: seq<PerfRow>)
      modifies this
      ensures written == FilteredPerformance(performance, companyFilter, categoryFilter, regionFilter)
      ensures activityLog == old(activityLog) + [LogEntry("User exported CSV", now)]
      ensures snapshotList == old(snapshotList) && kpi == old(kpi) && performance == old(performance)
      ensures companyFilter == old(companyFilter) && categoryFilter == old(categoryFilter)
      ensures regionFilter == old(regionFilter) && dateRange == old(dateRange)
    {
      written := FilteredPerformance(performance, companyFilter, categoryFilter, regionFilter);
      LogActivity("User exported CSV", now);
    }
  }
}
