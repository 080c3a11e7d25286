/** The compliance documents page: the compliance score, upload validation
    and the document a completed upload adds, the document filters, the
    pending-review counter and the calendar's day labels. */
module Compliances {
  import opened Text
  import opened Seqs
  import opened Percent

  datatype HistoryEntry = HistoryEntry(action: string, user: string, time: string)

  /** A compliance document as the page keeps it. */
  datatype Doc = Doc(id: int, name: string, docType: string, department: string, owner: string,
                     status: string, reviewer: string, submitted: string, remarks: string,
                     attachments: seq<string>, history: seq<HistoryEntry>, deadline: string)

  /** A file picked for upload: its name and its size in bytes. */
  datatype UploadFile = UploadFile(name: string, size: nat)

  /** The filter bar; an empty field filters nothing. */
  datatype DocFilters = DocFilters(docType: string, status: string, date: string,
                                   department: string, owner: string)

  /** The upload size limit, 10 MiB. */
  const MaxUploadBytes: nat := 10 * 1024 * 1024

  // ---------------------------------------------------------------------
  // Compliance score

  function ApprovedCount(docs: seq<Doc>): (n: nat)
    ensures n <= |docs|
  {
    Count(docs, (d: Doc) => d.status == "Approved")
  }

  /** The share of approved documents as a whole percentage, rounded half
      up. With no documents the page divides 0 by 0 and shows `NaN`, which
      is `None` here. */
  function ComplianceScore(docs: seq<Doc>): (r: Option<int>)
    ensures r.None? <==> docs == []
    ensures r.Some? ==> 0 <= r.value <= 100
    ensures r.Some? ==> 2 * |docs| * r.value <= 200 * ApprovedCount(docs) + |docs| < 2 * |docs| * (r.value + 1)
  {
    if |docs| == 0 then None
    else
      RoundPercentBounds(ApprovedCount(docs), |docs|);
      Some(RoundPercent(ApprovedCount(docs), |docs|))
  }

  const Green := "bg-green-100 text-green-800"
  const Yellow := "bg-yellow-100 text-yellow-800"
  const Red := "bg-red-100 text-red-800"

  /** Green above 80, yellow from 50 to 80, red below 50 and for `NaN`
      (every comparison with `NaN` is false). */
  function ScoreColor(score: Option<int>): (c: string)
    ensures c == Green <==> score.Some? && score.value > 80
    ensures c == Yellow <==> score.Some? && 50 <= score.value <= 80
    ensures c == Red <==> score.None? || score.value < 50
  {
    if score.Some? && score.value > 80 then Green
    else if score.Some? && score.value >= 50 then Yellow
    else Red
  }

  /** A non-empty list of approved documents shows a green 100%. */
  lemma AllApprovedIsGreen(docs: seq<Doc>)
    requires docs != [] && forall k :: 0 <= k < |docs| ==> docs[k].status == "Approved"
    ensures ComplianceScore(docs) == Some(100)
    ensures ScoreColor(ComplianceScore(docs)) == Green
  {
    assert Filter(docs, (d: Doc) => d.status == "Approved") == docs;
    RoundPercentBounds(|docs|, |docs|);
  }

  /** With nothing approved the score is 0% and red. */
  lemma NoneApprovedIsRed(docs: seq<Doc>)
    requires docs != [] && forall k :: 0 <= k < |docs| ==> docs[k].status != "Approved"
    ensures ComplianceScore(docs) == Some(0)
    ensures ScoreColor(ComplianceScore(docs)) == Red
  {
    RoundPercentBounds(0, |docs|);
  }

  // ---------------------------------------------------------------------
  // Upload validation

  /** The `accept` lists of the four file kinds, flattened. */
  function AcceptedTypes(): seq<string> {
    [".pdf", ".xlsx", ".xls", ".doc", ".docx", ".zip"]
  }

  /** `type.replace(".", "")`: the text without its first dot. */
  function DropDot(ext: string): (r: string)
    ensures '.' in ext ==> |r| + 1 == |ext|
    ensures '.' !in ext ==> r == ext
  {
    var i := FindChar(ext, '.');
    if i < |ext| then ext[..i] + ext[i + 1..] else ext
  }

  /** The accepted extensions, each with its dot removed, so a name only
      has to end in the letters: "reportpdf" is accepted too. */
  predicate TypeAccepted(name: string) {
    EndsWith(name, "pdf") || EndsWith(name, "xlsx") || EndsWith(name, "xls") ||
    EndsWith(name, "doc") || EndsWith(name, "docx") || EndsWith(name, "zip")
  }

  /** The type check is the page's: some accepted type, with its dot
      removed, ends the name. */
  lemma TypeAcceptedIffListed(name: string)
    ensures TypeAccepted(name) <==>
      exists k :: 0 <= k < |AcceptedTypes()| && EndsWith(name, DropDot(AcceptedTypes()[k]))
  {
    var ts := AcceptedTypes();
    forall k | 0 <= k < |ts| ensures DropDot(ts[k]) == BareTypes()[k] {
      DroppedType(k);
    }
    TypeAcceptedBare(name);
  }

  /** The accepted extensions without their dots. */
  function BareTypes(): seq<string> {
    ["pdf", "xlsx", "xls", "doc", "docx", "zip"]
  }

  /** The hard-coded check is the list of bare extensions. */
  lemma TypeAcceptedBare(name: string)
    ensures TypeAccepted(name) <==> exists k :: 0 <= k < |BareTypes()| && EndsWith(name, BareTypes()[k])
  {
    var bs := BareTypes();
    if exists k :: 0 <= k < |bs| && EndsWith(name, bs[k]) {
      var k :| 0 <= k < |bs| && EndsWith(name, bs[k]);
      assert k in {0, 1, 2, 3, 4, 5};
    }
    if TypeAccepted(name) {
      if EndsWith(name, "pdf") { assert EndsWith(name, bs[0]); }
      else if EndsWith(name, "xlsx") { assert EndsWith(name, bs[1]); }
      else if EndsWith(name, "xls") { assert EndsWith(name, bs[2]); }
      else if EndsWith(name, "doc") { assert EndsWith(name, bs[3]); }
      else if EndsWith(name, "docx") { assert EndsWith(name, bs[4]); }
      else { assert EndsWith(name, bs[5]); }
    }
  }

  /** With its dot removed, an accepted type is the bare extension. */
  lemma DroppedType(k: nat)
    requires k < |AcceptedTypes()|
    ensures DropDot(AcceptedTypes()[k]) == BareTypes()[k]
  {
    var ext := AcceptedTypes()[k];
    assert ext[0] == '.';
    assert FindChar(ext, '.') == 0;
    assert ext[1..] == BareTypes()[k];
  }

  predicate FileAcceptable(f: UploadFile) {
    TypeAccepted(f.name) && f.size <= MaxUploadBytes
  }

  /** The error of the first rejected file from position `i` on: the type
      is checked before the size. */
  function UploadProblemFrom(files: seq<UploadFile>, i: nat): Option<string>
    decreases |files| - i
  {
    if i >= |files| then None
    else if !TypeAccepted(files[i].name) then Some("Invalid file type.")
    else if files[i].size > MaxUploadBytes then Some("File too large (max 10MB).")
    else UploadProblemFrom(files, i + 1)
  }

  /** The error of the first rejected file, if any. */
  function UploadProblem(files: seq<UploadFile>): (r: Option<string>)
    ensures r.None? <==> forall k :: 0 <= k < |files| ==> FileAcceptable(files[k])
    ensures r.Some? ==> r.value == "Invalid file type." || r.value == "File too large (max 10MB)."
  {
    UploadProblemFromSpec(files, 0);
    UploadProblemFrom(files, 0)
  }

  /** The check rejects exactly the batches holding a bad file, and then
      reports the first bad file's reason. */
  lemma {:induction false} UploadProblemFromSpec(files: seq<UploadFile>, i: nat)
    requires i <= |files|
    ensures UploadProblemFrom(files, i).None? <==> forall k :: i <= k < |files| ==> FileAcceptable(files[k])
    ensures UploadProblemFrom(files, i).Some? ==>
              exists k :: i <= k < |files| && !FileAcceptable(files[k]) &&
                          (forall j :: i <= j < k ==> FileAcceptable(files[j])) &&
                          UploadProblemFrom(files, i).value ==
                            (if TypeAccepted(files[k].name) then "File too large (max 10MB)." else "Invalid file type.")
    decreases |files| - i
  {
    if i < |files| && FileAcceptable(files[i]) {
      UploadProblemFromSpec(files, i + 1);
      var r := UploadProblemFrom(files, i + 1);
      if r.Some? {
        var k :| i + 1 <= k < |files| && !FileAcceptable(files[k]) &&
                 (forall j :: i + 1 <= j < k ==> FileAcceptable(files[j])) &&
                 r.value == (if TypeAccepted(files[k].name) then "File too large (max 10MB)." else "Invalid file type.");
        assert forall j :: i <= j < k ==> FileAcceptable(files[j]);
      }
    }
  }

  /** A name without the dot before its extension is accepted. */
  lemma DotlessNameAccepted()
    ensures UploadProblem([UploadFile("reportpdf", 1000)]).None?
  {
    assert EndsWith("reportpdf", "pdf") by {
      assert "reportpdf"[6..] == "pdf";
    }
  }

  // ---------------------------------------------------------------------
  // The uploaded document

  /** The document a finished upload adds, for the files of the upload,
      the submission date `today` (`YYYY-MM-DD`) and the local time text
      `now` of the history entry. */
  function NewDoc(prev: seq<Doc>, files: seq<UploadFile>, today: string, now: string): (d: Doc)
    requires |files| > 0
    ensures d.id == |prev| + 1 && d.status == "Pending" && d.name == files[0].name
    ensures |d.attachments| == |files| && forall k :: 0 <= k < |files| ==> d.attachments[k] == files[k].name
  {
    Doc(|prev| + 1, files[0].name, "Unknown", "Unknown", "You", "Pending", "", today, "",
        seq(|files|, k requires 0 <= k < |files| => files[k].name),
        [HistoryEntry("Uploaded", "You", now)], "")
  }

  /** Every id lies in 1..n for a list of n documents, and no two are equal. */
  predicate IdsWellFormed(docs: seq<Doc>) {
    (forall k :: 0 <= k < |docs| ==> 1 <= docs[k].id <= |docs|) &&
    forall j, k :: 0 <= j < k < |docs| ==> docs[j].id != docs[k].id
  }

  /** Prepending the new document keeps ids well formed: its id is new. */
  lemma NewDocIdFresh(prev: seq<Doc>, files: seq<UploadFile>, today: string, now: string)
    requires |files| > 0 && IdsWellFormed(prev)
    ensures forall k :: 0 <= k < |prev| ==> prev[k].id != NewDoc(prev, files, today, now).id
    ensures IdsWellFormed([NewDoc(prev, files, today, now)] + prev)
  {
    var docs := [NewDoc(prev, files, today, now)] + prev;
    assert forall k :: 1 <= k < |docs| ==> docs[k] == prev[k - 1];
  }

  /** The two documents the page starts with. */
  function SampleDocs(): seq<Doc> {
    [Doc(1, "ESG_Report_July2025.pdf", "SEBI", "Sustainability", "Ali", "Under Review", "Jane Doe",
         "2025-07-20", "Awaiting additional data", ["ESG_Report_July2025.pdf"],
         [HistoryEntry("Uploaded", "Ali", "2025-07-20 10:12"), HistoryEntry("Reviewed", "Jane Doe", "2025-07-21 09:00")],
         "2025-07-25"),
     Doc(2, "GHG_Compliance.xlsx", "BRSR", "Finance", "Ali", "Approved", "John Smith",
         "2025-07-10", "All clear", ["GHG_Compliance.xlsx", "GHG_Supporting.zip"],
         [HistoryEntry("Uploaded", "Ali", "2025-07-10 14:22"), HistoryEntry("Reviewed", "John Smith", "2025-07-11 11:00"),
          HistoryEntry("Approved", "John Smith", "2025-07-11 11:05")],
         "2025-07-20")]
  }

  /** One of the two starting documents is approved: 50%, yellow. */
  lemma SampleDocsScore()
    ensures ComplianceScore(SampleDocs()) == Some(50)
    ensures ScoreColor(ComplianceScore(SampleDocs())) == Yellow
  {
    var docs := SampleDocs();
    assert docs[0].status != "Approved" by {
      assert docs[0].status[0] != "Approved"[0];
    }
    assert docs[1..] == [docs[1]];
    assert ApprovedCount(docs) == 1;
  }

  /** The page's state. */
  class CompliancePage {
    var docs: seq<Doc>
    var uploadError: string
    var uploading: bool
    var progress: int

    ghost predicate Valid()
      reads this
    {
      IdsWellFormed(docs)
    }

    constructor()
      ensures Valid() && docs == SampleDocs() && uploadError == "" && !uploading && progress == 0
    {
      docs := SampleDocs();
      uploadError := "";
      uploading := false;
      progress := 0;
    }

    /** `handleFileUpload`, up to starting the upload: only the officer
        role may upload; the error is cleared, then each file is checked in
        turn and the first failure is reported; a clean batch starts the
        upload at 0%. */
    method HandleFileUpload(role: string, files: seq<UploadFile>)
      requires Valid()
      modifies this
      ensures Valid() && docs == old(docs)
      ensures role != "officer" ==>
                uploadError == old(uploadError) && uploading == old(uploading) && progress == old(progress)
      ensures role == "officer" && (files == [] || UploadProblem(files).Some?) ==>
                uploading == old(uploading) && progress == old(progress)
      ensures role == "officer" ==>
                uploadError == (if files != [] && UploadProblem(files).Some? then UploadProblem(files).value else "")
      ensures role == "officer" && files != [] && UploadProblem(files).None? ==> uploading && progress == 0
    {
      if role != "officer" {
        return;
      }
      uploadError := "";
      if |files| == 0 {
        return;
      }
      for i := 0 to |files|
        invariant UploadProblemFrom(files, i) == UploadProblem(files)
        invariant uploadError == "" && uploading == old(uploading) && progress == old(progress)
        invariant docs == old(docs)
      {
        if !TypeAccepted(files[i].name) {
          uploadError := "Invalid file type.";
          return;
        }
        if files[i].size > MaxUploadBytes {
          uploadError := "File too large (max 10MB).";
          return;
        }
      }
      uploading := true;
      progress := 0;
    }

    /** The last tick of the simulated upload: the new document goes in
        front of the list and the upload ends. */
    method CompleteUpload(files: seq<UploadFile>, today: string, now: string)
      requires Valid() && |files| > 0
      modifies this
      ensures Valid()
      ensures docs == [NewDoc(old(docs), files, today, now)] + old(docs)
      ensures !uploading && progress == 100 && uploadError == old(uploadError)
    {
      NewDocIdFresh(docs, files, today, now);
      docs := [NewDoc(docs, files, today, now)] + docs;
      uploading := false;
      progress := 100;
    }
  }

  // ---------------------------------------------------------------------
  // Filters and counters

  /** A document passes every non-empty filter; the date filter is a
      prefix of the submission date and the search a case-insensitive part
      of the name. */
  function DocMatches(f: DocFilters, search: string): Doc -> bool {
    (d: Doc) =>
      (f.docType == "" || d.docType == f.docType) &&
      (f.status == "" || d.status == f.status) &&
      (f.date == "" || StartsWith(d.submitted, f.date)) &&
      (f.department == "" || d.department == f.department) &&
      (f.owner == "" || d.owner == f.owner) &&
      (search == "" || ContainsCI(d.name, search))
  }

  function FilteredDocs(docs: seq<Doc>, f: DocFilters, search: string): (r: seq<Doc>)
    ensures IsSubsequence(r, docs)
    ensures forall k :: 0 <= k < |r| ==>
              (f.docType != "" ==> r[k].docType == f.docType) &&
              (f.status != "" ==> r[k].status == f.status) &&
              (f.date != "" ==> StartsWith(r[k].submitted, f.date)) &&
              (f.department != "" ==> r[k].department == f.department) &&
              (f.owner != "" ==> r[k].owner == f.owner) &&
              (search != "" ==> ContainsCI(r[k].name, search))
    ensures forall k :: 0 <= k < |docs| && DocMatches(f, search)(docs[k]) ==> docs[k] in r
    ensures f == DocFilters("", "", "", "", "") && search == "" ==> r == docs
  {
    Filter(docs, DocMatches(f, search))
  }

  predicate AwaitingReview(d: Doc) {
    d.status == "Pending" || d.status == "Under Review"
  }

  /** Documents still waiting for a decision. */
  function PendingReviews(docs: seq<Doc>): (n: nat)
    ensures n <= |docs|
    ensures n == 0 <==> forall k :: 0 <= k < |docs| ==> !AwaitingReview(docs[k])
  {
    Count(docs, AwaitingReview)
  }

  /** A completed upload adds exactly one pending review. */
  lemma PendingAfterUpload(prev: seq<Doc>, files: seq<UploadFile>, today: string, now: string)
    requires |files| > 0
    ensures PendingReviews([NewDoc(prev, files, today, now)] + prev) == PendingReviews(prev) + 1
  {
    var docs := [NewDoc(prev, files, today, now)] + prev;
    assert docs[1..] == prev;
  }

  // ---------------------------------------------------------------------
  // Calendar

  /** The label of day `i` (0-based) of `month` (`YYYY-MM`): the month,
      a dash and the day number padded to two digits. */
  function DayString(month: string, i: nat): string {
    month + "-" + PadStart(NatToString(i + 1), 2, '0')
  }

  /** For any day of a month the label ends in exactly two digits that
      spell the day number. */
  lemma DayStringDay(month: string, i: nat)
    requires i < 99
    ensures var s := DayString(month, i);
            |s| == |month| + 3 && s[..|month| + 1] == month + "-" &&
            IsDigit(s[|s| - 2]) && IsDigit(s[|s| - 1]) &&
            DigitValue(s[|s| - 2]) * 10 + DigitValue(s[|s| - 1]) == i + 1
  {
    var p := PadStart(NatToString(i + 1), 2, '0');
    TwoDigitPad(i + 1);
    var s := DayString(month, i);
    assert s == (month + "-") + p;
  }

  lemma TwoDigitPad(n: nat)
    requires 1 <= n < 100
    ensures var p := PadStart(NatToString(n), 2, '0');
            |p| == 2 && IsDigit(p[0]) && IsDigit(p[1]) && DigitValue(p[0]) * 10 + DigitValue(p[1]) == n
  {
    var p := PadStart(NatToString(n), 2, '0');
    if n < 10 {
      assert NatToString(n) == [DigitChar(n)];
      assert p == ['0', DigitChar(n)];
    } else {
      assert NatToString(n / 10) == [DigitChar(n / 10)];
      assert p == [DigitChar(n / 10), DigitChar(n % 10)];
    }
  }

  /** `new Date(year, month, 0).getDate()`: the number of days of `month`
      (1..12) in the Gregorian calendar; JavaScript reads years 0..99 as
      1900..1999. */
  function DaysInMonth(year: int, month: int): (n: int)
    requires 1 <= month <= 12
    ensures 28 <= n <= 31
    ensures month == 2 ==> n == (if IsLeapYear(if 0 <= year <= 99 then 1900 + year else year) then 29 else 28)
    ensures month in {4, 6, 9, 11} ==> n == 30
    ensures month != 2 && month !in {4, 6, 9, 11} ==> n == 31
  {
    var y := if 0 <= year <= 99 then 1900 + year else year;
    if month == 2 then (if IsLeapYear(y) then 29 else 28)
    else if month == 4 || month == 6 || month == 9 || month == 11 then 30
    else 31
  }

  /** The twelve months of a year add up to 365 days, 366 in a leap
      year. */
  lemma YearLength(year: int)
    ensures DaysInMonth(year, 1) + DaysInMonth(year, 2) + DaysInMonth(year, 3) + DaysInMonth(year, 4)
          + DaysInMonth(year, 5) + DaysInMonth(year, 6) + DaysInMonth(year, 7) + DaysInMonth(year, 8)
          + DaysInMonth(year, 9) + DaysInMonth(year, 10) + DaysInMonth(year, 11) + DaysInMonth(year, 12)
         == if IsLeapYear(if 0 <= year <= 99 then 1900 + year else year) then 366 else 365
  {
  }

  predicate IsLeapYear(y: int) {
    y % 4 == 0 && (y % 100 != 0 || y % 400 == 0)
  }

  /** The day labels of the calendar grid. */
  function CalendarDays(month: string, days: nat): (r: seq<string>)
    ensures |r| == days
    ensures forall i :: 0 <= i < days ==> r[i] == DayString(month, i)
  {
    seq(days, i requires 0 <= i < days => DayString(month, i))
  }
}
