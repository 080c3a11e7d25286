# CRM / ESG dashboard core in Dafny

This project models the logic of a CRM and ESG-reporting web application. The application has a React client and an Express server. The model covers three parts:

- **ESG report metadata extraction.** When a PDF report is uploaded, the server fills five optional fields from its plain text: ESG score, company, year, metrics and summary. Each field comes from one fixed regular expression, and the leftmost match wins. The model replaces each expression with an explicit scan over the text. Beside each scan is a declarative description of what the expression accepts, and lemmas prove that the scan returns the leftmost match. The model also covers the length guard of the global search endpoint.
- **The lead pipeline board.** The board maps each stage key to its list of cards. The model covers:
  - drag and drop;
  - owner assignment;
  - round-robin division of uploaded leads among users;
  - per-row edits of the leads table;
  - adding a stage;
  - the total and conversion-rate counters;
  - the role- and search-dependent leads table.
- **The client pages' validators, list updates and filters.** These cover Compliances, Reports, Activity Tracker, Contacts, Reminders, Login, Signup, Dashboard and Analytics.

State that a page changes in place is a Dafny `class` with methods that carry `modifies` clauses. The class fields mirror the page's state variables, for example `LeadBoard.columns`, `CompliancePage.docs` and `Tracker.reminders`. Pure expressions such as filters, counters, labels and the extractor are functions, with lemmas about them.

Shared modules:
- `Text` holds the JavaScript string operations the pages use: trim, split/join, includes, case-insensitive includes, pad, slice and truthiness defaults.
- `Seqs` holds `filter` and the order-preserving subsequence it produces.
- `Percent` holds the exact integer form of `Math.round(a / t * 100)`.

Modelling choices:
- The clock, the current year and month, the logged-in role and user name, the search text, and the server's answers to requests are all parameters.
- Values the source leaves missing or `null` are `Option` values.
- A JavaScript `||` default is `Text.OrElse`, which treats the empty string as missing.

## Model

| member | source | states |
|---|---|---|
| Extractor.EsgScore | crm-project/server/index.js:540-541 | the score, when present, is a well-formed numeral: digits with an optional fraction |
| Extractor.EsgScoreIsLeftmostMatch | crm-project/server/index.js:540-541 | the score is absent iff the score pattern matches nowhere; otherwise it is the numeral at the leftmost match |
| Extractor.ScoreDigitsStartIff | crm-project/server/index.js:540 | after an "ESG", the text up to a digit is accepted by the pattern's optional Score/Rating word and separator gap iff the scan stops at that digit |
| Extractor.GapIff | crm-project/server/index.js:540-560 | the texts accepted by the gap pattern (white space, at most one ':' or '-', white space) are exactly the prefixes of the greedy gap |
| Extractor.NumeralAt | crm-project/server/index.js:540-541 | the numeral that greedy matching takes occurs at the digit where it starts and cannot be extended |
| Extractor.Captured | crm-project/server/index.js:544-545 | a company or metrics capture contains only characters of its class and has no surrounding spaces |
| Extractor.CapturedIsLeftmostMatch | crm-project/server/index.js:544-545 | the capture is absent iff the labelled pattern matches nowhere; otherwise it is the trimmed class run at the leftmost match |
| Extractor.CaptureMatchAtSpec | crm-project/server/index.js:544-545 | from a given start, the pattern matches iff the scan finds a capture start, and the scan's start is the latest the pattern allows |
| Extractor.Metrics | crm-project/server/index.js:552-557 | if Environment, Social and Governance all occur (ignoring case), metrics is "Environment, Social, Governance"; otherwise it is the Metrics capture |
| Extractor.YearValue | crm-project/server/index.js:548-549 | a 19dd or 20dd token has a value between 1900 and 2099 |
| Extractor.Year | crm-project/server/index.js:548-549 | when present, the year lies in 1900..2099 |
| Extractor.YearIsFirstToken | crm-project/server/index.js:548-549 | the year is absent iff the year pattern matches nowhere; otherwise it is the value of the first 19dd/20dd token in the text, whatever label precedes it |
| Extractor.Summary | crm-project/server/index.js:560-566 | a present summary has no newline and at most 500 characters |
| Extractor.LabelFound | crm-project/server/index.js:560 | a Summary/Overview label anywhere in the text is found by the leftmost search, at or before that position |
| Extractor.LabelledIsSummary | crm-project/server/index.js:560-562 | when the leftmost label is at p, the summary is the labelled summary taken after the label and its gap (white space, an optional separator, white space) |
| Extractor.SummaryFromEsg | crm-project/server/index.js:563-566 | with no label anywhere and some "ESG" word, the summary is the fallback text from the first "ESG" |
| Extractor.SummaryAbsent | crm-project/server/index.js:560-566 | with neither a label nor an "ESG" word, there is no summary |
| Extractor.LabelledSummaryFirstLine | crm-project/server/index.js:560-562 | the labelled summary is the trimmed text from the capture start up to the first newline within the next 500 characters, or up to the window's end when there is none |
| Extractor.LabelledSummary | crm-project/server/index.js:560-562 | the labelled summary has no newline and at most 500 characters |
| Extractor.FallbackSummary | crm-project/server/index.js:563-566 | the fallback text starts with "ESG", holds no newline and has at most 200 characters |
| Extractor.FallbackSummaryChars | crm-project/server/index.js:563-566 | the fallback text has length min(200, the "ESG" plus up to 500 following characters), and character k is the text's character at "ESG"+k with a newline turned into a space |
| Extractor.SummaryFallbackExample | crm-project/server/index.js:563-566 | "x ESG\nab" has no label and gives the summary "ESG ab" |
| Extractor.SummaryLabelExample | crm-project/server/index.js:560-562 | "Summary: ok\nNext" gives the summary "ok": only the first line after the gap |
| Extractor.EsgPrefixKept | crm-project/server/index.js:565-566 | the fallback summary still starts with the "ESG" it was found at |
| Extractor.GapEndIsLongest | crm-project/server/index.js:560-562 | the summary's text starts after the longest gap that follows the label |
| Extractor.Extract | crm-project/server/index.js:537-566 | the record combines the five fields, and its year lies in 1900..2099 |
| Extractor.ExtractEmpty | crm-project/server/index.js:537-566 | empty text yields a record with all five fields absent |
| Extractor.ScoreExample | crm-project/server/index.js:540-541 | "ESG: 70" yields the score 70 |
| Extractor.YearExample | crm-project/server/index.js:548-549 | an earlier unlabelled year wins over a later "Report Year" |
| Extractor.GlobalSearchPlan | crm-project/server/index.js:30 | no query runs iff q is missing or shorter than 2 characters; otherwise the pattern is '%', then q, then '%' |
| LeadPipeline.Remove | crm-project/client/src/pages/LeadPipeline.jsx:71 | removing index i keeps the elements before i, shifts the rest down, and removes exactly one copy of the element |
| LeadPipeline.Insert | crm-project/client/src/pages/LeadPipeline.jsx:72 | inserting at j puts the card at j, shifts the rest up, and adds exactly one copy of it |
| LeadPipeline.InsertRemove | crm-project/client/src/pages/LeadPipeline.jsx:71-72 | removing a card and inserting it at the same index restores the column |
| LeadPipeline.Dropped | crm-project/client/src/pages/LeadPipeline.jsx:62-84 | the board after a drop, as written, has the same stage keys |
| LeadPipeline.DragAcrossColumns | crm-project/client/src/pages/LeadPipeline.jsx:67-76 | a move between columns removes the card from the source index, inserts it at the destination index, leaves every other column unchanged, and preserves the total card count |
| LeadPipeline.DragWithinColumnDuplicates | crm-project/client/src/pages/LeadPipeline.jsx:67-76 | a move inside one column, as written, yields the original column with the card inserted again: one card longer, with the total up by one |
| LeadPipeline.DragWithinColumnExample | crm-project/client/src/pages/LeadPipeline.jsx:19-31 | dragging the first "lead" card of the initial board to index 1 leaves three cards in that column |
| LeadPipeline.MoveCard | crm-project/client/src/pages/LeadPipeline.jsx:62-84 | the corrected move keeps the stage keys |
| LeadPipeline.MoveCardKeepsCards | crm-project/client/src/pages/LeadPipeline.jsx:62-84 | the corrected move preserves the total, places the card at the destination index, and leaves other columns unchanged |
| LeadPipeline.LeadBoard.OnDragEnd | crm-project/client/src/pages/LeadPipeline.jsx:62-84 | no destination, or the same place, leaves the board unchanged; otherwise the board becomes the dropped board; nothing else changes |
| LeadPipeline.LeadBoard.constructor | crm-project/client/src/pages/LeadPipeline.jsx:41-48 | the board starts with the initial columns and the four built-in stages, no leads, the sample users, a closed modal and no final assignment |
| LeadPipeline.OwnerAssigned | crm-project/client/src/pages/LeadPipeline.jsx:87-96 | only cards with the matching id in the given column get the new owner; ids, order, other fields and other columns are unchanged |
| LeadPipeline.OwnerAssignedIdempotent | crm-project/client/src/pages/LeadPipeline.jsx:87-96 | assigning the same owner twice is assigning once |
| LeadPipeline.LeadBoard.AssignOwner | crm-project/client/src/pages/LeadPipeline.jsx:87-96 | the open card's owner is set and the modal closes |
| LeadPipeline.Divided | crm-project/client/src/pages/LeadPipeline.jsx:99-106 | lead i gets owner users[i mod n], and every other field and the order are kept |
| LeadPipeline.DividedShare | crm-project/client/src/pages/LeadPipeline.jsx:99-106 | with m leads and n distinct users, user u receives m div n leads, plus one when u < m mod n |
| LeadPipeline.DividedBalanced | crm-project/client/src/pages/LeadPipeline.jsx:99-106 | any two users' shares differ by at most one |
| LeadPipeline.LeadBoard.DivideLeads | crm-project/client/src/pages/LeadPipeline.jsx:99-106 | no leads or no users is a no-op; otherwise the leads become the divided leads |
| LeadPipeline.WithOwnerAt | crm-project/client/src/pages/LeadPipeline.jsx:109-115 | only row idx gets the new owner |
| LeadPipeline.WithOwnerAtOverrides | crm-project/client/src/pages/LeadPipeline.jsx:109-115 | a second assignment to the same row overrides the first |
| LeadPipeline.LeadBoard.AssignUploadedLead | crm-project/client/src/pages/LeadPipeline.jsx:109-115 | the leads become the leads with row idx reassigned |
| LeadPipeline.WithStatusAt | crm-project/client/src/pages/LeadPipeline.jsx:165-171 | only row idx gets the new status |
| LeadPipeline.LeadBoard.UpdateLeadStatus | crm-project/client/src/pages/LeadPipeline.jsx:165-171 | the leads become the leads with row idx's status changed |
| LeadPipeline.LeadBoard.HandleFinalAssign | crm-project/client/src/pages/LeadPipeline.jsx:118-123 | the assignment is marked final and nothing else changes |
| LeadPipeline.LeadBoard.TotalLeads | crm-project/client/src/pages/LeadPipeline.jsx:126 | the total is the sum of the column lengths over the stage keys, which are the board's keys; it counts at least the client column |
| LeadPipeline.LeadBoard.ConversionRate | crm-project/client/src/pages/LeadPipeline.jsx:127-128 | the rate is 0 for an empty board; otherwise it is client·100/total rounded half up; it always lies in 0..100 |
| LeadPipeline.InitialConversionRate | crm-project/client/src/pages/LeadPipeline.jsx:19-31 | the initial board (one client card out of four) has rate 25 |
| LeadPipeline.CustomKeyInjective | crm-project/client/src/pages/LeadPipeline.jsx:132 | different stage counts give different custom keys |
| LeadPipeline.WellKeyedDistinct | crm-project/client/src/pages/LeadPipeline.jsx:131-138 | a board whose stage keys are the built-in ones plus custom keys has no duplicate key |
| LeadPipeline.LeadBoard.AddStage | crm-project/client/src/pages/LeadPipeline.jsx:131-138 | appends the stage "custom" + n, where n is the previous stage count; that key is new; the board gains an empty column under it; existing columns are unchanged |
| LeadPipeline.AddStageKeepsTotal | crm-project/client/src/pages/LeadPipeline.jsx:131-138 | adding a stage leaves the total card count unchanged |
| LeadPipeline.FilteredLeads | crm-project/client/src/pages/LeadPipeline.jsx:191-199 | the table is an order-preserving subsequence of the leads; every row matches the search; for a non-admin every row's owner is the user; every visible, matching lead is listed |
| LeadPipeline.AdminEmptySearchSeesAll | crm-project/client/src/pages/LeadPipeline.jsx:191-199 | an admin with an empty search sees every lead |
| LeadPipeline.SourceIndex | crm-project/client/src/pages/LeadPipeline.jsx:191-199 | each table row has a position in the full lead list holding the same lead |
| LeadPipeline.StatusForRow | crm-project/client/src/pages/LeadPipeline.jsx:254-279 | the corrected status edit changes exactly the lead shown in the table row |
| LeadPipeline.OwnerForRow | crm-project/client/src/pages/LeadPipeline.jsx:254-279 | the corrected owner edit changes exactly the lead shown in the table row |
| LeadPipeline.StatusRowMismatch | crm-project/client/src/pages/LeadPipeline.jsx:254-279 | with a filtered table, editing row 0 as written changes a lead that the user does not see |
| LeadPipeline.MarketingLeadsCount | crm-project/client/src/pages/LeadPipeline.jsx:478-480 | the count is 0 exactly when no lead has status "Marketing" |
| LeadPipeline.SampleMarketingCount | crm-project/client/src/pages/LeadPipeline.jsx:33-38 | the sample leads hold two marketing leads |
| Compliances.ComplianceScore | crm-project/client/src/pages/Compliances.jsx:76-84 | there is no score exactly when there are no documents; otherwise the score is approved·100/total rounded half up, in 0..100 |
| Compliances.ScoreColor | crm-project/client/src/pages/Compliances.jsx:76-84 | green iff the score is above 80, yellow iff it lies in 50..80, red otherwise |
| Compliances.AllApprovedIsGreen | crm-project/client/src/pages/Compliances.jsx:76-84 | all documents approved gives 100 and green |
| Compliances.NoneApprovedIsRed | crm-project/client/src/pages/Compliances.jsx:76-84 | no document approved gives 0 and red |
| Compliances.SampleDocsScore | crm-project/client/src/pages/Compliances.jsx:8-44 | the sample documents score 50, which is yellow |
| Compliances.UploadProblemFromSpec | crm-project/client/src/pages/Compliances.jsx:93-102 | there is no problem iff every remaining file has an accepted type and size; otherwise the problem is the first failing file's, with the type checked before the size |
| Compliances.TypeAcceptedIffListed | crm-project/client/src/pages/Compliances.jsx:93-95 | a name passes the type check iff it ends with one of .pdf, .xlsx, .xls, .doc, .docx, .zip with its dot removed |
| Compliances.TypeAcceptedBare | crm-project/client/src/pages/Compliances.jsx:93-95 | a name passes the type check iff it ends with one of pdf, xlsx, xls, doc, docx, zip |
| Compliances.UploadProblem | crm-project/client/src/pages/Compliances.jsx:93-102 | no problem iff every file has an accepted type and size; a problem is one of the two messages |
| Compliances.DotlessNameAccepted | crm-project/client/src/pages/Compliances.jsx:53-58 | a file named "reportpdf" passes the type check |
| Compliances.CompliancePage.HandleFileUpload | crm-project/client/src/pages/Compliances.jsx:87-106 | nothing happens for a role other than "officer" or for no files; the first failing file sets its message; otherwise the upload starts; the documents are unchanged |
| Compliances.CompliancePage.constructor | crm-project/client/src/pages/Compliances.jsx:65-68 | the page starts with the two sample documents, no upload running, progress 0 and no error |
| Compliances.NewDoc | crm-project/client/src/pages/Compliances.jsx:112-130 | the new document has id = previous count + 1, status "Pending", the first file's name, and every file's name as an attachment |
| Compliances.NewDocIdFresh | crm-project/client/src/pages/Compliances.jsx:112-130 | when the n ids are distinct and lie in 1..n, the new id n+1 is fresh, and the prepended list again has distinct ids in 1..n+1 |
| Compliances.CompliancePage.CompleteUpload | crm-project/client/src/pages/Compliances.jsx:112-133 | the new document is prepended before the unchanged old ones, progress is 100 and uploading stops |
| Compliances.FilteredDocs | crm-project/client/src/pages/Compliances.jsx:139-146 | the result is a subsequence; each document meets every non-empty filter (the date filter as a prefix of the submission date, search as a case-insensitive name match); every matching document is kept; with no filter and no search, everything is kept |
| Compliances.PendingReviews | crm-project/client/src/pages/Compliances.jsx:150 | the count is 0 exactly when no document is "Pending" or "Under Review" |
| Compliances.PendingAfterUpload | crm-project/client/src/pages/Compliances.jsx:150 | an upload raises the pending count by exactly one |
| Compliances.DaysInMonth | crm-project/client/src/pages/Compliances.jsx:154 | February has 29 days in a leap year and 28 otherwise (years 0..99 read as 1900..1999); April, June, September and November have 30; every other month has 31 |
| Compliances.YearLength | crm-project/client/src/pages/Compliances.jsx:154 | the twelve months add up to 365 days, 366 in a leap year |
| Compliances.CalendarDays | crm-project/client/src/pages/Compliances.jsx:201-203 | the calendar has one label per day, and label i is the day string of i |
| Compliances.DayStringDay | crm-project/client/src/pages/Compliances.jsx:202-203 | label i is the month, '-', and the two-digit day i+1 |
| Reports.FileChangeError | crm-project/client/src/pages/Reports.jsx:88-107 | "No file selected." iff no file; "Only PDF files are allowed." iff a non-PDF MIME type; "Max file size is 10MB." iff a PDF over 10·1024·1024 bytes; no error otherwise |
| Reports.ReportsPage.HandleFileChange | crm-project/client/src/pages/Reports.jsx:88-107 | a failure sets its message and clears the selection; success selects the file and clears the error; a file is selected iff the error is empty |
| Reports.ReportsPage.HandleUpload | crm-project/client/src/pages/Reports.jsx:109-113 | without a selected file it sets "No file selected." and sends nothing; otherwise it sends the selected file |
| Reports.YearOf | crm-project/client/src/pages/Reports.jsx:165 | a year of 0 counts as no year |
| Reports.FilteredReports | crm-project/client/src/pages/Reports.jsx:162-190 | the result is a subsequence; each report passes the period filter and the search; every passing report is kept |
| Reports.AllKeepsEverything | crm-project/client/src/pages/Reports.jsx:164-183 | "all" with an empty search keeps every report |
| Reports.UnknownFilterKeepsNothing | crm-project/client/src/pages/Reports.jsx:180 | an unrecognised period keeps nothing |
| Reports.PeriodsNest | crm-project/client/src/pages/Reports.jsx:165-179 | monthly implies quarterly, and quarterly implies yearly; yearly holds iff the year equals the current year |
| Reports.CompanyMetrics | crm-project/client/src/pages/Reports.jsx:302 | with no report or a falsy first metrics value the list is ["Environment", "Social", "Governance"]; otherwise it has one entry per comma-separated part of the first report's metrics, each part trimmed |
| Reports.CompanyMetricsJoin | crm-project/client/src/pages/Reports.jsx:302 | a metrics text made by joining trimmed, comma-free names with ',' is split back into exactly those names |
| Reports.ReportsPage.constructor | crm-project/client/src/pages/Reports.jsx:17-19 | initial state: no reports, no file, no error, no edit, and edit fields company/year/metrics/summary |
| Reports.ReportsPage.HandleCancelEdit | crm-project/client/src/pages/Reports.jsx:34-38 | editing ends, the status message clears, and the edit fields become company/year/standard/status, all empty |
| ActivityTracker.LogStamp | crm-project/client/src/pages/ActivityTracker.jsx:43 | the stamp is the first 16 characters of the ISO time with the first 'T' turned into a space |
| ActivityTracker.LogStampOfIso | crm-project/client/src/pages/ActivityTracker.jsx:43 | an ISO instant yields "YYYY-MM-DD HH:MM" |
| ActivityTracker.Tracker.constructor | crm-project/client/src/pages/ActivityTracker.jsx:6-34 | the page starts with two activities, two open reminders and empty forms |
| ActivityTracker.Tracker.HandleAddActivity | crm-project/client/src/pages/ActivityTracker.jsx:37-48 | a missing title or notes changes nothing; otherwise the new activity is prepended to the unchanged list and the form resets to "Meeting" |
| ActivityTracker.Tracker.HandleAddReminder | crm-project/client/src/pages/ActivityTracker.jsx:51-58 | a missing task or due date changes nothing; otherwise an open reminder is prepended and the form is emptied |
| ActivityTracker.Toggled | crm-project/client/src/pages/ActivityTracker.jsx:61-67 | only entries with the id flip done; everything else is kept |
| ActivityTracker.ToggleInvolution | crm-project/client/src/pages/ActivityTracker.jsx:61-67 | toggling twice restores the list |
| ActivityTracker.ToggleCommutes | crm-project/client/src/pages/ActivityTracker.jsx:61-67 | toggles of two ids commute |
| ActivityTracker.Tracker.ToggleReminder | crm-project/client/src/pages/ActivityTracker.jsx:61-67 | the reminders become the toggled list |
| ActivityTracker.Deleted | crm-project/client/src/pages/ActivityTracker.jsx:70-72 | every entry with the id goes; the rest keep their order; with no such entry, the list is unchanged |
| ActivityTracker.DeleteIdempotent | crm-project/client/src/pages/ActivityTracker.jsx:70-72 | deleting twice is deleting once |
| ActivityTracker.DeleteCount | crm-project/client/src/pages/ActivityTracker.jsx:70-72 | deleting removes exactly as many entries as carry the id |
| ActivityTracker.Tracker.DeleteReminder | crm-project/client/src/pages/ActivityTracker.jsx:70-72 | the reminders become the deleted list |
| Contacts.ContactsPage.HandleAdd | crm-project/client/src/pages/Contacts.jsx:44-62 | without a name, email, company or designation nothing is sent; otherwise the form is sent, and on success all five fields empty |
| Contacts.ContactsPage.constructor | crm-project/client/src/pages/Contacts.jsx:8-23 | no contacts, an empty add form, no contact being edited and an empty edit form |
| Contacts.FilteredContacts | crm-project/client/src/pages/Contacts.jsx:79-87 | the result is a subsequence of non-null contacts that each have a non-empty searched field containing the search; every such contact is kept |
| Contacts.EmptySearchKeepsNonBlank | crm-project/client/src/pages/Contacts.jsx:79-87 | with an empty search, a row is kept iff it is non-null and one of its five searched fields is non-empty |
| Contacts.EditFormOf | crm-project/client/src/pages/Contacts.jsx:88-99 | editing copies name, email, company and designation, and defaults linkedin and phone to "" and role to "user" |
| Contacts.ContactsPage.HandleEdit | crm-project/client/src/pages/Contacts.jsx:88-99 | editing records the id and fills the form from the contact |
| Contacts.PayloadOf | crm-project/client/src/pages/Contacts.jsx:105-113 | every missing or empty field is sent as ""; the role is never empty and keeps a given role |
| Contacts.EditThenSave | crm-project/client/src/pages/Contacts.jsx:88-113 | editing and saving unchanged sends the contact's own fields with the same defaults |
| Contacts.ContactsPage.HandleSave | crm-project/client/src/pages/Contacts.jsx:102-129 | sends the payload; on success editing ends and the form resets to empty fields with role "user" |
| Contacts.ContactsPage.HandleCancel | crm-project/client/src/pages/Contacts.jsx:132-141 | editing ends and the form holds the five fields, empty, without phone or role |
| Contacts.SaveAfterCancel | crm-project/client/src/pages/Contacts.jsx:105-141 | a save straight after a cancel sends empty fields and role "user" |
| Contacts.DesignationLabel | crm-project/client/src/pages/Contacts.jsx:308 | "N/A" when the designation is missing or only white space; otherwise the designation |
| Reminders.RemindersPage.HandleAddReminder | crm-project/client/src/pages/Reminders.jsx:35-45 | without a task or due date nothing is sent; otherwise the form is sent with done false; on a reply, the reply row is appended and the form resets with type "Report Submission"; a failed request changes nothing |
| Reminders.RemindersPage.constructor | crm-project/client/src/pages/Reminders.jsx:8-14 | no reminders and a form with empty task and due, type "Report Submission" |
| Reminders.FilteredReminders | crm-project/client/src/pages/Reminders.jsx:69-75 | the result is a subsequence of non-null rows whose task, due or type is a non-empty string containing the search; every such row is kept |
| Reminders.EmptySearchKeepsStrings | crm-project/client/src/pages/Reminders.jsx:69-75 | with an empty search, a row is kept iff it is non-null and has a non-empty string task, due date or type |
| Reminders.FilterAfterAppend | crm-project/client/src/pages/Reminders.jsx:40-75 | after an append, the listed rows are the old list followed by the new row when it matches |
| Reminders.StatusLabel | crm-project/client/src/pages/Reminders.jsx:174-180 | "Completed" iff done is the boolean true, "Pending" otherwise |
| Reminders.LooseTrueIsPending | crm-project/client/src/pages/Reminders.jsx:180 | the string "true" and the number 1 show as "Pending" |
| Reminders.TypeLabel | crm-project/client/src/pages/Reminders.jsx:171 | "N/A" for a falsy type or white space only; the type itself otherwise; a truthy non-string type cannot be drawn |
| Login.Decide | crm-project/client/src/pages/Login.jsx:18-41 | an empty field gives "Please enter both email and password."; success stores the chosen role and the email before its first '@'; every other denial gives "Invalid email or password." |
| Login.GrantedIffKnown | crm-project/client/src/pages/Login.jsx:23-41 | the login succeeds iff role, email and password form one of the two demonstration accounts |
| Login.WrongRoleDenied | crm-project/client/src/pages/Login.jsx:23-41 | correct credentials under the other role are refused |
| Text.BeforeFirstIsFirstPart | crm-project/client/src/pages/Login.jsx:29 | the text before the first separator is the first element of the split |
| Login.UsernameIsLocalPart | crm-project/client/src/pages/Login.jsx:28-37 | for an email name@domain with no '@' in name, the stored user name is name |
| Login.LoginPage.HandleLogin | crm-project/client/src/pages/Login.jsx:11-42 | the error is cleared first; a denial shows its message and stores nothing; a grant stores role and user name and opens /dashboard with no error |
| Login.LoginPage.Apply | crm-project/client/src/pages/Login.jsx:13-40 | the error is cleared; a denial shows its message and leaves storage and location alone; a grant stores the role and user name and opens /dashboard; the form fields are unchanged |
| Login.LoginPage.constructor | crm-project/client/src/pages/Login.jsx:5-8 | empty email, password and error, role "user", no navigation yet; the stored role and name are what browser storage holds |
| Signup.Check | crm-project/client/src/pages/Signup.jsx:17-24 | missing iff any field is empty; mismatch iff all fields are filled and the passwords differ; accepted only with equal, non-empty passwords |
| Signup.SignupPage.HandleSignup | crm-project/client/src/pages/Signup.jsx:13-29 | exactly one of error and success is non-empty afterwards; a rejection keeps the fields with its message; acceptance sets the approval message and empties all four fields |
| Signup.SignupPage.constructor | crm-project/client/src/pages/Signup.jsx:5-10 | all four fields and both messages empty |
| Dashboard.SortByCaption | crm-project/client/src/Dashboard.jsx:218 | the result is sorted by caption and is a permutation of the input |
| Dashboard.Sidebar | crm-project/client/src/Dashboard.jsx:216-219 | the drawn sidebar starts with the first link, the rest are sorted by caption, and it is a permutation of the links |
| Dashboard.IsActiveIff | crm-project/client/src/Dashboard.jsx:220-222 | an item is highlighted iff its route is "/" followed by the active tab |
| Dashboard.ExactlyOneActive | crm-project/client/src/Dashboard.jsx:220-222 | with distinct routes, the item named by the tab is the only highlighted one |
| Dashboard.PathsDistinctPermutation | crm-project/client/src/Dashboard.jsx:216-219 | reordering the links keeps their routes distinct |
| Dashboard.SidebarExactlyOneActive | crm-project/client/src/Dashboard.jsx:216-222 | the drawn sidebar highlights exactly the entry named by the tab |
| Dashboard.SidebarLinksDistinct | crm-project/client/src/Dashboard.jsx:120-131 | the application's sidebar routes are distinct, so the highlight and page lemmas apply to its own links |
| Dashboard.ActiveModule | crm-project/client/src/Dashboard.jsx:145-146 | no page opens when no route matches; an opened page belongs to a link whose route matches |
| Dashboard.ActiveModuleOfLink | crm-project/client/src/Dashboard.jsx:145-146 | with distinct routes, the opened page is the page of the link named by the tab |
| Dashboard.DashboardOpensNothing | crm-project/client/src/Dashboard.jsx:145-146 | the "dashboard" tab opens no page |
| Dashboard.ClickHighlights | crm-project/client/src/Dashboard.jsx:226-227 | clicking an entry sets the tab to its route without the leading '/', and that tab highlights the entry |
| Dashboard.TabOf | crm-project/client/src/Dashboard.jsx:227 | `replace("/", "")` drops exactly one character when the route holds a '/' and none otherwise |
| Dashboard.ShownRole | crm-project/client/src/Dashboard.jsx:141 | the stored role, or "user" when none is stored |
| Dashboard.ShownUsername | crm-project/client/src/Dashboard.jsx:142 | the stored name, or "Admin" for the admin role and "User" otherwise |
| Dashboard.FilteredDue | crm-project/client/src/Dashboard.jsx:149-153 | a subsequence of the reminders whose task or due text contains the search, ignoring case; every such reminder is kept |
| Dashboard.FilteredFeed | crm-project/client/src/Dashboard.jsx:155-174 | a subsequence of the entries whose type, title or time contains the search; every such entry is kept |
| Dashboard.ShownNotifications | crm-project/client/src/Dashboard.jsx:411 | at most six entries are shown, forming a prefix of the filtered notifications, and all of them when fewer than six match |
| Dashboard.EmptySearchShowsAll | crm-project/client/src/Dashboard.jsx:149-174 | an empty search keeps every card entry |
| Analytics.FilteredPerformance | crm-project/client/src/pages/Analytics.jsx:120-125 | a subsequence whose rows equal every non-empty filter (company, category, region); every such row is kept; no filters keep everything |
| Analytics.FiltersCompose | crm-project/client/src/pages/Analytics.jsx:120-125 | the combined filter equals applying the company, category and region filters one after another |
| Analytics.FilteredPerformanceSearch | crm-project/client/src/pages/Analytics.jsx:208-213 | a subsequence of the fixed sample rows whose name, category or risk contains the search; every such row is kept |
| Analytics.EmptySearchListsSample | crm-project/client/src/pages/Analytics.jsx:208-213 | an empty search lists all sample rows |
| Analytics.RiskColor | crm-project/client/src/pages/Analytics.jsx:199-204 | red iff "High", yellow iff "Medium", green for everything else |
| Analytics.AnalyticsPage.LogActivity | crm-project/client/src/pages/Analytics.jsx:206 | exactly one entry is appended, and nothing else changes |
| Analytics.AnalyticsPage.constructor | crm-project/client/src/pages/Analytics.jsx:79-102 | no filters, the sample performance rows and KPIs, no snapshots and an empty activity log |
| Analytics.AnalyticsPage.HandleSaveSnapshot | crm-project/client/src/pages/Analytics.jsx:168-178 | one snapshot holding the current figures and the company, category and date filters is appended, and the save is logged |
| Analytics.AnalyticsPage.HandleExportCsv | crm-project/client/src/pages/Analytics.jsx:128-139 | the exported rows are the filtered rows, and the export is logged |
| Percent.RoundPercent | crm-project/client/src/pages/LeadPipeline.jsx:128 | the result is the integer nearest to 100·part/total, with halves rounded up |
| Percent.RoundPercentBounds | crm-project/client/src/pages/Compliances.jsx:76-84 | a share of a total rounds into 0..100: 100 for the whole and 0 for none |
| Text.TrimEmpty | crm-project/client/src/pages/Contacts.jsx:308 | trimming gives "" exactly for white-space-only text |
| Text.JoinSplit | crm-project/client/src/pages/Reports.jsx:302 | joining what split produced restores the text |
| Text.SplitJoin | crm-project/client/src/pages/Reports.jsx:302 | splitting a join of separator-free parts restores the parts |
| Seqs.Filter | crm-project/client/src/pages/ActivityTracker.jsx:70-72 | `Array.prototype.filter`: an in-order subsequence holding every matching element with its full multiplicity and no other element |
| Seqs.FilterIdempotent | crm-project/client/src/pages/ActivityTracker.jsx:70-72 | filtering twice with one predicate is filtering once |

## Left out

- File and network I/O is not modelled: `fetch`, `axios`, `localStorage`, `FileReader`, multer, `fs` and PDF parsing. The server's answer to a request is a parameter (`accepted`, `reply`). Browser storage is a pair of `Option` fields of `LoginPage`. Re-fetching lists after a save or delete is left out, because the new list is whatever the server returns.
- All SQL, Express routing and the server's CRUD handlers are left out. They are database plumbing.
- Floating point is not modelled:
  - The ESG score is its numeral; its decimal value is `Decimal.Value`, a `real`.
  - `Math.round` is modelled exactly on integers. A binary rounding error at an exact .5 is not modelled.
  - `isValidScore`/`Number()` in the Reports edit form is left out.
  - The average ESG KPI is kept in tenths.
- Regular expressions are left out as a general engine. The five patterns of the extractor are hand-written scans. Case-insensitive matching and `toLowerCase` are ASCII-only; Unicode case mapping is not modelled.
- `localeCompare` is plain character order in `Dashboard.SortByCaption`. Locale collation is not modelled.
- The clock is not modelled: dates, `Date.now()` and `toLocaleString` are parameters. Intervals, the typing animation, confetti, audio and the simulated upload progress timer are left out. `Compliances.CompliancePage.CompleteUpload` models only the timer's final step.
- Rendering, charts and exports are left out: JSX, CSS, Recharts and Chart.js, CSV/PDF/PNG export and html2canvas. `Analytics.AnalyticsPage.HandleExportCsv` keeps only the choice of rows and the log entry.
- `companies.jsx`, `Notifications.jsx`, the route table, the component helpers and the API wrappers are left out. They only fetch and render.
- Compliances' `upcomingDeadlines` is left out, because it compares against the live clock. The calendar's overdue and today marks are left out for the same reason.
- Reports: the response handling of `handleUpload` is left out, as are the edit-save request and export. `handleCancelEdit` is modelled as written, including its different field names.
- Parts of Dashboard are not modelled:
  - `Dashboard.ShownRole` and `Dashboard.ShownUsername` take the stored values as parameters.
  - Navigation on a click is left out.
- String lengths are counted in Unicode characters, whereas JavaScript counts UTF-16 code units. A character outside the Basic Multilingual Plane counts once here and twice in the source. This affects the two-character guard of the global search (`"😀"` runs a query in the source, while `Extractor.GlobalSearchPlan` answers with no query), the 500-character windows of the summary patterns and the 200-character cut of the fallback summary.
- `Compliances.DaysInMonth` requires a month in 1..12. A cleared month input makes the source compute `NaN` days, and building the calendar grid from `Array(NaN)` then throws. That failure is not modelled.
- `LeadPipeline.LeadBoard.TotalLeads` sums over the stage keys, whereas the source sums over every column of the board. The two agree while the board's keys are the stage keys, which `LeadBoard.Valid` maintains.
- LeadPipeline: a missing owner and a `null` owner are both `None`.
- `LeadPipeline.LeadBoard.UpdateLeadStatus`: requires the row to exist. With no lead at that index the source fails when it reads the lead's id for its request.
- LeadPipeline: the spreadsheet upload that fills the leads table is left out (XLSX parsing).
- `Reminders.TruthyValue`: NaN is not modelled among the falsy numbers.
- Reminders: deleting and marking done are left out. Both only send a request and take the list the server returns.

## Findings

| source | as written | input that shows it | evidently intended | confidence | as-written member | corrected member |
|---|---|---|---|---|---|---|
| crm-project/client/src/pages/LeadPipeline.jsx:67-76 | a drag within one column copies the column twice; the copy with the card inserted overwrites the copy with the card removed, so the card appears twice | the initial board, card 0 of "lead" dropped at index 1 of "lead": the column grows from 2 to 3 cards | move the card inside the column, keeping every column's cards | not executed | LeadPipeline.DragWithinColumnDuplicates | LeadPipeline.MoveCardKeepsCards |
| crm-project/client/src/pages/LeadPipeline.jsx:254-279 | the status and owner controls of the leads table pass the row's index in the filtered table to handlers that index the full lead list | user "Ava Carter" with leads [Evan's, Ava's]: the table shows only Ava's lead, and setting row 0's status changes Evan's lead | change the lead shown in that row | not executed | LeadPipeline.StatusRowMismatch | LeadPipeline.StatusForRow |
