/** The dashboard shell: the sidebar's order, which item is highlighted,
    which page a tab opens, the role and name shown, and the search over
    the dashboard's own cards. */
module Dashboard {
  import opened Text
  import opened Seqs

  /** The pages the sidebar can open. */
  datatype Page = ActivityTrackerPage | AnalyticsPage | CompaniesPage | CompliancesPage | ContactsPage
                | NotificationsPage | LeadPipelinePage | RemindersPage | ReportsPage

  /** A sidebar entry: its route, its caption and the page it opens (the
      dashboard entry opens none). */
  datatype Link = Link(to: string, caption: string, page: Option<Page>)

  function SidebarLinks(): seq<Link> {
    [Link("/dashboard", "Dashboard", None),
     Link("/activity", "Activity Tracker", Some(ActivityTrackerPage)),
     Link("/analytics", "Analytics", Some(AnalyticsPage)),
     Link("/companies", "Companies", Some(CompaniesPage)),
     Link("/compliances", "Compliances", Some(CompliancesPage)),
     Link("/contacts", "Contacts", Some(ContactsPage)),
     Link("/notifications", "Notifications", Some(NotificationsPage)),
     Link("/pipeline", "Lead Status Pipeline", Some(LeadPipelinePage)),
     Link("/reminders", "Reminders", Some(RemindersPage)),
     Link("/reports", "Reports", Some(ReportsPage))]
  }

  // ---------------------------------------------------------------------
  // Sidebar order

  /** Lexicographic order of strings by character code. */
  predicate StrLe(a: string, b: string)
    decreases |a|
  {
    a == [] || (b != [] && (a[0] < b[0] || (a[0] == b[0] && StrLe(a[1..], b[1..]))))
  }

  lemma {:induction false} StrLeTotal(a: string, b: string)
    ensures StrLe(a, b) || StrLe(b, a)
    decreases |a|
  {
    if a != [] && b != [] && a[0] == b[0] {
      StrLeTotal(a[1..], b[1..]);
    }
  }

  /** Each caption is at most the next one. */
  predicate SortedByCaption(s: seq<Link>) {
    forall i :: 0 <= i < |s| - 1 ==> StrLe(s[i].caption, s[i + 1].caption)
  }

  /** Puts `x` before the first entry whose caption is not below it. */
  function InsertByCaption(x: Link, s: seq<Link>): (r: seq<Link>)
    requires SortedByCaption(s)
    ensures SortedByCaption(r)
    ensures multiset(r) == multiset(s) + multiset{x}
    ensures r != [] && (r[0] == x || (s != [] && r[0] == s[0]))
  {
    if s == [] then [x]
    else if StrLe(x.caption, s[0].caption) then [x] + s
    else
      StrLeTotal(x.caption, s[0].caption);
      assert SortedByCaption(s[1..]) by {
        forall i | 0 <= i < |s[1..]| - 1
          ensures StrLe(s[1..][i].caption, s[1..][i + 1].caption)
        {
          assert s[1..][i] == s[i + 1] && s[1..][i + 1] == s[i + 2];
        }
      }
      var t := InsertByCaption(x, s[1..]);
      assert s == [s[0]] + s[1..];
      assert SortedByCaption([s[0]] + t) by {
        forall i | 0 <= i < |[s[0]] + t| - 1
          ensures StrLe(([s[0]] + t)[i].caption, ([s[0]] + t)[i + 1].caption)
        {
          if i > 0 {
            assert ([s[0]] + t)[i] == t[i - 1] && ([s[0]] + t)[i + 1] == t[i];
          }
        }
      }
      [s[0]] + t
  }

  /** Sorting by caption, with the locale comparison read as plain
      character order. */
  function SortByCaption(s: seq<Link>): (r: seq<Link>)
    ensures SortedByCaption(r)
    ensures multiset(r) == multiset(s)
  {
    if s == [] then []
    else
      assert s == [s[0]] + s[1..];
      InsertByCaption(s[0], SortByCaption(s[1..]))
  }

  /** The sidebar as drawn: the first link, then the others by caption. */
  function Sidebar(links: seq<Link>): (r: seq<Link>)
    requires |links| >= 1
    ensures |r| == |links| && r[0] == links[0]
    ensures SortedByCaption(r[1..])
    ensures multiset(r) == multiset(links)
  {
    assert links == [links[0]] + links[1..];
    var rest := SortByCaption(links[1..]);
    assert multiset(rest) == multiset(links[1..]);
    assert |rest| == |links[1..]| by {
      assert |multiset(rest)| == |rest| && |multiset(links[1..])| == |links[1..]|;
    }
    assert ([links[0]] + rest)[1..] == rest;
    [links[0]] + rest
  }

  // ---------------------------------------------------------------------
  // Highlighted item, opened page and tab clicks

  /** No two links share a route. */
  predicate PathsDistinct(s: seq<Link>) {
    forall i, j :: 0 <= i < j < |s| ==> s[i].to != s[j].to
  }

  /** The application's sidebar routes are distinct, so the highlight and
      opened-page lemmas apply to it. */
  lemma SidebarLinksDistinct()
    ensures PathsDistinct(SidebarLinks())
  {
    var s := SidebarLinks();
    var keys := ["dashb", "activ", "analy", "compa", "compl", "conta", "notif", "pipel", "remin", "repor"];
    forall i | 0 <= i < |s| ensures |s[i].to| > 5 && s[i].to[1..6] == keys[i] {
    }
    forall i, j | 0 <= i < j < |s| ensures s[i].to != s[j].to {
      assert keys[i] != keys[j];
    }
  }

  /** The highlight rule: the dashboard entry for the "dashboard" tab, any
      other entry when its route is "/" and the tab. */
  predicate IsActive(item: Link, activeTab: string) {
    (item.to == "/dashboard" && activeTab == "dashboard") ||
    (item.to != "/dashboard" && item.to == "/" + activeTab)
  }

  /** The two-case rule is the same as comparing the route with "/" and
      the tab. */
  lemma IsActiveIff(item: Link, activeTab: string)
    ensures IsActive(item, activeTab) <==> item.to == "/" + activeTab
  {
    if item.to == "/" + activeTab && item.to == "/dashboard" {
      assert activeTab == item.to[1..];
    }
  }

  /** In a list of links with distinct routes, exactly one is highlighted
      when the tab names one of them. */
  lemma ExactlyOneActive(s: seq<Link>, activeTab: string, k: nat)
    requires PathsDistinct(s) && k < |s| && s[k].to == "/" + activeTab
    ensures IsActive(s[k], activeTab)
    ensures forall i :: 0 <= i < |s| && IsActive(s[i], activeTab) ==> i == k
  {
    IsActiveIff(s[k], activeTab);
    forall i | 0 <= i < |s| && IsActive(s[i], activeTab)
      ensures i == k
    {
      IsActiveIff(s[i], activeTab);
    }
  }

  lemma CountTwo(s: seq<Link>, i: nat, j: nat)
    requires i < j < |s| && s[i] == s[j]
    ensures multiset(s)[s[i]] >= 2
  {
    assert s == s[..i] + [s[i]] + s[i + 1..j] + [s[j]] + s[j + 1..];
  }

  lemma CountOne(s: seq<Link>, p: nat)
    requires p < |s| && forall k :: 0 <= k < |s| && k != p ==> s[k] != s[p]
    ensures multiset(s)[s[p]] == 1
  {
    assert s == s[..p] + [s[p]] + s[p + 1..];
    assert s[p] !in s[..p] && s[p] !in s[p + 1..];
  }

  /** Reordering keeps routes distinct. */
  lemma PathsDistinctPermutation(a: seq<Link>, b: seq<Link>)
    requires multiset(a) == multiset(b) && PathsDistinct(a)
    ensures PathsDistinct(b)
  {
    forall i, j | 0 <= i < j < |b|
      ensures b[i].to != b[j].to
    {
      if b[i].to == b[j].to {
        assert b[i] in multiset(a) && b[j] in multiset(a);
        var p :| 0 <= p < |a| && a[p] == b[i];
        var q :| 0 <= q < |a| && a[q] == b[j];
        if p < q {
          assert false;
        } else if q < p {
          assert false;
        } else {
          CountTwo(b, i, j);
          CountOne(a, p);
          assert false;
        }
      }
    }
  }

  /** The drawn sidebar highlights exactly one entry when the tab names a
      route. */
  lemma SidebarExactlyOneActive(links: seq<Link>, activeTab: string, k: nat)
    requires |links| >= 1 && PathsDistinct(links)
    requires k < |Sidebar(links)| && Sidebar(links)[k].to == "/" + activeTab
    ensures forall i :: 0 <= i < |Sidebar(links)| && IsActive(Sidebar(links)[i], activeTab) ==> i == k
  {
    PathsDistinctPermutation(links, Sidebar(links));
    ExactlyOneActive(Sidebar(links), activeTab, k);
  }

  /** Index of the first link with route `path`, or the length. */
  function FindPath(links: seq<Link>, path: string): (i: nat)
    ensures i <= |links|
    ensures forall k :: 0 <= k < i ==> links[k].to != path
    ensures i < |links| ==> links[i].to == path
  {
    if links == [] then 0
    else if links[0].to == path then 0
    else 1 + FindPath(links[1..], path)
  }

  /** `activeModule`: the page of the first link whose route is "/" and
      the tab, or none. */
  function ActiveModule(links: seq<Link>, activeTab: string): (r: Option<Page>)
    ensures (forall k :: 0 <= k < |links| ==> links[k].to != "/" + activeTab) ==> r.None?
    ensures r.Some? ==> exists k :: 0 <= k < |links| && links[k].to == "/" + activeTab && links[k].page == r
  {
    var i := FindPath(links, "/" + activeTab);
    if i < |links| then links[i].page else None
  }

  /** With distinct routes, the opened page is the page of the link named by
      the tab. */
  lemma ActiveModuleOfLink(links: seq<Link>, activeTab: string, k: nat)
    requires PathsDistinct(links) && k < |links| && links[k].to == "/" + activeTab
    ensures ActiveModule(links, activeTab) == links[k].page
  {
    var i := FindPath(links, "/" + activeTab);
    assert i <= k;
  }

  /** The "dashboard" tab opens no page. */
  lemma DashboardOpensNothing()
    ensures ActiveModule(SidebarLinks(), "dashboard").None?
  {
    assert SidebarLinks()[0].to == "/" + "dashboard";
  }

  /** `to.replace("/", "")`: the route without its first '/'. */
  function TabOf(to: string): (r: string)
    ensures FindChar(to, '/') < |to| ==> |r| + 1 == |to|
    ensures FindChar(to, '/') == |to| ==> r == to
  {
    var i := FindChar(to, '/');
    if i < |to| then to[..i] + to[i + 1..] else to
  }

  /** Clicking an entry whose route starts with '/' selects a tab that
      highlights that entry. */
  lemma ClickHighlights(item: Link)
    requires |item.to| >= 1 && item.to[0] == '/'
    ensures TabOf(item.to) == item.to[1..]
    ensures IsActive(item, TabOf(item.to))
  {
    assert FindChar(item.to, '/') == 0;
    IsActiveIff(item, TabOf(item.to));
    assert item.to == "/" + item.to[1..];
  }

  // ---------------------------------------------------------------------
  // Role and name

  /** The role shown: the stored one, or "user". */
  function ShownRole(stored: Option<string>): (r: string)
    ensures r != ""
    ensures Truthy(stored) ==> r == stored.value
    ensures !Truthy(stored) ==> r == "user"
  {
    OrElse(stored, "user")
  }

  /** The name shown: the stored one, or "Admin"/"User" by role. */
  function ShownUsername(stored: Option<string>, role: string): (r: string)
    ensures r != ""
    ensures Truthy(stored) ==> r == stored.value
    ensures !Truthy(stored) ==> r == (if role == "admin" then "Admin" else "User")
  {
    OrElse(stored, if role == "admin" then "Admin" else "User")
  }

  // ---------------------------------------------------------------------
  // Search over the dashboard's cards

  datatype DueItem = DueItem(task: string, due: string)
  datatype FeedItem = FeedItem(kind: string, title: string, timestamp: string)

  predicate DueHit(search: string, d: DueItem) {
    ContainsCI(d.task, search) || ContainsCI(d.due, search)
  }

  predicate FeedHit(search: string, f: FeedItem) {
    ContainsCI(f.kind, search) || ContainsCI(f.title, search) || ContainsCI(f.timestamp, search)
  }

  /** The reminders card. */
  function FilteredDue(items: seq<DueItem>, search: string): (r: seq<DueItem>)
    ensures IsSubsequence(r, items)
    ensures forall k :: 0 <= k < |r| ==> DueHit(search, r[k])
    ensures forall k :: 0 <= k < |items| && DueHit(search, items[k]) ==> items[k] in r
  {
    Filter(items, (d: DueItem) => DueHit(search, d))
  }

  /** The activities and notifications cards. */
  function FilteredFeed(items: seq<FeedItem>, search: string): (r: seq<FeedItem>)
    ensures IsSubsequence(r, items)
    ensures forall k :: 0 <= k < |r| ==> FeedHit(search, r[k])
    ensures forall k :: 0 <= k < |items| && FeedHit(search, items[k]) ==> items[k] in r
  {
    Filter(items, (f: FeedItem) => FeedHit(search, f))
  }

  /** The notifications card lists the first six matches. */
  function ShownNotifications(items: seq<FeedItem>, search: string): (r: seq<FeedItem>)
    ensures |r| <= 6
    ensures |r| <= |FilteredFeed(items, search)| && r == FilteredFeed(items, search)[..|r|]
    ensures |r| < 6 ==> r == FilteredFeed(items, search)
  {
    var f := FilteredFeed(items, search);
    if |f| <= 6 then f else f[..6]
  }

  /** An empty search lists every card entry. */
  lemma EmptySearchShowsAll(due: seq<DueItem>, feed: seq<FeedItem>)
    ensures FilteredDue(due, "") == due
    ensures FilteredFeed(feed, "") == feed
  {
    forall k | 0 <= k < |due|
      ensures DueHit("", due[k])
    {
      EmptyIsContained(due[k].task);
    }
    forall k | 0 <= k < |feed|
      ensures FeedHit("", feed[k])
    {
      EmptyIsContained(feed[k].kind);
    }
  }
}
