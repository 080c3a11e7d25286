/** The lead pipeline page: a board of stage columns holding cards, the
    table of uploaded leads, and the handlers that change them. */
module LeadPipeline {
  import opened Text
  import opened Seqs
  import opened Percent

  /** A card on the board. */
  datatype Card = Card(id: string, name: string, owner: string, details: string)

  /** A column of the board; colour and icon are presentation only. */
  datatype Stage = Stage(key: string, name: string)

  /** A row of the uploaded leads table. Rows come from a spreadsheet or the
      server, so every column may be missing. */
  datatype Lead = Lead(id: Option<string>, name: Option<string>, company: Option<string>,
                       status: Option<string>, owner: Option<string>)

  /** A drag end point: a column key and a position in that column. */
  datatype Location = Location(column: string, index: nat)

  /** The board state: stage key to the cards of that column. */
  type Columns = map<string, seq<Card>>

  /** The four built-in stages, in display order. */
  function Statuses(): seq<Stage> {
    [Stage("lead", "Lead"), Stage("contacted", "Contacted"),
     Stage("client", "Client"), Stage("archived", "Archived")]
  }

  /** The sample users leads are divided among. */
  function Users(): seq<string> {
    ["Evan Morales", "Kenneth Osborne", "Ava Carter"]
  }

  /** The board the page starts with. */
  function InitialColumns(): Columns {
    map["lead" := [Card("1", "Acme Corp", "Evan Morales", "Eco solutions provider."),
                   Card("2", "Beta Ltd", "Ava Carter", "Clean tech startup.")],
        "contacted" := [Card("3", "Gamma Inc", "Kenneth Osborne", "Consulting firm.")],
        "client" := [Card("4", "Delta LLC", "Evan Morales", "Renewable energy leader.")],
        "archived" := []]
  }

  // ---------------------------------------------------------------------
  // Array splice

  /** `list.splice(i, 1)`: the list without its element at `i`. */
  function Remove(s: seq<Card>, i: nat): (r: seq<Card>)
    requires i < |s|
    ensures |r| == |s| - 1
    ensures forall k :: 0 <= k < i ==> r[k] == s[k]
    ensures forall k :: i <= k < |r| ==> r[k] == s[k + 1]
    ensures multiset(r) + multiset{s[i]} == multiset(s)
  {
    assert s == s[..i] + [s[i]] + s[i + 1..];
    s[..i] + s[i + 1..]
  }

  /** `list.splice(j, 0, c)`: the list with `c` placed at position `j`. */
  function Insert(s: seq<Card>, j: nat, c: Card): (r: seq<Card>)
    requires j <= |s|
    ensures |r| == |s| + 1 && r[j] == c
    ensures forall k :: 0 <= k < j ==> r[k] == s[k]
    ensures forall k :: j < k < |r| ==> r[k] == s[k - 1]
    ensures multiset(r) == multiset(s) + multiset{c}
  {
    assert s == s[..j] + s[j..];
    s[..j] + [c] + s[j..]
  }

  /** Putting a removed card back where it was restores the list. */
  lemma InsertRemove(s: seq<Card>, i: nat)
    requires i < |s|
    ensures Insert(Remove(s, i), i, s[i]) == s
  {
  }

  // ---------------------------------------------------------------------
  // Card totals over the columns

  /** Cards in column `k`, zero for a key the board lacks. */
  function ColumnSize(p: Columns, k: string): nat {
    if k in p then |p[k]| else 0
  }

  /** Cards in the columns named by `keys`. */
  function ColumnTotal(p: Columns, keys: seq<string>): nat {
    if keys == [] then 0
    else ColumnTotal(p, keys[..|keys| - 1]) + ColumnSize(p, keys[|keys| - 1])
  }

  /** Changing columns outside `keys` leaves their total alone. */
  lemma {:induction false} ColumnTotalOutside(p: Columns, keys: seq<string>, k: string, c: seq<Card>)
    requires k !in keys
    ensures ColumnTotal(p[k := c], keys) == ColumnTotal(p, keys)
  {
    if keys != [] {
      ColumnTotalOutside(p, keys[..|keys| - 1], k, c);
    }
  }

  /** Replacing one listed column changes the total by the change in its size. */
  lemma {:induction false} ColumnTotalUpdate(p: Columns, keys: seq<string>, k: string, c: seq<Card>)
    requires Distinct(keys) && k in keys
    ensures ColumnTotal(p[k := c], keys) + ColumnSize(p, k) == ColumnTotal(p, keys) + |c|
  {
    var init := keys[..|keys| - 1];
    var last := keys[|keys| - 1];
    assert Distinct(init);
    if last == k {
      assert k !in init;
      ColumnTotalOutside(p, init, k, c);
    } else {
      assert k in init;
      ColumnTotalUpdate(p, init, k, c);
    }
  }

  /** One listed column never holds more cards than all of them. */
  lemma {:induction false} ColumnWithinTotal(p: Columns, keys: seq<string>, k: string)
    requires k in keys
    ensures ColumnSize(p, k) <= ColumnTotal(p, keys)
  {
    if keys[|keys| - 1] != k {
      assert k in keys[..|keys| - 1];
      ColumnWithinTotal(p, keys[..|keys| - 1], k);
    }
  }

  // ---------------------------------------------------------------------
  // Drag and drop

  /** The drag library only reports existing columns and positions. */
  predicate ValidDrag(p: Columns, src: Location, dst: Location) {
    src.column in p && src.index < |p[src.column]| &&
    dst.column in p && dst.index <= |p[dst.column]|
  }

  /** The board after a drag, as the page computes it: the source column
      loses the card, then a copy of the ORIGINAL destination column gets it
      and is stored last. */
  function Dropped(p: Columns, src: Location, dst: Location): (q: Columns)
    requires ValidDrag(p, src, dst)
    ensures q.Keys == p.Keys
  {
    var moved := p[src.column][src.index];
    p[src.column := Remove(p[src.column], src.index)]
     [dst.column := Insert(p[dst.column], dst.index, moved)]
  }

  /** Across columns: the source loses exactly the dragged card, the
      destination gains it at the drop position, nothing else changes and
      the board keeps its card count. */
  lemma DragAcrossColumns(p: Columns, src: Location, dst: Location, keys: seq<string>)
    requires ValidDrag(p, src, dst) && src.column != dst.column
    requires Distinct(keys) && src.column in keys && dst.column in keys
    ensures Dropped(p, src, dst)[src.column] == Remove(p[src.column], src.index)
    ensures Dropped(p, src, dst)[dst.column] == Insert(p[dst.column], dst.index, p[src.column][src.index])
    ensures forall k :: k in p && k != src.column && k != dst.column ==> Dropped(p, src, dst)[k] == p[k]
    ensures ColumnTotal(Dropped(p, src, dst), keys) == ColumnTotal(p, keys)
  {
    var moved := p[src.column][src.index];
    var p1 := p[src.column := Remove(p[src.column], src.index)];
    ColumnTotalUpdate(p, keys, src.column, Remove(p[src.column], src.index));
    ColumnTotalUpdate(p1, keys, dst.column, Insert(p[dst.column], dst.index, moved));
  }

  /** Within one column the page duplicates the card: the column comes back
      as the original list with the card inserted a second time. */
  lemma DragWithinColumnDuplicates(p: Columns, src: Location, dst: Location, keys: seq<string>)
    requires ValidDrag(p, src, dst) && src.column == dst.column
    requires Distinct(keys) && src.column in keys
    ensures Dropped(p, src, dst)[src.column] == Insert(p[src.column], dst.index, p[src.column][src.index])
    ensures |Dropped(p, src, dst)[src.column]| == |p[src.column]| + 1
    ensures multiset(Dropped(p, src, dst)[src.column]) == multiset(p[src.column]) + multiset{p[src.column][src.index]}
    ensures ColumnTotal(Dropped(p, src, dst), keys) == ColumnTotal(p, keys) + 1
  {
    var moved := p[src.column][src.index];
    var c := Insert(p[src.column], dst.index, moved);
    assert Dropped(p, src, dst) == p[src.column := c];
    ColumnTotalUpdate(p, keys, src.column, c);
  }

  /** A concrete drag inside the "lead" column of the starting board: moving
      the first card one place down leaves three cards in a column of two. */
  lemma DragWithinColumnExample()
    ensures |Dropped(InitialColumns(), Location("lead", 0), Location("lead", 1))["lead"]| == 3
  {
    var p := InitialColumns();
    assert |p["lead"]| == 2;
  }

  /** What a move is meant to do: take the card out, then put it in the
      destination as it stands after the removal. */
  predicate ValidMove(p: Columns, src: Location, dst: Location) {
    src.column in p && src.index < |p[src.column]| && dst.column in p &&
    dst.index <= |p[dst.column]| - (if src.column == dst.column then 1 else 0)
  }

  /** The corrected drag: the same as the page's across columns, and a
      reordering within one column. */
  function MoveCard(p: Columns, src: Location, dst: Location): (q: Columns)
    requires ValidMove(p, src, dst)
    ensures q.Keys == p.Keys
  {
    var moved := p[src.column][src.index];
    if src.column == dst.column then
      p[src.column := Insert(Remove(p[src.column], src.index), dst.index, moved)]
    else
      Dropped(p, src, dst)
  }

  /** A corrected move keeps every card: a column reordered in place holds
      the same cards with the dragged one at the drop position, and the
      board's card count is unchanged. */
  lemma MoveCardKeepsCards(p: Columns, src: Location, dst: Location, keys: seq<string>)
    requires ValidMove(p, src, dst)
    requires Distinct(keys) && src.column in keys && dst.column in keys
    ensures ColumnTotal(MoveCard(p, src, dst), keys) == ColumnTotal(p, keys)
    ensures MoveCard(p, src, dst)[dst.column][dst.index] == p[src.column][src.index]
    ensures src.column == dst.column ==>
              multiset(MoveCard(p, src, dst)[src.column]) == multiset(p[src.column])
    ensures forall k :: k in p && k != src.column && k != dst.column ==> MoveCard(p, src, dst)[k] == p[k]
  {
    var moved := p[src.column][src.index];
    if src.column == dst.column {
      var c := Insert(Remove(p[src.column], src.index), dst.index, moved);
      ColumnTotalUpdate(p, keys, src.column, c);
    } else {
      DragAcrossColumns(p, src, dst, keys);
    }
  }

  // ---------------------------------------------------------------------
  // Owners of cards

  /** The column `status` with `user` as owner of the card whose id is
      `cardId`; every other column is kept. */
  function OwnerAssigned(p: Columns, status: string, cardId: string, user: string): (q: Columns)
    requires status in p
    ensures q.Keys == p.Keys
    ensures forall k :: k in p && k != status ==> q[k] == p[k]
    ensures |q[status]| == |p[status]|
    ensures forall i :: 0 <= i < |p[status]| ==>
              q[status][i].id == p[status][i].id &&
              q[status][i].(owner := p[status][i].owner) == p[status][i]
    ensures forall i :: 0 <= i < |p[status]| ==>
              q[status][i].owner == (if p[status][i].id == cardId then user else p[status][i].owner)
  {
    var col := p[status];
    p[status := seq(|col|, i requires 0 <= i < |col| =>
                      if col[i].id == cardId then col[i].(owner := user) else col[i])]
  }

  /** Assigning the same owner again changes nothing. */
  lemma OwnerAssignedIdempotent(p: Columns, status: string, cardId: string, user: string)
    requires status in p
    ensures OwnerAssigned(OwnerAssigned(p, status, cardId, user), status, cardId, user)
         == OwnerAssigned(p, status, cardId, user)
  {
    var q := OwnerAssigned(p, status, cardId, user);
    var q2 := OwnerAssigned(q, status, cardId, user);
    assert forall i :: 0 <= i < |q[status]| ==> q2[status][i] == q[status][i];
    assert q2[status] == q[status];
  }

  // ---------------------------------------------------------------------
  // Uploaded leads

  /** Round-robin division: lead `i` goes to `users[i mod n]`. */
  function Divided(leads: seq<Lead>, users: seq<string>): (r: seq<Lead>)
    requires |users| > 0
    ensures |r| == |leads|
    ensures forall i :: 0 <= i < |r| ==>
              r[i].owner == Some(users[i % |users|]) && r[i].(owner := leads[i].owner) == leads[i]
  {
    seq(|leads|, i requires 0 <= i < |leads| => leads[i].(owner := Some(users[i % |users|])))
  }

  /** The test `l.owner === user` used for the per-user counts. */
  function OwnedBy(user: string): Lead -> bool {
    (l: Lead) => l.owner == Some(user)
  }

  lemma DivModUnique(x: int, n: int, q: int, r: int)
    requires n > 0 && 0 <= r < n && x == n * q + r
    ensures x / n == q && x % n == r
  {
    var q', r' := x / n, x % n;
    assert x == n * q' + r';
    if q' < q {
      ScaleMonotone(n, q' + 1, q);
    } else if q < q' {
      ScaleMonotone(n, q + 1, q');
    }
  }

  /** How the share of slot `u` grows when one more lead is dealt. */
  lemma DivStep(k: nat, n: int, u: int)
    requires n > 0 && 0 <= u < n
    ensures (k + 1) / n + (if u < (k + 1) % n then 1 else 0)
         == k / n + (if u < k % n then 1 else 0) + (if k % n == u then 1 else 0)
  {
    var q, r := k / n, k % n;
    assert k == n * q + r;
    if r + 1 < n {
      DivModUnique(k + 1, n, q, r + 1);
    } else {
      DivModUnique(k + 1, n, q + 1, 0);
    }
  }

  /** After a division among distinct users, user `u` owns `m / n` leads,
      plus one when `u` is among the first `m mod n` users. */
  lemma {:induction false} DividedShare(leads: seq<Lead>, users: seq<string>, u: nat)
    requires |users| > 0 && Distinct(users) && u < |users|
    ensures Count(Divided(leads, users), OwnedBy(users[u]))
         == |leads| / |users| + (if u < |leads| % |users| then 1 else 0)
    decreases |leads|
  {
    if leads == [] {
      assert Divided(leads, users) == [];
    } else {
      var n, m := |users|, |leads| - 1;
      var init := leads[..m];
      var slot := m % n;
      DividedShare(init, users, u);
      DividedSnoc(leads, users);
      CountSnoc(Divided(init, users), Divided(leads, users)[m], OwnedBy(users[u]));
      SlotOwner(users, slot, u);
      DivStep(m, n, u);
    }
  }

  /** Dealing one more lead appends it, owned by the next user in turn. */
  lemma DividedSnoc(leads: seq<Lead>, users: seq<string>)
    requires |users| > 0 && |leads| > 0
    ensures Divided(leads, users) == Divided(leads[..|leads| - 1], users) + [Divided(leads, users)[|leads| - 1]]
    ensures Divided(leads, users)[|leads| - 1].owner == Some(users[(|leads| - 1) % |users|])
  {
  }

  /** Among distinct users, slot `w` is owned by user `u` only when `w == u`. */
  lemma SlotOwner(users: seq<string>, w: int, u: nat)
    requires Distinct(users) && 0 <= w < |users| && u < |users|
    ensures Some(users[w]) == Some(users[u]) <==> w == u
  {
    if w < u {
      assert users[w] != users[u];
    } else if u < w {
      assert users[u] != users[w];
    }
  }

  /** Division is fair: two users' counts differ by at most one. */
  lemma DividedBalanced(leads: seq<Lead>, users: seq<string>, u: nat, v: nat)
    requires |users| > 0 && Distinct(users) && u < |users| && v < |users|
    ensures -1 <= Count(Divided(leads, users), OwnedBy(users[u]))
                - Count(Divided(leads, users), OwnedBy(users[v])) <= 1
  {
    DividedShare(leads, users, u);
    DividedShare(leads, users, v);
  }

  /** The table with `user` as owner of row `idx`; an index outside the
      table changes nothing. */
  function WithOwnerAt(leads: seq<Lead>, idx: int, user: string): (r: seq<Lead>)
    ensures |r| == |leads|
    ensures forall i :: 0 <= i < |leads| && i != idx ==> r[i] == leads[i]
    ensures 0 <= idx < |leads| ==> r[idx] == leads[idx].(owner := Some(user))
  {
    seq(|leads|, i requires 0 <= i < |leads| =>
          if i == idx then leads[i].(owner := Some(user)) else leads[i])
  }

  /** A later assignment to the same row replaces an earlier one. */
  lemma WithOwnerAtOverrides(leads: seq<Lead>, idx: int, a: string, b: string)
    ensures WithOwnerAt(WithOwnerAt(leads, idx, a), idx, b) == WithOwnerAt(leads, idx, b)
  {
  }

  /** The table with `status` as status of row `idx`. */
  function WithStatusAt(leads: seq<Lead>, idx: int, status: string): (r: seq<Lead>)
    ensures |r| == |leads|
    ensures forall i :: 0 <= i < |leads| && i != idx ==> r[i] == leads[i]
    ensures 0 <= idx < |leads| ==> r[idx] == leads[idx].(status := Some(status))
  {
    seq(|leads|, i requires 0 <= i < |leads| =>
          if i == idx then leads[i].(status := Some(status)) else leads[i])
  }

  // ---------------------------------------------------------------------
  // The visible leads

  /** JavaScript's `value || ""` on an optional text. */
  function OrEmpty(o: Option<string>): string {
    if o.Some? then o.value else ""
  }

  /** Only an admin sees every lead; anyone else sees the leads they own. */
  function Visible(role: Option<string>, username: Option<string>): Lead -> bool {
    (l: Lead) => role == Some("admin") || l.owner == username
  }

  /** The search box matches name, company, status or owner, ignoring case. */
  function MatchesSearch(search: string): Lead -> bool {
    (l: Lead) => ContainsCI(OrEmpty(l.name), search) || ContainsCI(OrEmpty(l.company), search) ||
         ContainsCI(OrEmpty(l.status), search) || ContainsCI(OrEmpty(l.owner), search)
  }

  /** The leads listed on the page. For an admin every lead is visible, so
      the first filter keeps the whole table as the page does. */
  function FilteredLeads(leads: seq<Lead>, role: Option<string>, username: Option<string>,
                         search: string): (r: seq<Lead>)
    ensures IsSubsequence(r, leads)
    ensures forall k :: 0 <= k < |r| ==> MatchesSearch(search)(r[k])
    ensures role != Some("admin") ==> forall k :: 0 <= k < |r| ==> r[k].owner == username
    ensures forall k ::
              (0 <= k < |leads| && Visible(role, username)(leads[k]) && MatchesSearch(search)(leads[k]))
              ==> leads[k] in r
  {
    var seen := Filter(leads, Visible(role, username));
    var r := Filter(seen, MatchesSearch(search));
    SubsequenceTransitive(r, seen, leads);
    r
  }

  /** An admin with an empty search sees the whole table. */
  lemma AdminEmptySearchSeesAll(leads: seq<Lead>, username: Option<string>)
    ensures FilteredLeads(leads, Some("admin"), username, "") == leads
  {
    forall l: Lead
      ensures MatchesSearch("")(l)
    {
      EmptyIsContained(OrEmpty(l.name));
    }
  }

  /** The positions in `ls` of the elements `Filter(ls, keep)` keeps. */
  function KeptIndices(ls: seq<Lead>, keep: Lead -> bool): seq<nat> {
    if ls == [] then []
    else
      var shifted := Shifted(KeptIndices(ls[1..], keep));
      if keep(ls[0]) then [0] + shifted else shifted
  }

  /** Every position moved one place on. */
  function Shifted(rest: seq<nat>): (r: seq<nat>)
    ensures |r| == |rest| && forall k :: 0 <= k < |r| ==> r[k] == rest[k] + 1
  {
    seq(|rest|, k requires 0 <= k < |rest| => rest[k] + 1)
  }

  /** Position `k` of `f` is the element of `ls` at `idx[k]`. */
  predicate Locates(ls: seq<Lead>, idx: seq<nat>, f: seq<Lead>) {
    |idx| == |f| && forall k :: 0 <= k < |idx| ==> idx[k] < |ls| && ls[idx[k]] == f[k]
  }

  /** Position `k` of the filtered list is the element at `KeptIndices[k]`. */
  lemma {:induction false} KeptIndicesLocate(ls: seq<Lead>, keep: Lead -> bool)
    ensures |KeptIndices(ls, keep)| == |Filter(ls, keep)|
    ensures Locates(ls, KeptIndices(ls, keep), Filter(ls, keep))
  {
    if ls != [] {
      KeptIndicesLocate(ls[1..], keep);
      var shifted := Shifted(KeptIndices(ls[1..], keep));
      var f := Filter(ls[1..], keep);
      ShiftedLocates(ls, KeptIndices(ls[1..], keep), f);
      if keep(ls[0]) {
        ConsLocates(ls, shifted, f);
        assert KeptIndices(ls, keep) == [0] + shifted;
        assert Filter(ls, keep) == [ls[0]] + f;
      } else {
        assert KeptIndices(ls, keep) == shifted;
        assert Filter(ls, keep) == f;
      }
    }
  }

  /** Positions in the tail, moved one place on, are positions in the list. */
  lemma ShiftedLocates(ls: seq<Lead>, rest: seq<nat>, f: seq<Lead>)
    requires ls != [] && Locates(ls[1..], rest, f)
    ensures Locates(ls, Shifted(rest), f)
  {
    forall k | 0 <= k < |rest|
      ensures rest[k] + 1 < |ls| && ls[rest[k] + 1] == f[k]
    {
      assert ls[rest[k] + 1] == ls[1..][rest[k]];
    }
  }

  /** Keeping the head puts position 0 in front. */
  lemma ConsLocates(ls: seq<Lead>, idx: seq<nat>, f: seq<Lead>)
    requires ls != [] && Locates(ls, idx, f)
    ensures Locates(ls, [0] + idx, [ls[0]] + f)
  {
    var i2, f2 := [0] + idx, [ls[0]] + f;
    forall k | 0 <= k < |i2|
      ensures i2[k] < |ls| && ls[i2[k]] == f2[k]
    {
      if k > 0 {
        assert i2[k] == idx[k - 1] && f2[k] == f[k - 1];
      }
    }
  }

  /** The table position of the lead shown in row `row` of the page. */
  function SourceIndex(leads: seq<Lead>, role: Option<string>, username: Option<string>,
                       search: string, row: nat): (i: nat)
    requires row < |FilteredLeads(leads, role, username, search)|
    ensures i < |leads| && leads[i] == FilteredLeads(leads, role, username, search)[row]
  {
    var seen := Filter(leads, Visible(role, username));
    KeptIndicesLocate(seen, MatchesSearch(search));
    KeptIndicesLocate(leads, Visible(role, username));
    KeptIndices(leads, Visible(role, username))[KeptIndices(seen, MatchesSearch(search))[row]]
  }

  /** The corrected status change: the lead shown in row `row` gets the new
      status and every other row of the table is kept. */
  function StatusForRow(leads: seq<Lead>, role: Option<string>, username: Option<string>,
                        search: string, row: nat, status: string): (r: seq<Lead>)
    requires row < |FilteredLeads(leads, role, username, search)|
    ensures |r| == |leads|
    ensures var i := SourceIndex(leads, role, username, search, row);
            r[i] == FilteredLeads(leads, role, username, search)[row].(status := Some(status)) &&
            forall j :: 0 <= j < |leads| && j != i ==> r[j] == leads[j]
  {
    WithStatusAt(leads, SourceIndex(leads, role, username, search, row), status)
  }

  /** The corrected owner assignment for row `row` of the listed leads. */
  function OwnerForRow(leads: seq<Lead>, role: Option<string>, username: Option<string>,
                       search: string, row: nat, user: string): (r: seq<Lead>)
    requires row < |FilteredLeads(leads, role, username, search)|
    ensures |r| == |leads|
    ensures var i := SourceIndex(leads, role, username, search, row);
            r[i] == FilteredLeads(leads, role, username, search)[row].(owner := Some(user)) &&
            forall j :: 0 <= j < |leads| && j != i ==> r[j] == leads[j]
  {
    WithOwnerAt(leads, SourceIndex(leads, role, username, search, row), user)
  }

  /** The page passes the row number of the listed leads as the table
      index. For the user "Ava Carter" the list is her one lead, yet choosing
      a status in row 0 changes Evan Morales's lead. */
  lemma StatusRowMismatch()
    ensures var evan := Lead(Some("1"), Some("Acme"), None, Some("lead"), Some("Evan Morales"));
            var ava := Lead(Some("2"), Some("Beta"), None, Some("lead"), Some("Ava Carter"));
            var table := [evan, ava];
            FilteredLeads(table, Some("user"), Some("Ava Carter"), "") == [ava] &&
            WithStatusAt(table, 0, "client") == [evan.(status := Some("client")), ava]
  {
    var evan := Lead(Some("1"), Some("Acme"), None, Some("lead"), Some("Evan Morales"));
    var ava := Lead(Some("2"), Some("Beta"), None, Some("lead"), Some("Ava Carter"));
    var table := [evan, ava];
    var vis := Visible(Some("user"), Some("Ava Carter"));
    assert !vis(evan) by {
      assert "Evan Morales"[0] != "Ava Carter"[0];
    }
    assert vis(ava);
    assert table[1..] == [ava];
    assert Filter(table, vis) == [ava];
    EmptyIsContained(OrEmpty(ava.name));
    assert Filter([ava], MatchesSearch("")) == [ava];
  }

  // ---------------------------------------------------------------------
  // The sample leads of the marketing counter

  /** A row of the page's built-in sample leads. */
  datatype SampleLead = SampleLead(status: string, name: string)

  function SampleLeads(): seq<SampleLead> {
    [SampleLead("Marketing", "Lead 1"), SampleLead("Sales", "Lead 2"), SampleLead("Marketing", "Lead 3")]
  }

  /** The number of leads whose status is "Marketing". */
  function MarketingLeadsCount(ls: seq<SampleLead>): (n: nat)
    ensures n <= |ls|
    ensures n == 0 <==> forall k :: 0 <= k < |ls| ==> ls[k].status != "Marketing"
  {
    Count(ls, (l: SampleLead) => l.status == "Marketing")
  }

  /** Two of the three sample leads are marketing leads. */
  lemma SampleMarketingCount()
    ensures MarketingLeadsCount(SampleLeads()) == 2
  {
    var s := SampleLeads();
    assert s[1..] == [s[1], s[2]];
    assert s[1..][1..] == [s[2]];
    assert "Sales"[0] != "Marketing"[0];
  }

  // ---------------------------------------------------------------------
  // The page state

  /** The key of the `n`-th stage when it was added by the user. */
  function CustomKey(n: nat): (k: string)
    ensures |k| > 6 && k[..6] == "custom" && k[1] == 'u'
  {
    "custom" + NatToString(n)
  }

  lemma CustomKeyInjective(i: nat, j: nat)
    requires CustomKey(i) == CustomKey(j)
    ensures i == j
  {
    assert NatToString(i) == CustomKey(i)[6..];
    NatToStringValue(i);
    NatToStringValue(j);
  }

  /** Stage keys as the page creates them: the built-in four, then
      `custom<i>` for the stage added at position `i`. */
  ghost predicate WellKeyed(stages: seq<Stage>) {
    |stages| >= 4 && stages[0].key == "lead" && stages[1].key == "contacted" &&
    stages[2].key == "client" && stages[3].key == "archived" &&
    forall i :: 4 <= i < |stages| ==> stages[i].key == CustomKey(i)
  }

  function StageKeys(stages: seq<Stage>): (keys: seq<string>)
    ensures |keys| == |stages|
    ensures forall i :: 0 <= i < |stages| ==> keys[i] == stages[i].key
  {
    seq(|stages|, i requires 0 <= i < |stages| => stages[i].key)
  }

  /** Stage keys created this way never repeat. */
  lemma WellKeyedDistinct(stages: seq<Stage>)
    requires WellKeyed(stages)
    ensures Distinct(StageKeys(stages))
  {
    var keys := StageKeys(stages);
    forall i, j | 0 <= i < j < |keys|
      ensures keys[i] != keys[j]
    {
      if 4 <= i {
        if keys[i] == keys[j] {
          CustomKeyInjective(i, j);
        }
      } else if 4 <= j {
        assert keys[j][1] == 'u';
      }
    }
  }

  /** The page's state: the board, its stages, the uploaded leads, the
      owner modal (column and card it was opened for) and whether the
      division was confirmed. */
  class LeadBoard {
    var columns: Columns
    var stages: seq<Stage>
    var leads: seq<Lead>
    var users: seq<string>
    var assignModal: Option<(string, string)>
    var finalAssigned: bool

    /** The board has exactly one column per stage. */
    ghost predicate Valid()
      reads this
    {
      WellKeyed(stages) && columns.Keys == set i | 0 <= i < |stages| :: stages[i].key
    }

    constructor()
      ensures Valid()
      ensures columns == InitialColumns() && stages == Statuses() && leads == []
      ensures users == Users() && assignModal == None && !finalAssigned
    {
      columns := InitialColumns();
      stages := Statuses();
      leads := [];
      users := Users();
      assignModal := None;
      finalAssigned := false;
      new;
      assert stages[0].key == "lead" && stages[1].key == "contacted";
      assert stages[2].key == "client" && stages[3].key == "archived";
    }

    /** All cards on the board: the column lengths summed over the stage
        keys, which are exactly the board's keys, each counted once. */
    function TotalLeads(): (n: nat)
      reads this
      requires Valid()
      ensures n == ColumnTotal(columns, StageKeys(stages))
      ensures "client" in columns && |columns["client"]| <= n
    {
      assert stages[2].key == "client";
      assert StageKeys(stages)[2] == "client";
      ColumnWithinTotal(columns, StageKeys(stages), "client");
      ColumnTotal(columns, StageKeys(stages))
    }

    /** The share of cards in the "client" column as a whole percentage,
        rounded half up; 0 for an empty board. */
    function ConversionRate(): (r: int)
      reads this
      requires Valid()
      ensures 0 <= r <= 100
      ensures TotalLeads() == 0 ==> r == 0
      ensures TotalLeads() > 0 ==>
                2 * TotalLeads() * r <= 200 * |columns["client"]| + TotalLeads() < 2 * TotalLeads() * (r + 1)
    {
      var total := TotalLeads();
      if total == 0 then 0
      else
        RoundPercentBounds(|columns["client"]|, total);
        RoundPercent(|columns["client"]|, total)
    }

    /** `onDragEnd`: no destination, or a drop where the drag started,
        changes nothing; any other drop writes the board `Dropped` gives. */
    method OnDragEnd(src: Location, dst: Option<Location>)
      requires Valid()
      requires dst.Some? ==> ValidDrag(columns, src, dst.value)
      modifies this
      ensures Valid()
      ensures dst.None? || dst.value == src ==> columns == old(columns)
      ensures dst.Some? && dst.value != src ==> columns == Dropped(old(columns), src, dst.value)
      ensures stages == old(stages) && leads == old(leads) && users == old(users)
      ensures assignModal == old(assignModal) && finalAssigned == old(finalAssigned)
    {
      if dst.None? {
        return;
      }
      var destination := dst.value;
      if src.column == destination.column && src.index == destination.index {
        return;
      }
      var sourceList := columns[src.column];
      var moved := sourceList[src.index];
      sourceList := sourceList[..src.index] + sourceList[src.index + 1..];
      var destList := columns[destination.column];
      destList := destList[..destination.index] + [moved] + destList[destination.index..];
      columns := columns[src.column := sourceList][destination.column := destList];
    }

    /** `assignOwner`: the card the modal was opened for gets `user` as
        owner, and the modal closes. */
    method AssignOwner(user: string)
      requires Valid() && assignModal.Some? && assignModal.value.0 in columns
      modifies this
      ensures Valid()
      ensures columns == OwnerAssigned(old(columns), old(assignModal).value.0, old(assignModal).value.1, user)
      ensures assignModal == None
      ensures stages == old(stages) && leads == old(leads) && users == old(users)
      ensures finalAssigned == old(finalAssigned)
    {
      var (status, cardId) := assignModal.value;
      columns := OwnerAssigned(columns, status, cardId, user);
      assignModal := None;
    }

    /** `divideLeads`: nothing without leads or users; otherwise the leads
        are dealt round-robin. */
    method DivideLeads()
      requires Valid()
      modifies this
      ensures Valid()
      ensures |old(leads)| == 0 || |users| == 0 ==> leads == old(leads)
      ensures |old(leads)| > 0 && |users| > 0 ==> leads == Divided(old(leads), users)
      ensures columns == old(columns) && stages == old(stages) && users == old(users)
      ensures assignModal == old(assignModal) && finalAssigned == old(finalAssigned)
    {
      if |leads| == 0 || |users| == 0 {
        return;
      }
      leads := Divided(leads, users);
    }

    /** `assignUploadedLead`: row `idx` of the table gets `user` as owner. */
    method AssignUploadedLead(idx: int, user: string)
      requires Valid()
      modifies this
      ensures Valid()
      ensures leads == WithOwnerAt(old(leads), idx, user)
      ensures columns == old(columns) && stages == old(stages) && users == old(users)
      ensures assignModal == old(assignModal) && finalAssigned == old(finalAssigned)
    {
      leads := WithOwnerAt(leads, idx, user);
    }

    /** `updateLeadStatus`, local part: row `idx` of the table gets the new
        status (the page then sends it for that row's id). */
    method UpdateLeadStatus(idx: nat, status: string)
      requires Valid() && idx < |leads|
      modifies this
      ensures Valid()
      ensures leads == WithStatusAt(old(leads), idx, status)
      ensures columns == old(columns) && stages == old(stages) && users == old(users)
      ensures assignModal == old(assignModal) && finalAssigned == old(finalAssigned)
    {
      leads := WithStatusAt(leads, idx, status);
    }

    /** `handleFinalAssign`: marks the division as confirmed. */
    method HandleFinalAssign()
      requires Valid()
      modifies this
      ensures Valid() && finalAssigned
      ensures columns == old(columns) && stages == old(stages) && leads == old(leads)
      ensures users == old(users) && assignModal == old(assignModal)
    {
      finalAssigned := true;
    }

    /** `addStage`: a stage keyed `custom<n>` (n the previous number of
        stages) is appended with an empty column; the key is new, so every
        existing column stays as it was. */
    method AddStage()
      requires Valid()
      modifies this
      ensures Valid()
      ensures stages == old(stages) + [Stage(CustomKey(|old(stages)|), "New Stage")]
      ensures CustomKey(|old(stages)|) !in old(columns)
      ensures columns == old(columns)[CustomKey(|old(stages)|) := []]
      ensures leads == old(leads) && users == old(users)
      ensures assignModal == old(assignModal) && finalAssigned == old(finalAssigned)
    {
      var newKey := CustomKey(|stages|);
      forall i | 0 <= i < |stages|
        ensures stages[i].key != newKey
      {
        if 4 <= i {
          if stages[i].key == newKey {
            CustomKeyInjective(i, |stages|);
          }
        } else {
          assert newKey[1] == 'u';
        }
      }
      stages := stages + [Stage(newKey, "New Stage")];
      columns := columns[newKey := []];
    }
  }

  /** Adding a stage keeps the board's card count. */
  lemma AddStageKeepsTotal(p: Columns, stages: seq<Stage>)
    requires WellKeyed(stages)
    requires CustomKey(|stages|) !in p
    ensures ColumnTotal(p[CustomKey(|stages|) := []], StageKeys(stages + [Stage(CustomKey(|stages|), "New Stage")]))
         == ColumnTotal(p, StageKeys(stages))
  {
    var k := CustomKey(|stages|);
    var keys := StageKeys(stages + [Stage(k, "New Stage")]);
    assert keys[..|keys| - 1] == StageKeys(stages);
    forall i | 0 <= i < |stages|
      ensures stages[i].key != k
    {
      if 4 <= i && stages[i].key == k {
        CustomKeyInjective(i, |stages|);
      }
    }
    ColumnTotalOutside(p, StageKeys(stages), k, []);
  }

  /** The starting board has four cards, one of them a client: 25%. */
  lemma InitialConversionRate(b: LeadBoard)
    requires b.Valid() && b.columns == InitialColumns() && b.stages == Statuses()
    ensures b.ConversionRate() == 25
  {
    var keys := StageKeys(b.stages);
    assert keys == ["lead", "contacted", "client", "archived"];
    assert keys[..3] == ["lead", "contacted", "client"];
    assert keys[..2] == ["lead", "contacted"];
    assert keys[..1] == ["lead"];
    var p := b.columns;
    assert ColumnTotal(p, keys[..1]) == 2 by {
      assert keys[..1][..0] == [];
    }
    assert ColumnTotal(p, keys[..2]) == 3 by {
      assert keys[..2][..1] == keys[..1];
    }
    assert ColumnTotal(p, keys[..3]) == 4 by {
      assert keys[..3][..2] == keys[..2];
    }
    assert ColumnTotal(p, keys) == 4 by {
      assert keys[..3] == keys[..|keys| - 1];
    }
    assert b.TotalLeads() == 4;
  }
}
