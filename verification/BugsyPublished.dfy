/** What readers of the tracker's outputs hold after any run, told from the five input streams. */
module BugsyPublished {
  import opened Common
  import opened JsMap
  import opened BugsyDomain
  import opened BugsyOutputs
  import opened BugsyTracker
  import opened BugsyMeaning
  import R = BugsyRuns

  /** What the readers hold after the units, from the start of the workspace. */
  ghost predicate After(ws: string, units: seq<Batch>, q: R.Published) {
    && (forall i :: 0 <= i < |units| ==> KeyedBatch(units[i]))
    && R.Run(R.Published(R.InitialWorkspace(ws), [], map[], map[]), units) == Ok(q)
  }

  /** The saved rows are the folds of the whole streams, and the tables are rebuilt from them. */
  ghost predicate Folded(b: Batch, q: R.Published) {
    && q.feed == Accepted([], b.events)
    && q.state.issues == Values(FoldIssues([], b.events)) && Keyed(FoldIssues([], b.events), IssueId)
    && q.state.memberships == Values(FoldLabels([], b.labelEvents)) && Keyed(FoldLabels([], b.labelEvents), MembershipId)
    && q.state.projects == Values(FoldCatalog([], b.projects)) && Keyed(FoldCatalog([], b.projects), ProjectId)
    && q.state.users == Values(FoldCatalog([], b.users)) && Keyed(FoldCatalog([], b.users), UserId)
    && q.state.labels == Values(FoldCatalog([], b.labels)) && Keyed(FoldCatalog([], b.labels), LabelId)
    && q.board == FullBoard(q.state) && q.labels == FullLabels(q.state)
  }

  lemma {:induction false} AfterIsFold(ws: string, units: seq<Batch>, q: R.Published)
    requires After(ws, units, q)
    ensures Folded(R.Joined(units), q) && q.state.workspaceId == ws
    ensures q.state.issueCount == |q.state.issues| && q.state.doneCount == CountDone(q.state.issues)
  {
    var p := R.Published(R.InitialWorkspace(ws), [], map[], map[]);
    R.InitialConsistent(ws);
    R.RunIsJoined(p, units);
    UnitKeepsValid(p.state, R.Joined(units));
    assert [] + Accepted([], R.Joined(units).events) == Accepted([], R.Joined(units).events);
  }

  /** An index built from the values of a keyed map finds what the map holds. */
  lemma {:induction false} IndexGets<V>(m: Pairs<string, V>, id: V -> string, k: string)
    requires Keyed(m, id)
    ensures var index := AsMap(MapOf(Values(m), id)); Get(m, k) == if k in index then Some(index[k]) else None
    ensures Get(m, k).Some? ==> id(Get(m, k).value) == k
  {
    MapOfValues(m, id);
    GetIsLookup(m, k);
    KeyedGet(m, k, id);
  }

  // ---- Issues --------------------------------------------------------------------------------------------

  /** The card of a key is built from the folded row of the key. */
  lemma {:induction false} CardAt(b: Batch, q: R.Published, k: string)
    requires Folded(b, q)
    ensures var row := Get(FoldIssues([], b.events), k);
      && (k in q.board <==> row.Some?) && (k in IndexOf(q.state).issues <==> row.Some?)
      && (row.Some? ==> row.value.issueId == k && q.board[k] == BoardCard(IndexOf(q.state), row.value))
  {
    IndexGets(FoldIssues([], b.events), IssueId, k);
  }

  lemma {:induction false} IssueMeans(b: Batch, k: string)
    ensures RowMeans(b.events, |b.events|, k, Get(FoldIssues([], b.events), k))
  {
    assert b.events[..|b.events|] == b.events;
    IssueRowMeans(b.events, |b.events|, k);
  }

  /** The board has a card for exactly the issues that were created, and its issue columns are what the events mean. */
  lemma {:induction false} BoardMeans(ws: string, units: seq<Batch>, q: R.Published, k: string)
    requires After(ws, units, q)
    ensures var events := R.Joined(units).events;
      && (k in q.board <==> !NeverCreated(events, |events|, k))
      && (k in q.board ==> MeansRow(events, |events|, k, q.board[k].issue))
  {
    AfterIsFold(ws, units, q);
    CardAt(R.Joined(units), q, k);
    IssueMeans(R.Joined(units), k);
  }

  /** The transition feed after any run: the events that count, in order. */
  lemma {:induction false} FeedMeans(ws: string, units: seq<Batch>, q: R.Published)
    requires After(ws, units, q)
    ensures q.feed == TakenEvents(R.Joined(units).events, |R.Joined(units).events|)
  {
    var events := R.Joined(units).events;
    AfterIsFold(ws, units, q);
    assert events[..|events|] == events;
    FeedIsTaken(events, |events|);
  }

  // ---- Membership rows and their events, one to one ----------------------------------------------------------

  /** The highest events of their memberships that satisfy `e`. */
  ghost function Tops(events: seq<LabelEvent>, e: LabelEvent -> bool): set<nat> {
    set i: nat | i < |events| && Top(events, |events|, i) && e(events[i])
  }

  /** Event `i` is the highest of its membership and the row repeats it. */
  ghost predicate Repeats(events: seq<LabelEvent>, row: Membership, i: nat) {
    Top(events, |events|, i) && SaysEvent(row, events[i])
  }

  ghost predicate HasEvent(events: seq<LabelEvent>, row: Membership) { exists i: nat :: Repeats(events, row, i) }

  ghost function Source(events: seq<LabelEvent>, row: Membership): nat
    requires HasEvent(events, row)
  {
    var i: nat :| Repeats(events, row, i); i
  }

  lemma {:induction false} RowHasSource(events: seq<LabelEvent>, i: nat)
    requires Keyed(FoldLabels([], events), MembershipId) && i < |FoldLabels([], events)|
    ensures HasEvent(events, Values(FoldLabels([], events))[i])
  {
    var m := FoldLabels([], events);
    GetAt(m, i);
    assert events[..|events|] == events;
    MembershipRowMeans(events, |events|, m[i].0);
    var j :| Top(events, |events|, j) && events[j].membershipId == m[i].0 && SaysEvent(m[i].1, events[j]);
    assert Repeats(events, Values(m)[i], j);
  }

  lemma {:induction false} EventHasRow(events: seq<LabelEvent>, j: nat) returns (i: nat)
    requires Keyed(FoldLabels([], events), MembershipId) && Top(events, |events|, j)
    ensures i < |FoldLabels([], events)| && Repeats(events, Values(FoldLabels([], events))[i], j)
  {
    var m, id := FoldLabels([], events), events[j].membershipId;
    assert events[..|events|] == events;
    MembershipRowMeans(events, |events|, id);
    var top :| Top(events, |events|, top) && events[top].membershipId == id && SaysEvent(Get(m, id).value, events[top]);
    TopIsOne(events, |events|, j, top);
    GetIsLookup(m, id);
    i :| 0 <= i < |m| && m[i].0 == id;
    GetAt(m, i);
  }

  /** Rows and highest events correspond: what a row takes from its event is as frequent in both. */
  lemma {:induction false} CountsMatch(events: seq<LabelEvent>, p: Membership -> bool, e: LabelEvent -> bool)
    requires Keyed(FoldLabels([], events), MembershipId)
    requires forall row, event {:trigger SaysEvent(row, event)} :: SaysEvent(row, event) ==> p(row) == e(event)
    ensures |Places(Values(FoldLabels([], events)), p)| == |Tops(events, e)|
  {
    var m := FoldLabels([], events);
    var rows := Values(m);
    forall i: nat | i < |rows| ensures HasEvent(events, rows[i]) { RowHasSource(events, i); }
    forall i: nat, j: nat | i < j < |rows| ensures rows[i].membershipId != rows[j].membershipId {
      assert MembershipId(m[i].1) == m[i].0 && MembershipId(m[j].1) == m[j].0;
    }
    forall j: nat | Top(events, |events|, j) ensures HasRow(events, rows, j) { var i := EventHasRow(events, j); }
    PlacesMatch(events, rows, p, e);
  }

  ghost predicate HasRow(events: seq<LabelEvent>, rows: seq<Membership>, j: nat) {
    exists i: nat :: i < |rows| && Repeats(events, rows[i], j)
  }

  lemma {:induction false} PlacesMatch(
      events: seq<LabelEvent>, rows: seq<Membership>, p: Membership -> bool, e: LabelEvent -> bool)
    requires forall i: nat :: i < |rows| ==> HasEvent(events, rows[i])
    requires forall i: nat, j: nat :: i < j < |rows| ==> rows[i].membershipId != rows[j].membershipId
    requires forall j: nat {:trigger HasRow(events, rows, j)} :: Top(events, |events|, j) ==> HasRow(events, rows, j)
    requires forall row, event {:trigger SaysEvent(row, event)} :: SaysEvent(row, event) ==> p(row) == e(event)
    ensures |Places(rows, p)| == |Tops(events, e)|
  {
    var f := map i | i in Places(rows, p) :: Source(events, rows[i]);
    forall i, j | i in f && j in f && f[i] == f[j] ensures i == j {
      assert SaysEvent(rows[i], events[f[i]]) && SaysEvent(rows[j], events[f[j]]);
    }
    forall j | j in Tops(events, e) ensures j in f.Values {
      assert HasRow(events, rows, j);
      var i: nat :| i < |rows| && Repeats(events, rows[i], j);
      SourceIs(events, rows[i], j);
      assert i in f && f[i] == j;
    }
    forall j | j in f.Values ensures j in Tops(events, e) {
      var i :| i in f && f[i] == j;
      assert Repeats(events, rows[i], j);
    }
    SameSize(Places(rows, p), Tops(events, e), f);
  }

  lemma {:induction false} SourceIs(events: seq<LabelEvent>, row: Membership, j: nat)
    requires Repeats(events, row, j)
    ensures Source(events, row) == j
  {
    TopIsOne(events, |events|, Source(events, row), j);
  }

  // ---- Labels and counts ----------------------------------------------------------------------------------

  /** The event attaches the label to the issue. */
  function AttachEvent(issueId: string, labelId: string): LabelEvent -> bool {
    (event: LabelEvent) => event.attached && event.issueId == issueId && event.labelId == labelId
  }

  /**
   * A card names a label once for each membership id whose highest event attaches the label to the issue, so
   * it names the label exactly when there is such an id.
   */
  lemma {:induction false} CardLabelsMean(ws: string, units: seq<Batch>, q: R.Published, k: string, l: string)
    requires After(ws, units, q) && k in q.board
    ensures var tops := Tops(R.Joined(units).labelEvents, AttachEvent(k, l));
      && multiset(q.board[k].labelIds)[l] == |tops|
      && (l in q.board[k].labelIds <==> exists i :: i in tops)
      && Sorted(q.board[k].labelIds)
  {
    AfterIsFold(ws, units, q);
    LabelsAt(R.Joined(units), q, k, l);
  }

  lemma {:induction false} LabelsAt(b: Batch, q: R.Published, k: string, l: string)
    requires Folded(b, q) && k in q.board
    ensures var tops := Tops(b.labelEvents, AttachEvent(k, l));
      && multiset(q.board[k].labelIds)[l] == |tops|
      && (l in q.board[k].labelIds <==> exists i :: i in tops)
      && Sorted(q.board[k].labelIds)
  {
    CardAt(b, q, k);
    CardLabels(q.state, Get(FoldIssues([], b.events), k).value);
    CountsMatch(b.labelEvents, AttachesTo(k, l), AttachEvent(k, l));
    var tops := Tops(b.labelEvents, AttachEvent(k, l));
    NonEmpty(tops);
    assert l in q.board[k].labelIds <==> multiset(q.board[k].labelIds)[l] > 0;
  }

  lemma {:induction false} NonEmpty(s: set<nat>)
    ensures |s| > 0 <==> exists i :: i in s
  {
    if |s| > 0 { var i :| i in s; }
  }

  /** The event attaches the label to an issue that was created. */
  ghost function UseEvent(events: seq<IssueEvent>, labelId: string): LabelEvent -> bool {
    (event: LabelEvent) => event.attached && event.labelId == labelId && !NeverCreated(events, |events|, event.issueId)
  }

  predicate CountRowOf(row: LabelCountRow, l: string, catalog: LabelRow) {
    row.labelId == l && row.name == catalog.name && row.workspaceId == catalog.workspaceId
  }

  /** A row for exactly the labels of the catalog, with the name of the catalog and this number. */
  ghost predicate CountMeans(b: Batch, labels: map<string, LabelCountRow>, l: string, count: nat) {
    && (l in labels <==> exists i :: LastWord(b.labels, |b.labels|, l, i))
    && (l in labels ==>
          && labels[l].count == count
          && exists i :: LastWord(b.labels, |b.labels|, l, i) && CountRowOf(labels[l], l, b.labels[i].value))
  }

  /**
   * The counts have a row for exactly the labels of the catalog. Its number is that of the membership ids
   * whose highest event attaches the label to an issue that was created.
   */
  lemma {:induction false} CountsMean(ws: string, units: seq<Batch>, q: R.Published, l: string)
    requires After(ws, units, q)
    ensures var b := R.Joined(units); CountMeans(b, q.labels, l, |Tops(b.labelEvents, UseEvent(b.events, l))|)
  {
    AfterIsFold(ws, units, q);
    CountAt(R.Joined(units), q, l);
    UsesMatch(R.Joined(units), q, l);
  }

  lemma {:induction false} CountAt(b: Batch, q: R.Published, l: string)
    requires Folded(b, q)
    ensures CountMeans(b, q.labels, l, |Places(q.state.memberships, UsesLabel(IndexOf(q.state).issues.Keys, l))|)
  {
    var m := FoldCatalog([], b.labels);
    IndexGets(m, LabelId, l);
    assert b.labels[..|b.labels|] == b.labels;
    CatalogRowMeans(b.labels, |b.labels|, l);
    if l in q.labels { CountOfLabel(q.state, Get(m, l).value); }
  }

  lemma {:induction false} UsesMatch(b: Batch, q: R.Published, l: string)
    requires Folded(b, q)
    ensures |Places(q.state.memberships, UsesLabel(IndexOf(q.state).issues.Keys, l))|
         == |Tops(b.labelEvents, UseEvent(b.events, l))|
  {
    var issues := IndexOf(q.state).issues.Keys;
    forall k ensures k in issues <==> !NeverCreated(b.events, |b.events|, k) {
      CardAt(b, q, k);
      IssueMeans(b, k);
    }
    CountsMatch(b.labelEvents, UsesLabel(issues, l), UseEvent(b.events, l));
  }

  // ---- Names and totals -------------------------------------------------------------------------------------

  /** A name column is that of the key's catalog row, and missing when the catalog has none. */
  ghost predicate NameMeans<V(!new)>(changes: seq<StateEvent<V>>, k: string, name: Option<string>, of: V -> string) {
    match name
    case None => forall i :: !LastWord(changes, |changes|, k, i)
    case Some(n) => exists i :: LastWord(changes, |changes|, k, i) && of(changes[i].value) == n
  }

  lemma {:induction false} NameFromCatalog<V(!new)>(changes: seq<StateEvent<V>>, k: string, of: V -> string)
    ensures var row := Get(FoldCatalog([], changes), k);
      NameMeans(changes, k, if row.Some? then Some(of(row.value)) else None, of)
  {
    assert changes[..|changes|] == changes;
    CatalogRowMeans(changes, |changes|, k);
  }

  function ProjectName(row: ProjectRow): string { row.name }
  function UserName(row: UserRow): string { row.name }

  /** A card carries the names that the catalog has for its project and its assignee. */
  lemma {:induction false} CardNamesMean(ws: string, units: seq<Batch>, q: R.Published, k: string)
    requires After(ws, units, q) && k in q.board
    ensures var b, card := R.Joined(units), q.board[k];
      && NameMeans(b.projects, card.issue.projectId, card.projectName, ProjectName)
      && (card.issue.assigneeId.Some? ==> NameMeans(b.users, card.issue.assigneeId.value, card.assigneeName, UserName))
      && (card.issue.assigneeId.None? ==> card.assigneeName.None?)
  {
    AfterIsFold(ws, units, q);
    NamesAt(R.Joined(units), q, k);
  }

  lemma {:induction false} NamesAt(b: Batch, q: R.Published, k: string)
    requires Folded(b, q) && k in q.board
    ensures var card := q.board[k];
      && NameMeans(b.projects, card.issue.projectId, card.projectName, ProjectName)
      && (card.issue.assigneeId.Some? ==> NameMeans(b.users, card.issue.assigneeId.value, card.assigneeName, UserName))
      && (card.issue.assigneeId.None? ==> card.assigneeName.None?)
  {
    CardAt(b, q, k);
    var issue := q.board[k].issue;
    IndexGets(FoldCatalog([], b.projects), ProjectId, issue.projectId);
    NameFromCatalog(b.projects, issue.projectId, ProjectName);
    if issue.assigneeId.Some? {
      IndexGets(FoldCatalog([], b.users), UserId, issue.assigneeId.value);
      NameFromCatalog(b.users, issue.assigneeId.value, UserName);
    }
  }

  function IsDone(row: IssueRow): bool { row.status == Done }

  lemma {:induction false} CountDoneSnoc(rows: seq<IssueRow>, row: IssueRow)
    ensures CountDone(rows + [row]) == CountDone(rows) + (if row.status == Done then 1 else 0)
  {
    if rows == [] {
      assert [] + [row] == [row] && [row][1..] == [];
    } else {
      assert (rows + [row])[1..] == rows[1..] + [row];
      CountDoneSnoc(rows[1..], row);
    }
  }

  lemma {:induction false} DoneRows(rows: seq<IssueRow>)
    ensures CountDone(rows) == |Places(rows, IsDone)|
  {
    if rows == [] {
      NoPlaces(IsDone);
    } else {
      var front, last := rows[..|rows| - 1], rows[|rows| - 1];
      assert rows == front + [last];
      DoneRows(front);
      CountDoneSnoc(front, last);
      PlacesSnoc(front, last, IsDone);
    }
  }

  function Any(row: IssueRow): bool { true }

  lemma {:induction false} AllRows(rows: seq<IssueRow>)
    ensures |rows| == |Places(rows, Any)|
  {
    if rows == [] {
      NoPlaces(Any);
    } else {
      var front, last := rows[..|rows| - 1], rows[|rows| - 1];
      assert rows == front + [last];
      AllRows(front);
      PlacesSnoc(front, last, Any);
    }
  }

  /** The cards whose issue satisfies `p`. */
  ghost function CardsWhere(board: map<string, Card>, p: IssueRow -> bool): set<string> {
    set k | k in board && p(board[k].issue)
  }

  lemma {:induction false} RowHasCard(b: Batch, q: R.Published, i: nat)
    requires Folded(b, q) && i < |q.state.issues|
    ensures var row := q.state.issues[i];
      row.issueId == FoldIssues([], b.events)[i].0 && row.issueId in q.board && q.board[row.issueId].issue == row
  {
    var m := FoldIssues([], b.events);
    assert IssueId(m[i].1) == m[i].0;
    GetAt(m, i);
    CardAt(b, q, m[i].0);
  }

  lemma {:induction false} CardHasRow(b: Batch, q: R.Published, k: string) returns (i: nat)
    requires Folded(b, q) && k in q.board
    ensures i < |q.state.issues| && q.state.issues[i].issueId == k && q.state.issues[i] == q.board[k].issue
  {
    var m := FoldIssues([], b.events);
    CardAt(b, q, k);
    GetIsLookup(m, k);
    i :| 0 <= i < |m| && m[i].0 == k;
    GetAt(m, i);
  }

  lemma {:induction false} RowsAreCards(b: Batch, q: R.Published, p: IssueRow -> bool)
    requires Folded(b, q)
    ensures |Places(q.state.issues, p)| == |CardsWhere(q.board, p)|
  {
    forall i: nat | i < |q.state.issues|
      ensures q.state.issues[i].issueId == FoldIssues([], b.events)[i].0
      ensures q.state.issues[i].issueId in q.board && q.board[q.state.issues[i].issueId].issue == q.state.issues[i]
    {
      RowHasCard(b, q, i);
    }
    forall k | k in q.board ensures exists i: nat :: i < |q.state.issues| && q.state.issues[i].issueId == k {
      var i := CardHasRow(b, q, k);
    }
    CardsMatch(q.state.issues, FoldIssues([], b.events), q.board, p);
  }

  lemma {:induction false} CardsMatch(
      rows: seq<IssueRow>, m: Pairs<string, IssueRow>, board: map<string, Card>, p: IssueRow -> bool)
    requires |rows| == |m| && Unique(m)
    requires forall i: nat :: i < |rows| ==> rows[i].issueId == m[i].0
    requires forall i: nat :: i < |rows| ==> rows[i].issueId in board && board[rows[i].issueId].issue == rows[i]
    requires forall k :: k in board ==> exists i: nat :: i < |rows| && rows[i].issueId == k
    ensures |Places(rows, p)| == |CardsWhere(board, p)|
  {
    var f := map i | i in Places(rows, p) :: rows[i].issueId;
    forall k | k in CardsWhere(board, p) ensures k in f.Values {
      var i: nat :| i < |rows| && rows[i].issueId == k;
      assert i in f && f[i] == k;
    }
    SameSize(Places(rows, p), CardsWhere(board, p), f);
  }

  /** The totals of the saved state: the issues that have a card, and those whose card is done. */
  lemma {:induction false} TotalsMean(ws: string, units: seq<Batch>, q: R.Published)
    requires After(ws, units, q)
    ensures q.state.workspaceId == ws && q.state.issueCount == |q.board|
    ensures q.state.doneCount == |set k | k in q.board && q.board[k].issue.status == Done|
  {
    AfterIsFold(ws, units, q);
    TotalsAt(R.Joined(units), q);
  }

  lemma {:induction false} TotalsAt(b: Batch, q: R.Published)
    requires Folded(b, q)
    ensures |q.state.issues| == |q.board|
    ensures CountDone(q.state.issues) == |set k | k in q.board && q.board[k].issue.status == Done|
  {
    assert |q.state.issues| == |CardsWhere(q.board, Any)| by {
      AllRows(q.state.issues);
      RowsAreCards(b, q, Any);
    }
    assert CountDone(q.state.issues) == |CardsWhere(q.board, IsDone)| by {
      DoneRows(q.state.issues);
      RowsAreCards(b, q, IsDone);
    }
    CardSets(q.board);
  }

  lemma {:induction false} CardSets(board: map<string, Card>)
    ensures CardsWhere(board, Any) == board.Keys
    ensures CardsWhere(board, IsDone) == set k | k in board && board[k].issue.status == Done
  {
  }
}
