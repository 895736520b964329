/** Runs of the tracker: readers of its outputs, and independence of unit boundaries. */
module BugsyRuns {
  import opened Common
  import opened JsMap
  import opened BugsyDomain
  import opened BugsyOutputs
  import opened BugsyTracker

  // ---- Replaying a comparison --------------------------------------------------------------

  /** The rows that differ from `was`, in order. */
  function Diff<R(==)>(was: map<string, R>, rows: seq<(string, R)>): seq<Change<R>> {
    if rows == [] then []
    else
      var n := |rows| - 1;
      Diff(was, rows[..n]) +
      (if rows[n].0 in was && was[rows[n].0] == rows[n].1 then [] else [Upserted(rows[n].0, rows[n].1)])
  }

  /** What replaying a difference leaves at one key: the new row, or what was there. */
  lemma {:induction false} ReplayDiff<R>(was: map<string, R>, rows: seq<(string, R)>, k: string)
    requires Unique(rows)
    ensures var table := Replay(was, Diff(was, rows));
      && (forall i :: 0 <= i < |rows| && rows[i].0 == k ==> k in table && table[k] == rows[i].1)
      && ((forall i :: 0 <= i < |rows| ==> rows[i].0 != k) ==> Same(table, was, k))
  {
    if rows != [] {
      var n := |rows| - 1;
      var front := rows[..n];
      assert forall i :: 0 <= i < n ==> front[i] == rows[i];
      ReplayDiff(was, front, k);
      ReplayOne(was, Replay(was, Diff(was, front)), rows, k);
    }
  }

  /** One more row: its key gets the row, any other key keeps what it has. */
  lemma {:induction false} ReplayOne<R>(was: map<string, R>, table: map<string, R>, rows: seq<(string, R)>, k: string)
    requires rows != [] && table == Replay(was, Diff(was, rows[..|rows| - 1]))
    requires rows[|rows| - 1].0 == k ==> Same(table, was, k)
    ensures var next, last := Replay(was, Diff(was, rows)), rows[|rows| - 1];
      if last.0 == k then k in next && next[k] == last.1 else Same(next, table, k)
  {
    var front, last := rows[..|rows| - 1], rows[|rows| - 1];
    if !(last.0 in was && was[last.0] == last.1) {
      FoldSnoc(was, ApplyChange<R>, Diff(was, front), Upserted(last.0, last.1));
    } else {
      assert Diff(was, rows) == Diff(was, front);
    }
  }

  function CardRows(index: WorkspaceIndex, issues: seq<IssueRow>): (rows: seq<(string, Card)>)
    ensures |rows| == |issues|
    ensures forall i :: 0 <= i < |issues| ==> rows[i] == (issues[i].issueId, BoardCard(index, issues[i]))
  {
    if issues == [] then []
    else
      var n := |issues| - 1;
      CardRows(index, issues[..n]) + [(issues[n].issueId, BoardCard(index, issues[n]))]
  }

  function CountRows(index: WorkspaceIndex, labels: seq<LabelRow>): (rows: seq<(string, LabelCountRow)>)
    ensures |rows| == |labels|
    ensures forall i :: 0 <= i < |labels| ==> rows[i] == (labels[i].labelId, LabelCount(index, labels[i]))
  {
    if labels == [] then []
    else
      var n := |labels| - 1;
      CountRows(index, labels[..n]) + [(labels[n].labelId, LabelCount(index, labels[n]))]
  }

  lemma {:induction false} BoardDiffIsDiff(s: WorkspaceState, after: WorkspaceIndex, issues: seq<IssueRow>)
    ensures BoardDiff(IndexOf(s), after, issues) == Diff(FullBoard(s), CardRows(after, issues))
  {
    if issues != [] {
      var n := |issues| - 1;
      BoardDiffIsDiff(s, after, issues[..n]);
      assert CardRows(after, issues)[..n] == CardRows(after, issues[..n]);
    }
  }

  lemma {:induction false} LabelDiffIsDiff(s: WorkspaceState, after: WorkspaceIndex, labels: seq<LabelRow>)
    ensures LabelDiff(IndexOf(s), after, labels) == Diff(FullLabels(s), CountRows(after, labels))
  {
    if labels != [] {
      var n := |labels| - 1;
      LabelDiffIsDiff(s, after, labels[..n]);
      assert CountRows(after, labels)[..n] == CountRows(after, labels[..n]);
    }
  }

  lemma {:induction false} IndexHolds<V>(rows: seq<V>, id: V -> string, k: string)
    requires UniqueIds(rows, id)
    ensures k in AsMap(MapOf(rows, id)) <==> exists i :: 0 <= i < |rows| && id(rows[i]) == k
  {
    if k in AsMap(MapOf(rows, id)) {
      MapOfUnique(rows, id);
      var m := MapOf(rows, id);
      GetIsLookup(m, k);
      var i :| 0 <= i < |m| && m[i].0 == k;
      assert Values(m)[i] == m[i].1 && id(m[i].1) == k;
    }
    if i :| 0 <= i < |rows| && id(rows[i]) == k {
      IndexFinds(rows, id, i);
    }
  }

  /** Replaying the board changes over the previous board gives the rebuilt board. */
  lemma {:induction false} BoardReplay(s: WorkspaceState, t: WorkspaceState)
    requires UniqueIds(s.issues, IssueId) && UniqueIds(t.issues, IssueId)
    requires forall k :: k in IndexOf(s).issues ==> k in IndexOf(t).issues
    ensures Replay(FullBoard(s), BoardDiff(IndexOf(s), IndexOf(t), t.issues)) == FullBoard(t)
  {
    var rows := CardRows(IndexOf(t), t.issues);
    BoardDiffIsDiff(s, IndexOf(t), t.issues);
    CardRowsUnique(IndexOf(t), t.issues);
    var table := Replay(FullBoard(s), Diff(FullBoard(s), rows));
    forall k ensures Same(table, FullBoard(t), k) {
      ReplayDiff(FullBoard(s), rows, k);
      BoardAt(s, t, rows, table, k);
    }
    SameTables(table, FullBoard(t));
  }

  lemma {:induction false} CardRowsUnique(index: WorkspaceIndex, issues: seq<IssueRow>)
    requires UniqueIds(issues, IssueId)
    ensures Unique(CardRows(index, issues))
  {
    var rows := CardRows(index, issues);
    forall i, j | 0 <= i < j < |rows| ensures rows[i].0 != rows[j].0 { assert IssueId(issues[i]) != IssueId(issues[j]); }
  }

  lemma {:induction false} CountRowsUnique(index: WorkspaceIndex, labels: seq<LabelRow>)
    requires UniqueIds(labels, LabelId)
    ensures Unique(CountRows(index, labels))
  {
    var rows := CountRows(index, labels);
    forall i, j | 0 <= i < j < |rows| ensures rows[i].0 != rows[j].0 { assert LabelId(labels[i]) != LabelId(labels[j]); }
  }

  /** One key of the replayed board. */
  lemma {:induction false} BoardAt(
      s: WorkspaceState, t: WorkspaceState, rows: seq<(string, Card)>, table: map<string, Card>, k: string)
    requires UniqueIds(s.issues, IssueId) && UniqueIds(t.issues, IssueId)
    requires k in IndexOf(s).issues ==> k in IndexOf(t).issues
    requires rows == CardRows(IndexOf(t), t.issues)
    requires forall i :: 0 <= i < |rows| && rows[i].0 == k ==> k in table && table[k] == rows[i].1
    requires (forall i :: 0 <= i < |rows| ==> rows[i].0 != k) ==> Same(table, FullBoard(s), k)
    ensures Same(table, FullBoard(t), k)
  {
    IndexHolds(t.issues, IssueId, k);
    if i :| 0 <= i < |t.issues| && t.issues[i].issueId == k {
      IndexFinds(t.issues, IssueId, i);
      assert rows[i].0 == k;
    }
  }

  lemma {:induction false} SameTables<R>(a: map<string, R>, b: map<string, R>)
    requires forall k :: Same(a, b, k)
    ensures a == b
  {
    forall k ensures k in a <==> k in b { assert Same(a, b, k); }
    forall k | k in a ensures a[k] == b[k] { assert Same(a, b, k); }
  }

  /** `k` names a previous label that is not kept. */
  ghost predicate Gone(previous: seq<LabelRow>, kept: Pairs<string, LabelRow>, k: string) {
    Get(kept, k).None? && exists i :: 0 <= i < |previous| && previous[i].labelId == k
  }

  lemma {:induction false} ReplayRemovals(
      table: map<string, LabelCountRow>, previous: seq<LabelRow>, kept: Pairs<string, LabelRow>, k: string)
    ensures var after := Replay(table, Removals(previous, kept));
      if Gone(previous, kept, k) then k !in after else Same(after, table, k)
  {
    if previous != [] {
      var n := |previous| - 1;
      var front := previous[..n];
      ReplayRemovals(table, front, kept, k);
      var id := previous[n].labelId;
      GoneSnoc(previous, kept, k);
      if Get(kept, id).None? {
        FoldSnoc(table, ApplyChange<LabelCountRow>, Removals(front, kept), Removed(id));
      } else {
        assert Removals(previous, kept) == Removals(front, kept);
      }
    }
  }

  lemma {:induction false} GoneSnoc(previous: seq<LabelRow>, kept: Pairs<string, LabelRow>, k: string)
    requires previous != []
    ensures var n := |previous| - 1;
      Gone(previous, kept, k) <==> Gone(previous[..n], kept, k) || (Get(kept, k).None? && k == previous[n].labelId)
  {
    var n := |previous| - 1;
    var front := previous[..n];
    if Gone(front, kept, k) {
      var i :| 0 <= i < n && front[i].labelId == k;
      assert previous[i].labelId == k;
    }
    if Gone(previous, kept, k) && k != previous[n].labelId {
      var i :| 0 <= i < |previous| && previous[i].labelId == k;
      assert front[i].labelId == k;
    }
  }

  /** Replaying the label changes over the previous counts gives the rebuilt counts. */
  lemma {:induction false} LabelReplay(s: WorkspaceState, t: WorkspaceState, kept: Pairs<string, LabelRow>)
    requires UniqueIds(s.labels, LabelId) && Keyed(kept, LabelId) && t.labels == Values(kept)
    ensures Replay(FullLabels(s), LabelDiff(IndexOf(s), IndexOf(t), t.labels) + Removals(s.labels, kept))
         == FullLabels(t)
  {
    ValuesUnique(kept, LabelId);
    LabelDiffIsDiff(s, IndexOf(t), t.labels);
    CountRowsUnique(IndexOf(t), t.labels);
    var rows := CountRows(IndexOf(t), t.labels);
    var diff, removals := Diff(FullLabels(s), rows), Removals(s.labels, kept);
    FoldConcat(FullLabels(s), ApplyChange<LabelCountRow>, diff, removals);
    var table := Replay(FullLabels(s), diff);
    var after := Replay(table, removals);
    forall k ensures Same(after, FullLabels(t), k) {
      ReplayDiff(FullLabels(s), rows, k);
      ReplayRemovals(table, s.labels, kept, k);
      LabelSurvives(s, t, kept, rows, table, after, k);
    }
    SameTables(after, FullLabels(t));
  }

  lemma {:induction false} LabelSurvives(s: WorkspaceState, t: WorkspaceState, kept: Pairs<string, LabelRow>,
                                         rows: seq<(string, LabelCountRow)>, table: map<string, LabelCountRow>,
                                         after: map<string, LabelCountRow>, k: string)
    requires UniqueIds(s.labels, LabelId) && Keyed(kept, LabelId) && t.labels == Values(kept)
    requires UniqueIds(t.labels, LabelId) && MapOf(t.labels, LabelId) == kept
    requires rows == CountRows(IndexOf(t), t.labels)
    requires forall i :: 0 <= i < |rows| && rows[i].0 == k ==> k in table && table[k] == rows[i].1
    requires (forall i :: 0 <= i < |rows| ==> rows[i].0 != k) ==> Same(table, FullLabels(s), k)
    requires if Gone(s.labels, kept, k) then k !in after else Same(after, table, k)
    ensures Same(after, FullLabels(t), k)
  {
    IndexHolds(t.labels, LabelId, k);
    GetIsLookup(kept, k);
    if i :| 0 <= i < |t.labels| && t.labels[i].labelId == k {
      IndexFinds(t.labels, LabelId, i);
      assert rows[i].0 == k;
    } else {
      IndexHolds(s.labels, LabelId, k);
    }
  }

  lemma {:induction false} IssuesOnlyGrow(rows: Pairs<string, IssueRow>, events: seq<IssueEvent>, k: string)
    requires k in AsMap(rows)
    ensures k in AsMap(FoldIssues(rows, events))
  {
    if events != [] {
      IssuesOnlyGrow(rows, events[..|events| - 1], k);
      var m, e := FoldIssues(rows, events[..|events| - 1]), events[|events| - 1];
      if Accepts(Get(m, e.issueId), e) {
        PutMeansUpdate(m, e.issueId, FoldIssue(Get(m, e.issueId), e).value);
      }
    }
  }

  // ---- Published state -----------------------------------------------------------------------

  /** The saved state and what readers of the three output streams hold. */
  datatype Published = Published(
    state: WorkspaceState, feed: seq<IssueEvent>, board: map<string, Card>, labels: map<string, LabelCountRow>)

  /** The readers' tables are the full rebuild of the saved state. */
  ghost predicate Consistent(p: Published) {
    && ValidState(p.state)
    && p.state.issueCount == |p.state.issues| && p.state.doneCount == CountDone(p.state.issues)
    && p.board == FullBoard(p.state)
    && p.labels == FullLabels(p.state)
  }

  function InitialWorkspace(ws: string): WorkspaceState { WorkspaceState(ws, 0, 0, [], [], [], [], []) }

  lemma {:induction false} InitialConsistent(ws: string)
    ensures Consistent(Published(InitialWorkspace(ws), [], map[], map[]))
  {
  }

  /** One committed unit, as its readers see it. */
  function Apply(p: Published, b: Batch): Result<Published, Mismatch> {
    if CatalogFault(p.state.workspaceId, b).Some? then Err(CatalogFault(p.state.workspaceId, b).value)
    else
      var out := UnitOutputs(p.state, b);
      Ok(Published(UnitState(p.state, b), p.feed + out.transitions,
                   Replay(p.board, out.board), Replay(p.labels, out.labelCounts)))
  }

  /** Tables kept by applying changes always equal the rebuild of the whole workspace. */
  lemma {:induction false} UnitKeepsConsistent(p: Published, b: Batch)
    requires Consistent(p) && KeyedBatch(b) && Apply(p, b).Ok?
    ensures Consistent(Apply(p, b).value)
  {
    var s, t := p.state, UnitState(p.state, b);
    UnitKeepsValid(s, b);
    forall k | k in IndexOf(s).issues ensures k in IndexOf(t).issues {
      IssuesOnlyGrow(MapOf(s.issues, IssueId), b.events, k);
      ValuesUnique(FoldIssues(MapOf(s.issues, IssueId), b.events), IssueId);
    }
    BoardReplay(s, t);
    LabelReplay(s, t, FoldCatalog(MapOf(s.labels, LabelId), b.labels));
  }

  /** Units in order; the first fault stops the run. */
  function Run(p: Published, units: seq<Batch>): Result<Published, Mismatch> {
    if units == [] then Ok(p)
    else
      var before := Run(p, units[..|units| - 1]);
      if before.Err? then before else Apply(before.value, units[|units| - 1])
  }

  function Join(a: Batch, b: Batch): Batch {
    Batch(a.events + b.events, a.labelEvents + b.labelEvents, a.projects + b.projects, a.users + b.users, a.labels + b.labels)
  }

  /** The five input streams that the units cut. */
  function Joined(units: seq<Batch>): Batch {
    if units == [] then Batch([], [], [], [], [])
    else Join(Joined(units[..|units| - 1]), units[|units| - 1])
  }

  lemma {:induction false} ForeignConcat<V>(
      ws: string, c: string, a: seq<StateEvent<V>>, b: seq<StateEvent<V>>, of: V -> string)
    ensures FirstForeign(ws, c, a + b, of).None?
       <==> FirstForeign(ws, c, a, of).None? && FirstForeign(ws, c, b, of).None?
  {
    if a == [] {
      assert a + b == b;
    } else {
      assert (a + b)[1..] == a[1..] + b;
      ForeignConcat(ws, c, a[1..], b, of);
    }
  }

  lemma {:induction false} FaultJoin(ws: string, a: Batch, b: Batch)
    ensures CatalogFault(ws, Join(a, b)).None? <==> CatalogFault(ws, a).None? && CatalogFault(ws, b).None?
  {
    ForeignConcat(ws, "project", a.projects, b.projects, ProjectWorkspace);
    ForeignConcat(ws, "user", a.users, b.users, UserWorkspace);
    ForeignConcat(ws, "label", a.labels, b.labels, LabelWorkspace);
  }

  lemma {:induction false} KeyedJoin(a: Batch, b: Batch)
    ensures KeyedBatch(a) && KeyedBatch(b) ==> KeyedBatch(Join(a, b))
  {
  }

  /** Two units are one: the saved rows and the feed do not remember the boundary. */
  lemma {:induction false} UnitStateJoin(s: WorkspaceState, a: Batch, b: Batch)
    requires ValidState(s) && KeyedBatch(a)
    ensures UnitState(UnitState(s, a), b) == UnitState(s, Join(a, b))
    ensures Accepted(MapOf(s.issues, IssueId), Join(a, b).events)
         == Accepted(MapOf(s.issues, IssueId), a.events) + Accepted(MapOf(UnitState(s, a).issues, IssueId), b.events)
  {
    UnitKeepsValid(s, a);
    ValuesUnique(FoldIssues(MapOf(s.issues, IssueId), a.events), IssueId);
    AcceptedConcat(MapOf(s.issues, IssueId), a.events, b.events);
    ValuesUnique(FoldLabels(MapOf(s.memberships, MembershipId), a.labelEvents), MembershipId);
    FoldConcat(MapOf(s.memberships, MembershipId), ApplyLabelEvent, a.labelEvents, b.labelEvents);
    ValuesUnique(FoldCatalog(MapOf(s.projects, ProjectId), a.projects), ProjectId);
    FoldConcat(MapOf(s.projects, ProjectId), ApplyCatalogEvent<ProjectRow>, a.projects, b.projects);
    ValuesUnique(FoldCatalog(MapOf(s.users, UserId), a.users), UserId);
    FoldConcat(MapOf(s.users, UserId), ApplyCatalogEvent<UserRow>, a.users, b.users);
    ValuesUnique(FoldCatalog(MapOf(s.labels, LabelId), a.labels), LabelId);
    FoldConcat(MapOf(s.labels, LabelId), ApplyCatalogEvent<LabelRow>, a.labels, b.labels);
  }

  lemma {:induction false} UnitStateEmpty(s: WorkspaceState)
    requires ValidState(s) && s.issueCount == |s.issues| && s.doneCount == CountDone(s.issues)
    ensures UnitState(s, Joined([])) == s
  {
    MapOfUnique(s.issues, IssueId);
    MapOfUnique(s.memberships, MembershipId);
    MapOfUnique(s.projects, ProjectId);
    MapOfUnique(s.users, UserId);
    MapOfUnique(s.labels, LabelId);
  }

  /** `q` is what one unit with the whole streams `b` makes of `p`. */
  ghost predicate IsUnit(p: Published, b: Batch, q: Published) {
    && q.state == UnitState(p.state, b)
    && q.feed == p.feed + Accepted(MapOf(p.state.issues, IssueId), b.events)
  }

  lemma {:induction false} UnitIsUnit(p: Published, b: Batch)
    requires Consistent(p) && KeyedBatch(b) && Apply(p, b).Ok?
    ensures IsUnit(p, b, Apply(p, b).value) && Consistent(Apply(p, b).value)
  {
    UnitKeepsConsistent(p, b);
  }

  lemma {:induction false} JoinFeeds(
      p: seq<IssueEvent>, a: seq<IssueEvent>, b: seq<IssueEvent>, mid: seq<IssueEvent>, q: seq<IssueEvent>)
    requires mid == p + a && q == mid + b
    ensures q == p + (a + b)
  {
  }

  lemma {:induction false} UnitsJoin(p: Published, a: Batch, mid: Published, b: Batch, q: Published)
    requires ValidState(p.state) && KeyedBatch(a)
    requires IsUnit(p, a, mid) && IsUnit(mid, b, q)
    ensures IsUnit(p, Join(a, b), q)
  {
    UnitStateJoin(p.state, a, b);
    JoinFeeds(p.feed, Accepted(MapOf(p.state.issues, IssueId), a.events),
              Accepted(MapOf(mid.state.issues, IssueId), b.events), mid.feed, q.feed);
  }

  /** A run is determined by its five joined streams. */
  lemma {:induction false} RunIsJoined(p: Published, units: seq<Batch>)
    requires Consistent(p) && forall i :: 0 <= i < |units| ==> KeyedBatch(units[i])
    ensures KeyedBatch(Joined(units))
    ensures Run(p, units).Ok? <==> CatalogFault(p.state.workspaceId, Joined(units)).None?
    ensures Run(p, units).Ok? ==> IsUnit(p, Joined(units), Run(p, units).value) && Consistent(Run(p, units).value)
  {
    if units == [] {
      UnitStateEmpty(p.state);
    } else {
      var n := |units| - 1;
      RunIsJoined(p, units[..n]);
      KeyedJoin(Joined(units[..n]), units[n]);
      FaultJoin(p.state.workspaceId, Joined(units[..n]), units[n]);
      if Run(p, units).Ok? {
        var mid := Run(p, units[..n]).value;
        UnitIsUnit(mid, units[n]);
        UnitsJoin(p, Joined(units[..n]), mid, units[n], Run(p, units).value);
      }
    }
  }

  /** Cutting the same five streams into units anywhere gives the same state, feed and tables. */
  lemma {:induction false} CutInvariance(p: Published, units: seq<Batch>, other: seq<Batch>)
    requires Consistent(p)
    requires forall i :: 0 <= i < |units| ==> KeyedBatch(units[i])
    requires forall i :: 0 <= i < |other| ==> KeyedBatch(other[i])
    requires Joined(units) == Joined(other)
    ensures Run(p, units).Ok? <==> Run(p, other).Ok?
    ensures Run(p, units).Ok? ==> Run(p, units) == Run(p, other)
  {
    RunIsJoined(p, units);
    RunIsJoined(p, other);
  }
}
