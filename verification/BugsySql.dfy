/** The per-entry SQL projection of the same inputs (examples/bugsy/server/projection.ts). */
module BugsySql {
  import opened Common
  import opened JsMap
  import opened BugsyDomain
  import opened BugsyTracker

  /** A table row key: the workspace and the row's own id. */
  type Key = (string, string)

  function Lookup<V>(table: map<Key, V>, k: Key): Option<V> {
    if k in table then Some(table[k]) else None
  }

  /** What one event makes of the table: the fold of the row under its workspace and issue. */
  function IssueStep(table: map<Key, IssueRow>, event: IssueEvent): map<Key, IssueRow> {
    var key := (event.workspaceId, event.issueId);
    var after := FoldIssue(Lookup(table, key), event);
    if after.None? then table else table[key := after.value]
  }

  /** Every row sits under its own workspace and issue. */
  ghost predicate UnderOwnKeys(table: map<Key, IssueRow>) {
    forall k :: k in table ==> k == (table[k].workspaceId, table[k].issueId)
  }

  datatype Column = AttachedColumn | UpdatedAtColumn | SequenceColumn

  /** `SET column = IF(VALUES(sequence) > sequence, VALUES(column), column)` on the current row. */
  function Assign(row: Membership, event: LabelEvent, column: Column): Membership {
    if event.sequence <= row.sequence then row
    else match column
      case AttachedColumn => row.(attached := event.attached)
      case UpdatedAtColumn => row.(updatedAt := event.occurredAt)
      case SequenceColumn => row.(sequence := event.sequence)
  }

  /** MySQL runs the assignments left to right, each on the row the one before it left. */
  function MysqlUpdate(row: Membership, event: LabelEvent, columns: seq<Column>): Membership
    decreases |columns|
  {
    if columns == [] then row else MysqlUpdate(Assign(row, event, columns[0]), event, columns[1..])
  }

  /** `DO UPDATE ... WHERE excluded.sequence > issue_labels.sequence` */
  function ConditionalUpdate(row: Membership, event: LabelEvent): Membership {
    if event.sequence > row.sequence
    then row.(attached := event.attached, sequence := event.sequence, updatedAt := event.occurredAt)
    else row
  }

  function LabelStep(table: map<Key, Membership>, event: LabelEvent): map<Key, Membership> {
    var key := (event.workspaceId, event.membershipId);
    table[key := if key in table then ConditionalUpdate(table[key], event) else MembershipOf(event)]
  }

  lemma {:induction false} ThreeAssignments(row: Membership, event: LabelEvent, a: Column, b: Column, c: Column)
    ensures MysqlUpdate(row, event, [a, b, c]) == Assign(Assign(Assign(row, event, a), event, b), event, c)
  {
    var row1 := Assign(row, event, a);
    var row2 := Assign(row1, event, b);
    assert [a, b, c][1..] == [b, c] && [b, c][1..] == [c] && [c][1..] == [];
    assert MysqlUpdate(row2, event, [c]) == MysqlUpdate(Assign(row2, event, c), event, []);
    assert MysqlUpdate(row1, event, [b, c]) == MysqlUpdate(row2, event, [c]);
  }

  /** `sequence` must come last: exactly then is the MySQL statement the conditional update. */
  lemma {:induction false} SequenceComesLast(a: Column, b: Column, c: Column)
    requires a != b && b != c && a != c
    ensures (forall row, event :: MysqlUpdate(row, event, [a, b, c]) == ConditionalUpdate(row, event))
       <==> c == SequenceColumn
  {
    if c == SequenceColumn {
      forall row, event ensures MysqlUpdate(row, event, [a, b, c]) == ConditionalUpdate(row, event) {
        ThreeAssignments(row, event, a, b, c);
      }
    } else {
      var row := Membership("m", "i", "l", "w", false, 0, "t");
      var event := LabelEvent(true, "e", "w", "i", "l", "m", 1, "u");
      ThreeAssignments(row, event, a, b, c);
      assert row.updatedAt[0] != event.occurredAt[0];
      assert MysqlUpdate(row, event, [a, b, c]) != ConditionalUpdate(row, event);
    }
  }

  /** The MySQL statement of `applyLabel`, as written. */
  lemma {:induction false} MysqlIsConditional(row: Membership, event: LabelEvent)
    ensures MysqlUpdate(row, event, [AttachedColumn, UpdatedAtColumn, SequenceColumn]) == ConditionalUpdate(row, event)
  {
    SequenceComesLast(AttachedColumn, UpdatedAtColumn, SequenceColumn);
  }

  datatype Dialect = Mysql | Other

  class IssueTables {
    const dialect: Dialect
    var issues: map<Key, IssueRow>
    var labels: map<Key, Membership>

    constructor (dialect: Dialect)
      ensures this.dialect == dialect && issues == map[] && labels == map[]
      ensures UnderOwnKeys(issues)
    {
      this.dialect := dialect;
      issues, labels := map[], map[];
    }

    /** Inserting, or updating every column but the key, leaves the folded row and every other row alone. */
    method ApplyIssue(event: IssueEvent)
      requires UnderOwnKeys(issues)
      modifies this`issues
      ensures UnderOwnKeys(issues)
      ensures var key := (event.workspaceId, event.issueId);
        && Lookup(issues, key) == FoldIssue(Lookup(old(issues), key), event)
        && forall other :: other != key ==> Lookup(issues, other) == Lookup(old(issues), other)
      ensures issues == IssueStep(old(issues), event)
    {
      var before := Lookup(issues, (event.workspaceId, event.issueId));
      var after := FoldIssue(before, event);
      if after.None? || after == before { return; }
      var row := after.value;
      var key := (row.workspaceId, row.issueId);
      if key in issues {
        issues := issues[key := issues[key].(projectId := row.projectId, title := row.title, status := row.status,
                                             sequence := row.sequence, updatedAt := row.updatedAt,
                                             assigneeId := row.assigneeId)];
      } else {
        issues := issues[key := row];
      }
    }

    /** Both dialects leave the row of the conditional update. */
    method ApplyLabel(event: LabelEvent)
      modifies this`labels
      ensures labels == LabelStep(old(labels), event)
    {
      var key := (event.workspaceId, event.membershipId);
      if key !in labels {
        labels := labels[key := MembershipOf(event)];
      } else if dialect == Mysql {
        MysqlIsConditional(labels[key], event);
        labels := labels[key := MysqlUpdate(labels[key], event, [AttachedColumn, UpdatedAtColumn, SequenceColumn])];
      } else {
        labels := labels[key := ConditionalUpdate(labels[key], event)];
      }
    }
  }

  // ---- The tracker and the tables reach the same rows ----------------------------------------

  function IssueTable(events: seq<IssueEvent>): map<Key, IssueRow> { Fold(map[], IssueStep, events) }
  function LabelTable(events: seq<LabelEvent>): map<Key, Membership> { Fold(map[], LabelStep, events) }

  /** The events that carry the workspace, in order. */
  function OwnIssues(ws: string, events: seq<IssueEvent>): seq<IssueEvent> {
    if events == [] then []
    else
      var n := |events| - 1;
      OwnIssues(ws, events[..n]) + (if events[n].workspaceId == ws then [events[n]] else [])
  }

  function OwnLabels(ws: string, events: seq<LabelEvent>): seq<LabelEvent> {
    if events == [] then []
    else
      var n := |events| - 1;
      OwnLabels(ws, events[..n]) + (if events[n].workspaceId == ws then [events[n]] else [])
  }

  lemma {:induction false} GetAfterIssue(m: Pairs<string, IssueRow>, e: IssueEvent, k: string)
    ensures Get(ApplyIssueEvent(m, e), k) == if k == e.issueId then FoldIssue(Get(m, k), e) else Get(m, k)
  {
    if Accepts(Get(m, e.issueId), e) { GetPut(m, e.issueId, FoldIssue(Get(m, e.issueId), e).value, k); }
  }

  /** Entry by entry in one shared table or batch by batch: a workspace's issue rows are the fold of its own events. */
  lemma {:induction false} SameIssueRows(ws: string, events: seq<IssueEvent>, k: string)
    ensures Lookup(IssueTable(events), (ws, k)) == Get(FoldIssues([], OwnIssues(ws, events)), k)
  {
    if events != [] {
      var front, e := events[..|events| - 1], events[|events| - 1];
      SameIssueRows(ws, front, k);
      if e.workspaceId == ws {
        FoldSnoc([], ApplyIssueEvent, OwnIssues(ws, front), e);
        GetAfterIssue(FoldIssues([], OwnIssues(ws, front)), e, k);
      } else {
        assert OwnIssues(ws, events) == OwnIssues(ws, front);
      }
    }
  }

  ghost predicate SameIssues(ws: string, events: seq<IssueEvent>) {
    forall k :: Lookup(IssueTable(events), (ws, k)) == Get(FoldIssues([], events), k)
  }

  /** The tracker accepts only events of the workspace it was addressed by. */
  ghost predicate OwnFeed(ws: string, events: seq<IssueEvent>) {
    forall e :: e in Accepted([], events) ==> e.workspaceId == ws
  }

  /** One more event keeps the rows the same exactly when it is one of the workspace or is not accepted. */
  lemma {:induction false} LastIssueEvent(ws: string, front: seq<IssueEvent>, e: IssueEvent)
    requires SameIssues(ws, front)
    ensures SameIssues(ws, front + [e])
       <==> (Accepts(Get(FoldIssues([], front), e.issueId), e) ==> e.workspaceId == ws)
  {
    var m, table := FoldIssues([], front), IssueTable(front);
    FoldSnoc([], ApplyIssueEvent, front, e);
    FoldSnoc(map[], IssueStep, front, e);
    forall k ensures k != e.issueId || e.workspaceId == ws ==>
      Lookup(IssueTable(front + [e]), (ws, k)) == Get(FoldIssues([], front + [e]), k)
    {
      assert Lookup(table, (ws, k)) == Get(m, k);
      GetAfterIssue(m, e, k);
    }
    GetAfterIssue(m, e, e.issueId);
    assert Lookup(table, (ws, e.issueId)) == Get(m, e.issueId);
    if e.workspaceId != ws {
      assert Lookup(IssueTable(front + [e]), (ws, e.issueId)) == Get(m, e.issueId);
    }
  }

  ghost predicate AlwaysSameIssues(ws: string, events: seq<IssueEvent>) {
    forall n :: 0 <= n <= |events| ==> SameIssues(ws, events[..n])
  }

  /**
   * The table and the tracker hold the same issues of a workspace at every moment exactly when every
   * event that the tracker accepts carries that workspace.
   */
  lemma {:induction false} SameIssuesIffOwn(ws: string, events: seq<IssueEvent>)
    ensures AlwaysSameIssues(ws, events) <==> OwnFeed(ws, events)
  {
    if events == [] {
      assert forall n :: 0 <= n <= |events| ==> events[..n] == [];
    } else {
      var n := |events| - 1;
      var front, e := events[..n], events[n];
      assert events == front + [e];
      SameIssuesIffOwn(ws, front);
      assert AlwaysSameIssues(ws, events) <==> AlwaysSameIssues(ws, front) && SameIssues(ws, events) by {
        AlwaysSameIssuesSnoc(ws, front, e);
      }
      var own := Accepts(Get(FoldIssues([], front), e.issueId), e) ==> e.workspaceId == ws;
      assert OwnFeed(ws, events) <==> OwnFeed(ws, front) && own by { OwnFeedSnoc(ws, front, e); }
      if AlwaysSameIssues(ws, front) {
        assert SameIssues(ws, front) by { assert SameIssues(ws, front[..n]) && front[..n] == front; }
        assert SameIssues(ws, events) <==> own by { LastIssueEvent(ws, front, e); }
      }
    }
  }

  lemma {:induction false} OwnFeedSnoc(ws: string, front: seq<IssueEvent>, e: IssueEvent)
    ensures OwnFeed(ws, front + [e])
       <==> OwnFeed(ws, front) && (Accepts(Get(FoldIssues([], front), e.issueId), e) ==> e.workspaceId == ws)
  {
    AcceptedSnoc([], front, e);
    var feed, added := Accepted([], front), if Accepts(Get(FoldIssues([], front), e.issueId), e) then [e] else [];
    assert forall x :: x in feed + added <==> x in feed || x in added;
  }

  lemma {:induction false} AlwaysSameIssuesSnoc(ws: string, front: seq<IssueEvent>, e: IssueEvent)
    ensures AlwaysSameIssues(ws, front + [e]) <==> AlwaysSameIssues(ws, front) && SameIssues(ws, front + [e])
  {
    var all := front + [e];
    assert all[..|all|] == all;
    forall n | 0 <= n <= |front| ensures SameIssues(ws, front[..n]) <==> SameIssues(ws, all[..n]) {
      assert front[..n] == all[..n];
    }
    if AlwaysSameIssues(ws, all) { assert SameIssues(ws, all[..|all|]); }
  }

  /** An event that names another workspace gives the tracker a row that the workspace's table never has. */
  lemma {:induction false} ForeignIssue(ws: string, e: IssueEvent)
    requires e.IssueCreated? && e.workspaceId != ws
    ensures Get(FoldIssues([], [e]), e.issueId).Some? && Lookup(IssueTable([e]), (ws, e.issueId)).None?
    ensures !AlwaysSameIssues(ws, [e])
  {
    assert [] + [e] == [e];
    assert Get(FoldIssues([], [e]), e.issueId).Some? by {
      FoldSnoc([], ApplyIssueEvent, [], e);
      GetAfterIssue([], e, e.issueId);
    }
    assert Lookup(IssueTable([e]), (ws, e.issueId)).None? by { FoldSnoc(map[], IssueStep, [], e); }
    AcceptedSnoc([], [], e);
    assert e in Accepted([], [e]);
    SameIssuesIffOwn(ws, [e]);
  }

  /** No earlier event of the same membership has the same or a later sequence. */
  ghost predicate AcceptedAt(events: seq<LabelEvent>, i: nat)
    requires i < |events|
  {
    forall j :: 0 <= j < i && events[j].membershipId == events[i].membershipId ==> events[j].sequence < events[i].sequence
  }

  function FirstOf(events: seq<LabelEvent>, id: string): Option<LabelEvent> {
    if events == [] then None
    else if events[0].membershipId == id then Some(events[0])
    else FirstOf(events[1..], id)
  }

  /** An accepted event names the issue and the label that its membership id was first used for. */
  ghost predicate FixedIds(events: seq<LabelEvent>) {
    forall i {:trigger AcceptedAt(events, i)} :: 0 <= i < |events| && AcceptedAt(events, i) ==>
      var first := FirstOf(events, events[i].membershipId);
      first.Some? && first.value.issueId == events[i].issueId && first.value.labelId == events[i].labelId
  }

  ghost predicate SameLabelRows(ws: string, events: seq<LabelEvent>) {
    forall k :: Lookup(LabelTable(events), (ws, k)) == Get(FoldLabels([], events), k)
  }

  lemma {:induction false} FirstOfSnoc(events: seq<LabelEvent>, e: LabelEvent, id: string)
    ensures FirstOf(events + [e], id)
         == if FirstOf(events, id).Some? then FirstOf(events, id) else if e.membershipId == id then Some(e) else None
  {
    if events == [] {
      assert events + [e] == [e];
    } else {
      assert (events + [e])[1..] == events[1..] + [e];
      FirstOfSnoc(events[1..], e, id);
    }
  }

  /** The tracker's row, but naming the issue and the label of the first event of its id. */
  function KeepingFirst(row: Option<Membership>, first: Option<LabelEvent>): Option<Membership> {
    if row.None? || first.None? then None
    else Some(row.value.(issueId := first.value.issueId, labelId := first.value.labelId))
  }

  ghost predicate RowOf(ws: string, k: string, row: Option<Membership>, first: Option<LabelEvent>) {
    && (row.Some? <==> first.Some?)
    && (row.Some? ==> row.value.membershipId == k && row.value.workspaceId == ws)
  }

  /**
   * The SQL row of a workspace is what the tracker makes of that workspace's own events, except that it
   * keeps the issue and the label of the first of them.
   */
  lemma {:induction false} SqlKeepsFirst(ws: string, events: seq<LabelEvent>, k: string)
    ensures var own := OwnLabels(ws, events);
      && RowOf(ws, k, Get(FoldLabels([], own), k), FirstOf(own, k))
      && Lookup(LabelTable(events), (ws, k)) == KeepingFirst(Get(FoldLabels([], own), k), FirstOf(own, k))
  {
    if events != [] {
      var front, e := events[..|events| - 1], events[|events| - 1];
      SqlKeepsFirst(ws, front, k);
      var own := OwnLabels(ws, front);
      if e.workspaceId == ws {
        SqlKeepsFirstStep(ws, k, FoldLabels([], own), LabelTable(front), FirstOf(own, k), e);
        FirstOfSnoc(own, e, k);
        FoldSnoc([], ApplyLabelEvent, own, e);
      } else {
        assert OwnLabels(ws, events) == own;
      }
    }
  }

  lemma {:induction false} SqlKeepsFirstStep(ws: string, k: string, m: Pairs<string, Membership>, table: map<Key, Membership>,
                                             first: Option<LabelEvent>, e: LabelEvent)
    requires e.workspaceId == ws && RowOf(ws, k, Get(m, k), first)
    requires Lookup(table, (ws, k)) == KeepingFirst(Get(m, k), first)
    ensures var first' := if first.Some? then first else if e.membershipId == k then Some(e) else None;
      && RowOf(ws, k, Get(ApplyLabelEvent(m, e), k), first')
      && Lookup(LabelStep(table, e), (ws, k)) == KeepingFirst(Get(ApplyLabelEvent(m, e), k), first')
  {
    GetPut(m, e.membershipId, MembershipOf(e), k);
  }

  /** The row of a membership carries the highest sequence it was given. */
  lemma {:induction false} HighestSequence(events: seq<LabelEvent>, k: string)
    ensures forall i :: 0 <= i < |events| && events[i].membershipId == k ==>
      Get(FoldLabels([], events), k).Some? && events[i].sequence <= Get(FoldLabels([], events), k).value.sequence
    ensures Get(FoldLabels([], events), k).Some? ==>
      exists i :: 0 <= i < |events| && events[i].membershipId == k
               && events[i].sequence == Get(FoldLabels([], events), k).value.sequence
  {
    if events != [] {
      var n := |events| - 1;
      var front, e := events[..n], events[n];
      HighestSequence(front, k);
      var m := FoldLabels([], front);
      GetPut(m, e.membershipId, MembershipOf(e), k);
      if Get(m, k).Some? {
        var i :| 0 <= i < n && front[i].membershipId == k && front[i].sequence == Get(m, k).value.sequence;
        assert events[i] == front[i];
      }
      forall i | 0 <= i < |events| && events[i].membershipId == k
        ensures Get(FoldLabels([], events), k).Some? && events[i].sequence <= Get(FoldLabels([], events), k).value.sequence
      {
        if i < n { assert front[i] == events[i]; }
      }
      assert events[n].membershipId == e.membershipId;
    }
  }

  lemma {:induction false} FixedIdsSnoc(events: seq<LabelEvent>, e: LabelEvent)
    ensures FixedIds(events + [e])
       <==> FixedIds(events) && (AcceptedAt(events + [e], |events|) ==> NamesFirst(FirstOf(events, e.membershipId), e))
  {
    var all := events + [e];
    FirstOfSnoc(events, e, e.membershipId);
    forall i | 0 <= i < |events| ensures AcceptedAt(all, i) <==> AcceptedAt(events, i)
      ensures FirstOf(all, events[i].membershipId) == FirstOf(events, events[i].membershipId)
    {
      FirstOfSnoc(events, e, events[i].membershipId);
      FirstExists(events, i);
      assert forall j :: 0 <= j <= i ==> all[j] == events[j];
    }
    if FixedIds(all) {
      forall i | 0 <= i < |events| && AcceptedAt(events, i)
        ensures var first := FirstOf(events, events[i].membershipId);
          first.Some? && first.value.issueId == events[i].issueId && first.value.labelId == events[i].labelId
      {
        assert all[i] == events[i] && AcceptedAt(all, i);
      }
      assert all[|events|] == e;
    }
    if FixedIds(events) {
      assert forall i :: 0 <= i < |events| ==> all[i] == events[i];
    }
  }

  lemma {:induction false} FirstExists(events: seq<LabelEvent>, i: nat)
    requires i < |events|
    ensures FirstOf(events, events[i].membershipId).Some?
  {
    if events[0].membershipId != events[i].membershipId { FirstExists(events[1..], i - 1); }
  }

  lemma {:induction false} AcceptedByRow(front: seq<LabelEvent>, e: LabelEvent)
    ensures AcceptedAt(front + [e], |front|)
       <==> (Get(FoldLabels([], front), e.membershipId).Some? ==>
             Get(FoldLabels([], front), e.membershipId).value.sequence < e.sequence)
  {
    var all := front + [e];
    var row := Get(FoldLabels([], front), e.membershipId);
    HighestSequence(front, e.membershipId);
    if AcceptedAt(all, |front|) && row.Some? {
      var i :| 0 <= i < |front| && front[i].membershipId == e.membershipId && front[i].sequence == row.value.sequence;
      assert all[i] == front[i];
    }
    if row.None? || row.value.sequence < e.sequence {
      forall j | 0 <= j < |front| && all[j].membershipId == e.membershipId ensures all[j].sequence < e.sequence {
        assert all[j] == front[j];
      }
    }
  }

  /** The event names the issue and the label that its id was first used for. */
  predicate NamesFirst(first: Option<LabelEvent>, e: LabelEvent) {
    first.Some? ==> first.value.issueId == e.issueId && first.value.labelId == e.labelId
  }

  /** An accepted event carries the workspace. */
  ghost predicate OwnAccepted(ws: string, events: seq<LabelEvent>) {
    forall i {:trigger AcceptedAt(events, i)} :: 0 <= i < |events| && AcceptedAt(events, i) ==> events[i].workspaceId == ws
  }

  lemma {:induction false} OwnAcceptedSnoc(ws: string, events: seq<LabelEvent>, e: LabelEvent)
    ensures OwnAccepted(ws, events + [e])
       <==> OwnAccepted(ws, events) && (AcceptedAt(events + [e], |events|) ==> e.workspaceId == ws)
  {
    var all := events + [e];
    forall i | 0 <= i < |events|
      ensures all[i] == events[i] && (AcceptedAt(all, i) <==> AcceptedAt(events, i))
    {
      assert forall j :: 0 <= j <= i ==> all[j] == events[j];
    }
    assert all[|events|] == e;
  }

  /** While accepted events carry the workspace and fix their ids, a row names what its id was first used for. */
  lemma {:induction false} RowsNameFirst(ws: string, events: seq<LabelEvent>, k: string)
    requires FixedIds(events) && OwnAccepted(ws, events)
    ensures RowNamed(ws, k, Get(FoldLabels([], events), k), FirstOf(events, k))
  {
    if events != [] {
      var front, e := events[..|events| - 1], events[|events| - 1];
      assert events == front + [e];
      FixedIdsSnoc(front, e);
      OwnAcceptedSnoc(ws, front, e);
      RowsNameFirst(ws, front, k);
      RowsNameFirstStep(ws, front, e, k);
    }
  }

  /** The row's workspace, id, issue and label are those of the first event of its id. */
  ghost predicate RowNamed(ws: string, k: string, row: Option<Membership>, first: Option<LabelEvent>) {
    RowOf(ws, k, row, first) && KeepingFirst(row, first) == row
  }

  lemma {:induction false} RowsNameFirstStep(ws: string, front: seq<LabelEvent>, e: LabelEvent, k: string)
    requires RowNamed(ws, k, Get(FoldLabels([], front), k), FirstOf(front, k))
    requires AcceptedAt(front + [e], |front|) ==> e.workspaceId == ws && NamesFirst(FirstOf(front, e.membershipId), e)
    ensures RowNamed(ws, k, Get(FoldLabels([], front + [e]), k), FirstOf(front + [e], k))
  {
    FoldSnoc([], ApplyLabelEvent, front, e);
    FirstOfSnoc(front, e, k);
    if e.membershipId == k { AcceptedByRow(front, e); }
    RowNamesFirst(ws, FoldLabels([], front), FirstOf(front, k), e, k);
  }

  lemma {:induction false} RowNamesFirst(
      ws: string, m: Pairs<string, Membership>, first: Option<LabelEvent>, e: LabelEvent, k: string)
    requires RowNamed(ws, k, Get(m, k), first)
    requires e.membershipId == k && (Get(m, k).Some? ==> Get(m, k).value.sequence < e.sequence) ==>
      e.workspaceId == ws && NamesFirst(first, e)
    ensures RowNamed(ws, k, Get(ApplyLabelEvent(m, e), k), if first.None? && e.membershipId == k then Some(e) else first)
  {
    GetPut(m, e.membershipId, MembershipOf(e), k);
  }

  /**
   * After one more event the rows still agree exactly when it is stale, or carries the workspace and names
   * what its id first named.
   */
  lemma {:induction false} LastEvent(ws: string, front: seq<LabelEvent>, e: LabelEvent)
    requires FixedIds(front) && OwnAccepted(ws, front) && SameLabelRows(ws, front)
    ensures SameLabelRows(ws, front + [e])
       <==> (AcceptedAt(front + [e], |front|) ==> e.workspaceId == ws && NamesFirst(FirstOf(front, e.membershipId), e))
  {
    FoldSnoc([], ApplyLabelEvent, front, e);
    FoldSnoc(map[], LabelStep, front, e);
    forall k | k != e.membershipId
      ensures Lookup(LabelTable(front + [e]), (ws, k)) == Get(FoldLabels([], front + [e]), k)
    {
      GetPut(FoldLabels([], front), e.membershipId, MembershipOf(e), k);
      assert Lookup(LabelTable(front), (ws, k)) == Get(FoldLabels([], front), k);
    }
    LastRow(ws, front, e);
  }

  /** The row of the event's own membership. */
  lemma {:induction false} LastRow(ws: string, front: seq<LabelEvent>, e: LabelEvent)
    requires FixedIds(front) && OwnAccepted(ws, front) && SameLabelRows(ws, front)
    ensures var k := e.membershipId;
      Lookup(LabelStep(LabelTable(front), e), (ws, k)) == Get(ApplyLabelEvent(FoldLabels([], front), e), k)
      <==> (AcceptedAt(front + [e], |front|) ==> e.workspaceId == ws && NamesFirst(FirstOf(front, k), e))
  {
    var k := e.membershipId;
    AcceptedByRow(front, e);
    RowsNameFirst(ws, front, k);
    GetPut(FoldLabels([], front), k, MembershipOf(e), k);
    assert Lookup(LabelTable(front), (ws, k)) == Get(FoldLabels([], front), k);
  }

  ghost predicate AlwaysSame(ws: string, events: seq<LabelEvent>) {
    forall n :: 0 <= n <= |events| ==> SameLabelRows(ws, events[..n])
  }

  lemma {:induction false} AlwaysSameSnoc(ws: string, front: seq<LabelEvent>, e: LabelEvent)
    ensures AlwaysSame(ws, front + [e]) <==> AlwaysSame(ws, front) && SameLabelRows(ws, front + [e])
  {
    var all := front + [e];
    assert all[..|all|] == all;
    forall n | 0 <= n <= |front| ensures front[..n] == all[..n] {}
    if AlwaysSame(ws, all) {
      forall n | 0 <= n <= |front| ensures SameLabelRows(ws, front[..n]) {
        assert SameLabelRows(ws, all[..n]);
      }
      assert SameLabelRows(ws, all[..|all|]);
    }
    if AlwaysSame(ws, front) && SameLabelRows(ws, all) {
      forall n | 0 <= n <= |all| ensures SameLabelRows(ws, all[..n]) {
        if n <= |front| { assert SameLabelRows(ws, front[..n]); }
      }
    }
  }

  /**
   * The tables and the tracker hold the same memberships of a workspace at every moment exactly when every
   * event that the tracker accepts carries that workspace and a membership id fixes its issue and label.
   */
  lemma {:induction false} SameMembershipsIffFixed(ws: string, events: seq<LabelEvent>)
    ensures AlwaysSame(ws, events) <==> FixedIds(events) && OwnAccepted(ws, events)
  {
    if events == [] {
      assert forall n :: 0 <= n <= |events| ==> events[..n] == [];
    } else {
      var n := |events| - 1;
      var front, e := events[..n], events[n];
      assert events == front + [e];
      SameMembershipsIffFixed(ws, front);
      AlwaysSameSnoc(ws, front, e);
      FixedIdsSnoc(front, e);
      OwnAcceptedSnoc(ws, front, e);
      if AlwaysSame(ws, front) {
        assert SameLabelRows(ws, front[..n]) && front[..n] == front;
        LastEvent(ws, front, e);
      }
    }
  }

  // ---- Two inputs on which they differ -----------------------------------------------------------------

  /** One label event of another workspace: its id is fixed, and still the rows differ. */
  lemma {:induction false} ForeignLabel(ws: string, e: LabelEvent)
    requires e.workspaceId != ws
    ensures FixedIds([e]) && !AlwaysSame(ws, [e])
  {
    assert AcceptedAt([e], 0) && [e][0] == e;
    assert FirstOf([e], e.membershipId) == Some(e);
    SameMembershipsIffFixed(ws, [e]);
  }

  /** `membershipIdOf` */
  function MembershipIdOf(issueId: string, labelId: string): string { issueId + "." + labelId }

  /**
   * Identifiers may hold the dot that the id joins with, so two memberships of one workspace can share an
   * id. Attaching both makes the tables and the tracker differ.
   */
  lemma {:induction false} DottedIdsCollide(ws: string, first: LabelEvent, second: LabelEvent)
    requires first.issueId == "a.b" && first.labelId == "c" && second.issueId == "a" && second.labelId == "b.c"
    requires first.membershipId == MembershipIdOf("a.b", "c") && second.membershipId == MembershipIdOf("a", "b.c")
    requires first.workspaceId == second.workspaceId == ws && first.sequence < second.sequence
    ensures first.membershipId == second.membershipId
    ensures OwnAccepted(ws, [first, second]) && !FixedIds([first, second]) && !AlwaysSame(ws, [first, second])
  {
    assert MembershipIdOf("a.b", "c") == "a.b.c" == MembershipIdOf("a", "b.c");
    var events := [first, second];
    assert events[0] == first && events[1] == second;
    assert AcceptedAt(events, 1);
    assert FirstOf(events, second.membershipId) == Some(first);
    assert |first.issueId| != |second.issueId|;
    SameMembershipsIffFixed(ws, events);
  }
}
