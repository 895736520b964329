/** Issues, label memberships and catalog rows of one workspace (examples/bugsy/domain). */
module BugsyDomain {
  import opened Common
  import opened JsMap

  datatype Status = Backlog | Todo | InProgress | Done

  datatype IssueRow = IssueRow(
    issueId: string, workspaceId: string, projectId: string, title: string, status: Status,
    sequence: nat, updatedAt: string, assigneeId: Option<string>)

  datatype IssueEvent =
    | IssueCreated(eventId: string, workspaceId: string, issueId: string, sequence: nat, occurredAt: string,
                   title: string, projectId: string, status: Status)
    | IssueStatusChanged(eventId: string, workspaceId: string, issueId: string, sequence: nat,
                         occurredAt: string, status: Status)
    | IssueAssigned(eventId: string, workspaceId: string, issueId: string, sequence: nat, occurredAt: string,
                    status: Status, assigneeId: string)

  /** `LabelAttached` and `LabelDetached`, told apart by `attached`. */
  datatype LabelEvent = LabelEvent(
    attached: bool, eventId: string, workspaceId: string, issueId: string, labelId: string,
    membershipId: string, sequence: nat, occurredAt: string)

  datatype Membership = Membership(
    membershipId: string, issueId: string, labelId: string, workspaceId: string, attached: bool,
    sequence: nat, updatedAt: string)

  datatype ProjectRow = ProjectRow(
    projectId: string, workspaceId: string, key: string, name: string, description: Option<string>,
    updatedAt: string)
  datatype UserRow = UserRow(
    userId: string, workspaceId: string, name: string, avatarUrl: Option<string>, updatedAt: string)
  datatype LabelRow = LabelRow(
    labelId: string, workspaceId: string, name: string, color: string, updatedAt: string)

  /** One message of a State stream: a control, an upsert or a delete. */
  datatype StateEvent<V> = Reset | Snapshot | Upsert(key: string, value: V) | Delete(key: string)

  /** `foldIssue`: an older or equal sequence never replaces a row; only a create makes one. */
  function FoldIssue(previous: Option<IssueRow>, event: IssueEvent): (r: Option<IssueRow>)
    ensures previous.Some? ==> r.Some? && r.value.sequence >= previous.value.sequence
    ensures r != previous ==> r.Some? && r.value.sequence == event.sequence
    ensures previous.Some? && previous.value.issueId == event.issueId ==> r.value.issueId == event.issueId
    ensures previous.None? && r.Some? ==> event.IssueCreated? && r.value.issueId == event.issueId
  {
    if previous.Some? && event.sequence <= previous.value.sequence then previous
    else if event.IssueCreated? then
      Some(IssueRow(event.issueId, event.workspaceId, event.projectId, event.title, event.status,
                    event.sequence, event.occurredAt, None))
    else if previous.None? then None
    else if event.IssueAssigned? then
      Some(previous.value.(assigneeId := Some(event.assigneeId), status := event.status,
                           sequence := event.sequence, updatedAt := event.occurredAt))
    else
      Some(previous.value.(status := event.status, sequence := event.sequence, updatedAt := event.occurredAt))
  }

  /** Whether the batch tracker keeps the event: it made a row or a newer row. */
  predicate Accepts(previous: Option<IssueRow>, event: IssueEvent) {
    FoldIssue(previous, event).Some? && FoldIssue(previous, event) != previous
  }

  function ApplyIssueEvent(rows: Pairs<string, IssueRow>, event: IssueEvent): Pairs<string, IssueRow> {
    var before := Get(rows, event.issueId);
    if Accepts(before, event) then Put(rows, event.issueId, FoldIssue(before, event).value) else rows
  }

  function FoldIssues(rows: Pairs<string, IssueRow>, events: seq<IssueEvent>): Pairs<string, IssueRow> {
    Fold(rows, ApplyIssueEvent, events)
  }

  /** What one event adds to the transition feed. */
  function FeedOf(rows: Pairs<string, IssueRow>, event: IssueEvent): seq<IssueEvent> {
    if Accepts(Get(rows, event.issueId), event) then [event] else []
  }

  /** The accepted events, in order: the transition feed. */
  function Accepted(rows: Pairs<string, IssueRow>, events: seq<IssueEvent>): seq<IssueEvent> {
    if events == [] then []
    else
      var front, last := events[..|events| - 1], events[|events| - 1];
      Accepted(rows, front) + FeedOf(FoldIssues(rows, front), last)
  }

  function MembershipOf(event: LabelEvent): Membership {
    Membership(event.membershipId, event.issueId, event.labelId, event.workspaceId, event.attached,
               event.sequence, event.occurredAt)
  }

  function ApplyLabelEvent(rows: Pairs<string, Membership>, event: LabelEvent): Pairs<string, Membership> {
    var before := Get(rows, event.membershipId);
    if before.Some? && before.value.sequence >= event.sequence then rows
    else Put(rows, event.membershipId, MembershipOf(event))
  }

  function FoldLabels(rows: Pairs<string, Membership>, events: seq<LabelEvent>): Pairs<string, Membership> {
    Fold(rows, ApplyLabelEvent, events)
  }

  function ApplyCatalogEvent<V>(rows: Pairs<string, V>, event: StateEvent<V>): Pairs<string, V> {
    match event
    case Reset => []
    case Snapshot => rows
    case Upsert(key, value) => Put(rows, key, value)
    case Delete(key) => Drop(rows, key)
  }

  function FoldCatalog<V>(rows: Pairs<string, V>, events: seq<StateEvent<V>>): Pairs<string, V> {
    Fold(rows, ApplyCatalogEvent<V>, events)
  }

  /** Cutting the event stream anywhere gives the same rows and the same feed. */
  lemma {:induction false} AcceptedConcat(rows: Pairs<string, IssueRow>, a: seq<IssueEvent>, b: seq<IssueEvent>)
    ensures FoldIssues(rows, a + b) == FoldIssues(FoldIssues(rows, a), b)
    ensures Accepted(rows, a + b) == Accepted(rows, a) + Accepted(FoldIssues(rows, a), b)
  {
    FoldConcat(rows, ApplyIssueEvent, a, b);
    FeedConcat(rows, a, b);
  }

  /** The feed's half of it. */
  lemma {:induction false} FeedConcat(rows: Pairs<string, IssueRow>, a: seq<IssueEvent>, b: seq<IssueEvent>)
    ensures Accepted(rows, a + b) == Accepted(rows, a) + Accepted(FoldIssues(rows, a), b)
  {
    if b == [] {
      assert a + b == a;
    } else {
      var front, last := b[..|b| - 1], b[|b| - 1];
      assert b == front + [last];
      assert a + b == a + (front + [last]);
      assert Accepted(rows, a + (front + [last])) == Accepted(rows, a) + Accepted(FoldIssues(rows, a), front + [last]) by {
        FeedConcat(rows, a, front);
        FeedConcatStep(rows, a, front, last);
      }
    }
  }

  lemma {:induction false} FeedConcatStep(
      rows: Pairs<string, IssueRow>, a: seq<IssueEvent>, front: seq<IssueEvent>, last: IssueEvent)
    requires Accepted(rows, a + front) == Accepted(rows, a) + Accepted(FoldIssues(rows, a), front)
    ensures Accepted(rows, a + (front + [last])) == Accepted(rows, a) + Accepted(FoldIssues(rows, a), front + [last])
  {
    var middle := FoldIssues(rows, a);
    var added := FeedOf(FoldIssues(middle, front), last);
    assert Accepted(rows, a + (front + [last])) == Accepted(rows, a + front) + added by {
      Associates(a, front, [last]);
      AcceptedSnoc(rows, a + front, last);
      FoldConcat(rows, ApplyIssueEvent, a, front);
    }
    assert Accepted(middle, front + [last]) == Accepted(middle, front) + added by { AcceptedSnoc(middle, front, last); }
    Associates(Accepted(rows, a), Accepted(middle, front), added);
  }

  lemma {:induction false} Associates<T>(a: seq<T>, b: seq<T>, c: seq<T>)
    ensures (a + b) + c == a + (b + c)
  {
  }

  lemma {:induction false} AcceptedSnoc(rows: Pairs<string, IssueRow>, events: seq<IssueEvent>, last: IssueEvent)
    ensures Accepted(rows, events + [last]) == Accepted(rows, events) + FeedOf(FoldIssues(rows, events), last)
  {
    assert (events + [last])[..|events|] == events;
  }

  /** Every row sits under its own id, and no id occurs twice. */
  ghost predicate Keyed<V>(m: Pairs<string, V>, id: V -> string) {
    Unique(m) && forall i :: 0 <= i < |m| ==> id(m[i].1) == m[i].0
  }

  lemma {:induction false} KeyedPut<V>(m: Pairs<string, V>, k: string, v: V, id: V -> string)
    requires Keyed(m, id) && id(v) == k
    ensures Keyed(Put(m, k, v), id)
  {
    PutKeepsUnique(m, k, v);
  }

  lemma {:induction false} KeyedGet<V>(m: Pairs<string, V>, k: string, id: V -> string)
    requires Keyed(m, id)
    ensures Get(m, k).Some? ==> id(Get(m, k).value) == k
  {
    GetIsLookup(m, k);
    if Has(m, k) {
      var i :| 0 <= i < |m| && m[i].0 == k;
      GetAt(m, i);
    }
  }

  lemma {:induction false} KeyedDrop<V>(m: Pairs<string, V>, k: string, id: V -> string)
    requires Keyed(m, id)
    ensures Keyed(Drop(m, k), id)
  {
    DropKeepsUnique(m, k);
    var d := Drop(m, k);
    forall i | 0 <= i < |d| ensures id(d[i].1) == d[i].0 {
      assert d[i] in m;
    }
  }

  function IssueId(row: IssueRow): string { row.issueId }
  function MembershipId(row: Membership): string { row.membershipId }
  function ProjectId(row: ProjectRow): string { row.projectId }
  function UserId(row: UserRow): string { row.userId }
  function LabelId(row: LabelRow): string { row.labelId }

  lemma {:induction false} FoldIssuesKeyed(rows: Pairs<string, IssueRow>, events: seq<IssueEvent>)
    requires Keyed(rows, IssueId)
    ensures Keyed(FoldIssues(rows, events), IssueId)
  {
    if events != [] {
      var front, last := events[..|events| - 1], events[|events| - 1];
      FoldIssuesKeyed(rows, front);
      var m := FoldIssues(rows, front);
      KeyedGet(m, last.issueId, IssueId);
      if Accepts(Get(m, last.issueId), last) {
        KeyedPut(m, last.issueId, FoldIssue(Get(m, last.issueId), last).value, IssueId);
      }
    }
  }

  lemma {:induction false} FoldLabelsKeyed(rows: Pairs<string, Membership>, events: seq<LabelEvent>)
    requires Keyed(rows, MembershipId)
    ensures Keyed(FoldLabels(rows, events), MembershipId)
  {
    if events != [] {
      var front, last := events[..|events| - 1], events[|events| - 1];
      FoldLabelsKeyed(rows, front);
      KeyedPut(FoldLabels(rows, front), last.membershipId, MembershipOf(last), MembershipId);
    }
  }

  /** The catalog contract: a change is keyed by the id of its row. */
  ghost predicate KeyedChanges<V>(events: seq<StateEvent<V>>, id: V -> string) {
    forall i :: 0 <= i < |events| && events[i].Upsert? ==> id(events[i].value) == events[i].key
  }

  lemma {:induction false} FoldCatalogKeyed<V>(rows: Pairs<string, V>, events: seq<StateEvent<V>>, id: V -> string)
    requires Keyed(rows, id) && KeyedChanges(events, id)
    ensures Keyed(FoldCatalog(rows, events), id)
  {
    if events != [] {
      var front, last := events[..|events| - 1], events[|events| - 1];
      FoldCatalogKeyed(rows, front, id);
      var m := FoldCatalog(rows, front);
      match last
      case Reset =>
      case Snapshot =>
      case Upsert(key, value) => KeyedPut(m, key, value, id);
      case Delete(key) => KeyedDrop(m, key, id);
    }
  }
}
