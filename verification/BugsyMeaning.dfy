/** What issue rows, memberships and catalog rows say about the streams they were folded from. */
module BugsyMeaning {
  import opened Common
  import opened JsMap
  import opened BugsyDomain
  import opened BugsyTracker

  // ---- Issues --------------------------------------------------------------------------------------

  /** The issue of the event has been created, by this event or before. */
  ghost predicate Started(events: seq<IssueEvent>, i: nat)
    requires i < |events|
  {
    exists c :: 0 <= c <= i && events[c].IssueCreated? && events[c].issueId == events[i].issueId
  }

  /** The event counts: it is newer than every event of its issue since the first create. */
  ghost predicate Taken(events: seq<IssueEvent>, i: nat)
    requires i < |events|
  {
    && Started(events, i)
    && forall j: nat {:trigger Started(events, j)} ::
         j < i && events[j].issueId == events[i].issueId && Started(events, j) ==>
         events[j].sequence < events[i].sequence
  }

  /** Event `i`, among the first `n`, counts for issue `k`. */
  ghost predicate TakenOf(events: seq<IssueEvent>, n: nat, k: string, i: int)
    requires n <= |events|
  {
    0 <= i < n && events[i].issueId == k && Taken(events, i)
  }

  ghost predicate LastTaken(events: seq<IssueEvent>, n: nat, k: string, i: int)
    requires n <= |events|
  {
    TakenOf(events, n, k, i) && forall j {:trigger TakenOf(events, n, k, j)} :: i < j < n ==> !TakenOf(events, n, k, j)
  }

  ghost predicate LastCreate(events: seq<IssueEvent>, n: nat, k: string, c: int)
    requires n <= |events|
  {
    TakenOf(events, n, k, c) && events[c].IssueCreated?
    && forall j {:trigger TakenOf(events, n, k, j)} :: c < j < n && TakenOf(events, n, k, j) ==> !events[j].IssueCreated?
  }

  /** The last assignment that counts after `c`. */
  ghost predicate LastAssignment(events: seq<IssueEvent>, n: nat, k: string, c: int, a: int)
    requires n <= |events|
  {
    c < a && TakenOf(events, n, k, a) && events[a].IssueAssigned?
    && forall j {:trigger TakenOf(events, n, k, j)} :: a < j < n && TakenOf(events, n, k, j) ==> !events[j].IssueAssigned?
  }

  ghost predicate Assignee(events: seq<IssueEvent>, n: nat, k: string, c: int, who: Option<string>)
    requires n <= |events|
  {
    match who
    case None =>
      forall a {:trigger TakenOf(events, n, k, a)} :: c < a < n && TakenOf(events, n, k, a) ==> !events[a].IssueAssigned?
    case Some(user) => exists a :: LastAssignment(events, n, k, c, a) && events[a].assigneeId == user
  }

  /**
   * The row that the first `n` events mean: status and time of the last event that counts, title, project
   * and workspace of the last create that counts, and the last assignee since that create.
   */
  ghost predicate MeansRow(events: seq<IssueEvent>, n: nat, k: string, row: IssueRow)
    requires n <= |events|
  {
    exists last, made ::
      LastTaken(events, n, k, last) && LastCreate(events, n, k, made) && RowFrom(events, n, k, row, last, made)
  }

  ghost predicate RowFrom(events: seq<IssueEvent>, n: nat, k: string, row: IssueRow, last: int, made: int)
    requires n <= |events| && TakenOf(events, n, k, last) && TakenOf(events, n, k, made) && events[made].IssueCreated?
  {
    && row.issueId == k && row.status == events[last].status
    && row.updatedAt == events[last].occurredAt && row.sequence == events[last].sequence
    && row.title == events[made].title && row.projectId == events[made].projectId
    && row.workspaceId == events[made].workspaceId
    && Assignee(events, n, k, made, row.assigneeId)
  }

  ghost predicate NeverCreated(events: seq<IssueEvent>, n: nat, k: string)
    requires n <= |events|
  {
    forall i :: 0 <= i < n && events[i].issueId == k ==> !events[i].IssueCreated?
  }

  /** No event of the issue since its first create is newer than the row. */
  ghost predicate Newest(events: seq<IssueEvent>, n: nat, k: string, sequence: nat)
    requires n <= |events|
  {
    forall j: nat {:trigger Started(events, j)} ::
      j < n && events[j].issueId == k && Started(events, j) ==> events[j].sequence <= sequence
  }

  ghost predicate RowMeans(events: seq<IssueEvent>, n: nat, k: string, row: Option<IssueRow>)
    requires n <= |events|
  {
    match row
    case None => NeverCreated(events, n, k)
    case Some(r) => MeansRow(events, n, k, r) && !NeverCreated(events, n, k) && Newest(events, n, k, r.sequence)
  }

  /** Whether an event counts, told from the row before it. */
  lemma {:induction false} TakenWhenAccepted(events: seq<IssueEvent>, n: nat, row: Option<IssueRow>)
    requires n < |events| && RowMeans(events, n, events[n].issueId, row)
    ensures Taken(events, n)
       <==> (if row.Some? then events[n].sequence > row.value.sequence else events[n].IssueCreated?)
    ensures row.None? ==> (Started(events, n) <==> events[n].IssueCreated?)
    ensures row.Some? ==> Started(events, n)
  {
    var k := events[n].issueId;
    if row.Some? {
      var c :| 0 <= c < n && events[c].issueId == k && events[c].IssueCreated?;
      assert Started(events, n);
      var last, made :| LastTaken(events, n, k, last) && LastCreate(events, n, k, made)
                        && RowFrom(events, n, k, row.value, last, made);
      assert Started(events, last) && events[last].sequence == row.value.sequence;
      forall j: nat | j < n && events[j].issueId == k && Started(events, j)
        ensures events[j].sequence <= row.value.sequence {}
    } else {
      forall j: nat | j < n && events[j].issueId == k ensures !Started(events, j) {}
    }
  }

  /** An event of another issue, or one that does not count, changes nothing. */
  lemma {:induction false} NotTaken(events: seq<IssueEvent>, n: nat, k: string, row: Option<IssueRow>)
    requires n < |events| && RowMeans(events, n, k, row) && !TakenOf(events, n + 1, k, n)
    requires events[n].issueId == k ==> (row.Some? ==> events[n].sequence <= row.value.sequence) && (row.None? ==> !events[n].IssueCreated?)
    ensures RowMeans(events, n + 1, k, row)
  {
    if row.Some? {
      var last, made :| LastTaken(events, n, k, last) && LastCreate(events, n, k, made)
                        && RowFrom(events, n, k, row.value, last, made);
      LastStays(events, n, k, last);
      CreateStays(events, n, k, made);
      SameAssignee(events, n, k, made, row.value.assigneeId);
      assert RowFrom(events, n + 1, k, row.value, last, made);
      NewestStays(events, n, k, row.value.sequence);
    }
  }

  lemma {:induction false} LastStays(events: seq<IssueEvent>, n: nat, k: string, last: int)
    requires n < |events| && LastTaken(events, n, k, last) && !TakenOf(events, n + 1, k, n)
    ensures LastTaken(events, n + 1, k, last)
  {
    var next := n + 1;
    forall j | last < j < next ensures !TakenOf(events, next, k, j) {
      if j < n { assert !TakenOf(events, n, k, j); }
    }
  }

  lemma {:induction false} CreateStays(events: seq<IssueEvent>, n: nat, k: string, made: int)
    requires n < |events| && LastCreate(events, n, k, made) && (TakenOf(events, n + 1, k, n) ==> !events[n].IssueCreated?)
    ensures LastCreate(events, n + 1, k, made)
  {
    forall j | made < j < n + 1 && TakenOf(events, n + 1, k, j) ensures !events[j].IssueCreated? {
      assert j < n ==> TakenOf(events, n, k, j);
    }
  }

  lemma {:induction false} NewestStays(events: seq<IssueEvent>, n: nat, k: string, sequence: nat)
    requires n < |events| && Newest(events, n, k, sequence)
    requires events[n].issueId == k ==> events[n].sequence <= sequence
    ensures Newest(events, n + 1, k, sequence)
  {
  }

  lemma {:induction false} SameAssignee(events: seq<IssueEvent>, n: nat, k: string, c: int, who: Option<string>)
    requires n < |events| && Assignee(events, n, k, c, who)
    requires TakenOf(events, n + 1, k, n) ==> !events[n].IssueAssigned?
    ensures Assignee(events, n + 1, k, c, who)
  {
    var next := n + 1;
    if who.Some? {
      var a :| LastAssignment(events, n, k, c, a) && events[a].assigneeId == who.value;
      forall j | a < j < next && TakenOf(events, next, k, j) ensures !events[j].IssueAssigned? {
        assert j < n ==> TakenOf(events, n, k, j);
      }
      assert LastAssignment(events, next, k, c, a);
    } else {
      forall a | c < a < next && TakenOf(events, next, k, a) ensures !events[a].IssueAssigned? {
        assert a < n ==> TakenOf(events, n, k, a);
      }
    }
  }

  /** An event that counts is the last one, and the fold takes from it what the row should say. */
  lemma {:induction false} TakenNext(events: seq<IssueEvent>, n: nat, k: string, row: Option<IssueRow>)
    requires n < |events| && RowMeans(events, n, k, row) && TakenOf(events, n + 1, k, n)
    requires if row.Some? then events[n].sequence > row.value.sequence else events[n].IssueCreated?
    ensures RowMeans(events, n + 1, k, FoldIssue(row, events[n]))
  {
    var e := events[n];
    var next := FoldIssue(row, e).value;
    assert LastTaken(events, n + 1, k, n);
    assert Newest(events, n + 1, k, next.sequence) by { NewestTaken(events, n); }
    assert MeansRow(events, n + 1, k, next) by {
      if e.IssueCreated? {
        assert LastCreate(events, n + 1, k, n);
        assert RowFrom(events, n + 1, k, next, n, n);
      } else {
        var last, made :| LastTaken(events, n, k, last) && LastCreate(events, n, k, made)
                          && RowFrom(events, n, k, row.value, last, made);
        CreateStays(events, n, k, made);
        if e.IssueAssigned? {
          assert LastAssignment(events, n + 1, k, made, n);
        } else {
          SameAssignee(events, n, k, made, row.value.assigneeId);
        }
        assert RowFrom(events, n + 1, k, next, n, made);
      }
    }
  }

  lemma {:induction false} NewestTaken(events: seq<IssueEvent>, n: nat)
    requires n < |events| && Taken(events, n)
    ensures Newest(events, n + 1, events[n].issueId, events[n].sequence)
  {
  }

  /** Every issue row is what the events mean, and there is one exactly when the issue was created. */
  lemma {:induction false} IssueRowMeans(events: seq<IssueEvent>, n: nat, k: string)
    requires n <= |events|
    ensures RowMeans(events, n, k, Get(FoldIssues([], events[..n]), k))
  {
    if n > 0 {
      IssueRowMeans(events, n - 1, k);
      IssueStepAt(events, n - 1, k);
      IssueStepMeans(events, n - 1, k, Get(FoldIssues([], events[..n - 1]), k));
    }
  }

  lemma {:induction false} IssueStepMeans(events: seq<IssueEvent>, n: nat, k: string, row: Option<IssueRow>)
    requires n < |events| && RowMeans(events, n, k, row)
    ensures RowMeans(events, n + 1, k, if events[n].issueId == k then FoldIssue(row, events[n]) else row)
  {
    if events[n].issueId == k { TakenWhenAccepted(events, n, row); }
    if TakenOf(events, n + 1, k, n) { TakenNext(events, n, k, row); } else { NotTaken(events, n, k, row); }
  }

  lemma {:induction false} IssueStepAt(events: seq<IssueEvent>, n: nat, k: string)
    requires n < |events|
    ensures Get(FoldIssues([], events[..n + 1]), k)
         == if events[n].issueId == k then FoldIssue(Get(FoldIssues([], events[..n]), k), events[n])
            else Get(FoldIssues([], events[..n]), k)
  {
    var m, e := FoldIssues([], events[..n]), events[n];
    assert events[..n + 1] == events[..n] + [e];
    FoldSnoc([], ApplyIssueEvent, events[..n], e);
    if Accepts(Get(m, e.issueId), e) { GetPut(m, e.issueId, FoldIssue(Get(m, e.issueId), e).value, k); }
  }

  /** The events that count among the first `n`, in order. */
  ghost function TakenEvents(events: seq<IssueEvent>, n: nat): seq<IssueEvent>
    requires n <= |events|
  {
    if n == 0 then [] else TakenEvents(events, n - 1) + (if Taken(events, n - 1) then [events[n - 1]] else [])
  }

  /** The transition feed carries exactly the events that count. */
  lemma {:induction false} FeedIsTaken(events: seq<IssueEvent>, n: nat)
    requires n <= |events|
    ensures Accepted([], events[..n]) == TakenEvents(events, n)
  {
    if n > 0 {
      FeedIsTaken(events, n - 1);
      FeedStep(events, n - 1);
    }
  }

  lemma {:induction false} FeedStep(events: seq<IssueEvent>, n: nat)
    requires n < |events|
    ensures Accepted([], events[..n + 1]) == Accepted([], events[..n]) + (if Taken(events, n) then [events[n]] else [])
  {
    assert events[..n + 1] == events[..n] + [events[n]];
    AcceptedSnoc([], events[..n], events[n]);
    FeedOfTaken(events, n);
  }

  lemma {:induction false} FeedOfTaken(events: seq<IssueEvent>, n: nat)
    requires n < |events|
    ensures FeedOf(FoldIssues([], events[..n]), events[n]) == if Taken(events, n) then [events[n]] else []
  {
    var row := Get(FoldIssues([], events[..n]), events[n].issueId);
    assert Taken(events, n) <==> (if row.Some? then events[n].sequence > row.value.sequence else events[n].IssueCreated?) by {
      IssueRowMeans(events, n, events[n].issueId);
      TakenWhenAccepted(events, n, row);
    }
  }

  // ---- Memberships -----------------------------------------------------------------------------------

  /** Among the first `n` events this one has the highest sequence of its membership, and had it first. */
  ghost predicate Top(events: seq<LabelEvent>, n: nat, i: int)
    requires n <= |events|
  {
    && 0 <= i < n
    && forall j :: 0 <= j < n && j != i && events[j].membershipId == events[i].membershipId ==>
         events[j].sequence < events[i].sequence || (events[j].sequence == events[i].sequence && i < j)
  }

  /** The row repeats the event. */
  predicate SaysEvent(row: Membership, e: LabelEvent) {
    && row.membershipId == e.membershipId && row.issueId == e.issueId && row.labelId == e.labelId
    && row.workspaceId == e.workspaceId && row.attached == e.attached && row.sequence == e.sequence
    && row.updatedAt == e.occurredAt
  }

  ghost predicate MembershipMeans(events: seq<LabelEvent>, n: nat, id: string, row: Option<Membership>)
    requires n <= |events|
  {
    match row
    case None => forall i :: 0 <= i < n ==> events[i].membershipId != id
    case Some(r) => exists i :: Top(events, n, i) && events[i].membershipId == id && SaysEvent(r, events[i])
  }

  /** A membership row repeats the event with the highest sequence of its id. */
  lemma {:induction false} MembershipRowMeans(events: seq<LabelEvent>, n: nat, id: string)
    requires n <= |events|
    ensures MembershipMeans(events, n, id, Get(FoldLabels([], events[..n]), id))
  {
    if n > 0 {
      MembershipRowMeans(events, n - 1, id);
      var m, e := FoldLabels([], events[..n - 1]), events[n - 1];
      assert events[..n] == events[..n - 1] + [e];
      FoldSnoc([], ApplyLabelEvent, events[..n - 1], e);
      GetPut(m, e.membershipId, MembershipOf(e), id);
      MembershipStep(events, n - 1, id, Get(m, id), Get(ApplyLabelEvent(m, e), id));
    }
  }

  lemma {:induction false} MembershipStep(
      events: seq<LabelEvent>, n: nat, id: string, row: Option<Membership>, next: Option<Membership>)
    requires n < |events| && MembershipMeans(events, n, id, row)
    requires events[n].membershipId != id || (row.Some? && row.value.sequence >= events[n].sequence) ==> next == row
    requires events[n].membershipId == id && (row.None? || row.value.sequence < events[n].sequence) ==>
      next.Some? && SaysEvent(next.value, events[n])
    ensures MembershipMeans(events, n + 1, id, next)
  {
    if row.Some? {
      var i :| Top(events, n, i) && events[i].membershipId == id && SaysEvent(row.value, events[i]);
      if next == row { assert Top(events, n + 1, i); } else { assert Top(events, n + 1, n); }
    } else if events[n].membershipId == id {
      assert Top(events, n + 1, n);
    }
  }

  lemma {:induction false} TopIsOne(events: seq<LabelEvent>, n: nat, i: int, j: int)
    requires n <= |events| && Top(events, n, i) && Top(events, n, j) && events[i].membershipId == events[j].membershipId
    ensures i == j
  {
  }

  // ---- Catalog rows -------------------------------------------------------------------------------------

  /** The change says something about the row of this key. */
  predicate Concerns<V>(e: StateEvent<V>, k: string) { e.Reset? || (e.Upsert? && e.key == k) || (e.Delete? && e.key == k) }

  /** Change `i` is an upsert of the key, and none of the first `n` changes after it concerns the key. */
  ghost predicate LastWord<V>(changes: seq<StateEvent<V>>, n: nat, k: string, i: int)
    requires n <= |changes|
  {
    0 <= i < n && changes[i].Upsert? && changes[i].key == k && forall j :: i < j < n ==> !Concerns(changes[j], k)
  }

  ghost predicate CatalogMeans<V>(changes: seq<StateEvent<V>>, n: nat, k: string, row: Option<V>)
    requires n <= |changes|
  {
    match row
    case None => forall i :: !LastWord(changes, n, k, i)
    case Some(v) => exists i :: LastWord(changes, n, k, i) && changes[i].value == v
  }

  /** A catalog row is the last value of its key since the last reset, unless that key was deleted. */
  lemma {:induction false} CatalogRowMeans<V(!new)>(changes: seq<StateEvent<V>>, n: nat, k: string)
    requires n <= |changes|
    ensures CatalogMeans(changes, n, k, Get(FoldCatalog([], changes[..n]), k))
  {
    if n > 0 {
      CatalogRowMeans(changes, n - 1, k);
      var m, e := FoldCatalog([], changes[..n - 1]), changes[n - 1];
      assert changes[..n] == changes[..n - 1] + [e];
      FoldSnoc([], ApplyCatalogEvent<V>, changes[..n - 1], e);
      if e.Upsert? { GetPut(m, e.key, e.value, k); }
      if e.Delete? { GetDrop(m, e.key, k); }
      CatalogStep(changes, n - 1, k, Get(m, k), Get(ApplyCatalogEvent(m, e), k));
    }
  }

  lemma {:induction false} CatalogStep<V(!new)>(changes: seq<StateEvent<V>>, n: nat, k: string, row: Option<V>, next: Option<V>)
    requires n < |changes| && CatalogMeans(changes, n, k, row)
    requires !Concerns(changes[n], k) ==> next == row
    requires Concerns(changes[n], k) ==> next == if changes[n].Upsert? then Some(changes[n].value) else None
    ensures CatalogMeans(changes, n + 1, k, next)
  {
    if Concerns(changes[n], k) {
      if changes[n].Upsert? { assert LastWord(changes, n + 1, k, n); }
    } else if row.Some? {
      var i :| LastWord(changes, n, k, i) && changes[i].value == row.value;
      assert LastWord(changes, n + 1, k, i);
    } else {
      var more := n + 1;
      forall i ensures !LastWord(changes, more, k, i) { assert !LastWord(changes, n, k, i); }
    }
  }

  /** A unit is refused exactly when some catalog value names another workspace. */
  lemma {:induction false} FaultIsForeign<V(!new)>(ws: string, collection: string, changes: seq<StateEvent<V>>, of: V -> string)
    ensures var fault := FirstForeign(ws, collection, changes, of);
      match fault
      case None => forall i :: 0 <= i < |changes| && changes[i].Upsert? ==> of(changes[i].value) == ws
      case Some(f) => exists i :: FirstForeignAt(ws, changes, of, i) && f == Mismatch(collection, changes[i].key, of(changes[i].value))
  {
    if changes != [] && !Foreign(ws, changes[0], of) {
      var rest := changes[1..];
      FaultIsForeign(ws, collection, rest, of);
      var fault := FirstForeign(ws, collection, rest, of);
      assert forall i :: 0 < i < |changes| ==> changes[i] == rest[i - 1];
      if fault.Some? {
        var i :| FirstForeignAt(ws, rest, of, i) && fault.value == Mismatch(collection, rest[i].key, of(rest[i].value));
        assert changes[i + 1] == rest[i];
        forall j | 0 <= j < i + 1 ensures !Foreign(ws, changes[j], of) { if j > 0 { assert changes[j] == rest[j - 1]; } }
        assert FirstForeignAt(ws, changes, of, i + 1);
      }
    } else if changes != [] {
      assert FirstForeignAt(ws, changes, of, 0);
    }
  }

  ghost predicate FirstForeignAt<V>(ws: string, changes: seq<StateEvent<V>>, of: V -> string, i: int) {
    0 <= i < |changes| && Foreign(ws, changes[i], of) && forall j :: 0 <= j < i ==> !Foreign(ws, changes[j], of)
  }

  /** A unit is accepted exactly when every catalog value in it names the workspace. */
  lemma {:induction false} AcceptedUnit(ws: string, b: Batch)
    ensures CatalogFault(ws, b).None?
       <==> (&& (forall i :: 0 <= i < |b.projects| && b.projects[i].Upsert? ==> b.projects[i].value.workspaceId == ws)
             && (forall i :: 0 <= i < |b.users| && b.users[i].Upsert? ==> b.users[i].value.workspaceId == ws)
             && (forall i :: 0 <= i < |b.labels| && b.labels[i].Upsert? ==> b.labels[i].value.workspaceId == ws))
  {
    FaultIsForeign(ws, "project", b.projects, ProjectWorkspace);
    FaultIsForeign(ws, "user", b.users, UserWorkspace);
    FaultIsForeign(ws, "label", b.labels, LabelWorkspace);
  }

  predicate Foreign<V>(ws: string, e: StateEvent<V>, of: V -> string) { e.Upsert? && of(e.value) != ws }
}
