/** The incremental tracker of one workspace (examples/bugsy/server/outputs.ts). */
module BugsyTracker {
  import opened Common
  import opened JsMap
  import opened BugsyDomain
  import opened BugsyOutputs

  /** One unit: a slice of each of the five inputs. */
  datatype Batch = Batch(
    events: seq<IssueEvent>, labelEvents: seq<LabelEvent>, projects: seq<StateEvent<ProjectRow>>,
    users: seq<StateEvent<UserRow>>, labels: seq<StateEvent<LabelRow>>)

  datatype Outputs = Outputs(
    board: seq<Change<Card>>, labelCounts: seq<Change<LabelCountRow>>, transitions: seq<IssueEvent>)

  /** A catalog value that names another workspace. */
  datatype Mismatch = Mismatch(collection: string, key: string, found: string)

  ghost predicate UniqueIds<V>(rows: seq<V>, id: V -> string) {
    forall i, j :: 0 <= i < j < |rows| ==> id(rows[i]) != id(rows[j])
  }

  /** Ids are unique in each row list. */
  ghost predicate ValidState(s: WorkspaceState) {
    && UniqueIds(s.issues, IssueId) && UniqueIds(s.memberships, MembershipId)
    && UniqueIds(s.projects, ProjectId) && UniqueIds(s.users, UserId) && UniqueIds(s.labels, LabelId)
  }

  /** Every catalog change is keyed by the id of its row. */
  ghost predicate KeyedBatch(b: Batch) {
    && KeyedChanges(b.projects, ProjectId) && KeyedChanges(b.users, UserId) && KeyedChanges(b.labels, LabelId)
  }

  function ProjectWorkspace(row: ProjectRow): string { row.workspaceId }
  function UserWorkspace(row: UserRow): string { row.workspaceId }
  function LabelWorkspace(row: LabelRow): string { row.workspaceId }

  /** The first catalog value that names another workspace. */
  function FirstForeign<V>(ws: string, collection: string, changes: seq<StateEvent<V>>, of: V -> string): Option<Mismatch> {
    if changes == [] then None
    else if changes[0].Upsert? && of(changes[0].value) != ws
      then Some(Mismatch(collection, changes[0].key, of(changes[0].value)))
    else FirstForeign(ws, collection, changes[1..], of)
  }

  function CatalogFault(ws: string, b: Batch): Option<Mismatch> {
    var p := FirstForeign(ws, "project", b.projects, ProjectWorkspace);
    var u := FirstForeign(ws, "user", b.users, UserWorkspace);
    if p.Some? then p else if u.Some? then u else FirstForeign(ws, "label", b.labels, LabelWorkspace)
  }

  function CountDone(rows: seq<IssueRow>): nat {
    if rows == [] then 0 else (if rows[0].status == Done then 1 else 0) + CountDone(rows[1..])
  }

  /** The state after a unit: each input folded into its own rows. */
  function UnitState(s: WorkspaceState, b: Batch): WorkspaceState {
    var issues := Values(FoldIssues(MapOf(s.issues, IssueId), b.events));
    WorkspaceState(
      s.workspaceId, |issues|, CountDone(issues), issues,
      Values(FoldLabels(MapOf(s.memberships, MembershipId), b.labelEvents)),
      Values(FoldCatalog(MapOf(s.projects, ProjectId), b.projects)),
      Values(FoldCatalog(MapOf(s.users, UserId), b.users)),
      Values(FoldCatalog(MapOf(s.labels, LabelId), b.labels)))
  }

  /** The outputs of a unit by rebuilding every row before and after and comparing them all. */
  function UnitOutputs(s: WorkspaceState, b: Batch): Outputs {
    var after := UnitState(s, b);
    Outputs(
      BoardDiff(IndexOf(s), IndexOf(after), after.issues),
      LabelDiff(IndexOf(s), IndexOf(after), after.labels)
      + Removals(s.labels, FoldCatalog(MapOf(s.labels, LabelId), b.labels)),
      Accepted(MapOf(s.issues, IssueId), b.events))
  }

  // ---- Row lists and their maps ----------------------------------------------------------

  lemma {:induction false} MapOfUnique<V>(rows: seq<V>, id: V -> string)
    requires UniqueIds(rows, id)
    ensures Keyed(MapOf(rows, id), id) && Values(MapOf(rows, id)) == rows
  {
    if rows != [] {
      var n := |rows| - 1;
      MapOfUnique(rows[..n], id);
      var m := MapOf(rows[..n], id);
      forall i | 0 <= i < |m| ensures m[i].0 != id(rows[n]) {
        assert m[i].1 == Values(m)[i] == rows[i];
      }
      PutNew(m, id(rows[n]), rows[n]);
      var all := m + [(id(rows[n]), rows[n])];
      assert |Values(all)| == |rows|;
      forall i | 0 <= i < |rows| ensures Values(all)[i] == rows[i] {
        if i < n { assert Values(m)[i] == rows[i]; }
      }
    }
  }

  lemma {:induction false} ValuesUnique<V>(m: Pairs<string, V>, id: V -> string)
    requires Keyed(m, id)
    ensures UniqueIds(Values(m), id) && MapOf(Values(m), id) == m
  {
    MapOfValues(m, id);
    forall i, j | 0 <= i < j < |m| ensures id(Values(m)[i]) != id(Values(m)[j]) {
      assert m[i].0 != m[j].0;
    }
  }

  lemma {:induction false} GetPut<V>(m: Pairs<string, V>, k: string, v: V, x: string)
    ensures Get(Put(m, k, v), x) == if x == k then Some(v) else Get(m, x)
  {
    PutMeansUpdate(m, k, v);
    GetIsLookup(m, x);
    GetIsLookup(Put(m, k, v), x);
  }

  lemma {:induction false} GetDrop<V>(m: Pairs<string, V>, k: string, x: string)
    ensures Get(Drop(m, k), x) == if x == k then None else Get(m, x)
  {
    DropMeansRemove(m, k);
    GetIsLookup(m, x);
    GetIsLookup(Drop(m, k), x);
  }

  lemma {:induction false} BucketCons<A>(row: A, rows: seq<A>, key: A -> Option<string>, k: string)
    ensures Bucket([row] + rows, key, k) == (if key(row) == Some(k) then [row] else []) + Bucket(rows, key, k)
  {
    if rows == [] {
      assert ([row] + rows)[..0] == [];
    } else {
      var n := |rows| - 1;
      assert ([row] + rows)[..n + 1] == [row] + rows[..n];
      BucketCons(row, rows[..n], key, k);
    }
  }

  /** Writing a row leaves a group alone when neither the old nor the new row belongs to it. */
  lemma {:induction false} BucketUnmoved<A>(m: Pairs<string, A>, k: string, v: A, key: A -> Option<string>, x: string)
    requires Get(m, k).Some? ==> key(Get(m, k).value) != Some(x)
    requires key(v) != Some(x)
    ensures Bucket(Values(Put(m, k, v)), key, x) == Bucket(Values(m), key, x)
  {
    if m == [] {
      assert Values(Put(m, k, v)) == [v] + [];
      BucketCons(v, [], key, x);
    } else {
      BucketCons(m[0].1, Values(m[1..]), key, x);
      if m[0].0 == k {
        assert Put(m, k, v)[1..] == m[1..];
        BucketCons(v, Values(m[1..]), key, x);
      } else {
        assert Put(m, k, v)[1..] == Put(m[1..], k, v);
        BucketUnmoved(m[1..], k, v, key, x);
        BucketCons(m[0].1, Values(Put(m[1..], k, v)), key, x);
      }
    }
  }

  /** Every unit keeps ids unique. */
  lemma {:induction false} UnitKeepsValid(s: WorkspaceState, b: Batch)
    requires ValidState(s) && KeyedBatch(b)
    ensures ValidState(UnitState(s, b))
    ensures Keyed(FoldIssues(MapOf(s.issues, IssueId), b.events), IssueId)
    ensures Keyed(FoldLabels(MapOf(s.memberships, MembershipId), b.labelEvents), MembershipId)
    ensures Keyed(FoldCatalog(MapOf(s.projects, ProjectId), b.projects), ProjectId)
    ensures Keyed(FoldCatalog(MapOf(s.users, UserId), b.users), UserId)
    ensures Keyed(FoldCatalog(MapOf(s.labels, LabelId), b.labels), LabelId)
  {
    MapOfUnique(s.issues, IssueId);
    FoldIssuesKeyed(MapOf(s.issues, IssueId), b.events);
    ValuesUnique(FoldIssues(MapOf(s.issues, IssueId), b.events), IssueId);
    MapOfUnique(s.memberships, MembershipId);
    FoldLabelsKeyed(MapOf(s.memberships, MembershipId), b.labelEvents);
    ValuesUnique(FoldLabels(MapOf(s.memberships, MembershipId), b.labelEvents), MembershipId);
    CatalogKeepsUnique(s.projects, b.projects, ProjectId);
    CatalogKeepsUnique(s.users, b.users, UserId);
    CatalogKeepsUnique(s.labels, b.labels, LabelId);
  }

  lemma {:induction false} CatalogKeepsUnique<V>(rows: seq<V>, events: seq<StateEvent<V>>, id: V -> string)
    requires UniqueIds(rows, id) && KeyedChanges(events, id)
    ensures Keyed(FoldCatalog(MapOf(rows, id), events), id)
    ensures UniqueIds(Values(FoldCatalog(MapOf(rows, id), events)), id)
  {
    MapOfUnique(rows, id);
    FoldCatalogKeyed(MapOf(rows, id), events, id);
    ValuesUnique(FoldCatalog(MapOf(rows, id), events), id);
  }

  // ---- What a touched set must cover -----------------------------------------------------

  ghost predicate Same<V>(a: map<string, V>, b: map<string, V>, k: string) {
    (k in a <==> k in b) && (k in a ==> a[k] == b[k])
  }

  /** Rows outside the touched sets look the same through both indexes. */
  ghost predicate Covered(before: WorkspaceIndex, after: WorkspaceIndex, issues: set<string>, labels: set<string>,
                          projects: set<string>, users: set<string>)
  {
    && (forall k :: k !in issues ==> Same(before.issues, after.issues, k))
    && (forall k :: k !in issues ==>
          BucketAt(after.membershipsByIssue, k) == BucketAt(before.membershipsByIssue, k))
    && (forall k :: k !in labels ==> Same(before.labels, after.labels, k))
    && (forall k :: k !in labels ==>
          BucketAt(after.membershipsByLabel, k) == BucketAt(before.membershipsByLabel, k))
    && (forall k :: k !in projects ==> Same(before.projects, after.projects, k))
    && (forall k :: k !in users ==> Same(before.users, after.users, k))
  }

  /** Touched rows touch the rows that are built from them. */
  ghost predicate Spread<A>(keys: set<string>, groups: map<string, seq<A>>, id: A -> string, touched: set<string>) {
    forall k, row :: k in keys && row in BucketAt(groups, k) ==> id(row) in touched
  }

  lemma {:induction false} IndexedRow<V>(rows: seq<V>, id: V -> string, k: string)
    requires UniqueIds(rows, id) && k in AsMap(MapOf(rows, id))
    ensures AsMap(MapOf(rows, id))[k] in rows
  {
    MapOfUnique(rows, id);
    var m := MapOf(rows, id);
    GetIsLookup(m, k);
    var i :| 0 <= i < |m| && m[i].0 == k;
    GetAt(m, i);
    assert Values(m)[i] == m[i].1;
  }

  lemma {:induction false} UntouchedKey<A>(rows: seq<A>, key: A -> Option<string>, id: A -> string, keys: set<string>,
                        touched: set<string>, row: A, k: string)
    requires Spread(keys, GroupOf(rows, key), id, touched)
    requires row in rows && key(row) == Some(k) && id(row) !in touched
    ensures k !in keys
  {
    BucketMember(rows, key, k, row);
    BucketAtGroup(rows, key, k);
  }

  lemma {:induction false} UntouchedCard(s: WorkspaceState, before: WorkspaceIndex, after: WorkspaceIndex, issues: set<string>,
                      labels: set<string>, projects: set<string>, users: set<string>, issue: IssueRow)
    requires before == IndexOf(s) && UniqueIds(s.issues, IssueId)
    requires Covered(before, after, issues, labels, projects, users)
    requires Spread(projects, before.issuesByProject, IssueId, issues)
    requires Spread(users, before.issuesByUser, IssueId, issues)
    requires issue.issueId in after.issues && after.issues[issue.issueId] == issue
    requires issue.issueId !in issues
    ensures CardChange(before, after, issue) == []
  {
    assert Same(before.issues, after.issues, issue.issueId);
    IndexedRow(s.issues, IssueId, issue.issueId);
    UntouchedKey(s.issues, ByProject, IssueId, projects, issues, issue, issue.projectId);
    assert Same(before.projects, after.projects, issue.projectId);
    if issue.assigneeId.Some? {
      UntouchedKey(s.issues, ByAssignee, IssueId, users, issues, issue, issue.assigneeId.value);
      assert Same(before.users, after.users, issue.assigneeId.value);
    }
  }

  lemma {:induction false} SameCount(rows: seq<Membership>, a: map<string, IssueRow>, b: map<string, IssueRow>)
    requires forall row :: row in rows ==> (row.issueId in a <==> row.issueId in b)
    ensures CountIndexed(rows, a) == CountIndexed(rows, b)
  {
    if rows != [] {
      assert rows[|rows| - 1] in rows;
      SameCount(rows[..|rows| - 1], a, b);
    }
  }

  lemma {:induction false} UntouchedCount(t: WorkspaceState, before: WorkspaceIndex, after: WorkspaceIndex, issues: set<string>,
                       labels: set<string>, projects: set<string>, users: set<string>, row: LabelRow)
    requires after == IndexOf(t)
    requires Covered(before, after, issues, labels, projects, users)
    requires Spread(issues, after.membershipsByIssue, MembershipLabel, labels)
    requires row.labelId in after.labels && after.labels[row.labelId] == row
    requires row.labelId !in labels
    ensures CountChange(before, after, row) == []
  {
    var k := row.labelId;
    assert Same(before.labels, after.labels, k);
    var bucket := BucketAt(after.membershipsByLabel, k);
    forall m | m in bucket ensures m.issueId in before.issues <==> m.issueId in after.issues {
      BucketAtGroup(t.memberships, ByLabel, k);
      BucketMember(t.memberships, ByLabel, k, m);
      BucketAtGroup(t.memberships, ByIssue, m.issueId);
      BucketMember(t.memberships, ByIssue, m.issueId, m);
      assert MembershipLabel(m) == k;
      assert m.issueId !in issues;
      assert Same(before.issues, after.issues, m.issueId);
    }
    SameCount(bucket, before.issues, after.issues);
  }

  function MembershipLabel(row: Membership): string { row.labelId }

  // ---- The tracker's loops ----------------------------------------------------------------

  method ApplyEvents(rows: Pairs<string, IssueRow>, events: seq<IssueEvent>)
    returns (issues: Pairs<string, IssueRow>, touched: set<string>, transitions: seq<IssueEvent>)
    ensures issues == FoldIssues(rows, events)
    ensures transitions == Accepted(rows, events)
    ensures forall k :: k !in touched ==> Get(issues, k) == Get(rows, k)
  {
    issues, touched, transitions := rows, {}, [];
    for i := 0 to |events|
      invariant issues == FoldIssues(rows, events[..i])
      invariant transitions == Accepted(rows, events[..i])
      invariant forall k :: k !in touched ==> Get(issues, k) == Get(rows, k)
    {
      var event := events[i];
      assert events[..i + 1][..i] == events[..i];
      var before := Get(issues, event.issueId);
      var after := FoldIssue(before, event);
      if after.None? || after == before { continue; }
      forall k { GetPut(issues, event.issueId, after.value, k); }
      issues := Put(issues, event.issueId, after.value);
      touched := touched + {event.issueId};
      transitions := transitions + [event];
    }
    assert events[..|events|] == events;
  }

  /** The groups of untouched issues and labels are as before. */
  ghost predicate GroupsKept(rows: Pairs<string, Membership>, rows0: Pairs<string, Membership>,
                             issues: set<string>, labels: set<string>)
  {
    && (forall k :: k !in issues ==> Bucket(Values(rows), ByIssue, k) == Bucket(Values(rows0), ByIssue, k))
    && (forall k :: k !in labels ==> Bucket(Values(rows), ByLabel, k) == Bucket(Values(rows0), ByLabel, k))
  }

  lemma {:induction false} GroupsKeptByWrite(rows: Pairs<string, Membership>, rows0: Pairs<string, Membership>, event: LabelEvent,
                          issues: set<string>, labels: set<string>)
    requires GroupsKept(rows, rows0, issues, labels)
    requires event.issueId in issues && event.labelId in labels
    requires Get(rows, event.membershipId).Some? ==>
      Get(rows, event.membershipId).value.issueId in issues && Get(rows, event.membershipId).value.labelId in labels
    ensures GroupsKept(Put(rows, event.membershipId, MembershipOf(event)), rows0, issues, labels)
  {
    var row := MembershipOf(event);
    var next := Put(rows, event.membershipId, row);
    forall k | k !in issues ensures Bucket(Values(next), ByIssue, k) == Bucket(Values(rows0), ByIssue, k) {
      BucketUnmoved(rows, event.membershipId, row, ByIssue, k);
    }
    forall k | k !in labels ensures Bucket(Values(next), ByLabel, k) == Bucket(Values(rows0), ByLabel, k) {
      BucketUnmoved(rows, event.membershipId, row, ByLabel, k);
    }
  }

  method ApplyLabelEvents(rows: Pairs<string, Membership>, events: seq<LabelEvent>, touched: set<string>)
    returns (memberships: Pairs<string, Membership>, touchedIssues: set<string>, touchedLabels: set<string>)
    ensures memberships == FoldLabels(rows, events)
    ensures touched <= touchedIssues
    ensures GroupsKept(memberships, rows, touchedIssues, touchedLabels)
  {
    memberships, touchedIssues, touchedLabels := rows, touched, {};
    for i := 0 to |events|
      invariant memberships == FoldLabels(rows, events[..i])
      invariant touched <= touchedIssues
      invariant GroupsKept(memberships, rows, touchedIssues, touchedLabels)
    {
      var event := events[i];
      assert events[..i + 1][..i] == events[..i];
      var before := Get(memberships, event.membershipId);
      if before.Some? && before.value.sequence >= event.sequence { continue; }
      touchedIssues := touchedIssues + {event.issueId};
      touchedLabels := touchedLabels + {event.labelId};
      if before.Some? {
        touchedIssues := touchedIssues + {before.value.issueId};
        touchedLabels := touchedLabels + {before.value.labelId};
      }
      GroupsKeptByWrite(memberships, rows, event, touchedIssues, touchedLabels);
      memberships := Put(memberships, event.membershipId, MembershipOf(event));
    }
    assert events[..|events|] == events;
  }

  /** `applyCatalog`: every key whose row may have moved is touched, all of them by a reset. */
  method ApplyCatalog<V>(rows: Pairs<string, V>, touched: set<string>, event: StateEvent<V>)
    returns (rows': Pairs<string, V>, touched': set<string>)
    ensures rows' == ApplyCatalogEvent(rows, event)
    ensures touched <= touched'
    ensures forall k :: k !in touched' ==> Get(rows', k) == Get(rows, k)
  {
    rows', touched' := rows, touched;
    match event
    case Snapshot =>
    case Reset =>
      touched' := touched + set i | 0 <= i < |rows| :: rows[i].0;
      forall k | k !in touched' ensures Get(rows, k) == None {
        GetIsLookup(rows, k);
      }
      rows' := [];
    case Upsert(key, value) =>
      touched' := touched + {key};
      forall k { GetPut(rows, key, value, k); }
      rows' := Put(rows, key, value);
    case Delete(key) =>
      touched' := touched + {key};
      forall k { GetDrop(rows, key, k); }
      rows' := Drop(rows, key);
  }

  method ApplyCatalogs<V>(rows: Pairs<string, V>, events: seq<StateEvent<V>>, touched: set<string>)
    returns (rows': Pairs<string, V>, touched': set<string>)
    ensures rows' == FoldCatalog(rows, events)
    ensures touched <= touched'
    ensures forall k :: k !in touched' ==> Get(rows', k) == Get(rows, k)
  {
    rows', touched' := rows, touched;
    for i := 0 to |events|
      invariant rows' == FoldCatalog(rows, events[..i])
      invariant touched <= touched'
      invariant forall k :: k !in touched' ==> Get(rows', k) == Get(rows, k)
    {
      assert events[..i + 1][..i] == events[..i];
      rows', touched' := ApplyCatalog(rows', touched', events[i]);
    }
    assert events[..|events|] == events;
  }

  /** `checkCatalogWorkspace` over one collection. */
  method CheckCatalog<V>(ws: string, collection: string, changes: seq<StateEvent<V>>, of: V -> string)
    returns (fault: Option<Mismatch>)
    ensures fault == FirstForeign(ws, collection, changes, of)
  {
    for i := 0 to |changes|
      invariant FirstForeign(ws, collection, changes, of) == FirstForeign(ws, collection, changes[i..], of)
    {
      if changes[i].Upsert? && of(changes[i].value) != ws {
        return Some(Mismatch(collection, changes[i].key, of(changes[i].value)));
      }
    }
    return None;
  }

  /** Add the ids of the grouped rows of every touched key, before and after. */
  method Touch<A(==)>(keys: set<string>, before: map<string, seq<A>>, after: map<string, seq<A>>, id: A -> string,
                      touched: set<string>)
    returns (touched': set<string>)
    ensures touched <= touched'
    ensures Spread(keys, before, id, touched') && Spread(keys, after, id, touched')
  {
    touched' := touched;
    var rest := keys;
    while rest != {}
      invariant rest <= keys && touched <= touched'
      invariant Spread(keys - rest, before, id, touched') && Spread(keys - rest, after, id, touched')
      decreases |rest|
    {
      var key :| key in rest;
      rest := rest - {key};
      touched' := touched' + (set row | row in BucketAt(before, key) :: id(row))
                           + (set row | row in BucketAt(after, key) :: id(row));
    }
  }

  lemma {:induction false} CoveredByLoops(s: WorkspaceState, t: WorkspaceState, b: Batch, issues: set<string>, labels: set<string>,
                       projects: set<string>, users: set<string>)
    requires ValidState(s) && KeyedBatch(b) && t == UnitState(s, b)
    requires forall k :: k !in issues ==>
      Get(FoldIssues(MapOf(s.issues, IssueId), b.events), k) == Get(MapOf(s.issues, IssueId), k)
    requires GroupsKept(FoldLabels(MapOf(s.memberships, MembershipId), b.labelEvents),
                        MapOf(s.memberships, MembershipId), issues, labels)
    requires forall k :: k !in labels ==>
      Get(FoldCatalog(MapOf(s.labels, LabelId), b.labels), k) == Get(MapOf(s.labels, LabelId), k)
    requires forall k :: k !in projects ==>
      Get(FoldCatalog(MapOf(s.projects, ProjectId), b.projects), k) == Get(MapOf(s.projects, ProjectId), k)
    requires forall k :: k !in users ==>
      Get(FoldCatalog(MapOf(s.users, UserId), b.users), k) == Get(MapOf(s.users, UserId), k)
    ensures Covered(IndexOf(s), IndexOf(t), issues, labels, projects, users)
  {
    UnitKeepsValid(s, b);
    SameByGet(s.issues, FoldIssues(MapOf(s.issues, IssueId), b.events), IssueId, issues);
    SameByGet(s.labels, FoldCatalog(MapOf(s.labels, LabelId), b.labels), LabelId, labels);
    SameByGet(s.projects, FoldCatalog(MapOf(s.projects, ProjectId), b.projects), ProjectId, projects);
    SameByGet(s.users, FoldCatalog(MapOf(s.users, UserId), b.users), UserId, users);
    MapOfUnique(s.memberships, MembershipId);
    SameGroups(s.memberships, t.memberships, ByIssue, issues);
    SameGroups(s.memberships, t.memberships, ByLabel, labels);
  }

  lemma {:induction false} SameGroups(
      rows: seq<Membership>, rows': seq<Membership>, key: Membership -> Option<string>, touched: set<string>)
    requires forall k :: k !in touched ==> Bucket(rows', key, k) == Bucket(rows, key, k)
    ensures forall k :: k !in touched ==> BucketAt(GroupOf(rows', key), k) == BucketAt(GroupOf(rows, key), k)
  {
    forall k | k !in touched ensures BucketAt(GroupOf(rows', key), k) == BucketAt(GroupOf(rows, key), k) {
      BucketAtGroup(rows, key, k);
      BucketAtGroup(rows', key, k);
    }
  }

  lemma {:induction false} SameByGet<V>(rows: seq<V>, m: Pairs<string, V>, id: V -> string, touched: set<string>)
    requires Keyed(m, id)
    requires forall k :: k !in touched ==> Get(m, k) == Get(MapOf(rows, id), k)
    ensures forall k :: k !in touched ==> Same(AsMap(MapOf(rows, id)), AsMap(MapOf(Values(m), id)), k)
  {
    MapOfValues(m, id);
    forall k | k !in touched ensures Same(AsMap(MapOf(rows, id)), AsMap(m), k) {
      GetIsLookup(m, k);
      GetIsLookup(MapOf(rows, id), k);
    }
  }

  /** The indexed row of an id is the row itself. */
  lemma {:induction false} IndexFinds<V>(rows: seq<V>, id: V -> string, i: nat)
    requires UniqueIds(rows, id) && i < |rows|
    ensures id(rows[i]) in AsMap(MapOf(rows, id)) && AsMap(MapOf(rows, id))[id(rows[i])] == rows[i]
  {
    MapOfUnique(rows, id);
    var m := MapOf(rows, id);
    assert Values(m)[i] == m[i].1;
    GetAt(m, i);
    GetIsLookup(m, m[i].0);
  }

  /** No card outside the touched issues changes. */
  lemma {:induction false} UntouchedCards(s: WorkspaceState, t: WorkspaceState, issues: set<string>, labels: set<string>,
                                          projects: set<string>, users: set<string>)
    requires UniqueIds(s.issues, IssueId) && UniqueIds(t.issues, IssueId)
    requires Covered(IndexOf(s), IndexOf(t), issues, labels, projects, users)
    requires Spread(projects, IndexOf(s).issuesByProject, IssueId, issues)
    requires Spread(users, IndexOf(s).issuesByUser, IssueId, issues)
    ensures forall issue :: issue in t.issues && issue.issueId !in issues ==> CardChange(IndexOf(s), IndexOf(t), issue) == []
  {
    forall issue | issue in t.issues && issue.issueId !in issues ensures CardChange(IndexOf(s), IndexOf(t), issue) == [] {
      var i :| 0 <= i < |t.issues| && t.issues[i] == issue;
      IndexFinds(t.issues, IssueId, i);
      UntouchedCard(s, IndexOf(s), IndexOf(t), issues, labels, projects, users, issue);
    }
  }

  /** No count outside the touched labels changes. */
  lemma {:induction false} UntouchedCounts(s: WorkspaceState, t: WorkspaceState, issues: set<string>, labels: set<string>,
                                           projects: set<string>, users: set<string>)
    requires UniqueIds(t.labels, LabelId)
    requires Covered(IndexOf(s), IndexOf(t), issues, labels, projects, users)
    requires Spread(issues, IndexOf(t).membershipsByIssue, MembershipLabel, labels)
    ensures forall row :: row in t.labels && row.labelId !in labels ==> CountChange(IndexOf(s), IndexOf(t), row) == []
  {
    forall row | row in t.labels && row.labelId !in labels ensures CountChange(IndexOf(s), IndexOf(t), row) == [] {
      var i :| 0 <= i < |t.labels| && t.labels[i] == row;
      IndexFinds(t.labels, LabelId, i);
      UntouchedCount(t, IndexOf(s), IndexOf(t), issues, labels, projects, users, row);
    }
  }

  method EmitBoard(t: WorkspaceState, before: WorkspaceIndex, after: WorkspaceIndex, touched: set<string>)
    returns (board: seq<Change<Card>>)
    requires forall issue :: issue in t.issues && issue.issueId !in touched ==> CardChange(before, after, issue) == []
    ensures board == BoardDiff(before, after, t.issues)
  {
    board := [];
    for i := 0 to |t.issues|
      invariant board == BoardDiff(before, after, t.issues[..i])
    {
      var issue := t.issues[i];
      assert BoardDiff(before, after, t.issues[..i + 1]) == board + CardChange(before, after, issue) by {
        assert t.issues[..i + 1][..i] == t.issues[..i];
      }
      if issue.issueId !in touched {
        assert issue in t.issues;
        continue;
      }
      var row := BoardCard(after, issue);
      var oldRow := if issue.issueId in before.issues
                    then Some(BoardCard(before, before.issues[issue.issueId])) else None;
      if oldRow.None? || row != oldRow.value {
        board := board + [Upserted(issue.issueId, row)];
      }
    }
    assert t.issues[..|t.issues|] == t.issues;
  }

  method EmitCounts(t: WorkspaceState, before: WorkspaceIndex, after: WorkspaceIndex, touched: set<string>)
    returns (counts: seq<Change<LabelCountRow>>)
    requires forall row :: row in t.labels && row.labelId !in touched ==> CountChange(before, after, row) == []
    ensures counts == LabelDiff(before, after, t.labels)
  {
    counts := [];
    for i := 0 to |t.labels|
      invariant counts == LabelDiff(before, after, t.labels[..i])
    {
      var row := t.labels[i];
      assert t.labels[..i + 1][..i] == t.labels[..i];
      if row.labelId !in touched {
        assert row in t.labels;
        continue;
      }
      var count := LabelCount(after, row);
      var oldCount := if row.labelId in before.labels
                      then Some(LabelCount(before, before.labels[row.labelId])) else None;
      if oldCount.None? || count != oldCount.value {
        counts := counts + [Upserted(row.labelId, count)];
      }
    }
    assert t.labels[..|t.labels|] == t.labels;
  }

  method EmitRemovals(previous: seq<LabelRow>, labels: Pairs<string, LabelRow>) returns (counts: seq<Change<LabelCountRow>>)
    ensures counts == Removals(previous, labels)
  {
    counts := [];
    for i := 0 to |previous|
      invariant counts == Removals(previous[..i], labels)
    {
      assert previous[..i + 1][..i] == previous[..i];
      if Get(labels, previous[i].labelId).None? {
        counts := counts + [Removed(previous[i].labelId)];
      }
    }
    assert previous[..|previous|] == previous;
  }

  /**
   * One unit of the tracker. It rebuilds only touched cards and counts, yet its outputs are
   * those of a full comparison of every rebuilt row.
   */
  method MapAccumBatch(s: WorkspaceState, b: Batch) returns (r: Result<(WorkspaceState, Outputs), Mismatch>)
    requires ValidState(s) && KeyedBatch(b)
    ensures CatalogFault(s.workspaceId, b).Some? ==> r == Err(CatalogFault(s.workspaceId, b).value)
    ensures CatalogFault(s.workspaceId, b).None? ==>
      r == Ok((UnitState(s, b), UnitOutputs(s, b))) && ValidState(UnitState(s, b))
  {
    var before := IndexWorkspace(s);
    var issues, touchedIssues, transitions := ApplyEvents(MapOf(s.issues, IssueId), b.events);
    var memberships, touchedIssues1, touchedLabels :=
      ApplyLabelEvents(MapOf(s.memberships, MembershipId), b.labelEvents, touchedIssues);

    var fault := CheckCatalog(s.workspaceId, "project", b.projects, ProjectWorkspace);
    if fault.Some? { return Err(fault.value); }
    fault := CheckCatalog(s.workspaceId, "user", b.users, UserWorkspace);
    if fault.Some? { return Err(fault.value); }
    fault := CheckCatalog(s.workspaceId, "label", b.labels, LabelWorkspace);
    if fault.Some? { return Err(fault.value); }

    var projects, touchedProjects := ApplyCatalogs(MapOf(s.projects, ProjectId), b.projects, {});
    var users, touchedUsers := ApplyCatalogs(MapOf(s.users, UserId), b.users, {});
    var labels, touchedLabels1 := ApplyCatalogs(MapOf(s.labels, LabelId), b.labels, touchedLabels);

    var t := WorkspaceState(
      s.workspaceId, |issues|, CountDone(Values(issues)), Values(issues), Values(memberships),
      Values(projects), Values(users), Values(labels));
    assert t == UnitState(s, b);
    UnitKeepsValid(s, b);
    var after := IndexWorkspace(t);

    var touchedIssues2 := Touch(touchedProjects, before.issuesByProject, after.issuesByProject, IssueId, touchedIssues1);
    var touchedIssues3 := Touch(touchedUsers, before.issuesByUser, after.issuesByUser, IssueId, touchedIssues2);
    var touchedLabels2 := Touch(touchedIssues3, before.membershipsByIssue, after.membershipsByIssue,
                                MembershipLabel, touchedLabels1);

    CoveredByLoops(s, t, b, touchedIssues3, touchedLabels2, touchedProjects, touchedUsers);
    UntouchedCards(s, t, touchedIssues3, touchedLabels2, touchedProjects, touchedUsers);
    UntouchedCounts(s, t, touchedIssues3, touchedLabels2, touchedProjects, touchedUsers);
    var board := EmitBoard(t, before, after, touchedIssues3);
    var counts := EmitCounts(t, before, after, touchedLabels2);
    var removals := EmitRemovals(s.labels, labels);
    r := Ok((t, Outputs(board, counts + removals, transitions)));
  }
}
