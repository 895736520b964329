/** The published rows of a workspace and the full rebuild that defines them (domain/outputs.ts). */
module BugsyOutputs {
  import opened Common
  import opened JsMap
  import opened BugsyDomain

  datatype Card = Card(issue: IssueRow, labelIds: seq<string>, projectName: Option<string>, assigneeName: Option<string>)

  datatype LabelCountRow = LabelCountRow(workspaceId: string, labelId: string, name: string, count: nat)

  datatype WorkspaceState = WorkspaceState(
    workspaceId: string, issueCount: nat, doneCount: nat, issues: seq<IssueRow>, memberships: seq<Membership>,
    projects: seq<ProjectRow>, users: seq<UserRow>, labels: seq<LabelRow>)

  datatype WorkspaceIndex = WorkspaceIndex(
    issues: map<string, IssueRow>, projects: map<string, ProjectRow>, users: map<string, UserRow>,
    labels: map<string, LabelRow>, membershipsByIssue: map<string, seq<Membership>>,
    membershipsByLabel: map<string, seq<Membership>>, issuesByProject: map<string, seq<IssueRow>>,
    issuesByUser: map<string, seq<IssueRow>>)

  /** `new Map(rows.map(row => [id(row), row]))`: a later row wins, at the place of the first. */
  function MapOf<V>(rows: seq<V>, id: V -> string): Pairs<string, V> {
    if rows == [] then []
    else Put(MapOf(rows[..|rows| - 1], id), id(rows[|rows| - 1]), rows[|rows| - 1])
  }

  lemma {:induction false} PutNew<V>(m: Pairs<string, V>, k: string, v: V)
    requires forall i :: 0 <= i < |m| ==> m[i].0 != k
    ensures Put(m, k, v) == m + [(k, v)]
  {
    if m != [] {
      forall i | 0 <= i < |m[1..]| ensures m[1..][i].0 != k { assert m[i + 1].0 != k; }
      PutNew(m[1..], k, v);
    }
  }

  /** Reading a duplicate-free map back from its values gives the same map in the same order. */
  lemma {:induction false} MapOfValues<V>(m: Pairs<string, V>, id: V -> string)
    requires Keyed(m, id)
    ensures MapOf(Values(m), id) == m
  {
    if m != [] {
      var front, last := m[..|m| - 1], m[|m| - 1];
      assert forall i :: 0 <= i < |front| ==> front[i] == m[i] && front[i].0 != last.0;
      assert m == front + [last];
      MapOfValues(front, id);
      assert MapOf(Values(m), id) == Put(front, last.0, last.1) by {
        ValuesSnoc(front, last);
        MapOfSnoc(Values(front), last.1, id);
      }
      PutNew(front, last.0, last.1);
    }
  }

  lemma {:induction false} ValuesSnoc<V>(front: Pairs<string, V>, last: (string, V))
    ensures Values(front + [last]) == Values(front) + [last.1]
  {
  }

  lemma {:induction false} MapOfSnoc<V>(rows: seq<V>, row: V, id: V -> string)
    ensures MapOf(rows + [row], id) == Put(MapOf(rows, id), id(row), row)
  {
    assert (rows + [row])[..|rows|] == rows;
  }

  // The grouping keys of the four `group` calls. `None` stands for a filtered row.
  function ByIssue(row: Membership): Option<string> { if row.attached then Some(row.issueId) else None }
  function ByLabel(row: Membership): Option<string> { if row.attached then Some(row.labelId) else None }
  function ByProject(row: IssueRow): Option<string> { Some(row.projectId) }
  function ByAssignee(row: IssueRow): Option<string> { row.assigneeId }

  /** The rows whose group key is `k`, in row order. */
  function Bucket<A>(rows: seq<A>, key: A -> Option<string>, k: string): seq<A> {
    if rows == [] then []
    else
      var n := |rows| - 1;
      Bucket(rows[..n], key, k) + (if key(rows[n]) == Some(k) then [rows[n]] else [])
  }

  lemma {:induction false} BucketMember<A>(rows: seq<A>, key: A -> Option<string>, k: string, row: A)
    ensures row in Bucket(rows, key, k) <==> row in rows && key(row) == Some(k)
  {
    if rows != [] {
      var n := |rows| - 1;
      BucketMember(rows[..n], key, k, row);
      assert row in rows <==> row in rows[..n] || row == rows[n];
    }
  }

  function GroupKeys<A(==)>(rows: seq<A>, key: A -> Option<string>): set<string> {
    set row | row in rows && key(row).Some? :: key(row).value
  }

  function GroupOf<A(==)>(rows: seq<A>, key: A -> Option<string>): map<string, seq<A>> {
    map k | k in GroupKeys(rows, key) :: Bucket(rows, key, k)
  }

  /** `groups.get(key) ?? []` */
  function BucketAt<A>(groups: map<string, seq<A>>, k: string): seq<A> {
    if k in groups then groups[k] else []
  }

  lemma {:induction false} BucketAtGroup<A>(rows: seq<A>, key: A -> Option<string>, k: string)
    ensures BucketAt(GroupOf(rows, key), k) == Bucket(rows, key, k)
  {
    if k !in GroupKeys(rows, key) && Bucket(rows, key, k) != [] {
      BucketMember(rows, key, k, Bucket(rows, key, k)[0]);
    }
  }

  lemma {:induction false} GroupLookup<A>(rows: seq<A>, key: A -> Option<string>, k: string)
    ensures k in GroupOf(rows, key) <==> Bucket(rows, key, k) != []
    ensures k in GroupOf(rows, key) ==> GroupOf(rows, key)[k] == Bucket(rows, key, k)
  {
    if k in GroupKeys(rows, key) {
      var row :| row in rows && key(row) == Some(k);
      BucketMember(rows, key, k, row);
    } else {
      BucketAtGroup(rows, key, k);
    }
  }

  lemma {:induction false} GroupSnoc<A>(rows: seq<A>, row: A, key: A -> Option<string>)
    ensures GroupOf(rows + [row], key)
         == var groups := GroupOf(rows, key);
            if key(row).None? then groups
            else groups[key(row).value := BucketAt(groups, key(row).value) + [row]]
  {
    assert (rows + [row])[..|rows|] == rows;
    var groups := GroupOf(rows, key);
    var next := if key(row).None? then groups
                else groups[key(row).value := BucketAt(groups, key(row).value) + [row]];
    forall k ensures k in GroupOf(rows + [row], key) <==> k in next
             ensures k in next ==> GroupOf(rows + [row], key)[k] == next[k] {
      GroupLookup(rows, key, k);
      GroupLookup(rows + [row], key, k);
      BucketAtGroup(rows, key, k);
    }
  }

  /** `group`: the buckets are filled row by row. */
  method Group<A(==)>(rows: seq<A>, key: A -> Option<string>) returns (result: map<string, seq<A>>)
    ensures result == GroupOf(rows, key)
  {
    result := map[];
    for i := 0 to |rows|
      invariant result == GroupOf(rows[..i], key)
    {
      GroupSnoc(rows[..i], rows[i], key);
      assert rows[..i] + [rows[i]] == rows[..i + 1];
      var k := key(rows[i]);
      if k.Some? {
        if k.value in result {
          result := result[k.value := result[k.value] + [rows[i]]];
        } else {
          assert [] + [rows[i]] == [rows[i]];
          result := result[k.value := [rows[i]]];
        }
      }
    }
    assert rows[..|rows|] == rows;
  }

  /** The index as a whole: what every reader of the workspace looks rows up in. */
  function IndexOf(s: WorkspaceState): WorkspaceIndex {
    WorkspaceIndex(
      AsMap(MapOf(s.issues, IssueId)), AsMap(MapOf(s.projects, ProjectId)), AsMap(MapOf(s.users, UserId)),
      AsMap(MapOf(s.labels, LabelId)), GroupOf(s.memberships, ByIssue), GroupOf(s.memberships, ByLabel),
      GroupOf(s.issues, ByProject), GroupOf(s.issues, ByAssignee))
  }

  method IndexWorkspace(s: WorkspaceState) returns (index: WorkspaceIndex)
    ensures index == IndexOf(s)
  {
    var byIssue := Group(s.memberships, ByIssue);
    var byLabel := Group(s.memberships, ByLabel);
    var byProject := Group(s.issues, ByProject);
    var byUser := Group(s.issues, ByAssignee);
    index := WorkspaceIndex(
      AsMap(MapOf(s.issues, IssueId)), AsMap(MapOf(s.projects, ProjectId)), AsMap(MapOf(s.users, UserId)),
      AsMap(MapOf(s.labels, LabelId)), byIssue, byLabel, byProject, byUser);
  }

  predicate StringLe(a: string, b: string) {
    a == [] || (b != [] && (a[0] < b[0] || (a[0] == b[0] && StringLe(a[1..], b[1..]))))
  }

  function InsertSorted(x: string, s: seq<string>): seq<string> {
    if s == [] || StringLe(x, s[0]) then [x] + s else [s[0]] + InsertSorted(x, s[1..])
  }

  /** `Array.sort(..., Order.String)` */
  function SortStrings(s: seq<string>): seq<string> {
    if s == [] then [] else InsertSorted(s[0], SortStrings(s[1..]))
  }

  function LabelIdsOf(rows: seq<Membership>): seq<string> {
    if rows == [] then [] else [rows[0].labelId] + LabelIdsOf(rows[1..])
  }

  function BoardCard(index: WorkspaceIndex, issue: IssueRow): Card {
    Card(
      issue,
      SortStrings(LabelIdsOf(BucketAt(index.membershipsByIssue, issue.issueId))),
      if issue.projectId in index.projects then Some(index.projects[issue.projectId].name) else None,
      if issue.assigneeId.Some? && issue.assigneeId.value in index.users
      then Some(index.users[issue.assigneeId.value].name) else None)
  }

  function CountIndexed(rows: seq<Membership>, issues: map<string, IssueRow>): nat {
    if rows == [] then 0
    else (if rows[|rows| - 1].issueId in issues then 1 else 0) + CountIndexed(rows[..|rows| - 1], issues)
  }

  function LabelCount(index: WorkspaceIndex, row: LabelRow): LabelCountRow {
    LabelCountRow(row.workspaceId, row.labelId, row.name,
                  CountIndexed(BucketAt(index.membershipsByLabel, row.labelId), index.issues))
  }

  /** The rebuilt board: the card of every issue. */
  function FullBoard(s: WorkspaceState): map<string, Card> {
    var index := IndexOf(s);
    map k | k in index.issues :: BoardCard(index, index.issues[k])
  }

  /** The rebuilt label counts: the count of every label. */
  function FullLabels(s: WorkspaceState): map<string, LabelCountRow> {
    var index := IndexOf(s);
    map k | k in index.labels :: LabelCount(index, index.labels[k])
  }

  datatype Change<R> = Upserted(key: string, row: R) | Removed(key: string)

  function ApplyChange<R>(table: map<string, R>, change: Change<R>): map<string, R> {
    match change
    case Upserted(key, row) => table[key := row]
    case Removed(key) => table - {key}
  }

  /** What a reader of the output stream holds after the changes. */
  function Replay<R>(table: map<string, R>, changes: seq<Change<R>>): map<string, R> {
    Fold(table, ApplyChange<R>, changes)
  }

  /** The board changes of a unit by full comparison: each issue whose rebuilt card differs, in row order. */
  function BoardDiff(before: WorkspaceIndex, after: WorkspaceIndex, issues: seq<IssueRow>): seq<Change<Card>> {
    if issues == [] then []
    else
      var n := |issues| - 1;
      BoardDiff(before, after, issues[..n]) + CardChange(before, after, issues[n])
  }

  function CardChange(before: WorkspaceIndex, after: WorkspaceIndex, issue: IssueRow): seq<Change<Card>> {
    var row := BoardCard(after, issue);
    if issue.issueId in before.issues && BoardCard(before, before.issues[issue.issueId]) == row then []
    else [Upserted(issue.issueId, row)]
  }

  /** The label upserts of a unit by full comparison. */
  function LabelDiff(before: WorkspaceIndex, after: WorkspaceIndex, labels: seq<LabelRow>): seq<Change<LabelCountRow>> {
    if labels == [] then []
    else
      var n := |labels| - 1;
      LabelDiff(before, after, labels[..n]) + CountChange(before, after, labels[n])
  }

  function CountChange(before: WorkspaceIndex, after: WorkspaceIndex, row: LabelRow): seq<Change<LabelCountRow>> {
    var count := LabelCount(after, row);
    if row.labelId in before.labels && LabelCount(before, before.labels[row.labelId]) == count then []
    else [Upserted(row.labelId, count)]
  }

  /** The removals of a unit: each previous label that is gone. */
  function Removals(previous: seq<LabelRow>, kept: Pairs<string, LabelRow>): seq<Change<LabelCountRow>> {
    if previous == [] then []
    else
      var n := |previous| - 1;
      Removals(previous[..n], kept) +
      (if Get(kept, previous[n].labelId).Some? then [] else [Removed(previous[n].labelId)])
  }

  // ---- Sorting -------------------------------------------------------------------------

  /** The first difference is at `i`, and `a` has the smaller character there. */
  ghost predicate SmallerAt(a: string, b: string, i: nat) {
    i < |a| && i < |b| && (forall j :: 0 <= j < i ==> a[j] == b[j]) && a[i] < b[i]
  }

  lemma {:induction false} SmallerBehind(a: string, b: string, i: nat)
    requires a != [] && b != [] && a[0] == b[0]
    ensures SmallerAt(a[1..], b[1..], i) <==> SmallerAt(a, b, i + 1)
  {
    if SmallerAt(a[1..], b[1..], i) {
      forall j | 0 <= j < i + 1 ensures a[j] == b[j] { assert j > 0 ==> a[1..][j - 1] == b[1..][j - 1]; }
    }
  }

  /** Strings are ordered by the first place where they differ, and a prefix comes first. */
  lemma {:induction false} StringOrderMeans(a: string, b: string)
    ensures StringLe(a, b) <==> a <= b || exists i: nat :: SmallerAt(a, b, i)
  {
    if a == [] || b == [] { return; }
    if a[0] != b[0] {
      assert a[0] < b[0] ==> SmallerAt(a, b, 0);
      return;
    }
    StringOrderMeans(a[1..], b[1..]);
    assert a <= b <==> a[1..] <= b[1..] by { assert a == [a[0]] + a[1..] && b == [b[0]] + b[1..]; }
    if i: nat :| SmallerAt(a, b, i) { SmallerBehind(a, b, i - 1); }
    if i: nat :| SmallerAt(a[1..], b[1..], i) { SmallerBehind(a, b, i); }
  }

  lemma {:induction false} StringLeTotal(a: string, b: string)
    ensures StringLe(a, b) || StringLe(b, a)
  {
    if a != [] && b != [] && a[0] == b[0] { StringLeTotal(a[1..], b[1..]); }
  }

  lemma {:induction false} StringLeTransitive(a: string, b: string, c: string)
    requires StringLe(a, b) && StringLe(b, c)
    ensures StringLe(a, c)
  {
    if a != [] && a[0] == b[0] == c[0] { StringLeTransitive(a[1..], b[1..], c[1..]); }
  }

  ghost predicate Sorted(s: seq<string>) {
    forall i, j :: 0 <= i < j < |s| ==> StringLe(s[i], s[j])
  }

  lemma {:induction false} InsertPermutes(x: string, s: seq<string>)
    ensures multiset(InsertSorted(x, s)) == multiset(s) + multiset{x}
  {
    if s != [] {
      assert s == [s[0]] + s[1..];
      InsertPermutes(x, s[1..]);
    }
  }

  /** Every element of the result is the new one or was there. */
  lemma {:induction false} InsertMember(x: string, s: seq<string>, y: string)
    requires y in InsertSorted(x, s)
    ensures y == x || y in s
  {
    InsertPermutes(x, s);
    assert y in multiset(InsertSorted(x, s));
  }

  lemma {:induction false} InsertKeepsSorted(x: string, s: seq<string>)
    requires Sorted(s)
    ensures Sorted(InsertSorted(x, s))
  {
    if s == [] {
    } else if StringLe(x, s[0]) {
      forall j | 0 <= j < |s| ensures StringLe(x, s[j]) {
        if j > 0 { StringLeTransitive(x, s[0], s[j]); }
      }
    } else {
      StringLeTotal(x, s[0]);
      InsertKeepsSorted(x, s[1..]);
      var rest := InsertSorted(x, s[1..]);
      forall j | 0 <= j < |rest| ensures StringLe(s[0], rest[j]) {
        InsertMember(x, s[1..], rest[j]);
        if rest[j] != x { var i :| 0 <= i < |s| - 1 && s[1..][i] == rest[j]; }
      }
    }
  }

  /** The row attaches the label to the issue. */
  function AttachesTo(issueId: string, labelId: string): Membership -> bool {
    (row: Membership) => row.attached && row.issueId == issueId && row.labelId == labelId
  }

  lemma {:induction false} LabelIdsSnoc(rows: seq<Membership>, row: Membership)
    ensures LabelIdsOf(rows + [row]) == LabelIdsOf(rows) + [row.labelId]
  {
    if rows == [] {
      assert LabelIdsOf([row]) == [row.labelId] + LabelIdsOf([row][1..]);
      assert [] + [row] == [row];
    } else {
      assert (rows + [row])[1..] == rows[1..] + [row];
      LabelIdsSnoc(rows[1..], row);
    }
  }

  lemma {:induction false} BucketSnoc<A>(rows: seq<A>, row: A, key: A -> Option<string>, k: string)
    ensures Bucket(rows + [row], key, k) == if key(row) == Some(k) then Bucket(rows, key, k) + [row] else Bucket(rows, key, k)
  {
    assert (rows + [row])[..|rows|] == rows;
  }

  lemma {:induction false} BucketLabels(rows: seq<Membership>, issueId: string, labelId: string)
    ensures multiset(LabelIdsOf(Bucket(rows, ByIssue, issueId)))[labelId] == |Places(rows, AttachesTo(issueId, labelId))|
  {
    if rows == [] {
      NoPlaces(AttachesTo(issueId, labelId));
    } else {
      var front, last := rows[..|rows| - 1], rows[|rows| - 1];
      assert rows == front + [last];
      BucketLabels(front, issueId, labelId);
      BucketSnoc(front, last, ByIssue, issueId);
      LabelIdsSnoc(Bucket(front, ByIssue, issueId), last);
      PlacesSnoc(front, last, AttachesTo(issueId, labelId));
    }
  }

  /** The labels of a card are sorted, and each stands there once for every row that attaches it to the issue. */
  lemma {:induction false} CardLabels(s: WorkspaceState, issue: IssueRow)
    ensures Sorted(BoardCard(IndexOf(s), issue).labelIds)
    ensures forall l :: multiset(BoardCard(IndexOf(s), issue).labelIds)[l]
                     == |Places(s.memberships, AttachesTo(issue.issueId, l))|
  {
    var ids := LabelIdsOf(Bucket(s.memberships, ByIssue, issue.issueId));
    BucketAtGroup(s.memberships, ByIssue, issue.issueId);
    SortIsSorted(ids);
    forall l ensures multiset(ids)[l] == |Places(s.memberships, AttachesTo(issue.issueId, l))| {
      BucketLabels(s.memberships, issue.issueId, l);
    }
  }

  /** The row attaches the label to one of the issues. */
  function UsesLabel(issues: set<string>, labelId: string): Membership -> bool {
    (row: Membership) => row.attached && row.labelId == labelId && row.issueId in issues
  }

  lemma {:induction false} CountIndexedSnoc(rows: seq<Membership>, row: Membership, issues: map<string, IssueRow>)
    ensures CountIndexed(rows + [row], issues) == CountIndexed(rows, issues) + (if row.issueId in issues then 1 else 0)
  {
    assert (rows + [row])[..|rows|] == rows;
  }

  lemma {:induction false} BucketUses(rows: seq<Membership>, issues: map<string, IssueRow>, labelId: string)
    ensures CountIndexed(Bucket(rows, ByLabel, labelId), issues) == |Places(rows, UsesLabel(issues.Keys, labelId))|
  {
    if rows == [] {
      NoPlaces(UsesLabel(issues.Keys, labelId));
    } else {
      var front, last := rows[..|rows| - 1], rows[|rows| - 1];
      assert rows == front + [last];
      BucketUses(front, issues, labelId);
      BucketSnoc(front, last, ByLabel, labelId);
      CountIndexedSnoc(Bucket(front, ByLabel, labelId), last, issues);
      PlacesSnoc(front, last, UsesLabel(issues.Keys, labelId));
    }
  }

  /** A label's row repeats its catalog row and counts the rows that attach it to an existing issue. */
  lemma {:induction false} CountOfLabel(s: WorkspaceState, row: LabelRow)
    ensures var count := LabelCount(IndexOf(s), row);
      && count.workspaceId == row.workspaceId && count.labelId == row.labelId && count.name == row.name
      && count.count == |Places(s.memberships, UsesLabel(IndexOf(s).issues.Keys, row.labelId))|
  {
    BucketAtGroup(s.memberships, ByLabel, row.labelId);
    BucketUses(s.memberships, IndexOf(s).issues, row.labelId);
  }

  lemma {:induction false} SortIsSorted(s: seq<string>)
    ensures Sorted(SortStrings(s)) && multiset(SortStrings(s)) == multiset(s)
  {
    if s != [] {
      SortIsSorted(s[1..]);
      InsertKeepsSorted(s[0], SortStrings(s[1..]));
      InsertPermutes(s[0], SortStrings(s[1..]));
      assert s == [s[0]] + s[1..];
    }
  }
}
