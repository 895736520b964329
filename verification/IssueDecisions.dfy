/** What each accepted command of the issue tracker appends, leaves in the view and answers. */
module IssueDecisions {
  import opened Common
  import opened Text
  import opened IssueTracker

  /** The view after the items of a command. */
  function After(view: View, command: Command): View { Fold(view, ApplyEvent, Items(command, view)) }

  /** The trimmed name, unless nothing is left of it. */
  function Signed(name: Option<string>): Option<string> {
    match name
    case None => None
    case Some(text) => if Trim(text) == "" then None else Some(Trim(text))
  }

  /** The row that a create request asks for. */
  function RequestedRow(input: Input, stamp: Stamp): Issue {
    Issue(match input.id case Some(id) => id case None => stamp.id,
          match input.projectId case Some(p) => p case None => "",
          match input.title case Some(t) => Trim(t) case None => Trim("Untitled issue"),
          match input.status case Some(s) => s case None => Open,
          stamp.now, stamp.now, Signed(input.updatedBy))
  }

  /**
   * An accepted create writes the requested row, whatever row was there, and answers with the row that the
   * view then holds. It is refused for an unknown project or a full one, in this order.
   */
  lemma {:induction false} CreateSays(view: View, input: Input, stamp: Stamp)
    ensures var decided, row, after := DecideCreate(view, input, stamp), RequestedRow(input, stamp), After(view, CreateIssue(input, stamp));
      && (decided == Err(UnknownReference("projectId", row.projectId)) <==> row.projectId !in view.projectIds)
      && (decided == Err(TooManyInProgress(row.projectId, 3)) <==>
            row.projectId in view.projectIds && row.status == InProgress && CountInProgress(view, row.projectId) >= 3)
      && (decided.Ok? ==>
            && after == View(view.projectIds, view.issues[row.id := row])
            && decided.value.row == Some(row) == FindIssue(after, row.id))
      && (decided.Err? ==> after == view && (decided.error.UnknownReference? || decided.error.TooManyInProgress?))
  {
    var created := IssueCreatedOf(input, stamp);
    RunTwo(view, created, created);
    RowOne(None, created);
  }

  lemma {:induction false} RowOne(previous: Option<Issue>, e: Event)
    ensures RowAfter(previous, [e]) == IssueAfter(previous, e)
  {
    assert [e] == [] + [e];
    FoldSnoc(previous, IssueAfter, [], e);
  }

  lemma {:induction false} RowTwo(previous: Option<Issue>, a: Event, b: Event)
    ensures RowAfter(previous, [a, b]) == IssueAfter(IssueAfter(previous, a), b)
  {
    assert [a, b] == [a] + [b];
    FoldSnoc(previous, IssueAfter, [a], b);
    RowOne(previous, a);
  }

  /** The row that a patch makes of a row. */
  function Patched(row: Issue, input: Input, stamp: Stamp): Issue {
    Issue(row.id, row.projectId, match input.title case Some(t) => Trim(t) case None => row.title,
          match input.status case Some(s) => s case None => row.status,
          row.createdAt, stamp.now, Signed(input.updatedBy))
  }

  /**
   * An accepted patch changes exactly the given fields of its row, the time and the editor, and answers with
   * that row. A refused one changes nothing.
   */
  lemma {:induction false} UpdateSays(view: View, issueId: string, input: Input, stamp: Stamp)
    requires issueId in view.issues ==> view.issues[issueId].id == issueId
    ensures var decided, after := DecideUpdate(view, issueId, input, stamp), After(view, UpdateIssue(issueId, input, stamp));
      && (decided.Err? ==> after == view)
      && (decided.Ok? ==>
            issueId in view.issues
            && var row := Patched(view.issues[issueId], input, stamp);
               after == View(view.projectIds, view.issues[issueId := row]) && decided.value.row == Some(row))
  {
    if DecideUpdate(view, issueId, input, stamp).Ok? {
      if input.title.Some? && input.status.Some? {
        TwoEvents(view, issueId, input, stamp);
      } else {
        OneEventSays(view, issueId, input, stamp);
      }
    }
  }

  lemma {:induction false} OneEventSays(view: View, issueId: string, input: Input, stamp: Stamp)
    requires issueId in view.issues && view.issues[issueId].id == issueId && (input.title.Some? != input.status.Some?)
    ensures var events, row := UpdateEvents(issueId, input, stamp), Patched(view.issues[issueId], input, stamp);
      && Fold(view, ApplyEvent, events) == View(view.projectIds, view.issues[issueId := row])
      && RowAfter(FindIssue(view, issueId), events) == Some(row)
  {
    var e := if input.title.Some?
      then IssueRenamed(issueId, Trim(input.title.value), Writer(input.updatedBy), stamp.now, stamp.txid)
      else IssueStatusChanged(issueId, input.status.value, Writer(input.updatedBy), stamp.now, stamp.txid);
    assert UpdateEvents(issueId, input, stamp) == [e];
    OneEditSays(view, e);
  }

  lemma {:induction false} OneEditSays(view: View, e: Event)
    requires (e.IssueRenamed? || e.IssueStatusChanged?) && e.issueId in view.issues && view.issues[e.issueId].id == e.issueId
    ensures var row := IssueAfter(Some(view.issues[e.issueId]), e).value;
      && Fold(view, ApplyEvent, [e]) == View(view.projectIds, view.issues[e.issueId := row])
      && RowAfter(FindIssue(view, e.issueId), [e]) == Some(row)
  {
    RunTwo(view, e, e);
    RowOne(FindIssue(view, e.issueId), e);
  }

  lemma {:induction false} TwoEvents(view: View, issueId: string, input: Input, stamp: Stamp)
    requires issueId in view.issues && view.issues[issueId].id == issueId && input.title.Some? && input.status.Some?
    ensures var events, row := UpdateEvents(issueId, input, stamp), Patched(view.issues[issueId], input, stamp);
      && Fold(view, ApplyEvent, events) == View(view.projectIds, view.issues[issueId := row])
      && RowAfter(FindIssue(view, issueId), events) == Some(row)
  {
    var events, previous := UpdateEvents(issueId, input, stamp), FindIssue(view, issueId);
    assert events == [events[0], events[1]];
    RunTwo(view, events[0], events[1]);
    RowTwo(previous, events[0], events[1]);
    var middle, last := IssueAfter(previous, events[0]).value, Patched(previous.value, input, stamp);
    assert view.issues[issueId := middle][issueId := last] == view.issues[issueId := last];
  }

  /** A patch is refused for an unknown issue, for too much work, or for naming no field, in this order. */
  lemma {:induction false} UpdateRefusals(view: View, issueId: string, input: Input, stamp: Stamp)
    ensures var decided := DecideUpdate(view, issueId, input, stamp);
      && (decided == Err(IssueNotFound(issueId)) <==> issueId !in view.issues)
      && (issueId in view.issues ==>
            var row := view.issues[issueId];
            decided == Err(TooManyInProgress(row.projectId, 3)) <==>
              input.status == Some(InProgress) && row.status != InProgress && CountInProgress(view, row.projectId) >= 3)
      && (decided == Err(NothingToChange(issueId)) <==> issueId in view.issues && input.title.None? && input.status.None?)
      && (decided.Err? ==> !decided.error.UnknownReference?)
  {
  }

  /** A comment is added exactly when its issue exists; a name that is blank or missing becomes "anonymous". */
  lemma {:induction false} CommentSays(view: View, id: Option<string>, on: Option<string>, author: Option<string>,
                                       body: Option<string>, stamp: Stamp)
    ensures var command := CreateComment(id, on, author, body, stamp);
      var target := match on case Some(issueId) => issueId case None => "";
      && Items(command, view) == (
           if target !in view.issues then []
           else [CommentAdded(match id case Some(i) => i case None => stamp.id, target,
                              match Signed(author) case Some(name) => name case None => "anonymous",
                              match body case Some(text) => Trim(text) case None => Trim(""), stamp.now, stamp.txid)])
      && After(view, command) == view
      && (target !in view.issues ==> DecideCommand(view, command) == Err(UnknownReference("issueId", target)))
  {
    assert Trim("") == "";
    var items := Items(CreateComment(id, on, author, body, stamp), view);
    if items != [] { RunTwo(view, items[0], items[0]); }
  }

  /** A project is always created, and known from then on. */
  lemma {:induction false} ProjectSays(
      view: View, id: Option<string>, name: Option<string>, description: Option<string>, stamp: Stamp)
    ensures var command := CreateProject(id, name, description, stamp);
      var projectId := match id case Some(i) => i case None => stamp.id;
      && Items(command, view) == [ProjectCreated(projectId, match name case Some(n) => Trim(n) case None => Trim("Untitled project"),
                                                 match description case Some(t) => Trim(t) case None => Trim(""),
                                                 stamp.now, stamp.txid)]
      && After(view, command) == View(view.projectIds + [projectId], view.issues)
  {
    var items := Items(CreateProject(id, name, description, stamp), view);
    RunTwo(view, items[0], items[0]);
  }

  /** The boot step appends the eight events of the demo workspace to a workspace without projects, else nothing. */
  lemma {:induction false} SeedSays(view: View, stamp: Stamp, texts: SeedTexts)
    requires |texts.titles| == 5
    ensures var items := Items(Seed(stamp, texts), view);
      && (items == [] <==> view.projectIds != [])
      && (view.projectIds == [] ==> |items| == 8 && items == SeedEvents(stamp, texts))
  {
  }
}
