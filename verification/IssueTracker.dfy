/** The event-sourced issue tracker's commands and view (examples/issue-tracker-demo-event-sourced/server). */
module IssueTracker {
  import opened Common
  import opened Text
  import D = Decide

  const WIP_LIMIT := 3

  datatype Status = Open | InProgress | Done

  datatype Issue = Issue(
    id: string, projectId: string, title: string, status: Status, createdAt: string, updatedAt: string,
    updatedBy: Option<string>)

  datatype Event =
    | ProjectCreated(projectId: string, name: string, description: string, at: string, txid: string)
    | IssueCreated(issueId: string, projectId: string, title: string, status: Status, updatedBy: Option<string>,
                   at: string, txid: string)
    | IssueRenamed(issueId: string, title: string, updatedBy: Option<string>, at: string, txid: string)
    | IssueStatusChanged(issueId: string, status: Status, updatedBy: Option<string>, at: string, txid: string)
    | CommentAdded(commentId: string, issueId: string, author: string, body: string, at: string, txid: string)

  datatype View = View(projectIds: seq<string>, issues: map<string, Issue>)

  const EmptyView := View([], map[])

  datatype Stamp = Stamp(id: string, now: string, txid: string)

  /** `Partial<Issue>`: the fields that a request gives. */
  datatype Input = Input(
    id: Option<string>, projectId: Option<string>, title: Option<string>, status: Option<Status>,
    updatedBy: Option<string>)

  datatype Command =
    | Seed(stamp: Stamp, texts: SeedTexts)
    | CreateProject(id: Option<string>, name: Option<string>, description: Option<string>, stamp: Stamp)
    | CreateIssue(input: Input, stamp: Stamp)
    | UpdateIssue(issueId: string, input: Input, stamp: Stamp)
    | CreateComment(id: Option<string>, target: Option<string>, author: Option<string>, body: Option<string>, stamp: Stamp)

  datatype Refusal =
    | UnknownReference(field: string, id: string)
    | IssueNotFound(issueId: string)
    | TooManyInProgress(projectId: string, limit: nat)
    | NothingToChange(issueId: string)

  // ---- The fold ------------------------------------------------------------------------------------

  predicate IsIssueEvent(e: Event) { e.IssueCreated? || e.IssueRenamed? || e.IssueStatusChanged? }

  /** `issueAfter`: a create makes the row whatever was there; an edit needs a row. */
  function IssueAfter(previous: Option<Issue>, e: Event): Option<Issue> {
    match e
    case ProjectCreated(_, _, _, _, _) => previous
    case CommentAdded(_, _, _, _, _, _) => previous
    case IssueCreated(id, projectId, title, status, updatedBy, at, _) =>
      Some(Issue(id, projectId, title, status, at, at, updatedBy))
    case IssueRenamed(_, title, updatedBy, at, _) =>
      if previous.None? then None
      else Some(previous.value.(title := title, updatedAt := at, updatedBy := updatedBy))
    case IssueStatusChanged(_, status, updatedBy, at, _) =>
      if previous.None? then None
      else Some(previous.value.(status := status, updatedAt := at, updatedBy := updatedBy))
  }

  function FindIssue(view: View, id: string): Option<Issue> {
    if id in view.issues then Some(view.issues[id]) else None
  }

  /** `applyEvent` */
  function ApplyEvent(view: View, e: Event): View {
    if e.ProjectCreated? then View(view.projectIds + [e.projectId], view.issues)
    else if e.CommentAdded? then view
    else
      var row := IssueAfter(FindIssue(view, e.issueId), e);
      if row.None? then view else View(view.projectIds, view.issues[row.value.id := row.value])
  }

  function ViewOf(log: seq<Event>): View { Fold(EmptyView, ApplyEvent, log) }

  function InProgressIds(view: View, projectId: string): set<string> {
    set id | id in view.issues && view.issues[id].projectId == projectId && view.issues[id].status == InProgress
  }

  /** `countInProgress` */
  function CountInProgress(view: View, projectId: string): nat { |InProgressIds(view, projectId)| }

  // ---- The decisions ----------------------------------------------------------------------------------

  /** `startsWork`: this write would start work in a full project. */
  predicate StartsWork(view: View, previous: Option<Issue>, status: Status, projectId: string) {
    status == InProgress && !(previous.Some? && previous.value.status == InProgress)
    && CountInProgress(view, projectId) >= WIP_LIMIT
  }

  /** The trimmed writer, if anything is left of it. */
  function Writer(name: Option<string>): Option<string> {
    if name.Some? && Trim(name.value) != "" then Some(Trim(name.value)) else None
  }

  function IssueCreatedOf(input: Input, stamp: Stamp): Event {
    IssueCreated(input.id.GetOr(stamp.id), input.projectId.GetOr(""), Trim(input.title.GetOr("Untitled issue")),
                 input.status.GetOr(Open), Writer(input.updatedBy), stamp.now, stamp.txid)
  }

  /** The events of an accepted command and, for issue commands, the row it answers with. */
  datatype Decision = Decision(events: seq<Event>, row: Option<Issue>)

  function RowAfter(previous: Option<Issue>, events: seq<Event>): Option<Issue> {
    Fold(previous, IssueAfter, events)
  }

  /** A patch with a title renames, a patch with a status moves, a patch with both does both in that order. */
  function UpdateEvents(issueId: string, input: Input, stamp: Stamp): seq<Event> {
    (if input.title.Some?
     then [IssueRenamed(issueId, Trim(input.title.value), Writer(input.updatedBy), stamp.now, stamp.txid)]
     else []) +
    (if input.status.Some?
     then [IssueStatusChanged(issueId, input.status.value, Writer(input.updatedBy), stamp.now, stamp.txid)]
     else [])
  }

  /** The edits of one issue: no create among them. */
  ghost predicate Edits(events: seq<Event>, issueId: string) {
    forall i :: 0 <= i < |events| ==>
      (events[i].IssueRenamed? || events[i].IssueStatusChanged?) && events[i].issueId == issueId
  }

  lemma {:induction false} UpdateEventsEdit(issueId: string, input: Input, stamp: Stamp)
    ensures Edits(UpdateEvents(issueId, input, stamp), issueId)
  {
  }

  function SeedIssue(stamp: Stamp, id: string, projectId: string, title: string, status: Status): Event {
    IssueCreated(id, projectId, title, status, None, stamp.now, stamp.txid)
  }

  /** Display texts of the seed, which no rule reads. */
  datatype SeedTexts = SeedTexts(demo: string, demoText: string, docs: string, docsText: string, titles: seq<string>, comment: string)

  const STREAMSY := "proj_streamsy"
  const DOCS := "proj_docs"

  /** `mainWorkspaceSeed`: the demo project starts one below the limit. */
  function SeedEvents(stamp: Stamp, texts: SeedTexts): seq<Event>
    requires |texts.titles| == 5
  {
    [ ProjectCreated(STREAMSY, texts.demo, texts.demoText, stamp.now, stamp.txid),
      ProjectCreated(DOCS, texts.docs, texts.docsText, stamp.now, stamp.txid),
      SeedIssue(stamp, "issue_bootstrap", STREAMSY, texts.titles[0], Done),
      SeedIssue(stamp, "issue_optimistic", STREAMSY, texts.titles[1], InProgress),
      SeedIssue(stamp, "issue_filters", STREAMSY, texts.titles[2], InProgress),
      SeedIssue(stamp, "issue_names", STREAMSY, texts.titles[3], Open),
      SeedIssue(stamp, "issue_article", DOCS, texts.titles[4], Open),
      CommentAdded("comment_welcome", "issue_bootstrap", "demo-server", texts.comment, stamp.now, stamp.txid) ]
  }

  /** The boot step seeds only a workspace that has no projects. */
  function DecideSeed(view: View, stamp: Stamp, texts: SeedTexts): seq<Event> {
    if |view.projectIds| > 0 || |texts.titles| != 5 then [] else SeedEvents(stamp, texts)
  }

  function DecideCreate(view: View, input: Input, stamp: Stamp): Result<Decision, Refusal> {
    var created := IssueCreatedOf(input, stamp);
    if created.projectId !in view.projectIds then Err(UnknownReference("projectId", created.projectId))
    else if StartsWork(view, None, created.status, created.projectId)
    then Err(TooManyInProgress(created.projectId, WIP_LIMIT))
    else Ok(Decision([created], RowAfter(None, [created])))
  }

  function DecideUpdate(view: View, issueId: string, input: Input, stamp: Stamp): Result<Decision, Refusal> {
    var previous := FindIssue(view, issueId);
    var events := UpdateEvents(issueId, input, stamp);
    if previous.None? then Err(IssueNotFound(issueId))
    else if input.status.Some? && StartsWork(view, previous, input.status.value, previous.value.projectId)
    then Err(TooManyInProgress(previous.value.projectId, WIP_LIMIT))
    else if events == [] then Err(NothingToChange(issueId))
    else Ok(Decision(events, RowAfter(previous, events)))
  }

  function DecideComment(view: View, id: Option<string>, on: Option<string>, author: Option<string>,
                         body: Option<string>, stamp: Stamp): Result<Decision, Refusal>
  {
    var target, name := on.GetOr(""), Trim(author.GetOr(""));
    if FindIssue(view, target).None? then Err(UnknownReference("issueId", target))
    else Ok(Decision([CommentAdded(id.GetOr(stamp.id), target, if name == "" then "anonymous" else name,
                                   Trim(body.GetOr("")), stamp.now, stamp.txid)], None))
  }

  function DecideCommand(view: View, command: Command): Result<Decision, Refusal> {
    match command
    case Seed(stamp, texts) => Ok(Decision(DecideSeed(view, stamp, texts), None))
    case CreateProject(id, name, description, stamp) =>
      Ok(Decision([ProjectCreated(id.GetOr(stamp.id), Trim(name.GetOr("Untitled project")), Trim(description.GetOr("")),
                                  stamp.now, stamp.txid)], None))
    case CreateIssue(input, stamp) => DecideCreate(view, input, stamp)
    case UpdateIssue(issueId, input, stamp) => DecideUpdate(view, issueId, input, stamp)
    case CreateComment(id, on, author, body, stamp) => DecideComment(view, id, on, author, body, stamp)
  }

  /** `updateIssue` collects its events in a local list, rename first. */
  method UpdateIssueLoop(view: View, issueId: string, input: Input, stamp: Stamp) returns (r: Result<Decision, Refusal>)
    ensures r == DecideUpdate(view, issueId, input, stamp)
  {
    var previous := FindIssue(view, issueId);
    if previous.None? { return Err(IssueNotFound(issueId)); }
    var editor := Writer(input.updatedBy);
    var events: seq<Event> := [];
    if input.title.Some? {
      events := events + [IssueRenamed(issueId, Trim(input.title.value), editor, stamp.now, stamp.txid)];
    }
    if input.status.Some? {
      if StartsWork(view, previous, input.status.value, previous.value.projectId) {
        return Err(TooManyInProgress(previous.value.projectId, WIP_LIMIT));
      }
      events := events + [IssueStatusChanged(issueId, input.status.value, editor, stamp.now, stamp.txid)];
    }
    assert events == UpdateEvents(issueId, input, stamp);
    if events == [] { return Err(NothingToChange(issueId)); }
    UpdateEventsEdit(issueId, input, stamp);
    return Ok(Decision(events, RowAfter(previous, events)));
  }

  /** A refused command is an answer at the head that was read and appends nothing. */
  function Items(command: Command, view: View): seq<Event> {
    var decision := DecideCommand(view, command);
    if decision.Ok? then decision.value.events else []
  }

  function TrackerSpec(commands: nat -> Command): D.Spec<View, Event> {
    D.Spec(EmptyView, ApplyEvent, (c: nat) => (view: View) => Items(commands(c), view))
  }

  // ---- Invariants -------------------------------------------------------------------------------------------

  /** Rows sit under their own id in a known project, and no project is over the limit. */
  ghost predicate ViewOk(view: View) {
    && (forall id :: id in view.issues ==> view.issues[id].id == id && view.issues[id].projectId in view.projectIds)
    && (forall p :: CountInProgress(view, p) <= WIP_LIMIT)
  }

  /** What one event does to a project's work in progress. */
  lemma {:induction false} EventEffect(view: View, e: Event, p: string)
    requires ViewOk(view)
    requires e.IssueCreated? ==> e.projectId in view.projectIds
    ensures var next := ApplyEvent(view, e);
      InProgressIds(next, p) ==
        if !IsIssueEvent(e) || (FindIssue(view, e.issueId).None? && !e.IssueCreated?) then InProgressIds(view, p)
        else
          var row := IssueAfter(FindIssue(view, e.issueId), e).value;
          if row.projectId == p && row.status == InProgress then InProgressIds(view, p) + {e.issueId}
          else InProgressIds(view, p) - {e.issueId}
    ensures forall id :: id in ApplyEvent(view, e).issues ==>
      ApplyEvent(view, e).issues[id].id == id && ApplyEvent(view, e).issues[id].projectId in ApplyEvent(view, e).projectIds
  {
  }

  lemma {:induction false} SetGrowsByOne(s: set<string>, x: string)
    ensures |s + {x}| == if x in s then |s| else |s| + 1
    ensures |s - {x}| <= |s|
  {
    if x in s { assert s + {x} == s; }
    if x in s { assert s == (s - {x}) + {x}; } else { assert s - {x} == s; }
  }

  /** An event that starts no work in a full project keeps every project within the limit. */
  lemma {:induction false} EventKeepsLimit(view: View, e: Event)
    requires ViewOk(view)
    requires e.IssueCreated? ==> e.projectId in view.projectIds && !StartsWork(view, None, e.status, e.projectId)
    requires e.IssueStatusChanged? && e.issueId in view.issues ==>
      !StartsWork(view, FindIssue(view, e.issueId), e.status, view.issues[e.issueId].projectId)
    ensures ViewOk(ApplyEvent(view, e))
  {
    var next := ApplyEvent(view, e);
    forall p ensures CountInProgress(next, p) <= WIP_LIMIT {
      EventEffect(view, e, p);
      assert CountInProgress(view, p) <= WIP_LIMIT;
      if IsIssueEvent(e) {
        SetGrowsByOne(InProgressIds(view, p), e.issueId);
        var row := IssueAfter(FindIssue(view, e.issueId), e);
        if row.Some? && row.value.projectId == p && row.value.status == InProgress && !e.IssueCreated?
           && view.issues[e.issueId].status == InProgress {
          assert e.issueId in InProgressIds(view, p);
        }
      }
    }
    EventEffect(view, e, "");
  }

  lemma {:induction false} RenameKeepsWork(view: View, e: Event, p: string)
    requires ViewOk(view) && e.IssueRenamed? && e.issueId in view.issues
    ensures InProgressIds(ApplyEvent(view, e), p) == InProgressIds(view, p)
  {
  }

  lemma {:induction false} RunTwo(view: View, a: Event, b: Event)
    ensures Fold(view, ApplyEvent, [a, b]) == ApplyEvent(ApplyEvent(view, a), b)
    ensures Fold(view, ApplyEvent, [a]) == ApplyEvent(view, a)
  {
    assert [a, b] == [a] + [b] && [a] == [] + [a];
    FoldSnoc(view, ApplyEvent, [a], b);
    FoldSnoc(view, ApplyEvent, [], a);
  }

  lemma {:induction false} UpdateKeepsLimit(view: View, issueId: string, input: Input, stamp: Stamp)
    requires ViewOk(view) && DecideUpdate(view, issueId, input, stamp).Ok?
    ensures ViewOk(Fold(view, ApplyEvent, UpdateEvents(issueId, input, stamp)))
  {
    var events := UpdateEvents(issueId, input, stamp);
    if input.title.Some? && input.status.Some? {
      assert events == [events[0], events[1]];
      RunTwo(view, events[0], events[1]);
      EventKeepsLimit(view, events[0]);
      RenameKeepsWork(view, events[0], view.issues[issueId].projectId);
      EventKeepsLimit(ApplyEvent(view, events[0]), events[1]);
    } else {
      assert events == [events[0]];
      RunTwo(view, events[0], events[0]);
      EventKeepsLimit(view, events[0]);
    }
  }

  /** The seed lands only in a workspace without projects, so without issues: it starts two issues. */
  lemma {:induction false} SeedKeepsLimit(view: View, stamp: Stamp, texts: SeedTexts)
    requires ViewOk(view) && view.projectIds == [] && |texts.titles| == 5
    ensures ViewOk(Fold(view, ApplyEvent, SeedEvents(stamp, texts)))
  {
    var events := SeedEvents(stamp, texts);
    assert view.issues == map[];
    SeedPrefix(view, events, |events|);
    assert events[..|events|] == events;
  }

  /** Two projects first, then issues in them, of which at most two start in progress. */
  ghost predicate SeedShape(events: seq<Event>) {
    && |events| == 8
    && events[0].ProjectCreated? && events[0].projectId == STREAMSY
    && events[1].ProjectCreated? && events[1].projectId == DOCS
    && (forall i :: 2 <= i < 7 ==> events[i].IssueCreated? && events[i].projectId in [STREAMSY, DOCS])
    && (forall i :: 2 <= i < 7 && i != 3 && i != 4 ==> events[i].status != InProgress)
    && events[7].CommentAdded?
  }

  /** Along the seed at most two issues are in progress. */
  /** What holds after the first `n` events of the seed. */
  ghost predicate SeedOk(now: View, n: nat) {
    && ViewOk(now)
    && (n > 0 ==> STREAMSY in now.projectIds) && (n > 1 ==> DOCS in now.projectIds)
    && (forall p :: CountInProgress(now, p) <= if n <= 3 then 0 else if n == 4 then 1 else 2)
  }

  lemma {:induction false} SeedPrefix(view: View, events: seq<Event>, n: nat)
    requires view == EmptyView && SeedShape(events) && n <= 8
    ensures SeedOk(Fold(view, ApplyEvent, events[..n]), n)
  {
    if n == 0 {
      assert events[..0] == [];
      forall p ensures CountInProgress(view, p) == 0 { assert InProgressIds(view, p) == {}; }
    } else {
      var before := Fold(view, ApplyEvent, events[..n - 1]);
      assert Fold(view, ApplyEvent, events[..n]) == ApplyEvent(before, events[n - 1]) by {
        assert events[..n] == events[..n - 1] + [events[n - 1]];
        FoldSnoc(view, ApplyEvent, events[..n - 1], events[n - 1]);
      }
      SeedPrefix(view, events, n - 1);
      SeedPrefixStep(before, events, n);
    }
  }

  lemma {:induction false} SeedPrefixStep(before: View, events: seq<Event>, n: nat)
    requires SeedShape(events) && 1 <= n <= 8 && SeedOk(before, n - 1)
    ensures SeedOk(ApplyEvent(before, events[n - 1]), n)
  {
    SeedStep(before, events[n - 1], if n <= 4 then 0 else if n == 5 then 1 else 2);
  }

  lemma {:induction false} SeedStep(view: View, e: Event, most: nat)
    requires ViewOk(view) && most <= 2 && forall p :: CountInProgress(view, p) <= most
    requires e.IssueCreated? ==> e.projectId in view.projectIds
    requires e.ProjectCreated? || e.CommentAdded? || e.IssueCreated?
    ensures ViewOk(ApplyEvent(view, e))
    ensures var more := if e.IssueCreated? && e.status == InProgress then 1 else 0;
      forall p :: CountInProgress(ApplyEvent(view, e), p) <= most + more
  {
    EventKeepsLimit(view, e);
    forall p ensures CountInProgress(ApplyEvent(view, e), p)
      <= most + (if e.IssueCreated? && e.status == InProgress then 1 else 0)
    {
      EventEffect(view, e, p);
      assert CountInProgress(view, p) <= most;
      if e.IssueCreated? { SetGrowsByOne(InProgressIds(view, p), e.issueId); }
    }
  }

  /** Whatever a command decides on a legal view, its events lead to a legal view. */
  lemma {:induction false} DecisionKeepsLimit(view: View, command: Command)
    requires ViewOk(view)
    ensures ViewOk(Fold(view, ApplyEvent, Items(command, view)))
  {
    var items := Items(command, view);
    if items != [] {
      match command
      case Seed(stamp, texts) => SeedKeepsLimit(view, stamp, texts);
      case UpdateIssue(issueId, input, stamp) => UpdateKeepsLimit(view, issueId, input, stamp);
      case CreateProject(_, _, _, _) => OneEvent(view, items[0]);
      case CreateIssue(_, _) => OneEvent(view, items[0]);
      case CreateComment(_, _, _, _, _) => OneEvent(view, items[0]);
    }
  }

  lemma {:induction false} OneEvent(view: View, e: Event)
    requires ViewOk(view)
    requires e.IssueCreated? ==> e.projectId in view.projectIds && !StartsWork(view, None, e.status, e.projectId)
    requires !e.IssueStatusChanged? && !e.IssueRenamed?
    ensures ViewOk(Fold(view, ApplyEvent, [e]))
  {
    EventKeepsLimit(view, e);
    RunTwo(view, e, e);
  }

  lemma {:induction false} EmptyIsLegal()
    ensures ViewOk(EmptyView)
  {
    forall p ensures CountInProgress(EmptyView, p) == 0 { assert InProgressIds(EmptyView, p) == {}; }
  }

  /** One decided append on a log with a legal view. */
  lemma {:induction false} AppendKeepsLimit(log: seq<Event>, command: Command, items: seq<Event>)
    requires ViewOk(ViewOf(log)) && items == Items(command, ViewOf(log))
    ensures ViewOk(ViewOf(log + items))
  {
    DecisionKeepsLimit(ViewOf(log), command);
    FoldConcat(EmptyView, ApplyEvent, log, items);
  }

  /**
   * In every log that the seed and commands build, at any interleaving of any number of
   * callers, no project has more than the limit of issues in progress. Reused issue ids and
   * moves between projects are included.
   */
  lemma {:induction false} WorkInProgressLimit(commands: nat -> Command, events: seq<D.Event<Event>>, p: string)
    requires forall i :: 0 <= i < |events| ==> !events[i].External?
    ensures CountInProgress(ViewOf(D.Run(TrackerSpec(commands), events).log), p) <= WIP_LIMIT
  {
    var spec, sys := TrackerSpec(commands), D.Run(TrackerSpec(commands), events);
    var good := (log: seq<Event>) => ViewOk(ViewOf(log));
    D.EveryAppendSawTheWholeLog(spec, events);
    OnlyDecided(commands, events);
    EmptyIsLegal();
    forall before: seq<Event>, c: nat | good(before)
      ensures good(D.AfterDecision(spec, c, before))
    {
      AppendKeepsLimit(before, commands(c), Items(commands(c), ViewOf(before)));
    }
    forall m: nat | m < |sys.commits| ensures D.DecidedAt(spec, sys.commits, m) {
      D.LinearIsDecided(spec, sys.log, sys.commits, m);
    }
    D.DecidedLogKeeps(spec, sys.commits, good, |sys.commits|);
    assert good(sys.log);
  }

  ghost predicate AllDecided(commits: seq<D.Commit<Event>>) {
    forall i :: 0 <= i < |commits| ==> commits[i].author.Some?
  }

  lemma {:induction false} OnlyDecided(commands: nat -> Command, events: seq<D.Event<Event>>)
    requires forall i :: 0 <= i < |events| ==> !events[i].External?
    ensures AllDecided(D.Run(TrackerSpec(commands), events).commits)
  {
    if events != [] {
      var front, event := events[..|events| - 1], events[|events| - 1];
      assert forall i :: 0 <= i < |front| ==> front[i] == events[i];
      OnlyDecided(commands, front);
      var before := D.Run(TrackerSpec(commands), front);
      D.StepCommits(TrackerSpec(commands), before, event);
      StillDecided(before.commits, D.Run(TrackerSpec(commands), events).commits);
    }
  }

  lemma {:induction false} StillDecided(before: seq<D.Commit<Event>>, next: seq<D.Commit<Event>>)
    requires AllDecided(before)
    requires next == before
          || (|next| == |before| + 1 && next[..|before|] == before && next[|before|].author.Some?)
    ensures AllDecided(next)
  {
    forall i | 0 <= i < |next| ensures next[i].author.Some? {
      if i < |before| && next != before { assert next[i] == next[..|before|][i]; }
    }
  }

  // ---- Answers and refusals ----------------------------------------------------------------------------------

  /** An edit answers with the row that the log then holds. */
  lemma {:induction false} UpdateAnswersTheRow(view: View, issueId: string, input: Input, stamp: Stamp)
    requires ViewOk(view) && DecideUpdate(view, issueId, input, stamp).Ok?
    ensures var decision := DecideUpdate(view, issueId, input, stamp).value;
      decision.row.Some? && FindIssue(Fold(view, ApplyEvent, decision.events), issueId) == decision.row
  {
    UpdateEventsEdit(issueId, input, stamp);
    RowFollows(view, issueId, UpdateEvents(issueId, input, stamp));
  }

  lemma {:induction false} RowFollows(view: View, id: string, events: seq<Event>)
    requires id in view.issues && view.issues[id].id == id && Edits(events, id)
    ensures RowAfter(FindIssue(view, id), events).Some? && RowAfter(FindIssue(view, id), events).value.id == id
    ensures FindIssue(Fold(view, ApplyEvent, events), id) == RowAfter(FindIssue(view, id), events)
  {
    if events != [] { RowFollows(view, id, events[..|events| - 1]); }
  }

  lemma {:induction false} StatusEffect(view: View, e: Event, p: string)
    requires ViewOk(view) && e.IssueStatusChanged? && e.status == InProgress
    requires e.issueId in view.issues && view.issues[e.issueId].projectId == p
    ensures CountInProgress(ApplyEvent(view, e), p)
         == CountInProgress(view, p) + (if view.issues[e.issueId].status == InProgress then 0 else 1)
  {
    EventEffect(view, e, p);
    SetGrowsByOne(InProgressIds(view, p), e.issueId);
  }

  /** An edit of an issue is refused for too much work exactly when it would put its project over the limit. */
  lemma {:induction false} UpdateRefusedIffOverLimit(view: View, issueId: string, input: Input, stamp: Stamp)
    requires ViewOk(view) && issueId in view.issues
    ensures var p := view.issues[issueId].projectId;
      DecideUpdate(view, issueId, input, stamp) == Err(TooManyInProgress(p, WIP_LIMIT))
      <==> CountInProgress(Fold(view, ApplyEvent, UpdateEvents(issueId, input, stamp)), p) > WIP_LIMIT
  {
    var p := view.issues[issueId].projectId;
    var events := UpdateEvents(issueId, input, stamp);
    if DecideUpdate(view, issueId, input, stamp).Ok? {
      UpdateKeepsLimit(view, issueId, input, stamp);
    } else if input.status.Some? && input.title.Some? {
      assert events == [events[0], events[1]];
      RunTwo(view, events[0], events[1]);
      EventKeepsLimit(view, events[0]);
      RenameKeepsWork(view, events[0], p);
      StatusEffect(ApplyEvent(view, events[0]), events[1], p);
    } else if input.status.Some? {
      assert events == [events[0]];
      RunTwo(view, events[0], events[0]);
      StatusEffect(view, events[0], p);
    }
  }

  /**
   * A create in a known project is refused when it would put the project over the limit, and
   * also when it re-creates an issue that is already in progress in that full project.
   */
  lemma {:induction false} CreateRefusedWhen(view: View, input: Input, stamp: Stamp)
    requires ViewOk(view) && IssueCreatedOf(input, stamp).projectId in view.projectIds
    ensures var created := IssueCreatedOf(input, stamp);
      DecideCreate(view, input, stamp).Err?
      <==> (CountInProgress(ApplyEvent(view, created), created.projectId) > WIP_LIMIT
            || (created.status == InProgress && CountInProgress(view, created.projectId) == WIP_LIMIT
                && created.issueId in InProgressIds(view, created.projectId)))
  {
    CreateEffect(view, IssueCreatedOf(input, stamp));
  }

  lemma {:induction false} CreateEffect(view: View, e: Event)
    requires ViewOk(view) && e.IssueCreated? && e.projectId in view.projectIds
    ensures var ids := InProgressIds(view, e.projectId);
      CountInProgress(ApplyEvent(view, e), e.projectId) > WIP_LIMIT
      <==> e.status == InProgress && |ids| == WIP_LIMIT && e.issueId !in ids
  {
    EventEffect(view, e, e.projectId);
    assert CountInProgress(view, e.projectId) <= WIP_LIMIT;
    SetGrowsByOne(InProgressIds(view, e.projectId), e.issueId);
  }

  // ---- A refused create that would not raise the count ---------------------------------------------------

  /** The issues that the first `n` seed events leave in progress. */
  function SeedWork(n: nat): set<string> {
    if n <= 3 then {} else if n == 4 then {"issue_optimistic"} else {"issue_optimistic", "issue_filters"}
  }

  lemma {:induction false} SeedIds()
    ensures |"issue_bootstrap"| == 15 && |"issue_optimistic"| == 16 && |"issue_filters"| == 13
    ensures |"issue_names"| == 11 && |"issue_article"| == 13 && "issue_filters" != "issue_article"
  {
    assert "issue_filters"[6] != "issue_article"[6];
  }

  /** Which seed issues start in progress, and that no later one reuses their ids. */
  ghost predicate SeedStatuses(events: seq<Event>)
    requires SeedShape(events)
  {
    && events[2].status == Done && events[3].status == InProgress == events[4].status
    && events[5].status == Open == events[6].status
    && events[3].projectId == STREAMSY == events[4].projectId
    && SeedWork(4) == {events[3].issueId} && SeedWork(5) == {events[3].issueId, events[4].issueId}
    && events[5].issueId !in SeedWork(5) && events[6].issueId !in SeedWork(5)
  }

  lemma {:induction false} SeedHasStatuses(stamp: Stamp, texts: SeedTexts)
    requires |texts.titles| == 5
    ensures SeedShape(SeedEvents(stamp, texts)) && SeedStatuses(SeedEvents(stamp, texts))
  {
    SeedIds();
  }

  lemma {:induction false} SeedWorkAt(events: seq<Event>, n: nat)
    requires SeedShape(events) && SeedStatuses(events) && n <= 8
    ensures InProgressIds(ViewOf(events[..n]), STREAMSY) == SeedWork(n)
  {
    if n == 0 {
      assert events[..0] == [];
    } else {
      var before := ViewOf(events[..n - 1]);
      assert ViewOf(events[..n]) == ApplyEvent(before, events[n - 1]) by {
        assert events[..n] == events[..n - 1] + [events[n - 1]];
        FoldSnoc(EmptyView, ApplyEvent, events[..n - 1], events[n - 1]);
      }
      SeedWorkAt(events, n - 1);
      SeedPrefix(EmptyView, events, n - 1);
      SeedWorkStep(before, events, n);
    }
  }

  lemma {:induction false} SeedWorkStep(view: View, events: seq<Event>, n: nat)
    requires 1 <= n <= 8 && SeedShape(events) && SeedStatuses(events) && SeedOk(view, n - 1)
    requires InProgressIds(view, STREAMSY) == SeedWork(n - 1)
    ensures InProgressIds(ApplyEvent(view, events[n - 1]), STREAMSY) == SeedWork(n)
  {
    EventEffect(view, events[n - 1], STREAMSY);
  }

  /** After the seed two issues of the demo project are in progress. */
  lemma {:induction false} SeededWork(stamp: Stamp, texts: SeedTexts)
    requires |texts.titles| == 5
    ensures var view := ViewOf(SeedEvents(stamp, texts));
      && ViewOk(view) && STREAMSY in view.projectIds
      && InProgressIds(view, STREAMSY) == SeedWork(8)
  {
    var events := SeedEvents(stamp, texts);
    SeedHasStatuses(stamp, texts);
    SeedWorkAt(events, 8);
    SeedPrefix(EmptyView, events, 8);
    assert events[..8] == events;
  }

  /** A request for a third issue in progress in the demo project. */
  const THIRD := Input(Some("third"), Some(STREAMSY), None, Some(InProgress), None)

  lemma {:induction false} ThirdIsNew()
    ensures |SeedWork(8)| == 2 && "third" !in SeedWork(8)
  {
    SeedIds();
    assert |"third"| == 5;
    assert SeedWork(8) == SeedWork(4) + {"issue_filters"};
  }

  lemma {:induction false} ThirdFills(view: View, stamp: Stamp)
    requires ViewOk(view) && STREAMSY in view.projectIds
    requires InProgressIds(view, STREAMSY) == SeedWork(8)
    ensures Items(CreateIssue(THIRD, stamp), view) == [IssueCreatedOf(THIRD, stamp)]
    ensures Full(ApplyEvent(view, IssueCreatedOf(THIRD, stamp)), "third", STREAMSY)
  {
    ThirdIsNew();
    CreateFills(view, THIRD, stamp, "third", STREAMSY);
  }

  /** The project is at the limit, and this issue is one of those in progress. */
  ghost predicate Full(view: View, id: string, p: string) {
    ViewOk(view) && p in view.projectIds && CountInProgress(view, p) == WIP_LIMIT && id in InProgressIds(view, p)
  }

  lemma {:induction false} CreateFills(view: View, input: Input, stamp: Stamp, id: string, p: string)
    requires ViewOk(view) && p in view.projectIds && CountInProgress(view, p) == WIP_LIMIT - 1
    requires input.id == Some(id) && input.projectId == Some(p) && input.status == Some(InProgress)
    requires id !in InProgressIds(view, p)
    ensures Items(CreateIssue(input, stamp), view) == [IssueCreatedOf(input, stamp)]
    ensures Full(ApplyEvent(view, IssueCreatedOf(input, stamp)), id, p)
  {
    StartFills(view, IssueCreatedOf(input, stamp), p);
  }

  /** A new issue that starts in progress in a project one below the limit fills the project. */
  lemma {:induction false} StartFills(view: View, e: Event, p: string)
    requires ViewOk(view) && p in view.projectIds && CountInProgress(view, p) == WIP_LIMIT - 1
    requires e.IssueCreated? && e.projectId == p && e.status == InProgress && e.issueId !in InProgressIds(view, p)
    ensures Full(ApplyEvent(view, e), e.issueId, p)
  {
    EventEffect(view, e, p);
    SetGrowsByOne(InProgressIds(view, p), e.issueId);
    EventKeepsLimit(view, e);
  }

  /**
   * From the seed a third issue is started and then created again. The second create is refused for too much
   * work, although it would leave as many issues in progress as there are.
   */
  lemma {:induction false} RecreateIsRefused(stamp: Stamp, texts: SeedTexts, commands: nat -> Command)
    returns (events: seq<D.Event<Event>>)
    requires |texts.titles| == 5 && commands(0) == Seed(stamp, texts) && commands(1) == CreateIssue(THIRD, stamp)
    ensures var view := ViewOf(D.Run(TrackerSpec(commands), events).log);
      && CountInProgress(view, STREAMSY) == WIP_LIMIT
      && DecideCommand(view, CreateIssue(THIRD, stamp)) == Err(TooManyInProgress(STREAMSY, WIP_LIMIT))
      && CountInProgress(ApplyEvent(view, IssueCreatedOf(THIRD, stamp)), STREAMSY) == WIP_LIMIT
  {
    var spec, seeded := TrackerSpec(commands), SeedEvents(stamp, texts);
    var first := D.CallAlone(spec, [], 0);
    assert D.Run(spec, first).log == [] + seeded == seeded by {
      assert spec.rule(0)(ViewOf([])) == seeded;
    }
    events := D.CallAlone(spec, first, 1);
    SeededWork(stamp, texts);
    ThirdFills(ViewOf(seeded), stamp);
    var created := IssueCreatedOf(THIRD, stamp);
    assert D.Run(spec, events).log == seeded + [created] by {
      assert spec.rule(1)(ViewOf(seeded)) == Items(commands(1), ViewOf(seeded));
    }
    FoldSnoc(EmptyView, ApplyEvent, seeded, created);
    RecreateChangesNothing(ApplyEvent(ViewOf(seeded), created), stamp);
  }

  lemma {:induction false} RecreateChangesNothing(full: View, stamp: Stamp)
    requires Full(full, "third", STREAMSY)
    ensures DecideCreate(full, THIRD, stamp) == Err(TooManyInProgress(STREAMSY, WIP_LIMIT))
    ensures CountInProgress(ApplyEvent(full, IssueCreatedOf(THIRD, stamp)), STREAMSY) == WIP_LIMIT
  {
    EventEffect(full, IssueCreatedOf(THIRD, stamp), STREAMSY);
    SetGrowsByOne(InProgressIds(full, STREAMSY), "third");
  }
}
