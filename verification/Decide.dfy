/**
 * Concurrent deciders over one append-only stream: `current`, `decide` and the checkpoint
 * store as a state machine (packages/projection/src/{current,decide,checkpoint-store}.ts).
 * A run is any sequence of events; an event that is not enabled stops it.
 */
module Decide {
  import opened Common

  /** How often a refused append is tried again. */
  const RETRIES := 3

  /** What a call of `decide` is doing. `start` is how many appends had landed when it began. */
  datatype Call<S, E> =
    | Folding(start: nat, tries: nat, offset: nat, state: S)
    | Appending(start: nat, tries: nat, mark: nat, offset: nat, state: S, items: seq<E>)
    | Unchanged(mark: nat, state: S)
    | Landed(mark: nat)
    | LostRace(start: nat)

  /** The stored record: its compare-and-set token, the accepted offset and the folded state. */
  datatype Checkpoint<S> = Checkpoint(token: nat, offset: nat, state: S)

  /** A follower that folds pages from a loaded record and saves with the loaded token. */
  datatype Runner<S> = Runner(token: nat, base: nat, offset: nat, state: S)

  /** One landed append. `author` is the deciding call, if `decide` made it. */
  datatype Commit<E> = Commit(author: Option<nat>, items: seq<E>)

  datatype System<S, E> = System(
    log: seq<E>, commits: seq<Commit<E>>, calls: map<nat, Call<S, E>>,
    checkpoint: Checkpoint<S>, runners: map<nat, Runner<S>>)

  datatype Event<E> =
    | Begin(call: nat)
    | ReadPage(call: nat, count: nat)
    | ReadTail(call: nat)
    | Append(call: nat)
    | External(items: seq<E>)
    | Load(runner: nat)
    | RunPage(runner: nat, count: nat)
    | Save(runner: nat)

  /** The projection and what each call decides from a state. No items means nothing to append. */
  datatype Spec<!S, !E> = Spec(init: S, step: (S, E) -> S, rule: nat -> S -> seq<E>)

  function Initial<S, E>(spec: Spec<S, E>): System<S, E> {
    System([], [], map[], Checkpoint(0, 0, spec.init), map[])
  }

  function Enabled<S, E>(sys: System<S, E>, event: Event<E>): bool {
    match event
    case Begin(c) => c !in sys.calls
    case ReadPage(c, n) =>
      c in sys.calls && sys.calls[c].Folding? && 1 <= n && sys.calls[c].offset + n <= |sys.log|
    case ReadTail(c) => c in sys.calls && sys.calls[c].Folding? && sys.calls[c].offset == |sys.log|
    case Append(c) => c in sys.calls && sys.calls[c].Appending?
    case External(items) => items != []
    case Load(r) => true
    case RunPage(r, n) => r in sys.runners && 1 <= n && sys.runners[r].offset + n <= |sys.log|
    case Save(r) => r in sys.runners
  }

  /** `restore`: the fold starts from the stored record. */
  function Restore<S, E>(sys: System<S, E>, start: nat, tries: nat): Call<S, E> {
    Folding(start, tries, sys.checkpoint.offset, sys.checkpoint.state)
  }

  function Step<S, E>(spec: Spec<S, E>, sys: System<S, E>, event: Event<E>): System<S, E> {
    if !Enabled(sys, event) then sys
    else match event
      case Begin(c) => sys.(calls := sys.calls[c := Restore(sys, |sys.commits|, 0)])
      case ReadPage(c, n) =>
        var call := sys.calls[c];
        var page := sys.log[call.offset..call.offset + n];
        sys.(calls := sys.calls[c := Folding(call.start, call.tries, call.offset + n, Fold(call.state, spec.step, page))])
      case ReadTail(c) =>
        // The empty page ends the fold; `decide` runs on this snapshot.
        var call := sys.calls[c];
        var items := spec.rule(c)(call.state);
        sys.(calls := sys.calls[c :=
          if items == [] then Unchanged(|sys.commits|, call.state)
          else Appending(call.start, call.tries, |sys.commits|, call.offset, call.state, items)])
      case Append(c) =>
        var call := sys.calls[c];
        if call.offset == |sys.log| then
          sys.(log := sys.log + call.items, commits := sys.commits + [Commit(Some(c), call.items)],
               calls := sys.calls[c := Landed(|sys.commits|)])
        else if call.tries < RETRIES then
          sys.(calls := sys.calls[c := Restore(sys, call.start, call.tries + 1)])
        else
          sys.(calls := sys.calls[c := LostRace(call.start)])
      case External(items) =>
        sys.(log := sys.log + items, commits := sys.commits + [Commit(None, items)])
      case Load(r) =>
        var record := sys.checkpoint;
        sys.(runners := sys.runners[r := Runner(record.token, record.offset, record.offset, record.state)])
      case RunPage(r, n) =>
        var runner := sys.runners[r];
        var page := sys.log[runner.offset..runner.offset + n];
        sys.(runners := sys.runners[r :=
          runner.(offset := runner.offset + n, state := Fold(runner.state, spec.step, page))])
      case Save(r) =>
        // `compareAndSet`: another writer's save in between makes this one fail.
        var runner := sys.runners[r];
        if runner.token != sys.checkpoint.token then sys.(runners := sys.runners - {r})
        else sys.(checkpoint := Checkpoint(runner.token + 1, runner.offset, runner.state),
                  runners := sys.runners - {r})
  }

  function Run<S, E>(spec: Spec<S, E>, events: seq<Event<E>>): System<S, E> {
    if events == [] then Initial(spec)
    else Step(spec, Run(spec, events[..|events| - 1]), events[|events| - 1])
  }

  /** The fold of the first `n` entries. */
  function At<S, E>(spec: Spec<S, E>, log: seq<E>, n: nat): S
    requires n <= |log|
  {
    Fold(spec.init, spec.step, log[..n])
  }

  /** The log as the appends left it after the first `m` of them. */
  function Before<E>(commits: seq<Commit<E>>, m: nat): seq<E>
    requires m <= |commits|
  {
    if m == 0 then [] else Before(commits, m - 1) + commits[m - 1].items
  }

  // ---- Invariants -------------------------------------------------------------------------

  /** The log is its appends, and every decided append follows from the whole log before it. */
  ghost predicate Linear<S, E>(spec: Spec<S, E>, log: seq<E>, commits: seq<Commit<E>>) {
    && log == Before(commits, |commits|)
    && (forall m: nat {:trigger Follows(spec, commits, m)} :: m < |commits| ==> Follows(spec, commits, m))
  }

  /** The append is not empty and, when decided, what the rule says of the log before it. */
  ghost predicate Follows<S, E>(spec: Spec<S, E>, commits: seq<Commit<E>>, m: nat)
    requires m < |commits|
  {
    && commits[m].items != []
    && (commits[m].author.Some? ==>
          commits[m].items == spec.rule(commits[m].author.value)(Fold(spec.init, spec.step, Before(commits, m))))
  }

  ghost predicate CallOk<S, E>(spec: Spec<S, E>, c: nat, log: seq<E>, commits: seq<Commit<E>>, call: Call<S, E>) {
    match call
    case Folding(start, tries, offset, state) =>
      && tries <= RETRIES && start + tries <= |commits|
      && offset <= |log| && state == At(spec, log, offset)
    case Appending(start, tries, mark, offset, state, items) =>
      && tries <= RETRIES && start + tries <= mark <= |commits|
      && offset == |Before(commits, mark)|
      && state == Fold(spec.init, spec.step, Before(commits, mark))
      && items != [] && items == spec.rule(c)(state)
    case Unchanged(mark, state) =>
      && mark <= |commits| && state == Fold(spec.init, spec.step, Before(commits, mark))
      && spec.rule(c)(state) == []
    case Landed(mark) => mark < |commits| && commits[mark].author == Some(c)
    case LostRace(start) => start + RETRIES + 1 <= |commits|
  }

  ghost predicate RunnerOk<S, E>(spec: Spec<S, E>, log: seq<E>, record: Checkpoint<S>, runner: Runner<S>) {
    && runner.token <= record.token
    && (runner.token == record.token ==> runner.base == record.offset)
    && runner.base <= runner.offset <= |log| && runner.state == At(spec, log, runner.offset)
  }

  ghost predicate Inv<S, E>(spec: Spec<S, E>, sys: System<S, E>) {
    && Linear(spec, sys.log, sys.commits)
    && sys.checkpoint.offset <= |sys.log| && sys.checkpoint.state == At(spec, sys.log, sys.checkpoint.offset)
    && (forall c :: c in sys.calls ==> CallOk(spec, c, sys.log, sys.commits, sys.calls[c]))
    && (forall r :: r in sys.runners ==> RunnerOk(spec, sys.log, sys.checkpoint, sys.runners[r]))
  }

  lemma {:induction false} BeforeExtends<E>(commits: seq<Commit<E>>, more: seq<Commit<E>>, m: nat)
    requires m <= |commits|
    ensures Before(commits + more, m) == Before(commits, m)
  {
    if m > 0 { BeforeExtends(commits, more, m - 1); }
  }

  lemma {:induction false} BeforeGrows<E>(commits: seq<Commit<E>>, m: nat)
    requires m <= |commits| && forall i :: 0 <= i < |commits| ==> commits[i].items != []
    ensures |Before(commits, m)| <= |Before(commits, |commits|)|
    ensures m < |commits| ==> |Before(commits, m)| < |Before(commits, |commits|)|
    decreases |commits| - m
  {
    if m < |commits| { BeforeGrows(commits, m + 1); }
  }

  /** Reading one more page keeps the fold equal to the fold of the log so far. */
  lemma {:induction false} PageFold<S, E>(spec: Spec<S, E>, log: seq<E>, offset: nat, n: nat)
    requires offset + n <= |log|
    ensures Fold(At(spec, log, offset), spec.step, log[offset..offset + n]) == At(spec, log, offset + n)
  {
    assert log[..offset] + log[offset..offset + n] == log[..offset + n];
    FoldConcat(spec.init, spec.step, log[..offset], log[offset..offset + n]);
  }

  lemma {:induction false} AtExtends<S, E>(spec: Spec<S, E>, log: seq<E>, more: seq<E>, n: nat)
    requires n <= |log|
    ensures At(spec, log + more, n) == At(spec, log, n)
  {
    assert (log + more)[..n] == log[..n];
  }

  lemma {:induction false} CallSurvives<S, E>(spec: Spec<S, E>, c: nat, log: seq<E>, commits: seq<Commit<E>>,
                                              call: Call<S, E>, commit: Commit<E>)
    requires CallOk(spec, c, log, commits, call)
    ensures CallOk(spec, c, log + commit.items, commits + [commit], call)
  {
    match call
    case Folding(_, _, offset, _) => AtExtends(spec, log, commit.items, offset);
    case Appending(_, _, mark, _, _, _) => BeforeExtends(commits, [commit], mark);
    case Unchanged(mark, _) => BeforeExtends(commits, [commit], mark);
    case Landed(mark) =>
    case LostRace(_) =>
  }

  lemma {:induction false} LinearAppend<S, E>(spec: Spec<S, E>, log: seq<E>, commits: seq<Commit<E>>, commit: Commit<E>)
    requires Linear(spec, log, commits) && commit.items != []
    requires commit.author.Some? ==> commit.items == spec.rule(commit.author.value)(Fold(spec.init, spec.step, log))
    ensures Linear(spec, log + commit.items, commits + [commit])
  {
    var all := commits + [commit];
    BeforeExtends(commits, [commit], |commits|);
    assert Before(all, |all|) == log + commit.items;
    forall m: nat | m < |all| ensures Follows(spec, all, m) {
      BeforeExtends(commits, [commit], m);
      if m < |commits| { assert Follows(spec, commits, m); }
    }
  }

  /** One append, decided or not, keeps the invariant of everything that is under way. */
  lemma {:induction false} AppendKeepsInv<S, E>(spec: Spec<S, E>, sys: System<S, E>, commit: Commit<E>)
    requires Inv(spec, sys) && commit.items != []
    requires commit.author.Some? ==> commit.items == spec.rule(commit.author.value)(Fold(spec.init, spec.step, sys.log))
    ensures Inv(spec, sys.(log := sys.log + commit.items, commits := sys.commits + [commit]))
  {
    LinearAppend(spec, sys.log, sys.commits, commit);
    AtExtends(spec, sys.log, commit.items, sys.checkpoint.offset);
    forall c | c in sys.calls
      ensures CallOk(spec, c, sys.log + commit.items, sys.commits + [commit], sys.calls[c])
    {
      CallSurvives(spec, c, sys.log, sys.commits, sys.calls[c], commit);
    }
    forall r | r in sys.runners
      ensures RunnerOk(spec, sys.log + commit.items, sys.checkpoint, sys.runners[r])
    {
      AtExtends(spec, sys.log, commit.items, sys.runners[r].offset);
    }
  }

  lemma {:induction false} CallUpdate<S, E>(spec: Spec<S, E>, sys: System<S, E>, c: nat, call: Call<S, E>)
    requires Inv(spec, sys) && CallOk(spec, c, sys.log, sys.commits, call)
    ensures Inv(spec, sys.(calls := sys.calls[c := call]))
  {
  }

  lemma {:induction false} RunnerUpdate<S, E>(spec: Spec<S, E>, sys: System<S, E>, r: nat, runner: Runner<S>)
    requires Inv(spec, sys) && RunnerOk(spec, sys.log, sys.checkpoint, runner)
    ensures Inv(spec, sys.(runners := sys.runners[r := runner]))
  {
  }

  lemma {:induction false} AppendStep<S, E>(spec: Spec<S, E>, sys: System<S, E>, c: nat)
    requires Inv(spec, sys) && Enabled(sys, Append(c))
    ensures Inv(spec, Step(spec, sys, Append(c)))
    ensures Step(spec, sys, Append(c)).log == sys.log <==> sys.calls[c].mark < |sys.commits|
  {
    var call := sys.calls[c];
    assert CallOk(spec, c, sys.log, sys.commits, call);
    forall m: nat | m < |sys.commits| ensures sys.commits[m].items != [] { assert Follows(spec, sys.commits, m); }
    BeforeGrows(sys.commits, call.mark);
    if call.offset == |sys.log| {
      var commit := Commit(Some(c), call.items);
      AppendKeepsInv(spec, sys, commit);
      var next := sys.(log := sys.log + call.items, commits := sys.commits + [commit]);
      CallUpdate(spec, next, c, Landed(|sys.commits|));
    } else if call.tries < RETRIES {
      CallUpdate(spec, sys, c, Restore(sys, call.start, call.tries + 1));
    } else {
      CallUpdate(spec, sys, c, LostRace(call.start));
    }
  }

  lemma {:induction false} SaveStep<S, E>(spec: Spec<S, E>, sys: System<S, E>, r: nat)
    requires Inv(spec, sys) && Enabled(sys, Save(r))
    ensures Inv(spec, Step(spec, sys, Save(r)))
    ensures sys.checkpoint.offset <= Step(spec, sys, Save(r)).checkpoint.offset
  {
    assert RunnerOk(spec, sys.log, sys.checkpoint, sys.runners[r]);
    var next := Step(spec, sys, Save(r));
    forall q | q in next.runners ensures RunnerOk(spec, next.log, next.checkpoint, next.runners[q]) {
      assert RunnerOk(spec, sys.log, sys.checkpoint, sys.runners[q]);
    }
  }

  lemma {:induction false} FoldingPage<S, E>(
      spec: Spec<S, E>, c: nat, log: seq<E>, commits: seq<Commit<E>>, call: Call<S, E>, n: nat)
    requires call.Folding? && CallOk(spec, c, log, commits, call) && call.offset + n <= |log|
    ensures CallOk(spec, c, log, commits,
      Folding(call.start, call.tries, call.offset + n, Fold(call.state, spec.step, log[call.offset..call.offset + n])))
  {
    PageFold(spec, log, call.offset, n);
  }

  lemma {:induction false} ReadPageStep<S, E>(spec: Spec<S, E>, sys: System<S, E>, c: nat, n: nat)
    requires Inv(spec, sys) && Enabled(sys, ReadPage(c, n))
    ensures Inv(spec, Step(spec, sys, ReadPage(c, n)))
  {
    var call := sys.calls[c];
    assert CallOk(spec, c, sys.log, sys.commits, call);
    FoldingPage(spec, c, sys.log, sys.commits, call, n);
    var page := sys.log[call.offset..call.offset + n];
    CallUpdate(spec, sys, c, Folding(call.start, call.tries, call.offset + n, Fold(call.state, spec.step, page)));
  }

  lemma {:induction false} ReadTailStep<S, E>(spec: Spec<S, E>, sys: System<S, E>, c: nat)
    requires Inv(spec, sys) && Enabled(sys, ReadTail(c))
    ensures Inv(spec, Step(spec, sys, ReadTail(c)))
  {
    assert sys.log[..|sys.log|] == sys.log;
    assert CallOk(spec, c, sys.log, sys.commits, sys.calls[c]);
    CallUpdate(spec, sys, c, Step(spec, sys, ReadTail(c)).calls[c]);
  }

  lemma {:induction false} RunPageStep<S, E>(spec: Spec<S, E>, sys: System<S, E>, r: nat, n: nat)
    requires Inv(spec, sys) && Enabled(sys, RunPage(r, n))
    ensures Inv(spec, Step(spec, sys, RunPage(r, n)))
  {
    var runner := sys.runners[r];
    assert RunnerOk(spec, sys.log, sys.checkpoint, runner);
    RunnerPage(spec, sys.log, sys.checkpoint, runner, n);
    var page := sys.log[runner.offset..runner.offset + n];
    RunnerUpdate(spec, sys, r, runner.(offset := runner.offset + n, state := Fold(runner.state, spec.step, page)));
  }

  lemma {:induction false} RunnerPage<S, E>(
      spec: Spec<S, E>, log: seq<E>, record: Checkpoint<S>, runner: Runner<S>, n: nat)
    requires RunnerOk(spec, log, record, runner) && runner.offset + n <= |log|
    ensures RunnerOk(spec, log, record, runner.(
      offset := runner.offset + n, state := Fold(runner.state, spec.step, log[runner.offset..runner.offset + n])))
  {
    PageFold(spec, log, runner.offset, n);
  }

  lemma {:induction false} StepKeepsInv<S, E>(spec: Spec<S, E>, sys: System<S, E>, event: Event<E>)
    requires Inv(spec, sys)
    ensures Inv(spec, Step(spec, sys, event))
  {
    if Enabled(sys, event) {
      match event
      case Begin(c) => CallUpdate(spec, sys, c, Restore(sys, |sys.commits|, 0));
      case ReadPage(c, n) => ReadPageStep(spec, sys, c, n);
      case ReadTail(c) => ReadTailStep(spec, sys, c);
      case Append(c) => AppendStep(spec, sys, c);
      case External(items) => AppendKeepsInv(spec, sys, Commit(None, items));
      case Load(r) =>
        var record := sys.checkpoint;
        RunnerUpdate(spec, sys, r, Runner(record.token, record.offset, record.offset, record.state));
      case RunPage(r, n) => RunPageStep(spec, sys, r, n);
      case Save(r) => SaveStep(spec, sys, r);
    }
  }

  lemma {:induction false} RunKeepsInv<S, E>(spec: Spec<S, E>, events: seq<Event<E>>)
    ensures Inv(spec, Run(spec, events))
  {
    if events != [] {
      RunKeepsInv(spec, events[..|events| - 1]);
      StepKeepsInv(spec, Run(spec, events[..|events| - 1]), events[|events| - 1]);
    }
  }

  /** A step appends at most one commit, and an undecided one only for a foreign append. */
  lemma {:induction false} StepCommits<S, E>(spec: Spec<S, E>, sys: System<S, E>, event: Event<E>)
    ensures var next := Step(spec, sys, event).commits;
      next == sys.commits || (|next| == |sys.commits| + 1 && next[..|sys.commits|] == sys.commits
                              && (next[|sys.commits|].author.None? ==> event.External?))
  {
    match event
    case Append(_) =>
    case External(_) =>
    case Begin(_) =>
    case ReadPage(_, _) =>
    case ReadTail(_) =>
    case Load(_) =>
    case RunPage(_, _) =>
    case Save(_) =>
  }

  /** The log after the decision of a call on the whole log `before`. */
  function AfterDecision<S, E>(spec: Spec<S, E>, c: nat, before: seq<E>): seq<E> {
    before + spec.rule(c)(Fold(spec.init, spec.step, before))
  }

  /** The commit is what its author decided on the log before it. */
  ghost predicate DecidedAt<S, E>(spec: Spec<S, E>, commits: seq<Commit<E>>, m: nat)
    requires m < |commits|
  {
    commits[m].author.Some?
    && Before(commits, m + 1) == AfterDecision(spec, commits[m].author.value, Before(commits, m))
  }

  lemma {:induction false} LinearIsDecided<S, E>(spec: Spec<S, E>, log: seq<E>, commits: seq<Commit<E>>, m: nat)
    requires Linear(spec, log, commits) && m < |commits| && commits[m].author.Some?
    ensures DecidedAt(spec, commits, m)
  {
    assert Follows(spec, commits, m);
  }

  /** What every decision keeps holds of the log at every moment, when all appends are decided. */
  lemma {:induction false} DecidedLogKeeps<S, E(!new)>(
      spec: Spec<S, E>, commits: seq<Commit<E>>, good: seq<E> -> bool, m: nat)
    requires m <= |commits| && forall i: nat :: i < |commits| ==> DecidedAt(spec, commits, i)
    requires good([])
    requires forall before: seq<E>, c: nat {:trigger AfterDecision(spec, c, before)} ::
      good(before) ==> good(AfterDecision(spec, c, before))
    ensures good(Before(commits, m))
  {
    if m > 0 {
      DecidedLogKeeps(spec, commits, good, m - 1);
      assert DecidedAt(spec, commits, m - 1);
    }
  }

  // ---- Calls one after the other -------------------------------------------------------------

  lemma {:induction false} RunSnoc<S, E>(spec: Spec<S, E>, events: seq<Event<E>>, event: Event<E>)
    ensures Run(spec, events + [event]) == Step(spec, Run(spec, events), event)
  {
    assert (events + [event])[..|events|] == events;
  }

  /** A call that has just begun and reads all that is left in one page. */
  lemma {:induction false} ReadsToTail<S, E>(spec: Spec<S, E>, sys: System<S, E>, c: nat)
    requires Inv(spec, sys) && c in sys.calls && sys.calls[c].Folding? && sys.calls[c].offset < |sys.log|
    ensures var call := sys.calls[c];
      Step(spec, sys, ReadPage(c, |sys.log| - call.offset)).log == sys.log
      && Step(spec, sys, ReadPage(c, |sys.log| - call.offset)).calls
         == sys.calls[c := Folding(call.start, call.tries, |sys.log|, Fold(spec.init, spec.step, sys.log))]
  {
    var call := sys.calls[c];
    var rest := sys.log[call.offset..call.offset + (|sys.log| - call.offset)];
    assert Fold(call.state, spec.step, rest) == Fold(spec.init, spec.step, sys.log) by {
      assert CallOk(spec, c, sys.log, sys.commits, call);
      PageFold(spec, sys.log, call.offset, |sys.log| - call.offset);
      assert sys.log[..|sys.log|] == sys.log;
    }
  }

  /** A call at the tail decides on the whole log and its append lands. */
  lemma {:induction false} DecidesAtTail<S, E>(spec: Spec<S, E>, sys: System<S, E>, c: nat)
    requires Inv(spec, sys) && c in sys.calls && sys.calls[c].Folding? && sys.calls[c].offset == |sys.log|
    ensures var after := Step(spec, Step(spec, sys, ReadTail(c)), Append(c));
      after.log == AfterDecision(spec, c, sys.log) && after.calls.Keys == sys.calls.Keys
  {
    assert CallOk(spec, c, sys.log, sys.commits, sys.calls[c]);
    assert sys.log[..|sys.log|] == sys.log;
  }

  /** A call that nothing else runs beside appends what its rule says of the whole log. */
  lemma {:induction false} CallAlone<S, E>(spec: Spec<S, E>, events: seq<Event<E>>, c: nat) returns (all: seq<Event<E>>)
    requires c !in Run(spec, events).calls
    ensures Run(spec, all).log == AfterDecision(spec, c, Run(spec, events).log)
    ensures Run(spec, all).calls.Keys == Run(spec, events).calls.Keys + {c}
  {
    var log, keys := Run(spec, events).log, Run(spec, events).calls.Keys + {c};
    RunSnoc(spec, events, Begin(c));
    all := events + [Begin(c)];
    RunKeepsInv(spec, all);
    var begun := Run(spec, all);
    assert begun.log == log && begun.calls.Keys == keys && begun.calls[c].Folding?;
    assert CallOk(spec, c, begun.log, begun.commits, begun.calls[c]);
    if begun.calls[c].offset < |log| {
      var page := ReadPage(c, |log| - begun.calls[c].offset);
      RunSnoc(spec, all, page);
      ReadsToTail(spec, begun, c);
      all := all + [page];
      RunKeepsInv(spec, all);
    }
    DecidesAtTail(spec, Run(spec, all), c);
    RunSnoc(spec, all, ReadTail(c));
    RunSnoc(spec, all + [ReadTail(c)], Append(c));
    all := all + [ReadTail(c)] + [Append(c)];
  }

  // ---- Main results -----------------------------------------------------------------------

  /**
   * Under any interleaving, page sizes, checkpoints and foreign appends, each decided append
   * is the rule applied to the fold of exactly the whole log before it.
   */
  lemma {:induction false} EveryAppendSawTheWholeLog<S, E>(spec: Spec<S, E>, events: seq<Event<E>>)
    ensures var sys := Run(spec, events); Linear(spec, sys.log, sys.commits)
  {
    RunKeepsInv(spec, events);
  }

  /** A call that answers without appending decided on the whole log of one moment, too. */
  lemma {:induction false} UnchangedSawTheWholeLog<S, E>(spec: Spec<S, E>, events: seq<Event<E>>, c: nat)
    requires c in Run(spec, events).calls && Run(spec, events).calls[c].Unchanged?
    ensures var sys := Run(spec, events);
      var call := sys.calls[c];
      && call.mark <= |sys.commits|
      && call.state == Fold(spec.init, spec.step, Before(sys.commits, call.mark))
      && spec.rule(c)(call.state) == []
  {
    RunKeepsInv(spec, events);
  }

  /** Whoever made an append has ended with that append. */
  ghost predicate AuthorsLanded<S, E>(calls: map<nat, Call<S, E>>, commits: seq<Commit<E>>) {
    forall m :: 0 <= m < |commits| && commits[m].author.Some? ==>
      commits[m].author.value in calls && calls[commits[m].author.value] == Landed(m)
  }

  lemma {:induction false} StepKeepsAuthors<S, E>(spec: Spec<S, E>, sys: System<S, E>, event: Event<E>)
    requires AuthorsLanded(sys.calls, sys.commits)
    ensures AuthorsLanded(Step(spec, sys, event).calls, Step(spec, sys, event).commits)
  {
    match event
    case Append(_) =>
    case External(_) =>
    case Begin(_) =>
    case ReadPage(_, _) =>
    case ReadTail(_) =>
    case Load(_) =>
    case RunPage(_, _) =>
    case Save(_) =>
  }

  /** A call lands at most once, and only the call that landed an append is its author. */
  lemma {:induction false} EachCallLandsOnce<S, E>(spec: Spec<S, E>, events: seq<Event<E>>)
    ensures AuthorsLanded(Run(spec, events).calls, Run(spec, events).commits)
  {
    if events != [] {
      EachCallLandsOnce(spec, events[..|events| - 1]);
      StepKeepsAuthors(spec, Run(spec, events[..|events| - 1]), events[|events| - 1]);
    }
  }

  /** A call fails with a lost race only after four appends landed while it ran, none of them its own. */
  lemma {:induction false} LostRaceMeansFourOthers<S, E>(spec: Spec<S, E>, events: seq<Event<E>>, c: nat)
    requires c in Run(spec, events).calls && Run(spec, events).calls[c].LostRace?
    ensures var sys := Run(spec, events);
      && sys.calls[c].start + 4 <= |sys.commits|
      && forall m :: 0 <= m < |sys.commits| ==> sys.commits[m].author != Some(c)
  {
    RunKeepsInv(spec, events);
    EachCallLandsOnce(spec, events);
    var sys := Run(spec, events);
    forall m | 0 <= m < |sys.commits| ensures sys.commits[m].author != Some(c) {
      assert sys.commits[m].author.Some? ==> sys.calls[sys.commits[m].author.value].Landed?;
    }
  }

  /** An append that loses does so only because another append landed after its snapshot. */
  lemma {:induction false} LosersYieldToAWinner<S, E>(spec: Spec<S, E>, events: seq<Event<E>>, c: nat)
    requires c in Run(spec, events).calls && Run(spec, events).calls[c].Appending?
    ensures var sys := Run(spec, events);
      var call := sys.calls[c];
      Step(spec, sys, Append(c)).log == sys.log <==> call.mark < |sys.commits|
  {
    RunKeepsInv(spec, events);
    AppendStep(spec, Run(spec, events), c);
  }

  /** The stored record is always a fold of a prefix of the log and its offset never goes back. */
  lemma {:induction false} CheckpointOnlyAdvances<S, E>(spec: Spec<S, E>, events: seq<Event<E>>, event: Event<E>)
    ensures var before, after := Run(spec, events), Run(spec, events + [event]);
      && before.checkpoint.offset <= after.checkpoint.offset <= |after.log|
      && after.checkpoint.state == At(spec, after.log, after.checkpoint.offset)
  {
    assert (events + [event])[..|events|] == events;
    RunKeepsInv(spec, events);
    RunKeepsInv(spec, events + [event]);
    var sys := Run(spec, events);
    if Enabled(sys, event) && event.Save? { SaveStep(spec, sys, event.runner); }
  }
}
