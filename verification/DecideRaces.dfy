/** What happens to one call, and to one save, over a run (packages/projection/src/{decide,checkpoint-store}.ts). */
module DecideRaces {
  import opened Common
  import opened Decide

  // ---- Calls ------------------------------------------------------------------------------------

  /** The last event of the run is an append of the call that left the log as it was. */
  ghost predicate RefusedLast<S, E>(spec: Spec<S, E>, events: seq<Event<E>>, c: nat) {
    && events != [] && events[|events| - 1] == Append(c)
    && Enabled(Run(spec, events[..|events| - 1]), Append(c))
    && Run(spec, events).log == Run(spec, events[..|events| - 1]).log
  }

  /** How many appends of the call were refused. */
  ghost function Refusals<S, E>(spec: Spec<S, E>, events: seq<Event<E>>, c: nat): nat {
    if events == [] then 0
    else Refusals(spec, events[..|events| - 1], c) + if RefusedLast(spec, events, c) then 1 else 0
  }

  /** The call has counted its refusals, and lost its race exactly at the fourth. */
  ghost predicate Counts<S, E>(call: Call<S, E>, refusals: nat) {
    match call
    case Folding(_, tries, _, _) => tries == refusals < 4
    case Appending(_, tries, _, _, _, _) => tries == refusals < 4
    case Unchanged(_, _) => refusals < 4
    case Landed(_) => refusals < 4
    case LostRace(_) => refusals == 4
  }

  /** A call gives up exactly when its fourth append is refused. */
  lemma {:induction false} GivesUpAtTheFourth<S, E>(spec: Spec<S, E>, events: seq<Event<E>>, c: nat)
    ensures Refusals(spec, events, c) <= 4
    ensures c in Run(spec, events).calls && Run(spec, events).calls[c].LostRace? <==> Refusals(spec, events, c) == 4
  {
    CallCounts(spec, events, c);
  }

  lemma {:induction false} CallCounts<S, E>(spec: Spec<S, E>, events: seq<Event<E>>, c: nat)
    ensures var sys := Run(spec, events);
      if c in sys.calls then Counts(sys.calls[c], Refusals(spec, events, c)) else Refusals(spec, events, c) == 0
  {
    if events != [] {
      var front, event := events[..|events| - 1], events[|events| - 1];
      CallCounts(spec, front, c);
      RunKeepsInv(spec, front);
      StepCounts(spec, Run(spec, front), event, c, Refusals(spec, front, c));
    }
  }

  lemma {:induction false} StepCounts<S, E>(spec: Spec<S, E>, sys: System<S, E>, event: Event<E>, c: nat, n: nat)
    requires Inv(spec, sys)
    requires if c in sys.calls then Counts(sys.calls[c], n) else n == 0
    ensures var next := Step(spec, sys, event);
      var n' := n + if event == Append(c) && Enabled(sys, event) && next.log == sys.log then 1 else 0;
      if c in next.calls then Counts(next.calls[c], n') else n' == 0
  {
    match event
    case Append(d) =>
      if Enabled(sys, event) {
        assert CallOk(spec, d, sys.log, sys.commits, sys.calls[d]);
        assert |sys.log + sys.calls[d].items| > |sys.log|;
      }
    case External(_) =>
    case Begin(_) =>
    case ReadPage(_, _) =>
    case ReadTail(_) =>
    case Load(_) =>
    case RunPage(_, _) =>
    case Save(_) =>
  }

  /** The call remembers how many appends had landed when it began, for as long as it needs to. */
  ghost predicate BeganAt<S, E>(call: Call<S, E>, landed: nat) {
    match call
    case Folding(start, _, _, _) => start == landed
    case Appending(start, _, _, _, _, _) => start == landed
    case Unchanged(_, _) => true
    case Landed(_) => true
    case LostRace(start) => start == landed
  }

  lemma {:induction false} StepKeepsBegan<S, E>(spec: Spec<S, E>, sys: System<S, E>, event: Event<E>, c: nat, landed: nat)
    requires c in sys.calls && BeganAt(sys.calls[c], landed)
    ensures var next := Step(spec, sys, event); c in next.calls && BeganAt(next.calls[c], landed)
  {
    match event
    case Append(_) =>
    case External(_) =>
    case Begin(_) =>
    case ReadPage(_, _) =>
    case ReadTail(_) =>
    case Load(_) =>
    case RunPage(_, _) =>
    case Save(_) =>
  }

  lemma {:induction false} BeganInRun<S, E>(spec: Spec<S, E>, before: seq<Event<E>>, after: seq<Event<E>>, c: nat)
    requires c !in Run(spec, before).calls
    ensures var sys := Run(spec, before + [Begin(c)] + after);
      c in sys.calls && BeganAt(sys.calls[c], |Run(spec, before).commits|)
  {
    if after == [] {
      RunSnoc(spec, before, Begin(c));
      assert before + [Begin(c)] + after == before + [Begin(c)];
    } else {
      var front, event := after[..|after| - 1], after[|after| - 1];
      BeganInRun(spec, before, front, c);
      RunSnoc(spec, before + [Begin(c)] + front, event);
      assert before + [Begin(c)] + front + [event] == before + [Begin(c)] + after;
      StepKeepsBegan(spec, Run(spec, before + [Begin(c)] + front), event, c, |Run(spec, before).commits|);
    }
  }

  /** While a call runs that loses its race, at least four appends of others land. */
  lemma {:induction false} FourLandMeanwhile<S, E>(spec: Spec<S, E>, before: seq<Event<E>>, after: seq<Event<E>>, c: nat)
    requires c !in Run(spec, before).calls
    requires var sys := Run(spec, before + [Begin(c)] + after); c in sys.calls && sys.calls[c].LostRace?
    ensures var commits := Run(spec, before + [Begin(c)] + after).commits;
      && |Run(spec, before).commits| + 4 <= |commits|
      && forall m :: 0 <= m < |commits| ==> commits[m].author != Some(c)
  {
    BeganInRun(spec, before, after, c);
    LostRaceMeansFourOthers(spec, before + [Begin(c)] + after, c);
  }

  // ---- Saves ------------------------------------------------------------------------------------

  /** The runner loaded this record, and as long as its token is current the record is as it was. */
  ghost predicate Loaded<S, E>(sys: System<S, E>, r: nat, record: Checkpoint<S>) {
    && r in sys.runners && sys.runners[r].token == record.token && record.offset <= sys.runners[r].offset
    && record.token <= sys.checkpoint.token
    && (record.token == sys.checkpoint.token ==> sys.checkpoint == record)
  }

  lemma {:induction false} StepKeepsLoaded<S, E>(
      spec: Spec<S, E>, sys: System<S, E>, event: Event<E>, r: nat, record: Checkpoint<S>)
    requires Loaded(sys, r, record) && event != Load(r) && event != Save(r)
    ensures Loaded(Step(spec, sys, event), r, record)
  {
    match event
    case Append(_) =>
    case External(_) =>
    case Begin(_) =>
    case ReadPage(_, _) =>
    case ReadTail(_) =>
    case Load(_) =>
    case RunPage(_, _) =>
    case Save(_) =>
  }

  lemma {:induction false} LoadedInRun<S, E>(spec: Spec<S, E>, before: seq<Event<E>>, between: seq<Event<E>>, r: nat)
    requires Load(r) !in between && Save(r) !in between
    ensures Loaded(Run(spec, before + [Load(r)] + between), r, Run(spec, before).checkpoint)
  {
    if between == [] {
      RunSnoc(spec, before, Load(r));
      assert before + [Load(r)] + between == before + [Load(r)];
    } else {
      var front, event := between[..|between| - 1], between[|between| - 1];
      assert event in between;
      LoadedInRun(spec, before, front, r);
      RunSnoc(spec, before + [Load(r)] + front, event);
      assert before + [Load(r)] + front + [event] == before + [Load(r)] + between;
      StepKeepsLoaded(spec, Run(spec, before + [Load(r)] + front), event, r, Run(spec, before).checkpoint);
    }
  }

  /**
   * A follower's save lands exactly when the record still is the one that it loaded; then the record is the
   * fold up to where the follower read, and otherwise it stays as the other writer left it.
   */
  lemma {:induction false} SaveLandsUncontended<S, E>(spec: Spec<S, E>, before: seq<Event<E>>, between: seq<Event<E>>, r: nat)
    requires Load(r) !in between && Save(r) !in between
    ensures var loaded, now := Run(spec, before).checkpoint, Run(spec, before + [Load(r)] + between);
      var saved := Step(spec, now, Save(r)).checkpoint;
      && r in now.runners
      && (saved != now.checkpoint <==> now.checkpoint == loaded)
      && (now.checkpoint == loaded ==>
            && loaded.offset <= saved.offset == now.runners[r].offset <= |now.log|
            && saved.state == At(spec, now.log, saved.offset))
  {
    LoadedInRun(spec, before, between, r);
    RunKeepsInv(spec, before + [Load(r)] + between);
    var now := Run(spec, before + [Load(r)] + between);
    assert RunnerOk(spec, now.log, now.checkpoint, now.runners[r]);
  }
}
