/**
 * Runs of one outbox: enqueues and drains of many names interleave, deliveries end as they
 * like and clocks move as they like. One permit for each name keeps its drains one at a time.
 */
module OutboxRuns {
  import opened Common
  import opened Backoff
  import opened Outbox

  /** A drain that holds its name's permit, with the read entries that it has not handled. */
  datatype Drain = Drain(scope: Scope, queue: seq<Entry>)

  datatype World = World(entries: seq<Entry>, drains: map<string, Drain>, settlements: nat)

  datatype Event =
    | Enqueue(drafts: seq<Draft>)
    | Start(scope: Scope, now: int, limit: nat)
    | Attempt(name: string, checkedAt: int, outcome: Outcome, settledAt: int)

  /** What a drain records for the entry in hand. */
  function SettlementFor(d: Declared, e: Entry, outcome: Outcome, now: int): Settlement
    requires d.decodes(e.name, e.payload) ==> outcome != Interrupted
  {
    if !d.decodes(e.name, e.payload)
    then SettleDead(e.attempts + 1, PayloadPoison, Clip(d.complaint(e.name, e.payload)), now)
    else Classify(outcome, e.attempts + 1, d.policy(e.name), now)
  }

  /** The drain stops here: nothing left, not yet due, or interrupted in delivery. */
  predicate Stops(d: Declared, drain: Drain, checkedAt: int, outcome: Outcome) {
    drain.queue == [] || drain.queue[0].nextAttemptAtMs > checkedAt
    || (d.decodes(drain.queue[0].name, drain.queue[0].payload) && outcome == Interrupted)
  }

  /** The settlement of the queue's first entry; an ordered drain stops behind a retry. */
  function Record(w: World, name: string, s: Settlement): World
    requires name in w.drains && w.drains[name].queue != []
  {
    var drain := w.drains[name];
    var e := drain.queue[0];
    if e.id == 0 || e.id > |w.entries| then w.(drains := w.drains - {name})
    else World(SettleAt(w.entries, e.id, s),
               if drain.scope.ordered && s.SettleRetry? then w.drains - {name}
               else w.drains[name := Drain(drain.scope, drain.queue[1..])],
               w.settlements + 1)
  }

  function Step(d: Declared, w: World, event: Event): World {
    match event
    case Enqueue(drafts) => w.(entries := EnqueueAll(w.entries, drafts))
    case Start(scope, now, limit) =>
      if scope.name in w.drains || limit == 0 then w
      else w.(drains := w.drains[scope.name := Drain(scope, Take(Due(w.entries, scope, now), limit))])
    case Attempt(name, checkedAt, outcome, settledAt) =>
      if name !in w.drains then w
      else if Stops(d, w.drains[name], checkedAt, outcome) then w.(drains := w.drains - {name})
      else Record(w, name, SettlementFor(d, w.drains[name].queue[0], outcome, settledAt))
  }

  function Run(d: Declared, events: seq<Event>): World {
    if events == [] then World([], map[], 0)
    else Step(d, Run(d, events[..|events| - 1]), events[|events| - 1])
  }

  ghost predicate DrainOk(entries: seq<Entry>, name: string, drain: Drain) {
    && drain.scope.name == name
    && QueueOk(entries, drain.scope, drain.queue)
    && (drain.scope.ordered ==> QueueIsOldest(entries, drain.scope, drain.queue))
  }

  ghost predicate Inv(d: Declared, w: World) {
    && EntriesOk(d, w.entries)
    && Attempts(w.entries) == w.settlements
    && (forall name :: name in w.drains ==> DrainOk(w.entries, name, w.drains[name]))
  }

  lemma {:induction false} EnqueueStep(d: Declared, w: World, drafts: seq<Draft>)
    requires ValidDeclared(d) && Inv(d, w)
    ensures Inv(d, Step(d, w, Enqueue(drafts)))
  {
    EnqueueAllOk(d, w.entries, drafts);
    forall name | name in w.drains ensures DrainOk(EnqueueAll(w.entries, drafts), name, w.drains[name]) {
      GrowthKeepsQueue(w.entries, EnqueueAll(w.entries, drafts), w.drains[name].scope, w.drains[name].queue);
    }
  }

  /** An entry of another name is settled: this drain does not see it. */
  lemma {:induction false} OtherNameKeepsQueue(entries: seq<Entry>, name: string, drain: Drain, id: nat, s: Settlement)
    requires 0 < id <= |entries| && entries[id - 1].name != name
    requires forall i :: 0 <= i < |entries| ==> entries[i].id == i + 1
    requires DrainOk(entries, name, drain)
    ensures DrainOk(SettleAt(entries, id, s), name, drain)
  {
    var next := SettleAt(entries, id, s);
    forall i | 0 <= i < |drain.queue| ensures next[drain.queue[i].id - 1] == drain.queue[i] {
      assert drain.queue[i].id != id;
    }
    if drain.scope.ordered {
      forall i: nat, k: nat | i < |drain.queue| && k < |next| && WaitsAhead(drain.scope, next[k], drain.queue[i])
        ensures Precedes(drain.queue, i, next[k])
      {
        assert k != id - 1 && next[k] == entries[k] && WaitsAhead(drain.scope, entries[k], drain.queue[i]);
      }
    }
  }

  lemma {:induction false} RecordOk(d: Declared, w: World, name: string, s: Settlement)
    requires Inv(d, w) && name in w.drains && w.drains[name].queue != []
    requires Fits(d, w.drains[name].queue[0], s)
    ensures Inv(d, Record(w, name, s))
    ensures Record(w, name, s).settlements == w.settlements + 1
    ensures Remaining(d, Record(w, name, s).entries) < Remaining(d, w.entries)
  {
    var drain := w.drains[name];
    assert DrainOk(w.entries, name, drain);
    var e := drain.queue[0];
    SettleOk(d, w.entries, e.id, s);
    SettleKeepsQueue(w.entries, drain.scope, drain.queue, s);
    forall other | other in w.drains && other != name
      ensures DrainOk(SettleAt(w.entries, e.id, s), other, w.drains[other])
    {
      OtherNameKeepsQueue(w.entries, other, w.drains[other], e.id, s);
    }
  }

  /** What a drain records always fits the entry in hand. */
  lemma {:induction false} SettlementFits(d: Declared, w: World, name: string, outcome: Outcome, now: int)
    requires Inv(d, w) && name in w.drains && w.drains[name].queue != []
    requires var e := w.drains[name].queue[0]; d.decodes(e.name, e.payload) ==> outcome != Interrupted
    ensures Fits(d, w.drains[name].queue[0], SettlementFor(d, w.drains[name].queue[0], outcome, now))
  {
    assert DrainOk(w.entries, name, w.drains[name]);
    var e := w.drains[name].queue[0];
    assert RowOk(d, w.entries[e.id - 1]);
  }

  lemma {:induction false} AttemptStep(d: Declared, w: World, event: Event)
    requires Inv(d, w) && event.Attempt?
    ensures Inv(d, Step(d, w, event))
    ensures var next := Step(d, w, event);
      next.settlements > w.settlements ==>
        Remaining(d, next.entries) < Remaining(d, w.entries) && next.settlements == w.settlements + 1
  {
    var name := event.name;
    if name in w.drains && !Stops(d, w.drains[name], event.checkedAt, event.outcome) {
      SettlementFits(d, w, name, event.outcome, event.settledAt);
      RecordOk(d, w, name, SettlementFor(d, w.drains[name].queue[0], event.outcome, event.settledAt));
    }
  }

  lemma {:induction false} StartStep(d: Declared, w: World, scope: Scope, now: int, limit: nat)
    requires Inv(d, w)
    ensures Inv(d, Step(d, w, Start(scope, now, limit)))
  {
    var next := Step(d, w, Start(scope, now, limit));
    ReadIsOldest(w.entries, scope, now, limit);
    forall name | name in next.drains ensures DrainOk(next.entries, name, next.drains[name]) {
      if name != scope.name { assert name in w.drains && DrainOk(w.entries, name, w.drains[name]); }
    }
  }

  lemma {:induction false} StepKeepsInv(d: Declared, w: World, event: Event)
    requires ValidDeclared(d) && Inv(d, w)
    ensures Inv(d, Step(d, w, event))
  {
    match event
    case Enqueue(drafts) => EnqueueStep(d, w, drafts);
    case Start(scope, now, limit) => StartStep(d, w, scope, now, limit);
    case Attempt(_, _, _, _) => AttemptStep(d, w, event);
  }

  lemma {:induction false} RunKeepsInv(d: Declared, events: seq<Event>)
    requires ValidDeclared(d)
    ensures Inv(d, Run(d, events))
  {
    if events != [] {
      RunKeepsInv(d, events[..|events| - 1]);
      StepKeepsInv(d, Run(d, events[..|events| - 1]), events[|events| - 1]);
    }
  }

  // ---- Main results --------------------------------------------------------------------------------------

  /**
   * Every reachable entry meets the stored-row rule, its attempts stay within its policy
   * (below it while pending), and no name and key occur twice.
   */
  lemma {:induction false} ReachableRowsAreLegal(d: Declared, events: seq<Event>)
    requires ValidDeclared(d)
    ensures EntriesOk(d, Run(d, events).entries)
  {
    RunKeepsInv(d, events);
  }

  ghost predicate SameIdentity(a: Entry, b: Entry) {
    a.id == b.id && a.name == b.name && a.partitionId == b.partitionId && a.key == b.key && a.payload == b.payload
  }

  /** Every old entry is still there under its identity, and it is as it was if it was settled. */
  ghost predicate Preserves(before: seq<Entry>, after: seq<Entry>) {
    && |before| <= |after|
    && (forall i :: 0 <= i < |before| ==>
          SameIdentity(before[i], after[i]) && (before[i].state != Pending ==> after[i] == before[i]))
  }

  lemma {:induction false} SettleAtPreserves(entries: seq<Entry>, id: nat, s: Settlement)
    requires 0 < id <= |entries| && entries[id - 1].state == Pending
    ensures Preserves(entries, SettleAt(entries, id, s))
  {
  }

  lemma {:induction false} AttemptPreserves(d: Declared, w: World, event: Event)
    requires Inv(d, w) && event.Attempt?
    ensures Preserves(w.entries, Step(d, w, event).entries)
  {
    if event.name in w.drains && !Stops(d, w.drains[event.name], event.checkedAt, event.outcome) {
      var drain := w.drains[event.name];
      assert DrainOk(w.entries, event.name, drain);
      var e := drain.queue[0];
      SettleAtPreserves(w.entries, e.id, SettlementFor(d, e, event.outcome, event.settledAt));
    }
  }

  lemma {:induction false} StepPreserves(d: Declared, w: World, event: Event)
    requires ValidDeclared(d) && Inv(d, w)
    ensures Preserves(w.entries, Step(d, w, event).entries)
  {
    match event
    case Enqueue(drafts) => EnqueuePreserves(d, w.entries, drafts);
    case Start(_, _, _) =>
    case Attempt(_, _, _, _) => AttemptPreserves(d, w, event);
  }

  lemma {:induction false} EnqueuePreserves(d: Declared, entries: seq<Entry>, drafts: seq<Draft>)
    requires ValidDeclared(d) && EntriesOk(d, entries)
    ensures Preserves(entries, EnqueueAll(entries, drafts))
  {
    EnqueueAllOk(d, entries, drafts);
  }

  // ---- What is recorded ------------------------------------------------------------------------------------

  /** One finished attempt of a drain: the entry as it was read, how its handler ended, and when that was. */
  datatype Handled = Handled(entry: Entry, outcome: Outcome, at: int)

  /** Where an attempt leads: to the end for a success, a permanent failure, an unreadable payload or the last attempt. */
  function EndOf(d: Declared, h: Handled): EntryState {
    if !d.decodes(h.entry.name, h.entry.payload) then Dead
    else match h.outcome
      case Success => Delivered
      case PermanentFailure(_) => Dead
      case _ => if h.entry.attempts + 1 < d.policy(h.entry.name).maxAttempts then Pending else Dead
  }

  /** Why an entry is dead. */
  function ReasonOf(d: Declared, h: Handled): Reason {
    if !d.decodes(h.entry.name, h.entry.payload) then PayloadPoison
    else if h.outcome.PermanentFailure? then Permanent
    else AttemptsExhausted
  }

  /** The text that is kept of a failed attempt: at most 500 characters unless the handler worded it. */
  function TextOf(d: Declared, h: Handled): string {
    if !d.decodes(h.entry.name, h.entry.payload) then Clip(d.complaint(h.entry.name, h.entry.payload))
    else match h.outcome
      case PermanentFailure(detail) => detail
      case TransientFailure(detail) => detail
      case Defect(detail) => Clip(detail)
      case _ => ""
  }

  /** The stored entry says how the attempt ended, with one attempt more and the same identity. */
  ghost predicate Recorded(d: Declared, h: Handled, after: Entry) {
    && SameIdentity(h.entry, after) && after.enqueuedAtMs == h.entry.enqueuedAtMs
    && after.attempts == h.entry.attempts + 1 && after.state == EndOf(d, h)
    && after.reason == (if after.state == Dead then Some(ReasonOf(d, h)) else None)
    && after.lastError == (if after.state == Delivered then None else Some(TextOf(d, h)))
    && after.settledAtMs == (if after.state == Pending then None else Some(h.at))
    && after.nextAttemptAtMs == (if after.state == Pending then Deadline(d.policy(h.entry.name), after.attempts, h.at)
                                 else h.entry.nextAttemptAtMs)
  }

  /** What a drain stores for any outcome of an attempt. */
  lemma {:induction false} SettlementRecords(d: Declared, h: Handled)
    requires Consistent(h.entry) && h.entry.state == Pending
    requires d.decodes(h.entry.name, h.entry.payload) ==> h.outcome != Interrupted
    ensures Recorded(d, h, Settle(h.entry, SettlementFor(d, h.entry, h.outcome, h.at)))
  {
  }

  /** A settled entry never changes again, and no entry disappears or changes its identity. */
  lemma {:induction false} SettledEntriesNeverChange(d: Declared, events: seq<Event>, more: seq<Event>)
    requires ValidDeclared(d)
    ensures Preserves(Run(d, events).entries, Run(d, events + more).entries)
  {
    if more == [] {
      assert events + more == events;
    } else {
      var n := |more| - 1;
      assert (events + more)[..|events + more| - 1] == events + more[..n];
      SettledEntriesNeverChange(d, events, more[..n]);
      RunKeepsInv(d, events + more[..n]);
      StepPreserves(d, Run(d, events + more[..n]), more[n]);
    }
  }

  /**
   * Each settlement counts exactly one attempt and strictly lowers the open attempts, so the
   * settlements of a run never exceed what the policies of its entries allow.
   */
  lemma {:induction false} SettlementsAreBounded(d: Declared, events: seq<Event>, event: Event)
    requires ValidDeclared(d)
    ensures var before, after := Run(d, events), Run(d, events + [event]);
      && Attempts(after.entries) == after.settlements
      && (event.Attempt? && after.settlements > before.settlements ==>
            Remaining(d, after.entries) < Remaining(d, before.entries))
      && after.settlements <= Allowed(d, after.entries)
  {
    assert (events + [event])[..|events|] == events;
    RunKeepsInv(d, events);
    RunKeepsInv(d, events + [event]);
    if event.Attempt? { AttemptStep(d, Run(d, events), event); }
    AttemptsAllowed(d, Run(d, events + [event]).entries);
  }

  function Allowed(d: Declared, entries: seq<Entry>): int {
    if entries == [] then 0
    else Allowed(d, entries[..|entries| - 1]) + MaxAttempts(d, entries[|entries| - 1].name)
  }

  lemma {:induction false} AttemptsAllowed(d: Declared, entries: seq<Entry>)
    requires forall i :: 0 <= i < |entries| ==> RowOk(d, entries[i])
    ensures Attempts(entries) <= Allowed(d, entries)
  {
    if entries != [] { AttemptsAllowed(d, entries[..|entries| - 1]); }
  }

  /** Every drain of the name asks for order. */
  ghost predicate OrderedOnly(events: seq<Event>, name: string) {
    forall i :: 0 <= i < |events| && events[i].Start? && events[i].scope.name == name ==> events[i].scope.ordered
  }

  /**
   * A name drained only in order: with any limits, partition filters, clocks, interrupts and
   * concurrent enqueues, the settled entries of each partition are an id-prefix of it.
   */
  lemma {:induction false} OrderedDrainsSettleAPrefix(d: Declared, events: seq<Event>, name: string)
    requires ValidDeclared(d) && OrderedOnly(events, name)
    ensures PrefixSettled(Run(d, events).entries, name)
    ensures name in Run(d, events).drains ==> Run(d, events).drains[name].scope.ordered
  {
    if events != [] {
      var n := |events| - 1;
      var front, event := events[..n], events[n];
      assert forall i :: 0 <= i < n ==> front[i] == events[i];
      OrderedDrainsSettleAPrefix(d, front, name);
      RunKeepsInv(d, front);
      PrefixStep(d, Run(d, front), event, name);
    }
  }

  lemma {:induction false} RecordKeepsPrefix(w: World, owner: string, s: Settlement, name: string)
    requires owner in w.drains && w.drains[owner].queue != [] && DrainOk(w.entries, owner, w.drains[owner])
    requires forall i :: 0 <= i < |w.entries| ==> w.entries[i].id == i + 1
    requires PrefixSettled(w.entries, name)
    requires owner == name ==> w.drains[name].scope.ordered
    ensures PrefixSettled(Record(w, owner, s).entries, name)
  {
    var drain := w.drains[owner];
    if owner == name {
      SettleKeepsPrefix(w.entries, drain.scope, drain.queue, s);
    } else {
      var id := drain.queue[0].id;
      var next := SettleAt(w.entries, id, s);
      assert forall i :: 0 <= i < |next| && next[i].name == name ==> next[i] == w.entries[i];
    }
  }

  lemma {:induction false} EnqueueKeepsPrefix(d: Declared, entries: seq<Entry>, drafts: seq<Draft>, name: string)
    requires ValidDeclared(d) && EntriesOk(d, entries) && PrefixSettled(entries, name)
    ensures PrefixSettled(EnqueueAll(entries, drafts), name)
  {
    EnqueueAllOk(d, entries, drafts);
    GrowthKeepsPrefix(entries, EnqueueAll(entries, drafts), name);
  }

  lemma {:induction false} PrefixStep(d: Declared, w: World, event: Event, name: string)
    requires ValidDeclared(d) && Inv(d, w) && PrefixSettled(w.entries, name)
    requires name in w.drains ==> w.drains[name].scope.ordered
    requires event.Start? && event.scope.name == name ==> event.scope.ordered
    ensures PrefixSettled(Step(d, w, event).entries, name)
    ensures name in Step(d, w, event).drains ==> Step(d, w, event).drains[name].scope.ordered
  {
    match event
    case Enqueue(drafts) => EnqueueKeepsPrefix(d, w.entries, drafts, name);
    case Start(_, _, _) =>
    case Attempt(_, _, _, _) => AttemptKeepsPrefix(d, w, event, name);
  }

  lemma {:induction false} AttemptKeepsPrefix(d: Declared, w: World, event: Event, name: string)
    requires Inv(d, w) && event.Attempt? && PrefixSettled(w.entries, name)
    requires name in w.drains ==> w.drains[name].scope.ordered
    ensures PrefixSettled(Step(d, w, event).entries, name)
    ensures name in Step(d, w, event).drains ==> Step(d, w, event).drains[name].scope.ordered
  {
    var owner := event.name;
    if owner in w.drains && !Stops(d, w.drains[owner], event.checkedAt, event.outcome) {
      assert DrainOk(w.entries, owner, w.drains[owner]);
      RecordKeepsPrefix(w, owner, SettlementFor(d, w.drains[owner].queue[0], event.outcome, event.settledAt), name);
    }
  }

  // ---- Order is needed ---------------------------------------------------------------------------------------

  const MAIL := Declared(name => RetryPolicy(3, 10.0, 2.0, 100), (name, payload) => true, (name, payload) => "")

  lemma {:induction false} TwoMails() returns (entries: seq<Entry>)
    ensures entries == EnqueueAll([], [Draft("mail", "", "a", "", 0), Draft("mail", "", "b", "", 0)])
    ensures entries == [NewEntry(1, Draft("mail", "", "a", "", 0)), NewEntry(2, Draft("mail", "", "b", "", 0))]
  {
    var a, b := Draft("mail", "", "a", "", 0), Draft("mail", "", "b", "", 0);
    assert [a] == [] + [a] && [a, b] == [a] + [b];
    FoldSnoc([], EnqueueOne, [], a);
    FoldSnoc([], EnqueueOne, [a], b);
    var first: seq<Entry> := [NewEntry(1, a)];
    assert EnqueueOne([], a) == first;
    assert "a" != "b" by { assert "a"[0] != "b"[0]; }
    assert !Known(first, "mail", "b");
    entries := first + [NewEntry(2, b)];
  }

  lemma {:induction false} RunSnoc(d: Declared, events: seq<Event>, event: Event)
    ensures Run(d, events + [event]) == Step(d, Run(d, events), event)
  {
    assert (events + [event])[..|events|] == events;
  }

  const UNORDERED := Scope("mail", None, false)

  /** Both mails are read by one unordered drain. */
  lemma {:induction false} BothRead() returns (events: seq<Event>, entries: seq<Entry>)
    ensures |entries| == 2 && entries[0].id == 1 && entries[1].id == 2
    ensures forall i :: 0 <= i < 2 ==>
      InScope(entries[i], UNORDERED) && entries[i].state == Pending && entries[i].nextAttemptAtMs == 0
      && entries[i].attempts == 0 && entries[i].partitionId == ""
    ensures Run(MAIL, events) == World(entries, map["mail" := Drain(UNORDERED, entries)], 0)
  {
    entries := TwoMails();
    var drafts := [Draft("mail", "", "a", "", 0), Draft("mail", "", "b", "", 0)];
    RunSnoc(MAIL, [], Enqueue(drafts));
    assert [] + [Enqueue(drafts)] == [Enqueue(drafts)];
    assert Run(MAIL, [Enqueue(drafts)]) == World(entries, map[], 0);
    BothDue(entries, UNORDERED);
    events := [Enqueue(drafts)] + [Start(UNORDERED, 0, 10)];
    RunSnoc(MAIL, [Enqueue(drafts)], Start(UNORDERED, 0, 10));
  }

  /** An unordered drain can settle a later entry of a partition while an earlier one waits for its retry. */
  lemma {:induction false} UnorderedDrainsMayOvertake() returns (events: seq<Event>)
    ensures ValidDeclared(MAIL) && !PrefixSettled(Run(MAIL, events).entries, "mail")
  {
    var read, entries := BothRead();
    var fails, succeeds := Attempt("mail", 0, TransientFailure(""), 0), Attempt("mail", 0, Success, 0);
    RunSnoc(MAIL, read, fails);
    RunSnoc(MAIL, read + [fails], succeeds);
    events := read + [fails] + [succeeds];
    var w := Run(MAIL, read + [fails]);
    assert w.entries[0].state == Pending && w.entries[1] == entries[1];
    assert w.drains["mail"].queue == [entries[1]];
    var after := Run(MAIL, events);
    assert after.entries[0] == w.entries[0] && after.entries[1].state == Delivered;
    assert SettledIn("mail", after.entries[0], after.entries[1]);
  }

  lemma {:induction false} BothDue(entries: seq<Entry>, scope: Scope)
    requires |entries| == 2 && !scope.ordered
    requires forall i :: 0 <= i < 2 ==>
      InScope(entries[i], scope) && entries[i].state == Pending && entries[i].nextAttemptAtMs <= 0
    ensures Due(entries, scope, 0) == entries
  {
    assert entries[1..][1..] == [];
    assert Due(entries[1..][1..], scope, 0) == [];
    assert Due(entries[1..], scope, 0) == [entries[1]] + [];
  }
}
