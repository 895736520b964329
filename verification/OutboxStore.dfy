/** The memory store and the drain loop (packages/outbox/src/memory.ts, outbox.ts). */
module OutboxStore {
  import opened Common
  import opened Backoff
  import opened Outbox
  import R = OutboxRuns

  datatype DrainReport = DrainReport(
    name: string, attempted: nat, delivered: nat, retried: nat, deadLettered: nat, more: bool)

  datatype DrainResult = Report(report: DrainReport) | InvalidLimit | WasInterrupted

  function Least(due: seq<Entry>, least: int): int {
    if due == [] then least
    else MinInt(Least(due[..|due| - 1], least), due[|due| - 1].nextAttemptAtMs)
  }

  class Store {
    var entries: seq<Entry>
    var identities: map<string, set<string>>
    var nextId: nat

    /** The entry with id `n` stands at place `n - 1`: nothing is removed or moved, and ids are given in turn. */
    ghost predicate Valid()
      reads this
    {
      && nextId == |entries| + 1
      && (forall i :: 0 <= i < |entries| ==> entries[i].id == i + 1)
      && IdentitiesOk(identities, entries)
    }

    constructor ()
      ensures Valid() && entries == []
    {
      entries, identities, nextId := [], map[], 1;
    }

    /** The whole batch is stored, each identity once. */
    method Enqueue(drafts: seq<Draft>) returns (enqueued: nat, absorbed: nat)
      requires Valid()
      modifies this
      ensures Valid()
      ensures entries == EnqueueAll(old(entries), drafts)
      ensures enqueued == |entries| - |old(entries)| && enqueued + absorbed == |drafts|
    {
      enqueued := 0;
      for i := 0 to |drafts|
        invariant Valid() && enqueued <= i
        invariant entries == EnqueueAll(old(entries), drafts[..i])
        invariant enqueued == |entries| - |old(entries)|
      {
        var draft := drafts[i];
        assert drafts[..i + 1][..i] == drafts[..i];
        var keys := if draft.name in identities then identities[draft.name] else {};
        KnownByIdentity(identities, entries, draft.name, draft.key);
        if draft.key in keys { continue; }
        var entry := NewEntry(nextId, draft);
        IdentitiesAfterAppend(identities, entries, entry);
        identities := identities[draft.name := keys + {draft.key}];
        entries := entries + [entry];
        nextId := nextId + 1;
        enqueued := enqueued + 1;
      }
      assert drafts[..|drafts|] == drafts;
      absorbed := |drafts| - enqueued;
    }

    method ReadDue(scope: Scope, now: int, limit: nat) returns (due: seq<Entry>)
      ensures due == Take(Due(entries, scope, now), limit)
    {
      due := Due(entries, scope, now);
      due := if |due| <= limit then due else due[..limit];
    }

    /** When the scope is next due: its oldest pending entry in order, else its earliest. */
    method NextDue(scope: Scope) returns (at: Option<int>)
      ensures at == NextDueOf(entries, scope)
    {
      var due := Due(entries, scope.(ordered := true), 0);
      if due == [] { return None; }
      if scope.ordered { return Some(due[0].nextAttemptAtMs); }
      var least := due[0].nextAttemptAtMs;
      for i := 0 to |due|
        invariant least == Least(due[..i], due[0].nextAttemptAtMs)
      {
        assert due[..i + 1][..i] == due[..i];
        least := MinInt(least, due[i].nextAttemptAtMs);
      }
      assert due[..|due|] == due;
      return Some(least);
    }

    method Record(id: nat, s: Settlement) returns (ok: bool)
      requires Valid()
      modifies this`entries
      ensures Valid()
      ensures ok <==> 0 < id <= |old(entries)|
      ensures entries == if ok then SettleAt(old(entries), id, s) else old(entries)
    {
      if id == 0 || id > |entries| { return false; }
      SettleKeepsKnown(identities, entries, id, s);
      entries := entries[id - 1 := Settle(entries[id - 1], s)];
      return true;
    }

    /** Work of other callers while a delivery runs: enqueues of any drafts. */
    method Others() returns (drafts: seq<Draft>)
      requires Valid()
      modifies this
      ensures Valid() && entries == EnqueueAll(old(entries), drafts)
    {
      drafts := *;
      var _, _ := Enqueue(drafts);
    }

    /** Call the handler of the entry in hand, if its payload decodes. Others may enqueue while it runs. */
    method Handle(d: Declared, scope: Scope, entry: Entry, ghost begun: seq<Entry>, ghost queue: seq<Entry>, ghost handled: nat)
      returns (outcome: Outcome)
      requires Valid() && ValidDeclared(d) && DrainInv(d, begun, entries, scope, queue, handled)
      modifies this
      ensures Valid() && old(entries) <= entries && DrainInv(d, begun, entries, scope, queue, handled)
    {
      outcome := *;
      if d.decodes(entry.name, entry.payload) {
        var drafts := Others();
        GrowthKeepsDrain(d, begun, old(entries), drafts, scope, queue, handled);
      }
    }

    /** Record how the entry in hand ended. */
    method Finish(d: Declared, entry: Entry, outcome: Outcome, settledAt: int) returns (settlement: Settlement)
      requires Valid() && 0 < entry.id <= |entries|
      requires d.decodes(entry.name, entry.payload) ==> outcome != Interrupted
      modifies this`entries
      ensures Valid() && settlement == R.SettlementFor(d, entry, outcome, settledAt)
      ensures entries == SettleAt(old(entries), entry.id, settlement)
    {
      settlement := if !d.decodes(entry.name, entry.payload)
                    then SettleDead(entry.attempts + 1, PayloadPoison, Clip(d.complaint(entry.name, entry.payload)), settledAt)
                    else Classify(outcome, entry.attempts + 1, d.policy(entry.name), settledAt);
      var ok := Record(entry.id, settlement);
    }

    /** Deliver the entry in hand and record how it ended; an interrupt records nothing. */
    method HandleEntry(d: Declared, scope: Scope, entry: Entry, settledAt: int,
                       ghost begun: seq<Entry>, ghost queue: seq<Entry>, ghost handled: nat)
      returns (settled: Option<Settlement>, ghost outcome: Outcome)
      requires Valid() && ValidDeclared(d) && DrainInv(d, begun, entries, scope, queue, handled)
      requires queue != [] && entry == queue[0]
      modifies this
      ensures Valid() && |old(entries)| <= |entries|
      ensures settled.None? ==> DrainInv(d, begun, entries, scope, queue, handled) && old(entries) <= entries
      ensures settled.Some? ==> Ended(d, entries, entry, outcome, settledAt, settled.value)
      ensures settled.Some? ==>
        && DrainInv(d, begun, entries, scope, AfterSettling(scope, queue, settled.value), handled + 1)
        && SettledOne(old(entries), entries, entry, settled.value)
    {
      var exit := Handle(d, scope, entry, begun, queue, handled);
      if d.decodes(entry.name, entry.payload) && exit == Interrupted { return None, exit; }
      HeadIsStored(d, begun, old(entries), scope, queue, handled);
      HeadSettles(d, begun, old(entries), entries, scope, queue, handled, exit, settledAt);
      HeadIsStored(d, begun, entries, scope, queue, handled);
      var settlement := Finish(d, entry, exit, settledAt);
      return Some(settlement), exit;
    }

    /** The entry in hand, and what the pass has recorded behind it. */
    method Turn(d: Declared, scope: Scope, queue: seq<Entry>, settledAt: int, ghost begun: seq<Entry>, ghost handled: seq<R.Handled>)
      returns (settled: Option<Settlement>, ghost done: seq<R.Handled>)
      requires Valid() && ValidDeclared(d) && InPass(d, begun, entries, scope, queue, handled) && queue != []
      modifies this
      ensures Valid()
      ensures settled.None? ==> done == handled && InPass(d, begun, entries, scope, [], done)
      ensures settled.Some? ==> InPass(d, begun, entries, scope, AfterSettling(scope, queue, settled.value), done)
      ensures settled.Some? ==> |done| == |handled| + 1 && done[..|handled|] == handled
      ensures settled.Some? ==> R.EndOf(d, done[|handled|]) == StateAfter(settled.value)
      ensures settled.Some? ==> done[|handled|].entry == queue[0] && done[|handled|].at == settledAt
    {
      PassHolds(d, begun, entries, scope, queue, handled);
      ghost var outcome;
      settled, outcome := HandleEntry(d, scope, queue[0], settledAt, begun, queue, |handled|);
      done := handled;
      if settled.Some? {
        done := handled + [R.Handled(queue[0], outcome, settledAt)];
        PassTurns(d, begun, old(entries), entries, scope, queue, outcome, settledAt, settled.value, handled);
      } else {
        PassStops(d, begun, old(entries), entries, scope, queue, handled);
      }
    }

    /** The loop of a pass: entries in turn, until one is not due, an ordered one is to be retried, or an interrupt. */
    method Pass(d: Declared, scope: Scope, due: seq<Entry>, clock: nat -> int)
      returns (report: Option<DrainReport>, ghost rest: seq<Entry>, ghost done: seq<R.Handled>)
      requires Valid() && ValidDeclared(d) && DrainInv(d, entries, entries, scope, due, 0)
      modifies this
      ensures Valid() && InPass(d, old(entries), entries, scope, rest, done)
      ensures InOrder(due, clock, done)
      ensures report.Some? ==> Closes(d, scope, due, clock, done, report.value)
    {
      var queue := due;
      var settlements: seq<Settlement> := [];
      ghost var begun := entries;
      done := [];
      PassBegins(d, begun, scope, due);
      while queue != []
        invariant Valid() && InPass(d, begun, entries, scope, queue, done)
        invariant Underway(d, scope, due, clock, queue, done, settlements)
        decreases |queue|
      {
        UnderwayHead(d, scope, due, clock, queue, done, settlements);
        if queue[0].nextAttemptAtMs > clock(2 * |settlements| + 1) { break; }
        ghost var before := done;
        var settled;
        settled, done := Turn(d, scope, queue, clock(2 * |settlements| + 2), begun, done);
        if settled.None? { return None, [], done; }
        UnderwayNext(d, scope, due, clock, queue, before, done, settlements, settled.value);
        settlements := settlements + [settled.value];
        queue := AfterSettling(scope, queue, settled.value);
      }
      rest := queue;
      report := Some(ReportOf(scope, settlements));
      UnderwayEnds(d, scope, due, clock, queue, done, settlements);
    }

    /**
     * `drain`: one bounded pass, oldest first, with deliveries that end in any way and
     * enqueues in between. Rows stay legal, each settlement is counted once and uses up open
     * attempts, and an ordered pass keeps the settled entries of each partition a prefix. The
     * report counts the entries that the pass moved, by the state that they ended in. `clock` gives the
     * readings of the clock in turn: one for the read, then two for each entry.
     */
    method Drain(d: Declared, scope: Scope, limit: int, clock: nat -> int) returns (r: DrainResult, ghost done: seq<R.Handled>)
      requires Valid() && ValidDeclared(d) && EntriesOk(d, entries)
      modifies this
      ensures Valid() && Sound(d, old(entries), entries, scope)
      ensures r.InvalidLimit? <==> limit <= 0 || limit > MAX_SAFE_INTEGER
      ensures r.InvalidLimit? ==> entries == old(entries)
      ensures Records(d, old(entries), entries, done) && AllOf(scope, done)
      ensures !r.InvalidLimit? ==> InOrder(Take(Due(old(entries), scope, clock(0)), limit), clock, done)
      ensures r.Report? ==> Stopped(d, scope, Take(Due(old(entries), scope, clock(0)), limit), clock, done)
      ensures r.Report? ==>
        && ReportOk(r.report, limit) && Tallied(old(entries), entries, r.report)
        && Attempts(entries) == Attempts(old(entries)) + r.report.attempted
      ensures r.Report? ==>
        && r.report.name == scope.name && Chronicled(d, done, r.report)
    {
      done := [];
      NothingRecorded(d, entries);
      if !(0 < limit <= MAX_SAFE_INTEGER) { return InvalidLimit, done; }
      var due := ReadDue(scope, clock(0), limit);
      DrainBegins(d, entries, scope, clock(0), limit);
      ghost var begun := entries;
      var report, rest, recorded := Pass(d, scope, due, clock);
      done := recorded;
      PassMeans(d, begun, entries, scope, rest, done);
      if report.None? { return WasInterrupted, done; }
      ChronicleTallies(d, begun, entries, done, report.value);
      r := Report(report.value.(more := report.value.attempted >= limit));
    }
  }

  /**
   * Rows are legal, settled entries and those of other scopes are as they were, and an ordered pass keeps the
   * settled entries of each partition a prefix.
   */
  ghost predicate Sound(d: Declared, begun: seq<Entry>, entries: seq<Entry>, scope: Scope) {
    && EntriesOk(d, entries) && R.Preserves(begun, entries)
    && (scope.ordered && PrefixSettled(begun, scope.name) ==> PrefixSettled(entries, scope.name))
    && (forall i :: 0 <= i < |begun| && !InScope(begun[i], scope) ==> entries[i] == begun[i])
  }

  /** Every attempt was of a pending entry of the name and, when one is asked for, of the partition. */
  ghost predicate AllOf(scope: Scope, done: seq<R.Handled>) {
    forall h :: h in done ==>
      && h.entry.state == Pending && h.entry.name == scope.name
      && (scope.partitionId.Some? ==> h.entry.partitionId == scope.partitionId.value)
  }

  /** The rest of a pass: an ordered pass stops behind a retry. */
  function AfterSettling(scope: Scope, queue: seq<Entry>, s: Settlement): seq<Entry>
    requires queue != []
  {
    if scope.ordered && s.SettleRetry? then [] else queue[1..]
  }

  predicate ReportOk(report: DrainReport, limit: int) {
    && report.attempted == report.delivered + report.retried + report.deadLettered <= limit
    && (report.more <==> report.attempted == limit)
  }

  lemma {:induction false} DrainBegins(d: Declared, entries: seq<Entry>, scope: Scope, now: int, limit: nat)
    requires EntriesOk(d, entries)
    ensures DrainInv(d, entries, entries, scope, Take(Due(entries, scope, now), limit), 0)
  {
    ReadIsOldest(entries, scope, now, limit);
  }

  /** What holds between two entries of a pass that began on `begun` and settled `handled` entries. */
  ghost predicate DrainInv(d: Declared, begun: seq<Entry>, entries: seq<Entry>, scope: Scope, queue: seq<Entry>, handled: nat) {
    PassOk(d, begun, entries, scope, handled) && TurnOk(begun, entries, scope, queue)
  }

  /** Rows are legal, settled ones and those out of scope are as they were, and each settlement is one attempt. */
  ghost predicate PassOk(d: Declared, begun: seq<Entry>, entries: seq<Entry>, scope: Scope, handled: nat) {
    && EntriesOk(d, entries) && R.Preserves(begun, entries)
    && (forall i :: 0 <= i < |begun| && !InScope(begun[i], scope) ==> entries[i] == begun[i])
    && Attempts(entries) == Attempts(begun) + handled
  }

  /** The queue is what is still to be handled, and an ordered pass has settled a prefix. */
  ghost predicate TurnOk(begun: seq<Entry>, entries: seq<Entry>, scope: Scope, queue: seq<Entry>) {
    && QueueOk(entries, scope, queue)
    && (scope.ordered ==> QueueIsOldest(entries, scope, queue))
    && (scope.ordered && PrefixSettled(begun, scope.name) ==> PrefixSettled(entries, scope.name))
  }

  lemma {:induction false} GrowthPreserves(begun: seq<Entry>, before: seq<Entry>, next: seq<Entry>, scope: Scope)
    requires R.Preserves(begun, before) && before <= next
    requires forall i :: 0 <= i < |begun| && !InScope(begun[i], scope) ==> before[i] == begun[i]
    ensures R.Preserves(begun, next)
    ensures forall i :: 0 <= i < |begun| && !InScope(begun[i], scope) ==> next[i] == begun[i]
  {
    forall i | 0 <= i < |begun|
      ensures R.SameIdentity(begun[i], next[i]) && (begun[i].state != Pending ==> next[i] == begun[i])
    {
      assert next[i] == before[i];
    }
    assert forall i :: 0 <= i < |begun| ==> next[i] == before[i];
  }

  lemma {:induction false} GrowthKeepsDrain(d: Declared, begun: seq<Entry>, before: seq<Entry>, drafts: seq<Draft>,
                                            scope: Scope, queue: seq<Entry>, handled: nat)
    requires ValidDeclared(d) && DrainInv(d, begun, before, scope, queue, handled)
    ensures DrainInv(d, begun, EnqueueAll(before, drafts), scope, queue, handled) && before <= EnqueueAll(before, drafts)
  {
    var next := EnqueueAll(before, drafts);
    EnqueueAllOk(d, before, drafts);
    GrowthPreserves(begun, before, next, scope);
    GrowthKeepsQueue(before, next, scope, queue);
    if PrefixSettled(before, scope.name) { GrowthKeepsPrefix(before, next, scope.name); }
  }

  // ---- What a pass records ---------------------------------------------------------------------------

  /** The attempt leads to the state. */
  function EndsIn(d: Declared, state: EntryState): R.Handled -> bool { (h: R.Handled) => R.EndOf(d, h) == state }

  /** Attempt `j` was of an entry as the pass found it, and the store says how it ended. */
  ghost predicate Stands(d: Declared, begun: seq<Entry>, entries: seq<Entry>, h: R.Handled) {
    && 0 < h.entry.id <= |begun| <= |entries| && begun[h.entry.id - 1] == h.entry
    && R.Recorded(d, h, entries[h.entry.id - 1])
  }

  /** No attempt was of the entry at place `i`. */
  ghost predicate Untried(done: seq<R.Handled>, i: int) { forall j :: 0 <= j < |done| ==> done[j].entry.id != i + 1 }

  /** Each attempt was of another entry, older ones first, and is recorded; all other entries are as they were. */
  ghost predicate Records(d: Declared, begun: seq<Entry>, entries: seq<Entry>, done: seq<R.Handled>) {
    && |begun| <= |entries|
    && (forall j :: 0 <= j < |done| ==> Stands(d, begun, entries, done[j]))
    && (forall i, j :: 0 <= i < j < |done| ==> done[i].entry.id < done[j].entry.id)
    && (forall i {:trigger Untried(done, i)} :: 0 <= i < |begun| && Untried(done, i) ==> entries[i] == begun[i])
  }

  /** A pass attempts only pending entries of its scope: it changes no others. */
  lemma {:induction false} TriedInScope(
      d: Declared, begun: seq<Entry>, entries: seq<Entry>, scope: Scope, rest: seq<Entry>, done: seq<R.Handled>)
    requires DrainInv(d, begun, entries, scope, rest, |done|) && Records(d, begun, entries, done)
    ensures forall h :: h in done ==> h.entry.state == Pending && InScope(h.entry, scope)
  {
    forall h | h in done ensures h.entry.state == Pending && InScope(h.entry, scope) {
      assert Stands(d, begun, entries, h);
      assert entries[h.entry.id - 1] != begun[h.entry.id - 1];
    }
  }

  /** The numbers of a report are the attempts, by what their outcomes lead to. */
  ghost predicate Chronicled(d: Declared, done: seq<R.Handled>, report: DrainReport) {
    && report.attempted == |done|
    && report.delivered == |Places(done, EndsIn(d, Delivered))|
    && report.retried == |Places(done, EndsIn(d, Pending))|
    && report.deadLettered == |Places(done, EndsIn(d, Dead))|
    && report.attempted == report.delivered + report.retried + report.deadLettered
  }

  /** What waits in the queue is newer than everything that was tried. */
  ghost predicate Behind(done: seq<R.Handled>, queue: seq<Entry>) {
    forall i, j :: 0 <= i < |done| && 0 <= j < |queue| ==> done[i].entry.id < queue[j].id
  }

  lemma {:induction false} NothingRecorded(d: Declared, entries: seq<Entry>)
    ensures Records(d, entries, entries, [])
  {
  }

  lemma {:induction false} RecordsGrow(
      d: Declared, begun: seq<Entry>, before: seq<Entry>, after: seq<Entry>, done: seq<R.Handled>)
    requires Records(d, begun, before, done) && before <= after
    ensures Records(d, begun, after, done)
  {
    forall j | 0 <= j < |done| ensures Stands(d, begun, after, done[j]) { assert Stands(d, begun, before, done[j]); }
  }

  /** The entry now says how the attempt ended. */
  ghost predicate Ended(d: Declared, entries: seq<Entry>, e: Entry, outcome: Outcome, at: int, s: Settlement) {
    && (d.decodes(e.name, e.payload) ==> outcome != Interrupted)
    && s == R.SettlementFor(d, e, outcome, at)
    && 0 < e.id <= |entries| && entries[e.id - 1] == Settle(e, s)
  }

  lemma {:induction false} RecordsOne(
      d: Declared, begun: seq<Entry>, before: seq<Entry>, after: seq<Entry>, e: Entry, outcome: Outcome, at: int,
      s: Settlement, done: seq<R.Handled>)
    requires Records(d, begun, before, done) && 0 < e.id <= |begun| && begun[e.id - 1] == e
    requires Consistent(e) && e.state == Pending && Ended(d, after, e, outcome, at, s) && SettledOne(before, after, e, s)
    requires forall i :: 0 <= i < |done| ==> done[i].entry.id < e.id
    ensures Records(d, begun, after, done + [R.Handled(e, outcome, at)])
  {
    var h := R.Handled(e, outcome, at);
    var all := done + [h];
    R.SettlementRecords(d, h);
    forall j | 0 <= j < |all| ensures Stands(d, begun, after, all[j]) {
      if j < |done| { assert Stands(d, begun, before, done[j]); }
    }
    forall i | 0 <= i < |begun| && Untried(all, i) ensures after[i] == begun[i] {
      assert all[|done|].entry.id != i + 1;
      assert Untried(done, i) by {
        forall j | 0 <= j < |done| ensures done[j].entry.id != i + 1 { assert all[j] == done[j]; }
      }
    }
  }

  /** The entries were tried as they were read, each when it was due. */
  ghost predicate InOrder(due: seq<Entry>, clock: nat -> int, done: seq<R.Handled>) {
    && |done| <= |due|
    && forall j :: 0 <= j < |done| ==>
         && done[j].entry == due[j] && done[j].at == clock(2 * j + 2)
         && due[j].nextAttemptAtMs <= clock(2 * j + 1)
  }

  /** An ordered pass ended with a retry. */
  ghost predicate Retried(d: Declared, scope: Scope, done: seq<R.Handled>) {
    scope.ordered && done != [] && R.EndOf(d, done[|done| - 1]) == Pending
  }

  /** A pass stops early only behind a retry in order or in front of an entry that is not due yet. */
  ghost predicate Stopped(d: Declared, scope: Scope, due: seq<Entry>, clock: nat -> int, done: seq<R.Handled>) {
    |done| == |due| || Retried(d, scope, done)
    || (|done| < |due| && due[|done|].nextAttemptAtMs > clock(2 * |done| + 1))
  }

  /** The settlements of a pass, in order, lead where the outcomes lead. */
  ghost predicate Matches(d: Declared, done: seq<R.Handled>, settlements: seq<Settlement>) {
    |done| == |settlements| && forall i :: 0 <= i < |done| ==> StateAfter(settlements[i]) == R.EndOf(d, done[i])
  }

  lemma {:induction false} MatchesNext(d: Declared, before: seq<R.Handled>, done: seq<R.Handled>, settlements: seq<Settlement>)
    requires settlements != [] && |done| == |before| + 1 && done[..|before|] == before
    requires Matches(d, before, settlements[..|settlements| - 1])
    requires R.EndOf(d, done[|before|]) == StateAfter(settlements[|settlements| - 1])
    ensures Matches(d, done, settlements)
  {
    forall i | 0 <= i < |done| ensures StateAfter(settlements[i]) == R.EndOf(d, done[i]) {
      if i < |before| { assert done[i] == before[i] && settlements[i] == settlements[..|settlements| - 1][i]; }
    }
  }

  /** The pass so far: what was tried as it was read, its settlements, and what is still to be tried. */
  ghost predicate Underway(d: Declared, scope: Scope, due: seq<Entry>, clock: nat -> int, queue: seq<Entry>,
                           done: seq<R.Handled>, settlements: seq<Settlement>)
  {
    && Matches(d, done, settlements) && InOrder(due, clock, done)
    && (queue == due[|done|..] || (queue == [] && Retried(d, scope, done)))
  }

  lemma {:induction false} UnderwayHead(d: Declared, scope: Scope, due: seq<Entry>, clock: nat -> int, queue: seq<Entry>,
                                        done: seq<R.Handled>, settlements: seq<Settlement>)
    requires Underway(d, scope, due, clock, queue, done, settlements) && queue != []
    ensures |done| == |settlements| < |due| && queue[0] == due[|done|] && InOrder(due, clock, done)
    ensures queue[0].nextAttemptAtMs > clock(2 * |settlements| + 1) ==> Stopped(d, scope, due, clock, done)
  {
  }

  lemma {:induction false} UnderwayNext(d: Declared, scope: Scope, due: seq<Entry>, clock: nat -> int, queue: seq<Entry>,
                                        before: seq<R.Handled>, done: seq<R.Handled>, settlements: seq<Settlement>, s: Settlement)
    requires queue != [] && |done| == |before| + 1 && done[..|before|] == before
    requires Underway(d, scope, due, clock, queue, before, settlements)
    requires var n, h := |settlements|, done[|before|];
      && h.entry == queue[0] && h.at == clock(2 * n + 2) && queue[0].nextAttemptAtMs <= clock(2 * n + 1)
      && R.EndOf(d, h) == StateAfter(s)
    ensures Underway(d, scope, due, clock, AfterSettling(scope, queue, s), done, settlements + [s])
  {
    assert (settlements + [s])[..|settlements|] == settlements;
    MatchesNext(d, before, done, settlements + [s]);
    forall j | 0 <= j < |before| ensures done[j] == before[j] { assert done[..|before|][j] == done[j]; }
    assert queue[1..] == due[|done|..];
    assert s.SettleRetry? <==> StateAfter(s) == Pending;
  }

  ghost predicate Closes(
      d: Declared, scope: Scope, due: seq<Entry>, clock: nat -> int, done: seq<R.Handled>, report: DrainReport)
  {
    Stopped(d, scope, due, clock, done) && Chronicled(d, done, report) && report.name == scope.name && !report.more
  }

  /** `attempted` and the three counts of a finished pass. */
  function ReportOf(scope: Scope, settlements: seq<Settlement>): DrainReport {
    DrainReport(scope.name, |settlements|, CountOf(settlements, Delivered), CountOf(settlements, Pending),
                CountOf(settlements, Dead), false)
  }

  lemma {:induction false} UnderwayEnds(d: Declared, scope: Scope, due: seq<Entry>, clock: nat -> int, queue: seq<Entry>,
                                        done: seq<R.Handled>, settlements: seq<Settlement>)
    requires Underway(d, scope, due, clock, queue, done, settlements)
    requires queue == [] || Stopped(d, scope, due, clock, done)
    ensures InOrder(due, clock, done) && Closes(d, scope, due, clock, done, ReportOf(scope, settlements))
  {
    MatchedCounts(d, done, settlements);
  }

  function LeadsTo(state: EntryState): Settlement -> bool { (s: Settlement) => StateAfter(s) == state }

  /** `count`: how many settlements are of the kind. */
  function CountOf(settlements: seq<Settlement>, state: EntryState): nat { |Filter(settlements, LeadsTo(state))| }

  lemma {:induction false} CountedPlaces(d: Declared, done: seq<R.Handled>, settlements: seq<Settlement>, state: EntryState)
    requires Matches(d, done, settlements)
    ensures CountOf(settlements, state) == |Places(done, EndsIn(d, state))|
  {
    FilterPlaces(settlements, LeadsTo(state));
    assert Places(settlements, LeadsTo(state)) == Places(done, EndsIn(d, state));
  }

  lemma {:induction false} MatchedCounts(d: Declared, done: seq<R.Handled>, settlements: seq<Settlement>)
    requires Matches(d, done, settlements)
    ensures forall state :: CountOf(settlements, state) == |Places(done, EndsIn(d, state))|
    ensures |settlements| == CountOf(settlements, Delivered) + CountOf(settlements, Pending) + CountOf(settlements, Dead)
  {
    forall state ensures CountOf(settlements, state) == |Places(done, EndsIn(d, state))| {
      CountedPlaces(d, done, settlements, state);
    }
    ThreeKinds(settlements);
  }

  lemma {:induction false} ThreeKinds(settlements: seq<Settlement>)
    ensures |settlements| == CountOf(settlements, Delivered) + CountOf(settlements, Pending) + CountOf(settlements, Dead)
  {
    if settlements != [] { ThreeKinds(settlements[1..]); }
  }

  // ---- What a pass counts ------------------------------------------------------------------------------

  function StateAfter(s: Settlement): EntryState {
    if s.SettleDelivered? then Delivered else if s.SettleRetry? then Pending else Dead
  }

  /** One entry was settled; entries may have been added. */
  ghost predicate SettledOne(before: seq<Entry>, after: seq<Entry>, e: Entry, s: Settlement) {
    && 0 < e.id <= |before| <= |after|
    && (forall i :: 0 <= i < |before| && i != e.id - 1 ==> after[i] == before[i])
    && after[e.id - 1].state == StateAfter(s) && after[e.id - 1].attempts == e.attempts + 1
  }

  lemma {:induction false} SettlesHead(d: Declared, before: seq<Entry>, grown: seq<Entry>, e: Entry, s: Settlement)
    requires before <= grown && 0 < e.id <= |before| && grown[e.id - 1] == e && Fits(d, e, s)
    ensures SettledOne(before, SettleAt(grown, e.id, s), e, s)
  {
  }

  /** The entries that a pass began with, attempted and left in the state. */
  ghost function MovedTo(begun: seq<Entry>, entries: seq<Entry>, state: EntryState): set<nat>
    requires |begun| <= |entries|
  {
    set i: nat | i < |begun| && entries[i].attempts != begun[i].attempts && entries[i].state == state
  }

  /** The three numbers of a report are the entries that the pass attempted, by where they ended. */
  ghost predicate Tallied(begun: seq<Entry>, entries: seq<Entry>, report: DrainReport)
    requires |begun| <= |entries|
  {
    && report.delivered == |MovedTo(begun, entries, Delivered)|
    && report.retried == |MovedTo(begun, entries, Pending)|
    && report.deadLettered == |MovedTo(begun, entries, Dead)|
    && report.attempted == report.delivered + report.retried + report.deadLettered
  }

  lemma {:induction false} MovedByAttempts(
      d: Declared, begun: seq<Entry>, entries: seq<Entry>, done: seq<R.Handled>, state: EntryState)
    requires Records(d, begun, entries, done)
    ensures |MovedTo(begun, entries, state)| == |Places(done, EndsIn(d, state))|
  {
    forall j: nat | j < |done|
      ensures done[j].entry.id > 0 && (R.EndOf(d, done[j]) == state <==> (done[j].entry.id - 1) in MovedTo(begun, entries, state))
    {
      TriedIsMoved(d, begun, entries, done, state, j);
    }
    forall i | i in MovedTo(begun, entries, state) ensures TriedAt(done, i) {
      assert !Untried(done, i);
      var j: nat :| j < |done| && done[j].entry.id == i + 1;
    }
    AttemptsMatch(done, MovedTo(begun, entries, state), EndsIn(d, state));
  }

  ghost predicate TriedAt(done: seq<R.Handled>, i: int) { exists j: nat :: j < |done| && done[j].entry.id == i + 1 }

  lemma {:induction false} TriedIsMoved(
      d: Declared, begun: seq<Entry>, entries: seq<Entry>, done: seq<R.Handled>, state: EntryState, j: nat)
    requires Records(d, begun, entries, done) && j < |done|
    ensures done[j].entry.id > 0
    ensures R.EndOf(d, done[j]) == state <==> (done[j].entry.id - 1) in MovedTo(begun, entries, state)
  {
    assert Stands(d, begun, entries, done[j]);
  }

  lemma {:induction false} AttemptsMatch(done: seq<R.Handled>, moved: set<nat>, p: R.Handled -> bool)
    requires forall j: nat :: j < |done| ==> done[j].entry.id > 0 && (p(done[j]) <==> (done[j].entry.id - 1) in moved)
    requires forall i, j :: 0 <= i < j < |done| ==> done[i].entry.id < done[j].entry.id
    requires forall i {:trigger TriedAt(done, i)} :: i in moved ==> TriedAt(done, i)
    ensures |moved| == |Places(done, p)|
  {
    var f := map j | j in Places(done, p) :: (done[j].entry.id - 1) as nat;
    forall i | i in moved ensures i in f.Values {
      assert TriedAt(done, i);
      var j: nat :| j < |done| && done[j].entry.id == i + 1;
      assert j in f && f[j] == i;
    }
    assert f.Values <= moved;
    forall x, y | x in f && y in f && f[x] == f[y] ensures x == y { assert done[x].entry.id == done[y].entry.id; }
    SameSize(Places(done, p), moved, f);
  }

  lemma {:induction false} ChronicleTallies(
      d: Declared, begun: seq<Entry>, entries: seq<Entry>, done: seq<R.Handled>, report: DrainReport)
    requires Records(d, begun, entries, done) && Chronicled(d, done, report)
    ensures Tallied(begun, entries, report)
  {
    MovedByAttempts(d, begun, entries, done, Delivered);
    MovedByAttempts(d, begun, entries, done, Pending);
    MovedByAttempts(d, begun, entries, done, Dead);
  }

  /** What is still to be handled is as it was when the pass began. */
  ghost predicate AsRead(begun: seq<Entry>, entries: seq<Entry>, queue: seq<Entry>) {
    forall i :: 0 <= i < |queue| ==>
      0 < queue[i].id <= |begun| <= |entries| && begun[queue[i].id - 1] == queue[i] == entries[queue[i].id - 1]
  }

  lemma {:induction false} DrainReads(d: Declared, entries: seq<Entry>, scope: Scope, due: seq<Entry>)
    requires DrainInv(d, entries, entries, scope, due, 0)
    ensures AsRead(entries, entries, due)
  {
  }

  /** The queue is in id order. */
  ghost predicate OldestFirst(queue: seq<Entry>) { forall i :: 0 < i < |queue| ==> queue[0].id < queue[i].id }

  lemma {:induction false} InTurn(
      d: Declared, begun: seq<Entry>, entries: seq<Entry>, scope: Scope, queue: seq<Entry>, handled: nat)
    requires DrainInv(d, begun, entries, scope, queue, handled)
    ensures OldestFirst(queue)
  {
  }

  /** The rest of the queue is left as it was read. */
  lemma {:induction false} RestAsRead(
      begun: seq<Entry>, before: seq<Entry>, after: seq<Entry>, scope: Scope, queue: seq<Entry>, s: Settlement)
    requires queue != [] && AsRead(begun, before, queue) && SettledOne(before, after, queue[0], s) && OldestFirst(queue)
    ensures AsRead(begun, after, AfterSettling(scope, queue, s))
  {
    var rest := AfterSettling(scope, queue, s);
    forall i | 0 <= i < |rest|
      ensures 0 < rest[i].id <= |begun| && begun[rest[i].id - 1] == rest[i] == after[rest[i].id - 1]
    {
      assert rest[i] == queue[i + 1];
    }
  }

  /** What holds between two entries of a pass. */
  ghost predicate InPass(
      d: Declared, begun: seq<Entry>, entries: seq<Entry>, scope: Scope, queue: seq<Entry>, done: seq<R.Handled>)
  {
    && DrainInv(d, begun, entries, scope, queue, |done|)
    && AsRead(begun, entries, queue) && Records(d, begun, entries, done) && Behind(done, queue)
  }

  lemma {:induction false} PassHolds(
      d: Declared, begun: seq<Entry>, entries: seq<Entry>, scope: Scope, queue: seq<Entry>, done: seq<R.Handled>)
    requires InPass(d, begun, entries, scope, queue, done)
    ensures DrainInv(d, begun, entries, scope, queue, |done|) && Records(d, begun, entries, done)
  {
  }

  lemma {:induction false} PassMeans(
      d: Declared, begun: seq<Entry>, entries: seq<Entry>, scope: Scope, rest: seq<Entry>, done: seq<R.Handled>)
    requires InPass(d, begun, entries, scope, rest, done)
    ensures Sound(d, begun, entries, scope) && Records(d, begun, entries, done) && AllOf(scope, done)
    ensures Attempts(entries) == Attempts(begun) + |done|
  {
    TriedInScope(d, begun, entries, scope, rest, done);
  }

  lemma {:induction false} PassBegins(d: Declared, entries: seq<Entry>, scope: Scope, due: seq<Entry>)
    requires DrainInv(d, entries, entries, scope, due, 0)
    ensures InPass(d, entries, entries, scope, due, [])
  {
    DrainReads(d, entries, scope, due);
    NothingRecorded(d, entries);
  }

  /** An interrupted pass leaves the rest of its queue. */
  lemma {:induction false} PassStops(
      d: Declared, begun: seq<Entry>, before: seq<Entry>, after: seq<Entry>, scope: Scope, queue: seq<Entry>,
      done: seq<R.Handled>)
    requires InPass(d, begun, before, scope, queue, done) && before <= after
    requires DrainInv(d, begun, after, scope, queue, |done|)
    ensures InPass(d, begun, after, scope, [], done)
  {
    RecordsGrow(d, begun, before, after, done);
  }

  lemma {:induction false} PassTurns(
      d: Declared, begun: seq<Entry>, before: seq<Entry>, after: seq<Entry>, scope: Scope, queue: seq<Entry>,
      outcome: Outcome, at: int, s: Settlement, done: seq<R.Handled>)
    requires InPass(d, begun, before, scope, queue, done)
    requires queue != [] && SettledOne(before, after, queue[0], s) && Ended(d, after, queue[0], outcome, at, s)
    requires DrainInv(d, begun, after, scope, AfterSettling(scope, queue, s), |done| + 1)
    ensures InPass(d, begun, after, scope, AfterSettling(scope, queue, s), done + [R.Handled(queue[0], outcome, at)])
    ensures R.EndOf(d, R.Handled(queue[0], outcome, at)) == StateAfter(s)
  {
    var h := R.Handled(queue[0], outcome, at);
    InTurn(d, begun, before, scope, queue, |done|);
    RestAsRead(begun, before, after, scope, queue, s);
    HeadAsRead(d, begun, before, scope, queue, done);
    RecordsOne(d, begun, before, after, queue[0], outcome, at, s, done);
    R.SettlementRecords(d, h);
    BehindNext(done, h, scope, queue, s);
  }

  lemma {:induction false} BehindNext(done: seq<R.Handled>, h: R.Handled, scope: Scope, queue: seq<Entry>, s: Settlement)
    requires Behind(done, queue) && OldestFirst(queue) && queue != [] && h.entry == queue[0]
    ensures Behind(done + [h], AfterSettling(scope, queue, s))
  {
    var rest, all := AfterSettling(scope, queue, s), done + [h];
    forall i, j | 0 <= i < |all| && 0 <= j < |rest| ensures all[i].entry.id < rest[j].id {
      assert rest[j] == queue[j + 1] && queue[0].id < queue[j + 1].id;
      if i < |done| { assert done[i].entry.id < queue[j + 1].id; }
    }
  }

  lemma {:induction false} HeadAsRead(
      d: Declared, begun: seq<Entry>, entries: seq<Entry>, scope: Scope, queue: seq<Entry>, done: seq<R.Handled>)
    requires InPass(d, begun, entries, scope, queue, done) && queue != []
    ensures 0 < queue[0].id <= |begun| && begun[queue[0].id - 1] == queue[0]
    ensures Consistent(queue[0]) && queue[0].state == Pending
    ensures forall i :: 0 <= i < |done| ==> done[i].entry.id < queue[0].id
  {
    assert RowOk(d, entries[queue[0].id - 1]);
  }

  lemma {:induction false} HeadFits(d: Declared, begun: seq<Entry>, entries: seq<Entry>, scope: Scope, queue: seq<Entry>,
                                    handled: nat, outcome: Outcome, now: int)
    requires DrainInv(d, begun, entries, scope, queue, handled) && queue != []
    requires d.decodes(queue[0].name, queue[0].payload) ==> outcome != Interrupted
    ensures Fits(d, queue[0], R.SettlementFor(d, queue[0], outcome, now))
  {
    assert RowOk(d, entries[queue[0].id - 1]);
  }

  lemma {:induction false} SettleKeepsOthers(begun: seq<Entry>, entries: seq<Entry>, scope: Scope, e: Entry, s: Settlement)
    requires R.Preserves(begun, entries) && 0 < e.id <= |entries| && entries[e.id - 1] == e
    requires e.state == Pending && InScope(e, scope)
    requires forall i :: 0 <= i < |begun| && !InScope(begun[i], scope) ==> entries[i] == begun[i]
    ensures R.Preserves(begun, SettleAt(entries, e.id, s))
    ensures forall i :: 0 <= i < |begun| && !InScope(begun[i], scope) ==> SettleAt(entries, e.id, s)[i] == begun[i]
  {
    if e.id <= |begun| { assert R.SameIdentity(begun[e.id - 1], e); }
  }

  lemma {:induction false} SettleKeepsDrain(d: Declared, begun: seq<Entry>, entries: seq<Entry>, scope: Scope,
                                            queue: seq<Entry>, handled: nat, s: Settlement)
    requires DrainInv(d, begun, entries, scope, queue, handled) && queue != [] && Fits(d, queue[0], s)
    ensures var next := SettleAt(entries, queue[0].id, s);
      DrainInv(d, begun, next, scope, AfterSettling(scope, queue, s), handled + 1)
  {
    SettleKeepsTurn(d, begun, entries, scope, queue, s);
    SettleKeepsPass(d, begun, entries, scope, queue[0], handled, s);
  }

  lemma {:induction false} SettleKeepsPass(
      d: Declared, begun: seq<Entry>, entries: seq<Entry>, scope: Scope, e: Entry, handled: nat, s: Settlement)
    requires PassOk(d, begun, entries, scope, handled) && Fits(d, e, s)
    requires 0 < e.id <= |entries| && entries[e.id - 1] == e && e.state == Pending && InScope(e, scope)
    ensures PassOk(d, begun, SettleAt(entries, e.id, s), scope, handled + 1)
  {
    SettleOk(d, entries, e.id, s);
    SettleKeepsOthers(begun, entries, scope, e, s);
  }

  lemma {:induction false} SettleKeepsTurn(
      d: Declared, begun: seq<Entry>, entries: seq<Entry>, scope: Scope, queue: seq<Entry>, s: Settlement)
    requires TurnOk(begun, entries, scope, queue) && EntriesOk(d, entries) && queue != [] && Fits(d, queue[0], s)
    ensures TurnOk(begun, SettleAt(entries, queue[0].id, s), scope, AfterSettling(scope, queue, s))
  {
    SettleKeepsQueue(entries, scope, queue, s);
    if scope.ordered && PrefixSettled(begun, scope.name) { SettleKeepsPrefix(entries, scope, queue, s); }
  }

  lemma {:induction false} HeadIsStored(d: Declared, begun: seq<Entry>, entries: seq<Entry>, scope: Scope, queue: seq<Entry>, handled: nat)
    requires DrainInv(d, begun, entries, scope, queue, handled) && queue != []
    ensures 0 < queue[0].id <= |entries| && entries[queue[0].id - 1] == queue[0]
  {
  }

  /** What recording the outcome of the entry in hand does to the pass; `grown` is `before` with what was enqueued. */
  lemma {:induction false} HeadSettles(d: Declared, begun: seq<Entry>, before: seq<Entry>, grown: seq<Entry>, scope: Scope,
                                       queue: seq<Entry>, handled: nat, outcome: Outcome, now: int)
    requires DrainInv(d, begun, grown, scope, queue, handled) && queue != [] && before <= grown && queue[0].id <= |before|
    requires d.decodes(queue[0].name, queue[0].payload) ==> outcome != Interrupted
    ensures 0 < queue[0].id <= |grown|
    ensures var e := queue[0]; var s := R.SettlementFor(d, e, outcome, now);
      && DrainInv(d, begun, SettleAt(grown, e.id, s), scope, AfterSettling(scope, queue, s), handled + 1)
      && SettledOne(before, SettleAt(grown, e.id, s), e, s)
  {
    HeadFits(d, begun, grown, scope, queue, handled, outcome, now);
    var s := R.SettlementFor(d, queue[0], outcome, now);
    SettleKeepsDrain(d, begun, grown, scope, queue, handled, s);
    SettlesHead(d, before, grown, queue[0], s);
  }

  ghost predicate IdentitiesOk(identities: map<string, set<string>>, entries: seq<Entry>) {
    forall name, key :: Known(entries, name, key) <==> name in identities && key in identities[name]
  }

  lemma {:induction false} KnownByIdentity(identities: map<string, set<string>>, entries: seq<Entry>, name: string, key: string)
    requires IdentitiesOk(identities, entries)
    ensures Known(entries, name, key) <==> key in (if name in identities then identities[name] else {})
  {
  }

  lemma {:induction false} KnownSnoc(entries: seq<Entry>, e: Entry, name: string, key: string)
    ensures Known(entries + [e], name, key) <==> Known(entries, name, key) || (e.name == name && e.key == key)
  {
    var all := entries + [e];
    if Known(entries, name, key) {
      var i :| 0 <= i < |entries| && entries[i].name == name && entries[i].key == key;
      assert all[i] == entries[i];
    }
    if e.name == name && e.key == key { assert all[|entries|] == e; }
  }

  lemma {:induction false} IdentitiesAfterAppend(identities: map<string, set<string>>, entries: seq<Entry>, e: Entry)
    requires IdentitiesOk(identities, entries)
    ensures var keys := if e.name in identities then identities[e.name] else {};
      IdentitiesOk(identities[e.name := keys + {e.key}], entries + [e])
  {
    var keys := if e.name in identities then identities[e.name] else {};
    var next := identities[e.name := keys + {e.key}];
    forall name, key ensures Known(entries + [e], name, key) <==> name in next && key in next[name] {
      KnownSnoc(entries, e, name, key);
    }
  }

  lemma {:induction false} SettleKeepsKnown(identities: map<string, set<string>>, entries: seq<Entry>, id: nat, s: Settlement)
    requires 0 < id <= |entries| && IdentitiesOk(identities, entries)
    ensures IdentitiesOk(identities, SettleAt(entries, id, s))
  {
    var next := SettleAt(entries, id, s);
    forall name, key ensures Known(next, name, key) <==> Known(entries, name, key) {
      assert forall i :: 0 <= i < |entries| ==> next[i].name == entries[i].name && next[i].key == entries[i].key;
      if Known(entries, name, key) {
        var i :| 0 <= i < |entries| && entries[i].name == name && entries[i].key == key;
        assert next[i].key == key;
      }
    }
  }

  function NextDueOf(entries: seq<Entry>, scope: Scope): Option<int> {
    var due := Due(entries, scope.(ordered := true), 0);
    if due == [] then None
    else if scope.ordered then Some(due[0].nextAttemptAtMs)
    else Some(Least(due, due[0].nextAttemptAtMs))
  }

  // ---- nextDue and readDue agree -------------------------------------------------------------------------

  lemma {:induction false} LeastIsMinimum(due: seq<Entry>, least: int)
    ensures Least(due, least) <= least
    ensures forall e :: e in due ==> Least(due, least) <= e.nextAttemptAtMs
    ensures Least(due, least) == least || exists e :: e in due && e.nextAttemptAtMs == Least(due, least)
  {
    if due != [] {
      var n := |due| - 1;
      LeastIsMinimum(due[..n], least);
      assert forall e :: e in due <==> e in due[..n] || e == due[n];
      assert due[n] in due;
    }
  }

  /** A scope has work to do at a time exactly when its next due time has come. */
  lemma {:induction false} NextDueIsWhenReadFinds(entries: seq<Entry>, scope: Scope, now: int, limit: nat)
    requires limit > 0
    ensures var read := Take(Due(entries, scope, now), limit);
      (read != [] && read[0].nextAttemptAtMs <= now)
      <==> (NextDueOf(entries, scope).Some? && NextDueOf(entries, scope).value <= now)
  {
    if scope.ordered {
      SameOrderedRead(entries, scope, now);
    } else {
      var all, read := Due(entries, scope.(ordered := true), 0), Due(entries, scope, now);
      if all != [] { LeastIsMinimum(all, all[0].nextAttemptAtMs); assert all[0] in all; }
      if read != [] {
        assert read[0] in read;
        DueMember(entries, scope, now, read[0]);
        DueMember(entries, scope.(ordered := true), 0, read[0]);
      }
      forall e | e in all && e.nextAttemptAtMs <= now ensures e in read {
        DueMember(entries, scope, now, e);
        DueMember(entries, scope.(ordered := true), 0, e);
      }
    }
  }

  /** An ordered read does not look at the clock. */
  lemma {:induction false} SameOrderedRead(entries: seq<Entry>, scope: Scope, now: int)
    requires scope.ordered
    ensures Due(entries, scope, now) == Due(entries, scope.(ordered := true), 0)
  {
    assert scope.(ordered := true) == scope;
    if entries != [] {
      SameOrderedRead(entries[1..], scope, now);
    }
  }
}
