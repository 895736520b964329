/** The outbox entries, the memory store and what one drain may do to them (packages/outbox/src). */
module Outbox {
  import opened Common
  import opened Backoff

  datatype EntryState = Pending | Delivered | Dead
  datatype Reason = AttemptsExhausted | Permanent | PayloadPoison

  datatype Entry = Entry(
    id: nat, name: string, partitionId: string, key: string, payload: string, state: EntryState, attempts: nat,
    nextAttemptAtMs: int, lastError: Option<string>, reason: Option<Reason>, enqueuedAtMs: int,
    settledAtMs: Option<int>)

  datatype Draft = Draft(name: string, partitionId: string, key: string, payload: string, enqueuedAtMs: int)

  /** How an attempt is written back: to its end state, or to another due time; `attempts` replaces the count. */
  datatype Settlement =
    | SettleDelivered(attempts: nat, atMs: int)
    | SettleRetry(attempts: nat, nextAttemptAtMs: int, detail: string)
    | SettleDead(attempts: nat, reason: Reason, detail: string, atMs: int)

  datatype Scope = Scope(name: string, partitionId: Option<string>, ordered: bool)

  /** How one delivery ends. */
  datatype Outcome =
    | Success
    | PermanentFailure(detail: string)
    | TransientFailure(detail: string)
    | Defect(detail: string)
    | Interrupted

  /** What the host declares for each name: its retry policy, which payloads decode, and what is wrong with the others. */
  datatype Declared = Declared(
    policy: string -> RetryPolicy, decodes: (string, string) -> bool, complaint: (string, string) -> string)

  const DETAIL_LENGTH := 500

  function Clip(text: string): string { if |text| <= DETAIL_LENGTH then text else text[..DETAIL_LENGTH] }

  /** What is kept of a failure: its own detail, or the start of the printed cause. */
  function DetailOf(outcome: Outcome): string
    requires !outcome.Success? && !outcome.Interrupted?
  {
    if outcome.Defect? then Clip(outcome.detail) else outcome.detail
  }

  ghost predicate ValidDeclared(d: Declared) {
    forall name :: Define(d.policy(name)).Ok?
  }

  function MaxAttempts(d: Declared, name: string): int { d.policy(name).maxAttempts }

  // ---- The store ---------------------------------------------------------------------------------

  function NewEntry(id: nat, draft: Draft): Entry {
    Entry(id, draft.name, draft.partitionId, draft.key, draft.payload, Pending, 0, draft.enqueuedAtMs, None, None,
          draft.enqueuedAtMs, None)
  }

  predicate Known(entries: seq<Entry>, name: string, key: string) {
    exists i :: 0 <= i < |entries| && entries[i].name == name && entries[i].key == key
  }

  /** One draft: nothing when its name and key are stored already, else a new entry with the next id. */
  function EnqueueOne(entries: seq<Entry>, draft: Draft): seq<Entry> {
    if Known(entries, draft.name, draft.key) then entries else entries + [NewEntry(|entries| + 1, draft)]
  }

  function EnqueueAll(entries: seq<Entry>, drafts: seq<Draft>): seq<Entry> {
    Fold(entries, EnqueueOne, drafts)
  }

  /** `settledFields` over the entry. */
  function Settle(e: Entry, s: Settlement): Entry {
    match s
    case SettleDelivered(attempts, atMs) =>
      e.(state := Delivered, attempts := attempts, settledAtMs := Some(atMs), lastError := None)
    case SettleRetry(attempts, next, detail) =>
      e.(state := Pending, attempts := attempts, nextAttemptAtMs := next, lastError := Some(detail))
    case SettleDead(attempts, reason, detail, atMs) =>
      e.(state := Dead, attempts := attempts, lastError := Some(detail), reason := Some(reason), settledAtMs := Some(atMs))
  }

  predicate InScope(e: Entry, scope: Scope) {
    e.name == scope.name && (scope.partitionId.None? || scope.partitionId.value == e.partitionId)
  }

  /** The pending entries of a scope; an unordered read keeps only those that are due. */
  function Due(entries: seq<Entry>, scope: Scope, now: int): seq<Entry> {
    Filter(entries, (e: Entry) =>
      InScope(e, scope) && e.state == Pending && (scope.ordered || e.nextAttemptAtMs <= now))
  }

  function Take<T>(s: seq<T>, n: nat): seq<T> { if |s| <= n then s else s[..n] }

  /** `classify` */
  function Classify(outcome: Outcome, attempt: nat, policy: RetryPolicy, now: int): Settlement
    requires outcome != Interrupted && attempt > 0
  {
    if outcome.Success? then SettleDelivered(attempt, now)
    else if outcome.PermanentFailure? || attempt >= policy.maxAttempts then
      SettleDead(attempt, if outcome.PermanentFailure? then Permanent else AttemptsExhausted, DetailOf(outcome), now)
    else SettleRetry(attempt, Deadline(policy, attempt, now), DetailOf(outcome))
  }

  // ---- Invariants of the entries ---------------------------------------------------------------------

  /** `decodeRow`'s consistency rule. */
  predicate Consistent(e: Entry) {
    && e.id > 0
    && (if e.state == Pending then e.settledAtMs.None? else e.settledAtMs.Some? && e.attempts > 0)
    && (e.state == Dead <==> e.reason.Some?)
  }

  /** Consistent, and within the attempts that its policy allows. */
  predicate RowOk(d: Declared, e: Entry) {
    && Consistent(e)
    && e.attempts <= MaxAttempts(d, e.name)
    && (e.state == Pending ==> e.attempts < MaxAttempts(d, e.name))
  }

  ghost predicate EntriesOk(d: Declared, entries: seq<Entry>) {
    && (forall i :: 0 <= i < |entries| ==> entries[i].id == i + 1 && RowOk(d, entries[i]))
    && (forall i, j {:trigger SameKey(entries[i], entries[j])} ::
          0 <= i < j < |entries| ==> !SameKey(entries[i], entries[j]))
  }

  predicate SameKey(a: Entry, b: Entry) { a.name == b.name && a.key == b.key }

  /** The settled entries of each partition of a name are an id-prefix of that partition. */
  ghost predicate PrefixSettled(entries: seq<Entry>, name: string) {
    forall i, j {:trigger SettledIn(name, entries[i], entries[j])} ::
      0 <= i < j < |entries| && SettledIn(name, entries[i], entries[j]) ==> entries[i].state != Pending
  }

  /** Two entries of one partition of the name, of which the second is settled. */
  predicate SettledIn(name: string, a: Entry, b: Entry) {
    a.name == b.name == name && a.partitionId == b.partitionId && b.state != Pending
  }

  /** Attempts still open over the pending entries. */
  function Remaining(d: Declared, entries: seq<Entry>): int {
    if entries == [] then 0
    else
      var n := |entries| - 1;
      Remaining(d, entries[..n]) +
      (if entries[n].state == Pending then MaxAttempts(d, entries[n].name) - entries[n].attempts else 0)
  }

  function Attempts(entries: seq<Entry>): nat {
    if entries == [] then 0 else Attempts(entries[..|entries| - 1]) + entries[|entries| - 1].attempts
  }

  /** What a drain has read and not yet handled: pending, unchanged since, in id order. */
  ghost predicate QueueOk(entries: seq<Entry>, scope: Scope, queue: seq<Entry>) {
    && (forall i :: 0 <= i < |queue| ==>
          0 < queue[i].id <= |entries| && entries[queue[i].id - 1] == queue[i]
          && queue[i].state == Pending && InScope(queue[i], scope))
    && (forall i, j :: 0 <= i < j < |queue| ==> queue[i].id < queue[j].id)
  }

  /** No pending entry of the scope comes before the queue. */
  ghost predicate QueueIsOldest(entries: seq<Entry>, scope: Scope, queue: seq<Entry>) {
    forall i: nat, k: nat {:trigger WaitsAhead(scope, entries[k], queue[i])} ::
      i < |queue| && k < |entries| && WaitsAhead(scope, entries[k], queue[i]) ==> Precedes(queue, i, entries[k])
  }

  /** The entry is pending in the scope and older than `q`. */
  predicate WaitsAhead(scope: Scope, e: Entry, q: Entry) { InScope(e, scope) && e.state == Pending && e.id < q.id }

  /** The entry is one of the first `i` of the queue. */
  ghost predicate Precedes(queue: seq<Entry>, i: nat, e: Entry) { exists j :: 0 <= j < i <= |queue| && queue[j] == e }

  lemma {:induction false} EnqueueOneOk(d: Declared, entries: seq<Entry>, draft: Draft)
    requires ValidDeclared(d) && EntriesOk(d, entries)
    ensures EntriesOk(d, EnqueueOne(entries, draft))
    ensures entries <= EnqueueOne(entries, draft)
    ensures Attempts(EnqueueOne(entries, draft)) == Attempts(entries)
    ensures forall i :: |entries| <= i < |EnqueueOne(entries, draft)| ==> EnqueueOne(entries, draft)[i].state == Pending
  {
    if !Known(entries, draft.name, draft.key) {
      var next := EnqueueOne(entries, draft);
      assert next[..|entries|] == entries;
      assert Define(d.policy(draft.name)).Ok?;
      forall i, j | 0 <= i < j < |next| ensures !SameKey(next[i], next[j]) {
        assert next[i] == entries[i];
        if j < |entries| { assert !SameKey(entries[i], entries[j]); }
      }
    }
  }

  /** Enqueueing appends new pending entries and touches no other. */
  lemma {:induction false} EnqueueAllOk(d: Declared, entries: seq<Entry>, drafts: seq<Draft>)
    requires ValidDeclared(d) && EntriesOk(d, entries)
    ensures var next := EnqueueAll(entries, drafts);
      && EntriesOk(d, next) && entries <= next && Attempts(next) == Attempts(entries)
      && (forall i :: |entries| <= i < |next| ==> next[i].state == Pending)
  {
    if drafts != [] {
      var front := drafts[..|drafts| - 1];
      EnqueueAllOk(d, entries, front);
      EnqueueOneOk(d, EnqueueAll(entries, front), drafts[|drafts| - 1]);
    }
  }

  lemma {:induction false} GrowthKeepsPrefix(entries: seq<Entry>, next: seq<Entry>, name: string)
    requires PrefixSettled(entries, name) && entries <= next
    requires forall i :: |entries| <= i < |next| ==> next[i].state == Pending
    ensures PrefixSettled(next, name)
  {
    forall i, j | 0 <= i < j < |next| && SettledIn(name, next[i], next[j]) ensures next[i].state != Pending {
      assert next[i] == entries[i] && next[j] == entries[j];
      assert SettledIn(name, entries[i], entries[j]);
    }
  }

  lemma {:induction false} GrowthKeepsQueue(entries: seq<Entry>, next: seq<Entry>, scope: Scope, queue: seq<Entry>)
    requires QueueOk(entries, scope, queue) && entries <= next
    requires forall i :: 0 <= i < |next| ==> next[i].id == i + 1
    ensures QueueOk(next, scope, queue)
    ensures QueueIsOldest(entries, scope, queue) ==> QueueIsOldest(next, scope, queue)
  {
    if QueueIsOldest(entries, scope, queue) {
      forall i: nat, k: nat | i < |queue| && k < |next| && WaitsAhead(scope, next[k], queue[i])
        ensures Precedes(queue, i, next[k])
      {
        assert next[k] == entries[k] && WaitsAhead(scope, entries[k], queue[i]);
      }
    }
  }

  lemma {:induction false} DueMember(entries: seq<Entry>, scope: Scope, now: int, e: Entry)
    ensures e in Due(entries, scope, now)
       <==> e in entries && InScope(e, scope) && e.state == Pending && (scope.ordered || e.nextAttemptAtMs <= now)
  {
    FilterMember(entries, (e: Entry) => InScope(e, scope) && e.state == Pending && (scope.ordered || e.nextAttemptAtMs <= now), e);
  }

  lemma {:induction false} DueSnoc(front: seq<Entry>, last: Entry, scope: Scope, now: int)
    ensures Due(front + [last], scope, now)
         == Due(front, scope, now) +
            (if InScope(last, scope) && last.state == Pending && (scope.ordered || last.nextAttemptAtMs <= now) then [last] else [])
  {
    var keep := (e: Entry) => InScope(e, scope) && e.state == Pending && (scope.ordered || e.nextAttemptAtMs <= now);
    FilterAppend(front, [last], keep);
    assert [last][1..] == [];
  }

  lemma {:induction false} QueueSnoc(front: seq<Entry>, last: Entry, scope: Scope, queue: seq<Entry>)
    requires QueueOk(front, scope, queue) && last.id == |front| + 1
    ensures QueueOk(front + [last], scope, queue)
    ensures last.state == Pending && InScope(last, scope) ==> QueueOk(front + [last], scope, queue + [last])
  {
  }

  /** Reading the due entries gives a queue. */
  lemma {:induction false} FilterIndices(entries: seq<Entry>, scope: Scope, now: int)
    requires forall i :: 0 <= i < |entries| ==> entries[i].id == i + 1
    ensures QueueOk(entries, scope, Due(entries, scope, now))
  {
    if entries != [] {
      var front, last := entries[..|entries| - 1], entries[|entries| - 1];
      FilterIndices(front, scope, now);
      assert entries == front + [last];
      DueSnoc(front, last, scope, now);
      QueueSnoc(front, last, scope, Due(front, scope, now));
    }
  }

  lemma {:induction false} EarlierId(queue: seq<Entry>, i: nat, j: nat)
    requires forall a, b :: 0 <= a < b < |queue| ==> queue[a].id < queue[b].id
    requires i < |queue| && j < |queue| && queue[j].id < queue[i].id
    ensures j < i
  {
  }

  /** An ordered read gives the oldest pending entries. */
  lemma {:induction false} ReadIsOldest(entries: seq<Entry>, scope: Scope, now: int, limit: nat)
    requires forall i :: 0 <= i < |entries| ==> entries[i].id == i + 1
    ensures QueueOk(entries, scope, Take(Due(entries, scope, now), limit))
    ensures scope.ordered ==> QueueIsOldest(entries, scope, Take(Due(entries, scope, now), limit))
  {
    FilterIndices(entries, scope, now);
    var due := Due(entries, scope, now);
    var queue := Take(due, limit);
    if scope.ordered {
      forall i: nat, k: nat | i < |queue| && k < |entries| && WaitsAhead(scope, entries[k], queue[i])
        ensures Precedes(queue, i, entries[k])
      {
        DueMember(entries, scope, now, entries[k]);
        var j :| 0 <= j < |due| && due[j] == entries[k];
        assert due[i] == queue[i];
        EarlierId(due, i, j);
        assert queue[j] == entries[k];
      }
    }
  }

  /** What a read may return: pending entries of the scope, and only due ones unless they are read in order. */
  predicate MayRead(e: Entry, scope: Scope, now: int) {
    && e.state == Pending && e.name == scope.name
    && (scope.partitionId.None? || e.partitionId == scope.partitionId.value)
    && (scope.ordered || e.nextAttemptAtMs <= now)
  }

  /** A read returns the oldest entries that it may return, as many as the limit allows. */
  lemma {:induction false} ReadTakesOldest(entries: seq<Entry>, scope: Scope, now: int, limit: nat)
    requires forall i :: 0 <= i < |entries| ==> entries[i].id == i + 1
    ensures var read := Take(Due(entries, scope, now), limit);
      && |read| <= limit
      && (forall e :: e in read ==> e in entries && MayRead(e, scope, now))
      && (forall i, j :: 0 <= i < j < |read| ==> read[i].id < read[j].id)
      && (forall e :: e in entries && MayRead(e, scope, now) && e !in read ==>
            |read| == limit && forall r :: r in read ==> r.id < e.id)
  {
    var due := Due(entries, scope, now);
    var read := Take(due, limit);
    FilterIndices(entries, scope, now);
    forall e | e in read ensures e in entries && MayRead(e, scope, now) {
      assert e in due;
      DueMember(entries, scope, now, e);
    }
    forall i | 0 <= i < |read| ensures due[i] in read { assert read[i] == due[i]; }
    forall e | e in entries && MayRead(e, scope, now) && e !in read
      ensures |read| == limit && forall r :: r in read ==> r.id < e.id
    {
      DueMember(entries, scope, now, e);
      var j :| 0 <= j < |due| && due[j] == e;
      forall r | r in read ensures r.id < e.id {
        var i :| 0 <= i < |read| && read[i] == r;
        assert due[i] == r;
      }
    }
  }

  /** The entry repeats the draft, untried and due since it was enqueued. */
  predicate EntryOf(e: Entry, draft: Draft) {
    && e.name == draft.name && e.partitionId == draft.partitionId && e.key == draft.key && e.payload == draft.payload
    && e.state == Pending && e.attempts == 0 && e.enqueuedAtMs == draft.enqueuedAtMs
    && e.nextAttemptAtMs == draft.enqueuedAtMs
    && e.lastError.None? && e.reason.None? && e.settledAtMs.None?
  }

  /** Draft `j` is the first with its name and key, and nothing with that name and key was stored before. */
  ghost predicate IsNew(entries: seq<Entry>, drafts: seq<Draft>, j: nat)
    requires j < |drafts|
  {
    && !Known(entries, drafts[j].name, drafts[j].key)
    && forall i :: 0 <= i < j ==> drafts[i].name != drafts[j].name || drafts[i].key != drafts[j].key
  }

  /** The drafts that are stored, in order. */
  ghost function NewDrafts(entries: seq<Entry>, drafts: seq<Draft>, n: nat): seq<Draft>
    requires n <= |drafts|
  {
    if n == 0 then [] else NewDrafts(entries, drafts, n - 1) + (if IsNew(entries, drafts, n - 1) then [drafts[n - 1]] else [])
  }

  ghost predicate Stored(entries: seq<Entry>, next: seq<Entry>, kept: seq<Draft>) {
    && entries <= next && |next| == |entries| + |kept|
    && forall i :: 0 <= i < |kept| ==> EntryOf(next[|entries| + i], kept[i])
  }

  /** Enqueueing stores exactly the first draft of every name and key that is not there yet, in order. */
  lemma {:induction false} EnqueueStores(entries: seq<Entry>, drafts: seq<Draft>, n: nat)
    requires n <= |drafts|
    ensures Stored(entries, EnqueueAll(entries, drafts[..n]), NewDrafts(entries, drafts, n))
    ensures forall name, key :: Known(EnqueueAll(entries, drafts[..n]), name, key) <==>
      Known(entries, name, key) || exists i :: 0 <= i < n && drafts[i].name == name && drafts[i].key == key
  {
    if n > 0 {
      var draft := drafts[n - 1];
      EnqueueStores(entries, drafts, n - 1);
      var before := EnqueueAll(entries, drafts[..n - 1]);
      assert drafts[..n] == drafts[..n - 1] + [draft];
      FoldSnoc(entries, EnqueueOne, drafts[..n - 1], draft);
      assert Known(before, draft.name, draft.key) <==> !IsNew(entries, drafts, n - 1);
      EnqueueOneStores(before, draft);
      var next := EnqueueOne(before, draft);
      if IsNew(entries, drafts, n - 1) {
        StoredOne(entries, before, NewDrafts(entries, drafts, n - 1), draft);
      }
    }
  }

  lemma {:induction false} StoredOne(entries: seq<Entry>, before: seq<Entry>, kept: seq<Draft>, draft: Draft)
    requires Stored(entries, before, kept)
    ensures Stored(entries, before + [NewEntry(|before| + 1, draft)], kept + [draft])
  {
  }

  lemma {:induction false} EnqueueOneStores(entries: seq<Entry>, draft: Draft)
    ensures forall name, key :: Known(EnqueueOne(entries, draft), name, key) <==>
      Known(entries, name, key) || (draft.name == name && draft.key == key)
  {
    var next := EnqueueOne(entries, draft);
    forall name, key ensures Known(next, name, key) <==> Known(entries, name, key) || (draft.name == name && draft.key == key) {
      if Known(entries, name, key) {
        var i :| 0 <= i < |entries| && entries[i].name == name && entries[i].key == key;
        assert next[i] == entries[i];
      }
      if draft.name == name && draft.key == key && !Known(entries, name, key) {
        assert next[|entries|] == NewEntry(|entries| + 1, draft);
      }
    }
  }

  /** A settlement that a drain may record for an entry: one more attempt, within the policy. */
  predicate Fits(d: Declared, e: Entry, s: Settlement) {
    && s.attempts == e.attempts + 1
    && (s.SettleRetry? ==> s.attempts < MaxAttempts(d, e.name))
  }

  lemma {:induction false} ClassifyFits(d: Declared, e: Entry, outcome: Outcome, now: int)
    requires RowOk(d, e) && e.state == Pending && outcome != Interrupted
    ensures Fits(d, e, Classify(outcome, e.attempts + 1, d.policy(e.name), now))
  {
  }

  function SettleAt(entries: seq<Entry>, id: nat, s: Settlement): seq<Entry>
    requires 0 < id <= |entries|
  {
    entries[id - 1 := Settle(entries[id - 1], s)]
  }

  lemma {:induction false} RemainingUpdate(d: Declared, entries: seq<Entry>, i: nat, e: Entry)
    requires i < |entries|
    ensures Remaining(d, entries[i := e]) == Remaining(d, entries)
      - (if entries[i].state == Pending then MaxAttempts(d, entries[i].name) - entries[i].attempts else 0)
      + (if e.state == Pending then MaxAttempts(d, e.name) - e.attempts else 0)
    ensures Attempts(entries[i := e]) == Attempts(entries) - entries[i].attempts + e.attempts
  {
    var n := |entries| - 1;
    if i < n {
      assert entries[i := e][..n] == entries[..n][i := e];
      RemainingUpdate(d, entries[..n], i, e);
    } else {
      assert entries[i := e][..n] == entries[..n];
    }
  }

  /** A fitting settlement keeps every row legal, counts one attempt and leaves fewer open. */
  lemma {:induction false} SettleOk(d: Declared, entries: seq<Entry>, id: nat, s: Settlement)
    requires EntriesOk(d, entries) && 0 < id <= |entries|
    requires entries[id - 1].state == Pending && Fits(d, entries[id - 1], s)
    ensures EntriesOk(d, SettleAt(entries, id, s))
    ensures Remaining(d, SettleAt(entries, id, s)) < Remaining(d, entries)
    ensures Attempts(SettleAt(entries, id, s)) == Attempts(entries) + 1
  {
    RemainingUpdate(d, entries, id - 1, Settle(entries[id - 1], s));
    SettleKeepsRows(d, entries, id, s);
  }

  lemma {:induction false} SettleKeepsRows(d: Declared, entries: seq<Entry>, id: nat, s: Settlement)
    requires EntriesOk(d, entries) && 0 < id <= |entries|
    requires entries[id - 1].state == Pending && Fits(d, entries[id - 1], s)
    ensures EntriesOk(d, SettleAt(entries, id, s))
  {
    var next := SettleAt(entries, id, s);
    forall i | 0 <= i < |next| ensures next[i].id == i + 1 && RowOk(d, next[i]) {
      assert entries[i].id == i + 1 && RowOk(d, entries[i]);
    }
    forall i, j | 0 <= i < j < |next| ensures !SameKey(next[i], next[j]) {
      assert !SameKey(entries[i], entries[j]);
    }
  }

  lemma {:induction false} SettleKeepsRest(entries: seq<Entry>, scope: Scope, queue: seq<Entry>, s: Settlement)
    requires QueueOk(entries, scope, queue) && queue != []
    ensures QueueOk(SettleAt(entries, queue[0].id, s), scope, queue[1..])
  {
    var next, rest := SettleAt(entries, queue[0].id, s), queue[1..];
    forall i | 0 <= i < |rest| ensures next[rest[i].id - 1] == rest[i] {
      assert queue[0].id < queue[i + 1].id;
    }
  }

  lemma {:induction false} SettleKeepsQueue(entries: seq<Entry>, scope: Scope, queue: seq<Entry>, s: Settlement)
    requires QueueOk(entries, scope, queue) && queue != []
    requires forall i :: 0 <= i < |entries| ==> entries[i].id == i + 1
    ensures var next := SettleAt(entries, queue[0].id, s);
      && QueueOk(next, scope, queue[1..])
      && (QueueIsOldest(entries, scope, queue) && !s.SettleRetry? ==> QueueIsOldest(next, scope, queue[1..]))
  {
    SettleKeepsRest(entries, scope, queue, s);
    if QueueIsOldest(entries, scope, queue) && !s.SettleRetry? { SettleKeepsOldest(entries, scope, queue, s); }
  }

  /** A settlement touches one entry and, unless it is a retry, leaves it settled. */
  lemma {:induction false} SettledElsewhere(entries: seq<Entry>, id: nat, s: Settlement)
    requires 0 < id <= |entries| && !s.SettleRetry?
    ensures var next := SettleAt(entries, id, s);
      && |next| == |entries| && next[id - 1].state != Pending
      && forall k :: 0 <= k < |next| && k != id - 1 ==> next[k] == entries[k]
  {
  }

  lemma {:induction false} SettleKeepsOldest(entries: seq<Entry>, scope: Scope, queue: seq<Entry>, s: Settlement)
    requires QueueOk(entries, scope, queue) && queue != [] && QueueIsOldest(entries, scope, queue) && !s.SettleRetry?
    requires forall i :: 0 <= i < |entries| ==> entries[i].id == i + 1
    ensures QueueIsOldest(SettleAt(entries, queue[0].id, s), scope, queue[1..])
  {
    SettledElsewhere(entries, queue[0].id, s);
    RestIsOldest(entries, SettleAt(entries, queue[0].id, s), scope, queue);
  }

  lemma {:induction false} RestIsOldest(entries: seq<Entry>, next: seq<Entry>, scope: Scope, queue: seq<Entry>)
    requires queue != [] && |next| == |entries| && 0 < queue[0].id <= |entries|
    requires QueueIsOldest(entries, scope, queue)
    requires forall i :: 0 <= i < |entries| ==> entries[i].id == i + 1
    requires next[queue[0].id - 1].state != Pending
    requires forall k :: 0 <= k < |next| && k != queue[0].id - 1 ==> next[k] == entries[k]
    ensures QueueIsOldest(next, scope, queue[1..])
  {
    var rest := queue[1..];
    forall i: nat, k: nat | i < |rest| && k < |next| && WaitsAhead(scope, next[k], rest[i])
      ensures Precedes(rest, i, next[k])
    {
      assert next[k] == entries[k] && rest[i] == queue[i + 1] && WaitsAhead(scope, entries[k], queue[i + 1]);
      var j :| 0 <= j < i + 1 && queue[j] == entries[k];
      assert rest[j - 1] == next[k];
    }
  }

  /** Settling the oldest pending entry of a scope keeps the settled entries a prefix. */
  lemma {:induction false} SettleKeepsPrefix(entries: seq<Entry>, scope: Scope, queue: seq<Entry>, s: Settlement)
    requires QueueOk(entries, scope, queue) && queue != [] && QueueIsOldest(entries, scope, queue)
    requires PrefixSettled(entries, scope.name)
    requires forall i :: 0 <= i < |entries| ==> entries[i].id == i + 1
    ensures PrefixSettled(SettleAt(entries, queue[0].id, s), scope.name)
  {
    var next := SettleAt(entries, queue[0].id, s);
    var at := queue[0].id - 1;
    forall i, j | 0 <= i < j < |next| && SettledIn(scope.name, next[i], next[j]) ensures next[i].state != Pending {
      if j == at {
        assert next[i] == entries[i] && InScope(entries[i], scope);
        assert !Precedes(queue, 0, entries[i]);
        assert !WaitsAhead(scope, entries[i], queue[0]);
      } else {
        assert next[j] == entries[j] && SettledIn(scope.name, entries[i], entries[j]);
        assert entries[i].state != Pending;
        assert i != at;
      }
    }
  }
}
