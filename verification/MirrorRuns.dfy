/**
 * Runs of one mirror: user edits, other writers, pulls, scans, deliveries, rejections, lost
 * answers and restarts in any order, one gate section at a time.
 */
module MirrorRuns {
  import opened Common
  import opened MirrorModel

  /** The delivery in progress. Its operation stays in the outbox until it is settled or rejected. */
  datatype Flight = Grounded | Sent(op: Op) | Answered(op: Op, version: Option<nat>)

  /** `history` is every content the server has accepted for a path. */
  datatype World = World(
    m: Mirror, history: set<(Key, Hash)>, flight: Flight, overwritten: set<(Key, Hash)>)

  datatype Event =
    | UserEdit(key: Key, content: Option<Hash>)
    | RemoteCommit(key: Key, hash: Hash)
    | ObserveStep(key: Key, txid: string)
    | PullStep(key: Key, value: FileValue, txid: string)
    | InstallStep(key: Key, value: FileValue, txid: string)
    | ScanStep(key: Key, head: FileValue, txid: string)
    | RecoverStep(key: Key, head: FileValue, txid: string)
    | CrashStep(key: Key, value: FileValue, replaced: bool)
    | CrashReadOnlyStep(key: Key, value: FileValue, saved: bool, replaced: bool)
    | DropStep(head: FileValue, txid: string)
    | CutDropStep
    | SendStep
    | AcceptStep(version: Option<nat>)
    | FinishStep(head: FileValue, txid: string)
    | CutFinishStep(txid: string)
    | FailStep
    | RejectStep(status: int, reason: string)

  /** A value read from the server names content in its history. */
  predicate FromServer(history: set<(Key, Hash)>, k: Key, value: FileValue) {
    value.Live? ==> (k, value.hash) in history
  }

  /**
   * A crash cuts a gate section short: `CrashStep` and `CrashReadOnlyStep` inside an install, `CutDropStep` and
   * `CutFinishStep` between the outbox transaction of a delivery and its refresh.
   */
  predicate Enabled(w: World, e: Event) {
    match e
    case UserEdit(_, _) => true
    case RemoteCommit(_, _) => true
    case ObserveStep(_, _) => true
    case PullStep(k, v, _) => FromServer(w.history, k, v)
    case InstallStep(k, v, _) => FromServer(w.history, k, v)
    case ScanStep(k, v, _) => FromServer(w.history, k, v)
    case RecoverStep(k, v, _) => FromServer(w.history, k, v)
    case CrashStep(k, v, _) => FromServer(w.history, k, v) && !HasPending(w.m, k) && !UnknownEdit(w.m, k, v)
    case CrashReadOnlyStep(k, v, _, _) => FromServer(w.history, k, v)
    case CutDropStep => w.flight.Grounded? && w.m.outbox != [] && w.m.outbox[0].hash.None? && w.m.outbox[0].base.None?
    case DropStep(v, _) =>
      w.flight.Grounded? && w.m.outbox != [] && w.m.outbox[0].hash.None? && w.m.outbox[0].base.None?
      && FromServer(w.history, w.m.outbox[0].key, v)
    case SendStep =>
      w.flight.Grounded? && w.m.outbox != [] && !(w.m.outbox[0].hash.None? && w.m.outbox[0].base.None?)
    case AcceptStep(_) => w.flight.Sent?
    case FinishStep(v, _) => w.flight.Answered? && FromServer(w.history, w.flight.op.key, v)
    case CutFinishStep(_) => w.flight.Answered?
    case FailStep => !w.flight.Grounded?
    case RejectStep(_, _) => w.flight.Sent?
  }

  /** The mirror's own steps, as opposed to the user's and the server's. */
  function MirrorAfter(writable: Writable, w: World, e: Event): Mirror {
    match e
    case UserEdit(k, c) => Replace(w.m, k, c)
    case RemoteCommit(_, _) => w.m
    case ObserveStep(k, txid) => Observe(writable, w.m, k, txid)
    case PullStep(k, v, txid) => ApplyChange(writable, w.m, k, v, txid)
    case InstallStep(k, v, txid) => Install(writable, w.m, k, v, txid)
    case ScanStep(k, v, txid) => ScanReadOnly(writable, w.m, k, v, txid)
    case RecoverStep(k, v, txid) => Recover(writable, w.m, k, v, txid)
    case CrashStep(k, v, replaced) => InterruptedInstall(w.m, k, v, replaced)
    case CrashReadOnlyStep(k, v, saved, replaced) => InterruptedReadOnly(writable, w.m, k, v, saved, replaced)
    case CutDropStep => if w.m.outbox == [] then w.m else Discard(w.m, w.m.outbox[0].seqNo)
    case DropStep(v, txid) => if w.m.outbox == [] then w.m else DropDelete(writable, w.m, w.m.outbox[0], v, txid)
    case SendStep => if w.m.outbox == [] then w.m else Sending(w.m)
    case AcceptStep(_) => w.m
    case FinishStep(v, txid) =>
      if w.flight.Answered? then FinishDelivery(writable, w.m, w.flight.op, w.flight.version, v, txid) else w.m
    case CutFinishStep(txid) =>
      if w.flight.Answered? then Settle(Observe(writable, w.m, w.flight.op.key, txid), w.flight.op, w.flight.version) else w.m
    case FailStep => w.m
    case RejectStep(status, reason) => if w.flight.Sent? then Reject(w.m, w.flight.op.seqNo, status, reason) else w.m
  }

  /** Contents that a mirror step took off the disk. */
  function Replaced(before: Mirror, after: Mirror): set<(Key, Hash)> {
    set k | k in before.disk && (k !in after.disk || after.disk[k] != before.disk[k]) :: (k, before.disk[k])
  }

  function Step(writable: Writable, w: World, e: Event): World {
    if !Enabled(w, e) then w
    else
      var m := MirrorAfter(writable, w, e);
      World(m,
            match e
              case RemoteCommit(k, h) => w.history + {(k, h)}
              case AcceptStep(_) =>
                if w.flight.Sent? && w.flight.op.hash.Some? then w.history + {(w.flight.op.key, w.flight.op.hash.value)}
                else w.history
              case _ => w.history,
            match e
              case SendStep => if w.m.outbox == [] then Grounded else Sent(w.m.outbox[0])
              case AcceptStep(version) => if w.flight.Sent? then Answered(w.flight.op, version) else w.flight
              case FinishStep(_, _) => Grounded
              case CutFinishStep(_) => Grounded
              case FailStep => Grounded
              case RejectStep(_, _) => Grounded
              case _ => w.flight,
            if e.UserEdit? then w.overwritten else w.overwritten + Replaced(w.m, m))
  }

  function Initial(disk: map<Key, Hash>): World {
    World(Mirror(map[], [], 0, [], disk, map[]), {}, Grounded, {})
  }

  function Run(writable: Writable, disk: map<Key, Hash>, events: seq<Event>): World {
    if events == [] then Initial(disk)
    else Step(writable, Run(writable, disk, events[..|events| - 1]), events[|events| - 1])
  }

  // ---- What the mirror keeps ---------------------------------------------------------------------------

  /** The contents of queued or rejected writes. */
  function Contents(ops: seq<Op>): set<(Key, Hash)> {
    if ops == [] then {}
    else Contents(ops[1..]) + (if ops[0].hash.Some? then {(ops[0].key, ops[0].hash.value)} else {})
  }

  function RefusedOps(rows: seq<Rejected>): seq<Op> {
    if rows == [] then [] else [rows[0].op] + RefusedOps(rows[1..])
  }

  lemma {:induction false} RefusedOpsConcat(a: seq<Rejected>, b: seq<Rejected>)
    ensures RefusedOps(a + b) == RefusedOps(a) + RefusedOps(b)
  {
    if a == [] {
      assert a + b == b;
    } else {
      assert (a + b)[1..] == a[1..] + b;
      RefusedOpsConcat(a[1..], b);
    }
  }

  lemma {:induction false} RefusedOpsOf(ops: seq<Op>, status: int, reason: string)
    ensures RefusedOps(Refuse(ops, status, reason)) == ops
  {
    if ops != [] {
      assert Refuse(ops, status, reason)[1..] == Refuse(ops[1..], status, reason);
      RefusedOpsOf(ops[1..], status, reason);
    }
  }

  /** The content is in server history, the outbox, the rejected table or a backup copy. */
  predicate Kept(m: Mirror, history: set<(Key, Hash)>, k: Key, h: Hash) {
    (k, h) in history || (k, h) in Contents(m.outbox) || (k, h) in Contents(RefusedOps(m.rejected)) || h in m.backups.Values
  }

  /** What was kept is still kept. */
  ghost predicate KeepsAll(m: Mirror, m': Mirror, history: set<(Key, Hash)>) {
    forall k, h :: Kept(m, history, k, h) ==> Kept(m', history, k, h)
  }

  /** Scratch files of a folder that the mirror writes to: `observe` passes over their edits. */
  predicate Unwatched(writable: Writable, k: Key) { IgnoredPath(k.path) && k.folder in writable }

  /** The known row of a watched path names only content that is kept. */
  ghost predicate RowsKept(writable: Writable, m: Mirror, history: set<(Key, Hash)>) {
    forall k :: k in m.known && !Unwatched(writable, k) ==>
      && (m.known[k].localHash.Some? ==> Kept(m, history, k, m.known[k].localHash.value))
      && (m.known[k].hash.Some? ==> (k, m.known[k].hash.value) in history)
  }

  /** Queue numbers grow and stay below the next one. */
  ghost predicate Ordered(ops: seq<Op>, next: nat) {
    && (forall i :: 0 <= i < |ops| ==> ops[i].seqNo < next)
    && (forall i, j :: 0 <= i < j < |ops| ==> ops[i].seqNo < ops[j].seqNo)
  }

  /** All queued operations of a path share one base: the version that its known row says the disk is based on. */
  ghost predicate OneBase(m: Mirror) {
    forall i :: 0 <= i < |m.outbox| ==>
      m.outbox[i].key in m.known && m.known[m.outbox[i].key].localVersion == m.outbox[i].base
  }

  /** `ops[i]` is the newest operation of its path. */
  ghost predicate Newest(ops: seq<Op>, i: nat)
    requires i < |ops|
  {
    forall j :: i < j < |ops| ==> ops[j].key != ops[i].key
  }

  /** The newest operation of a path carries what the known row says was last seen on disk. */
  ghost predicate TipSeen(m: Mirror) {
    forall i {:trigger Newest(m.outbox, i)} :: 0 <= i < |m.outbox| && Newest(m.outbox, i) ==>
      m.outbox[i].key in m.known && m.known[m.outbox[i].key].localHash == m.outbox[i].hash
  }

  ghost predicate MirrorOk(writable: Writable, m: Mirror, history: set<(Key, Hash)>) {
    Ordered(m.outbox, m.nextSeq) && OneBase(m) && TipSeen(m) && RowsKept(writable, m, history)
  }

  /** An operation under way is still the oldest of the queue, with the base it was sent with. */
  ghost predicate Queued(m: Mirror, op: Op) {
    m.outbox != [] && m.outbox[0].(uploaded := op.uploaded) == op
  }

  ghost predicate Inv(writable: Writable, w: World) {
    && MirrorOk(writable, w.m, w.history)
    && (!w.flight.Grounded? ==> Queued(w.m, w.flight.op))
    && (w.flight.Answered? && w.flight.op.hash.Some? ==> (w.flight.op.key, w.flight.op.hash.value) in w.history)
    && (forall k, h :: (k, h) in w.overwritten && !Unwatched(writable, k) ==> Kept(w.m, w.history, k, h))
  }

  // ---- Lists of operations --------------------------------------------------------------------------------

  lemma {:induction false} ContentsAppend(ops: seq<Op>, op: Op)
    ensures Contents(ops + [op]) == Contents(ops) + (if op.hash.Some? then {(op.key, op.hash.value)} else {})
  {
    if ops == [] {
      assert [op][1..] == [] && [] + [op] == [op];
    } else {
      assert (ops + [op])[1..] == ops[1..] + [op];
      ContentsAppend(ops[1..], op);
    }
  }

  lemma {:induction false} ContentsConcat(a: seq<Op>, b: seq<Op>)
    ensures Contents(a + b) == Contents(a) + Contents(b)
  {
    if a == [] {
      assert a + b == b;
    } else {
      assert (a + b)[1..] == a[1..] + b;
      ContentsConcat(a[1..], b);
    }
  }

  lemma {:induction false} WithoutFacts(ops: seq<Op>, n: nat)
    ensures Contents(ops) == Contents(Without(ops, n)) + Contents(OpsAt(ops, n))
    ensures forall op :: op in Without(ops, n) <==> op in ops && op.seqNo != n
    ensures forall op :: op in OpsAt(ops, n) <==> op in ops && op.seqNo == n
  {
    if ops != [] {
      WithoutFacts(ops[1..], n);
      ContentsConcat(if ops[0].seqNo == n then [] else [ops[0]], Without(ops[1..], n));
      ContentsConcat(if ops[0].seqNo == n then [ops[0]] else [], OpsAt(ops[1..], n));
      assert [ops[0]][1..] == [];
      assert forall op :: op in ops <==> op == ops[0] || op in ops[1..];
    }
  }

  lemma {:induction false} OrderedTail(ops: seq<Op>, next: nat)
    requires Ordered(ops, next) && ops != []
    ensures Ordered(ops[1..], next)
    ensures forall op :: op in ops[1..] ==> ops[0].seqNo < op.seqNo
  {
    var rest := ops[1..];
    assert forall i :: 0 <= i < |rest| ==> rest[i] == ops[i + 1];
  }

  lemma {:induction false} OrderedCons(op: Op, rest: seq<Op>, next: nat)
    requires Ordered(rest, next) && op.seqNo < next
    requires forall later :: later in rest ==> op.seqNo < later.seqNo
    ensures Ordered([op] + rest, next)
  {
    var ops := [op] + rest;
    forall i, j | 0 <= i < j < |ops| ensures ops[i].seqNo < ops[j].seqNo {
      assert ops[j] == rest[j - 1] && ops[j] in rest;
      assert i > 0 ==> ops[i] == rest[i - 1];
    }
  }

  lemma {:induction false} WithoutOrdered(ops: seq<Op>, n: nat, next: nat)
    requires Ordered(ops, next)
    ensures Ordered(Without(ops, n), next)
  {
    if ops != [] {
      OrderedTail(ops, next);
      WithoutOrdered(ops[1..], n, next);
      WithoutFacts(ops[1..], n);
      var rest := Without(ops[1..], n);
      if ops[0].seqNo == n {
        assert Without(ops, n) == rest;
      } else {
        OrderedCons(ops[0], rest, next);
        assert Without(ops, n) == [ops[0]] + rest;
      }
    }
  }

  lemma {:induction false} RebaseFacts(ops: seq<Op>, op: Op, version: Option<nat>)
    ensures var out := Rebase(ops, op, version);
      && |out| == |ops| && Contents(out) == Contents(ops)
      && forall i :: 0 <= i < |ops| ==>
           out[i] == if ops[i].seqNo > op.seqNo && ops[i].key == op.key && ops[i].base == op.base
                     then ops[i].(base := version) else ops[i]
  {
    if ops != [] {
      RebaseFacts(ops[1..], op, version);
      var out := Rebase(ops, op, version);
      assert out[1..] == Rebase(ops[1..], op, version);
      forall i | 0 <= i < |ops|
        ensures out[i] == if ops[i].seqNo > op.seqNo && ops[i].key == op.key && ops[i].base == op.base
                          then ops[i].(base := version) else ops[i]
      {
        if i > 0 { assert out[i] == out[1..][i - 1] && ops[i] == ops[1..][i - 1]; }
      }
    }
  }

  lemma {:induction false} MarkFacts(ops: seq<Op>, n: nat)
    ensures var out := MarkUploaded(ops, n);
      && |out| == |ops| && Contents(out) == Contents(ops)
      && forall i :: 0 <= i < |ops| ==> out[i] == if ops[i].seqNo == n then ops[i].(uploaded := true) else ops[i]
  {
    if ops != [] {
      MarkFacts(ops[1..], n);
      var out := MarkUploaded(ops, n);
      assert out[1..] == MarkUploaded(ops[1..], n);
      forall i | 0 <= i < |ops| ensures out[i] == if ops[i].seqNo == n then ops[i].(uploaded := true) else ops[i] {
        if i > 0 { assert out[i] == out[1..][i - 1] && ops[i] == ops[1..][i - 1]; }
      }
    }
  }
}
