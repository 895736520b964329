/** What holds over whole runs of a mirror, and what one finished gate section leaves behind. */
module MirrorTheorems {
  import opened Common
  import opened MirrorModel
  import opened MirrorRuns
  import opened MirrorSafety

  // ---- No content is lost -----------------------------------------------------------------------------

  /** One step loses nothing that was kept. */
  lemma {:induction false} StepKeeps(writable: Writable, w: World, e: Event, k: Key, h: Hash)
    requires Inv(writable, w) && Kept(w.m, w.history, k, h)
    ensures Kept(Step(writable, w, e).m, Step(writable, w, e).history, k, h)
  {
    if Enabled(w, e) {
      if e.UserEdit? {
        ReplaceOk(writable, w.m, w.history, e.key, e.content);
      } else {
        MirrorStepOk(writable, w, e);
      }
      assert Kept(MirrorAfter(writable, w, e), w.history, k, h);
    }
  }

  lemma {:induction false} KeptForever(
      writable: Writable, disk: map<Key, Hash>, events: seq<Event>, n: nat, k: Key, h: Hash)
    requires n <= |events|
    requires var then_ := Run(writable, disk, events[..n]); Kept(then_.m, then_.history, k, h)
    ensures var now := Run(writable, disk, events); Kept(now.m, now.history, k, h)
  {
    if n == |events| {
      assert events[..n] == events;
    } else {
      var front := events[..|events| - 1];
      assert front[..n] == events[..n];
      KeptForever(writable, disk, front, n, k, h);
      RunKeepsInv(writable, disk, front);
      StepKeeps(writable, Run(writable, disk, front), events[|events| - 1], k, h);
    }
  }

  /**
   * In every run, content that a step of the mirror takes off the disk of a watched path is, from then
   * on, in the server's history, the outbox, the rejected table or a backup copy.
   */
  lemma {:induction false} NothingIsLost(
      writable: Writable, disk: map<Key, Hash>, events: seq<Event>, n: nat, k: Key)
    requires n < |events| && !events[n].UserEdit? && !Unwatched(writable, k)
    requires var before, after := Run(writable, disk, events[..n]).m, Run(writable, disk, events[..n + 1]).m;
      k in before.disk && (k !in after.disk || after.disk[k] != before.disk[k])
    ensures var end := Run(writable, disk, events);
      Kept(end.m, end.history, k, Run(writable, disk, events[..n]).m.disk[k])
  {
    var w := Run(writable, disk, events[..n]);
    RunKeepsInv(writable, disk, events[..n]);
    assert events[..n + 1][..n] == events[..n];
    var w' := Step(writable, w, events[n]);
    assert Run(writable, disk, events[..n + 1]) == w';
    MirrorStepOk(writable, w, events[n]);
    assert (k, w.m.disk[k]) in Replaced(w.m, w'.m);
    assert Kept(w'.m, w.history, k, w.m.disk[k]);
    KeptForever(writable, disk, events, n + 1, k, w.m.disk[k]);
  }

  ghost predicate Loses(writable: Writable, disk: map<Key, Hash>, events: seq<Event>, k: Key) {
    var end := Run(writable, disk, events);
    exists h :: (k, h) in end.overwritten && !Kept(end.m, end.history, k, h)
  }

  /** Two installs over an edited scratch file: the first records the edit as seen, the second replaces it. */
  function ScratchRun(k: Key): seq<Event> {
    [RemoteCommit(k, "one"), InstallStep(k, Live(1, "one"), "t"), UserEdit(k, Some("edit")),
     InstallStep(k, Live(1, "one"), "t"), InstallStep(k, Live(1, "one"), "t")]
  }

  lemma {:induction false} RunStep(writable: Writable, disk: map<Key, Hash>, events: seq<Event>, n: nat)
    requires n < |events|
    ensures Run(writable, disk, events[..n + 1]) == Step(writable, Run(writable, disk, events[..n]), events[n])
  {
    assert events[..n + 1][..n] == events[..n];
  }

  /** A mirror with at most one known row, one file and one accepted content. */
  function Small(k: Key, row: Option<Known>, content: Option<Hash>, overwritten: set<(Key, Hash)>): World {
    World(Mirror(if row.Some? then map[k := row.value] else map[], [], 0, [],
                 if content.Some? then map[k := content.value] else map[], map[]),
          {(k, "one")}, Grounded, overwritten)
  }

  lemma {:induction false} ScratchInstall(writable: Writable, k: Key, row: Option<Known>, content: Option<Hash>)
    requires Unwatched(writable, k)
    ensures
      var w, after := Small(k, row, content, {}), Step(writable, Small(k, row, content, {}), InstallStep(k, Live(1, "one"), "t"));
      var edit := UnknownEdit(w.m, k, Live(1, "one"));
      && (edit && row.Some? ==>
            after == Small(k, Some(Known(Some(1), Some("one"), content, row.value.localVersion)), content, {}))
      && (!edit ==>
            after == Small(k, Some(InstalledRow(Live(1, "one"))), Some("one"),
                           if content.Some? && content.value != "one" then {(k, content.value)} else {}))
  {
    var m, v := Small(k, row, content, {}).m, Live(1, "one");
    var after := Install(writable, m, k, v, "t");
    if UnknownEdit(m, k, v) {
      if row.Some? {
        assert Observe(writable, m, k, "t") == m;
        assert after.known == map[k := Known(Some(1), Some("one"), content, row.value.localVersion)];
        assert Replaced(m, after) == {};
      }
    } else {
      assert after.known == map[k := InstalledRow(v)];
      assert after.disk == map[k := "one"];
      assert Replaced(m, after) == if content.Some? && content.value != "one" then {(k, content.value)} else {};
    }
  }

  lemma {:induction false} ScratchStart(writable: Writable, k: Key)
    ensures Step(writable, Initial(map[]), RemoteCommit(k, "one")) == Small(k, None, None, {})
  {
    assert Replaced(Initial(map[]).m, Initial(map[]).m) == {};
  }

  lemma {:induction false} ScratchEdit(writable: Writable, k: Key, row: Known)
    ensures Step(writable, Small(k, Some(row), Some("one"), {}), UserEdit(k, Some("edit")))
         == Small(k, Some(row), Some("edit"), {})
  {
    assert map[k := "one"][k := "edit"] == map[k := "edit"];
  }

  lemma {:induction false} ScratchSecondInstall(writable: Writable, k: Key, row: Known)
    requires Unwatched(writable, k) && row.localHash == Some("edit")
    ensures Step(writable, Small(k, Some(row), Some("edit"), {}), InstallStep(k, Live(1, "one"), "t"))
         == Small(k, Some(InstalledRow(Live(1, "one"))), Some("one"), {(k, "edit")})
  {
    ScratchInstall(writable, k, Some(row), Some("edit"));
    assert !UnknownEdit(Small(k, Some(row), Some("edit"), {}).m, k, Live(1, "one"));
  }

  lemma {:induction false} ScratchFirstInstall(writable: Writable, k: Key)
    requires Unwatched(writable, k)
    ensures Step(writable, Small(k, Some(InstalledRow(Live(1, "one"))), Some("edit"), {}), InstallStep(k, Live(1, "one"), "t"))
         == Small(k, Some(Known(Some(1), Some("one"), Some("edit"), Some(1))), Some("edit"), {})
  {
    ScratchInstall(writable, k, Some(InstalledRow(Live(1, "one"))), Some("edit"));
    assert UnknownEdit(Small(k, Some(InstalledRow(Live(1, "one"))), Some("edit"), {}).m, k, Live(1, "one"));
  }

  /** Two steps joined to a run. */
  lemma {:induction false} RunTwo(
      writable: Writable, disk: map<Key, Hash>, events: seq<Event>, n: nat, a: World, b: World, c: World)
    requires n + 2 <= |events| && Run(writable, disk, events[..n]) == a
    requires Step(writable, a, events[n]) == b && Step(writable, b, events[n + 1]) == c
    ensures Run(writable, disk, events[..n + 2]) == c
  {
    RunStep(writable, disk, events, n);
    RunStep(writable, disk, events, n + 1);
  }

  const SCRATCH_ROW := InstalledRow(Live(1, "one"))
  const SCRATCH_SEEN := Known(Some(1), Some("one"), Some("edit"), Some(1))

  lemma {:induction false} ScratchStageTwo(writable: Writable, k: Key)
    requires Unwatched(writable, k)
    ensures Run(writable, map[], ScratchRun(k)[..2]) == Small(k, Some(SCRATCH_ROW), Some("one"), {})
  {
    ScratchStart(writable, k);
    ScratchInstall(writable, k, None, None);
    RunTwo(writable, map[], ScratchRun(k), 0, Initial(map[]), Small(k, None, None, {}),
           Small(k, Some(SCRATCH_ROW), Some("one"), {}));
  }

  lemma {:induction false} ScratchStageFour(writable: Writable, k: Key)
    requires Unwatched(writable, k)
    ensures Run(writable, map[], ScratchRun(k)[..4]) == Small(k, Some(SCRATCH_SEEN), Some("edit"), {})
  {
    ScratchStageTwo(writable, k);
    ScratchEdit(writable, k, SCRATCH_ROW);
    ScratchFirstInstall(writable, k);
    RunTwo(writable, map[], ScratchRun(k), 2, Small(k, Some(SCRATCH_ROW), Some("one"), {}),
           Small(k, Some(SCRATCH_ROW), Some("edit"), {}), Small(k, Some(SCRATCH_SEEN), Some("edit"), {}));
  }

  lemma {:induction false} ScratchEnd(writable: Writable, k: Key)
    requires Unwatched(writable, k)
    ensures Run(writable, map[], ScratchRun(k)) == Small(k, Some(SCRATCH_ROW), Some("one"), {(k, "edit")})
  {
    ScratchStageFour(writable, k);
    ScratchSecondInstall(writable, k, SCRATCH_SEEN);
    RunStep(writable, map[], ScratchRun(k), 4);
    assert ScratchRun(k)[..5] == ScratchRun(k);
  }

  lemma {:induction false} ScratchEditIsLost(writable: Writable, k: Key)
    requires Unwatched(writable, k)
    ensures Loses(writable, map[], ScratchRun(k), k)
  {
    ScratchEnd(writable, k);
    var end := Small(k, Some(SCRATCH_ROW), Some("one"), {(k, "edit")});
    assert !Kept(end.m, end.history, k, "edit");
    assert (k, "edit") in end.overwritten;
  }

  /** The mirror never loses what it overwrites at a path exactly when the path is watched. */
  lemma {:induction false} SafeExactlyWhenWatched(writable: Writable, k: Key)
    ensures (forall disk, events :: !Loses(writable, disk, events, k)) <==> !Unwatched(writable, k)
  {
    if Unwatched(writable, k) {
      ScratchEditIsLost(writable, k);
    } else {
      forall disk, events ensures !Loses(writable, disk, events, k) { RunKeepsInv(writable, disk, events); }
    }
  }

  // ---- The chain of queued operations ---------------------------------------------------------------------

  /** In every run all queued operations of a path share the base that the known row records. */
  lemma {:induction false} QueuedOperationsShareOneBase(
      writable: Writable, disk: map<Key, Hash>, events: seq<Event>, i: nat, j: nat)
    requires var q := Run(writable, disk, events).m.outbox; i < |q| && j < |q| && q[i].key == q[j].key
    ensures var m := Run(writable, disk, events).m;
      && m.outbox[i].base == m.outbox[j].base
      && m.outbox[i].key in m.known && m.known[m.outbox[i].key].localVersion == m.outbox[i].base
  {
    RunKeepsInv(writable, disk, events);
  }

  /** How many operations a step takes off the front of the queue. */
  function Taken(e: Event): nat {
    if e.DropStep? || e.CutDropStep? || e.FinishStep? || e.CutFinishStep? || e.RejectStep? then 1 else 0
  }

  /** The base an operation has after a step. */
  function BaseAfter(w: World, e: Event, op: Op): Option<nat> {
    if (e.FinishStep? || e.CutFinishStep?) && w.flight.Answered? then SettledBase(op, w.flight.op, w.flight.version) else op.base
  }

  /** The operation stands at place `j`, with this base. */
  ghost predicate StandsAt(after: seq<Op>, j: int, op: Op, base: Option<nat>) {
    0 <= j < |after| && SameOp(after[j], op.(base := base))
  }

  /** The base of an operation once `settled` has this version. */
  function SettledBase(op: Op, settled: Op, version: Option<nat>): Option<nat> {
    if op.key == settled.key then version else op.base
  }

  /** The queue after a settlement: one operation shorter, and the bases of its path moved. */
  lemma {:induction false} SettlementMovesForward(
      w: Writable, m: Mirror, history: History, op: Op, version: Option<nat>, txid: string, i: nat)
    requires MirrorOk(w, m, history) && Queued(m, op) && 1 <= i < |m.outbox|
    ensures StandsAt(Settle(Observe(w, m, op.key, txid), op, version).outbox, i - 1, m.outbox[i],
                     SettledBase(m.outbox[i], op, version))
  {
    var seen := Observe(w, m, op.key, txid);
    ObserveOk(w, m, history, op.key, txid);
    assert seen.outbox[0] == m.outbox[0] && seen.outbox[i] == m.outbox[i];
    SettleChain(seen, op, version);
  }

  lemma {:induction false} RefreshAppends(
      w: Writable, m: Mirror, history: History, op: Op, version: Option<nat>, head: FileValue, txid: string)
    requires MirrorOk(w, m, history) && Queued(m, op) && FromServer(history, op.key, head)
    requires op.hash.Some? ==> (op.key, op.hash.value) in history
    ensures Settle(Observe(w, m, op.key, txid), op, version).outbox
         <= FinishDelivery(w, m, op, version, head, txid).outbox
  {
    CutFinishOk(w, m, history, op, version, txid);
    InstallOk(w, Settle(Observe(w, m, op.key, txid), op, version), history, op.key, head, txid);
  }

  lemma {:induction false} FinishMovesForward(
      w: Writable, m: Mirror, history: History, op: Op, version: Option<nat>, head: FileValue, txid: string, i: nat)
    requires MirrorOk(w, m, history) && Queued(m, op) && FromServer(history, op.key, head) && 1 <= i < |m.outbox|
    requires op.hash.Some? ==> (op.key, op.hash.value) in history
    ensures StandsAt(FinishDelivery(w, m, op, version, head, txid).outbox, i - 1, m.outbox[i],
                     SettledBase(m.outbox[i], op, version))
  {
    SettlementMovesForward(w, m, history, op, version, txid, i);
    RefreshAppends(w, m, history, op, version, head, txid);
    StandsLonger(Settle(Observe(w, m, op.key, txid), op, version).outbox,
                 FinishDelivery(w, m, op, version, head, txid).outbox, i - 1, m.outbox[i],
                 SettledBase(m.outbox[i], op, version));
  }

  lemma {:induction false} StandsLonger(ops: seq<Op>, after: seq<Op>, j: int, op: Op, base: Option<nat>)
    requires StandsAt(ops, j, op, base) && ops <= after
    ensures StandsAt(after, j, op, base)
  {
  }

  lemma {:induction false} DropMovesForward(writable: Writable, w: World, head: FileValue, txid: string, i: nat)
    requires Inv(writable, w) && Enabled(w, DropStep(head, txid)) && 1 <= i < |w.m.outbox|
    ensures StandsAt(DropDelete(writable, w.m, w.m.outbox[0], head, txid).outbox, i - 1, w.m.outbox[i], w.m.outbox[i].base)
  {
    var gone := Discard(w.m, w.m.outbox[0].seqNo);
    DiscardHeadOk(writable, w.m, w.history);
    InstallOk(writable, gone, w.history, w.m.outbox[0].key, head, txid);
    assert gone.outbox[i - 1] == w.m.outbox[i];
  }

  /** The steps that take the oldest operation off the queue. */
  lemma {:induction false} TakingMovesForward(writable: Writable, w: World, e: Event, i: nat)
    requires Inv(writable, w) && Enabled(w, e) && Taken(e) == 1 <= i < |w.m.outbox|
    ensures StandsAt(MirrorAfter(writable, w, e).outbox, i - 1, w.m.outbox[i], BaseAfter(w, e, w.m.outbox[i]))
  {
    match e
    case FinishStep(head, txid) =>
      FinishMovesForward(writable, w.m, w.history, w.flight.op, w.flight.version, head, txid, i);
    case CutFinishStep(txid) =>
      SettlementMovesForward(writable, w.m, w.history, w.flight.op, w.flight.version, txid, i);
    case DropStep(head, txid) => DropMovesForward(writable, w, head, txid, i);
    case CutDropStep => DiscardHeadOk(writable, w.m, w.history);
    case RejectStep(status, reason) => RejectOk(writable, w.m, w.history, status, reason);
  }

  lemma {:induction false} PrefixStands(ops: seq<Op>, after: seq<Op>, i: nat)
    requires ops <= after && i < |ops|
    ensures StandsAt(after, i, ops[i], ops[i].base)
  {
  }

  lemma {:induction false} PullingMovesForward(writable: Writable, w: World, e: Event, i: nat)
    requires Inv(writable, w) && Enabled(w, e) && Pulling(e) && i < |w.m.outbox|
    ensures StandsAt(MirrorAfter(writable, w, e).outbox, i, w.m.outbox[i], w.m.outbox[i].base)
  {
    PullingOk(writable, w, e);
    PrefixStands(w.m.outbox, MirrorAfter(writable, w, e).outbox, i);
  }

  lemma {:induction false} SendMovesForward(m: Mirror, i: nat)
    requires i < |m.outbox|
    ensures StandsAt(Sending(m).outbox, i, m.outbox[i], m.outbox[i].base)
  {
    UploadedSameOps(m, m.outbox[0].seqNo);
  }

  lemma {:induction false} OthersMoveNothing(writable: Writable, w: World, e: Event, i: nat)
    requires Enabled(w, e) && !Pulling(e) && Taken(e) == 0 && i < |w.m.outbox|
    ensures StandsAt(MirrorAfter(writable, w, e).outbox, i, w.m.outbox[i], w.m.outbox[i].base)
  {
    match e
    case SendStep => SendMovesForward(w.m, i);
    case _ => PrefixStands(w.m.outbox, w.m.outbox, i);
  }

  lemma {:induction false} StepMirror(writable: Writable, w: World, e: Event)
    ensures Step(writable, w, e).m == if Enabled(w, e) then MirrorAfter(writable, w, e) else w.m
  {
    var m := MirrorAfter(writable, w, e);
  }

  /**
   * The outbox is a queue: a step takes at most the oldest operation, appends at the end and keeps the
   * rest as they were. Only the settlement of an operation moves a base: every later operation of
   * its path then has the settled version as parent.
   */
  lemma {:induction false} QueueMovesForward(writable: Writable, w: World, e: Event, i: nat)
    requires Inv(writable, w) && Enabled(w, e) && Taken(e) <= i < |w.m.outbox|
    ensures StandsAt(MirrorAfter(writable, w, e).outbox, i - Taken(e), w.m.outbox[i], BaseAfter(w, e, w.m.outbox[i]))
  {
    if Pulling(e) {
      PullingMovesForward(writable, w, e, i);
    } else if Taken(e) == 1 {
      TakingMovesForward(writable, w, e, i);
    } else {
      OthersMoveNothing(writable, w, e, i);
    }
  }

  // ---- What a finished gate section leaves ---------------------------------------------------------------------

  /** The path shows a server value, and the known row says so. */
  predicate Shows(m: Mirror, k: Key, value: FileValue) {
    Local(m, k) == LiveHash(value) && k in m.known && m.known[k] == InstalledRow(value)
  }

  /** The newest queued operation of the path carries exactly what is on disk. */
  ghost predicate QueuedAsSeen(m: Mirror, k: Key) {
    exists i :: 0 <= i < |m.outbox| && Newest(m.outbox, i) && m.outbox[i].key == k && m.outbox[i].hash == Local(m, k)
  }

  lemma {:induction false} NewestExists(ops: seq<Op>, k: Key, i: nat) returns (tip: nat)
    requires i < |ops| && ops[i].key == k
    ensures tip < |ops| && ops[tip].key == k && Newest(ops, tip)
    decreases |ops| - i
  {
    tip := i;
    if !Newest(ops, i) {
      var j :| i < j < |ops| && ops[j].key == ops[i].key;
      tip := NewestExists(ops, k, j);
    }
  }

  /** A queued path whose disk content was seen is queued as seen. */
  lemma {:induction false} SeenIsQueued(m: Mirror, k: Key)
    requires TipSeen(m) && HasPending(m, k) && k in m.known && m.known[k].localHash == Local(m, k)
    ensures QueuedAsSeen(m, k)
  {
    var i :| 0 <= i < |m.outbox| && m.outbox[i].key == k;
    var tip := NewestExists(m.outbox, k, i);
  }

  /** After `observe` a queued or writable path has been seen. */
  lemma {:induction false} ObserveSees(w: Writable, m: Mirror, k: Key, txid: string)
    requires !IgnoredPath(k.path) && (HasPending(m, k) ==> k in m.known) && k.folder in w
    ensures var m' := Observe(w, m, k, txid);
      && m'.disk == m.disk
      && (HasPending(m', k) ==> k in m'.known && m'.known[k].localHash == Local(m', k))
      && (!HasPending(m', k) ==> IsEcho(Local(m', k), Head(m', k), false))
  {
    var m' := Observe(w, m, k, txid);
    if m' != m { assert m'.outbox[|m.outbox|].key == k; }
  }

  /** Installing over a path with nothing unseen shows the value, unless an edit of it is queued. */
  lemma {:induction false} InstallShows(w: Writable, m: Mirror, k: Key, value: FileValue, txid: string)
    requires !HasPending(m, k) ==> k.folder !in w || !UnknownEdit(m, k, value)
    ensures var m' := Install(w, m, k, value, txid);
      && HasPending(m', k) == HasPending(m, k)
      && (if HasPending(m, k)
          then m'.disk == m.disk && (k in m.known ==> k in m'.known && m'.known[k].localHash == m.known[k].localHash)
          else Shows(m', k, value))
  {
  }

  /** Whatever happens to the file, the known row ends at the server's value of the path. */
  lemma {:induction false} InstallRecordsTheServer(
      w: Writable, m: Mirror, history: History, k: Key, value: FileValue, txid: string)
    requires MirrorOk(w, m, history)
    ensures var m' := Install(w, m, k, value, txid);
      && k in m'.known && m'.known[k].version == VersionOf(value) && m'.known[k].hash == LiveHash(value)
      && (m'.known[k].localVersion == EditBase(Head(m, k)) || Shows(m', k, value))
  {
    if HasPending(m, k) {
      var i :| 0 <= i < |m.outbox| && m.outbox[i].key == k;
    } else if k.folder in w && UnknownEdit(m, k, value) {
      assert k in Install(w, m, k, value, txid).known;
    } else {
      InstallShows(w, m, k, value, txid);
    }
  }

  /** What the mirror has put on disk is not sent back, and an edit is queued once however often it is seen. */
  lemma {:induction false} NoEcho(w: Writable, m: Mirror, k: Key, value: FileValue, txid: string, again: string)
    ensures Shows(m, k, value) ==> Observe(w, m, k, txid) == m
    ensures Observe(w, Observe(w, m, k, txid), k, again) == Observe(w, m, k, txid)
  {
    var seen := Observe(w, m, k, txid);
    if seen != m { assert seen.known[k].localHash == Local(seen, k); }
  }

  /**
   * A pulled change ends in one of two ways: the path shows the server's value, or the content that is
   * on disk waits in the outbox as the newest edit of the path.
   */
  lemma {:induction false} PulledChangeIsShownOrQueued(
      w: Writable, m: Mirror, history: History, k: Key, value: FileValue, txid: string)
    requires MirrorOk(w, m, history) && FromServer(history, k, value) && !IgnoredPath(k.path) && k.folder in w
    ensures var m' := ApplyChange(w, m, k, value, txid); Shows(m', k, value) || QueuedAsSeen(m', k)
  {
    var seen := Observe(w, m, k, txid);
    ObserveOk(w, m, history, k, txid);
    ObserveSees(w, m, k, txid);
    InstallShows(w, seen, k, value, txid);
    InstallOk(w, seen, history, k, value, txid);
    var m' := ApplyChange(w, m, k, value, txid);
    if HasPending(m', k) { SeenIsQueued(m', k); }
  }

  /** A folder this mirror may not write to always shows the server's value after a pull. */
  lemma {:induction false} ReadOnlyFolderShowsTheServer(w: Writable, m: Mirror, k: Key, value: FileValue, txid: string)
    requires k.folder !in w && !HasPending(m, k)
    ensures Shows(ApplyChange(w, m, k, value, txid), k, value)
  {
    InstallShows(w, m, k, value, txid);
  }

  /** So does a finished delivery. Once nothing of the path is queued, its file is the server's head. */
  lemma {:induction false} DeliveredPathIsShownOrQueued(
      w: Writable, m: Mirror, history: History, op: Op, version: Option<nat>, head: FileValue, txid: string)
    requires MirrorOk(w, m, history) && Queued(m, op) && FromServer(history, op.key, head)
    requires op.hash.Some? ==> (op.key, op.hash.value) in history
    requires !IgnoredPath(op.key.path) && op.key.folder in w
    ensures var m' := FinishDelivery(w, m, op, version, head, txid); Shows(m', op.key, head) || QueuedAsSeen(m', op.key)
  {
    var k := op.key;
    var seen := Observe(w, m, k, txid);
    ObserveOk(w, m, history, k, txid);
    ObserveSees(w, m, k, txid);
    assert seen.outbox[0].key == k;
    var settled := Settle(seen, op, version);
    SettleOk(w, seen, history, op, version);
    assert settled.known[k].localHash == Local(settled, k);
    InstallShows(w, settled, k, head, txid);
    InstallOk(w, settled, history, k, head, txid);
    var m' := FinishDelivery(w, m, op, version, head, txid);
    if HasPending(m', k) { SeenIsQueued(m', k); }
  }

  /** What a crash inside an install leaves still counts as seen. */
  lemma {:induction false} CutIsSeen(m: Mirror, k: Key, value: FileValue, replaced: bool)
    requires !HasPending(m, k) && Local(m, k) == (if Head(m, k).None? then None else Head(m, k).value.localHash)
    ensures var cut := InterruptedInstall(m, k, value, replaced);
      && Head(cut, k) == Some(InstallingRow(m, k, value)) && !HasPending(cut, k)
      && IsEcho(Local(cut, k), Head(cut, k), false)
  {
  }

  /** Tables that differ in one row only are equal once that row is written or removed. */
  lemma {:induction false} OneKeyOnly<V>(a: map<Key, V>, b: map<Key, V>, k: Key, row: Option<V>)
    requires a - {k} == b - {k}
    ensures if row.Some? then a[k := row.value] == b[k := row.value] else a - {k} == b - {k}
  {
    if row.Some? {
      forall j | j != k ensures j in a <==> j in b { assert j in a - {k} <==> j in b - {k}; }
      forall j | j != k && j in a ensures a[j] == b[j] { assert a[j] == (a - {k})[j] && b[j] == (b - {k})[j]; }
    }
  }

  lemma {:induction false} PutOnDiskGives(m: Mirror, k: Key, value: FileValue)
    ensures PutOnDisk(m, k, value)
         == m.(known := m.known[k := InstalledRow(value)],
               disk := if value.Live? then m.disk[k := value.hash] else m.disk - {k})
  {
    assert m.known[k := InstallingRow(m, k, value)][k := InstalledRow(value)] == m.known[k := InstalledRow(value)];
  }

  lemma {:induction false} SameAfterPutOnDisk(m: Mirror, k: Key, value: FileValue, replaced: bool, head: FileValue)
    ensures PutOnDisk(InterruptedInstall(m, k, value, replaced), k, head) == PutOnDisk(m, k, head)
  {
    var cut := InterruptedInstall(m, k, value, replaced);
    PutOnDiskGives(m, k, head);
    PutOnDiskGives(cut, k, head);
    OneKeyOnly(m.known, cut.known, k, Some(InstalledRow(head)));
    OneKeyOnly(m.disk, cut.disk, k, LiveHash(head));
  }

  /** A restart finishes an install that a crash cut short: the same mirror as without the crash. */
  lemma {:induction false} RestartFinishesTheInstall(
      w: Writable, m: Mirror, k: Key, value: FileValue, replaced: bool, head: FileValue, txid: string)
    requires !HasPending(m, k) && Local(m, k) == (if Head(m, k).None? then None else Head(m, k).value.localHash)
    requires VersionOf(value) != EditBase(Head(m, k))
    ensures Recover(w, InterruptedInstall(m, k, value, replaced), k, head, txid) == PutOnDisk(m, k, head)
  {
    CutIsSeen(m, k, value, replaced);
    SameAfterPutOnDisk(m, k, value, replaced, head);
    RecoverSeen(w, InterruptedInstall(m, k, value, replaced), k, head, txid);
  }

  /** Recovering a path that was seen just installs the head. */
  lemma {:induction false} RecoverSeen(w: Writable, m: Mirror, k: Key, head: FileValue, txid: string)
    requires !HasPending(m, k) && IsEcho(Local(m, k), Head(m, k), false)
    requires Head(m, k).Some? && Head(m, k).value.localVersion != Head(m, k).value.version
    ensures Recover(w, m, k, head, txid) == PutOnDisk(m, k, head)
  {
    assert Observe(w, m, k, txid) == m;
    assert !UnknownEdit(m, k, head);
  }

  /** The worlds of a delivery from its start to the server's answer. */
  function SentWorld(w: World): World
    requires w.m.outbox != []
  {
    World(Sending(w.m), w.history, Sent(w.m.outbox[0]), w.overwritten)
  }

  lemma {:induction false} SendGives(writable: Writable, w: World)
    requires Enabled(w, SendStep)
    ensures Step(writable, w, SendStep) == SentWorld(w)
  {
    assert Replaced(w.m, Sending(w.m)) == {};
  }

  lemma {:induction false} AcceptGives(writable: Writable, w: World, version: Option<nat>)
    requires w.flight.Sent?
    ensures var answered := Step(writable, w, AcceptStep(version));
      answered.m == w.m && answered.flight == Answered(w.flight.op, version) && w.history <= answered.history
  {
  }

  /** The steps of the state machine that an undisturbed `deliver` is made of. */
  function DeliveryRun(writable: Writable, w: World, answer: Answer, head: FileValue, txid: string): World
    requires w.m.outbox != []
  {
    if w.m.outbox[0].hash.None? && w.m.outbox[0].base.None? then Step(writable, w, DropStep(head, txid))
    else
      var sent := Step(writable, w, SendStep);
      if answer.Accepted? then Step(writable, Step(writable, sent, AcceptStep(answer.version)), FinishStep(head, txid))
      else if Refuses(answer) then Step(writable, sent, RejectStep(answer.status, answer.reason))
      else Step(writable, sent, FailStep)
  }

  lemma {:induction false} DeliverIsARun(
      writable: Writable, w: World, answer: Answer, head: FileValue, txid: string)
    requires w.flight.Grounded? && w.m.outbox != [] && FromServer(w.history, w.m.outbox[0].key, head)
    ensures Deliver(writable, w.m, answer, head, txid) == DeliveryRun(writable, w, answer, head, txid).m
  {
    if w.m.outbox[0].hash.None? && w.m.outbox[0].base.None? {
      StepMirror(writable, w, DropStep(head, txid));
    } else {
      SendGives(writable, w);
      if answer.Accepted? {
        AcceptedIsARun(writable, w, answer.version, head, txid);
      } else {
        RefusedIsARun(writable, w, if answer.Failed? then answer.status else 0, if answer.Failed? then answer.reason else "");
      }
    }
  }

  lemma {:induction false} RefusedIsARun(writable: Writable, w: World, status: int, reason: string)
    requires w.m.outbox != []
    ensures Step(writable, SentWorld(w), RejectStep(status, reason)).m
         == Reject(Sending(w.m), w.m.outbox[0].seqNo, status, reason)
    ensures Step(writable, SentWorld(w), FailStep).m == Sending(w.m)
  {
    StepMirror(writable, SentWorld(w), FailStep);
    StepMirror(writable, SentWorld(w), RejectStep(status, reason));
  }

  lemma {:induction false} AcceptedIsARun(writable: Writable, w: World, version: Option<nat>, head: FileValue, txid: string)
    requires w.m.outbox != [] && FromServer(w.history, w.m.outbox[0].key, head)
    ensures Step(writable, Step(writable, SentWorld(w), AcceptStep(version)), FinishStep(head, txid)).m
         == FinishDelivery(writable, Sending(w.m), w.m.outbox[0], version, head, txid)
  {
    var answered := Step(writable, SentWorld(w), AcceptStep(version));
    AcceptGives(writable, SentWorld(w), version);
    StepMirror(writable, answered, FinishStep(head, txid));
  }
}
