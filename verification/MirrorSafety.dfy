/**
 * What every gate section keeps, and what follows for whole runs: content that the mirror takes
 * off the disk is never lost, and the queued operations of a path form one chain.
 */
module MirrorSafety {
  import opened Common
  import opened MirrorModel
  import opened MirrorRuns

  type History = set<(Key, Hash)>

  /** Between two mirror states nothing kept is lost, and what left the disk is kept. */
  ghost predicate Safe(w: Writable, m: Mirror, m': Mirror, history: History) {
    && KeepsAll(m, m', history)
    && forall k, h :: (k, h) in Replaced(m, m') && !Unwatched(w, k) ==> Kept(m', history, k, h)
  }

  lemma {:induction false} SafeTrans(w: Writable, a: Mirror, b: Mirror, c: Mirror, history: History)
    requires Safe(w, a, b, history) && Safe(w, b, c, history)
    ensures Safe(w, a, c, history)
  {
    forall k, h | (k, h) in Replaced(a, c) && !Unwatched(w, k) ensures Kept(c, history, k, h) {
      if k in b.disk && b.disk[k] == h {
        assert (k, h) in Replaced(b, c);
      } else {
        assert (k, h) in Replaced(a, b);
      }
    }
  }

  lemma {:induction false} SameDiskSafe(w: Writable, m: Mirror, m': Mirror, history: History)
    requires m'.disk == m.disk && KeepsAll(m, m', history)
    ensures Safe(w, m, m', history)
  {
    assert Replaced(m, m') == {};
  }

  // ---- Single table writes --------------------------------------------------------------------------

  lemma {:induction false} SaveOk(w: Writable, m: Mirror, history: History, k: Key, row: Known)
    requires MirrorOk(w, m, history)
    requires HasPending(m, k) ==>
      k in m.known && row.localVersion == m.known[k].localVersion && row.localHash == m.known[k].localHash
    requires Unwatched(w, k) || (row.localHash.Some? ==> Kept(m, history, k, row.localHash.value))
    requires Unwatched(w, k) || (row.hash.Some? ==> (k, row.hash.value) in history)
    ensures MirrorOk(w, Save(m, k, row), history) && Safe(w, m, Save(m, k, row), history)
  {
    var m' := Save(m, k, row);
    SameDiskSafe(w, m, m', history);
    forall i | 0 <= i < |m'.outbox|
      ensures m'.outbox[i].key in m'.known && m'.known[m'.outbox[i].key].localVersion == m'.outbox[i].base
    {
      assert m.outbox[i].key == k ==> HasPending(m, k);
    }
  }

  /** Taking `d` operations off the front, and nothing else about keys, contents and rows, keeps the tips. */
  lemma {:induction false} TipsFromFront(m: Mirror, m': Mirror, d: nat)
    requires TipSeen(m) && |m.outbox| == |m'.outbox| + d
    requires forall i :: 0 <= i < |m'.outbox| ==>
      m'.outbox[i].key == m.outbox[i + d].key && m'.outbox[i].hash == m.outbox[i + d].hash
    requires forall k :: k in m.known ==> k in m'.known && m'.known[k].localHash == m.known[k].localHash
    ensures TipSeen(m')
  {
    forall i | 0 <= i < |m'.outbox| && Newest(m'.outbox, i)
      ensures m'.outbox[i].key in m'.known && m'.known[m'.outbox[i].key].localHash == m'.outbox[i].hash
    {
      forall j | i + d < j < |m.outbox| ensures m.outbox[j].key != m.outbox[i + d].key {
        assert m'.outbox[j - d].key != m'.outbox[i].key;
      }
      assert Newest(m.outbox, i + d);
    }
  }

  lemma {:induction false} TipAfterEnqueue(
      m: Mirror, k: Key, txid: string, base: Option<nat>, hash: Option<Hash>, row: Known)
    requires TipSeen(m) && row.localHash == hash
    ensures TipSeen(Enqueue(m, k, txid, base, hash, row))
  {
    var m' := Enqueue(m, k, txid, base, hash, row);
    var n := |m.outbox|;
    forall i | 0 <= i < |m'.outbox| && Newest(m'.outbox, i)
      ensures m'.outbox[i].key in m'.known && m'.known[m'.outbox[i].key].localHash == m'.outbox[i].hash
    {
      if i < n {
        assert m'.outbox[n].key != m'.outbox[i].key;
        forall j | i < j < n ensures m.outbox[j].key != m.outbox[i].key { assert m'.outbox[j].key != m'.outbox[i].key; }
        assert Newest(m.outbox, i);
      }
    }
  }

  lemma {:induction false} BaseAfterEnqueue(
      m: Mirror, k: Key, txid: string, base: Option<nat>, hash: Option<Hash>, row: Known)
    requires OneBase(m) && Ordered(m.outbox, m.nextSeq) && row.localVersion == base
    requires HasPending(m, k) ==> k in m.known && base == m.known[k].localVersion
    ensures var m' := Enqueue(m, k, txid, base, hash, row); OneBase(m') && Ordered(m'.outbox, m'.nextSeq)
  {
    var m' := Enqueue(m, k, txid, base, hash, row);
    forall i | 0 <= i < |m'.outbox|
      ensures m'.outbox[i].key in m'.known && m'.known[m'.outbox[i].key].localVersion == m'.outbox[i].base
    {
      if i < |m.outbox| { assert m.outbox[i].key == k ==> HasPending(m, k); }
    }
  }

  /** A new operation joins the chain of its path. */
  lemma {:induction false} EnqueueOk(
      w: Writable, m: Mirror, history: History, k: Key, txid: string, base: Option<nat>, hash: Option<Hash>, row: Known)
    requires MirrorOk(w, m, history)
    requires row.localVersion == base && row.localHash == hash
    requires HasPending(m, k) ==> k in m.known && base == m.known[k].localVersion
    requires Unwatched(w, k) || (row.hash.Some? ==> (k, row.hash.value) in history)
    ensures var m' := Enqueue(m, k, txid, base, hash, row);
      MirrorOk(w, m', history) && Safe(w, m, m', history) && m.outbox <= m'.outbox
  {
    var m' := Enqueue(m, k, txid, base, hash, row);
    var op := Op(m.nextSeq, k, txid, base, hash, false);
    ContentsAppend(m.outbox, op);
    SameDiskSafe(w, m, m', history);
    TipAfterEnqueue(m, k, txid, base, hash, row);
    BaseAfterEnqueue(m, k, txid, base, hash, row);
    assert hash.Some? ==> Kept(m', history, k, hash.value);
  }

  lemma {:induction false} ReplaceOk(w: Writable, m: Mirror, history: History, k: Key, content: Option<Hash>)
    requires MirrorOk(w, m, history)
    ensures MirrorOk(w, Replace(m, k, content), history) && KeepsAll(m, Replace(m, k, content), history)
    ensures Replaced(m, Replace(m, k, content))
         <= (if k in m.disk && content != Some(m.disk[k]) then {(k, m.disk[k])} else {})
  {
  }

  // ---- observe and install ----------------------------------------------------------------------------

  lemma {:induction false} ObserveOk(w: Writable, m: Mirror, history: History, k: Key, txid: string)
    requires MirrorOk(w, m, history)
    ensures var m' := Observe(w, m, k, txid);
      MirrorOk(w, m', history) && Safe(w, m, m', history) && m.outbox <= m'.outbox && m'.disk == m.disk
  {
    var m' := Observe(w, m, k, txid);
    if m' == m {
      SameDiskSafe(w, m, m, history);
    } else {
      var hash, known := Local(m, k), Head(m, k);
      EnqueueOk(w, m, history, k, txid, EditBase(known), hash,
        Known(if known.Some? then known.value.version else None, if known.Some? then known.value.hash else None,
              hash, EditBase(known)));
    }
  }

  /** The file is replaced only by content the mirror can give back. */
  lemma {:induction false} PutOnDiskOk(w: Writable, m: Mirror, history: History, k: Key, value: FileValue)
    requires MirrorOk(w, m, history) && FromServer(history, k, value) && !HasPending(m, k)
    requires k in m.disk && LiveHash(value) != Some(m.disk[k]) && !Unwatched(w, k) ==> Kept(m, history, k, m.disk[k])
    ensures var m' := PutOnDisk(m, k, value);
      MirrorOk(w, m', history) && Safe(w, m, m', history) && m'.outbox == m.outbox
  {
    var saved := Save(m, k, InstallingRow(m, k, value));
    SaveOk(w, m, history, k, InstallingRow(m, k, value));
    ReplaceOk(w, saved, history, k, LiveHash(value));
    var placed := Replace(saved, k, LiveHash(value));
    assert Safe(w, saved, placed, history);
    SaveOk(w, placed, history, k, InstalledRow(value));
    SafeTrans(w, m, saved, placed, history);
    SafeTrans(w, m, placed, PutOnDisk(m, k, value), history);
  }

  lemma {:induction false} BackupOk(w: Writable, m: Mirror, history: History, k: Key, content: Hash)
    requires MirrorOk(w, m, history)
    ensures var m' := KeepReadOnlyEdit(m, k, content);
      && MirrorOk(w, m', history) && Safe(w, m, m', history)
      && m'.outbox == m.outbox && m'.disk == m.disk && content in m'.backups.Values
  {
    var m' := KeepReadOnlyEdit(m, k, content);
    var name := FreePath(m.backups.Keys, BackupBase(k), 0);
    FreePathIsFree(m.backups.Keys, BackupBase(k), 0);
    assert m'.backups[name] == content;
    forall h | h in m.backups.Values ensures h in m'.backups.Values {
      var n :| n in m.backups && m.backups[n] == h;
      assert m'.backups[n] == h;
    }
    SameDiskSafe(w, m, m', history);
  }

  /** Local content that is not an unknown edit is content the mirror can give back. */
  lemma {:induction false} EchoIsKept(w: Writable, m: Mirror, history: History, k: Key, value: FileValue)
    requires MirrorOk(w, m, history) && !UnknownEdit(m, k, value) && !Unwatched(w, k)
    requires k in m.disk && LiveHash(value) != Some(m.disk[k])
    ensures Kept(m, history, k, m.disk[k])
  {
    assert IsEcho(Local(m, k), Head(m, k), false);
    assert k in m.known;
  }

  lemma {:induction false} InstallOk(w: Writable, m: Mirror, history: History, k: Key, value: FileValue, txid: string)
    requires MirrorOk(w, m, history) && FromServer(history, k, value)
    ensures var m' := Install(w, m, k, value, txid);
      MirrorOk(w, m', history) && Safe(w, m, m', history) && m.outbox <= m'.outbox
  {
    var known := Head(m, k);
    if HasPending(m, k) {
      SaveOk(w, m, history, k, known.value.(version := VersionOf(value), hash := LiveHash(value)));
    } else if !UnknownEdit(m, k, value) {
      if k in m.disk && LiveHash(value) != Some(m.disk[k]) && !Unwatched(w, k) { EchoIsKept(w, m, history, k, value); }
      PutOnDiskOk(w, m, history, k, value);
    } else if k.folder !in w {
      BackupOk(w, m, history, k, m.disk[k]);
      var kept := KeepReadOnlyEdit(m, k, m.disk[k]);
      PutOnDiskOk(w, kept, history, k, value);
      SafeTrans(w, m, kept, PutOnDisk(kept, k, value), history);
    } else if known.None? {
      EnqueueOk(w, m, history, k, txid, None, Some(m.disk[k]), Known(VersionOf(value), LiveHash(value), Some(m.disk[k]), None));
    } else {
      ObserveLateOk(w, m, history, k, value, txid);
    }
  }

  /** An edit that appears between `observe` and `install` is queued and stays on disk. */
  lemma {:induction false} ObserveLateOk(w: Writable, m: Mirror, history: History, k: Key, value: FileValue, txid: string)
    requires MirrorOk(w, m, history) && FromServer(history, k, value)
    requires !HasPending(m, k) && UnknownEdit(m, k, value) && k.folder in w && k in m.known
    ensures var m' := Install(w, m, k, value, txid);
      MirrorOk(w, m', history) && Safe(w, m, m', history) && m.outbox <= m'.outbox
  {
    var seen := Observe(w, m, k, txid);
    var row := m.known[k].(version := VersionOf(value), hash := LiveHash(value), localHash := Local(m, k));
    ObserveOk(w, m, history, k, txid);
    if !Unwatched(w, k) {
      var op := Op(m.nextSeq, k, txid, m.known[k].localVersion, Local(m, k), false);
      assert seen.outbox == m.outbox + [op];
      ContentsAppend(m.outbox, op);
      assert Kept(seen, history, k, m.disk[k]);
    }
    assert k in seen.known && seen.known[k].localVersion == row.localVersion;
    SaveOk(w, seen, history, k, row);
    SafeTrans(w, m, seen, Save(seen, k, row), history);
  }

  // ---- The outbox tables ---------------------------------------------------------------------------------

  /** The same operation, whatever its upload mark says. */
  ghost predicate SameOp(a: Op, b: Op) {
    a.seqNo == b.seqNo && a.key == b.key && a.txid == b.txid && a.base == b.base && a.hash == b.hash
  }

  ghost predicate SameOps(a: seq<Op>, b: seq<Op>) {
    |a| == |b| && forall i :: 0 <= i < |a| ==> SameOp(a[i], b[i])
  }

  lemma {:induction false} UploadedSameOps(m: Mirror, n: nat)
    ensures SameOps(m.outbox, Uploaded(m, n).outbox) && Contents(Uploaded(m, n).outbox) == Contents(m.outbox)
  {
    MarkFacts(m.outbox, n);
  }

  lemma {:induction false} UploadedChain(m: Mirror, m': Mirror)
    requires Ordered(m.outbox, m.nextSeq) && OneBase(m) && TipSeen(m)
    requires SameOps(m.outbox, m'.outbox) && m'.known == m.known && m'.nextSeq == m.nextSeq
    ensures Ordered(m'.outbox, m'.nextSeq) && OneBase(m') && TipSeen(m')
  {
    assert Ordered(m'.outbox, m'.nextSeq) by { SameOpsOrdered(m.outbox, m'.outbox, m.nextSeq); }
    assert OneBase(m') by {
      forall i | 0 <= i < |m'.outbox|
        ensures m'.outbox[i].key in m'.known && m'.known[m'.outbox[i].key].localVersion == m'.outbox[i].base
      {
        assert SameOp(m.outbox[i], m'.outbox[i]);
      }
    }
    assert TipSeen(m') by {
      forall i | 0 <= i < |m'.outbox|
        ensures m'.outbox[i].key == m.outbox[i + 0].key && m'.outbox[i].hash == m.outbox[i + 0].hash
      {
        assert SameOp(m.outbox[i], m'.outbox[i]);
      }
      TipsFromFront(m, m', 0);
    }
  }

  lemma {:induction false} SameOpsOrdered(a: seq<Op>, b: seq<Op>, next: nat)
    requires Ordered(a, next) && SameOps(a, b)
    ensures Ordered(b, next)
  {
    forall i | 0 <= i < |b| ensures b[i].seqNo == a[i].seqNo { assert SameOp(a[i], b[i]); }
  }

  lemma {:induction false} UploadedOk(w: Writable, m: Mirror, history: History, n: nat)
    requires MirrorOk(w, m, history)
    ensures MirrorOk(w, Uploaded(m, n), history) && Safe(w, m, Uploaded(m, n), history)
  {
    UploadedSameOps(m, n);
    UploadedChain(m, Uploaded(m, n));
    assert forall k, h :: Kept(m, history, k, h) ==> Kept(Uploaded(m, n), history, k, h);
    SameDiskSafe(w, m, Uploaded(m, n), history);
  }

  /** The operation numbered like the head of the queue is the head alone. */
  lemma {:induction false} HeadAlone(ops: seq<Op>, next: nat)
    requires Ordered(ops, next) && ops != []
    ensures OpsAt(ops, ops[0].seqNo) == [ops[0]] && Without(ops, ops[0].seqNo) == ops[1..]
  {
    OrderedTail(ops, next);
    WithoutAbsent(ops[1..], ops[0].seqNo);
  }

  lemma {:induction false} WithoutAbsent(ops: seq<Op>, n: nat)
    requires forall op :: op in ops ==> op.seqNo != n
    ensures Without(ops, n) == ops && OpsAt(ops, n) == []
  {
    if ops != [] {
      assert ops[0] in ops;
      WithoutAbsent(ops[1..], n);
    }
  }

  lemma {:induction false} RejectOk(w: Writable, m: Mirror, history: History, status: int, reason: string)
    requires MirrorOk(w, m, history) && m.outbox != []
    ensures var m' := Reject(m, m.outbox[0].seqNo, status, reason);
      MirrorOk(w, m', history) && Safe(w, m, m', history) && m'.outbox == m.outbox[1..]
  {
    var n := m.outbox[0].seqNo;
    var m' := Reject(m, n, status, reason);
    HeadAlone(m.outbox, m.nextSeq);
    WithoutFacts(m.outbox, n);
    HeadGoneOk(m, m');
    RefusedOpsConcat(m.rejected, Refuse(OpsAt(m.outbox, n), status, reason));
    RefusedOpsOf(OpsAt(m.outbox, n), status, reason);
    ContentsConcat(RefusedOps(m.rejected), OpsAt(m.outbox, n));
    assert Contents(m.outbox) == Contents(m'.outbox) + Contents(OpsAt(m.outbox, n));
    assert forall k, h :: Kept(m, history, k, h) ==> Kept(m', history, k, h);
    SameDiskSafe(w, m, m', history);
  }

  /** An operation leaves the queue once its content, if any, is in the server's history. */
  lemma {:induction false} DiscardHeadOk(w: Writable, m: Mirror, history: History)
    requires MirrorOk(w, m, history) && m.outbox != []
    requires m.outbox[0].hash.Some? ==> (m.outbox[0].key, m.outbox[0].hash.value) in history
    ensures var m' := Discard(m, m.outbox[0].seqNo);
      MirrorOk(w, m', history) && Safe(w, m, m', history) && m'.outbox == m.outbox[1..]
  {
    var m' := Discard(m, m.outbox[0].seqNo);
    HeadAlone(m.outbox, m.nextSeq);
    HeadGoneOk(m, m');
    assert Contents(m.outbox) == Contents(m'.outbox)
      + (if m.outbox[0].hash.Some? then {(m.outbox[0].key, m.outbox[0].hash.value)} else {});
    assert forall k, h :: Kept(m, history, k, h) ==> Kept(m', history, k, h);
    SameDiskSafe(w, m, m', history);
  }

  /** Taking the head off the queue keeps the order, the chains and their tips. */
  lemma {:induction false} HeadGoneOk(m: Mirror, m': Mirror)
    requires Ordered(m.outbox, m.nextSeq) && OneBase(m) && TipSeen(m) && m.outbox != []
    requires m'.outbox == m.outbox[1..] && m'.known == m.known && m'.nextSeq == m.nextSeq
    ensures Ordered(m'.outbox, m'.nextSeq) && OneBase(m') && TipSeen(m')
  {
    forall i | 0 <= i < |m'.outbox| ensures m'.outbox[i] == m.outbox[i + 1] { }
    assert Ordered(m'.outbox, m'.nextSeq) by { OrderedBehind(m.outbox, m'.outbox, m.nextSeq); }
    assert TipSeen(m') by { TipsFromFront(m, m', 1); }
  }

  /** Settling the head moves the whole chain of its path to the settled version. */
  lemma {:induction false} SettleChain(m: Mirror, op: Op, version: Option<nat>)
    requires Ordered(m.outbox, m.nextSeq) && OneBase(m) && Queued(m, op)
    ensures var m' := Settle(m, op, version);
      && |m'.outbox| == |m.outbox| - 1
      && forall i :: 0 <= i < |m'.outbox| ==>
           m'.outbox[i] == if m.outbox[i + 1].key == op.key then m.outbox[i + 1].(base := version) else m.outbox[i + 1]
    ensures op.key in Settle(m, op, version).known && Settle(m, op, version).known[op.key].localVersion == version
  {
    HeadAlone(m.outbox, m.nextSeq);
    var rest := m.outbox[1..];
    RebaseFacts(rest, op, version);
    assert forall i :: 0 <= i < |rest| ==> rest[i] == m.outbox[i + 1] && rest[i].seqNo > op.seqNo;
    assert m.outbox[0].key in m.known;
  }

  lemma {:induction false} SettleOk(w: Writable, m: Mirror, history: History, op: Op, version: Option<nat>)
    requires MirrorOk(w, m, history) && Queued(m, op)
    requires op.hash.Some? ==> (op.key, op.hash.value) in history
    ensures MirrorOk(w, Settle(m, op, version), history) && Safe(w, m, Settle(m, op, version), history)
  {
    var gone, m' := Discard(m, op.seqNo), Settle(m, op, version);
    DiscardHeadOk(w, m, history);
    SettleChain(m, op, version);
    RebaseFacts(gone.outbox, op, version);
    assert forall k, h :: Kept(gone, history, k, h) ==> Kept(m', history, k, h);
    SettledChainOk(m, op, version);
    SameDiskSafe(w, m, m', history);
    SettledRows(w, m, m', history, op, version);
  }

  lemma {:induction false} SettledChainOk(m: Mirror, op: Op, version: Option<nat>)
    requires Ordered(m.outbox, m.nextSeq) && OneBase(m) && TipSeen(m) && Queued(m, op)
    ensures var m' := Settle(m, op, version); Ordered(m'.outbox, m'.nextSeq) && OneBase(m') && TipSeen(m')
  {
    var m' := Settle(m, op, version);
    SettleChain(m, op, version);
    forall i | 0 <= i < |m'.outbox|
      ensures m'.outbox[i].seqNo == m.outbox[i + 1].seqNo && m'.outbox[i].key == m.outbox[i + 1].key
      ensures m'.outbox[i].hash == m.outbox[i + 1].hash
    {
    }
    assert Ordered(m'.outbox, m'.nextSeq) by { OrderedBehind(m.outbox, m'.outbox, m.nextSeq); }
    assert OneBase(m') by { SettledOneBase(m, op, version); }
    assert TipSeen(m') by { TipsFromFront(m, m', 1); }
  }

  lemma {:induction false} OrderedBehind(a: seq<Op>, b: seq<Op>, next: nat)
    requires Ordered(a, next) && |a| == |b| + 1 && forall i :: 0 <= i < |b| ==> b[i].seqNo == a[i + 1].seqNo
    ensures Ordered(b, next)
  {
  }

  lemma {:induction false} SettledOneBase(m: Mirror, op: Op, version: Option<nat>)
    requires Ordered(m.outbox, m.nextSeq) && OneBase(m) && Queued(m, op)
    ensures OneBase(Settle(m, op, version))
  {
    var m' := Settle(m, op, version);
    SettleChain(m, op, version);
    forall i | 0 <= i < |m'.outbox|
      ensures m'.outbox[i].key in m'.known && m'.known[m'.outbox[i].key].localVersion == m'.outbox[i].base
    {
      assert m.outbox[i + 1].key in m.known;
    }
  }

  lemma {:induction false} SettledRows(w: Writable, m: Mirror, m': Mirror, history: History, op: Op, version: Option<nat>)
    requires RowsKept(w, m, history) && m' == Settle(m, op, version) && KeepsAll(m, m', history)
    ensures RowsKept(w, m', history)
  {
    forall k | k in m'.known && !Unwatched(w, k)
      ensures m'.known[k].localHash.Some? ==> Kept(m', history, k, m'.known[k].localHash.value)
      ensures m'.known[k].hash.Some? ==> (k, m'.known[k].hash.value) in history
    {
      assert k in m.known && m'.known[k].localHash == m.known[k].localHash && m'.known[k].hash == m.known[k].hash;
    }
  }

  // ---- Gate sections ----------------------------------------------------------------------------------------

  lemma {:induction false} ApplyChangeOk(w: Writable, m: Mirror, history: History, k: Key, value: FileValue, txid: string)
    requires MirrorOk(w, m, history) && FromServer(history, k, value)
    ensures var m' := ApplyChange(w, m, k, value, txid);
      MirrorOk(w, m', history) && Safe(w, m, m', history) && m.outbox <= m'.outbox
  {
    var seen := Observe(w, m, k, txid);
    ObserveOk(w, m, history, k, txid);
    InstallOk(w, seen, history, k, value, txid);
    SafeTrans(w, m, seen, Install(w, seen, k, value, txid), history);
  }

  lemma {:induction false} FinishOk(
      w: Writable, m: Mirror, history: History, op: Op, version: Option<nat>, head: FileValue, txid: string)
    requires MirrorOk(w, m, history) && Queued(m, op) && FromServer(history, op.key, head)
    requires op.hash.Some? ==> (op.key, op.hash.value) in history
    ensures var m' := FinishDelivery(w, m, op, version, head, txid);
      MirrorOk(w, m', history) && Safe(w, m, m', history)
  {
    var settled := Settle(Observe(w, m, op.key, txid), op, version);
    CutFinishOk(w, m, history, op, version, txid);
    InstallOk(w, settled, history, op.key, head, txid);
    SafeTrans(w, m, settled, Install(w, settled, op.key, head, txid), history);
  }

  lemma {:induction false} DropOk(w: Writable, m: Mirror, history: History, head: FileValue, txid: string)
    requires MirrorOk(w, m, history) && m.outbox != [] && m.outbox[0].hash.None? && FromServer(history, m.outbox[0].key, head)
    ensures var m' := DropDelete(w, m, m.outbox[0], head, txid);
      MirrorOk(w, m', history) && Safe(w, m, m', history)
  {
    var op := m.outbox[0];
    var gone := Discard(m, op.seqNo);
    DiscardHeadOk(w, m, history);
    InstallOk(w, gone, history, op.key, head, txid);
    SafeTrans(w, m, gone, Install(w, gone, op.key, head, txid), history);
  }

  /** A process that stops between the writes of an install leaves a mirror that a restart can finish. */
  lemma {:induction false} InterruptedOk(w: Writable, m: Mirror, history: History, k: Key, value: FileValue, replaced: bool)
    requires MirrorOk(w, m, history) && FromServer(history, k, value) && !HasPending(m, k)
    requires k in m.disk && LiveHash(value) != Some(m.disk[k]) && !Unwatched(w, k) ==> Kept(m, history, k, m.disk[k])
    ensures var m' := InterruptedInstall(m, k, value, replaced);
      MirrorOk(w, m', history) && Safe(w, m, m', history) && m'.outbox == m.outbox
  {
    var saved := Save(m, k, InstallingRow(m, k, value));
    SaveOk(w, m, history, k, InstallingRow(m, k, value));
    if replaced {
      var placed := Replace(saved, k, LiveHash(value));
      ReplaceOk(w, saved, history, k, LiveHash(value));
      assert Safe(w, saved, placed, history);
      SafeTrans(w, m, saved, placed, history);
    }
  }

  lemma {:induction false} InterruptedEchoOk(w: Writable, m: Mirror, history: History, k: Key, value: FileValue, replaced: bool)
    requires MirrorOk(w, m, history) && FromServer(history, k, value) && !HasPending(m, k) && !UnknownEdit(m, k, value)
    ensures var m' := InterruptedInstall(m, k, value, replaced);
      MirrorOk(w, m', history) && Safe(w, m, m', history) && m'.outbox == m.outbox
  {
    if k in m.disk && LiveHash(value) != Some(m.disk[k]) && !Unwatched(w, k) { EchoIsKept(w, m, history, k, value); }
    InterruptedOk(w, m, history, k, value, replaced);
  }

  lemma {:induction false} InterruptedReadOnlyOk(
      w: Writable, m: Mirror, history: History, k: Key, value: FileValue, saved: bool, replaced: bool)
    requires MirrorOk(w, m, history) && FromServer(history, k, value)
    ensures var m' := InterruptedReadOnly(w, m, k, value, saved, replaced);
      MirrorOk(w, m', history) && Safe(w, m, m', history) && m'.outbox == m.outbox
  {
    if k.folder in w || HasPending(m, k) || !UnknownEdit(m, k, value) {
      SameDiskSafe(w, m, m, history);
    } else {
      var kept := KeepReadOnlyEdit(m, k, m.disk[k]);
      BackupOk(w, m, history, k, m.disk[k]);
      if saved {
        InterruptedOk(w, kept, history, k, value, replaced);
        SafeTrans(w, m, kept, InterruptedInstall(kept, k, value, replaced), history);
      }
    }
  }

  lemma {:induction false} CutFinishOk(w: Writable, m: Mirror, history: History, op: Op, version: Option<nat>, txid: string)
    requires MirrorOk(w, m, history) && Queued(m, op) && (op.hash.Some? ==> (op.key, op.hash.value) in history)
    ensures var m' := Settle(Observe(w, m, op.key, txid), op, version); MirrorOk(w, m', history) && Safe(w, m, m', history)
  {
    var seen := Observe(w, m, op.key, txid);
    ObserveOk(w, m, history, op.key, txid);
    assert seen.outbox[0] == m.outbox[0];
    SettleOk(w, seen, history, op, version);
    SafeTrans(w, m, seen, Settle(seen, op, version), history);
  }

  // ---- Runs -----------------------------------------------------------------------------------------------------

  /** The steps that leave the outbox table as it is or append to it. */
  predicate Pulling(e: Event) {
    e.ObserveStep? || e.PullStep? || e.InstallStep? || e.ScanStep? || e.RecoverStep? || e.CrashStep? || e.CrashReadOnlyStep?
  }

  lemma {:induction false} PullingOk(writable: Writable, w: World, e: Event)
    requires MirrorOk(writable, w.m, w.history) && Enabled(w, e) && Pulling(e)
    ensures var m' := MirrorAfter(writable, w, e);
      MirrorOk(writable, m', w.history) && Safe(writable, w.m, m', w.history) && w.m.outbox <= m'.outbox
  {
    var m, h := w.m, w.history;
    match e
    case ObserveStep(k, txid) => ObserveOk(writable, m, h, k, txid);
    case PullStep(k, v, txid) => ApplyChangeOk(writable, m, h, k, v, txid);
    case InstallStep(k, v, txid) => InstallOk(writable, m, h, k, v, txid);
    case ScanStep(k, v, txid) => SameDiskSafe(writable, m, m, h); InstallOk(writable, m, h, k, v, txid);
    case RecoverStep(k, v, txid) => SameDiskSafe(writable, m, m, h); ApplyChangeOk(writable, m, h, k, v, txid);
    case CrashStep(k, v, replaced) => InterruptedEchoOk(writable, m, h, k, v, replaced);
    case CrashReadOnlyStep(k, v, saved, replaced) => InterruptedReadOnlyOk(writable, m, h, k, v, saved, replaced);
    case _ =>
  }

  lemma {:induction false} DeliveringOk(writable: Writable, w: World, e: Event)
    requires Inv(writable, w) && Enabled(w, e) && !e.UserEdit? && !Pulling(e)
    ensures var m' := MirrorAfter(writable, w, e); MirrorOk(writable, m', w.history) && Safe(writable, w.m, m', w.history)
  {
    var m, h := w.m, w.history;
    SameDiskSafe(writable, m, m, h);
    match e
    case CutDropStep => DiscardHeadOk(writable, m, h);
    case CutFinishStep(txid) => CutFinishOk(writable, m, h, w.flight.op, w.flight.version, txid);
    case DropStep(v, txid) => DropOk(writable, m, h, v, txid);
    case SendStep => UploadedOk(writable, m, h, m.outbox[0].seqNo);
    case FinishStep(v, txid) => FinishOk(writable, m, h, w.flight.op, w.flight.version, v, txid);
    case RejectStep(status, reason) => RejectOk(writable, m, h, status, reason);
    case _ =>
  }

  /** What a step of the mirror alone gives. */
  lemma {:induction false} MirrorStepOk(writable: Writable, w: World, e: Event)
    requires Inv(writable, w) && Enabled(w, e) && !e.UserEdit?
    ensures var m' := MirrorAfter(writable, w, e); MirrorOk(writable, m', w.history) && Safe(writable, w.m, m', w.history)
    ensures !w.flight.Grounded? && !e.FinishStep? && !e.CutFinishStep? && !e.RejectStep? ==> Queued(MirrorAfter(writable, w, e), w.flight.op)
  {
    if Pulling(e) { PullingOk(writable, w, e); } else { DeliveringOk(writable, w, e); }
  }

  /** History only grows, and with it what is kept. */
  lemma {:induction false} MoreHistory(writable: Writable, m: Mirror, small: History, large: History)
    requires MirrorOk(writable, m, small) && small <= large
    ensures MirrorOk(writable, m, large)
  {
  }

  lemma {:induction false} StepKeepsInv(writable: Writable, w: World, e: Event)
    requires Inv(writable, w)
    ensures Inv(writable, Step(writable, w, e))
  {
    if Enabled(w, e) {
      var w' := Step(writable, w, e);
      if e.UserEdit? {
        ReplaceOk(writable, w.m, w.history, e.key, e.content);
      } else {
        MirrorStepOk(writable, w, e);
        MoreHistory(writable, w'.m, w.history, w'.history);
        forall k, h | (k, h) in w'.overwritten && !Unwatched(writable, k) ensures Kept(w'.m, w'.history, k, h) {
          assert Kept(w'.m, w.history, k, h);
        }
      }
    }
  }

  lemma {:induction false} RunKeepsInv(writable: Writable, disk: map<Key, Hash>, events: seq<Event>)
    ensures Inv(writable, Run(writable, disk, events))
  {
    if events != [] {
      RunKeepsInv(writable, disk, events[..|events| - 1]);
      StepKeepsInv(writable, Run(writable, disk, events[..|events| - 1]), events[|events| - 1]);
    }
  }
}
