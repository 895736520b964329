/**
 * What each gate section of the mirror does to its tables, told from the tables alone: when an edit is
 * queued, what a server value does to the file, and how a delivery ends.
 */
module MirrorSections {
  import opened Common
  import opened MirrorModel
  import opened MirrorRuns
  import opened MirrorSafety

  // ---- Words for the tables ----------------------------------------------------------------------------

  ghost predicate QueuedAt(ops: seq<Op>, k: Key) { exists op :: op in ops && op.key == k }

  function OnDisk(m: Mirror, k: Key): Option<Hash> { if k in m.disk then Some(m.disk[k]) else None }

  /** What was last seen on disk. */
  function Seen(m: Mirror, k: Key): Option<Hash> { if k in m.known then m.known[k].localHash else None }

  /** The version that the disk is based on. */
  function BasedOn(m: Mirror, k: Key): Option<nat> { if k in m.known then m.known[k].localVersion else None }

  /** The disk holds what the server was last known to hold. */
  predicate IsServers(m: Mirror, k: Key) { k in m.known && OnDisk(m, k) == m.known[k].hash }

  function RemoteHash(value: FileValue): Option<Hash> {
    match value
    case Live(_, hash) => Some(hash)
    case _ => None
  }

  function RemoteVersion(value: FileValue): Option<nat> {
    match value
    case Nothing => None
    case Removed(version) => Some(version)
    case Live(version, _) => Some(version)
  }

  lemma {:induction false} PendingIsQueued(m: Mirror, k: Key)
    ensures HasPending(m, k) <==> QueuedAt(m.outbox, k)
  {
    if HasPending(m, k) {
      var i :| 0 <= i < |m.outbox| && m.outbox[i].key == k;
      assert m.outbox[i] in m.outbox;
    }
  }

  // ---- observe -------------------------------------------------------------------------------------------

  /** A path is passed over: a scratch file, a folder without write access, or nothing new on disk. */
  ghost predicate PassedOver(w: Writable, m: Mirror, k: Key) {
    || IgnoredPath(k.path) || k.folder !in w || OnDisk(m, k) == Seen(m, k)
    || (IsServers(m, k) && !QueuedAt(m.outbox, k))
  }

  /** The edit joins the queue with the version that it was made on, and counts as seen. */
  ghost predicate Queues(m: Mirror, m': Mirror, k: Key, txid: string) {
    && m'.outbox == m.outbox + [Op(m.nextSeq, k, txid, BasedOn(m, k), OnDisk(m, k), false)]
    && m'.nextSeq == m.nextSeq + 1
    && m'.known == m.known[k := Known(if k in m.known then m.known[k].version else None,
                                      if k in m.known then m.known[k].hash else None, OnDisk(m, k), BasedOn(m, k))]
    && m'.disk == m.disk && m'.rejected == m.rejected && m'.backups == m.backups
  }

  ghost predicate ObserveMeans(w: Writable, m: Mirror, m': Mirror, k: Key, txid: string) {
    if PassedOver(w, m, k) then m' == m else Queues(m, m', k, txid)
  }

  lemma {:induction false} ObserveSays(w: Writable, m: Mirror, k: Key, txid: string)
    ensures ObserveMeans(w, m, Observe(w, m, k, txid), k, txid)
  {
    PendingIsQueued(m, k);
  }

  // ---- install -------------------------------------------------------------------------------------------

  /** The file is an edit: neither the value to install, nor what was seen, nor what the server was known to hold. */
  predicate Edited(m: Mirror, k: Key, value: FileValue) {
    OnDisk(m, k).Some? && OnDisk(m, k) != RemoteHash(value) && OnDisk(m, k) != Seen(m, k) && !IsServers(m, k)
  }

  /** The file and its row are the server's. */
  ghost predicate Puts(m: Mirror, m': Mirror, k: Key, value: FileValue) {
    && m'.disk == (if value.Live? then m.disk[k := value.hash] else m.disk - {k})
    && m'.known == m.known[k := Known(RemoteVersion(value), RemoteHash(value), RemoteHash(value), RemoteVersion(value))]
    && m'.outbox == m.outbox && m'.nextSeq == m.nextSeq && m'.rejected == m.rejected
  }

  /** `name` is the first free backup name of the path. */
  ghost predicate FirstFree(m: Mirror, k: Key, name: string) {
    && name !in m.backups
    && exists n: nat :: name == BackupPath(".folder-sync/rejected/" + k.folder + "/" + k.path, n)
         && forall i: nat :: i < n ==> BackupPath(".folder-sync/rejected/" + k.folder + "/" + k.path, i) in m.backups
  }

  /** The edit stays on disk and waits in the queue; the row says what the server holds. */
  ghost predicate Keeps(m: Mirror, m': Mirror, k: Key, value: FileValue, txid: string) {
    && m'.disk == m.disk && m'.rejected == m.rejected && m'.backups == m.backups
    && m'.known == m.known[k := Known(RemoteVersion(value), RemoteHash(value), OnDisk(m, k), BasedOn(m, k))]
    && (if IgnoredPath(k.path) && k in m.known then m'.outbox == m.outbox && m'.nextSeq == m.nextSeq
        else m'.outbox == m.outbox + [Op(m.nextSeq, k, txid, BasedOn(m, k), OnDisk(m, k), false)]
             && m'.nextSeq == m.nextSeq + 1)
  }

  ghost predicate InstallMeans(w: Writable, m: Mirror, m': Mirror, k: Key, value: FileValue, txid: string) {
    if QueuedAt(m.outbox, k) then
      m' == if k in m.known
            then m.(known := m.known[k := m.known[k].(version := RemoteVersion(value), hash := RemoteHash(value))]) else m
    else if !Edited(m, k, value) then Puts(m, m', k, value) && m'.backups == m.backups
    else if k.folder in w then Keeps(m, m', k, value, txid)
    else Puts(m, m', k, value) && exists name :: FirstFree(m, k, name) && m'.backups == m.backups[name := m.disk[k]]
  }

  lemma {:induction false} InstallSays(w: Writable, m: Mirror, k: Key, value: FileValue, txid: string)
    ensures InstallMeans(w, m, Install(w, m, k, value, txid), k, value, txid)
  {
    PendingIsQueued(m, k);
    if !HasPending(m, k) {
      assert UnknownEdit(m, k, value) <==> Edited(m, k, value);
      if !UnknownEdit(m, k, value) {
        PutsSays(m, k, value);
      } else if k.folder !in w {
        var kept := KeepReadOnlyEdit(m, k, m.disk[k]);
        PutsSays(kept, k, value);
        FreeIsFirst(m, k);
      } else if k in m.known {
        LateSays(w, m, k, value, txid);
      }
    }
  }

  lemma {:induction false} PutsSays(m: Mirror, k: Key, value: FileValue)
    ensures Puts(m, PutOnDisk(m, k, value), k, value) && PutOnDisk(m, k, value).backups == m.backups
  {
    assert m.known[k := InstallingRow(m, k, value)][k := InstalledRow(value)] == m.known[k := InstalledRow(value)];
  }

  lemma {:induction false} LateSays(w: Writable, m: Mirror, k: Key, value: FileValue, txid: string)
    requires !HasPending(m, k) && UnknownEdit(m, k, value) && k.folder in w && k in m.known
    ensures Keeps(m, Install(w, m, k, value, txid), k, value, txid)
  {
    ObserveSays(w, m, k, txid);
    PendingIsQueued(m, k);
    var seen := Observe(w, m, k, txid);
    var row := m.known[k].(version := VersionOf(value), hash := LiveHash(value), localHash := Local(m, k));
    assert seen.known[k := row] == m.known[k := row];
  }

  lemma {:induction false} FreeIsFirst(m: Mirror, k: Key)
    ensures FirstFree(m, k, FreePath(m.backups.Keys, BackupBase(k), 0))
  {
    var n := FreeFrom(m.backups.Keys, m.backups.Keys, BackupBase(k), 0);
  }

  ghost predicate TriedName(file: string, from: nat, name: string) { exists i: nat :: i < from && name == BackupPath(file, i) }

  /** The search tries the numbers in turn. */
  lemma {:induction false} FreeFrom(all: set<string>, taken: set<string>, file: string, from: nat) returns (n: nat)
    requires taken <= all && forall name :: name in all && name !in taken ==> TriedName(file, from, name)
    requires forall i: nat :: i < from ==> BackupPath(file, i) in all
    ensures FreePath(taken, file, from) == BackupPath(file, n) && BackupPath(file, n) !in all
    ensures forall i: nat :: i < n ==> BackupPath(file, i) in all
    decreases taken
  {
    var here := BackupPath(file, from);
    if here in taken {
      forall name | name in all && name !in taken - {here} ensures TriedName(file, from + 1, name) {
        if name != here {
          assert TriedName(file, from, name);
          var i: nat :| i < from && name == BackupPath(file, i);
        }
      }
      n := FreeFrom(all, taken - {here}, file, from + 1);
    } else {
      n := from;
      if here in all {
        assert TriedName(file, from, here);
        var i: nat :| i < from && here == BackupPath(file, i);
        BackupsDistinct(file, from, i);
      }
    }
  }

  // ---- A pulled change, a resumed install, a scan ------------------------------------------------------------

  /** The path is observed, then the value installed. */
  ghost predicate ObservedInstall(w: Writable, m: Mirror, m': Mirror, k: Key, value: FileValue, txid: string) {
    exists seen :: ObserveMeans(w, m, seen, k, txid) && InstallMeans(w, seen, m', k, value, txid)
  }

  lemma {:induction false} ApplyChangeSays(w: Writable, m: Mirror, k: Key, value: FileValue, txid: string)
    ensures ObservedInstall(w, m, ApplyChange(w, m, k, value, txid), k, value, txid)
  {
    ObserveSays(w, m, k, txid);
    InstallSays(w, Observe(w, m, k, txid), k, value, txid);
  }

  /** A resumed mirror installs the head at the paths whose row says that an install was cut short. */
  lemma {:induction false} RecoverSays(w: Writable, m: Mirror, k: Key, head: FileValue, txid: string)
    ensures var m' := Recover(w, m, k, head, txid);
      if k in m.known && m.known[k].localVersion != m.known[k].version && !QueuedAt(m.outbox, k)
      then ObservedInstall(w, m, m', k, head, txid) else m' == m
  {
    PendingIsQueued(m, k);
    ApplyChangeSays(w, m, k, head, txid);
  }

  /** A scan without write access installs the head over what was neither seen nor the server's. */
  lemma {:induction false} ScanSays(w: Writable, m: Mirror, k: Key, head: FileValue, txid: string)
    ensures var m' := ScanReadOnly(w, m, k, head, txid);
      if OnDisk(m, k) == Seen(m, k) || IsServers(m, k) then m' == m else InstallMeans(w, m, m', k, head, txid)
  {
    InstallSays(w, m, k, head, txid);
  }

  // ---- deliver -------------------------------------------------------------------------------------------------

  /** The operation is as it was, except that its content may have been uploaded. */
  ghost predicate SentAs(op: Op, op': Op) { op' == op.(uploaded := op'.uploaded) && op'.uploaded == (op.uploaded || op.hash.Some?) }

  /** Nothing came of the delivery: the operation still heads the queue. */
  ghost predicate Waits(m: Mirror, m': Mirror) {
    && m' == m.(outbox := m'.outbox)
    && m.outbox != [] && |m'.outbox| == |m.outbox| && SentAs(m.outbox[0], m'.outbox[0]) && m'.outbox[1..] == m.outbox[1..]
  }

  /** The operation left the queue for the rejected table, with the answer. */
  ghost predicate Refused(m: Mirror, m': Mirror, status: int, reason: string) {
    && m' == m.(outbox := m'.outbox, rejected := m'.rejected)
    && m.outbox != [] && m'.outbox == m.outbox[1..]
    && |m'.rejected| == |m.rejected| + 1 && m'.rejected[..|m.rejected|] == m.rejected
    && var row := m'.rejected[|m.rejected|]; row.status == status && row.reason == reason && SentAs(m.outbox[0], row.op)
  }

  /** The operation is in neither table, and what waited behind it waits at the same place, on the new version at its path. */
  ghost predicate Landed(m: Mirror, m': Mirror, version: Option<nat>) {
    && m.outbox != [] && m'.rejected == m.rejected && |m'.outbox| >= |m.outbox| - 1
    && (forall op :: op in m'.outbox ==> op.seqNo != m.outbox[0].seqNo)
    && (forall i :: 1 <= i < |m.outbox| ==>
          m'.outbox[i - 1] == if m.outbox[i].key == m.outbox[0].key then m.outbox[i].(base := version) else m.outbox[i])
  }

  /** How a sent operation ends, from the server's last answer about it. */
  ghost predicate DeliveryMeans(m: Mirror, m': Mirror, last: Answer) {
    match last
    case Accepted(version) => Landed(m, m', version)
    case BlobMissing => Waits(m, m')
    case Failed(status, retryable, reason) =>
      if retryable || status == 401 || status == 403 then Waits(m, m') else Refused(m, m', status, reason)
  }

  /** The queue has numbers that grow and one base for each path. */
  ghost predicate Chained(m: Mirror) { Ordered(m.outbox, m.nextSeq) && OneBase(m) }

  /** Observing and installing only append operations with new numbers, and reject nothing. */
  lemma {:induction false} SectionAppends(w: Writable, m: Mirror, k: Key, value: FileValue, txid: string)
    ensures Appends(m, Observe(w, m, k, txid)) && Appends(m, Install(w, m, k, value, txid))
  {
    ObserveSays(w, m, k, txid);
    InstallSays(w, m, k, value, txid);
  }

  ghost predicate Appends(m: Mirror, m': Mirror) {
    && m.outbox <= m'.outbox && m'.rejected == m.rejected && m.nextSeq <= m'.nextSeq
    && forall i :: |m.outbox| <= i < |m'.outbox| ==> m'.outbox[i].seqNo >= m.nextSeq
  }

  lemma {:induction false} SendingWaits(m: Mirror)
    requires m.outbox != [] && Ordered(m.outbox, m.nextSeq)
    ensures Waits(m, Sending(m)) && Ordered(Sending(m).outbox, m.nextSeq)
  {
    MarksHead(m.outbox, m.nextSeq);
  }

  lemma {:induction false} MarksHead(ops: seq<Op>, next: nat)
    requires ops != [] && Ordered(ops, next)
    ensures var marked := MarkUploaded(ops, ops[0].seqNo);
      marked == [ops[0].(uploaded := true)] + ops[1..] && marked[1..] == ops[1..] && Ordered(marked, next)
  {
    MarkFacts(ops, ops[0].seqNo);
    forall i | 0 < i < |ops| ensures ops[i].seqNo != ops[0].seqNo { }
  }

  lemma {:induction false} RejectRefuses(m: Mirror, sent: Mirror, status: int, reason: string)
    requires Waits(m, sent) && Ordered(sent.outbox, sent.nextSeq)
    ensures Refused(m, Reject(sent, m.outbox[0].seqNo, status, reason), status, reason)
  {
    HeadAlone(sent.outbox, sent.nextSeq);
    var m' := Reject(sent, m.outbox[0].seqNo, status, reason);
    assert m'.rejected == m.rejected + [Rejected(sent.outbox[0], status, reason)] by {
      assert Refuse([sent.outbox[0]], status, reason) == [Rejected(sent.outbox[0], status, reason)];
    }
  }

  /** Settling the head of a queue that may have grown, as far as the first `n` operations go. */
  lemma {:induction false} SettleLands(m: Mirror, seen: Mirror, op: Op, version: Option<nat>)
    requires m.outbox != [] && Chained(m) && Chained(seen) && Appends(m, seen) && Queued(m, op)
    ensures Landed(m, Settle(seen, op, version), version)
    ensures forall other :: other in Settle(seen, op, version).outbox ==> other.seqNo != m.outbox[0].seqNo
    ensures Settle(seen, op, version).nextSeq >= m.nextSeq
  {
    var m' := Settle(seen, op, version);
    assert seen.outbox[0] == m.outbox[0];
    SettleChain(seen, op, version);
    forall i | 0 <= i < |m'.outbox| ensures m'.outbox[i].seqNo != m.outbox[0].seqNo {
      assert seen.outbox[0].seqNo < seen.outbox[i + 1].seqNo;
    }
    forall i | 1 <= i < |m.outbox|
      ensures m'.outbox[i - 1] == if m.outbox[i].key == m.outbox[0].key then m.outbox[i].(base := version) else m.outbox[i]
    {
      assert seen.outbox[i] == m.outbox[i];
    }
  }

  lemma {:induction false} LandedStays(m: Mirror, settled: Mirror, m': Mirror, version: Option<nat>)
    requires Landed(m, settled, version) && Appends(settled, m') && settled.nextSeq >= m.nextSeq
    requires m.outbox[0].seqNo < m.nextSeq
    ensures Landed(m, m', version)
  {
    forall op | op in m'.outbox ensures op.seqNo != m.outbox[0].seqNo {
      var i :| 0 <= i < |m'.outbox| && m'.outbox[i] == op;
      if i < |settled.outbox| { assert op == settled.outbox[i] && op in settled.outbox; }
    }
    forall i | 0 <= i < |m.outbox| - 1 ensures m'.outbox[i] == settled.outbox[i] {}
  }

  lemma {:induction false} ChainedAfter(w: Writable, m: Mirror, k: Key, txid: string)
    requires Chained(m)
    ensures Chained(Observe(w, m, k, txid))
  {
    var m' := Observe(w, m, k, txid);
    if m' != m {
      var known := Head(m, k);
      if HasPending(m, k) { var i :| 0 <= i < |m.outbox| && m.outbox[i].key == k; }
      BaseAfterEnqueue(m, k, txid, EditBase(known), Local(m, k),
        Known(if known.Some? then known.value.version else None, if known.Some? then known.value.hash else None,
              Local(m, k), EditBase(known)));
    }
  }

  lemma {:induction false} FinishLands(
      w: Writable, m: Mirror, sent: Mirror, op: Op, version: Option<nat>, head: FileValue, txid: string)
    requires Chained(m) && m.outbox != [] && op == m.outbox[0] && Waits(m, sent) && Chained(sent)
    ensures Landed(m, FinishDelivery(w, sent, op, version, head, txid), version)
  {
    var seen := Observe(w, sent, op.key, txid);
    ChainedAfter(w, sent, op.key, txid);
    SectionAppends(w, sent, op.key, head, txid);
    assert Queued(sent, op);
    SettleLands(sent, seen, op, version);
    var settled := Settle(seen, op, version);
    SectionAppends(w, settled, op.key, head, txid);
    LandedStays(sent, settled, FinishDelivery(w, sent, op, version, head, txid), version);
    LandedFromSent(m, sent, FinishDelivery(w, sent, op, version, head, txid), version);
  }

  lemma {:induction false} LandedFromSent(m: Mirror, sent: Mirror, m': Mirror, version: Option<nat>)
    requires Waits(m, sent) && Landed(sent, m', version)
    ensures Landed(m, m', version)
  {
    forall i | 1 <= i < |m.outbox| ensures m.outbox[i] == sent.outbox[i] {
      assert m.outbox[1..][i - 1] == sent.outbox[1..][i - 1];
    }
  }

  lemma {:induction false} SendingChained(m: Mirror)
    requires Chained(m) && m.outbox != []
    ensures Chained(Sending(m))
  {
    SendingWaits(m);
    UploadedSameOps(m, m.outbox[0].seqNo);
    var sent := Sending(m);
    forall i | 0 <= i < |sent.outbox|
      ensures sent.outbox[i].key in sent.known && sent.known[sent.outbox[i].key].localVersion == sent.outbox[i].base
    {
      assert i > 0 ==> sent.outbox[1..][i - 1] == m.outbox[1..][i - 1];
    }
  }

  /** An operation that is sent: a write, or a delete of a version. */
  predicate IsSent(m: Mirror) { m.outbox != [] && !(m.outbox[0].hash.None? && m.outbox[0].base.None?) }

  /** A sent operation ends as the server's last answer says, whatever else is queued. */
  lemma {:induction false} DeliverSays(w: Writable, m: Mirror, first: Answer, second: Answer, head: FileValue, txid: string)
    requires Chained(m) && IsSent(m)
    ensures DeliveryMeans(m, Deliver(w, m, FinalAnswer(first, second), head, txid),
                          match first case BlobMissing => second case _ => first)
  {
    SendingWaits(m);
    SendingChained(m);
    var answer := FinalAnswer(first, second);
    match answer
    case Accepted(version) => FinishLands(w, m, Sending(m), m.outbox[0], version, head, txid);
    case BlobMissing =>
    case Failed(status, _, reason) => RejectRefuses(m, Sending(m), status, reason);
  }

  /** A delete that no version belongs to is dropped, and the head installed at its path. */
  lemma {:induction false} DropSays(w: Writable, m: Mirror, answer: Answer, head: FileValue, txid: string)
    requires m.outbox != [] && !IsSent(m) && Ordered(m.outbox, m.nextSeq)
    ensures InstallMeans(w, m.(outbox := m.outbox[1..]), Deliver(w, m, answer, head, txid), m.outbox[0].key, head, txid)
  {
    HeadAlone(m.outbox, m.nextSeq);
    InstallSays(w, m.(outbox := m.outbox[1..]), m.outbox[0].key, head, txid);
  }

  /** Both ways a turn of the delivery loop can go. */
  lemma {:induction false} DeliveryEnds(w: Writable, m: Mirror, first: Answer, second: Answer, head: FileValue, txid: string)
    requires m.outbox != []
    ensures var m' := Deliver(w, m, FinalAnswer(first, second), head, txid);
      Chained(m) ==>
        if IsSent(m) then DeliveryMeans(m, m', match first case BlobMissing => second case _ => first)
        else InstallMeans(w, m.(outbox := m.outbox[1..]), m', m.outbox[0].key, head, txid)
  {
    if Chained(m) {
      if IsSent(m) { DeliverSays(w, m, first, second, head, txid); }
      else { DropSays(w, m, FinalAnswer(first, second), head, txid); }
    }
  }

  /** After acceptance the path is observed, the operation settled and the head installed. */
  lemma {:induction false} AcceptedInstalls(
      w: Writable, m: Mirror, version: Option<nat>, head: FileValue, txid: string)
    requires IsSent(m)
    ensures var op, m' := m.outbox[0], Deliver(w, m, Accepted(version), head, txid);
      exists sent, seen :: sent == Sending(m) && ObserveMeans(w, sent, seen, op.key, txid)
                        && InstallMeans(w, Settle(seen, op, version), m', op.key, head, txid)
  {
    var op, sent := m.outbox[0], Sending(m);
    var seen := Observe(w, sent, op.key, txid);
    ObserveSays(w, sent, op.key, txid);
    InstallSays(w, Settle(seen, op, version), op.key, head, txid);
  }
}
