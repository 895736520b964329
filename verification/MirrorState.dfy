/**
 * The mirror's tables and gate sections as the program writes them: one object whose fields are
 * updated step by step, each method tied to the state function it stands for.
 */
module MirrorState {
  import opened Common
  import opened MirrorModel
  import opened MirrorSections
  import MirrorRuns
  import MirrorSafety

  class SyncMirror {
    var known: map<Key, Known>
    var outbox: seq<Op>
    var nextSeq: nat
    var rejected: seq<Rejected>
    var disk: map<Key, Hash>
    var backups: map<string, Hash>
    const writable: Writable

    ghost function State(): Mirror
      reads this
    {
      Mirror(known, outbox, nextSeq, rejected, disk, backups)
    }

    constructor (w: Writable, files: map<Key, Hash>)
      ensures State() == MirrorRuns.Initial(files).m && writable == w
    {
      known, outbox, nextSeq, rejected, disk, backups, writable := map[], [], 0, [], files, map[], w;
    }

    // ---- state.ts ----------------------------------------------------------------------------------------

    method Save(k: Key, row: Known)
      modifies this`known
      ensures State() == MirrorModel.Save(old(State()), k, row)
    {
      known := known[k := row];
    }

    /** The oldest operation: its number is below every other. */
    method Next() returns (op: Option<Op>)
      requires MirrorRuns.Ordered(outbox, nextSeq)
      ensures op.None? <==> outbox == []
      ensures op.Some? ==>
        op.value in outbox && forall other :: other in outbox && other != op.value ==> op.value.seqNo < other.seqNo
    {
      op := if outbox == [] then None else Some(outbox[0]);
    }

    method HasPending(k: Key) returns (queued: bool)
      ensures queued <==> exists op :: op in outbox && op.key == k
    {
      queued := MirrorModel.HasPending(Mirror(known, outbox, nextSeq, rejected, disk, backups), k);
      assert queued ==> exists i :: 0 <= i < |outbox| && outbox[i] in outbox && outbox[i].key == k;
    }

    method Enqueue(k: Key, txid: string, base: Option<nat>, hash: Option<Hash>, row: Known)
      modifies this`known, this`outbox, this`nextSeq
      ensures State() == MirrorModel.Enqueue(old(State()), k, txid, base, hash, row)
    {
      outbox := outbox + [Op(nextSeq, k, txid, base, hash, false)];
      nextSeq := nextSeq + 1;
      Save(k, row);
    }

    /** Exactly the operation with the number is marked. */
    method Uploaded(n: nat)
      modifies this`outbox
      ensures |outbox| == |old(outbox)| && forall i :: 0 <= i < |outbox| ==>
        outbox[i] == if old(outbox)[i].seqNo == n then old(outbox)[i].(uploaded := true) else old(outbox)[i]
      ensures State() == MirrorModel.Uploaded(old(State()), n)
    {
      MirrorRuns.MarkFacts(outbox, n);
      outbox := MarkUploaded(outbox, n);
    }

    /** Exactly the operation with the number is gone, and the queue keeps its order. */
    method Discard(n: nat)
      modifies this`outbox
      ensures forall op :: op in outbox <==> op in old(outbox) && op.seqNo != n
      ensures MirrorRuns.Ordered(old(outbox), nextSeq) ==> MirrorRuns.Ordered(outbox, nextSeq)
      ensures State() == MirrorModel.Discard(old(State()), n)
    {
      MirrorRuns.WithoutFacts(outbox, n);
      if MirrorRuns.Ordered(outbox, nextSeq) { MirrorRuns.WithoutOrdered(outbox, n, nextSeq); }
      outbox := Without(outbox, n);
    }

    method Settle(op: Op, version: Option<nat>)
      modifies this`known, this`outbox
      ensures State() == MirrorModel.Settle(old(State()), op, version)
    {
      Discard(op.seqNo);
      outbox := Rebase(outbox, op, version);
      if op.key in known && known[op.key].localVersion == op.base {
        known := known[op.key := known[op.key].(localVersion := version)];
      }
    }

    method Reject(n: nat, status: int, reason: string)
      modifies this`outbox, this`rejected
      ensures MirrorRuns.Ordered(old(outbox), nextSeq) && old(outbox) != [] && old(outbox)[0].seqNo == n ==>
        outbox == old(outbox)[1..] && rejected == old(rejected) + [Rejected(old(outbox)[0], status, reason)]
      ensures State() == MirrorModel.Reject(old(State()), n, status, reason)
    {
      if MirrorRuns.Ordered(outbox, nextSeq) && outbox != [] && outbox[0].seqNo == n {
        MirrorSafety.HeadAlone(outbox, nextSeq);
        assert Refuse([outbox[0]], status, reason) == [Rejected(outbox[0], status, reason)];
      }
      rejected := rejected + Refuse(OpsAt(outbox, n), status, reason);
      Discard(n);
    }

    // ---- install.ts --------------------------------------------------------------------------------------

    method Observe(k: Key, txid: string)
      modifies this`known, this`outbox, this`nextSeq
      ensures ObserveMeans(writable, old(State()), State(), k, txid)
      ensures State() == MirrorModel.Observe(writable, old(State()), k, txid)
    {
      ObserveSays(writable, State(), k, txid);
      if IgnoredPath(k.path) { return; }
      var hash := if k in disk then Some(disk[k]) else None;
      var row := if k in known then Some(known[k]) else None;
      var pending := MirrorModel.HasPending(Mirror(known, outbox, nextSeq, rejected, disk, backups), k);
      if IsEcho(hash, row, pending) { return; }
      if k.folder !in writable { return; }
      Enqueue(k, txid, EditBase(row), hash,
              Known(if row.Some? then row.value.version else None, if row.Some? then row.value.hash else None,
                    hash, EditBase(row)));
    }

    method ReplaceSource(k: Key, content: Option<Hash>)
      modifies this`disk
      ensures State() == Replace(old(State()), k, content)
    {
      disk := if content.Some? then disk[k := content.value] else disk - {k};
    }

    /** `freePath` tries numbered names until one is free, and the edit is moved there. */
    method KeepReadOnlyEdit(k: Key, content: Hash)
      modifies this`backups
      ensures exists name :: FirstFree(old(State()), k, name) && backups == old(backups)[name := content]
      ensures State() == MirrorModel.KeepReadOnlyEdit(old(State()), k, content)
    {
      FreeIsFirst(State(), k);
      var file := BackupBase(k);
      var suffix: nat := 0;
      ghost var taken := backups.Keys;
      while BackupPath(file, suffix) in backups
        invariant State() == old(State()) && taken <= backups.Keys
        invariant FreePath(backups.Keys, file, 0) == FreePath(taken, file, suffix)
        invariant forall name :: name in backups.Keys && name !in taken ==> exists n: nat :: n < suffix && name == BackupPath(file, n)
        decreases taken
      {
        StillTaken(taken, backups.Keys, file, suffix);
        taken := taken - {BackupPath(file, suffix)};
        suffix := suffix + 1;
      }
      var name := BackupPath(file, suffix);
      assert FreePath(backups.Keys, file, 0) == name;
      backups := backups[name := content];
    }

    static lemma {:induction false} StillTaken(taken: set<string>, all: set<string>, file: string, suffix: nat)
      requires BackupPath(file, suffix) in all
      requires forall name :: name in all && name !in taken ==> exists n: nat :: n < suffix && name == BackupPath(file, n)
      ensures BackupPath(file, suffix) in taken
    {
      if BackupPath(file, suffix) !in taken {
        var n: nat :| n < suffix && BackupPath(file, suffix) == BackupPath(file, n);
        BackupsDistinct(file, suffix, n);
      }
    }

    method Install(k: Key, value: FileValue, txid: string)
      modifies this`known, this`outbox, this`nextSeq, this`disk, this`backups
      ensures InstallMeans(writable, old(State()), State(), k, value, txid)
      ensures State() == MirrorModel.Install(writable, old(State()), k, value, txid)
    {
      InstallSays(writable, State(), k, value, txid);
      var row := if k in known then Some(known[k]) else None;
      var remoteHash, version := LiveHash(value), VersionOf(value);
      var pending := MirrorModel.HasPending(Mirror(known, outbox, nextSeq, rejected, disk, backups), k);
      if pending {
        if row.Some? { Save(k, row.value.(version := version, hash := remoteHash)); }
        return;
      }
      if k in disk && Some(disk[k]) != remoteHash && !IsEcho(Some(disk[k]), row, false) {
        var hash := disk[k];
        if k.folder !in writable {
          KeepReadOnlyEdit(k, hash);
        } else if row.None? {
          Enqueue(k, txid, None, Some(hash), Known(version, remoteHash, Some(hash), None));
          return;
        } else {
          Observe(k, txid);
          Save(k, row.value.(version := version, hash := remoteHash, localHash := Some(hash)));
          return;
        }
      }
      var installing := Known(version, remoteHash, if row.Some? then row.value.localHash else None, EditBase(row));
      Save(k, installing);
      ReplaceSource(k, remoteHash);
      Save(k, installing.(localHash := remoteHash, localVersion := version));
    }

    // ---- push.ts -----------------------------------------------------------------------------------------

    /**
     * One turn of the delivery loop. `first`, `second` and `head` are what the server says when it is asked. The
     * second answer is about the push after content that the server had lost was uploaded again.
     */
    method Deliver(first: Answer, second: Answer, head: FileValue, txid: string)
      modifies this
      ensures Chained(old(State())) && IsSent(old(State())) ==>
        DeliveryMeans(old(State()), State(), match first case BlobMissing => second case _ => first)
      ensures old(outbox) == [] ==> State() == old(State())
      ensures Chained(old(State())) && old(outbox) != [] && !IsSent(old(State())) ==>
        InstallMeans(writable, old(State()).(outbox := old(outbox)[1..]), State(), old(outbox)[0].key, head, txid)
      ensures State() == MirrorModel.Deliver(writable, old(State()), FinalAnswer(first, second), head, txid)
    {
      if outbox == [] { return; }
      DeliveryEnds(writable, State(), first, second, head, txid);
      var op := outbox[0];
      if op.hash.None? && op.base.None? {
        Drop(op, head, txid);
        return;
      }
      if op.hash.Some? && !op.uploaded { Uploaded(op.seqNo); }
      var answer := first;
      if answer.BlobMissing? { answer := second; }
      if answer.Failed? {
        if answer.retryable || answer.status in {401, 403} { return; }
        Reject(op.seqNo, answer.status, answer.reason);
        return;
      }
      if answer.BlobMissing? { return; }
      Finish(op, answer.version, head, txid);
    }

    /** The gate section behind an accepted push. */
    method Finish(op: Op, version: Option<nat>, head: FileValue, txid: string)
      modifies this
      ensures State() == FinishDelivery(writable, old(State()), op, version, head, txid)
    {
      Observe(op.key, txid);
      Settle(op, version);
      Install(op.key, head, txid);
    }

    /** A delete of no version leaves the queue, and its path shows the head. */
    method Drop(op: Op, head: FileValue, txid: string)
      modifies this
      ensures State() == DropDelete(writable, old(State()), op, head, txid)
    {
      Discard(op.seqNo);
      Install(op.key, head, txid);
    }
  }
}
