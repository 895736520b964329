/** What an accepted commit or delete appends and answers, told from the stream it was decided on. */
module FolderAnswers {
  import opened Common
  import opened JsMap
  import opened Text
  import opened FolderMessages
  import opened FolderView
  import opened FolderStore

  /** The change that the txid landed, while fewer than 1024 other txids landed since. */
  function Remembered(log: seq<FileMessage>, txid: string): Option<Landed> {
    if |After(Landings(log), txid)| < 1024 then LastLanding(Landings(log), txid) else None
  }

  /** `v` follows every version of the stream. */
  ghost predicate NextVersion(log: seq<FileMessage>, v: nat) {
    && (forall i :: 0 <= i < |log| && log[i].Upsert? ==> log[i].value.version < v)
    && (v == 1 || exists i :: 0 <= i < |log| && log[i].Upsert? && log[i].value.version + 1 == v)
  }

  lemma {:induction false} ViewCounts(log: seq<FileMessage>)
    ensures NextVersion(log, ViewOf(log).last + 1)
  {
    if log != [] {
      var n := |log| - 1;
      ViewCounts(log[..n]);
      assert forall i :: 0 <= i < n ==> log[..n][i] == log[i];
      var before, after := ViewOf(log[..n]).last, ViewOf(log).last;
      if after == before {
        if before > 0 {
          var i :| 0 <= i < n && log[..n][i].Upsert? && log[..n][i].value.version + 1 == before + 1;
          assert log[i].value.version + 1 == after + 1;
        }
      } else {
        assert log[n].value.version + 1 == after + 1;
      }
    }
  }

  lemma {:induction false} RecallIs(log: seq<FileMessage>, req: Request)
    ensures Get(ViewOf(log).recent, req.txid) == Remembered(log, req.txid)
  {
    MemoryWindow(log, req.txid);
  }

  /** The answer that a live change gives: its version, parent, content and txid. */
  function HeadOf(m: FileMessage): Answer
    requires IsLive(m)
  {
    Head(m.value.version, m.value.parent, m.value.hash, if m.txid.Some? then m.txid.value else Decimal(m.value.version))
  }

  /** What one appended change does to the meaning of the stream and to its retry memory. */
  lemma {:induction false} AfterAppend(log: seq<FileMessage>, m: FileMessage)
    requires m.Upsert? && m.txid.Some?
    ensures LastChanges(map[], log + [m]) == LastChanges(map[], log)[m.key := m.value]
    ensures Landings(log + [m])
         == Landings(log) + [(m.txid.value, Landed(m.key, m.value.version, m.value.parent,
                                                   if m.value.File? then Some(m.value.hash) else None))]
  {
    assert (log + [m])[..|log|] == log;
    FoldSnoc(map[], ApplyChange, log, m);
  }

  /**
   * An accepted commit. A remembered txid gets the answer of its change, a path that has this content the
   * answer of its last change, and neither appends. Otherwise the path's last change is this content with
   * the next version, and that is the answer.
   */
  lemma {:induction false} CommitMeans(log: seq<FileMessage>, req: Request, v: nat)
    requires req.CommitFile? && NextVersion(log, v) && DecideRequest(ViewOf(log), req).Ok?
    ensures var d, rows := DecideRequest(ViewOf(log), req).value, LastChanges(map[], log);
      var landed, live := Remembered(log, req.txid), req.path in rows && rows[req.path].File? && rows[req.path].hash == req.hash;
      && (d.items == [] <==> landed.Some? || live)
      && (landed.Some? ==>
            landed.value.path == req.path && landed.value.hash.Some?
            && d.answer == Head(landed.value.version, landed.value.parent, landed.value.hash.value, req.txid))
      && (landed.None? && live ==> exists i :: LastSays(log, req.path, i) && IsLive(log[i]) && d.answer == HeadOf(log[i]))
      && (landed.None? && !live ==>
            && LastChanges(map[], log + d.items) == rows[req.path := File(req.path, v, req.parent, req.hash, req.size, req.author)]
            && Landings(log + d.items) == Landings(log) + [(req.txid, Landed(req.path, v, req.parent, Some(req.hash)))]
            && d.answer == Head(v, req.parent, req.hash, req.txid))
  {
    RecallIs(log, req);
    ViewMeansTheStream(log);
    NextIsOne(log, v);
    var d := DecideRequest(ViewOf(log), req).value;
    if d.items == [] {
      if Remembered(log, req.txid).None? {
        LastChangeMeans(log, req.path);
        var i :| LastSays(log, req.path, i);
      }
    } else {
      AfterAppend(log, d.items[0]);
      assert d.items == [d.items[0]];
    }
  }

  lemma {:induction false} NextIsOne(log: seq<FileMessage>, v: nat)
    requires NextVersion(log, v)
    ensures v == ViewOf(log).last + 1
  {
    ViewCounts(log);
  }

  /**
   * An accepted delete. A remembered txid gets the answer of its change, a path without a live file the
   * empty answer, and neither appends. Otherwise the path's last change is a tombstone with the next version.
   */
  lemma {:induction false} DeleteMeans(log: seq<FileMessage>, req: Request, v: nat)
    requires req.DeleteFile? && NextVersion(log, v) && DecideRequest(ViewOf(log), req).Ok?
    ensures var d, rows := DecideRequest(ViewOf(log), req).value, LastChanges(map[], log);
      var landed, live := Remembered(log, req.txid), req.path in rows && rows[req.path].File?;
      && (d.items == [] <==> landed.Some? || !live)
      && (landed.Some? ==>
            landed.value.path == req.path && landed.value.hash.None?
            && d.answer == Deleted(landed.value.version, landed.value.parent, req.txid))
      && (landed.None? && !live ==> d.answer == Absent)
      && (landed.None? && live ==>
            && LastChanges(map[], log + d.items) == rows[req.path := Tombstone(req.path, v, req.parent, req.author)]
            && Landings(log + d.items) == Landings(log) + [(req.txid, Landed(req.path, v, req.parent, None))]
            && d.answer == Deleted(v, req.parent, req.txid))
  {
    RecallIs(log, req);
    ViewMeansTheStream(log);
    NextIsOne(log, v);
    var d := DecideRequest(ViewOf(log), req).value;
    if d.items != [] {
      AfterAppend(log, d.items[0]);
      assert d.items == [d.items[0]];
    }
  }

  /** A refused request appends nothing, and which refusal it gets: the checks in their order. */
  lemma {:induction false} RefusalMeans(blobs: Blobs, log: seq<FileMessage>, req: Request, v: nat)
    requires NextVersion(log, v)
    ensures var r := Submit(blobs, ViewOf(log), req);
      var tooLarge, landed := req.CommitFile? && req.size > 64 * 1024 * 1024, Remembered(log, req.txid);
      var missing := req.CommitFile? && !(req.hash in blobs && blobs[req.hash] == req.size);
      var future := req.parent.Some? && req.parent.value >= v;
      && (r.Err? ==> Appended(blobs, req, ViewOf(log)) == [])
      && (r == Err(FileTooLarge) <==> tooLarge)
      && (r == Err(BlobMissing) <==> !tooLarge && missing)
      && (r == Err(BadParent) <==> !tooLarge && !missing && future)
      && (r == Err(TxidReused) <==>
            !tooLarge && !missing && !future && landed.Some?
            && (landed.value.path != req.path || landed.value.hash.Some? != req.CommitFile?))
  {
    RecallIs(log, req);
    NextIsOne(log, v);
  }
}
