/** The messages of a folder stream and what they mean (examples/folder-sync/server/messages.ts). */
module FolderMessages {
  import opened Common

  type Path = string
  type Hash = string

  /** A change names its content by hash. A tombstone is a delete that takes a version. */
  datatype FileValue =
    | File(path: Path, version: nat, parent: Option<nat>, hash: Hash, size: nat, author: string)
    | Tombstone(path: Path, version: nat, parent: Option<nat>, author: string)

  /** A State control, an upsert with its optional txid header, or a plain State delete. */
  datatype FileMessage =
    | Reset
    | Snapshot
    | Upsert(key: Path, value: FileValue, txid: Option<string>)
    | Delete(key: Path)

  predicate IsControl(m: FileMessage) { m.Reset? || m.Snapshot? }

  /** The message leaves a file with content at its key. */
  predicate IsLive(m: FileMessage) { m.Upsert? && m.value.File? }

  /** One message on the live files: a tombstone removes its path. */
  function ApplyFileChange(rows: map<Path, FileValue>, m: FileMessage): map<Path, FileValue> {
    if m.Reset? then map[]
    else if m.Snapshot? then rows
    else if IsLive(m) then rows[m.key := m.value]
    else rows - {m.key}
  }

  /** One message on the last change of each path: a tombstone is kept. */
  function ApplyChange(rows: map<Path, FileValue>, m: FileMessage): map<Path, FileValue> {
    if m.Reset? then map[]
    else if m.Snapshot? then rows
    else if m.Upsert? then rows[m.key := m.value]
    else rows - {m.key}
  }

  /** `applyFileChanges` over a whole stream. */
  function LiveFiles(rows: map<Path, FileValue>, ms: seq<FileMessage>): map<Path, FileValue> {
    Fold(rows, ApplyFileChange, ms)
  }

  /** `applyChanges` over a whole stream. */
  function LastChanges(rows: map<Path, FileValue>, ms: seq<FileMessage>): map<Path, FileValue> {
    Fold(rows, ApplyChange, ms)
  }

  method ApplyFileChanges(rows: map<Path, FileValue>, ms: seq<FileMessage>) returns (files: map<Path, FileValue>)
    ensures files == LiveFiles(rows, ms)
  {
    files := rows;
    for i := 0 to |ms|
      invariant files == LiveFiles(rows, ms[..i])
    {
      assert ms[..i + 1][..i] == ms[..i];
      if IsControl(ms[i]) {
        if ms[i].Reset? { files := map[]; }
      } else if IsLive(ms[i]) {
        files := files[ms[i].key := ms[i].value];
      } else {
        files := files - {ms[i].key};
      }
    }
    assert ms[..|ms|] == ms;
  }

  method ApplyChanges(rows: map<Path, FileValue>, ms: seq<FileMessage>) returns (files: map<Path, FileValue>)
    ensures files == LastChanges(rows, ms)
  {
    files := rows;
    for i := 0 to |ms|
      invariant files == LastChanges(rows, ms[..i])
    {
      assert ms[..i + 1][..i] == ms[..i];
      if IsControl(ms[i]) {
        if ms[i].Reset? { files := map[]; }
      } else if ms[i].Upsert? {
        files := files[ms[i].key := ms[i].value];
      } else {
        files := files - {ms[i].key};
      }
    }
    assert ms[..|ms|] == ms;
  }

  /** The position after the last reset, or 0. */
  function AfterReset(ms: seq<FileMessage>): (n: nat)
    ensures n <= |ms|
    ensures n > 0 ==> ms[n - 1].Reset?
    ensures forall i :: n <= i < |ms| ==> !ms[i].Reset?
  {
    if ms == [] then 0 else if ms[|ms| - 1].Reset? then |ms| else AfterReset(ms[..|ms| - 1])
  }

  /** `afterLastReset`: the suffix that a reader must apply. */
  function AfterLastReset(ms: seq<FileMessage>): seq<FileMessage> { ms[AfterReset(ms)..] }

  /** A reset forgets everything before it, and the suffix after the last one means the same. */
  lemma {:induction false} SuffixMeansTheSame(rows: map<Path, FileValue>, ms: seq<FileMessage>)
    ensures AfterReset(ms) > 0 ==> LastChanges(rows, ms) == LastChanges(map[], AfterLastReset(ms))
    ensures AfterReset(ms) > 0 ==> LiveFiles(rows, ms) == LiveFiles(map[], AfterLastReset(ms))
    ensures AfterReset(ms) == 0 ==> AfterLastReset(ms) == ms
  {
    var n := AfterReset(ms);
    if n > 0 {
      var head, tail := ms[..n], ms[n..];
      assert ms == head + tail && head[|head| - 1].Reset?;
      FoldConcat(rows, ApplyChange, head, tail);
      FoldConcat(rows, ApplyFileChange, head, tail);
    }
  }

  /** The live files are the last changes that are not tombstones. */
  function LiveOnly(rows: map<Path, FileValue>): map<Path, FileValue> {
    map p | p in rows && rows[p].File? :: rows[p]
  }

  lemma {:induction false} LiveIsLastNotDeleted(rows: map<Path, FileValue>, ms: seq<FileMessage>)
    ensures LiveFiles(LiveOnly(rows), ms) == LiveOnly(LastChanges(rows, ms))
  {
    if ms != [] {
      LiveIsLastNotDeleted(rows, ms[..|ms| - 1]);
    }
  }
}
