/**
 * The sync mirror of examples/folder-sync/sync: what one gate section does to the known
 * rows, the outbox, the rejected table, the backups and the disk. Content is named by its
 * hash. A key is one path of one folder.
 */
module MirrorModel {
  import opened Common
  import opened Text

  type Hash = string
  datatype Key = Key(folder: string, path: string)

  datatype Known = Known(version: Option<nat>, hash: Option<Hash>, localHash: Option<Hash>, localVersion: Option<nat>)

  /** A queued operation. It has content exactly when it is a write; a delete has none. */
  datatype Op = Op(seqNo: nat, key: Key, txid: string, base: Option<nat>, hash: Option<Hash>, uploaded: bool)

  /** A row of the rejected table: the operation and why the server refused it. */
  datatype Rejected = Rejected(op: Op, status: int, reason: string)

  datatype Mirror = Mirror(
    known: map<Key, Known>, outbox: seq<Op>, nextSeq: nat, rejected: seq<Rejected>, disk: map<Key, Hash>,
    backups: map<string, Hash>)

  /** The server's answer about a path: never existed, a tombstone or a live version. */
  datatype FileValue = Nothing | Removed(version: nat) | Live(version: nat, hash: Hash)

  function LiveHash(v: FileValue): Option<Hash> { if v.Live? then Some(v.hash) else None }
  function VersionOf(v: FileValue): Option<nat> { if v.Nothing? then None else Some(v.version) }

  // ---- decisions.ts ------------------------------------------------------------------------------

  function EditBase(known: Option<Known>): Option<nat> {
    if known.None? then None else known.value.localVersion
  }

  predicate IsEcho(hash: Option<Hash>, known: Option<Known>, pending: bool) {
    hash == (if known.None? then None else known.value.localHash)
    || (!pending && known.Some? && hash == known.value.hash)
  }

  function LastIndexOf(s: string, c: char): int {
    if s == [] then -1 else if s[|s| - 1] == c then |s| - 1 else LastIndexOf(s[..|s| - 1], c)
  }

  lemma {:induction false} LastIndexBounds(s: string, c: char)
    ensures -1 <= LastIndexOf(s, c) < |s|
  {
    if s != [] && s[|s| - 1] != c { LastIndexBounds(s[..|s| - 1], c); }
  }

  /** Where the extension starts, or the end of the name. */
  function ExtensionAt(file: string): nat {
    LastIndexBounds(file, '.');
    LastIndexBounds(file, '/');
    if LastIndexOf(file, '.') > LastIndexOf(file, '/') + 1 then LastIndexOf(file, '.') else |file|
  }

  lemma {:induction false} ExtensionBounds(file: string)
    ensures ExtensionAt(file) <= |file|
  {
    LastIndexBounds(file, '.');
  }

  function BackupPath(file: string, suffix: nat): string {
    ExtensionBounds(file);
    if suffix == 0 then file
    else file[..ExtensionAt(file)] + "-" + Decimal(suffix) + file[ExtensionAt(file)..]
  }

  /** Numbered backups of one file never share a name. */
  lemma {:induction false} BackupsDistinct(file: string, a: nat, b: nat)
    requires BackupPath(file, a) == BackupPath(file, b)
    ensures a == b
  {
    ExtensionBounds(file);
    var at := ExtensionAt(file);
    if a > 0 && b > 0 {
      var pa, pb := BackupPath(file, a), BackupPath(file, b);
      assert pa[at + 1..|pa| - (|file| - at)] == Decimal(a);
      assert pb[at + 1..|pb| - (|file| - at)] == Decimal(b);
      DecimalReadsBack(a);
      DecimalReadsBack(b);
    } else {
      assert |file[..at]| + |file[at..]| == |file|;
    }
  }

  /** The character does not occur from the place on. */
  ghost predicate NoneFrom(s: string, c: char, at: nat) { forall k :: at <= k < |s| ==> s[k] != c }

  /** Where the last part of the path begins, after its last slash. */
  ghost predicate LastPart(file: string, at: nat) { at <= |file| && (at == 0 || file[at - 1] == '/') && NoneFrom(file, '/', at) }

  lemma {:induction false} LastIndexIs(s: string, c: char)
    ensures var i := LastIndexOf(s, c); -1 <= i < |s| && (i >= 0 ==> s[i] == c) && NoneFrom(s, c, i + 1)
  {
    LastIndexBounds(s, c);
    if s != [] && s[|s| - 1] != c {
      var front := s[..|s| - 1];
      LastIndexIs(front, c);
      forall k | LastIndexOf(s, c) + 1 <= k < |s| ensures s[k] != c { if k < |front| { assert front[k] == s[k]; } }
    }
  }

  /**
   * A numbered backup keeps directory and extension: the number goes in front of the last dot of the last
   * part, or to the end when that part has no dot behind its first character.
   */
  lemma {:induction false} BackupMeans(file: string, n: nat, at: nat, dot: nat)
    requires LastPart(file, at)
    ensures n == 0 ==> BackupPath(file, n) == file
    ensures n > 0 && at < dot < |file| && file[dot] == '.' && NoneFrom(file, '.', dot + 1) ==>
      BackupPath(file, n) == file[..dot] + "-" + Decimal(n) + file[dot..]
    ensures n > 0 && NoneFrom(file, '.', at + 1) ==> BackupPath(file, n) == file + "-" + Decimal(n)
  {
    ExtensionIs(file, at, dot);
    assert file[|file|..] == [] && file[..|file|] == file;
    assert file + "-" + Decimal(n) + [] == file + "-" + Decimal(n);
  }

  lemma {:induction false} ExtensionIs(file: string, at: nat, dot: nat)
    requires LastPart(file, at)
    ensures at < dot < |file| && file[dot] == '.' && NoneFrom(file, '.', dot + 1) ==> ExtensionAt(file) == dot
    ensures NoneFrom(file, '.', at + 1) ==> ExtensionAt(file) == |file|
  {
    LastIndexIs(file, '.');
    LastIndexIs(file, '/');
  }

  /** `freePath`: the first candidate that is not taken. */
  function FreePath(taken: set<string>, file: string, suffix: nat): string
    decreases taken
  {
    if BackupPath(file, suffix) !in taken then BackupPath(file, suffix)
    else FreePath(taken - {BackupPath(file, suffix)}, file, suffix + 1)
  }

  lemma {:induction false} FreePathIsFree(taken: set<string>, file: string, suffix: nat)
    ensures FreePath(taken, file, suffix) !in taken
    ensures exists n: nat :: n >= suffix && FreePath(taken, file, suffix) == BackupPath(file, n)
    decreases taken
  {
    if BackupPath(file, suffix) in taken {
      FreePathIsFree(taken - {BackupPath(file, suffix)}, file, suffix + 1);
      var n: nat :| n >= suffix + 1 && FreePath(taken, file, suffix) == BackupPath(file, n);
      if BackupPath(file, n) == BackupPath(file, suffix) { BackupsDistinct(file, n, suffix); }
    }
  }

  predicate EndsWith(s: string, t: string) { |t| <= |s| && s[|s| - |t|..] == t }

  predicate ScratchName(name: string) {
    || name == ".DS_Store" || name == "4913"
    || EndsWith(name, ".swp") || EndsWith(name, ".swx") || EndsWith(name, "~")
    || ".#" <= name
    || (|name| > 1 && name[0] == '#' && name[|name| - 1] == '#')
  }

  /** Some part of the path is a scratch name. */
  predicate IgnoredPath(path: string) { exists part :: part in Split(path, '/') && ScratchName(part) }

  /** A path is ignored exactly when one of its parts is. */
  lemma {:induction false} IgnoredBelow(a: string, b: string)
    ensures IgnoredPath(a + "/" + b) <==> IgnoredPath(a) || IgnoredPath(b)
  {
    SplitConcat(a, b, '/');
    assert forall part :: part in Split(a, '/') + Split(b, '/') <==> part in Split(a, '/') || part in Split(b, '/');
  }

  /** Scratch names of editors: swap files, backups, lock files, autosaves, Vim's probe and Finder's store. */
  lemma {:induction false} IgnoredNames(name: string)
    requires '/' !in name
    ensures var n := |name|;
      IgnoredPath(name) <==>
        || name == ['.', 'D', 'S', '_', 'S', 't', 'o', 'r', 'e'] || name == ['4', '9', '1', '3']
        || (n >= 4 && name[n - 4] == '.' && name[n - 3] == 's' && name[n - 2] == 'w' && name[n - 1] in {'p', 'x'})
        || (n >= 1 && name[n - 1] == '~') || (n >= 2 && name[0] == '.' && name[1] == '#')
        || (n >= 2 && name[0] == '#' && name[n - 1] == '#')
  {
    SplitWhole(name, '/');
    assert IgnoredPath(name) <==> ScratchName(name);
    SwapNames(name);
  }

  lemma {:induction false} SwapNames(name: string)
    ensures var n := |name|;
      && (EndsWith(name, ".swp") || EndsWith(name, ".swx")
          <==> n >= 4 && name[n - 4] == '.' && name[n - 3] == 's' && name[n - 2] == 'w' && name[n - 1] in {'p', 'x'})
      && (EndsWith(name, "~") <==> n >= 1 && name[n - 1] == '~')
      && (".#" <= name <==> n >= 2 && name[0] == '.' && name[1] == '#')
  {
    var n := |name|;
    if n >= 4 {
      var tail := name[n - 4..];
      assert tail == [name[n - 4], name[n - 3], name[n - 2], name[n - 1]];
      assert tail == ".swp" <==> tail[0] == '.' && tail[1] == 's' && tail[2] == 'w' && tail[3] == 'p';
      assert tail == ".swx" <==> tail[0] == '.' && tail[1] == 's' && tail[2] == 'w' && tail[3] == 'x';
    }
    if n >= 1 { assert name[n - 1..] == [name[n - 1]]; }
    if n >= 2 { assert name[..2] == [name[0], name[1]]; }
  }

  // ---- state.ts ------------------------------------------------------------------------------------

  function Head(m: Mirror, k: Key): Option<Known> { if k in m.known then Some(m.known[k]) else None }

  function Local(m: Mirror, k: Key): Option<Hash> { if k in m.disk then Some(m.disk[k]) else None }

  predicate HasPending(m: Mirror, k: Key) { exists i :: 0 <= i < |m.outbox| && m.outbox[i].key == k }

  function Save(m: Mirror, k: Key, row: Known): Mirror { m.(known := m.known[k := row]) }

  function Enqueue(m: Mirror, k: Key, txid: string, base: Option<nat>, hash: Option<Hash>, row: Known): Mirror {
    m.(outbox := m.outbox + [Op(m.nextSeq, k, txid, base, hash, false)], nextSeq := m.nextSeq + 1,
       known := m.known[k := row])
  }

  function Without(ops: seq<Op>, n: nat): seq<Op> {
    if ops == [] then [] else (if ops[0].seqNo == n then [] else [ops[0]]) + Without(ops[1..], n)
  }

  function Discard(m: Mirror, n: nat): Mirror { m.(outbox := Without(m.outbox, n)) }

  /** Later operations of the path that still name the settled base move to the new version. */
  function Rebase(ops: seq<Op>, op: Op, version: Option<nat>): seq<Op> {
    if ops == [] then []
    else
      [if ops[0].seqNo > op.seqNo && ops[0].key == op.key && ops[0].base == op.base
       then ops[0].(base := version) else ops[0]] + Rebase(ops[1..], op, version)
  }

  function Settle(m: Mirror, op: Op, version: Option<nat>): Mirror {
    m.(outbox := Rebase(Without(m.outbox, op.seqNo), op, version),
       known := if op.key in m.known && m.known[op.key].localVersion == op.base
                then m.known[op.key := m.known[op.key].(localVersion := version)] else m.known)
  }

  function OpsAt(ops: seq<Op>, n: nat): seq<Op> {
    if ops == [] then [] else (if ops[0].seqNo == n then [ops[0]] else []) + OpsAt(ops[1..], n)
  }

  function Refuse(ops: seq<Op>, status: int, reason: string): (rows: seq<Rejected>)
    ensures |rows| == |ops| && forall i :: 0 <= i < |ops| ==> rows[i] == Rejected(ops[i], status, reason)
  {
    if ops == [] then [] else [Rejected(ops[0], status, reason)] + Refuse(ops[1..], status, reason)
  }

  /** A rejected operation moves from the outbox to the rejected table, with the answer. */
  function Reject(m: Mirror, n: nat, status: int, reason: string): Mirror {
    m.(rejected := m.rejected + Refuse(OpsAt(m.outbox, n), status, reason), outbox := Without(m.outbox, n))
  }

  function MarkUploaded(ops: seq<Op>, n: nat): seq<Op> {
    if ops == [] then []
    else [if ops[0].seqNo == n then ops[0].(uploaded := true) else ops[0]] + MarkUploaded(ops[1..], n)
  }

  function Uploaded(m: Mirror, n: nat): Mirror { m.(outbox := MarkUploaded(m.outbox, n)) }

  // ---- install.ts ------------------------------------------------------------------------------------

  /** Which folders this mirror may write to. */
  type Writable = set<string>

  /** `observe`: an unseen state of the disk joins the outbox, with the version that the disk was based on. */
  function Observe(w: Writable, m: Mirror, k: Key, txid: string): Mirror {
    var hash, known := Local(m, k), Head(m, k);
    if IgnoredPath(k.path) || IsEcho(hash, known, HasPending(m, k)) || k.folder !in w then m
    else
      Enqueue(m, k, txid, EditBase(known), hash,
              Known(if known.Some? then known.value.version else None, if known.Some? then known.value.hash else None,
                    hash, EditBase(known)))
  }

  /** `replaceSource`: put content on disk, or remove the file. */
  function Replace(m: Mirror, k: Key, content: Option<Hash>): Mirror {
    m.(disk := if content.Some? then m.disk[k := content.value] else m.disk - {k})
  }

  function BackupBase(k: Key): string { ".folder-sync/rejected/" + k.folder + "/" + k.path }

  /** `keepReadOnlyEdit`: move an edit that cannot be uploaded to a free backup name. */
  function KeepReadOnlyEdit(m: Mirror, k: Key, content: Hash): Mirror {
    m.(backups := m.backups[FreePath(m.backups.Keys, BackupBase(k), 0) := content])
  }

  /** `keepFirstSyncEdit`: the local file joins the outbox as an edit of "no file", next to the server's value. */
  function KeepFirstSyncEdit(m: Mirror, k: Key, txid: string, local: Hash, value: FileValue): Mirror {
    Enqueue(m, k, txid, None, Some(local), Known(VersionOf(value), LiveHash(value), Some(local), None))
  }

  /** There is a local file that is neither the remote content nor something the mirror knows. */
  predicate UnknownEdit(m: Mirror, k: Key, value: FileValue) {
    Local(m, k).Some? && Local(m, k) != LiveHash(value) && !IsEcho(Local(m, k), Head(m, k), false)
  }

  /** The row before the file is replaced, and after. */
  function InstallingRow(m: Mirror, k: Key, value: FileValue): Known {
    var known := Head(m, k);
    Known(VersionOf(value), LiveHash(value), if known.Some? then known.value.localHash else None, EditBase(known))
  }

  function InstalledRow(value: FileValue): Known {
    Known(VersionOf(value), LiveHash(value), LiveHash(value), VersionOf(value))
  }

  /** The last part of `install`: save the row, replace the file, save the row again. */
  function PutOnDisk(m: Mirror, k: Key, value: FileValue): Mirror {
    Save(Replace(Save(m, k, InstallingRow(m, k, value)), k, LiveHash(value)), k, InstalledRow(value))
  }

  /** `install` */
  function Install(w: Writable, m: Mirror, k: Key, value: FileValue, txid: string): Mirror {
    var known := Head(m, k);
    if HasPending(m, k) then
      if known.None? then m else Save(m, k, known.value.(version := VersionOf(value), hash := LiveHash(value)))
    else if !UnknownEdit(m, k, value) then PutOnDisk(m, k, value)
    else if k.folder !in w then PutOnDisk(KeepReadOnlyEdit(m, k, m.disk[k]), k, value)
    else if known.None? then KeepFirstSyncEdit(m, k, txid, m.disk[k], value)
    else Save(Observe(w, m, k, txid), k,
              known.value.(version := VersionOf(value), hash := LiveHash(value), localHash := Local(m, k)))
  }

  // ---- Gate sections ------------------------------------------------------------------------------------

  /** One change of a pulled page: `observe`, then `install`. */
  function ApplyChange(w: Writable, m: Mirror, k: Key, value: FileValue, txid: string): Mirror {
    Install(w, Observe(w, m, k, txid), k, value, txid)
  }

  /** The end of a delivery: observe the path, settle the operation, install the server's head. */
  function FinishDelivery(w: Writable, m: Mirror, op: Op, version: Option<nat>, head: FileValue, txid: string): Mirror {
    Install(w, Settle(Observe(w, m, op.key, txid), op, version), op.key, head, txid)
  }

  /** A delete of a path that no remote version belongs to is dropped and the head installed. */
  function DropDelete(w: Writable, m: Mirror, op: Op, head: FileValue, txid: string): Mirror {
    Install(w, Discard(m, op.seqNo), op.key, head, txid)
  }

  /** The first part of `send`: a write is uploaded once. */
  function Sending(m: Mirror): Mirror
    requires m.outbox != []
  {
    if m.outbox[0].hash.Some? && !m.outbox[0].uploaded then Uploaded(m, m.outbox[0].seqNo) else m
  }

  /** The server's answer to a push. */
  datatype Answer = Accepted(version: Option<nat>) | BlobMissing | Failed(status: int, retryable: bool, reason: string)

  /** A push whose content the server has lost is uploaded and pushed once more. */
  function FinalAnswer(first: Answer, second: Answer): Answer { if first.BlobMissing? then second else first }

  /** Failures that end an operation; after any other it stays queued. */
  predicate Refuses(a: Answer) { a.Failed? && !a.retryable && a.status != 401 && a.status != 403 }

  /** `deliver`, when nothing else happens in between: the oldest operation is sent and its answer handled. */
  function Deliver(w: Writable, m: Mirror, answer: Answer, head: FileValue, txid: string): Mirror {
    if m.outbox == [] then m
    else
      var op := m.outbox[0];
      if op.hash.None? && op.base.None? then DropDelete(w, m, op, head, txid)
      else
        if answer.Accepted? then FinishDelivery(w, Sending(m), op, answer.version, head, txid)
        else if Refuses(answer) then Reject(Sending(m), op.seqNo, answer.status, answer.reason)
        else Sending(m)
  }

  /** A resumed mirror finishes an interrupted install. */
  function Recover(w: Writable, m: Mirror, k: Key, head: FileValue, txid: string): Mirror {
    if Head(m, k).None? || Head(m, k).value.localVersion == Head(m, k).value.version || HasPending(m, k) then m
    else Install(w, Observe(w, m, k, txid), k, head, txid)
  }

  /** In a folder without write access a scan installs the head over any unseen state. */
  function ScanReadOnly(w: Writable, m: Mirror, k: Key, head: FileValue, txid: string): Mirror {
    if IsEcho(Local(m, k), Head(m, k), false) then m else Install(w, m, k, head, txid)
  }

  /** A process that stopped inside the last part of `install`. */
  function InterruptedInstall(m: Mirror, k: Key, value: FileValue, replaced: bool): Mirror {
    var saved := Save(m, k, InstallingRow(m, k, value));
    if replaced then Replace(saved, k, LiveHash(value)) else saved
  }

  /** The same, after a read-only edit was moved to its backup. */
  function InterruptedReadOnly(w: Writable, m: Mirror, k: Key, value: FileValue, saved: bool, replaced: bool): Mirror {
    if k.folder in w || HasPending(m, k) || !UnknownEdit(m, k, value) then m
    else
      var kept := KeepReadOnlyEdit(m, k, m.disk[k]);
      if saved then InterruptedInstall(kept, k, value, replaced) else kept
  }
}
