/**
 * Pulling a folder into a mirror (examples/folder-sync/sync/pull.ts): pages are folded, only the
 * last change of a path is installed, and a reset or a lapsed cursor reconciles the whole folder.
 */
module Pull {
  import opened Common
  import opened JsMap
  import F = FolderMessages
  import opened MirrorModel

  /** The server's value of a path, as the mirror stores it. */
  function ValueOf(v: F.FileValue): FileValue {
    if v.File? then Live(v.version, v.hash) else Removed(v.version)
  }

  function ValueAt(state: map<string, F.FileValue>, path: string): FileValue {
    if path in state then ValueOf(state[path]) else Nothing
  }

  /** What `applyPage` installs for a change: the value that it carries, if any. */
  function ChangeValue(m: F.FileMessage): FileValue { if m.Upsert? then ValueOf(m.value) else Nothing }

  // ---- The last change of each path -----------------------------------------------------------------

  /** Paths and their changes, as `applyPage` collects them. */
  type Changes = Pairs<string, F.FileMessage>

  function TakeChange(last: Changes, m: F.FileMessage): Changes {
    if F.IsControl(m) || IgnoredPath(m.key) then last
    else Drop(last, m.key) + [(m.key, m)]
  }

  /** The last change of each path, in the order of those last changes. */
  function Last(rows: seq<F.FileMessage>): Changes { Fold([], TakeChange, rows) }

  lemma {:induction false} GetAppend(c: Changes, path: string, m: F.FileMessage, p: string)
    ensures Get(c + [(path, m)], p) == if Get(c, p).Some? then Get(c, p) else if p == path then Some(m) else None
  {
    if c != [] {
      assert (c + [(path, m)])[1..] == c[1..] + [(path, m)];
      GetAppend(c[1..], path, m, p);
    }
  }

  lemma {:induction false} GetDrop(c: Changes, path: string, p: string)
    ensures Get(Drop(c, path), p) == if p == path then None else Get(c, p)
  {
    if c != [] { GetDrop(c[1..], path, p); }
  }

  lemma {:induction false} LastUnique(rows: seq<F.FileMessage>)
    ensures Unique(Last(rows))
  {
    if rows != [] {
      LastUnique(rows[..|rows| - 1]);
      var last, m := Last(rows[..|rows| - 1]), rows[|rows| - 1];
      if !F.IsControl(m) && !IgnoredPath(m.key) {
        DropKeepsUnique(last, m.key);
        var kept := Drop(last, m.key);
        assert forall i :: 0 <= i < |kept| ==> kept[i].0 != m.key;
        assert Last(rows) == kept + [(m.key, m)];
      }
    }
  }

  /** Installing only the last change of a path means the same folder state as applying every change. */
  lemma {:induction false} LastChangeIsEnough(state: map<string, F.FileValue>, rows: seq<F.FileMessage>, p: string)
    requires !IgnoredPath(p) && forall i :: 0 <= i < |rows| ==> !rows[i].Reset?
    ensures ValueAt(F.LastChanges(state, rows), p)
         == if Get(Last(rows), p).Some? then ChangeValue(Get(Last(rows), p).value) else ValueAt(state, p)
  {
    if rows != [] {
      var front, m := rows[..|rows| - 1], rows[|rows| - 1];
      LastChangeIsEnough(state, front, p);
      if !F.IsControl(m) {
        GetDrop(Last(front), m.key, p);
        GetAppend(Drop(Last(front), m.key), m.key, m, p);
      }
    }
  }

  // ---- One change and its path --------------------------------------------------------------------------

  /** Nothing about other paths moves, and only operations of this path are queued. */
  ghost predicate OnlyAt(m: Mirror, m': Mirror, k: Key) {
    && (forall o :: o != k ==> Head(m', o) == Head(m, o) && Local(m', o) == Local(m, o))
    && m.outbox <= m'.outbox
    && (forall i :: |m.outbox| <= i < |m'.outbox| ==> m'.outbox[i].key == k)
  }

  lemma {:induction false} PendingElsewhere(m: Mirror, m': Mirror, k: Key, o: Key)
    requires OnlyAt(m, m', k)
    ensures HasPending(m, o) ==> HasPending(m', o)
    ensures o != k && HasPending(m', o) ==> HasPending(m, o)
  {
    if HasPending(m, o) {
      var i :| 0 <= i < |m.outbox| && m.outbox[i].key == o;
      assert m'.outbox[i].key == o;
    }
    if o != k && HasPending(m', o) {
      var i :| 0 <= i < |m'.outbox| && m'.outbox[i].key == o;
      assert m.outbox[i].key == o;
    }
  }

  lemma {:induction false} ObserveOnlyAt(w: Writable, m: Mirror, k: Key, txid: string)
    ensures OnlyAt(m, Observe(w, m, k, txid), k) && Observe(w, m, k, txid).disk == m.disk
  {
  }

  lemma {:induction false} InstallOnlyAt(w: Writable, m: Mirror, k: Key, value: FileValue, txid: string)
    ensures OnlyAt(m, Install(w, m, k, value, txid), k)
  {
    if !HasPending(m, k) && UnknownEdit(m, k, value) && k.folder in w && Head(m, k).Some? {
      ObserveOnlyAt(w, m, k, txid);
    } else {
      InstallDirectOnlyAt(w, m, k, value, txid);
    }
  }

  lemma {:induction false} InstallDirectOnlyAt(w: Writable, m: Mirror, k: Key, value: FileValue, txid: string)
    requires HasPending(m, k) || !UnknownEdit(m, k, value) || k.folder !in w || Head(m, k).None?
    ensures OnlyAt(m, Install(w, m, k, value, txid), k)
  {
    if !HasPending(m, k) {
      if !UnknownEdit(m, k, value) {
        PutOnDiskOnlyAt(m, k, value);
      } else if k.folder !in w {
        PutOnDiskOnlyAt(KeepReadOnlyEdit(m, k, m.disk[k]), k, value);
      }
    }
  }

  lemma {:induction false} PutOnDiskOnlyAt(m: Mirror, k: Key, value: FileValue)
    ensures OnlyAt(m, PutOnDisk(m, k, value), k)
  {
  }

  /** The row says that the value is installed, or an edit of the path waits. */
  predicate Covered(m: Mirror, k: Key, value: FileValue) {
    HasPending(m, k) || (k in m.known && m.known[k] == InstalledRow(value))
  }

  /** A path that is watched has its value or waits in the outbox; a watched edit is never passed over. */
  lemma {:induction false} InstallCovers(w: Writable, m: Mirror, k: Key, value: FileValue, txid: string)
    requires !IgnoredPath(k.path)
    ensures Covered(Install(w, m, k, value, txid), k, value)
    ensures !HasPending(Install(w, m, k, value, txid), k) ==> Local(Install(w, m, k, value, txid), k) == LiveHash(value)
  {
    var m' := Install(w, m, k, value, txid);
    if HasPending(m, k) {
      assert m'.outbox == m.outbox;
    } else if UnknownEdit(m, k, value) && k.folder in w {
      LateEditWaits(w, m, k, value, txid);
    }
  }

  lemma {:induction false} LateEditWaits(w: Writable, m: Mirror, k: Key, value: FileValue, txid: string)
    requires !IgnoredPath(k.path) && !HasPending(m, k) && UnknownEdit(m, k, value) && k.folder in w
    ensures HasPending(Install(w, m, k, value, txid), k)
  {
    var m' := Install(w, m, k, value, txid);
    assert m'.outbox[|m.outbox|].key == k;
  }

  lemma {:induction false} ApplyChangeCovers(w: Writable, m: Mirror, k: Key, value: FileValue, txid: string)
    requires !IgnoredPath(k.path)
    ensures var m' := ApplyChange(w, m, k, value, txid);
      Covered(m', k, value) && OnlyAt(m, m', k) && (!HasPending(m', k) ==> Local(m', k) == LiveHash(value))
  {
    ObserveOnlyAt(w, m, k, txid);
    InstallCovers(w, Observe(w, m, k, txid), k, value, txid);
    InstallOnlyAt(w, Observe(w, m, k, txid), k, value, txid);
  }

  // ---- A page --------------------------------------------------------------------------------------------

  /** Operation identifiers are drawn per path. */
  type Txids = string -> string

  function ApplyAll(w: Writable, m: Mirror, folder: string, changes: Changes, txids: Txids): Mirror {
    if changes == [] then m
    else
      var (path, change) := changes[|changes| - 1];
      ApplyChange(w, ApplyAll(w, m, folder, changes[..|changes| - 1], txids), Key(folder, path), ChangeValue(change), txids(path))
  }

  /** The mirror is up to date with a value of the path; a path without a value may be unknown. */
  predicate UpToDate(m: Mirror, k: Key, value: FileValue) {
    Covered(m, k, value) || (k !in m.known && value == Nothing)
  }

  /**
   * What it means to be up to date with a folder state at a path: an edit of the path waits, or its row has the
   * version and the content that the state has there. A path that was never written has neither.
   */
  lemma {:induction false} UpToDateShows(m: Mirror, folder: string, state: map<string, F.FileValue>, p: string)
    ensures var k := Key(folder, p);
      UpToDate(m, k, ValueAt(state, p)) <==>
        || (exists op :: op in m.outbox && op.key == k)
        || (k !in m.known && p !in state)
        || (k in m.known && var row := m.known[k];
             && row.version == row.localVersion == (if p in state then Some(state[p].version) else None)
             && row.hash == row.localHash == (if p in state && state[p].File? then Some(state[p].hash) else None))
  {
    var k := Key(folder, p);
    if HasPending(m, k) {
      var i :| 0 <= i < |m.outbox| && m.outbox[i].key == k;
      assert m.outbox[i] in m.outbox;
    }
  }

  /** The mirror is up to date with the folder state at every watched path. */
  ghost predicate Covers(m: Mirror, folder: string, state: map<string, F.FileValue>) {
    forall p :: !IgnoredPath(p) ==> UpToDate(m, Key(folder, p), ValueAt(state, p))
  }

  /** The folder state after the first `n` messages. */
  function StateAt(log: seq<F.FileMessage>, n: nat): map<string, F.FileValue>
    requires n <= |log|
  {
    F.LastChanges(map[], log[..n])
  }

  /** The mirror is up to date with the path as it was at the cursor or at some moment since. */
  ghost predicate UpToDateSince(m: Mirror, folder: string, p: string, log: seq<F.FileMessage>, cursor: nat) {
    exists n :: cursor <= n <= |log| && UpToDate(m, Key(folder, p), ValueAt(StateAt(log, n), p))
  }

  /** Some message says something about the path. */
  ghost predicate Mentions(rows: seq<F.FileMessage>, p: string) {
    exists i :: 0 <= i < |rows| && (rows[i].Reset? || (!F.IsControl(rows[i]) && rows[i].key == p))
  }

  /** Paths of the page are covered at their last change; the others are as they were. */
  lemma {:induction false} ApplyAllCovers(w: Writable, m: Mirror, folder: string, changes: Changes, txids: Txids, p: string)
    requires Unique(changes) && !IgnoredPath(p)
    requires forall i :: 0 <= i < |changes| ==> !IgnoredPath(changes[i].0)
    ensures var m', k := ApplyAll(w, m, folder, changes, txids), Key(folder, p);
      && (Get(changes, p).Some? ==> Covered(m', k, ChangeValue(Get(changes, p).value)))
      && (Get(changes, p).None? ==> Head(m', k) == Head(m, k) && HasPending(m', k) == HasPending(m, k))
  {
    if changes != [] {
      var front := changes[..|changes| - 1];
      var (path, change) := changes[|changes| - 1];
      assert changes == front + [(path, change)];
      var before, after := ApplyAll(w, m, folder, front, txids), ApplyAll(w, m, folder, changes, txids);
      assert Covered(after, Key(folder, path), ChangeValue(change)) && OnlyAt(before, after, Key(folder, path)) by {
        ApplyChangeCovers(w, before, Key(folder, path), ChangeValue(change), txids(path));
      }
      GetAppend(front, path, change, p);
      if p == path {
        AbsentBefore(front, path, change);
      } else {
        ApplyAllCovers(w, m, folder, front, txids, p);
        OthersStay(before, after, Key(folder, path), Key(folder, p));
      }
    }
  }

  /** A change at one path leaves another path's row and its place in the outbox. */
  lemma {:induction false} OthersStay(m: Mirror, m': Mirror, k: Key, o: Key)
    requires OnlyAt(m, m', k) && o != k
    ensures Head(m', o) == Head(m, o) && HasPending(m', o) == HasPending(m, o)
  {
    PendingElsewhere(m, m', k, o);
  }

  lemma {:induction false} AbsentBefore(front: Changes, path: string, change: F.FileMessage)
    requires Unique(front + [(path, change)])
    ensures Get(front, path).None?
  {
    var all := front + [(path, change)];
    assert forall i :: 0 <= i < |front| ==> all[i].0 != all[|front|].0;
    assert forall i :: 0 <= i < |front| ==> front[i].0 == all[i].0;
    GetIsLookup(front, path);
  }

  lemma {:induction false} LastIsWatched(rows: seq<F.FileMessage>)
    ensures forall i :: 0 <= i < |Last(rows)| ==> !IgnoredPath(Last(rows)[i].0)
  {
    if rows != [] {
      var last, m := Last(rows[..|rows| - 1]), rows[|rows| - 1];
      LastIsWatched(rows[..|rows| - 1]);
      LastUnique(rows[..|rows| - 1]);
      if !F.IsControl(m) && !IgnoredPath(m.key) {
        DropKeepsUnique(last, m.key);
        var kept := Drop(last, m.key);
        assert Last(rows) == kept + [(m.key, m)];
        forall i | 0 <= i < |kept| ensures !IgnoredPath(kept[i].0) {
          var j :| 0 <= j < |last| && last[j] == kept[i];
        }
      }
    }
  }

  /** A path is among the last changes exactly when a change of it is among the rows. */
  lemma {:induction false} LastMentions(rows: seq<F.FileMessage>, p: string)
    requires !IgnoredPath(p) && forall i :: 0 <= i < |rows| ==> !rows[i].Reset?
    ensures Get(Last(rows), p).Some? <==> Mentions(rows, p)
  {
    if rows != [] {
      var front, m := rows[..|rows| - 1], rows[|rows| - 1];
      LastMentions(front, p);
      assert Mentions(rows, p) <==> Mentions(front, p) || (!F.IsControl(m) && m.key == p) by {
        if Mentions(front, p) {
          var i :| 0 <= i < |front| && !F.IsControl(front[i]) && front[i].key == p;
          assert rows[i].key == p;
        }
        if !F.IsControl(m) && m.key == p { assert rows[|front|].key == p; }
        if Mentions(rows, p) {
          var i :| 0 <= i < |rows| && !F.IsControl(rows[i]) && rows[i].key == p;
          if i < |front| { assert front[i].key == p; }
        }
      }
      if !F.IsControl(m) && !IgnoredPath(m.key) {
        GetDrop(Last(front), m.key, p);
        GetAppend(Drop(Last(front), m.key), m.key, m, p);
      }
    }
  }

  /** What is not mentioned does not change. */
  lemma {:induction false} UnmentionedStays(state: map<string, F.FileValue>, rows: seq<F.FileMessage>, p: string)
    requires !Mentions(rows, p)
    ensures ValueAt(F.LastChanges(state, rows), p) == ValueAt(state, p)
  {
    if rows != [] {
      var front, m := rows[..|rows| - 1], rows[|rows| - 1];
      assert forall i :: 0 <= i < |front| ==> front[i] == rows[i];
      UnmentionedStays(state, front, p);
      assert !(m.Reset? || (!F.IsControl(m) && m.key == p));
    }
  }

  lemma {:induction false} StateSplit(log: seq<F.FileMessage>, n: nat, next: nat)
    requires n <= next <= |log|
    ensures StateAt(log, next) == F.LastChanges(StateAt(log, n), log[n..next])
  {
    assert log[..next] == log[..n] + log[n..next];
    FoldConcat(map[], F.ApplyChange, log[..n], log[n..next]);
  }

  /**
   * A page without a reset brings a path up to date with the state after the page, when it mentions
   * the path or when the mirror was up to date with the path since the page began.
   */
  lemma {:induction false} PageCovers(
      w: Writable, m: Mirror, folder: string, log: seq<F.FileMessage>, at: nat, next: nat, txids: Txids, p: string)
    requires at <= next <= |log| && !IgnoredPath(p)
    requires forall i :: at <= i < next ==> !log[i].Reset?
    requires UpToDateSince(m, folder, p, log, at) || Mentions(log[at..next], p)
    ensures UpToDateSince(ApplyAll(w, m, folder, Last(log[at..next]), txids), folder, p, log, next)
  {
    var rows := log[at..next];
    var m' := ApplyAll(w, m, folder, Last(rows), txids);
    LastUnique(rows);
    LastIsWatched(rows);
    LastMentions(rows, p);
    ApplyAllCovers(w, m, folder, Last(rows), txids, p);
    if Mentions(rows, p) {
      StateSplit(log, at, next);
      LastChangeIsEnough(StateAt(log, at), rows, p);
      assert UpToDate(m', Key(folder, p), ValueAt(StateAt(log, next), p));
    } else {
      var n :| at <= n <= |log| && UpToDate(m, Key(folder, p), ValueAt(StateAt(log, n), p));
      assert UpToDate(m', Key(folder, p), ValueAt(StateAt(log, n), p)) by {
        assert Head(m', Key(folder, p)) == Head(m, Key(folder, p));
      }
      if n < next {
        StateSplit(log, n, next);
        assert !Mentions(log[n..next], p) by { FewerMentions(log, at, n, next, p); }
        UnmentionedStays(StateAt(log, n), log[n..next], p);
        assert UpToDate(m', Key(folder, p), ValueAt(StateAt(log, next), p));
      }
    }
  }

  lemma {:induction false} FewerMentions(log: seq<F.FileMessage>, at: nat, n: nat, next: nat, p: string)
    requires at <= n <= next <= |log| && !Mentions(log[at..next], p)
    ensures !Mentions(log[n..next], p)
  {
    var few, rows := log[n..next], log[at..next];
    forall i | 0 <= i < |few| ensures !(few[i].Reset? || (!F.IsControl(few[i]) && few[i].key == p)) {
      assert few[i] == rows[i + n - at];
    }
  }

  /** A mention up to a later cursor is one up to the earlier cursor or one behind it. */
  lemma {:induction false} MentionsSplit(log: seq<F.FileMessage>, from: nat, at: nat, next: nat, p: string)
    requires from <= at <= next <= |log| && Mentions(log[from..next], p)
    ensures Mentions(log[from..at], p) || Mentions(log[at..next], p)
  {
    var rows := log[from..next];
    var i :| 0 <= i < |rows| && (rows[i].Reset? || (!F.IsControl(rows[i]) && rows[i].key == p));
    if from + i < at { assert log[from..at][i] == rows[i]; } else { assert log[at..next][i - (at - from)] == rows[i]; }
  }

  /** A delivery that reads the head at the tail leaves its path up to date since any earlier cursor. */
  lemma {:induction false} DeliveryKeepsUpToDate(
      w: Writable, m: Mirror, op: Op, version: Option<nat>, folder: string, log: seq<F.FileMessage>, cursor: nat, txid: string)
    requires cursor <= |log| && op.key.folder == folder && !IgnoredPath(op.key.path)
    ensures UpToDateSince(FinishDelivery(w, m, op, version, ValueAt(StateAt(log, |log|), op.key.path), txid),
                          folder, op.key.path, log, cursor)
  {
    var value := ValueAt(StateAt(log, |log|), op.key.path);
    InstallCovers(w, Settle(Observe(w, m, op.key, txid), op, version), op.key, value, txid);
    assert UpToDate(FinishDelivery(w, m, op, version, value, txid), Key(folder, op.key.path), value);
  }

  // ---- A replacement -----------------------------------------------------------------------------------------

  function InstallAll(
      w: Writable, m: Mirror, folder: string, state: map<string, F.FileValue>, paths: seq<string>, txids: Txids): Mirror
  {
    if paths == [] then m
    else
      var p := paths[|paths| - 1];
      Install(w, InstallAll(w, m, folder, state, paths[..|paths| - 1], txids), Key(folder, p), ValueAt(state, p), txids(p))
  }

  lemma {:induction false} InstallAllCovers(
      w: Writable, m: Mirror, folder: string, state: map<string, F.FileValue>, paths: seq<string>, txids: Txids, p: string)
    requires !IgnoredPath(p)
    ensures var m', k := InstallAll(w, m, folder, state, paths, txids), Key(folder, p);
      && (p in paths ==> Covered(m', k, ValueAt(state, p)))
      && (p in paths && !HasPending(m', k) ==> Local(m', k) == LiveHash(ValueAt(state, p)))
      && (p !in paths ==> Head(m', k) == Head(m, k) && HasPending(m', k) == HasPending(m, k))
  {
    if paths != [] {
      var front, q := paths[..|paths| - 1], paths[|paths| - 1];
      var before := InstallAll(w, m, folder, state, front, txids);
      InstallAllCovers(w, m, folder, state, front, txids, p);
      InstallOnlyAt(w, before, Key(folder, q), ValueAt(state, q), txids(q));
      PendingElsewhere(before, InstallAll(w, m, folder, state, paths, txids), Key(folder, q), Key(folder, p));
      assert p in paths <==> p in front || p == q;
      if p == q { InstallCovers(w, before, Key(folder, q), ValueAt(state, q), txids(q)); }
    }
  }

  /** The paths a replacement reconciles: those of the new state and those the mirror knows. */
  ghost predicate Replaces(m: Mirror, folder: string, state: map<string, F.FileValue>, paths: seq<string>) {
    forall p :: p in paths <==> p in state || Key(folder, p) in m.known
  }

  /**
   * Reconciling needs nothing to hold before: afterwards every watched path that is not queued
   * shows the folder's state on disk, and a known path that the state lacks is gone from it.
   */
  lemma {:induction false} ReplacementCovers(
      w: Writable, m: Mirror, folder: string, state: map<string, F.FileValue>, paths: seq<string>, txids: Txids)
    requires Replaces(m, folder, state, paths)
    ensures var m' := InstallAll(w, m, folder, state, paths, txids);
      && Covers(m', folder, state)
      && forall p :: p in paths && !IgnoredPath(p) && !HasPending(m', Key(folder, p)) ==>
           Local(m', Key(folder, p)) == LiveHash(ValueAt(state, p))
  {
    var m' := InstallAll(w, m, folder, state, paths, txids);
    forall p | !IgnoredPath(p) ensures UpToDate(m', Key(folder, p), ValueAt(state, p)) {
      InstallAllCovers(w, m, folder, state, paths, txids, p);
      assert Head(m', Key(folder, p)).None? <==> Key(folder, p) !in m'.known;
    }
    forall p | p in paths && !IgnoredPath(p) && !HasPending(m', Key(folder, p))
      ensures Local(m', Key(folder, p)) == LiveHash(ValueAt(state, p))
    {
      InstallAllCovers(w, m, folder, state, paths, txids, p);
    }
  }

  // ---- A first sync ------------------------------------------------------------------------------------------

  /** One path of a first sync: observed when neither side knows it, installed otherwise. */
  function FirstStep(w: Writable, m: Mirror, k: Key, state: map<string, F.FileValue>, txid: string): Mirror {
    if IgnoredPath(k.path) then m
    else if k.path !in state && Head(m, k).None? then Observe(w, m, k, txid)
    else Install(w, m, k, ValueAt(state, k.path), txid)
  }

  function FirstSync(
      w: Writable, m: Mirror, folder: string, state: map<string, F.FileValue>, paths: seq<string>, txids: Txids): Mirror
  {
    if paths == [] then m
    else
      var p := paths[|paths| - 1];
      FirstStep(w, FirstSync(w, m, folder, state, paths[..|paths| - 1], txids), Key(folder, p), state, txids(p))
  }

  /** The local file of an unknown path is still there, and it is the server's file or waits as a create. */
  predicate LocalFileStands(m: Mirror, m': Mirror, k: Key, value: FileValue) {
    && Local(m', k) == Local(m, k)
    && (Local(m, k) == LiveHash(value)
        || exists i :: |m.outbox| <= i < |m'.outbox| && m'.outbox[i].key == k
             && m'.outbox[i].base == None && m'.outbox[i].hash == Local(m, k))
  }

  lemma {:induction false} FirstStepKeepsFile(
      w: Writable, m: Mirror, k: Key, state: map<string, F.FileValue>, txid: string)
    requires !IgnoredPath(k.path) && k.folder in w && Head(m, k).None? && !HasPending(m, k) && Local(m, k).Some?
    ensures LocalFileStands(m, FirstStep(w, m, k, state, txid), k, ValueAt(state, k.path))
  {
    var m' := FirstStep(w, m, k, state, txid);
    if Local(m, k) != LiveHash(ValueAt(state, k.path)) {
      var op := m'.outbox[|m.outbox|];
      assert op.key == k && op.base == None && op.hash == Local(m, k);
    }
  }

  lemma {:induction false} FirstStepOnlyAt(w: Writable, m: Mirror, k: Key, state: map<string, F.FileValue>, txid: string)
    ensures OnlyAt(m, FirstStep(w, m, k, state, txid), k)
  {
    ObserveOnlyAt(w, m, k, txid);
    InstallOnlyAt(w, m, k, ValueAt(state, k.path), txid);
  }

  lemma {:induction false} StandsAcross(a: Mirror, b: Mirror, c: Mirror, k: Key, o: Key, value: FileValue)
    requires LocalFileStands(a, b, k, value) && OnlyAt(b, c, o) && o != k
    ensures LocalFileStands(a, c, k, value)
  {
    if Local(a, k) != LiveHash(value) {
      var i :| |a.outbox| <= i < |b.outbox| && b.outbox[i].key == k && b.outbox[i].base == None && b.outbox[i].hash == Local(a, k);
      assert c.outbox[i] == b.outbox[i];
    }
  }

  /**
   * A first sync of a writable folder overwrites no local file: each one is the server's file already,
   * or it stays on disk and is queued as a write whose parent is "no file".
   */
  lemma {:induction false} FirstSyncKeepsLocalFiles(
      w: Writable, m: Mirror, folder: string, state: map<string, F.FileValue>, paths: seq<string>, txids: Txids, p: string)
    requires !IgnoredPath(p) && folder in w
    requires forall i, j :: 0 <= i < j < |paths| ==> paths[i] != paths[j]
    requires Head(m, Key(folder, p)).None? && !HasPending(m, Key(folder, p)) && Local(m, Key(folder, p)).Some?
    ensures var m', k := FirstSync(w, m, folder, state, paths, txids), Key(folder, p);
      && m.outbox <= m'.outbox
      && (p in paths ==> LocalFileStands(m, m', k, ValueAt(state, p)))
      && (p !in paths ==> Head(m', k).None? && Local(m', k) == Local(m, k) && !HasPending(m', k))
  {
    if paths != [] {
      var front, q := paths[..|paths| - 1], paths[|paths| - 1];
      var k, before := Key(folder, p), FirstSync(w, m, folder, state, front, txids);
      var after := FirstSync(w, m, folder, state, paths, txids);
      FirstSyncKeepsLocalFiles(w, m, folder, state, front, txids, p);
      FirstStepOnlyAt(w, before, Key(folder, q), state, txids(q));
      PendingElsewhere(before, after, Key(folder, q), k);
      assert p in paths <==> p in front || p == q;
      if p == q {
        assert forall i :: 0 <= i < |front| ==> front[i] == paths[i] && paths[i] != paths[|paths| - 1];
        FirstStepKeepsFile(w, before, k, state, txids(q));
        if Local(m, k) != LiveHash(ValueAt(state, p)) {
          var i :| |before.outbox| <= i < |after.outbox| && after.outbox[i].key == k && after.outbox[i].base == None
                   && after.outbox[i].hash == Local(before, k);
          assert |m.outbox| <= i;
        }
      } else if p in front {
        StandsAcross(m, before, after, k, Key(folder, q), ValueAt(state, p));
      }
    }
  }

  predicate Untouched(m: Mirror, m': Mirror, k: Key) {
    Local(m', k) == Local(m, k) && Head(m', k) == Head(m, k) && HasPending(m', k) == HasPending(m, k)
  }

  /** A scratch file, and a file of a folder without write access that the server does not know, is left alone. */
  lemma {:induction false} FirstSyncLeaves(
      w: Writable, m: Mirror, folder: string, state: map<string, F.FileValue>, paths: seq<string>, txids: Txids, p: string)
    requires IgnoredPath(p) || (folder !in w && p !in state && Head(m, Key(folder, p)).None?)
    ensures Untouched(m, FirstSync(w, m, folder, state, paths, txids), Key(folder, p))
  {
    if paths != [] {
      var front, q := paths[..|paths| - 1], paths[|paths| - 1];
      var before := FirstSync(w, m, folder, state, front, txids);
      FirstSyncLeaves(w, m, folder, state, front, txids, p);
      if q != p {
        FirstStepOnlyAt(w, before, Key(folder, q), state, txids(q));
        PendingElsewhere(before, FirstSync(w, m, folder, state, paths, txids), Key(folder, q), Key(folder, p));
      }
    }
  }

  /** Without write access every path that the server knows shows the server's file. */
  lemma {:induction false} FirstSyncReplaces(
      w: Writable, m: Mirror, folder: string, state: map<string, F.FileValue>, paths: seq<string>, txids: Txids, p: string)
    requires !IgnoredPath(p) && folder !in w && p in state && !HasPending(m, Key(folder, p))
    ensures var m', k := FirstSync(w, m, folder, state, paths, txids), Key(folder, p);
      !HasPending(m', k) && (p in paths ==> Local(m', k) == LiveHash(ValueAt(state, p)))
  {
    if paths != [] {
      var front, q := paths[..|paths| - 1], paths[|paths| - 1];
      var before, after := FirstSync(w, m, folder, state, front, txids), FirstSync(w, m, folder, state, paths, txids);
      FirstSyncReplaces(w, m, folder, state, front, txids, p);
      assert p in paths <==> p in front || p == q;
      if q != p {
        FirstStepOnlyAt(w, before, Key(folder, q), state, txids(q));
        PendingElsewhere(before, after, Key(folder, q), Key(folder, p));
      }
    }
  }

  /** After a first sync over all server, known and local paths the mirror is up to date. */
  lemma {:induction false} FirstSyncAt(
      w: Writable, m: Mirror, folder: string, state: map<string, F.FileValue>, paths: seq<string>, txids: Txids, p: string)
    requires !IgnoredPath(p)
    ensures var m', k := FirstSync(w, m, folder, state, paths, txids), Key(folder, p);
      && (p in paths ==> UpToDate(m', k, ValueAt(state, p)))
      && (p !in paths ==> Head(m', k) == Head(m, k) && HasPending(m', k) == HasPending(m, k))
  {
    if paths != [] {
      var front, q := paths[..|paths| - 1], paths[|paths| - 1];
      var before := FirstSync(w, m, folder, state, front, txids);
      var after := FirstSync(w, m, folder, state, paths, txids);
      FirstSyncAt(w, m, folder, state, front, txids, p);
      FirstStepOnlyAt(w, before, Key(folder, q), state, txids(q));
      PendingElsewhere(before, after, Key(folder, q), Key(folder, p));
      assert p in paths <==> p in front || p == q;
      assert Head(after, Key(folder, p)).None? <==> Key(folder, p) !in after.known;
      if p == q { FirstStepUpToDate(w, before, Key(folder, p), state, txids(q)); }
    }
  }

  lemma {:induction false} FirstStepUpToDate(w: Writable, m: Mirror, k: Key, state: map<string, F.FileValue>, txid: string)
    requires !IgnoredPath(k.path)
    ensures UpToDate(FirstStep(w, m, k, state, txid), k, ValueAt(state, k.path))
  {
    if k.path !in state && Head(m, k).None? {
      var m' := Observe(w, m, k, txid);
      if m' != m { assert m'.outbox[|m.outbox|].key == k; }
    } else {
      InstallCovers(w, m, k, ValueAt(state, k.path), txid);
    }
  }

  lemma {:induction false} FirstSyncCovers(
      w: Writable, m: Mirror, folder: string, state: map<string, F.FileValue>, paths: seq<string>, txids: Txids)
    requires forall p :: p in state || Key(folder, p) in m.known ==> p in paths
    ensures Covers(FirstSync(w, m, folder, state, paths, txids), folder, state)
  {
    var m' := FirstSync(w, m, folder, state, paths, txids);
    forall p | !IgnoredPath(p) ensures UpToDate(m', Key(folder, p), ValueAt(state, p)) {
      FirstSyncAt(w, m, folder, state, paths, txids, p);
      assert Head(m', Key(folder, p)).None? <==> Key(folder, p) !in m'.known;
    }
  }
}
