/** The loops of a pull over a paged folder stream, and the mirror object they update. */
module PullState {
  import opened Common
  import opened JsMap
  import F = FolderMessages
  import opened MirrorModel
  import opened MirrorState
  import opened Pull

  /** `Start` is the offset `-1`. Any other cursor counts the entries before it. */
  datatype Cursor = Start | At(offset: nat)

  function Position(c: Cursor): nat { if c.Start? then 0 else c.offset }

  datatype Page = Page(rows: seq<F.FileMessage>, cursor: Cursor, upToDate: bool, reset: bool)

  datatype Failure = HistoryUnavailable | NoProgress

  /** A 410 answer, or a contiguous page. A `steady` stream stands still only at its tail. */
  ghost predicate PageOf(log: seq<F.FileMessage>, from: Cursor, page: Page, steady: bool) {
    if page.reset then page == Page([], Start, false, true)
    else
      && page.cursor.At? && Position(from) <= page.cursor.offset <= |log|
      && page.rows == log[Position(from)..page.cursor.offset]
      && (page.upToDate ==> page.cursor.offset == |log|)
      && (steady && page.cursor.offset == Position(from) ==> page.upToDate)
  }

  /**
   * A folder stream behind its route. Between two reads other writers may append, `coming` more entries
   * in all, and a read may be answered 410, `lapses` more times in all.
   */
  class Remote {
    var log: seq<F.FileMessage>
    var coming: nat
    var lapses: nat
    const steady: bool

    constructor (entries: seq<F.FileMessage>, appends: nat, gone: nat, keepsContract: bool)
      ensures log == entries && coming == appends && lapses == gone && steady == keepsContract
    {
      log, coming, lapses, steady := entries, appends, gone, keepsContract;
    }

    /** How many entries the stream will have at the end. */
    function Total(): nat
      reads this
    {
      |log| + coming
    }

    method PageAt(from: Cursor) returns (page: Page)
      requires Position(from) <= |log|
      modifies this
      ensures old(log) <= log && Total() == old(Total())
      ensures PageOf(log, from, page, steady)
      ensures lapses == if page.reset then old(lapses) - 1 else old(lapses)
    {
      var more: seq<F.FileMessage> := *;
      if |more| <= coming { log, coming := log + more, coming - |more|; }
      var gone, tail: bool := *, *;
      if gone && lapses > 0 {
        lapses := lapses - 1;
        return Page([], Start, false, true);
      }
      var at := Position(from);
      var next: nat :| at <= next <= |log|;
      if steady && next == at { next := |log|; }
      page := Page(log[at..next], At(next), next == |log| && (tail || steady), false);
    }
  }

  // ---- readReplacement ---------------------------------------------------------------------------------

  ghost predicate HasReset(rows: seq<F.FileMessage>) { exists i :: 0 <= i < |rows| && rows[i].Reset? }

  /** The first page already shows that the fold will be the whole folder. */
  ghost predicate Whole(from: Cursor, first: Option<Page>) {
    from.Start? || (first.Some? && (first.value.reset || HasReset(first.value.rows)))
  }

  /** The page at hand may be a lapse already. */
  function Lapsed(first: Option<Page>): nat { if first.Some? && first.value.reset then 1 else 0 }

  /** Reading from behind a reset is reading from the start. */
  lemma {:induction false} ResetMakesWhole(log: seq<F.FileMessage>, b: nat)
    requires b <= |log| && HasReset(log[b..])
    ensures F.LastChanges(map[], log[b..]) == F.LastChanges(map[], log)
  {
    var tail := log[b..];
    assert F.AfterReset(tail) > 0;
    F.SuffixMeansTheSame(map[], tail);
    F.SuffixMeansTheSame(F.LastChanges(map[], log[..b]), tail);
    FoldConcat(map[], F.ApplyChange, log[..b], tail);
    assert log == log[..b] + tail;
  }

  lemma {:induction false} ResetStays(log: seq<F.FileMessage>, b: nat, c: nat, d: nat)
    requires b <= c <= d <= |log|
    ensures HasReset(log[b..c]) ==> HasReset(log[b..d])
    ensures HasReset(log[c..d]) ==> HasReset(log[b..d])
    ensures F.LastChanges(F.LastChanges(map[], log[b..c]), log[c..d]) == F.LastChanges(map[], log[b..d])
  {
    assert log[b..d] == log[b..c] + log[c..d];
    FoldConcat(map[], F.ApplyChange, log[b..c], log[c..d]);
    var whole := log[b..d];
    if HasReset(log[b..c]) {
      var i :| 0 <= i < c - b && log[b..c][i].Reset?;
      assert whole[i].Reset?;
    }
    if HasReset(log[c..d]) {
      var i :| 0 <= i < d - c && log[c..d][i].Reset?;
      assert whole[i + (c - b)].Reset?;
    }
  }

  /** The files are the fold of the log from `start` to `at`; `whole` says that nothing before matters. */
  ghost predicate FoldedFrom(log: seq<F.FileMessage>, start: nat, at: nat, files: map<string, F.FileValue>, whole: bool) {
    && start <= at <= |log|
    && files == F.LastChanges(map[], log[start..at])
    && (whole ==> start == 0 || HasReset(log[start..at]))
  }

  lemma {:induction false} FoldedLater(
      log: seq<F.FileMessage>, later: seq<F.FileMessage>, start: nat, at: nat, files: map<string, F.FileValue>, whole: bool)
    requires FoldedFrom(log, start, at, files, whole) && log <= later
    ensures FoldedFrom(later, start, at, files, whole)
  {
    assert later[start..at] == log[start..at];
  }

  lemma {:induction false} FoldedPage(
      log: seq<F.FileMessage>, start: nat, at: nat, next: nat, files: map<string, F.FileValue>, whole: bool)
    requires FoldedFrom(log, start, at, files, whole) && at <= next <= |log|
    ensures FoldedFrom(log, start, next, F.LastChanges(files, log[at..next]), whole || HasReset(log[at..next]))
  {
    ResetStays(log, start, at, next);
  }

  lemma {:induction false} FoldedToTail(log: seq<F.FileMessage>, start: nat, files: map<string, F.FileValue>)
    requires FoldedFrom(log, start, |log|, files, true)
    ensures files == F.LastChanges(map[], log)
  {
    assert log[start..|log|] == log[start..] && log[0..] == log;
    if HasReset(log[start..]) { ResetMakesWhole(log, start); }
  }

  /**
   * `readReplacement` reads to the tail. When it starts at a reset, at a lapse or at the start, what
   * it folds is the folder's state at the tail, wherever pages were cut and however often the
   * cursor lapsed. It gives up only when the start itself lapses.
   */
  method ReadReplacement(remote: Remote, from: Cursor, first: Option<Page>)
    returns (r: Result<(map<string, F.FileValue>, Cursor), Failure>)
    requires Position(from) <= |remote.log|
    requires first.Some? ==> PageOf(remote.log, from, first.value, remote.steady)
    modifies remote
    ensures old(remote.log) <= remote.log && remote.Total() == old(remote.Total()) && remote.lapses <= old(remote.lapses)
    ensures r.Ok? ==> r.value.1 == At(|remote.log|)
    ensures r.Ok? && Whole(from, first) ==> r.value.0 == F.LastChanges(map[], remote.log)
    ensures r.Err? && r.error.HistoryUnavailable? ==>
      old(remote.lapses) + Lapsed(first) >= remote.lapses + (if from.Start? then 1 else 2)
    ensures r.Err? && r.error.NoProgress? ==> !remote.steady
  {
    var files: map<string, F.FileValue> := map[];
    var cursor, pending := from, first;
    ghost var start: nat := Position(from);
    ghost var lapsed := false;
    while true
      invariant old(remote.log) <= remote.log && remote.Total() == old(remote.Total())
      invariant FoldedFrom(remote.log, start, Position(cursor), files, Whole(from, first) && pending.None?)
      invariant pending.Some? ==> pending == first && cursor == from && remote.log == old(remote.log)
      invariant cursor.Start? ==> from.Start? || lapsed
      invariant remote.lapses + (if lapsed then 1 else 0) <= old(remote.lapses) + (if pending.Some? then 0 else Lapsed(first))
      invariant remote.lapses <= old(remote.lapses)
      invariant from.Start? || lapsed ==> start == 0
      decreases if pending.Some? then 1 else 0, remote.lapses, remote.Total() - Position(cursor), if cursor.Start? then 1 else 0
    {
      ghost var before := remote.log;
      var page: Page;
      if pending.Some? { page := pending.value; } else { page := remote.PageAt(cursor); }
      FoldedLater(before, remote.log, start, Position(cursor), files, Whole(from, first) && pending.None?);
      if page.reset {
        if cursor.Start? { return Err(HistoryUnavailable); }
        files, cursor, pending := map[], Start, None;
        start, lapsed := 0, true;
        continue;
      }
      FoldedPage(remote.log, start, Position(cursor), page.cursor.offset, files, Whole(from, first) && pending.None?);
      pending := None;
      files := F.ApplyChanges(files, page.rows);
      if page.cursor == cursor && !page.upToDate { return Err(NoProgress); }
      cursor := page.cursor;
      if page.upToDate { break; }
    }
    if Whole(from, first) { FoldedToTail(remote.log, start, files); }
    r := Ok((files, cursor));
  }

  // ---- The gate sections of a pull ------------------------------------------------------------------------

  /** `applyPage`: the `last` map is filled first, then its changes are installed in its order. */
  method ApplyPage(mirror: SyncMirror, folder: string, rows: seq<F.FileMessage>, txids: Txids)
    modifies mirror
    ensures mirror.State() == ApplyAll(mirror.writable, old(mirror.State()), folder, Last(rows), txids)
  {
    var last: Changes := [];
    for i := 0 to |rows|
      invariant last == Last(rows[..i])
      invariant mirror.State() == old(mirror.State())
    {
      assert rows[..i + 1][..i] == rows[..i];
      if F.IsControl(rows[i]) || IgnoredPath(rows[i].key) { continue; }
      last := Drop(last, rows[i].key);
      last := last + [(rows[i].key, rows[i])];
    }
    assert rows[..|rows|] == rows;
    for i := 0 to |last|
      invariant mirror.State() == ApplyAll(mirror.writable, old(mirror.State()), folder, last[..i], txids)
    {
      var (path, change) := last[i];
      assert last[..i + 1][..i] == last[..i];
      mirror.Observe(Key(folder, path), txids(path));
      mirror.Install(Key(folder, path), ChangeValue(change), txids(path));
    }
    assert last[..|last|] == last;
  }

  /** The listed paths without repetition. */
  method Distinct(paths: set<string>) returns (list: seq<string>)
    ensures forall p :: p in list <==> p in paths
    ensures forall i, j :: 0 <= i < j < |list| ==> list[i] != list[j]
  {
    list := [];
    var todo := paths;
    while todo != {}
      invariant todo <= paths
      invariant forall p :: p in list <==> p in paths && p !in todo
      invariant forall i, j :: 0 <= i < j < |list| ==> list[i] != list[j]
      decreases todo
    {
      var p :| p in todo;
      assert forall i :: 0 <= i < |list| ==> list[i] in list;
      list, todo := list + [p], todo - {p};
    }
  }

  function KnownPaths(known: map<Key, Known>, folder: string): set<string> {
    set k | k in known && k.folder == folder :: k.path
  }

  /** The reconciling gate section of `pullFolder`. */
  method Reconcile(mirror: SyncMirror, folder: string, files: map<string, F.FileValue>, txids: Txids)
    modifies mirror
    ensures Covers(mirror.State(), folder, files)
    ensures forall p ::
      (p in files || Key(folder, p) in old(mirror.known)) && !IgnoredPath(p)
      && !MirrorModel.HasPending(mirror.State(), Key(folder, p)) ==>
        Local(mirror.State(), Key(folder, p)) == LiveHash(ValueAt(files, p))
  {
    var paths := Distinct(files.Keys + KnownPaths(mirror.known, folder));
    forall p ensures p in paths <==> p in files || Key(folder, p) in mirror.known {
      if Key(folder, p) in mirror.known { assert Key(folder, p).path in KnownPaths(mirror.known, folder); }
    }
    for i := 0 to |paths|
      invariant mirror.State() == InstallAll(mirror.writable, old(mirror.State()), folder, files, paths[..i], txids)
    {
      var p := paths[i];
      assert paths[..i + 1][..i] == paths[..i];
      mirror.Install(Key(folder, p), ValueAt(files, p), txids(p));
    }
    assert paths[..|paths|] == paths;
    ReplacementCovers(mirror.writable, old(mirror.State()), folder, files, paths, txids);
  }

  /** A page that lapsed or holds a reset: finish the replacement, then reconcile under the gate. */
  method ReplaceFolder(remote: Remote, mirror: SyncMirror, folder: string, from: Cursor, page: Page, txids: Txids)
    returns (r: Result<Cursor, Failure>)
    requires remote.steady && Position(from) <= |remote.log| && PageOf(remote.log, from, page, remote.steady)
    requires page.reset || HasReset(page.rows)
    modifies remote, mirror
    ensures old(remote.log) <= remote.log && remote.lapses <= old(remote.lapses)
    ensures r.Ok? ==> r.value == At(|remote.log|) && Covers(mirror.State(), folder, F.LastChanges(map[], remote.log))
    ensures r.Err? ==> old(remote.lapses) + Lapsed(Some(page)) >= remote.lapses + (if from.Start? then 1 else 2)
  {
    var result := ReadReplacement(remote, from, Some(page));
    if result.Err? { return Err(result.error); }
    var (files, replay) := result.value;
    Reconcile(mirror, folder, files, txids);
    r := Ok(replay);
  }

  /** `Array.some(page.rows, isReset)` */
  method AnyReset(rows: seq<F.FileMessage>) returns (stored: bool)
    ensures stored <==> HasReset(rows)
  {
    stored := false;
    for i := 0 to |rows|
      invariant stored <==> exists j :: 0 <= j < i && rows[j].Reset?
    {
      if rows[i].Reset? { stored := true; }
    }
  }

  /**
   * From the mirror `start` and the log `known` to the mirror `m` and the log `log`: each watched path that
   * changed since the cursor, or that was up to date since the cursor, is up to date with the tail.
   */
  ghost predicate CaughtUp(
      start: Mirror, m: Mirror, folder: string, known: seq<F.FileMessage>, log: seq<F.FileMessage>, from: nat)
    requires from <= |log|
  {
    forall p ::
      !IgnoredPath(p) && (UpToDateSince(start, folder, p, known, from) || Mentions(log[from..], p)) ==>
        UpToDate(m, Key(folder, p), ValueAt(F.LastChanges(map[], log), p))
  }

  lemma {:induction false} CoveredIsCaughtUp(
      start: Mirror, m: Mirror, folder: string, known: seq<F.FileMessage>, log: seq<F.FileMessage>, from: nat)
    requires from <= |log| && Covers(m, folder, F.LastChanges(map[], log))
    ensures CaughtUp(start, m, folder, known, log, from)
  {
  }

  /**
   * `pullFolder` with `once`: at the end of the pull the mirror is up to date with the tail at every path
   * that changed since the cursor or that it was up to date with since the cursor, through any page
   * cuts, stored resets, lapses and appends. Rejections, deliveries and edits may come in between pulls.
   */
  method PullFolder(remote: Remote, mirror: SyncMirror, folder: string, saved: Cursor, ids: (nat, string) -> string)
    returns (r: Result<Cursor, Failure>)
    requires remote.steady && Position(saved) <= |remote.log|
    modifies remote, mirror
    ensures old(remote.log) <= remote.log
    ensures r.Ok? ==> r.value == At(|remote.log|)
    ensures r.Ok? ==> CaughtUp(old(mirror.State()), mirror.State(), folder, old(remote.log), remote.log, Position(saved))
    ensures r.Err? ==> remote.lapses + 1 <= old(remote.lapses)
  {
    var cursor, turn: nat := saved, 0;
    ghost var from: nat := Position(saved);
    NothingPulled(mirror.State(), folder, remote.log, from);
    while true
      invariant old(remote.log) <= remote.log && remote.Total() == old(remote.Total()) && remote.lapses <= old(remote.lapses)
      invariant from <= Position(cursor) <= |remote.log|
      invariant Pulled(old(mirror.State()), mirror.State(), folder, old(remote.log), remote.log, from, Position(cursor))
      decreases remote.Total() - Position(cursor)
    {
      ghost var before: seq<F.FileMessage>, at: nat := remote.log, Position(cursor);
      var page := remote.PageAt(cursor);
      turn := turn + 1;
      var txids: Txids := p => ids(turn, p);
      PulledLater(old(mirror.State()), mirror.State(), folder, old(remote.log), before, remote.log, from, at);
      var stored := AnyReset(page.rows);
      if page.reset || stored {
        r := ReplaceFolder(remote, mirror, folder, cursor, page, txids);
        if r.Ok? { CoveredIsCaughtUp(old(mirror.State()), mirror.State(), folder, old(remote.log), remote.log, from); }
        return;
      }
      ghost var m := mirror.State();
      ApplyPage(mirror, folder, page.rows, txids);
      assert page.rows == remote.log[at..page.cursor.offset];
      PulledPage(mirror.writable, old(mirror.State()), m, folder, old(remote.log), remote.log, from, at, page.cursor.offset,
                 txids);
      cursor := page.cursor;
      if page.upToDate {
        PulledToTail(old(mirror.State()), mirror.State(), folder, old(remote.log), remote.log, from);
        return Ok(cursor);
      }
    }
  }

  /** The pull so far: paths mentioned, or up to date since the start, are up to date since the cursor. */
  ghost predicate Pulled(
      start: Mirror, m: Mirror, folder: string, known: seq<F.FileMessage>, log: seq<F.FileMessage>, from: nat, at: nat)
    requires from <= at <= |log|
  {
    forall p :: !IgnoredPath(p) && (UpToDateSince(start, folder, p, known, from) || Mentions(log[from..at], p)) ==>
      UpToDateSince(m, folder, p, log, at)
  }

  lemma {:induction false} NothingPulled(m: Mirror, folder: string, log: seq<F.FileMessage>, from: nat)
    requires from <= |log|
    ensures Pulled(m, m, folder, log, log, from, from)
  {
    forall p ensures !Mentions(log[from..from], p) { assert log[from..from] == []; }
  }

  lemma {:induction false} SinceLater(
      m: Mirror, folder: string, p: string, log: seq<F.FileMessage>, later: seq<F.FileMessage>, at: nat)
    requires log <= later && UpToDateSince(m, folder, p, log, at)
    ensures UpToDateSince(m, folder, p, later, at)
  {
    var n :| at <= n <= |log| && UpToDate(m, Key(folder, p), ValueAt(StateAt(log, n), p));
    assert later[..n] == log[..n];
    assert UpToDate(m, Key(folder, p), ValueAt(StateAt(later, n), p));
  }

  lemma {:induction false} PulledLater(
      start: Mirror, m: Mirror, folder: string, known: seq<F.FileMessage>, log: seq<F.FileMessage>, later: seq<F.FileMessage>,
      from: nat, at: nat)
    requires from <= at <= |log| && log <= later && Pulled(start, m, folder, known, log, from, at)
    ensures Pulled(start, m, folder, known, later, from, at)
  {
    assert later[from..at] == log[from..at];
    forall p | !IgnoredPath(p) && (UpToDateSince(start, folder, p, known, from) || Mentions(log[from..at], p))
      ensures UpToDateSince(m, folder, p, later, at)
    {
      SinceLater(m, folder, p, log, later, at);
    }
  }

  lemma {:induction false} PulledPage(
      w: Writable, start: Mirror, m: Mirror, folder: string, known: seq<F.FileMessage>, log: seq<F.FileMessage>,
      from: nat, at: nat, next: nat, txids: Txids)
    requires from <= at <= next <= |log| && Pulled(start, m, folder, known, log, from, at)
    requires !HasReset(log[at..next])
    ensures Pulled(start, ApplyAll(w, m, folder, Last(log[at..next]), txids), folder, known, log, from, next)
  {
    forall i | at <= i < next ensures !log[i].Reset? { assert log[at..next][i - at] == log[i]; }
    forall p | !IgnoredPath(p) && (UpToDateSince(start, folder, p, known, from) || Mentions(log[from..next], p))
      ensures UpToDateSince(ApplyAll(w, m, folder, Last(log[at..next]), txids), folder, p, log, next)
    {
      if Mentions(log[from..next], p) { MentionsSplit(log, from, at, next, p); }
      PageCovers(w, m, folder, log, at, next, txids, p);
    }
  }

  lemma {:induction false} PulledToTail(
      start: Mirror, m: Mirror, folder: string, known: seq<F.FileMessage>, log: seq<F.FileMessage>, from: nat)
    requires from <= |log| && Pulled(start, m, folder, known, log, from, |log|)
    ensures CaughtUp(start, m, folder, known, log, from)
  {
    assert log[from..|log|] == log[from..] && log[..|log|] == log;
    forall p | !IgnoredPath(p) && (UpToDateSince(start, folder, p, known, from) || Mentions(log[from..], p))
      ensures UpToDate(m, Key(folder, p), ValueAt(F.LastChanges(map[], log), p))
    {
      assert UpToDateSince(m, folder, p, log, |log|);
    }
  }

  method InstallFirst(mirror: SyncMirror, folder: string, files: map<string, F.FileValue>, list: seq<string>, txids: Txids)
    modifies mirror
    ensures mirror.State() == FirstSync(mirror.writable, old(mirror.State()), folder, files, list, txids)
  {
    for i := 0 to |list|
      invariant mirror.State() == FirstSync(mirror.writable, old(mirror.State()), folder, files, list[..i], txids)
    {
      var p := list[i];
      assert list[..i + 1][..i] == list[..i];
      if IgnoredPath(p) { continue; }
      if p !in files && Key(folder, p) !in mirror.known {
        mirror.Observe(Key(folder, p), txids(p));
      } else {
        mirror.Install(Key(folder, p), ValueAt(files, p), txids(p));
      }
    }
    assert list[..|list|] == list;
  }

  /**
   * A first sync of a folder without write access: a path that the server knows shows the server's file, and
   * a path that neither side knows is left alone.
   */
  predicate ReadOnlySynced(m: Mirror, m': Mirror, k: Key, files: map<string, F.FileValue>) {
    && (k.path in files && !MirrorModel.HasPending(m, k) ==> MirrorModel.Local(m', k) == MirrorModel.LiveHash(ValueAt(files, k.path)))
    && (k.path !in files && k !in m.known ==> Untouched(m, m', k))
  }

  function LocalPaths(disk: map<Key, Hash>, folder: string): set<string> {
    set k | k in disk && k.folder == folder :: k.path
  }

  /**
   * `initialiseFolder`, after its guard. A first sync brings the mirror up to date with the tail. In a
   * writable folder it leaves every local file on disk that the mirror does not know yet: the file is
   * the server's already, or it is queued as a write whose parent is "no file".
   */
  method InitialiseFolder(remote: Remote, mirror: SyncMirror, folder: string, txids: Txids) returns (r: Result<Cursor, Failure>)
    modifies remote, mirror
    ensures r.Err? ==> mirror.State() == old(mirror.State())
    ensures r.Ok? ==> r.value == At(|remote.log|) && Covers(mirror.State(), folder, F.LastChanges(map[], remote.log))
    ensures r.Ok? && folder in mirror.writable ==> forall p ::
      Key(folder, p) in old(mirror.disk) && !IgnoredPath(p)
      && Key(folder, p) !in old(mirror.known) && !MirrorModel.HasPending(old(mirror.State()), Key(folder, p)) ==>
        LocalFileStands(old(mirror.State()), mirror.State(), Key(folder, p), ValueAt(F.LastChanges(map[], remote.log), p))
    ensures r.Ok? ==> forall p :: IgnoredPath(p) ==> Untouched(old(mirror.State()), mirror.State(), Key(folder, p))
    ensures r.Ok? && folder !in mirror.writable ==> forall p :: !IgnoredPath(p) ==>
      ReadOnlySynced(old(mirror.State()), mirror.State(), Key(folder, p), F.LastChanges(map[], remote.log))
  {
    var result := ReadReplacement(remote, Start, None);
    if result.Err? { return Err(result.error); }
    var (files, cursor) := result.value;
    var list := Distinct(files.Keys + KnownPaths(mirror.known, folder) + LocalPaths(mirror.disk, folder));
    ghost var m := mirror.State();
    InstallFirst(mirror, folder, files, list, txids);
    forall p | p in files || Key(folder, p) in m.known ensures p in list {
      if Key(folder, p) in m.known { assert Key(folder, p).path in KnownPaths(m.known, folder); }
    }
    FirstSyncCovers(mirror.writable, m, folder, files, list, txids);
    forall p | IgnoredPath(p) ensures Untouched(m, mirror.State(), Key(folder, p)) {
      FirstSyncLeaves(mirror.writable, m, folder, files, list, txids, p);
    }
    if folder !in mirror.writable {
      forall p | !IgnoredPath(p) ensures ReadOnlySynced(m, mirror.State(), Key(folder, p), files) {
        if p in files {
          if !MirrorModel.HasPending(m, Key(folder, p)) { FirstSyncReplaces(mirror.writable, m, folder, files, list, txids, p); }
        } else if Key(folder, p) !in m.known {
          FirstSyncLeaves(mirror.writable, m, folder, files, list, txids, p);
        }
      }
    }
    if folder in mirror.writable {
      forall p | Key(folder, p) in m.disk && !IgnoredPath(p) && Key(folder, p) !in m.known
                 && !MirrorModel.HasPending(m, Key(folder, p))
        ensures LocalFileStands(m, mirror.State(), Key(folder, p), ValueAt(files, p))
      {
        assert Key(folder, p).path in LocalPaths(m.disk, folder);
        FirstSyncKeepsLocalFiles(mirror.writable, m, folder, files, list, txids, p);
      }
    }
    r := Ok(cursor);
  }
}
