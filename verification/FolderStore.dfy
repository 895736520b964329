/** The folder owner's decisions and the streams they can build (server/folder-store.ts). */
module FolderStore {
  import opened Common
  import opened JsMap
  import opened FolderMessages
  import opened FolderView
  import D = Decide

  const FILE_LIMIT := 64 * 1024 * 1024

  datatype Request =
    | CommitFile(path: Path, txid: string, parent: Option<nat>, hash: Hash, size: nat, author: string)
    | DeleteFile(path: Path, txid: string, parent: Option<nat>, author: string)

  datatype Answer =
    | Head(version: nat, parent: Option<nat>, hash: Hash, txid: string)
    | Deleted(version: nat, parent: Option<nat>, txid: string)
    | Absent

  datatype Refusal = FileTooLarge | BlobMissing | BadParent | TxidReused

  datatype Decision = Decision(answer: Answer, items: seq<FileMessage>)

  /** What `commit` checks before it reads the view: the size, and that the content is stored with that size. */
  function Admit(blobs: Blobs, req: Request): Option<Refusal> {
    if req.DeleteFile? then None
    else if req.size > FILE_LIMIT then Some(FileTooLarge)
    else if req.hash !in blobs || blobs[req.hash] != req.size then Some(BlobMissing)
    else None
  }

  /** `checkParent` */
  predicate ParentKnown(view: View, parent: Option<nat>) {
    parent.None? || parent.value <= view.last
  }

  /** `recall`: the landed change of this txid, refused when it was another kind or path. */
  function Recall(view: View, req: Request): Result<Option<Landed>, Refusal> {
    var landed := Get(view.recent, req.txid);
    if landed.Some? && (landed.value.path != req.path || landed.value.hash.None? != req.DeleteFile?)
    then Err(TxidReused)
    else Ok(landed)
  }

  function DecideRequest(view: View, req: Request): Result<Decision, Refusal> {
    if !ParentKnown(view, req.parent) then Err(BadParent)
    else
      var recalled := Recall(view, req);
      if recalled.Err? then Err(recalled.error)
      else if req.CommitFile? then Ok(DecideCommit(view, req, recalled.value))
      else Ok(DecideDelete(view, req, recalled.value))
  }

  function DecideCommit(view: View, req: Request, landed: Option<Landed>): Decision
    requires req.CommitFile?
  {
    if landed.Some? && landed.value.hash.Some? then
      Decision(Head(landed.value.version, landed.value.parent, landed.value.hash.value, req.txid), [])
    else if req.path in view.files && view.files[req.path].hash == req.hash then
      var live := view.files[req.path];
      Decision(Head(live.version, live.parent, live.hash, live.txid), [])
    else
      var value := File(req.path, view.last + 1, req.parent, req.hash, req.size, req.author);
      Decision(Head(value.version, value.parent, value.hash, req.txid), [Upsert(req.path, value, Some(req.txid))])
  }

  function DecideDelete(view: View, req: Request, landed: Option<Landed>): Decision
    requires req.DeleteFile?
  {
    if landed.Some? then Decision(Deleted(landed.value.version, landed.value.parent, req.txid), [])
    else if req.path !in view.files then Decision(Absent, [])
    else
      var value := Tombstone(req.path, view.last + 1, req.parent, req.author);
      Decision(Deleted(value.version, value.parent, req.txid), [Upsert(req.path, value, Some(req.txid))])
  }

  /** The messages that an admitted request appends on a view; a refusal appends none. */
  function Items(req: Request, view: View): seq<FileMessage> {
    var decision := DecideRequest(view, req);
    if decision.Ok? then decision.value.items else []
  }

  /** What the blob store holds: content and its size. */
  type Blobs = map<Hash, nat>

  /** A request from its arrival to its answer: admitted with the store of that moment, then decided on a view. */
  function Submit(blobs: Blobs, view: View, req: Request): Result<Decision, Refusal> {
    var refused := Admit(blobs, req);
    if refused.Some? then Err(refused.value) else DecideRequest(view, req)
  }

  function Appended(blobs: Blobs, req: Request, view: View): seq<FileMessage> {
    if Admit(blobs, req).Some? then [] else Items(req, view)
  }

  /** The owner's deciders over one folder stream, one request for each call, with the store that admitted it. */
  function OwnerSpec(requests: nat -> Request, blobs: nat -> Blobs): D.Spec<View, FileMessage> {
    D.Spec(EmptyView, ApplyFileMessage, (c: nat) => (view: View) => Appended(blobs(c), requests(c), view))
  }

  /** Only the owner appends changes; controls, such as a reset, may come from elsewhere. */
  ghost predicate OwnerOnly(commits: seq<D.Commit<FileMessage>>) {
    forall m :: 0 <= m < |commits| && commits[m].author.None? ==>
      forall i :: 0 <= i < |commits[m].items| ==> IsControl(commits[m].items[i])
  }

  // ---- What one decision does ---------------------------------------------------------------------

  /** The landed change is the one that the request asks for. */
  predicate SameChange(landed: Landed, req: Request) {
    landed.path == req.path && landed.hash.None? == req.DeleteFile?
  }

  /**
   * When a request is refused, in terms of the stream: its content is too large or not stored, its parent
   * lies past every version, or its txid landed as another change fewer than 1024 other txids ago.
   */
  lemma {:induction false} RefusedExactlyWhen(blobs: Blobs, log: seq<FileMessage>, req: Request)
    ensures var landing := LastLanding(Landings(log), req.txid);
      Submit(blobs, ViewOf(log), req).Err?
      <==> (Admit(blobs, req).Some?
            || (req.parent.Some? && req.parent.value > ViewOf(log).last)
            || (landing.Some? && |After(Landings(log), req.txid)| < 1024 && !SameChange(landing.value, req)))
  {
    MemoryWindow(log, req.txid);
  }

  /**
   * No write is stale: an admitted request whose parent existed at some moment is accepted at every later one,
   * whatever landed in between, unless its txid landed as something else.
   */
  lemma {:induction false} NoWriteIsStale(blobs: Blobs, log: seq<FileMessage>, more: seq<FileMessage>, req: Request)
    requires Admit(blobs, req).None? && ParentKnown(ViewOf(log), req.parent)
    requires var landing := LastLanding(Landings(log + more), req.txid); landing.Some? ==> SameChange(landing.value, req)
    ensures Submit(blobs, ViewOf(log + more), req).Ok?
  {
    LastStays(log, more);
    RefusedExactlyWhen(blobs, log + more, req);
  }

  /** An accepted request appends at most one change, stamped with its txid and the next version. */
  lemma {:induction false} AppendsOneStampedChange(view: View, req: Request)
    ensures Items(req, view) == [] ||
      (|Items(req, view)| == 1 && var m := Items(req, view)[0];
        && m.Upsert? && m.key == req.path && m.value.path == req.path && m.txid == Some(req.txid)
        && m.value.version == view.last + 1 && m.value.parent == req.parent
        && (req.parent.Some? ==> req.parent.value < m.value.version)
        && m.value.File? == req.CommitFile?
        && Get(view.recent, req.txid).None?)
  {
  }

  // ---- The shape of an owner's stream ---------------------------------------------------------------

  function Versions(log: seq<FileMessage>): seq<nat> {
    if log == [] then []
    else
      var n := |log| - 1;
      Versions(log[..n]) + (if log[n].Upsert? then [log[n].value.version] else [])
  }

  /** The version that the view holds for a path, whether live or removed. */
  function CurrentVersion(view: View, p: Path): Option<nat> {
    if p in view.files then Some(view.files[p].version)
    else if p in view.removed then Some(view.removed[p])
    else None
  }

  /** The view of a stream that carries the versions 1 to `n`. */
  ghost predicate ViewOk(view: View, n: nat) {
    && view.last == n
    && view.files.Keys !! view.removed.Keys
    && (forall p :: CurrentVersion(view, p).Some? ==> 1 <= CurrentVersion(view, p).value <= n)
    && (forall p, q :: p != q && CurrentVersion(view, p).Some? ==> CurrentVersion(view, p) != CurrentVersion(view, q))
  }

  /** Changes are stamped, sit under their own path and name an earlier parent. */
  ghost predicate ChangesOk(log: seq<FileMessage>) {
    forall i :: 0 <= i < |log| ==>
      IsControl(log[i]) ||
      (log[i].Upsert? && log[i].txid.Some? && log[i].key == log[i].value.path
       && (log[i].value.parent.Some? ==> log[i].value.parent.value < log[i].value.version))
  }

  /** Versions 1, 2, 3, … in order, live and removed paths disjoint, no version shared. */
  ghost predicate OwnerStream(log: seq<FileMessage>) {
    && ChangesOk(log)
    && (forall i :: 0 <= i < |Versions(log)| ==> Versions(log)[i] == i + 1)
    && ViewOk(ViewOf(log), |Versions(log)|)
  }

  lemma {:induction false} ChangeKeepsView(view: View, n: nat, m: FileMessage)
    requires ViewOk(view, n) && m.Upsert? && m.value.version == n + 1
    ensures ViewOk(ApplyFileMessage(view, m), n + 1)
  {
    var next := ApplyFileMessage(view, m);
    forall p ensures CurrentVersion(next, p) == if p == m.key then Some(n + 1) else CurrentVersion(view, p) {}
  }

  lemma {:induction false} OwnerStreamChange(log: seq<FileMessage>, req: Request)
    requires OwnerStream(log)
    ensures OwnerStream(log + Items(req, ViewOf(log)))
  {
    AppendsOneStampedChange(ViewOf(log), req);
    var items := Items(req, ViewOf(log));
    if items == [] {
      assert log + items == log;
    } else {
      var m := items[0];
      var next := log + [m];
      assert items == [m] && next[..|log|] == log;
      assert Versions(next) == Versions(log) + [m.value.version];
      ChangeKeepsView(ViewOf(log), |Versions(log)|, m);
      assert ViewOf(next) == ApplyFileMessage(ViewOf(log), m);
      forall i | 0 <= i < |next| ensures i < |log| ==> next[i] == log[i] {}
      assert ChangesOk(next);
    }
  }

  lemma {:induction false} OwnerStreamControls(log: seq<FileMessage>, controls: seq<FileMessage>)
    requires OwnerStream(log) && forall i :: 0 <= i < |controls| ==> IsControl(controls[i])
    ensures OwnerStream(log + controls)
    decreases |controls|
  {
    if controls == [] {
      assert log + controls == log;
    } else {
      var m := controls[0];
      var next := log + [m];
      assert next[..|log|] == log;
      assert Versions(next) == Versions(log);
      assert ViewOf(next) == ApplyFileMessage(ViewOf(log), m);
      forall p ensures CurrentVersion(ViewOf(next), p).Some? ==> CurrentVersion(ViewOf(next), p) == CurrentVersion(ViewOf(log), p) {}
      forall i | 0 <= i < |next| ensures i < |log| ==> next[i] == log[i] {}
      assert ChangesOk(next);
      assert OwnerStream(next);
      OwnerStreamControls(next, controls[1..]);
      assert next + controls[1..] == log + controls;
    }
  }

  /** The commit is a decision of the owner on the stream before it, or controls of someone else. */
  ghost predicate OwnerCommit(requests: nat -> Request, blobs: nat -> Blobs, commits: seq<D.Commit<FileMessage>>, m: nat)
    requires m < |commits|
  {
    var commit := commits[m];
    if commit.author.Some? then
      && Admit(blobs(commit.author.value), requests(commit.author.value)).None?
      && commit.items == Items(requests(commit.author.value), ViewOf(D.Before(commits, m))) != []
    else forall i :: 0 <= i < |commit.items| ==> IsControl(commit.items[i])
  }

  ghost predicate OwnerCommits(requests: nat -> Request, blobs: nat -> Blobs, commits: seq<D.Commit<FileMessage>>) {
    forall m: nat {:trigger OwnerCommit(requests, blobs, commits, m)} :: m < |commits| ==> OwnerCommit(requests, blobs, commits, m)
  }

  lemma {:induction false} OwnersCommit(requests: nat -> Request, blobs: nat -> Blobs, log: seq<FileMessage>,
                                        commits: seq<D.Commit<FileMessage>>)
    requires D.Linear(OwnerSpec(requests, blobs), log, commits) && OwnerOnly(commits)
    ensures OwnerCommits(requests, blobs, commits)
  {
    forall m: nat | m < |commits| ensures OwnerCommit(requests, blobs, commits, m) {
      if commits[m].author.Some? { DecidedByOwner(requests, blobs, log, commits, m); }
    }
  }

  lemma {:induction false} OwnerStreamsAt(
      requests: nat -> Request, blobs: nat -> Blobs, commits: seq<D.Commit<FileMessage>>, m: nat)
    requires OwnerCommits(requests, blobs, commits) && m <= |commits|
    ensures OwnerStream(D.Before(commits, m))
  {
    if m > 0 {
      OwnerStreamsAt(requests, blobs, commits, m - 1);
      assert OwnerCommit(requests, blobs, commits, m - 1);
      var before, commit := D.Before(commits, m - 1), commits[m - 1];
      if commit.author.Some? {
        OwnerStreamChange(before, requests(commit.author.value));
      } else {
        OwnerStreamControls(before, commit.items);
      }
    }
  }

  /** What the owner appended is what the request asked for on the stream before it, and it was admitted. */
  lemma {:induction false} DecidedByOwner(requests: nat -> Request, blobs: nat -> Blobs, log: seq<FileMessage>,
                                          commits: seq<D.Commit<FileMessage>>, m: nat)
    requires D.Linear(OwnerSpec(requests, blobs), log, commits) && m < |commits| && commits[m].author.Some?
    ensures var c := commits[m].author.value;
      && Admit(blobs(c), requests(c)).None?
      && commits[m].items == Items(requests(c), ViewOf(D.Before(commits, m))) != []
  {
    var c := commits[m].author.value;
    assert D.Follows(OwnerSpec(requests, blobs), commits, m);
    assert commits[m].items == OwnerSpec(requests, blobs).rule(c)(ViewOf(D.Before(commits, m)));
  }

  /**
   * Under any interleaving of writers, an owner-only folder stream carries the versions
   * 1, 2, 3, … in order, each parent below its version; live and removed paths are disjoint
   * and no two current entries share a version. A reset takes no version back.
   */
  lemma {:induction false} OwnerOnlyStream(requests: nat -> Request, blobs: nat -> Blobs, events: seq<D.Event<FileMessage>>)
    requires OwnerOnly(D.Run(OwnerSpec(requests, blobs), events).commits)
    ensures OwnerStream(D.Run(OwnerSpec(requests, blobs), events).log)
  {
    var sys := D.Run(OwnerSpec(requests, blobs), events);
    D.EveryAppendSawTheWholeLog(OwnerSpec(requests, blobs), events);
    OwnersCommit(requests, blobs, sys.log, sys.commits);
    OwnerStreamsAt(requests, blobs, sys.commits, |sys.commits|);
  }

  /**
   * A txid that lands again does so only after at least 1024 other txids landed since it
   * last landed, under any interleaving.
   */
  lemma {:induction false} LandsAgainOnlyAfter1024(requests: nat -> Request, blobs: nat -> Blobs, events: seq<D.Event<FileMessage>>, m: nat)
    requires m < |D.Run(OwnerSpec(requests, blobs), events).commits|
    requires D.Run(OwnerSpec(requests, blobs), events).commits[m].author.Some?
    ensures var sys := D.Run(OwnerSpec(requests, blobs), events);
      var txid := requests(sys.commits[m].author.value).txid;
      var landings := Landings(D.Before(sys.commits, m));
      LastLanding(landings, txid).Some? ==> |After(landings, txid)| >= 1024
  {
    var sys := D.Run(OwnerSpec(requests, blobs), events);
    D.EveryAppendSawTheWholeLog(OwnerSpec(requests, blobs), events);
    var before := D.Before(sys.commits, m);
    var req := requests(sys.commits[m].author.value);
    DecidedByOwner(requests, blobs, sys.log, sys.commits, m);
    AppendsOneStampedChange(ViewOf(before), req);
    MemoryWindow(before, req.txid);
  }

  /** Every live change names content that is stored with that size, within the limit. */
  ghost predicate ContentStored(stored: Blobs, log: seq<FileMessage>) {
    forall i :: 0 <= i < |log| && IsLive(log[i]) ==>
      log[i].value.hash in stored && stored[log[i].value.hash] == log[i].value.size <= FILE_LIMIT
  }

  lemma {:induction false} ContentStoredConcat(stored: Blobs, a: seq<FileMessage>, b: seq<FileMessage>)
    requires ContentStored(stored, a) && ContentStored(stored, b)
    ensures ContentStored(stored, a + b)
  {
  }

  /** What the store held when a call was admitted is still known. */
  ghost predicate Remembers(stored: Blobs, blobs: nat -> Blobs) {
    forall c: nat, h :: h in blobs(c) ==> h in stored && stored[h] == blobs(c)[h]
  }

  /** An admitted request appends only content that the store holds. */
  lemma {:induction false} AdmittedIsStored(blobs: Blobs, stored: Blobs, req: Request, view: View)
    requires Admit(blobs, req).None? && forall h :: h in blobs ==> h in stored && stored[h] == blobs[h]
    ensures ContentStored(stored, Items(req, view))
  {
    ChangeNamesItsContent(view, req);
    if req.CommitFile? { assert req.hash in blobs; }
  }

  lemma {:induction false} ContentStoredAt(
      requests: nat -> Request, blobs: nat -> Blobs, stored: Blobs, commits: seq<D.Commit<FileMessage>>, m: nat)
    requires OwnerCommits(requests, blobs, commits) && Remembers(stored, blobs) && m <= |commits|
    ensures ContentStored(stored, D.Before(commits, m))
  {
    if m > 0 {
      ContentStoredAt(requests, blobs, stored, commits, m - 1);
      var before, items := D.Before(commits, m - 1), commits[m - 1].items;
      assert ContentStored(stored, items) by {
        assert OwnerCommit(requests, blobs, commits, m - 1);
        if commits[m - 1].author.Some? {
          var c := commits[m - 1].author.value;
          AdmittedIsStored(blobs(c), stored, requests(c), ViewOf(before));
        }
      }
      ContentStoredConcat(stored, before, items);
    }
  }

  lemma {:induction false} ChangeNamesItsContent(view: View, req: Request)
    ensures forall i :: 0 <= i < |Items(req, view)| && IsLive(Items(req, view)[i]) ==>
      req.CommitFile? && Items(req, view)[i].value.hash == req.hash && Items(req, view)[i].value.size == req.size
  {
  }

  /**
   * Under any interleaving, every live change of an owner-only stream names content that the store held, with
   * the size that it held, when the request was admitted. `stored` is all that the store ever held.
   */
  lemma {:induction false} EveryLiveFileIsStored(
      requests: nat -> Request, blobs: nat -> Blobs, stored: Blobs, events: seq<D.Event<FileMessage>>)
    requires OwnerOnly(D.Run(OwnerSpec(requests, blobs), events).commits)
    requires Remembers(stored, blobs)
    ensures ContentStored(stored, D.Run(OwnerSpec(requests, blobs), events).log)
  {
    var sys := D.Run(OwnerSpec(requests, blobs), events);
    D.EveryAppendSawTheWholeLog(OwnerSpec(requests, blobs), events);
    OwnersCommit(requests, blobs, sys.log, sys.commits);
    ContentStoredAt(requests, blobs, stored, sys.commits, |sys.commits|);
  }

  // ---- Retries -----------------------------------------------------------------------------------------

  lemma {:induction false} LastOnlyGrows(view: View, log: seq<FileMessage>)
    ensures Fold(view, ApplyFileMessage, log).last >= view.last
  {
    if log != [] { LastOnlyGrows(view, log[..|log| - 1]); }
  }

  lemma {:induction false} LandingsConcat(a: seq<FileMessage>, b: seq<FileMessage>)
    ensures Landings(a + b) == Landings(a) + Landings(b)
  {
    if b == [] {
      assert a + b == a;
    } else {
      assert (a + b)[..|a + b| - 1] == a + b[..|b| - 1];
      LandingsConcat(a, b[..|b| - 1]);
    }
  }

  lemma {:induction false} LastLandingStays(landings: seq<(string, Landed)>, more: seq<(string, Landed)>, txid: string)
    requires forall i :: 0 <= i < |more| ==> more[i].0 != txid
    ensures LastLanding(landings + more, txid) == LastLanding(landings, txid)
    ensures After(landings + more, txid) == After(landings, txid) + KeySet(more)
  {
    if more == [] {
      assert landings + more == landings;
      assert KeySet(more) == {};
    } else {
      var n := |more| - 1;
      assert (landings + more)[..|landings| + n] == landings + more[..n];
      LastLandingStays(landings, more[..n], txid);
      assert KeySet(more) == KeySet(more[..n]) + {more[n].0} by {
        assert more == more[..n] + [more[n]];
        KeySetSnoc(more[..n], more[n]);
      }
    }
  }

  lemma {:induction false} StillRemembered(log: seq<FileMessage>, m: FileMessage, more: seq<FileMessage>)
    requires m.Upsert?
    requires forall i :: 0 <= i < |Landings(more)| ==> Landings(more)[i].0 != TxidOf(m)
    requires |KeySet(Landings(more))| < 1024
    ensures Get(ViewOf(log + [m] + more).recent, TxidOf(m)) == Some(LandedOf(m))
  {
    var txid, landed := TxidOf(m), log + [m];
    assert landed[..|log|] == log;
    assert Landings(landed) == Landings(log) + [(txid, LandedOf(m))];
    assert (Landings(log) + [(txid, LandedOf(m))])[..|Landings(log)|] == Landings(log);
    LandingsConcat(landed, more);
    LastLandingStays(Landings(landed), Landings(more), txid);
    assert After(Landings(landed), txid) == {};
    assert {} + KeySet(Landings(more)) == KeySet(Landings(more));
    MemoryWindow(landed + more, txid);
  }

  lemma {:induction false} LastStays(log: seq<FileMessage>, more: seq<FileMessage>)
    ensures ViewOf(log + more).last >= ViewOf(log).last
  {
    FoldConcat(EmptyView, ApplyFileMessage, log, more);
    LastOnlyGrows(ViewOf(log), more);
  }

  /** A remembered change of the request answers it as the append did. */
  lemma {:induction false} RememberedAnswer(view: View, req: Request, later: View)
    requires Items(req, view) != [] && view.last <= later.last
    requires Get(later.recent, req.txid) == Some(LandedOf(Items(req, view)[0]))
    ensures DecideRequest(later, req) == Ok(Decision(DecideRequest(view, req).value.answer, []))
  {
  }

  /**
   * A request that appended is sent again after other changes landed, fewer than 1024 of other txids. If its
   * content is still stored it appends nothing and gets the answer it got first, whatever happened to its
   * path since; otherwise it is refused as at first sight.
   */
  lemma {:induction false} RetryGetsItsFirstAnswer(
      log: seq<FileMessage>, blobs: Blobs, req: Request, more: seq<FileMessage>, later: Blobs)
    requires Appended(blobs, req, ViewOf(log)) != []
    requires forall i :: 0 <= i < |Landings(more)| ==> Landings(more)[i].0 != req.txid
    requires |KeySet(Landings(more))| < 1024
    ensures var first := Submit(blobs, ViewOf(log), req);
      Submit(later, ViewOf(log + Appended(blobs, req, ViewOf(log)) + more), req)
      == if Admit(later, req).Some? then Err(Admit(later, req).value) else Ok(Decision(first.value.answer, []))
  {
    AppendsOneStampedChange(ViewOf(log), req);
    var m := Items(req, ViewOf(log))[0];
    assert Appended(blobs, req, ViewOf(log)) == [m];
    StillRemembered(log, m, more);
    LastStays(log, [m] + more);
    assert log + [m] + more == log + ([m] + more);
    RememberedAnswer(ViewOf(log), req, ViewOf(log + [m] + more));
  }
}
