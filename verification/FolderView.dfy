/** The folder owner's fold of its stream, with a bounded retry memory (server/folder-view.ts). */
module FolderView {
  import opened Common
  import opened JsMap
  import opened Text
  import opened FolderMessages

  const RETRY_MEMORY := 1024

  datatype LiveFile = LiveFile(txid: string, version: nat, parent: Option<nat>, hash: Hash, size: nat, author: string)

  /** What a retried request is answered from: the change that its txid landed. `None` as hash marks a delete. */
  datatype Landed = Landed(path: Path, version: nat, parent: Option<nat>, hash: Option<Hash>)

  datatype View = View(last: nat, files: map<Path, LiveFile>, removed: map<Path, nat>, recent: Pairs<string, Landed>)

  const EmptyView := View(0, map[], map[], [])

  function TakeLast<T>(s: seq<T>, n: nat): seq<T> {
    if |s| <= n then s else s[|s| - n..]
  }

  function Remember(recent: Pairs<string, Landed>, txid: string, landed: Landed): Pairs<string, Landed> {
    TakeLast(Drop(recent, txid) + [(txid, landed)], RETRY_MEMORY)
  }

  /** `remember`: move the txid to the newest place, then delete oldest first while too large. */
  method RememberLoop(recent: Pairs<string, Landed>, txid: string, landed: Landed) returns (next: Pairs<string, Landed>)
    requires Unique(recent)
    ensures next == Remember(recent, txid, landed)
  {
    next := Drop(recent, txid);
    DropKeepsUnique(recent, txid);
    next := next + [(txid, landed)];
    ghost var all := next;
    while |next| > RETRY_MEMORY
      invariant |next| <= |all| && next == all[|all| - |next|..]
      invariant |all| > RETRY_MEMORY ==> |next| >= RETRY_MEMORY
      invariant |all| <= RETRY_MEMORY ==> next == all
    {
      next := next[1..];
    }
  }

  /** The key of a change in the retry memory: its txid, or its version when it has none. */
  function TxidOf(m: FileMessage): string
    requires m.Upsert?
  {
    if m.txid.Some? then m.txid.value else Decimal(m.value.version)
  }

  function LandedOf(m: FileMessage): Landed
    requires m.Upsert?
  {
    Landed(m.key, m.value.version, m.value.parent, if m.value.File? then Some(m.value.hash) else None)
  }

  function Max(a: nat, b: nat): nat { if a < b then b else a }

  /** `applyFileMessage`. Only the two path tables start over at a reset; versions and the memory go on. */
  function ApplyFileMessage(view: View, m: FileMessage): View {
    match m
    case Snapshot => view
    case Reset => View(view.last, map[], map[], view.recent)
    case Delete(key) => View(view.last, view.files - {key}, view.removed - {key}, view.recent)
    case Upsert(key, value, _) =>
      View(Max(view.last, value.version),
           if value.Tombstone? then view.files - {key}
           else view.files[key := LiveFile(TxidOf(m), value.version, value.parent, value.hash, value.size, value.author)],
           if value.Tombstone? then view.removed[key := value.version] else view.removed - {key},
           Remember(view.recent, TxidOf(m), LandedOf(m)))
  }

  function ViewOf(log: seq<FileMessage>): View { Fold(EmptyView, ApplyFileMessage, log) }

  // ---- The view agrees with the meaning of the stream ------------------------------------------

  /** Live and removed paths are exactly the last changes that the stream means, by kind. */
  lemma {:induction false} ViewMeansTheStream(log: seq<FileMessage>)
    ensures var view, rows := ViewOf(log), LastChanges(map[], log);
      && (forall p :: p in view.files <==> p in rows && rows[p].File?)
      && (forall p :: p in view.removed <==> p in rows && rows[p].Tombstone?)
      && (forall p :: p in view.files ==>
            var live, value := view.files[p], rows[p];
            live.version == value.version && live.parent == value.parent && live.hash == value.hash
            && live.size == value.size && live.author == value.author)
      && (forall p :: p in view.removed ==> view.removed[p] == rows[p].version)
  {
    if log != [] { ViewMeansTheStream(log[..|log| - 1]); }
  }

  /** Message `i` is the change that the path's state in the stream comes from. */
  ghost predicate LastSays(log: seq<FileMessage>, p: Path, i: int) {
    0 <= i < |log| && log[i].Upsert? && log[i].key == p
    && forall j :: i < j < |log| ==> !log[j].Reset? && (IsControl(log[j]) || log[j].key != p)
  }

  /** The state of a path is the value of the last change at it, unless a reset or a plain delete came after. */
  lemma {:induction false} LastChangeMeans(log: seq<FileMessage>, p: Path)
    ensures p in LastChanges(map[], log) <==> exists i :: LastSays(log, p, i)
    ensures forall i :: LastSays(log, p, i) ==> p in LastChanges(map[], log) && LastChanges(map[], log)[p] == log[i].value
    ensures forall i :: LastSays(log, p, i) && log[i].value.File? ==>
      p in ViewOf(log).files
      && ViewOf(log).files[p].txid == if log[i].txid.Some? then log[i].txid.value else Decimal(log[i].value.version)
  {
    if log != [] {
      var n := |log| - 1;
      var front, m := log[..n], log[n];
      LastChangeMeans(front, p);
      forall i | 0 <= i < n ensures LastSays(log, p, i) <==> LastSays(front, p, i) && !m.Reset? && (IsControl(m) || m.key != p) {
        assert front[i] == log[i];
        assert forall j :: 0 <= j < n ==> front[j] == log[j];
      }
      assert LastSays(log, p, n) <==> m.Upsert? && m.key == p;
      if i :| LastSays(front, p, i) { assert LastSays(log, p, i) || LastSays(log, p, n) || !LastSays(log, p, i); }
    }
  }

  // ---- The retry memory --------------------------------------------------------------------------

  /** Every landed change of the stream, in order, under its retry key. */
  function Landings(log: seq<FileMessage>): seq<(string, Landed)> {
    if log == [] then []
    else
      var n := |log| - 1;
      Landings(log[..n]) + (if log[n].Upsert? then [(TxidOf(log[n]), LandedOf(log[n]))] else [])
  }

  /** Each txid once, with its last landing, ordered by last landing. */
  function Latest(landings: seq<(string, Landed)>): Pairs<string, Landed> {
    if landings == [] then []
    else
      var n := |landings| - 1;
      Drop(Latest(landings[..n]), landings[n].0) + [landings[n]]
  }

  lemma {:induction false} UniqueSnoc(m: Pairs<string, Landed>, e: (string, Landed))
    requires Unique(m)
    ensures Unique(Drop(m, e.0) + [e])
  {
    DropKeepsUnique(m, e.0);
  }

  lemma {:induction false} LatestUnique(landings: seq<(string, Landed)>)
    ensures Unique(Latest(landings))
  {
    if landings != [] {
      var n := |landings| - 1;
      LatestUnique(landings[..n]);
      UniqueSnoc(Latest(landings[..n]), landings[n]);
    }
  }

  lemma {:induction false} DropConcat(a: Pairs<string, Landed>, b: Pairs<string, Landed>, k: string)
    ensures Drop(a + b, k) == Drop(a, k) + Drop(b, k)
  {
    if a == [] {
      assert a + b == b;
    } else {
      assert (a + b)[1..] == a[1..] + b;
      DropConcat(a[1..], b, k);
    }
  }

  lemma {:induction false} DropAbsent(m: Pairs<string, Landed>, k: string)
    requires forall i :: 0 <= i < |m| ==> m[i].0 != k
    ensures Drop(m, k) == m
  {
    if m != [] {
      forall i | 0 <= i < |m[1..]| ensures m[1..][i].0 != k { assert m[i + 1].0 != k; }
      DropAbsent(m[1..], k);
    }
  }

  lemma {:induction false} DropShorter(m: Pairs<string, Landed>, k: string)
    requires Unique(m)
    ensures |m| - 1 <= |Drop(m, k)| <= |m|
    ensures (exists i :: 0 <= i < |m| && m[i].0 == k) ==> |Drop(m, k)| == |m| - 1
  {
    if m != [] {
      forall i, j | 0 <= i < j < |m[1..]| ensures m[1..][i].0 != m[1..][j].0 { assert m[i + 1].0 != m[j + 1].0; }
      DropShorter(m[1..], k);
      if m[0].0 == k {
        forall i | 0 <= i < |m[1..]| ensures m[1..][i].0 != k { assert m[0].0 != m[i + 1].0; }
        DropAbsent(m[1..], k);
      } else if i :| 0 <= i < |m| && m[i].0 == k {
        assert m[1..][i - 1].0 == k;
      }
    }
  }

  /** Forgetting old entries early or late makes no difference to what is remembered next. */
  lemma {:induction false} SuffixUnique(all: Pairs<string, Landed>, cut: nat)
    requires Unique(all) && cut <= |all|
    ensures Unique(all[cut..])
    ensures forall i, j :: 0 <= i < |all| - cut && 0 <= j < cut ==> all[cut..][i].0 != all[..cut][j].0
  {
    var kept := all[cut..];
    forall i, j | 0 <= i < j < |kept| ensures kept[i].0 != kept[j].0 { assert all[cut + i].0 != all[cut + j].0; }
    forall i, j | 0 <= i < |kept| && 0 <= j < cut ensures kept[i].0 != all[..cut][j].0 { assert all[j].0 != all[cut + i].0; }
  }

  lemma {:induction false} TakeLastOf<T>(a: seq<T>, b: seq<T>, n: nat)
    requires |b| == n
    ensures TakeLast(a + b, n) == b
  {
    if a == [] { assert a + b == b; }
  }

  lemma {:induction false} RememberCommutes(all: Pairs<string, Landed>, txid: string, landed: Landed)
    requires Unique(all)
    ensures Remember(TakeLast(all, RETRY_MEMORY), txid, landed)
         == TakeLast(Drop(all, txid) + [(txid, landed)], RETRY_MEMORY)
  {
    if |all| > RETRY_MEMORY {
      var cut := |all| - RETRY_MEMORY;
      var early, kept := all[..cut], all[cut..];
      assert all == early + kept;
      DropConcat(early, kept, txid);
      SuffixUnique(all, cut);
      DropShorter(kept, txid);
      if i :| 0 <= i < |kept| && kept[i].0 == txid {
        DropAbsent(early, txid);
        ForgetRemembered(early, kept, txid, landed);
      } else {
        DropAbsent(kept, txid);
        ForgetOldest(Drop(early, txid), kept, txid, landed);
      }
    }
  }

  /** The txid is remembered: the memory is full again after it moved to the end. */
  lemma {:induction false} ForgetRemembered(
      early: Pairs<string, Landed>, kept: Pairs<string, Landed>, txid: string, landed: Landed)
    requires |Drop(kept, txid)| == RETRY_MEMORY - 1
    ensures TakeLast(early + Drop(kept, txid) + [(txid, landed)], RETRY_MEMORY)
         == TakeLast(Drop(kept, txid) + [(txid, landed)], RETRY_MEMORY)
  {
    var next := Drop(kept, txid) + [(txid, landed)];
    TakeLastOf(early, next, RETRY_MEMORY);
    assert early + Drop(kept, txid) + [(txid, landed)] == early + next;
  }

  /** The txid is new to a full memory: the oldest entry goes. */
  lemma {:induction false} ForgetOldest(early: Pairs<string, Landed>, kept: Pairs<string, Landed>, txid: string, landed: Landed)
    requires |kept| == RETRY_MEMORY
    ensures TakeLast(early + kept + [(txid, landed)], RETRY_MEMORY) == TakeLast(kept + [(txid, landed)], RETRY_MEMORY)
  {
    var next := kept[1..] + [(txid, landed)];
    TakeLastOf(early + [kept[0]], next, RETRY_MEMORY);
    TakeLastOf([kept[0]], next, RETRY_MEMORY);
    assert early + kept + [(txid, landed)] == early + [kept[0]] + next;
    assert kept + [(txid, landed)] == [kept[0]] + next;
  }

  /** The memory always is the last 1024 distinct txids ordered by last landing, with their last answers. */
  lemma {:induction false} MemoryIsLatest(log: seq<FileMessage>)
    ensures ViewOf(log).recent == TakeLast(Latest(Landings(log)), RETRY_MEMORY)
  {
    if log != [] {
      var n := |log| - 1;
      MemoryIsLatest(log[..n]);
      if log[n].Upsert? {
        var landings := Landings(log[..n]);
        var e := (TxidOf(log[n]), LandedOf(log[n]));
        LatestUnique(landings);
        RememberCommutes(Latest(landings), e.0, e.1);
        assert Landings(log) == landings + [e] && (landings + [e])[..|landings|] == landings;
        assert ViewOf(log).recent == Remember(ViewOf(log[..n]).recent, e.0, e.1);
      } else {
        assert Landings(log) == Landings(log[..n]);
      }
    }
  }

  /** The txids that landed after the last landing of `txid`. */
  function After(landings: seq<(string, Landed)>, txid: string): set<string> {
    if landings == [] then {}
    else
      var n := |landings| - 1;
      if landings[n].0 == txid then {} else After(landings[..n], txid) + {landings[n].0}
  }

  function LastLanding(landings: seq<(string, Landed)>, txid: string): Option<Landed> {
    if landings == [] then None
    else
      var n := |landings| - 1;
      if landings[n].0 == txid then Some(landings[n].1) else LastLanding(landings[..n], txid)
  }

  function KeySet(m: Pairs<string, Landed>): set<string> {
    set i | 0 <= i < |m| :: m[i].0
  }

  /** Where a txid stands in the ordered list, and what stands after it. */
  lemma {:induction false} Placed(landings: seq<(string, Landed)>, txid: string) returns (p: nat)
    requires LastLanding(landings, txid).Some?
    ensures p < |Latest(landings)|
    ensures Latest(landings)[p] == (txid, LastLanding(landings, txid).value)
    ensures KeySet(Latest(landings)[p + 1..]) == After(landings, txid)
  {
    var n := |landings| - 1;
    var front, e := landings[..n], landings[n];
    var m := Latest(front);
    LatestUnique(front);
    DropKeepsUnique(m, e.0);
    if e.0 == txid {
      p := |Drop(m, e.0)|;
      assert Latest(landings)[p + 1..] == [];
    } else {
      var q := Placed(front, txid);
      p := PlacedStep(m, q, e);
      assert landings == front + [e];
    }
  }

  /** Remembering another txid keeps what stands before it in place and adds it at the end. */
  lemma {:induction false} PlacedStep(m: Pairs<string, Landed>, q: nat, e: (string, Landed)) returns (p: nat)
    requires Unique(m) && q < |m| && m[q].0 != e.0
    ensures var next := Drop(m, e.0) + [e];
      p < |next| && next[p] == m[q] && KeySet(next[p + 1..]) == KeySet(m[q + 1..]) + {e.0}
  {
    var before, after := m[..q], m[q + 1..];
    assert m == before + ([m[q]] + after);
    DropConcat(before, [m[q]] + after, e.0);
    DropConcat([m[q]], after, e.0);
    DropAbsent([m[q]], e.0);
    p := |Drop(before, e.0)|;
    var d := Drop(after, e.0);
    assert Drop(m, e.0) + [e] == Drop(before, e.0) + ([m[q]] + (d + [e]));
    assert (Drop(m, e.0) + [e])[p + 1..] == d + [e];
    forall i, j | 0 <= i < j < |after| ensures after[i].0 != after[j].0 { assert m[q + 1 + i].0 != m[q + 1 + j].0; }
    KeysAfterDrop(after, e);
  }

  lemma {:induction false} KeysAfterDrop(m: Pairs<string, Landed>, e: (string, Landed))
    requires Unique(m)
    ensures KeySet(Drop(m, e.0) + [e]) == KeySet(m) + {e.0}
  {
    DropKeepsUnique(m, e.0);
    var d := Drop(m, e.0);
    var next := d + [e];
    forall k ensures k in KeySet(next) <==> k in KeySet(m) + {e.0} {
      if k in KeySet(next) {
        var i :| 0 <= i < |next| && next[i].0 == k;
        if i < |d| {
          assert d[i] in m;
          var j :| 0 <= j < |m| && m[j] == d[i];
        }
      }
      if k in KeySet(m) && k != e.0 {
        var j :| 0 <= j < |m| && m[j].0 == k;
        assert m[j] in d;
        var i :| 0 <= i < |d| && d[i] == m[j];
        assert next[i].0 == k;
      }
      if k == e.0 { assert next[|d|].0 == k; }
    }
  }

  lemma {:induction false} KeySetSnoc(m: Pairs<string, Landed>, e: (string, Landed))
    ensures KeySet(m + [e]) == KeySet(m) + {e.0}
  {
    var all := m + [e];
    forall i | 0 <= i < |m| ensures m[i].0 in KeySet(all) { assert all[i].0 == m[i].0; }
    assert all[|m|].0 == e.0;
    forall i | 0 <= i < |all| ensures all[i].0 in KeySet(m) + {e.0} {
      if i < |m| { assert m[i].0 in KeySet(m); }
    }
  }

  lemma {:induction false} UniqueCount(m: Pairs<string, Landed>)
    requires Unique(m)
    ensures |KeySet(m)| == |m|
  {
    if m == [] {
      assert KeySet(m) == {};
    } else {
      var n := |m| - 1;
      assert m == m[..n] + [m[n]];
      UniqueCount(m[..n]);
      assert KeySet(m) == KeySet(m[..n]) + {m[n].0} by { KeySetSnoc(m[..n], m[n]); }
      assert m[n].0 !in KeySet(m[..n]) by {
        forall i | 0 <= i < n ensures m[..n][i].0 != m[n].0 { assert m[i].0 != m[n].0; }
      }
    }
  }

  lemma {:induction false} LatestHolds(landings: seq<(string, Landed)>, txid: string, i: nat)
    requires i < |Latest(landings)| && Latest(landings)[i].0 == txid
    ensures LastLanding(landings, txid).Some?
  {
    var n := |landings| - 1;
    var front, e := landings[..n], landings[n];
    if e.0 != txid {
      LatestUnique(front);
      DropKeepsUnique(Latest(front), e.0);
      assert Latest(landings)[i] in Latest(front);
      var j :| 0 <= j < |Latest(front)| && Latest(front)[j] == Latest(landings)[i];
      LatestHolds(front, txid, j);
    }
  }

  /**
   * The memory window: a txid is remembered exactly when it landed and fewer than 1024
   * other txids landed after it, and the answer is its last one.
   */
  lemma {:induction false} MemoryWindow(log: seq<FileMessage>, txid: string)
    ensures var landings := Landings(log);
      Get(ViewOf(log).recent, txid)
      == if LastLanding(landings, txid).Some? && |After(landings, txid)| < RETRY_MEMORY
         then LastLanding(landings, txid) else None
  {
    var landings := Landings(log);
    MemoryIsLatest(log);
    LatestUnique(landings);
    if LastLanding(landings, txid).Some? {
      var p := Placed(landings, txid);
      SuffixUnique(Latest(landings), p + 1);
      UniqueCount(Latest(landings)[p + 1..]);
      WindowAt(Latest(landings), p);
    } else {
      NeverRemembered(landings, txid);
    }
  }

  /** An entry is among the last 1024 exactly when fewer than 1024 entries stand behind it. */
  lemma {:induction false} WindowAt(all: Pairs<string, Landed>, p: nat)
    requires Unique(all) && p < |all|
    ensures Get(TakeLast(all, RETRY_MEMORY), all[p].0) == if |all| - p - 1 < RETRY_MEMORY then Some(all[p].1) else None
  {
    var kept := TakeLast(all, RETRY_MEMORY);
    var cut: nat := |all| - |kept|;
    assert kept == all[cut..];
    SuffixUnique(all, cut);
    if p >= cut {
      assert kept[p - cut] == all[p];
      GetAt(kept, p - cut);
    } else {
      assert all[..cut][p] == all[p];
      GetIsLookup(kept, all[p].0);
    }
  }

  lemma {:induction false} NeverRemembered(landings: seq<(string, Landed)>, txid: string)
    requires LastLanding(landings, txid).None?
    ensures Get(TakeLast(Latest(landings), RETRY_MEMORY), txid).None?
  {
    var all := Latest(landings);
    var kept := TakeLast(all, RETRY_MEMORY);
    GetIsLookup(kept, txid);
    forall i | 0 <= i < |kept| ensures kept[i].0 != txid {
      assert kept[i] == all[|all| - |kept| + i];
      if all[|all| - |kept| + i].0 == txid { LatestHolds(landings, txid, |all| - |kept| + i); }
    }
  }
}
