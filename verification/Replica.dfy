/** The browser replica's batch rewriter (examples/folder-sync/src/db.ts). */
module Replica {
  import opened Common

  datatype Op = Insert | Update | Upsert | Delete

  /** A row value or a tombstone. */
  datatype Value = Row(content: string) | Gone

  datatype Event =
    | Control(reset: bool)
    | Change(kind: string, key: string, op: Op, value: Option<Value>, txid: Option<string>)

  type Rows = map<string, Option<Value>>

  predicate IsTombstone(e: Event) { e.Change? && e.op == Upsert && e.value == Some(Gone) }

  /** What the stream means for the collection of one type: a reset clears, a tombstone deletes. */
  function Meaning(kind: string, rows: Rows, e: Event): Rows {
    if e.Control? then if e.reset then map[] else rows
    else if e.kind != kind then rows
    else if e.op == Delete || IsTombstone(e) then rows - {e.key}
    else rows[e.key := e.value]
  }

  /** What a consumer does that knows neither resets nor tombstones. */
  function Plain(kind: string, rows: Rows, e: Event): Rows {
    if e.Control? || e.kind != kind then rows
    else if e.op == Delete then rows - {e.key}
    else rows[e.key := e.value]
  }

  function MeaningOf(kind: string, rows: Rows, es: seq<Event>): Rows {
    if es == [] then rows else Meaning(kind, MeaningOf(kind, rows, es[..|es| - 1]), es[|es| - 1])
  }

  function PlainOf(kind: string, rows: Rows, es: seq<Event>): Rows {
    if es == [] then rows else Plain(kind, PlainOf(kind, rows, es[..|es| - 1]), es[|es| - 1])
  }

  /** The txids that a consumer acknowledges, in order. */
  function Txids(es: seq<Event>): seq<string> {
    if es == [] then []
    else
      var n := |es| - 1;
      Txids(es[..n]) + (if es[n].Change? && es[n].txid.Some? then [es[n].txid.value] else [])
  }

  /** The deletes that stand for a reset: one for each tracked key, in insertion order. */
  function Deletes(kind: string, keys: seq<string>): seq<Event> {
    if keys == [] then []
    else Deletes(kind, keys[..|keys| - 1]) + [Change(kind, keys[|keys| - 1], Delete, None, None)]
  }

  function RemoveKey(keys: seq<string>, k: string): seq<string> {
    if keys == [] then [] else if keys[0] == k then RemoveKey(keys[1..], k) else [keys[0]] + RemoveKey(keys[1..], k)
  }

  function AddKey(keys: seq<string>, k: string): seq<string> {
    if k in keys then keys else keys + [k]
  }

  /** A `Set` of keys in insertion order, kept across batches. */
  class ResetBatch {
    const kind: string
    var keys: seq<string>

    constructor (kind: string)
      ensures this.kind == kind && keys == []
    {
      this.kind := kind;
      keys := [];
    }

    /**
     * `resetBatch`: over any batch the rewritten items, read plainly, give the rows that the
     * originals mean, acknowledge the same txids and hold no reset; the tracked keys stay the
     * keys of the replica. Each event has its own piece of the items.
     */
    method Rewrite(batch: seq<Event>, ghost rows: Rows) returns (items: seq<Event>, ghost pieces: seq<seq<Event>>)
      requires forall k :: k in keys <==> k in rows
      modifies this
      ensures PlainOf(kind, rows, items) == MeaningOf(kind, rows, batch)
      ensures forall k :: k in keys <==> k in MeaningOf(kind, rows, batch)
      ensures Txids(items) == Txids(batch)
      ensures forall i :: 0 <= i < |items| ==> items[i] != Control(true) && !IsTombstone(items[i])
      ensures items == Flatten(pieces) && InPieces(kind, rows, batch, pieces)
    {
      items, pieces := [], [];
      for i := 0 to |batch|
        invariant Rewritten(kind, rows, items, keys, batch[..i])
        invariant items == Flatten(pieces) && InPieces(kind, rows, batch[..i], pieces)
      {
        var event := batch[i];
        assert batch[..i + 1][..i] == batch[..i] && batch[..i + 1][i] == event;
        ghost var piece :=
          if event == Control(true) then Deletes(kind, keys)
          else if IsTombstone(event) then [Change(event.kind, event.key, Delete, None, event.txid)] else [event];
        NextPiece(kind, rows, keys, batch[..i + 1], pieces, piece);
        pieces := pieces + [piece];
        if event.Control? && event.reset {
          ResetRewritten(kind, rows, items, keys, batch[..i + 1]);
          items := items + Deletes(kind, keys);
          keys := [];
        } else if IsTombstone(event) {
          TombstoneRewritten(kind, rows, items, keys, batch[..i + 1]);
          items := items + [Change(event.kind, event.key, Delete, None, event.txid)];
          if event.kind == kind { keys := RemoveKey(keys, event.key); }
        } else {
          PassedOn(kind, rows, items, keys, batch[..i + 1]);
          items := items + [event];
          if event.Control? || event.kind != kind { continue; }
          if event.op == Delete {
            keys := RemoveKey(keys, event.key);
          } else {
            keys := AddKey(keys, event.key);
          }
        }
      }
      assert batch[..|batch|] == batch;
    }
  }

  ghost predicate Tracks(keys: seq<string>, rows: Rows) { forall k :: k in keys <==> k in rows }

  /** Neither a reset nor a tombstone among the items. */
  ghost predicate Readable(items: seq<Event>) {
    forall j :: 0 <= j < |items| ==> items[j] != Control(true) && !IsTombstone(items[j])
  }

  /** The items so far, read plainly, mean what the events so far mean, and the keys are tracked. */
  ghost predicate Rewritten(kind: string, rows: Rows, items: seq<Event>, keys: seq<string>, events: seq<Event>) {
    && PlainOf(kind, rows, items) == MeaningOf(kind, rows, events)
    && Tracks(keys, MeaningOf(kind, rows, events))
    && Txids(items) == Txids(events)
    && Readable(items)
  }

  /**
   * What becomes of one event: a reset turns into deletes of exactly the rows there are, a tombstone into a
   * delete of its key with its txid, and everything else is passed on as it is.
   */
  ghost predicate PieceMeans(kind: string, rows: Rows, e: Event, piece: seq<Event>) {
    if e.Control? && e.reset then
      && (forall d :: d in piece ==> d.Change? && d == Change(kind, d.key, Delete, None, None) && d.key in rows)
      && (forall k :: k in rows ==> Change(kind, k, Delete, None, None) in piece)
    else if e.Change? && e.op == Upsert && e.value == Some(Gone) then piece == [Change(e.kind, e.key, Delete, None, e.txid)]
    else piece == [e]
  }

  /** Every event has its piece, on the rows that the events before it mean. */
  ghost predicate InPieces(kind: string, rows: Rows, es: seq<Event>, pieces: seq<seq<Event>>) {
    && |pieces| == |es|
    && forall i :: 0 <= i < |es| ==> PieceMeans(kind, MeaningOf(kind, rows, es[..i]), es[i], pieces[i])
  }

  lemma {:induction false} NextPiece(
      kind: string, rows: Rows, keys: seq<string>, es: seq<Event>, pieces: seq<seq<Event>>, piece: seq<Event>)
    requires es != [] && InPieces(kind, rows, es[..|es| - 1], pieces)
    requires Tracks(keys, MeaningOf(kind, rows, es[..|es| - 1]))
    requires var e := es[|es| - 1];
      piece == if e == Control(true) then Deletes(kind, keys)
               else if IsTombstone(e) then [Change(e.kind, e.key, Delete, None, e.txid)] else [e]
    ensures InPieces(kind, rows, es, pieces + [piece]) && Flatten(pieces + [piece]) == Flatten(pieces) + piece
  {
    var n := |es| - 1;
    FlattenSnoc(pieces, piece);
    DeletesOfKeys(kind, keys);
    forall i | 0 <= i < |es| ensures PieceMeans(kind, MeaningOf(kind, rows, es[..i]), es[i], (pieces + [piece])[i]) {
      if i < n { assert es[..n][..i] == es[..i]; }
    }
  }

  lemma {:induction false} DeletesOfKeys(kind: string, keys: seq<string>)
    ensures forall d :: d in Deletes(kind, keys) <==> d.Change? && d == Change(kind, d.key, Delete, None, None) && d.key in keys
  {
    if keys != [] {
      DeletesOfKeys(kind, keys[..|keys| - 1]);
      assert forall k :: k in keys <==> k in keys[..|keys| - 1] || k == keys[|keys| - 1];
    }
  }

  lemma {:induction false} ResetRewritten(kind: string, rows: Rows, items: seq<Event>, keys: seq<string>, events: seq<Event>)
    requires events != [] && Rewritten(kind, rows, items, keys, events[..|events| - 1])
    requires events[|events| - 1] == Control(true)
    ensures Rewritten(kind, rows, items + Deletes(kind, keys), [], events)
  {
    DeletesClear(kind, rows, items, keys);
  }

  lemma {:induction false} TombstoneRewritten(
      kind: string, rows: Rows, items: seq<Event>, keys: seq<string>, events: seq<Event>)
    requires events != [] && Rewritten(kind, rows, items, keys, events[..|events| - 1])
    requires IsTombstone(events[|events| - 1])
    ensures var e := events[|events| - 1];
      Rewritten(kind, rows, items + [Change(e.kind, e.key, Delete, None, e.txid)],
                if e.kind == kind then RemoveKey(keys, e.key) else keys, events)
  {
    var e := events[|events| - 1];
    var removal := Change(e.kind, e.key, Delete, None, e.txid);
    assert Readable(items + [removal]) by { assert !IsTombstone(removal); }
    assert PlainOf(kind, rows, items + [removal]) == MeaningOf(kind, rows, events) && Txids(items + [removal]) == Txids(events) by {
      PlainSnoc(kind, rows, items, removal);
    }
    TracksRemove(keys, PlainOf(kind, rows, items), e.key);
  }

  lemma {:induction false} TracksRemove(keys: seq<string>, rows: Rows, k: string)
    requires Tracks(keys, rows)
    ensures Tracks(RemoveKey(keys, k), rows - {k})
  {
    RemoveKeyMember(keys, k);
  }

  lemma {:induction false} TracksAdd(keys: seq<string>, rows: Rows, k: string, value: Option<Value>)
    requires Tracks(keys, rows)
    ensures Tracks(AddKey(keys, k), rows[k := value])
  {
  }

  lemma {:induction false} PlainSnoc(kind: string, rows: Rows, items: seq<Event>, e: Event)
    ensures PlainOf(kind, rows, items + [e]) == Plain(kind, PlainOf(kind, rows, items), e)
    ensures Txids(items + [e]) == Txids(items) + (if e.Change? && e.txid.Some? then [e.txid.value] else [])
  {
    assert (items + [e])[..|items|] == items;
  }

  /** Any other event is passed on as it is. */
  lemma {:induction false} PassedOn(kind: string, rows: Rows, items: seq<Event>, keys: seq<string>, events: seq<Event>)
    requires events != [] && Rewritten(kind, rows, items, keys, events[..|events| - 1])
    requires events[|events| - 1] != Control(true) && !IsTombstone(events[|events| - 1])
    ensures var e := events[|events| - 1];
      Rewritten(kind, rows, items + [e],
                if e.Control? || e.kind != kind then keys
                else if e.op == Delete then RemoveKey(keys, e.key) else AddKey(keys, e.key), events)
  {
    var e := events[|events| - 1];
    PlainSnoc(kind, rows, items, e);
    if e.Change? {
      TracksRemove(keys, PlainOf(kind, rows, items), e.key);
      TracksAdd(keys, PlainOf(kind, rows, items), e.key, e.value);
    }
  }

  lemma {:induction false} RemoveKeyMember(keys: seq<string>, k: string)
    ensures forall x :: x in RemoveKey(keys, k) <==> x in keys && x != k
  {
    if keys != [] {
      RemoveKeyMember(keys[1..], k);
      assert forall x :: x in keys <==> x == keys[0] || x in keys[1..];
    }
  }

  lemma {:induction false} PlainConcat(kind: string, rows: Rows, a: seq<Event>, b: seq<Event>)
    ensures PlainOf(kind, rows, a + b) == PlainOf(kind, PlainOf(kind, rows, a), b)
    ensures Txids(a + b) == Txids(a) + Txids(b)
  {
    if b == [] {
      assert a + b == a;
    } else {
      assert (a + b)[..|a + b| - 1] == a + b[..|b| - 1];
      PlainConcat(kind, rows, a, b[..|b| - 1]);
    }
  }

  lemma {:induction false} DeletesAreDeletes(kind: string, keys: seq<string>)
    ensures forall i :: 0 <= i < |Deletes(kind, keys)| ==>
      Deletes(kind, keys)[i].Change? && Deletes(kind, keys)[i].op == Delete
  {
    if keys != [] { DeletesAreDeletes(kind, keys[..|keys| - 1]); }
  }

  lemma {:induction false} DeletesRemove(kind: string, rows: Rows, keys: seq<string>, k: string)
    ensures k in PlainOf(kind, rows, Deletes(kind, keys)) <==> k in rows && k !in keys
    ensures Txids(Deletes(kind, keys)) == []
  {
    if keys != [] {
      var front, last := keys[..|keys| - 1], keys[|keys| - 1];
      DeletesRemove(kind, rows, front, k);
      assert k in keys <==> k in front || k == last;
      PlainSnoc(kind, rows, Deletes(kind, front), Change(kind, last, Delete, None, None));
    }
  }

  lemma {:induction false} DeletesClear(kind: string, rows: Rows, items: seq<Event>, keys: seq<string>)
    requires forall k :: k in keys <==> k in PlainOf(kind, rows, items)
    ensures PlainOf(kind, rows, items + Deletes(kind, keys)) == map[]
    ensures Txids(items + Deletes(kind, keys)) == Txids(items)
    ensures forall i :: 0 <= i < |Deletes(kind, keys)| ==>
      Deletes(kind, keys)[i].Change? && Deletes(kind, keys)[i].op == Delete
  {
    var d := Deletes(kind, keys);
    var now := PlainOf(kind, rows, items);
    PlainConcat(kind, rows, items, d);
    DeletesAreDeletes(kind, keys);
    forall k ensures k !in PlainOf(kind, now, d) { DeletesRemove(kind, now, keys, k); }
    DeletesRemove(kind, now, keys, "");
  }

  /** The event is about the key of the collection, or clears it. */
  predicate Concerns(kind: string, e: Event, k: string) {
    (e.Control? && e.reset) || (e.Change? && e.kind == kind && e.key == k)
  }

  /** Event `i` leaves a row at the key, and nothing after it concerns the key. */
  ghost predicate LastWord(kind: string, es: seq<Event>, k: string, i: int) {
    && 0 <= i < |es| && es[i].Change? && es[i].kind == kind && es[i].key == k
    && es[i].op != Delete && !(es[i].op == Upsert && es[i].value == Some(Gone))
    && forall j :: i < j < |es| ==> !Concerns(kind, es[j], k)
  }

  /** What a stream means from nothing: each key has the value of its last change, unless that removed it. */
  lemma {:induction false} MeaningIsLastWord(kind: string, es: seq<Event>, k: string)
    ensures var rows := MeaningOf(kind, map[], es);
      && (k in rows <==> exists i :: LastWord(kind, es, k, i))
      && (forall i :: LastWord(kind, es, k, i) ==> k in rows && rows[k] == es[i].value)
  {
    if es != [] {
      var n := |es| - 1;
      var front := es[..n];
      MeaningIsLastWord(kind, front, k);
      forall i | 0 <= i < n ensures LastWord(kind, es, k, i) <==> LastWord(kind, front, k, i) && !Concerns(kind, es[n], k) {
        assert forall j :: 0 <= j < n ==> front[j] == es[j];
      }
      if i :| LastWord(kind, front, k, i) { assert Concerns(kind, es[n], k) || LastWord(kind, es, k, i); }
      assert LastWord(kind, es, k, n) || !LastWord(kind, es, k, n);
    }
  }

  // ---- Many batches --------------------------------------------------------------------------------

  /** Batches rewritten one after the other over one replica. */
  method RewriteAll(rewriter: ResetBatch, batches: seq<seq<Event>>) returns (items: seq<Event>)
    requires rewriter.keys == []
    modifies rewriter
    ensures PlainOf(rewriter.kind, map[], items) == MeaningOf(rewriter.kind, map[], Flatten(batches))
    ensures forall k :: k in rewriter.keys <==> k in MeaningOf(rewriter.kind, map[], Flatten(batches))
    ensures Txids(items) == Txids(Flatten(batches))
  {
    items := [];
    for i := 0 to |batches|
      invariant PlainOf(rewriter.kind, map[], items) == MeaningOf(rewriter.kind, map[], Flatten(batches[..i]))
      invariant forall k :: k in rewriter.keys <==> k in MeaningOf(rewriter.kind, map[], Flatten(batches[..i]))
      invariant Txids(items) == Txids(Flatten(batches[..i]))
    {
      ghost var rows := MeaningOf(rewriter.kind, map[], Flatten(batches[..i]));
      var rewritten, _ := rewriter.Rewrite(batches[i], rows);
      PlainConcat(rewriter.kind, map[], items, rewritten);
      items := items + rewritten;
      assert batches[..i] + [batches[i]] == batches[..i + 1];
      FlattenSnoc(batches[..i], batches[i]);
      MeaningConcat(rewriter.kind, map[], Flatten(batches[..i]), batches[i]);
    }
    assert batches[..|batches|] == batches;
  }

  lemma {:induction false} MeaningConcat(kind: string, rows: Rows, a: seq<Event>, b: seq<Event>)
    ensures MeaningOf(kind, rows, a + b) == MeaningOf(kind, MeaningOf(kind, rows, a), b)
    ensures Txids(a + b) == Txids(a) + Txids(b)
  {
    if b == [] {
      assert a + b == a;
    } else {
      assert (a + b)[..|a + b| - 1] == a + b[..|b| - 1];
      MeaningConcat(kind, rows, a, b[..|b| - 1]);
    }
  }
}
