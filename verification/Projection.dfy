/** Paged reads, the fold to the tail and the replay of a pinned range (packages/projection/src). */
module Projection {
  import opened Common

  /** One page of the stream engine: the entries after an offset. */
  datatype Page<E> = Page(messages: seq<E>, nextOffset: nat, upToDate: bool)

  datatype Slice<E> = Slice(from: nat, items: seq<E>, nextOffset: nat, upToDate: bool, closed: bool, gone: bool)

  datatype PinnedRange = PinnedRange(
    from: nat, nextOffset: nat, count: nat, upToDate: Option<bool>, closed: bool, gone: bool)

  datatype Fault = HistoryUnavailable | InvalidSource | RangeUnreproducible

  /**
   * An append-only stream. An offset is a number of entries. Other writers append between
   * calls, and the engine cuts pages where it likes.
   */
  class Stream<E> {
    var log: seq<E>

    constructor ()
      ensures log == []
    {
      log := [];
    }

    /** Entries that other writers append in the meantime. */
    method Others()
      modifies this
      ensures old(log) <= log
    {
      var more: seq<E> := *;
      log := log + more;
    }

    /** A contiguous page that is empty only at the tail. */
    method Read(from: nat) returns (page: Page<E>)
      requires from <= |log|
      ensures from <= page.nextOffset <= |log|
      ensures page.messages == log[from..page.nextOffset]
      ensures page.nextOffset == from <==> from == |log|
      ensures page.upToDate <==> page.nextOffset == |log|
    {
      if from == |log| { return Page([], from, true); }
      var next: nat :| from < next <= |log|;
      page := Page(log[from..next], next, next == |log|);
    }

    /** An append with `expectedOffset` lands exactly when that is the tail. */
    method Append(expected: nat, items: seq<E>) returns (landed: bool)
      modifies this
      ensures landed <==> expected == |old(log)|
      ensures log == if landed then old(log) + items else old(log)
    {
      landed := expected == |log|;
      if landed { log := log + items; }
    }
  }

  /** `readSlice`: what a read result must look like to be used. */
  function CheckPage<E>(from: nat, page: Page<E>): Result<Slice<E>, Fault> {
    if page.nextOffset < from || (page.messages == [] && page.nextOffset != from) then Err(HistoryUnavailable)
    else if page.nextOffset == from && (page.messages != [] || !page.upToDate) then Err(InvalidSource)
    else Ok(Slice(from, page.messages, page.nextOffset, page.upToDate, false, false))
  }

  /** A page passes exactly when it moves on with entries or stands still at the tail without any. */
  lemma {:induction false} PageUsable<E>(from: nat, page: Page<E>)
    ensures CheckPage(from, page).Ok?
       <==> ((page.messages != [] && page.nextOffset > from)
             || (page.messages == [] && page.nextOffset == from && page.upToDate))
    ensures CheckPage(from, page) == Err(HistoryUnavailable)
       <==> page.nextOffset < from || (page.messages == [] && page.nextOffset > from)
    ensures CheckPage(from, page) == Err(InvalidSource)
       <==> page.nextOffset == from && (page.messages != [] || !page.upToDate)
    ensures CheckPage(from, page).Ok? ==>
      CheckPage(from, page).value == Slice(from, page.messages, page.nextOffset, page.upToDate, false, false)
  {
  }

  // ---- current --------------------------------------------------------------------------------

  /**
   * `current` for one input. `growth` bounds how many reads other writers may slip in before.
   * The result is the fold of the whole log at its last read, wherever pages were cut.
   */
  method Current<S, E>(stream: Stream<E>, step: (S, E) -> S, ghost init: S, accepted: nat, saved: S, growth: nat)
    returns (state: S, offset: nat)
    requires accepted <= |stream.log|
    requires saved == Fold(init, step, stream.log[..accepted])
    modifies stream
    ensures old(stream.log) <= stream.log
    ensures offset == |stream.log|
    ensures state == Fold(init, step, stream.log)
  {
    state, offset := saved, accepted;
    var left := growth;
    while true
      invariant old(stream.log) <= stream.log
      invariant offset <= |stream.log|
      invariant state == Fold(init, step, stream.log[..offset])
      decreases left, |stream.log| - offset
    {
      ghost var before := stream.log;
      if left > 0 {
        stream.Others();
        left := left - 1;
      }
      assert stream.log[..offset] == before[..offset];
      var page := stream.Read(offset);
      if page.messages == [] {
        assert stream.log[..offset] == stream.log;
        return;
      }
      FoldConcat(init, step, stream.log[..offset], page.messages);
      assert stream.log[..offset] + page.messages == stream.log[..page.nextOffset];
      state := Fold(state, step, page.messages);
      offset := page.nextOffset;
    }
  }

  // ---- decide ------------------------------------------------------------------------------------

  datatype Decided = Decided(offset: nat, appended: bool) | LostRace

  /** One attempt: read to the tail, apply the rule, append. Nothing is answered when the append was overtaken. */
  method Attempt<S, E(==)>(
      stream: Stream<E>, step: (S, E) -> S, ghost init: S, accepted: nat, saved: S, growth: nat, rule: S -> seq<E>)
    returns (r: Option<Decided>, ghost seen: seq<E>)
    requires accepted <= |stream.log|
    requires saved == Fold(init, step, stream.log[..accepted])
    modifies stream
    ensures old(stream.log) <= seen <= stream.log
    ensures r.Some? ==> r.value.Decided? && r.value.appended == (rule(Fold(init, step, seen)) != [])
    ensures r.Some? ==> stream.log == seen + rule(Fold(init, step, seen)) && r.value.offset == |stream.log|
    ensures r.None? ==> |old(stream.log)| + 1 <= |stream.log|
  {
    var state, offset := Current(stream, step, init, accepted, saved, growth);
    seen := stream.log;
    var items := rule(state);
    if items == [] { return Some(Decided(offset, false)), seen; }
    stream.Others();
    var landed := stream.Append(offset, items);
    r := if landed then Some(Decided(offset + |items|, true)) else None;
  }

  /**
   * `decide` with `retries` retries, while others append at any time. `seen` is the log that the last
   * decision was made on: an append stands directly behind it, and it is the rule applied to the fold of
   * all of it. A lost race means that each of the `retries + 1` attempts was overtaken by an append.
   */
  method Decide<S, E(==)>(
      stream: Stream<E>, step: (S, E) -> S, ghost init: S, accepted: nat, saved: S, growth: nat, rule: S -> seq<E>, retries: nat)
    returns (r: Decided, ghost seen: seq<E>)
    requires accepted <= |stream.log|
    requires saved == Fold(init, step, stream.log[..accepted])
    modifies stream
    ensures old(stream.log) <= seen <= stream.log
    ensures r.Decided? && r.appended ==>
      && rule(Fold(init, step, seen)) != []
      && stream.log == seen + rule(Fold(init, step, seen)) && r.offset == |stream.log|
    ensures r.Decided? && !r.appended ==> rule(Fold(init, step, seen)) == [] && stream.log == seen && r.offset == |seen|
    ensures r.LostRace? ==> |old(stream.log)| + retries + 1 <= |stream.log|
  {
    seen := stream.log;
    for attempt := 0 to retries + 1
      invariant old(stream.log) <= seen <= stream.log && |old(stream.log)| + attempt <= |stream.log|
    {
      assert stream.log[..accepted] == old(stream.log)[..accepted];
      var answer: Option<Decided>;
      answer, seen := Attempt(stream, step, init, accepted, saved, growth, rule);
      if answer.Some? { return answer.value, seen; }
    }
    r := LostRace;
  }

  // ---- advance and rangesOf ---------------------------------------------------------------------

  /** `rangesOf`: the inputs that a unit moves or ends. */
  function RangesOf<E>(slices: map<string, Slice<E>>): map<string, Slice<E>> {
    map name | name in slices && (slices[name].items != [] || slices[name].closed || slices[name].gone) :: slices[name]
  }

  /** `advance` */
  function Advance<E>(inputs: map<string, nat>, ranges: map<string, Slice<E>>): map<string, nat> {
    map name | name in inputs :: if name in ranges then ranges[name].nextOffset else inputs[name]
  }

  /**
   * Leaving idle inputs out of a unit's ranges loses no progress: every read input is at its next offset, and
   * an input is left out exactly when it did not move and did not end.
   */
  lemma {:induction false} AdvanceReachesEveryRead<E>(inputs: map<string, nat>, slices: map<string, Slice<E>>, name: string)
    requires name in inputs && name in slices && slices[name].from == inputs[name]
    requires CheckPage(slices[name].from, Page(slices[name].items, slices[name].nextOffset, slices[name].upToDate)).Ok?
    ensures Advance(inputs, RangesOf(slices))[name] == slices[name].nextOffset
    ensures name !in RangesOf(slices) <==>
      slices[name].nextOffset == inputs[name] && !slices[name].closed && !slices[name].gone
  {
    PageUsable(slices[name].from, Page(slices[name].items, slices[name].nextOffset, slices[name].upToDate));
  }

  // ---- reproduce ----------------------------------------------------------------------------------

  /** What a pin records about one slice of a retained log. */
  ghost predicate PinOf<E>(log: seq<E>, range: PinnedRange, items: seq<E>) {
    && range.from + range.count == range.nextOffset <= |log|
    && items == log[range.from..range.nextOffset]
  }

  /**
   * `reproduce`: re-read a pinned range with other page cuts while the log grows. With the
   * pinned history retained it gives exactly the pinned items and end offset and no fault.
   */
  method Reproduce<E>(stream: Stream<E>, range: PinnedRange) returns (r: Result<Slice<E>, Fault>)
    requires range.from <= |stream.log|
    modifies stream
    ensures old(stream.log) <= stream.log
    ensures range.count == 0 ==>
      (r.Ok? <==> range.from == range.nextOffset && (range.closed || range.gone))
    ensures r.Ok? ==>
      && range.from + range.count <= |stream.log|
      && r.value.items == stream.log[range.from..range.from + range.count]
      && r.value.from == range.from && r.value.nextOffset == range.nextOffset && r.value.closed == range.closed
      && r.value.gone == (range.count == 0 && range.gone) && (range.count == 0 ==> r.value.upToDate)
    ensures r.Err? ==> r.error == RangeUnreproducible
    ensures r.Ok? && range.count > 0 && range.upToDate.Some? ==> r.value.upToDate == range.upToDate.value
    ensures forall items :: range.count > 0 && PinOf(old(stream.log), range, items) ==> r.Ok? && r.value.items == items
    ensures range.count > 0 && range.from + range.count == range.nextOffset && r.Err? ==>
      |old(stream.log)| < range.nextOffset
  {
    if range.count == 0 {
      if range.from != range.nextOffset || (!range.closed && !range.gone) { return Err(RangeUnreproducible); }
      return Ok(Slice(range.from, [], range.nextOffset, true, range.closed, range.gone));
    }
    var messages: seq<E> := [];
    var cursor := range.from;
    var lastUpToDate := false;
    while |messages| < range.count
      invariant old(stream.log) <= stream.log
      invariant range.from <= cursor <= |stream.log|
      invariant messages == stream.log[range.from..cursor]
      decreases range.count - |messages|
    {
      ghost var before := stream.log;
      stream.Others();
      assert stream.log[range.from..cursor] == before[range.from..cursor];
      var page := stream.Read(cursor);
      if page.messages == [] { return Err(RangeUnreproducible); }
      messages := messages + page.messages;
      assert messages == stream.log[range.from..page.nextOffset];
      cursor, lastUpToDate := page.nextOffset, page.upToDate;
      if page.upToDate && |messages| < range.count { return Err(RangeUnreproducible); }
    }
    if |messages| == range.count {
      if cursor != range.nextOffset { return Err(RangeUnreproducible); }
    } else {
      messages := messages[..range.count];
      if cursor < range.nextOffset { return Err(RangeUnreproducible); }
    }
    r := Ok(Slice(range.from, messages, range.nextOffset,
                  range.upToDate.GetOr(lastUpToDate && cursor == range.nextOffset), range.closed, false));
  }

  /**
   * A pinned unit is read once, the process stops, and the pin is replayed: the replay is the
   * first read, whatever was appended in between and however the pages fall.
   */
  method PinAndReplay<E(==)>(stream: Stream<E>, from: nat) returns (first: Slice<E>, second: Result<Slice<E>, Fault>)
    requires from < |stream.log|
    modifies stream
    ensures second.Ok? && second.value.items == first.items && second.value.nextOffset == first.nextOffset
    ensures first.items != [] && second.value.upToDate == first.upToDate
  {
    var page := stream.Read(from);
    var checked := CheckPage(from, page);
    PageUsable(from, page);
    first := checked.value;
    var pin := PinnedRange(from, first.nextOffset, |first.items|, Some(first.upToDate), first.closed, first.gone);
    assert PinOf(stream.log, pin, first.items);
    ghost var before := stream.log;
    stream.Others();
    assert stream.log[from..first.nextOffset] == before[from..first.nextOffset];
    assert PinOf(stream.log, pin, first.items);
    second := Reproduce(stream, pin);
  }
}
