/** One subscription of a partition: catch-up reads hand over to live fan-out while publishers keep
    appending (Publish, Subscribe and pump in broker/internal/broker/broker.go). Every lock-protected
    or channel operation is one step; steps of publishers and of the pump interleave freely. */
module Subscription {
  import opened Seqs
  import opened Records
  import opened LogSpec
  import opened Replay

  const CATCH_UP_BATCH := 256

  datatype Phase = Unsubscribed | CatchUp | Live | Stopped

  /** `past` is what the partition holds below some offset, with whatever holes compaction left, and
      `log` what it holds from there on. `sending` is the record a publisher has appended and, still holding the partition lock, has
      not yet sent to this subscriber. `pending` is what is left of the batch being delivered; the
      cursor already stands past it. */
  datatype State = State(past: seq<Record>, log: seq<Record>, sending: seq<Record>, phase: Phase, from: int, hw: int, cursor: int,
                         queue: seq<Record>, pending: seq<Record>, out: seq<Record>) {
    function Partition(): seq<Record> { past + log }
  }

  datatype Step =
    | PublishAppend(r: Record)
    | PublishSend
    | Subscribe(from: int)
    | PumpRead
    | PumpDeliver
    | PumpGoLive
    | PumpReceive
    | PumpStop

  function Registered(s: State): bool { s.phase == CatchUp || s.phase == Live }

  predicate Enabled(s: State, step: Step) {
    match step
    case PublishAppend(_) => s.sending == []
    case PublishSend => s.sending != []
    case Subscribe(_) => s.phase == Unsubscribed && s.sending == []
    case PumpRead => s.phase == CatchUp && s.pending == [] && s.cursor < s.hw
    case PumpDeliver => s.phase == CatchUp && s.pending != []
    case PumpGoLive => s.phase == CatchUp && s.pending == [] && s.cursor >= s.hw
    case PumpReceive => s.phase == Live && s.queue != []
    case PumpStop => Registered(s)
  }

  /** `log` starts at offset `lo`; the store assigns the next offset. */
  function Next(s: State, step: Step, lo: int): State
    requires Enabled(s, step)
  {
    match step
    case PublishAppend(r) =>
      var stamped := r.(offset := lo + |s.log|);
      s.(log := s.log + [stamped], sending := if Registered(s) then [stamped] else [])
    case PublishSend =>
      s.(queue := if Registered(s) then s.queue + s.sending else s.queue, sending := [])
    case Subscribe(from) =>
      s.(phase := CatchUp, from := from, hw := lo + |s.log|, cursor := from)
    case PumpRead =>
      var batch := if s.cursor < 0 then [] else NaiveRead(s.Partition(), s.cursor, CATCH_UP_BATCH);
      if batch == [] then s.(phase := Stopped) else s.(pending := batch, cursor := s.cursor + |batch|)
    case PumpDeliver => s.(out := s.out + [s.pending[0]], pending := s.pending[1..])
    case PumpGoLive => s.(phase := Live)
    case PumpReceive =>
      var r := s.queue[0];
      if r.offset < s.cursor then s.(queue := s.queue[1..])
      else s.(queue := s.queue[1..], out := s.out + [r], cursor := r.offset + 1)
    case PumpStop => s.(phase := Stopped, pending := [])
  }

  function Initial(past: seq<Record>, log: seq<Record>): State { State(past, log, [], Unsubscribed, 0, 0, 0, [], [], []) }

  ghost predicate Gapless(log: seq<Record>, lo: int) { forall i :: 0 <= i < |log| ==> log[i].offset == lo + i }

  function Clamp(n: int, bound: nat): nat { if n < 0 then 0 else if n > bound then bound else n }

  /** The records of a gapless log with offsets in [a, b). */
  function Slice(log: seq<Record>, lo: int, a: int, b: int): seq<Record> {
    var i, j := Clamp(a - lo, |log|), Clamp(b - lo, |log|);
    if i <= j then log[i..j] else []
  }

  /** The offset of the next record the subscriber's channel will hand out. */
  function QueueHead(s: State, lo: int): int { lo + |s.log| - |s.sending| - |s.queue| }

  /** What has been delivered, and is about to be from the current batch, is the log from `from` to
      the cursor. */
  ghost predicate OutInv(s: State, lo: int) {
    && lo <= s.from <= s.cursor && (s.cursor > s.from ==> s.cursor <= lo + |s.log|)
    && s.out + s.pending == Slice(s.log, lo, s.from, s.cursor)
  }

  /** The channel holds a contiguous piece of the log that ends where fan-out stands and starts at
      the high water seen at registration, and, once live, no later than the cursor. */
  ghost predicate QueueInv(s: State, lo: int) {
    var head := QueueHead(s, lo);
    && lo <= head && s.queue == Slice(s.log, lo, head, head + |s.queue|)
    && (s.phase == CatchUp ==> head == s.hw)
    && (s.phase == Live ==> head <= s.cursor && s.pending == [])
  }

  ghost predicate SendingInv(s: State) {
    |s.sending| <= 1 && (s.sending != [] ==> |s.log| > 0 && s.sending[0] == s.log[|s.log| - 1])
  }

  ghost predicate Delivered(log: seq<Record>, lo: int, from: int, out: seq<Record>) {
    exists n :: from <= n && out == Slice(log, lo, from, n)
  }

  ghost predicate Inv(s: State, lo: int) {
    && AllBefore(s.past, lo) && Gapless(s.log, lo) && SendingInv(s)
    && match s.phase
       case Unsubscribed => s.out == [] && s.pending == [] && s.queue == [] && s.sending == []
       case CatchUp => OutInv(s, lo) && QueueInv(s, lo)
       case Live => OutInv(s, lo) && QueueInv(s, lo)
       case Stopped => s.pending == [] && lo <= s.from && Delivered(s.log, lo, s.from, s.out)
  }

  /** A subscriber asks for an offset from which on the partition has no hole. */
  predicate Allowed(step: Step, lo: int) { step.Subscribe? ==> lo <= step.from }

  lemma SliceStable(log: seq<Record>, lo: int, a: int, b: int, r: Record)
    requires b <= lo + |log| || b <= a
    ensures Slice(log + [r], lo, a, b) == Slice(log, lo, a, b)
  {}

  /** What a stopped pump delivered stays a slice of the growing log. */
  lemma DeliveredStable(log: seq<Record>, lo: int, from: int, out: seq<Record>, r: Record)
    requires Delivered(log, lo, from, out)
    ensures Delivered(log + [r], lo, from, out)
  {
    var n :| from <= n && out == Slice(log, lo, from, n);
    var end := lo + |log|;
    var n' := if n <= end then n else if from <= end then end else from;
    assert Slice(log, lo, from, n') == Slice(log, lo, from, n);
    SliceStable(log, lo, from, n', r);
  }

  lemma PublishAppendKeeps(s: State, r: Record, lo: int)
    requires Inv(s, lo) && Enabled(s, PublishAppend(r))
    ensures Inv(Next(s, PublishAppend(r), lo), lo)
  {
    hide Slice, Delivered;
    var stamped := r.(offset := lo + |s.log|);
    if Registered(s) {
      SliceStable(s.log, lo, s.from, s.cursor, stamped);
      SliceStable(s.log, lo, QueueHead(s, lo), QueueHead(s, lo) + |s.queue|, stamped);
    } else if s.phase == Stopped {
      DeliveredStable(s.log, lo, s.from, s.out, stamped);
    }
  }

  lemma SliceSnoc(log: seq<Record>, lo: int, a: int, b: int)
    requires lo <= a <= b < lo + |log|
    ensures Slice(log, lo, a, b + 1) == Slice(log, lo, a, b) + [log[b - lo]]
  {}

  lemma PublishSendKeeps(s: State, lo: int)
    requires Inv(s, lo) && Enabled(s, PublishSend)
    ensures Inv(Next(s, PublishSend, lo), lo)
  {
    hide Slice, Delivered;
    if Registered(s) {
      var head := QueueHead(s, lo);
      SliceSnoc(s.log, lo, head, head + |s.queue|);
    }
  }

  lemma SliceNone(log: seq<Record>, lo: int, a: int)
    ensures Slice(log, lo, a, a) == []
  {}

  lemma SubscribeKeeps(s: State, from: int, lo: int)
    requires Inv(s, lo) && Enabled(s, Subscribe(from)) && lo <= from
    ensures Inv(Next(s, Subscribe(from), lo), lo)
  {
    hide Slice, Delivered;
    SliceNone(s.log, lo, from);
    SliceNone(s.log, lo, lo + |s.log|);
  }

  lemma ReadIsSlice(log: seq<Record>, lo: int, from: int, max: nat)
    requires Gapless(log, lo) && lo <= from < lo + |log| && max > 0
    ensures var batch := NaiveRead(log, from, max);
            batch != [] && from + |batch| <= lo + |log| && batch == Slice(log, lo, from, from + |batch|)
  {
    AtOrAfterCut(log, from - lo, from);
  }

  /** What lies below `lo` is out of sight of a read from `lo` on. */
  lemma PastIsSkipped(past: seq<Record>, log: seq<Record>, from: int, max: int)
    requires AllBefore(past, from)
    ensures NaiveRead(past + log, from, max) == NaiveRead(log, from, max) && AtOrAfter(past + log, from) == AtOrAfter(log, from)
  {
    AtOrAfterConcat(past, log, from);
    AtOrAfterNone(past, from);
    assert [] + AtOrAfter(log, from) == AtOrAfter(log, from);
  }

  lemma SliceJoin(log: seq<Record>, lo: int, a: int, b: int, c: int)
    requires lo <= a <= b <= c
    ensures Slice(log, lo, a, b) + Slice(log, lo, b, c) == Slice(log, lo, a, c)
  {}

  /** A catch-up read continues the delivered slice, also when it runs past the high water captured
      at registration. The cursor is below that high water, so the read finds something. */
  lemma PumpReadKeeps(s: State, lo: int)
    requires Inv(s, lo) && Enabled(s, PumpRead) && lo >= 0
    ensures Inv(Next(s, PumpRead, lo), lo) && Next(s, PumpRead, lo).phase == CatchUp
  {
    hide Slice, Delivered, NaiveRead, Gapless;
    PastIsSkipped(s.past, s.log, s.cursor, CATCH_UP_BATCH);
    ReadIsSlice(s.log, lo, s.cursor, CATCH_UP_BATCH);
    var batch := NaiveRead(s.log, s.cursor, CATCH_UP_BATCH);
    SliceJoin(s.log, lo, s.from, s.cursor, s.cursor + |batch|);
    assert s.out + [] == s.out;
  }

  lemma PumpDeliverKeeps(s: State, lo: int)
    requires Inv(s, lo) && Enabled(s, PumpDeliver)
    ensures Inv(Next(s, PumpDeliver, lo), lo)
  {
    hide Slice, Delivered, Gapless;
    assert s.out + s.pending == s.out + [s.pending[0]] + s.pending[1..];
  }

  lemma SliceTail(log: seq<Record>, lo: int, a: int, n: nat)
    requires n > 0 && lo <= a && a + n <= lo + |log|
    ensures |Slice(log, lo, a, a + n)| == n && Slice(log, lo, a, a + n)[0] == log[a - lo]
    ensures Slice(log, lo, a, a + n)[1..] == Slice(log, lo, a + 1, a + n)
  {}

  /** Handover: the channel's next record is at or below the cursor, so it is either a duplicate of
      something catch-up already delivered, and dropped, or exactly the next one. */
  lemma PumpReceiveKeeps(s: State, lo: int)
    requires Inv(s, lo) && Enabled(s, PumpReceive)
    ensures Inv(Next(s, PumpReceive, lo), lo)
  {
    hide Slice, Delivered;
    var head := QueueHead(s, lo);
    SliceTail(s.log, lo, head, |s.queue|);
    assert s.queue[0].offset == head;
    if head >= s.cursor {
      SliceSnoc(s.log, lo, s.from, s.cursor);
    }
  }

  lemma PumpStopKeeps(s: State, lo: int)
    requires Inv(s, lo) && Registered(s)
    ensures Inv(Next(s, PumpStop, lo), lo)
  {
    PrefixDelivered(s.log, lo, s.from, s.cursor, s.out, s.pending);
    hide Slice, Delivered, Gapless;
  }

  lemma PrefixDelivered(log: seq<Record>, lo: int, from: int, to: int, out: seq<Record>, rest: seq<Record>)
    requires lo <= from <= to && out + rest == Slice(log, lo, from, to)
    ensures Delivered(log, lo, from, out)
  {
    var n := from + |out|;
    assert out == (out + rest)[..|out|];
    assert out == Slice(log, lo, from, n);
  }

  lemma StepKeeps(s: State, step: Step, lo: int)
    requires Inv(s, lo) && Enabled(s, step) && Allowed(step, lo) && lo >= 0
    ensures Inv(Next(s, step, lo), lo)
  {
    hide Inv, Next;
    match step
    case PublishAppend(r) => PublishAppendKeeps(s, r, lo);
    case PublishSend => PublishSendKeeps(s, lo);
    case Subscribe(from) => SubscribeKeeps(s, from, lo);
    case PumpRead => PumpReadKeeps(s, lo);
    case PumpDeliver => PumpDeliverKeeps(s, lo);
    case PumpGoLive => PumpGoLiveKeeps(s, lo);
    case PumpReceive => PumpReceiveKeeps(s, lo);
    case PumpStop => PumpStopKeeps(s, lo);
  }

  lemma PumpGoLiveKeeps(s: State, lo: int)
    requires Inv(s, lo) && Enabled(s, PumpGoLive)
    ensures Inv(Next(s, PumpGoLive, lo), lo)
  {
    hide Slice, Delivered, Gapless;
  }

  // ----- Whole runs -----

  ghost predicate Execution(s: State, steps: seq<Step>, lo: int, s': State)
    decreases |steps|
  {
    if steps == [] then s' == s else
      Enabled(s, steps[0]) && Allowed(steps[0], lo) && Execution(Next(s, steps[0], lo), steps[1..], lo, s')
  }

  lemma {:induction false} ExecutionKeeps(s: State, steps: seq<Step>, lo: int, s': State)
    requires Inv(s, lo) && Execution(s, steps, lo, s') && lo >= 0
    ensures Inv(s', lo)
    decreases |steps|
  {
    hide Inv, Next;
    if steps != [] {
      StepKeeps(s, steps[0], lo);
      ExecutionKeeps(Next(s, steps[0], lo), steps[1..], lo, s');
    }
  }

  /** Exactly-once delivery, for a partition without holes from the subscribed offset on: after any
      interleaving, the output is the log from `from` on, in order, without a gap and without a
      duplicate, up to some point; and it is everything the partition holds from `from` on whenever
      the pump is live with nothing left in flight. */
  lemma ExactlyOnce(past: seq<Record>, log: seq<Record>, steps: seq<Step>, lo: nat, s: State)
    requires AllBefore(past, lo) && Gapless(log, lo) && Execution(Initial(past, log), steps, lo, s) && s.phase != Unsubscribed
    ensures forall i :: 0 <= i < |s.out| ==> s.out[i].offset == s.from + i && 0 <= s.from + i - lo < |s.log| && s.out[i] == s.log[s.from + i - lo]
    ensures s.phase == Live && s.queue == [] && s.sending == [] ==> s.out == AtOrAfter(s.Partition(), s.from)
  {
    hide Inv, Next, Execution, Gapless, Delivered, Slice, AtOrAfter, Initial;
    InitialInv(past, log, lo);
    ExecutionKeeps(Initial(past, log), steps, lo, s);
    DeliveredInv(s, lo);
    DeliveredIsSlice(s.log, lo, s.from, s.out);
    if s.phase == Live && s.queue == [] && s.sending == [] { QuiescentComplete(s, lo); }
  }

  lemma InitialInv(past: seq<Record>, log: seq<Record>, lo: int)
    requires AllBefore(past, lo) && Gapless(log, lo)
    ensures Inv(Initial(past, log), lo)
  {}

  lemma DeliveredInv(s: State, lo: int)
    requires Inv(s, lo) && s.phase != Unsubscribed
    ensures Gapless(s.log, lo) && lo <= s.from && Delivered(s.log, lo, s.from, s.out)
  {
    hide Slice, Delivered, Gapless;
    if Registered(s) { PrefixDelivered(s.log, lo, s.from, s.cursor, s.out, s.pending); }
  }

  lemma DeliveredIsSlice(log: seq<Record>, lo: int, from: int, out: seq<Record>)
    requires Gapless(log, lo) && Delivered(log, lo, from, out) && lo <= from
    ensures forall i :: 0 <= i < |out| ==> out[i].offset == from + i && 0 <= from + i - lo < |log| && out[i] == log[from + i - lo]
  {}

  /** Nothing in the channel and no publisher between append and send: the cursor has reached the
      end of the log, or the subscriber is waiting for an offset not yet written. */
  lemma QuiescentComplete(s: State, lo: int)
    requires Inv(s, lo) && s.phase == Live && s.queue == [] && s.sending == []
    ensures s.out == AtOrAfter(s.Partition(), s.from)
  {
    PastIsSkipped(s.past, s.log, s.from, 0);
    assert s.out + [] == s.out;
    var k := Clamp(s.from - lo, |s.log|);
    assert Slice(s.log, lo, s.from, s.cursor) == s.log[k..];
    hide Slice;
    AtOrAfterCut(s.log, k, s.from);
  }

  // ----- Why the partition must be gapless -----

  datatype CaughtUp = CaughtUp(delivered: seq<Record>, live: bool)

  /** The catch-up loop of pump on a log that does not change meanwhile: the cursor advances by the
      number of records read, and an empty read ends the subscription. */
  function CatchUpFrom(log: seq<Record>, cursor: int, hw: int): (c: CaughtUp)
    decreases hw - cursor
  {
    if cursor >= hw then CaughtUp([], true) else
      var batch := NaiveRead(log, cursor, CATCH_UP_BATCH);
      if batch == [] then CaughtUp([], false) else
        var more := CatchUpFrom(log, cursor + |batch|, hw);
        CaughtUp(batch + more.delivered, more.live)
  }

  /** The loop itself. */
  method CatchUpLoop(log: seq<Record>, from: int, hw: int) returns (delivered: seq<Record>, live: bool)
    ensures CaughtUp(delivered, live) == CatchUpFrom(log, from, hw)
  {
    hide NaiveRead;
    delivered := [];
    var cursor := from;
    while cursor < hw
      invariant var more := CatchUpFrom(log, cursor, hw);
                CaughtUp(delivered + more.delivered, more.live) == CatchUpFrom(log, from, hw)
      decreases hw - cursor
    {
      var batch := NaiveRead(log, cursor, CATCH_UP_BATCH);
      if batch == [] {
        assert delivered + [] == delivered;
        return delivered, false;
      }
      Assoc(delivered, batch, CatchUpFrom(log, cursor + |batch|, hw).delivered);
      delivered := delivered + batch;
      cursor := cursor + |batch|;
    }
    assert delivered + [] == delivered;
    live := true;
  }

  ghost predicate Has(log: seq<Record>, o: int) { exists i :: 0 <= i < |log| && log[i].offset == o }

  /** Every offset between `from` and the high water is there. */
  ghost predicate NoHoles(log: seq<Record>, from: int, hw: int) { forall o :: from <= o < hw ==> Has(log, o) }

  lemma {:induction false} LiveCountsUp(log: seq<Record>, cursor: int, hw: int)
    requires CatchUpFrom(log, cursor, hw).live
    ensures |CatchUpFrom(log, cursor, hw).delivered| >= hw - cursor
    decreases hw - cursor
  {
    hide NaiveRead;
    if cursor < hw {
      var batch := NaiveRead(log, cursor, CATCH_UP_BATCH);
      LiveCountsUp(log, cursor + |batch|, hw);
    }
  }

  /** Increasing offsets in [from, hw) that are at least hw - from many are all of them. */
  lemma {:induction false} FullRange(rs: seq<Record>, from: int, hw: int)
    requires Increasing(rs) && NoneBefore(rs, from) && AllBefore(rs, hw) && |rs| >= hw - from && from <= hw
    ensures |rs| == hw - from && forall i :: 0 <= i < |rs| ==> rs[i].offset == from + i
    decreases |rs|
  {
    if rs != [] {
      var init, last := rs[..|rs| - 1], rs[|rs| - 1];
      if |init| >= last.offset - from {
        FullRange(init, from, last.offset);
      } else {
        InitLong(rs, from, hw);
      }
    }
  }

  lemma {:induction false} InitLong(rs: seq<Record>, from: int, hw: int)
    requires Increasing(rs) && NoneBefore(rs, from) && AllBefore(rs, hw) && rs != [] && |rs| >= hw - from
    ensures |rs| - 1 >= rs[|rs| - 1].offset - from
  {}

  lemma HolesFree(log: seq<Record>, from: int, hw: int)
    requires Increasing(log) && AllBefore(log, hw) && from <= hw
    ensures NoHoles(log, from, hw) <==> |AtOrAfter(log, from)| == hw - from
  {
    var rs := AtOrAfter(log, from);
    FilterMembers(NotBefore(from), log);
    FilterIncreasing(NotBefore(from), log);
    forall i | 0 <= i < |rs| ensures from <= rs[i].offset < hw { assert rs[i] in log; }
    hide AtOrAfter;
    if |rs| == hw - from {
      FullRange(rs, from, hw);
      forall o | from <= o < hw ensures Has(log, o) { assert rs[o - from] in log; }
    } else if NoHoles(log, from, hw) {
      forall o | from <= o < hw ensures Has(rs, o) {
        assert Has(log, o);
        var i :| 0 <= i < |log| && log[i].offset == o;
        assert log[i] in rs;
      }
      PresentMeansMany(rs, from, hw);
      FullRange(rs, from, hw);
      assert false;
    }
  }

  lemma {:induction false} PresentMeansMany(rs: seq<Record>, from: int, hw: int)
    requires Increasing(rs) && from <= hw && NoHoles(rs, from, hw)
    ensures |rs| >= hw - from
    decreases hw - from
  {
    if from < hw {
      assert Has(rs, hw - 1);
      var i :| 0 <= i < |rs| && rs[i].offset == hw - 1;
      forall o | from <= o < hw - 1 ensures Has(rs[..i], o) {
        assert Has(rs, o);
        var k :| 0 <= k < |rs| && rs[k].offset == o;
        assert rs[..i][k].offset == o;
      }
      PresentMeansMany(rs[..i], from, hw - 1);
    }
  }

  lemma {:induction false} GaplessCatchUp(log: seq<Record>, from: int, hw: int, cursor: int)
    requires Increasing(log) && AllBefore(log, hw) && from <= cursor <= hw
    requires |AtOrAfter(log, from)| == hw - from && forall i :: 0 <= i < hw - from ==> AtOrAfter(log, from)[i].offset == from + i
    ensures CatchUpFrom(log, cursor, hw) == CaughtUp(AtOrAfter(log, cursor), true)
    decreases hw - cursor
  {
    if cursor < hw {
      SuffixOfSuffix(log, from, cursor);
      var rs := AtOrAfter(log, cursor);
      assert rs[0] == AtOrAfter(log, from)[cursor - from];
      var batch := NaiveRead(log, cursor, CATCH_UP_BATCH);
      ReadThenRest(log, cursor, CATCH_UP_BATCH);
      assert batch[|batch| - 1].offset + 1 == cursor + |batch|;
      GaplessCatchUp(log, from, hw, cursor + |batch|);
    } else {
      AtOrAfterNone(log, cursor);
    }
  }

  lemma SuffixOfSuffix(log: seq<Record>, from: int, cursor: int)
    requires Increasing(log) && from <= cursor
    requires forall i :: 0 <= i < |AtOrAfter(log, from)| ==> AtOrAfter(log, from)[i].offset == from + i
    requires cursor - from <= |AtOrAfter(log, from)|
    ensures AtOrAfter(log, cursor) == AtOrAfter(log, from)[cursor - from..]
  {
    var n := FirstAtOrAfter(log, from, 0);
    AtOrAfterCut(log, n, from);
    AtOrAfterCut(log, n + cursor - from, cursor);
  }

  /** Catch-up delivers every record from `from` on exactly once and then goes live if and only if
      the partition has no hole between `from` and its high water. */
  lemma CatchUpIff(log: seq<Record>, from: int, hw: int)
    requires Increasing(log) && AllBefore(log, hw) && from <= hw
    ensures CatchUpFrom(log, from, hw) == CaughtUp(AtOrAfter(log, from), true) <==> NoHoles(log, from, hw)
  {
    HolesFree(log, from, hw);
    var rs := AtOrAfter(log, from);
    BoundedSuffix(log, from, hw);
    hide AtOrAfter, NoHoles;
    if CatchUpFrom(log, from, hw) == CaughtUp(rs, true) {
      LiveCountsUp(log, from, hw);
      FullRange(rs, from, hw);
    } else if NoHoles(log, from, hw) {
      FullRange(rs, from, hw);
      GaplessCatchUp(log, from, hw, from);
      assert false;
    }
  }

  lemma BoundedSuffix(log: seq<Record>, from: int, hw: int)
    requires Increasing(log) && AllBefore(log, hw)
    ensures Increasing(AtOrAfter(log, from)) && NoneBefore(AtOrAfter(log, from), from)
         && AllBefore(AtOrAfter(log, from), hw)
  {
    FilterMembers(NotBefore(from), log);
    FilterIncreasing(NotBefore(from), log);
    var rs := AtOrAfter(log, from);
    forall i | 0 <= i < |rs| ensures from <= rs[i].offset < hw { assert rs[i] in log; }
  }

  /** A hole in the middle makes the cursor fall behind, and a record comes twice. */
  lemma HoleRepeats(a: Record, b: Record, from: int, hw: int)
    requires a.offset == from && b.offset == from + 2 && hw == from + 3
    ensures CatchUpFrom([a, b], from, hw) == CaughtUp([a, b, b], true)
  {
    var log := [a, b];
    assert log[0..] == log && log[1..] == [b] && [a, b] + ([b] + []) == [a, b, b];
    AtOrAfterCut(log, 0, from);
    AtOrAfterCut(log, 1, from + 2);
    hide AtOrAfter;
    assert NaiveRead(log, from, CATCH_UP_BATCH) == log && NaiveRead(log, from + 2, CATCH_UP_BATCH) == [b];
    assert CatchUpFrom(log, from + 3, hw) == CaughtUp([], true);
    assert CatchUpFrom(log, from + 2, hw) == CaughtUp([b] + [], true);
  }

  /** A hole at the end, such as a compacted tombstone leaves, stops the subscription. */
  lemma HoleAtEndStops(a: Record, from: int, hw: int)
    requires a.offset == from && hw == from + 2
    ensures CatchUpFrom([a], from, hw) == CaughtUp([a], false)
  {
    var log := [a];
    assert log[0..] == log && log[1..] == [] && [a] + [] == [a];
    AtOrAfterCut(log, 0, from);
    AtOrAfterCut(log, 1, from + 1);
    hide AtOrAfter;
  }
}
