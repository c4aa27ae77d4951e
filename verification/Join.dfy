/** The join pipeline's state and its loops (joinPipeline in streams/join.go). */
module Joins {
  import opened Bytes
  import opened Seqs
  import opened Records
  import opened JoinSpec

  method RemovePendingLoop(pending: seq<Buffered>, eventTime: int, offset: int) returns (res: seq<Buffered>)
    ensures res == RemovePending(pending, eventTime, offset)
  {
    hide RemovePending;
    for i := 0 to |pending|
      invariant forall k :: 0 <= k < i ==> pending[k].eventTime != eventTime || pending[k].record.offset != offset
    {
      if pending[i].eventTime == eventTime && pending[i].record.offset == offset {
        FirstRemoved(pending, eventTime, offset, i);
        return pending[..i] + pending[i + 1..];
      }
    }
    FirstRemoved(pending, eventTime, offset, |pending|);
    res := pending;
  }

  lemma {:induction false} FirstRemoved(pending: seq<Buffered>, eventTime: int, offset: int, i: nat)
    requires i <= |pending| && (i < |pending| ==> pending[i].eventTime == eventTime && pending[i].record.offset == offset)
    requires forall k :: 0 <= k < i ==> pending[k].eventTime != eventTime || pending[k].record.offset != offset
    ensures RemovePending(pending, eventTime, offset) == if i < |pending| then pending[..i] + pending[i + 1..] else pending
  {
    if i > 0 {
      FirstRemoved(pending[1..], eventTime, offset, i - 1);
      assert pending == [pending[0]] + pending[1..];
      if i < |pending| { assert [pending[0]] + (pending[1..][..i - 1] + pending[1..][i..]) == pending[..i] + pending[i + 1..]; }
    }
  }

  /** Removing a pending record by its event time and offset takes out that very record if and only
      if no earlier pending record shares them. */
  lemma RemovesItselfIff(pending: seq<Buffered>, k: nat)
    requires k < |pending| && Distinct(pending)
    ensures RemovePending(pending, pending[k].eventTime, pending[k].record.offset) == pending[..k] + pending[k + 1..] <==>
            forall i :: 0 <= i < k ==>
              pending[i].eventTime != pending[k].eventTime || pending[i].record.offset != pending[k].record.offset
  {
    hide RemovePending;
    var t, o := pending[k].eventTime, pending[k].record.offset;
    if forall i :: 0 <= i < k ==> pending[i].eventTime != t || pending[i].record.offset != o {
      FirstRemoved(pending, t, o, k);
    } else {
      var i := FirstWith(pending, t, o, k);
      FirstRemoved(pending, t, o, i);
      assert (pending[..i] + pending[i + 1..])[i] == pending[i + 1];
      assert (pending[..k] + pending[k + 1..])[i] == pending[i];
    }
  }

  lemma {:induction false} FirstWith(pending: seq<Buffered>, t: int, o: int, k: nat) returns (i: nat)
    requires k <= |pending| && exists j :: 0 <= j < k && pending[j].eventTime == t && pending[j].record.offset == o
    ensures i < k && pending[i].eventTime == t && pending[i].record.offset == o
    ensures forall j :: 0 <= j < i ==> pending[j].eventTime != t || pending[j].record.offset != o
  {
    if j :| 0 <= j < k - 1 && pending[j].eventTime == t && pending[j].record.offset == o {
      i := FirstWith(pending, t, o, k - 1);
    } else {
      i := k - 1;
    }
  }

  /** Keeps what is after the cutoff and emits the rest, in order. */
  method FlushSide(mode: Mode, s: Side, pending: seq<Buffered>, cutoff: int)
    returns (kept: seq<Buffered>, out: seq<Output>)
    ensures kept == Filter(After(cutoff), pending) && out == Alone(mode, s, Filter(NotAfter(cutoff), pending))
  {
    kept, out := [], [];
    for i := 0 to |pending|
      invariant kept == Filter(After(cutoff), pending[..i])
      invariant out == Alone(mode, s, Filter(NotAfter(cutoff), pending[..i]))
    {
      var p := pending[i];
      assert pending[..i + 1] == pending[..i] + [p];
      FilterSnoc(After(cutoff), pending[..i], p);
      FilterSnoc(NotAfter(cutoff), pending[..i], p);
      if p.eventTime > cutoff {
        kept := kept + [p];
        continue;
      }
      AloneSnoc(mode, s, Filter(NotAfter(cutoff), pending[..i]), p);
      if mode == FullOuter {
        out := out + [if s == Left then LeftOnly(p.record) else RightOnly(p.record)];
      } else if mode == LeftOuter && s == Left {
        out := out + [LeftOnly(p.record)];
      }
    }
    assert pending[..|pending|] == pending;
  }

  lemma AloneSnoc(mode: Mode, s: Side, ps: seq<Buffered>, p: Buffered)
    ensures Alone(mode, s, ps + [p]) ==
            Alone(mode, s, ps) + if Eligible(mode, s) then [if s == Left then LeftOnly(p.record) else RightOnly(p.record)] else []
  {
    var only := (b: Buffered) => if s == Left then LeftOnly(b.record) else RightOnly(b.record);
    MapAppend(only, ps, [p]);
    assert Map(only, [p]) == [only(p)];
  }

  /** Drops the entries below the cutoff from every key, and the keys left without entries. */
  method PruneLoop(buf: Buffer, cutoff: int) returns (res: Buffer)
    ensures res == Prune(buf, cutoff)
  {
    hide Filter;
    res := buf;
    var todo := buf.Keys;
    while todo != {}
      invariant todo <= buf.Keys
      invariant forall k :: k in res <==> k in buf && (k in todo || Filter(AtLeast(cutoff), buf[k]) != [])
      invariant forall k :: k in res ==> res[k] == if k in todo then buf[k] else Filter(AtLeast(cutoff), buf[k])
    {
      var k :| k in todo;
      var kept := PruneEntriesLoop(buf[k], cutoff);
      if |kept| == 0 { res := res - {k}; } else { res := res[k := kept]; }
      todo := todo - {k};
    }
  }

  method PruneEntriesLoop(entries: seq<Buffered>, cutoff: int) returns (kept: seq<Buffered>)
    ensures kept == Filter(AtLeast(cutoff), entries)
  {
    kept := [];
    for i := 0 to |entries|
      invariant kept == Filter(AtLeast(cutoff), entries[..i])
    {
      assert entries[..i + 1] == entries[..i] + [entries[i]];
      FilterSnoc(AtLeast(cutoff), entries[..i], entries[i]);
      if entries[i].eventTime >= cutoff { kept := kept + [entries[i]]; }
    }
    assert entries[..|entries|] == entries;
  }

  class JoinPipeline {
    const config: Config
    var left: Buffer
    var right: Buffer
    var pendingLeft: seq<Buffered>
    var pendingRight: seq<Buffered>

    ghost function State(): JoinSpec.State
      reads this
    {
      JoinSpec.State(left, right, pendingLeft, pendingRight)
    }

    constructor (config: Config)
      ensures this.config == config && State() == EMPTY
    {
      this.config, left, right, pendingLeft, pendingRight := config, map[], map[], [], [];
    }

    /** Buffers a record, pairs it with the other side, closes windows and prunes. */
    method OnRecord(s: Side, r: Record, t: int, watermark: int) returns (out: seq<Output>)
      modifies this
      ensures (State(), out) == JoinSpec.OnRecord(config, old(State()), s, r, t, watermark)
    {
      hide Filter, Flush, Prune, RemoveAll, Entries;
      var b := Buffered(t, r);
      if s == Left {
        left := left[r.key := Entries(left, r.key) + [b]];
      } else {
        right := right[r.key := Entries(right, r.key) + [b]];
      }
      var pairs, matched := PairLoop(s, r, t);
      if matched == 0 && Eligible(config.mode, s) {
        if s == Left { pendingLeft := pendingLeft + [b]; } else { pendingRight := pendingRight + [b]; }
      }
      assert State() == Admit(config, old(State()), s, r, t);
      var alone := FlushPending(watermark);
      var cutoff := watermark - config.window - config.lateness;
      left := PruneLoop(left, cutoff);
      right := PruneLoop(right, cutoff);
      out := pairs + alone;
    }

    /** The loop over the other side's entries: pairs the close ones and takes them off its pending list. */
    method PairLoop(s: Side, r: Record, t: int) returns (out: seq<Output>, matched: nat)
      modifies this`pendingLeft, this`pendingRight
      ensures var ms := Matched(config, old(State()), s, r, t);
              && out == Map(PairWith(s, r), ms) && matched == |ms|
              && State().Pending(s) == old(State()).Pending(s)
              && State().Pending(s.Other()) ==
                 if config.mode == Inner then old(State()).Pending(s.Other()) else RemoveAll(old(State()).Pending(s.Other()), ms)
    {
      hide RemovePending, Filter, RemoveAll;
      var entries := if s == Left then Entries(right, r.key) else Entries(left, r.key);
      var near := Near(config, t);
      ghost var before := State().Pending(s.Other());
      NothingNear(near, before);
      out, matched := [], 0;
      for i := 0 to |entries|
        invariant out == Map(PairWith(s, r), Filter(near, entries[..i])) && matched == |out|
        invariant State().Pending(s) == old(State()).Pending(s)
        invariant State().Pending(s.Other()) == if config.mode == Inner then before else RemoveAll(before, Filter(near, entries[..i]))
      {
        var m := entries[i];
        NextNear(near, entries, i, PairWith(s, r), before);
        if Abs(t - m.eventTime) > config.window { continue; }
        matched := matched + 1;
        if config.mode != Inner {
          if s == Left {
            pendingRight := RemovePendingLoop(pendingRight, m.eventTime, m.record.offset);
          } else {
            pendingLeft := RemovePendingLoop(pendingLeft, m.eventTime, m.record.offset);
          }
        }
        out := out + [if s == Left then Pair(r, m.record) else Pair(m.record, r)];
      }
      assert entries[..|entries|] == entries;
    }

    method FlushPending(watermark: int) returns (out: seq<Output>)
      modifies this`pendingLeft, this`pendingRight
      ensures (State(), out) == Flush(config, old(State()), watermark)
    {
      hide Filter, Alone;
      if config.mode == Inner { return []; }
      var cutoff := watermark - config.window;
      var lefts, rights;
      pendingLeft, lefts := FlushSide(config.mode, Left, pendingLeft, cutoff);
      pendingRight, rights := FlushSide(config.mode, Right, pendingRight, cutoff);
      out := lefts + rights;
    }
  }

  lemma NothingNear(near: Buffered -> bool, pending: seq<Buffered>)
    ensures Filter(near, []) == [] && RemoveAll(pending, []) == pending
  {
  }

  lemma NextNear(near: Buffered -> bool, entries: seq<Buffered>, i: nat, pair: Buffered -> Output,
                 pending: seq<Buffered>)
    requires i < |entries|
    ensures var ms, m := Filter(near, entries[..i]), entries[i];
            && Filter(near, entries[..i + 1]) == (if near(m) then ms + [m] else ms)
            && Map(pair, ms + [m]) == Map(pair, ms) + [pair(m)]
            && RemoveAll(pending, ms + [m]) == RemovePending(RemoveAll(pending, ms), m.eventTime, m.record.offset)
  {
    var ms, m := Filter(near, entries[..i]), entries[i];
    assert entries[..i + 1] == entries[..i] + [m];
    FilterSnoc(near, entries[..i], m);
    hide Filter;
    MapAppend(pair, ms, [m]);
    assert Map(pair, [m]) == [pair(m)];
    assert (ms + [m])[..|ms|] == ms;
  }
}
