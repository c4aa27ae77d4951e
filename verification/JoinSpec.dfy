/** The windowed stream join as a function of one arrival or one punctuation at a time
    (onRecord, flushPendingLocked and removePending in streams/join.go). */
module JoinSpec {
  import opened Bytes
  import opened Seqs
  import opened Records

  datatype Mode = Inner | LeftOuter | FullOuter

  datatype Config = Config(mode: Mode, window: int, lateness: int)

  datatype Side = Left | Right {
    function Other(): Side { if this == Left then Right else Left }
  }

  datatype Buffered = Buffered(eventTime: int, record: Record)

  type Buffer = map<bytes, seq<Buffered>>

  datatype State = State(left: Buffer, right: Buffer, pendingLeft: seq<Buffered>, pendingRight: seq<Buffered>) {
    function Buf(s: Side): Buffer { if s == Left then left else right }

    function Pending(s: Side): seq<Buffered> { if s == Left then pendingLeft else pendingRight }
  }

  const EMPTY := State(map[], map[], [], [])

  /** What the caller's join function is called with. */
  datatype Output = Pair(left: Record, right: Record) | LeftOnly(l: Record) | RightOnly(r: Record)

  function Entries(buf: Buffer, key: bytes): seq<Buffered> { if key in buf then buf[key] else [] }

  function Abs(x: int): nat { if x < 0 then -x else x }

  function Near(c: Config, t: int): Buffered -> bool { (b: Buffered) => Abs(t - b.eventTime) <= c.window }

  function PairWith(s: Side, r: Record): Buffered -> Output {
    (b: Buffered) => if s == Left then Pair(r, b.record) else Pair(b.record, r)
  }

  /** Records of this side wait for a counterpart before they are emitted alone. */
  predicate Eligible(mode: Mode, s: Side) { mode == FullOuter || (mode == LeftOuter && s == Left) }

  /** Removes the first pending record with this event time and offset. */
  function RemovePending(pending: seq<Buffered>, eventTime: int, offset: int): seq<Buffered> {
    if pending == [] then []
    else if pending[0].eventTime == eventTime && pending[0].record.offset == offset then pending[1..]
    else [pending[0]] + RemovePending(pending[1..], eventTime, offset)
  }

  function RemoveAll(pending: seq<Buffered>, ms: seq<Buffered>): seq<Buffered> {
    if ms == [] then pending
    else RemovePending(RemoveAll(pending, ms[..|ms| - 1]), ms[|ms| - 1].eventTime, ms[|ms| - 1].record.offset)
  }

  function After(cutoff: int): Buffered -> bool { (b: Buffered) => b.eventTime > cutoff }

  function NotAfter(cutoff: int): Buffered -> bool { (b: Buffered) => b.eventTime <= cutoff }

  function AtLeast(cutoff: int): Buffered -> bool { (b: Buffered) => b.eventTime >= cutoff }

  function Alone(mode: Mode, s: Side, ps: seq<Buffered>): seq<Output> {
    if Eligible(mode, s) then Map((b: Buffered) => if s == Left then LeftOnly(b.record) else RightOnly(b.record), ps) else []
  }

  /** Emits and drops the pending records whose window the watermark has closed. */
  function Flush(c: Config, st: State, watermark: int): (State, seq<Output>) {
    if c.mode == Inner then (st, []) else
      var cutoff := watermark - c.window;
      (st.(pendingLeft := Filter(After(cutoff), st.pendingLeft), pendingRight := Filter(After(cutoff), st.pendingRight)),
       Alone(c.mode, Left, Filter(NotAfter(cutoff), st.pendingLeft)) + Alone(c.mode, Right, Filter(NotAfter(cutoff), st.pendingRight)))
  }

  function Prune(buf: Buffer, cutoff: int): Buffer {
    map k | k in buf && Filter(AtLeast(cutoff), buf[k]) != [] :: Filter(AtLeast(cutoff), buf[k])
  }

  /** The state with this side's and the other side's buffer and pending list. */
  function Arrange(s: Side, own: Buffer, other: Buffer, ownPending: seq<Buffered>, otherPending: seq<Buffered>): State {
    if s == Left then State(own, other, ownPending, otherPending) else State(other, own, otherPending, ownPending)
  }

  /** The other side's buffered records this one pairs with. */
  function Matched(c: Config, st: State, s: Side, r: Record, t: int): seq<Buffered> {
    Filter(Near(c, t), Entries(st.Buf(s.Other()), r.key))
  }

  /** Buffers the record, pairs it, and queues it when it paired with nothing. */
  function Admit(c: Config, st: State, s: Side, r: Record, t: int): State {
    var b, ms := Buffered(t, r), Matched(c, st, s, r, t);
    Arrange(s,
            st.Buf(s)[r.key := Entries(st.Buf(s), r.key) + [b]],
            st.Buf(s.Other()),
            if ms == [] && Eligible(c.mode, s) then st.Pending(s) + [b] else st.Pending(s),
            if c.mode == Inner then st.Pending(s.Other()) else RemoveAll(st.Pending(s.Other()), ms))
  }

  function OnRecord(c: Config, st: State, s: Side, r: Record, t: int, watermark: int): (State, seq<Output>) {
    var pairs := Map(PairWith(s, r), Matched(c, st, s, r, t));
    var (flushed, alone) := Flush(c, Admit(c, st, s, r, t), watermark);
    var cutoff := watermark - c.window - c.lateness;
    (flushed.(left := Prune(flushed.left, cutoff), right := Prune(flushed.right, cutoff)), pairs + alone)
  }

  // ----- Runs -----

  datatype Event = Arrive(side: Side, r: Record, t: int, watermark: int) | Punctuate(watermark: int)

  function Step(c: Config, st: State, e: Event): (State, seq<Output>) {
    match e
    case Arrive(side, r, t, watermark) => OnRecord(c, st, side, r, t, watermark)
    case Punctuate(watermark) => Flush(c, st, watermark)
  }

  function Reached(c: Config, h: seq<Event>): State {
    if h == [] then EMPTY else Step(c, Reached(c, h[..|h| - 1]), h[|h| - 1]).0
  }
}
