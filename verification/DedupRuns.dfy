/** Publish with producer ids as a state machine, over whole runs with compaction of the checkpoint
    topic and broker restarts (Publish in broker/internal/broker/broker.go,
    hydrateDedupFromTopic in broker/embed/bootstrap.go). */
module DedupRuns {
  import opened Bytes
  import opened Seqs
  import opened Wrappers
  import opened Records
  import opened LogSpec
  import opened SegmentSpec
  import opened PartitionSpec
  import opened PartitionRuns
  import opened Replay
  import opened Dedup
  import StoreSpec

  /** A TTL of zero disables eviction. */
  datatype Config = Config(dedupTopic: bytes, ttl: int, segmentBytes: int)

  /** `logs` is everything appended to each partition, `table` the checkpoints in memory, `topic`
      the single partition of the checkpoint topic. */
  datatype Broker = Broker(logs: map<Partition, seq<Record>>, table: map<Slot, Checkpoint>, topic: seq<Part>)

  function LogOf(logs: map<Partition, seq<Record>>, p: Partition): seq<Record> { if p in logs then logs[p] else [] }

  function RowOf(t: map<Slot, Checkpoint>, s: Slot): Option<Checkpoint> { if s in t then Some(t[s]) else None }

  /** Drops the rows of one partition last seen before the cutoff. */
  function Evict(t: map<Slot, Checkpoint>, p: Partition, cutoff: int): map<Slot, Checkpoint> {
    map s | s in t && !(s.p == p && t[s].lastSeen < cutoff) :: t[s]
  }

  function Live(c: Config, t: map<Slot, Checkpoint>, p: Partition, now: int): map<Slot, Checkpoint> {
    if c.ttl > 0 then Evict(t, p, now - c.ttl) else t
  }

  function AppendLog(logs: map<Partition, seq<Record>>, p: Partition, r: Record, stamp: int): map<Partition,
                     seq<Record>> {
    logs[p := LogOf(logs, p) + [StoreSpec.Stamp(r, |LogOf(logs, p)|, stamp)]]
  }

  function Persist(c: Config, topic: seq<Part>, s: Slot, cp: Checkpoint, stamp: int): (topic': seq<Part>)
    requires topic != []
    ensures topic' != []
  {
    if c.dedupTopic == [] || s.p.topic == c.dedupTopic then topic
    else AppendValue(topic, EncodeKey(s), Data(EncodeValue(cp)), stamp, c.segmentBytes)
  }

  /** A sequence at or below the checkpoint's is answered from the table, anything else is appended. */
  predicate Duplicate(t: map<Slot, Checkpoint>, s: Slot, seqNo: nat) { s in t && seqNo <= t[s].lastSeq }

  function PublishStep(c: Config, b: Broker, p: Partition, r: Record, now: int, stamp: int): (res: (Broker, int))
    requires b.topic != []
    ensures res.0.topic != []
  {
    var log := LogOf(b.logs, p);
    match IdempKey(r)
    case None => (b.(logs := AppendLog(b.logs, p, r, stamp)), |log|)
    case Some(k) =>
      var s, live := Slot(k.producer, p), Live(c, b.table, p, now);
      if Duplicate(live, s, k.seqNo) then (b.(table := live), live[s].lastOffset)
      else
        var cp := Checkpoint(k.seqNo, |log|, now);
        (Broker(AppendLog(b.logs, p, r, stamp), live[s := cp], Persist(c, b.topic, s, cp, stamp)), |log|)
  }

  // ----- Hydration -----

  function HydrateOne(t: map<Slot, Checkpoint>, r: Record): map<Slot, Checkpoint> {
    var s, cp := DecodeKey(r.key), DecodeValue(r.value);
    if s.Some? && cp.Some? then t[s.value := cp.value] else t
  }

  function Hydrate(rs: seq<Record>): map<Slot, Checkpoint> {
    if rs == [] then map[] else HydrateOne(Hydrate(rs[..|rs| - 1]), rs[|rs| - 1])
  }

  function Restart(b: Broker): Broker
    requires b.topic != []
  {
    b.(table := Hydrate(ReplayParts(b.topic, 0, 256)))
  }

  /** What a restart would find on the topic. */
  function Durable(b: Broker): map<Slot, Checkpoint> { Hydrate(Contents(b.topic)) }

  /** A record the broker itself wrote to the topic. */
  ghost predicate Canonical(r: Record) {
    && DecodeKey(r.key).Some? && EncodeKey(DecodeKey(r.key).value) == r.key
    && r.value.Data? && DecodeValue(r.value).Some? && r.offset >= 0
  }

  ghost predicate AllCanonical(rs: seq<Record>) { forall r :: r in rs ==> Canonical(r) }

  /** Hydration is the last-value table of the topic, decoded. */
  lemma {:induction false} HydrateIsFold(rs: seq<Record>, s: Slot)
    requires AllCanonical(rs)
    ensures var k := EncodeKey(s);
            RowOf(Hydrate(rs), s) == if SlotFits(s) && k in Fold(rs) then DecodeValue(Fold(rs)[k].value) else None
    decreases rs
  {
    hide DecodeKey, EncodeKey, DecodeValue, SlotFits;
    if rs != [] {
      var init, r := rs[..|rs| - 1], rs[|rs| - 1];
      assert r in rs && forall x :: x in init ==> x in rs;
      HydrateIsFold(init, s);
      var t := DecodeKey(r.key).value;
      KeyDecodesIff(r.key, t);
      KeyNotEmpty(t);
      assert EncodeKey(t) == r.key;
      if SlotFits(s) && EncodeKey(s) == r.key { KeyInjective(s, t); }
    }
  }

  lemma KeyNotEmpty(s: Slot)
    ensures EncodeKey(s) != []
  {
    hide BE;
    assert |EncodeKey(s)| >= 12;
  }

  lemma HydrateFromFold(a: seq<Record>, b: seq<Record>)
    requires AllCanonical(a) && AllCanonical(b) && Fold(a) == Fold(b)
    ensures Hydrate(a) == Hydrate(b)
  {
    hide Fold, Hydrate, DecodeValue, EncodeKey, SlotFits, AllCanonical;
    forall s: Slot ensures RowOf(Hydrate(a), s) == RowOf(Hydrate(b), s) {
      HydrateIsFold(a, s);
      HydrateIsFold(b, s);
    }
    SameRows(Hydrate(a), Hydrate(b));
  }

  lemma SameRows(a: map<Slot, Checkpoint>, b: map<Slot, Checkpoint>)
    requires forall s: Slot :: RowOf(a, s) == RowOf(b, s)
    ensures a == b
  {
    forall s: Slot ensures s in a <==> s in b { assert RowOf(a, s) == RowOf(b, s); }
    forall s | s in a ensures a[s] == b[s] { assert RowOf(a, s) == RowOf(b, s); }
  }

  // ----- What the table says about a log -----

  predicate By(r: Record, producer: bytes) { IdempKey(r).Some? && IdempKey(r).value.producer == producer }

  function SeqOf(r: Record): nat { if IdempKey(r).Some? then IdempKey(r).value.seqNo else 0 }

  /** Along the log, the sequences of one producer strictly increase. */
  ghost predicate SequencesIncrease(log: seq<Record>, producer: bytes) {
    forall i, j :: 0 <= i < j < |log| && By(log[i], producer) && By(log[j], producer) ==> SeqOf(log[i]) < SeqOf(log[j])
  }

  /** The row is the last record of the producer, and there is none exactly when it wrote nothing. */
  ghost predicate Tracks(log: seq<Record>, producer: bytes, row: Option<Checkpoint>) {
    && SequencesIncrease(log, producer)
    && match row
       case None => forall i :: 0 <= i < |log| ==> !By(log[i], producer)
       case Some(cp) =>
         && 0 <= cp.lastOffset < |log| && By(log[cp.lastOffset], producer) && SeqOf(log[cp.lastOffset]) == cp.lastSeq
         && forall i :: 0 <= i < |log| && By(log[i], producer) ==> i <= cp.lastOffset
  }

  lemma TracksOther(log: seq<Record>, producer: bytes, row: Option<Checkpoint>, r: Record)
    requires Tracks(log, producer, row) && !By(r, producer)
    ensures Tracks(log + [r], producer, row)
  {
    hide IdempKey;
  }

  lemma TracksOwn(log: seq<Record>, producer: bytes, row: Option<Checkpoint>, r: Record, now: int)
    requires Tracks(log, producer, row) && By(r, producer) && (row.Some? ==> row.value.lastSeq < SeqOf(r))
    ensures Tracks(log + [r], producer, Some(Checkpoint(SeqOf(r), |log|, now)))
  {
    hide IdempKey;
    forall i | 0 <= i < |log| && By(log[i], producer) ensures SeqOf(log[i]) < SeqOf(r) {
      if i < row.value.lastOffset { assert SeqOf(log[i]) < SeqOf(log[row.value.lastOffset]); }
    }
  }

  // ----- The invariant -----

  ghost predicate TopicValid(topic: seq<Part>) {
    topic != [] && Ordered(topic) && AllCanonical(Contents(topic)) && LogHighWater(topic) >= 0
  }

  ghost predicate LogsTracked(logs: map<Partition, seq<Record>>, rows: map<Slot, Checkpoint>) {
    forall s: Slot :: Tracks(LogOf(logs, s.p), s.producer, RowOf(rows, s))
  }

  ghost predicate Stale(c: Config, cp: Checkpoint, clock: int) { c.ttl > 0 && cp.lastSeen < clock - c.ttl }

  ghost predicate Agrees(c: Config, table: map<Slot, Checkpoint>, rows: map<Slot, Checkpoint>, clock: int, s: Slot) {
    RowOf(table, s) == RowOf(rows, s) || (s !in table && s in rows && Stale(c, rows[s], clock))
  }

  /** Memory agrees with the topic, except that stale rows may have been evicted. */
  ghost predicate Cached(c: Config, table: map<Slot, Checkpoint>, rows: map<Slot, Checkpoint>, clock: int) {
    forall s: Slot :: Agrees(c, table, rows, clock, s)
  }

  ghost predicate Inv(c: Config, b: Broker, clock: int) {
    TopicValid(b.topic) && LogsTracked(b.logs, Durable(b)) && Cached(c, b.table, Durable(b), clock)
  }

  /** What the run asks of a publish: it goes to a user partition, the checkpoint and its record
      fit their fields, and the producer has not been silent longer than the TTL. */
  ghost predicate CanPublish(c: Config, b: Broker, clock: int, p: Partition, r: Record, now: int, stamp: int)
    requires b.topic != []
  {
    && clock <= now && p.topic != c.dedupTopic && c.dedupTopic != []
    && (IdempKey(r).Some? ==>
          var s, cp := Slot(IdempKey(r).value.producer, p), Checkpoint(SeqOf(r), |LogOf(b.logs, p)|, now);
          && SlotFits(s) && CheckpointFits(cp)
          && Fits(Record(LogHighWater(b.topic), stamp, EncodeKey(s), Data(EncodeValue(cp)), []))
          && (s in Durable(b) ==> !Stale(c, Durable(b)[s], now)))
  }

  lemma HydrateSnoc(rs: seq<Record>, r: Record)
    ensures Hydrate(rs + [r]) == HydrateOne(Hydrate(rs), r)
  {
    assert (rs + [r])[..|rs|] == rs;
  }

  lemma WrittenCanonical(s: Slot, cp: Checkpoint, r: Record)
    requires SlotFits(s) && CheckpointFits(cp) && r.offset >= 0
    requires r.key == EncodeKey(s) && r.value == Data(EncodeValue(cp))
    ensures Canonical(r) && Norm(r) == r && DecodeKey(r.key) == Some(s) && DecodeValue(r.value) == Some(cp)
  {
    hide BE;
    KeyRoundTrip(s);
    ValueRoundTrip(cp);
    assert |EncodeValue(cp)| == 24;
  }

  lemma PersistKeeps(c: Config, topic: seq<Part>, s: Slot, cp: Checkpoint, stamp: int)
    requires TopicValid(topic) && SlotFits(s) && CheckpointFits(cp) && c.dedupTopic != [] && s.p.topic != c.dedupTopic
    requires Fits(Record(LogHighWater(topic), stamp, EncodeKey(s), Data(EncodeValue(cp)), []))
    ensures var topic' := Persist(c, topic, s, cp, stamp);
            TopicValid(topic') && Hydrate(Contents(topic')) == Hydrate(Contents(topic))[s := cp]
  {
    hide BE, SlotFits, CheckpointFits, Ordered, Fits, AppendParts, Hydrate, DecodeKey, EncodeKey, EncodeValue, DecodeValue, Contents, LogHighWater;
    var r := Record(LogHighWater(topic), stamp, EncodeKey(s), Data(EncodeValue(cp)), []);
    WrittenCanonical(s, cp, r);
    AppendKeepsOrder(topic, r, c.segmentBytes);
    HydrateSnoc(Contents(topic), r);
  }

  lemma AppendTracked(logs: map<Partition, seq<Record>>, rows: map<Slot, Checkpoint>, p: Partition, r: Record,
                      stamp: int)
    requires LogsTracked(logs, rows) && IdempKey(r).None?
    ensures LogsTracked(AppendLog(logs, p, r, stamp), rows)
  {
    hide Tracks, IdempKey;
    var logs' := AppendLog(logs, p, r, stamp);
    forall s: Slot ensures Tracks(LogOf(logs', s.p), s.producer, RowOf(rows, s)) {
      assert Tracks(LogOf(logs, s.p), s.producer, RowOf(rows, s));
      StampKeepsKey(LogOf(logs, p), r, stamp);
      if s.p == p { TracksOther(LogOf(logs, p), s.producer, RowOf(rows, s), StoreSpec.Stamp(r, |LogOf(logs, p)|, stamp)); }
    }
  }

  lemma StampKeepsKey(log: seq<Record>, r: Record, stamp: int)
    ensures IdempKey(StoreSpec.Stamp(r, |log|, stamp)) == IdempKey(r)
  {
  }

  lemma AppendOwnTracked(logs: map<Partition, seq<Record>>, rows: map<Slot, Checkpoint>, p: Partition, r: Record,
                         now: int, stamp: int)
    requires LogsTracked(logs, rows) && IdempKey(r).Some?
    requires !Duplicate(rows, Slot(IdempKey(r).value.producer, p), SeqOf(r))
    ensures var s := Slot(IdempKey(r).value.producer, p);
            LogsTracked(AppendLog(logs, p, r, stamp), rows[s := Checkpoint(SeqOf(r), |LogOf(logs, p)|, now)])
  {
    hide Tracks, IdempKey;
    var own := Slot(IdempKey(r).value.producer, p);
    var log := LogOf(logs, p);
    var logs', rows' := AppendLog(logs, p, r, stamp), rows[own := Checkpoint(SeqOf(r), |log|, now)];
    StampKeepsKey(log, r, stamp);
    var r' := StoreSpec.Stamp(r, |log|, stamp);
    forall s: Slot ensures Tracks(LogOf(logs', s.p), s.producer, RowOf(rows', s)) {
      assert Tracks(LogOf(logs, s.p), s.producer, RowOf(rows, s));
      if s == own {
        TracksOwn(log, s.producer, RowOf(rows, s), r', now);
      } else if s.p == p {
        TracksOther(log, s.producer, RowOf(rows, s), r');
      }
    }
  }

  lemma LiveCached(c: Config, b: Broker, rows: map<Slot, Checkpoint>, clock: int, p: Partition, now: int)
    requires Cached(c, b.table, rows, clock) && clock <= now
    ensures Cached(c, Live(c, b.table, p, now), rows, now)
  {
    forall s: Slot ensures Agrees(c, Live(c, b.table, p, now), rows, now, s) {
      assert Agrees(c, b.table, rows, clock, s);
    }
  }

  lemma PublishKeeps(c: Config, b: Broker, clock: int, p: Partition, r: Record, now: int, stamp: int)
    requires b.topic != [] && Inv(c, b, clock) && CanPublish(c, b, clock, p, r, now, stamp)
    ensures Inv(c, PublishStep(c, b, p, r, now, stamp).0, now)
  {
    hide LogsTracked, Cached, TopicValid, Hydrate, Fits, Contents, LogHighWater, IdempKey, AppendLog, EncodeKey, EncodeValue, Live, SlotFits;
    var rows := Durable(b);
    LiveCached(c, b, rows, clock, p, now);
    match IdempKey(r)
    case None =>
      AppendTracked(b.logs, rows, p, r, stamp);
      CachedLater(c, b.table, rows, clock, now);
    case Some(k) =>
      var s, live := Slot(k.producer, p), Live(c, b.table, p, now);
      CachedAt(c, live, rows, now, s);
      if !Duplicate(live, s, k.seqNo) {
        var cp := Checkpoint(k.seqNo, |LogOf(b.logs, p)|, now);
        PersistKeeps(c, b.topic, s, cp, stamp);
        AppendOwnTracked(b.logs, rows, p, r, now, stamp);
        CachedUpdate(c, live, rows, now, s, cp);
      }
  }

  lemma CachedAt(c: Config, table: map<Slot, Checkpoint>, rows: map<Slot, Checkpoint>, now: int, s: Slot)
    requires Cached(c, table, rows, now)
    ensures s in rows && !Stale(c, rows[s], now) ==> s in table && table[s] == rows[s]
    ensures s in table ==> s in rows && table[s] == rows[s]
  {
    assert Agrees(c, table, rows, now, s);
  }

  lemma CachedLater(c: Config, table: map<Slot, Checkpoint>, rows: map<Slot, Checkpoint>, clock: int, now: int)
    requires Cached(c, table, rows, clock) && clock <= now
    ensures Cached(c, table, rows, now)
  {
    forall s: Slot ensures Agrees(c, table, rows, now, s) {
      assert Agrees(c, table, rows, clock, s);
    }
  }

  lemma CachedUpdate(c: Config, table: map<Slot, Checkpoint>, rows: map<Slot, Checkpoint>, now: int, s: Slot,
                     cp: Checkpoint)
    requires Cached(c, table, rows, now)
    ensures Cached(c, table[s := cp], rows[s := cp], now)
  {
    var table', rows' := table[s := cp], rows[s := cp];
    forall t: Slot ensures Agrees(c, table', rows', now, t) {
      assert Agrees(c, table, rows, now, t);
    }
  }

  // ----- Compaction and restart -----

  lemma CompactKeeps(topic: seq<Part>)
    requires TopicValid(topic)
    ensures TopicValid(CompactParts(topic)) && Hydrate(Contents(CompactParts(topic))) == Hydrate(Contents(topic))
  {
    hide Ordered, CompactParts, Contents, Hydrate, Canonical, FoldFrom;
    CompactKeepsMeaning(topic);
    CompactKeepsSubset(topic);
    HydrateFromFold(Contents(CompactParts(topic)), Contents(topic));
  }

  /** Hydrating at startup, 256 records at a time, rebuilds exactly the last checkpoints persisted. */
  lemma RestartFindsDurable(b: Broker)
    requires TopicValid(b.topic)
    ensures Restart(b) == b.(table := Durable(b))
  {
    hide Ordered, Hydrate, Contents, ReplayParts, DecodeKey, EncodeKey, DecodeValue;
    ReplayOrdered(b.topic, 0, 256);
    var rs := Contents(b.topic);
    forall i | 0 <= i < |rs| ensures rs[i].offset >= 0 { assert rs[i] in rs; }
    AtOrAfterAll(rs, 0);
  }

  datatype BrokerOp =
    | Produce(p: Partition, r: Record, now: int, stamp: int)
    | CompactTopic
    | RestartBroker

  function BrokerStep(c: Config, b: Broker, op: BrokerOp): (b': Broker)
    requires b.topic != []
    ensures b'.topic != []
  {
    match op
    case Produce(p, r, now, stamp) => PublishStep(c, b, p, r, now, stamp).0
    case CompactTopic => b.(topic := CompactParts(b.topic))
    case RestartBroker => Restart(b)
  }

  function Clock(clock: int, op: BrokerOp): int { if op.Produce? then op.now else clock }

  ghost predicate CanStep(c: Config, b: Broker, clock: int, op: BrokerOp)
    requires b.topic != []
  {
    op.Produce? ==> CanPublish(c, b, clock, op.p, op.r, op.now, op.stamp)
  }

  function BrokerRun(c: Config, b: Broker, ops: seq<BrokerOp>): (b': Broker)
    requires b.topic != []
    ensures b'.topic != []
    decreases |ops|
  {
    if ops == [] then b else BrokerRun(c, BrokerStep(c, b, ops[0]), ops[1..])
  }

  ghost predicate CanRun(c: Config, b: Broker, clock: int, ops: seq<BrokerOp>)
    requires b.topic != []
    decreases |ops|
  {
    ops != [] ==> CanStep(c, b, clock, ops[0]) && CanRun(c, BrokerStep(c, b, ops[0]), Clock(clock, ops[0]), ops[1..])
  }

  function FinalClock(clock: int, ops: seq<BrokerOp>): int
    decreases |ops|
  {
    if ops == [] then clock else FinalClock(Clock(clock, ops[0]), ops[1..])
  }

  lemma StepKeeps(c: Config, b: Broker, clock: int, op: BrokerOp)
    requires b.topic != [] && Inv(c, b, clock) && CanStep(c, b, clock, op)
    ensures Inv(c, BrokerStep(c, b, op), Clock(clock, op))
  {
    hide LogsTracked, Hydrate, TopicValid, PublishStep, Contents, CompactParts, CanPublish, RowOf;
    match op
    case Produce(p, r, now, stamp) => hide Inv; PublishKeeps(c, b, clock, p, r, now, stamp);
    case CompactTopic => CompactKeeps(b.topic);
    case RestartBroker => RestartFindsDurable(b);
  }

  lemma {:induction false} RunKeeps(c: Config, b: Broker, clock: int, ops: seq<BrokerOp>)
    requires b.topic != [] && Inv(c, b, clock) && CanRun(c, b, clock, ops)
    ensures Inv(c, BrokerRun(c, b, ops), FinalClock(clock, ops))
    decreases |ops|
  {
    hide Inv, CanStep, BrokerStep, Clock;
    if ops != [] {
      StepKeeps(c, b, clock, ops[0]);
      RunKeeps(c, BrokerStep(c, b, ops[0]), Clock(clock, ops[0]), ops[1..]);
    }
  }

  const FRESH_BROKER := Broker(map[], map[], [Part(0, [])])

  lemma FreshInv(c: Config, clock: int)
    ensures Inv(c, FRESH_BROKER, clock)
  {
    hide Storable;
    NothingStored();
    ConcatMapOne(RecsOf, Part(0, []));
    assert Contents([Part(0, [])]) == [];
  }

  /** Whatever was published, in whatever order, with retries, compactions of the checkpoint topic
      and restarts anywhere in between: on every partition the sequences of each producer strictly
      increase, so no (producer, sequence) is ever stored twice. */
  lemma NoDuplicates(c: Config, clock: int, ops: seq<BrokerOp>, p: Partition, i: nat, j: nat)
    requires CanRun(c, FRESH_BROKER, clock, ops)
    requires var log := LogOf(BrokerRun(c, FRESH_BROKER, ops).logs, p);
             i < j < |log| && IdempKey(log[i]).Some? && By(log[j], IdempKey(log[i]).value.producer)
    ensures var log := LogOf(BrokerRun(c, FRESH_BROKER, ops).logs, p);
            SeqOf(log[i]) < SeqOf(log[j])
  {
    hide IdempKey, CanRun, BrokerRun, Durable, TopicValid, Cached;
    FreshInv(c, clock);
    RunKeeps(c, FRESH_BROKER, clock, ops);
    var b := BrokerRun(c, FRESH_BROKER, ops);
    var log := LogOf(b.logs, p);
    var s := Slot(IdempKey(log[i]).value.producer, p);
    assert Tracks(LogOf(b.logs, s.p), s.producer, RowOf(Durable(b), s));
  }

  /** A retry: publishing again a (producer, sequence) that is already on the partition. Unless the
      producer's row has gone stale, nothing is appended and the offset returned is that of the
      producer's last record, which is the record's own offset exactly when it was the last one.
      When the row is stale, the record is appended a second time. */
  lemma RetryIff(c: Config, b: Broker, clock: int, p: Partition, i: nat, r: Record, now: int, stamp: int)
    requires Inv(c, b, clock) && clock <= now && i < |LogOf(b.logs, p)|
    requires IdempKey(r).Some? && IdempKey(r) == IdempKey(LogOf(b.logs, p)[i])
    ensures var (b', offset) := PublishStep(c, b, p, r, now, stamp); var s := Slot(IdempKey(r).value.producer, p);
            && s in Durable(b)
            && (b'.logs == b.logs <==> !Stale(c, Durable(b)[s], now))
            && (!Stale(c, Durable(b)[s], now) ==>
                  && offset == Durable(b)[s].lastOffset && i <= offset
                  && (offset == i <==> SeqOf(r) == Durable(b)[s].lastSeq))
            && (Stale(c, Durable(b)[s], now) ==> IdempKey(LogOf(b'.logs, p)[offset]) == IdempKey(r) && offset > i)
  {
    hide IdempKey, TopicValid, Durable, Persist;
    var s := Slot(IdempKey(r).value.producer, p);
    var log := LogOf(b.logs, p);
    assert Tracks(LogOf(b.logs, s.p), s.producer, RowOf(Durable(b), s));
    assert By(log[i], s.producer);
    LiveRow(c, b.table, Durable(b), clock, now, s);
    StampKeepsKey(log, r, stamp);
    assert LogOf(b.logs, p) != LogOf(AppendLog(b.logs, p, r, stamp), p);
  }

  lemma LiveRow(c: Config, table: map<Slot, Checkpoint>, rows: map<Slot, Checkpoint>, clock: int, now: int, s: Slot)
    requires Cached(c, table, rows, clock) && clock <= now && s in rows
    ensures RowOf(Live(c, table, s.p, now), s) == if Stale(c, rows[s], now) then None else Some(rows[s])
  {
    assert Agrees(c, table, rows, clock, s);
  }

  /** Without eviction a restart changes nothing at all: the topic holds the whole table. */
  lemma RestartIsInvisible(c: Config, b: Broker, clock: int)
    requires Inv(c, b, clock) && c.ttl <= 0
    ensures Restart(b) == b
  {
    hide TopicValid, LogsTracked, Durable;
    RestartFindsDurable(b);
    forall s: Slot ensures RowOf(b.table, s) == RowOf(Durable(b), s) {
      assert Agrees(c, b.table, Durable(b), clock, s);
    }
    SameRows(b.table, Durable(b));
  }

  /** A crash between the append and the write of its checkpoint loses the checkpoint: after the
      restart a retry of the record is appended again. */
  lemma LostCheckpointDuplicates(c: Config, b: Broker, clock: int, p: Partition, r: Record, now: int, stamp: int)
    requires b.topic != [] && Inv(c, b, clock) && IdempKey(r).Some?
    requires !Duplicate(Durable(b), Slot(IdempKey(r).value.producer, p), SeqOf(r))
    ensures var crashed := Restart(b.(logs := AppendLog(b.logs, p, r, stamp)));
            var log := LogOf(PublishStep(c, crashed, p, r, now, stamp).0.logs, p); var n := |LogOf(b.logs, p)|;
            |log| == n + 2 && IdempKey(log[n]) == IdempKey(log[n + 1]) == IdempKey(r)
  {
    hide IdempKey, TopicValid, Hydrate, Persist, Contents, ReplayParts;
    var torn := b.(logs := AppendLog(b.logs, p, r, stamp));
    RestartFindsDurable(torn);
    StampKeepsKey(LogOf(b.logs, p), r, stamp);
    StampKeepsKey(LogOf(torn.logs, p), r, stamp);
  }

  // ----- The broker object -----

  class BrokerNode {
    const config: Config
    var logs: map<Partition, seq<Record>>
    var table: map<Slot, Checkpoint>
    var topic: seq<Part>

    ghost function State(): Broker
      reads this
    {
      Broker(logs, table, topic)
    }

    constructor (config: Config, logs: map<Partition, seq<Record>>, topic: seq<Part>)
      ensures this.config == config && State() == Broker(logs, map[], topic)
    {
      this.config, this.logs, this.topic, table := config, logs, topic, map[];
    }

    /** Walks the rows of a partition in any order and deletes the stale ones. */
    method EvictStale(p: Partition, now: int)
      modifies this`table
      ensures table == Live(config, old(table), p, now)
    {
      if config.ttl <= 0 { return; }
      var cutoff := now - config.ttl;
      var todo := table.Keys;
      while todo != {}
        invariant todo <= old(table).Keys
        invariant forall s :: s in table <==> s in old(table) && (s in todo || !(s.p == p && old(table)[s].lastSeen < cutoff))
        invariant forall s :: s in table ==> table[s] == old(table)[s]
      {
        var s :| s in todo;
        if s.p == p && table[s].lastSeen < cutoff { table := table - {s}; }
        todo := todo - {s};
      }
    }

    method Publish(p: Partition, r: Record, now: int, stamp: int) returns (offset: int)
      requires topic != []
      modifies this
      ensures (State(), offset) == PublishStep(config, old(State()), p, r, now, stamp)
    {
      hide IdempKey, AppendValue;
      var key := ProducerIdempKey(r);
      if key.Some? {
        EvictStale(p, now);
        var s := Slot(key.value.producer, p);
        if s in table && key.value.seqNo <= table[s].lastSeq { return table[s].lastOffset; }
      }
      var stored := r;
      if stored.timestamp == 0 { stored := stored.(timestamp := stamp); }
      var log := LogOf(logs, p);
      offset := |log|;
      logs := logs[p := log + [stored.(offset := offset)]];
      if key.Some? {
        var s, cp := Slot(key.value.producer, p), Checkpoint(key.value.seqNo, offset, now);
        table := table[s := cp];
        topic := Persist(config, topic, s, cp, stamp);
      }
    }

    /** Startup: replays the checkpoint topic into the table, 256 records at a time. */
    method HydrateFromTopic()
      requires table == map[] && topic != []
      modifies this`table
      ensures State() == Restart(old(State()))
    {
      hide PartitionRead, ReplayParts, Hydrate;
      var cursor := 0;
      ghost var seen: seq<Record> := [];
      ghost var all := ReplayParts(topic, 0, 256);
      NothingHydrated();
      assert [] + all == all;
      var batch := PartitionRead(topic, cursor, 256);
      while |batch| != 0
        invariant batch == PartitionRead(topic, cursor, 256)
        invariant table == Hydrate(seen) && seen + ReplayParts(topic, cursor, 256) == all
        decreases |AtOrAfter(Contents(topic), cursor)|
      {
        ReplayStep(topic, cursor, 256);
        Assoc(seen, batch, ReplayParts(topic, batch[|batch| - 1].offset + 1, 256));
        HydrateBatch(batch, seen);
        seen := seen + batch;
        cursor := batch[|batch| - 1].offset + 1;
        batch := PartitionRead(topic, cursor, 256);
      }
      ReplayStep(topic, cursor, 256);
      assert seen + [] == seen;
    }

    method HydrateBatch(batch: seq<Record>, ghost seen: seq<Record>)
      requires table == Hydrate(seen)
      modifies this`table
      ensures table == Hydrate(seen + batch)
    {
      hide Hydrate, DecodeKey, DecodeValue;
      assert seen + batch[..0] == seen;
      for i := 0 to |batch|
        invariant table == Hydrate(seen + batch[..i])
      {
        assert seen + batch[..i + 1] == seen + batch[..i] + [batch[i]];
        HydrateSnoc(seen + batch[..i], batch[i]);
        var s := DecodeKey(batch[i].key);
        if s.None? { continue; }
        var cp := DecodeValue(batch[i].value);
        if cp.None? { continue; }
        table := table[s.value := cp.value];
      }
      assert batch[..|batch|] == batch;
    }
  }

  lemma NothingHydrated()
    ensures Hydrate([]) == map[]
  {
  }
}
