/** Committed consumer-group offsets kept on a compacted topic
    (broker/internal/groups/topic_offsets.go, broker/internal/groups/offsets.go). */
module Offsets {
  import opened Bytes
  import opened Seqs
  import opened Records
  import opened LogSpec
  import opened SegmentSpec
  import opened PartitionSpec
  import opened PartitionRuns
  import opened Replay

  const NO_OFFSET := -1

  // ----- Keys -----

  ghost predicate NulFree(s: bytes) { forall i :: 0 <= i < |s| ==> s[i] != 0 }

  function Digits(n: nat): (s: bytes)
    ensures s != []
  {
    if n < 10 then [48 + n] else Digits(n / 10) + [48 + n % 10]
  }

  /** fmt's %d. */
  function Decimal(n: int): bytes { if n < 0 then [45] + Digits(-n) else Digits(n) }

  function ParseDigits(s: bytes): int {
    if s == [] then 0 else ParseDigits(s[..|s| - 1]) * 10 + (s[|s| - 1] as int - 48)
  }

  function ParseDecimal(s: bytes): int {
    if s != [] && s[0] == 45 then -ParseDigits(s[1..]) else ParseDigits(s)
  }

  function JoinKey(group: bytes, topic: bytes, partition: int): bytes {
    group + ([0] + (topic + ([0] + Decimal(partition))))
  }

  function SplitNul(s: bytes): (parts: seq<bytes>)
    ensures parts != []
  {
    if s == [] then [[]]
    else if s[0] == 0 then [[]] + SplitNul(s[1..])
    else var rest := SplitNul(s[1..]); [[s[0]] + rest[0]] + rest[1..]
  }

  /** splitNUL as written: one pass with the start of the current piece. */
  method SplitNulLoop(s: bytes) returns (out: seq<bytes>)
    ensures out == SplitNul(s)
  {
    hide SplitNul;
    out := [];
    var start := 0;
    assert s[0..] == s && [] + SplitNul(s) == SplitNul(s);
    for i := 0 to |s|
      invariant 0 <= start <= i && NulFree(s[start..i])
      invariant out + SplitNul(s[start..]) == SplitNul(s)
    {
      if s[i] == 0 {
        assert s[start..] == s[start..i] + ([0] + s[i + 1..]);
        SplitAtNul(s[start..i], s[i + 1..]);
        Assoc(out, [s[start..i]], SplitNul(s[i + 1..]));
        out := out + [s[start..i]];
        start := i + 1;
      } else {
        assert s[start..i + 1] == s[start..i] + [s[i]];
      }
    }
    SplitOne(s[start..]);
    out := out + [s[start..]];
  }

  lemma {:induction false} SplitAtNul(a: bytes, b: bytes)
    requires NulFree(a)
    ensures SplitNul(a + ([0] + b)) == [a] + SplitNul(b)
  {
    if a == [] {
      assert a + ([0] + b) == [0] + b;
    } else {
      SplitAtNul(a[1..], b);
      assert (a + ([0] + b))[1..] == a[1..] + ([0] + b);
      assert a == [a[0]] + a[1..];
    }
  }

  lemma {:induction false} SplitOne(a: bytes)
    requires NulFree(a)
    ensures SplitNul(a) == [a]
  {
    if a != [] {
      SplitOne(a[1..]);
      assert a == [a[0]] + a[1..];
    }
  }

  lemma {:induction false} DigitsRoundTrip(n: nat)
    ensures ParseDigits(Digits(n)) == n && NulFree(Digits(n)) && Digits(n)[0] != 45
  {
    if n < 10 {
      assert ParseDigits([]) == 0 && [48 + n][..0] == [];
    } else {
      DigitsRoundTrip(n / 10);
      assert Digits(n)[..|Digits(n)| - 1] == Digits(n / 10);
    }
  }

  lemma DecimalRoundTrip(n: int)
    ensures ParseDecimal(Decimal(n)) == n && NulFree(Decimal(n))
  {
    DigitsRoundTrip(if n < 0 then -n else n);
    if n < 0 { assert Decimal(n)[1..] == Digits(-n); }
  }

  /** splitKey: the manual split when it gives three pieces, else whatever Sscanf made of the key. */
  function SplitKey(k: bytes, scanned: (bytes, bytes, int)): (bytes, bytes, int) {
    var parts := SplitNul(k);
    if |parts| == 3 then (parts[0], parts[1], ParseDecimal(parts[2])) else scanned
  }

  function NulCount(s: bytes): nat { if s == [] then 0 else (if s[0] == 0 then 1 else 0) + NulCount(s[1..]) }

  lemma {:induction false} SplitCounts(s: bytes)
    ensures |SplitNul(s)| == 1 + NulCount(s)
  {
    if s != [] { SplitCounts(s[1..]); }
  }

  lemma {:induction false} NulCountConcat(a: bytes, b: bytes)
    ensures NulCount(a + b) == NulCount(a) + NulCount(b)
  {
    if a == [] {
      assert a + b == b;
    } else {
      NulCountConcat(a[1..], b);
      assert (a + b)[1..] == a[1..] + b;
    }
  }

  lemma {:induction false} NulCountZero(s: bytes)
    ensures NulCount(s) == 0 <==> NulFree(s)
  {
    if s != [] {
      NulCountZero(s[1..]);
      assert s == [s[0]] + s[1..];
    }
  }

  /** Keys come apart again exactly when neither the group nor the topic contains a NUL; a name
      that does sends splitKey to its Sscanf fallback. */
  lemma KeySplitsIff(group: bytes, topic: bytes, partition: int)
    ensures SplitNul(JoinKey(group, topic, partition)) == [group, topic, Decimal(partition)] <==> NulFree(group) && NulFree(topic)
    ensures |SplitNul(JoinKey(group, topic, partition))| == 3 <==> NulFree(group) && NulFree(topic)
  {
    var d := Decimal(partition);
    DecimalRoundTrip(partition);
    if NulFree(group) && NulFree(topic) {
      SplitAtNul(group, topic + ([0] + d));
      SplitAtNul(topic, d);
      SplitOne(d);
      assert [group] + ([topic] + [d]) == [group, topic, d];
    }
    SplitCounts(JoinKey(group, topic, partition));
    NulCountConcat(group, [0] + (topic + ([0] + d)));
    NulCountConcat([0], topic + ([0] + d));
    NulCountConcat(topic, [0] + d);
    NulCountConcat([0], d);
    NulCountZero(group);
    NulCountZero(topic);
    NulCountZero(d);
    assert NulCount([0]) == 1 by { assert [0][1..] == []; }
  }

  lemma KeyRoundTrip(group: bytes, topic: bytes, partition: int, scanned: (bytes, bytes, int))
    requires NulFree(group) && NulFree(topic)
    ensures SplitKey(JoinKey(group, topic, partition), scanned) == (group, topic, partition)
  {
    KeySplitsIff(group, topic, partition);
    DecimalRoundTrip(partition);
  }

  // ----- The store as a state machine -----

  /** The 8-byte value of a commit, and what replay makes of a value. */
  function EncodeOffset(offset: int): Value { Data(BE(offset, 8)) }

  function DecodeOffset(v: Value): int { if v.Data? && |v.b| == 8 then I64(v.b) else NO_OFFSET }

  datatype OffsetState = OffsetState(parts: seq<Part>, entries: map<bytes, int>)

  datatype OffsetOp =
    | Commit(key: bytes, offset: int, now: int)
    | DeleteGroup(keys: seq<bytes>, now: int)
    | CompactTopic

  function AppendTombstones(parts: seq<Part>, keys: seq<bytes>, now: int, segmentBytes: int): (parts': seq<Part>)
    requires parts != []
    ensures parts' != []
    decreases |keys|
  {
    if keys == [] then parts else AppendTombstones(AppendValue(parts, keys[0], Nil, now, segmentBytes), keys[1..], now, segmentBytes)
  }

  function Without(m: map<bytes, int>, keys: seq<bytes>): map<bytes, int> { map k | k in m && k !in keys :: m[k] }

  function OffsetStep(s: OffsetState, op: OffsetOp, segmentBytes: int): (s': OffsetState)
    requires s.parts != []
    ensures s'.parts != []
  {
    match op
    case Commit(key, offset, now) =>
      OffsetState(AppendValue(s.parts, key, EncodeOffset(offset), now, segmentBytes), s.entries[key := offset])
    case DeleteGroup(keys, now) =>
      OffsetState(AppendTombstones(s.parts, keys, now, segmentBytes), Without(s.entries, keys))
    case CompactTopic => OffsetState(CompactParts(s.parts), s.entries)
  }

  // ----- Replay -----

  /** The body of the replay loop, folded over the records read back. */
  function ReplayEntries(rs: seq<Record>): map<bytes, int> {
    if rs == [] then map[] else
      var m, r := ReplayEntries(rs[..|rs| - 1]), rs[|rs| - 1];
      if r.value.Nil? then m - {r.key} else m[r.key := DecodeOffset(r.value)]
  }

  ghost predicate AllKeyed(rs: seq<Record>) { forall i :: 0 <= i < |rs| ==> rs[i].key != [] }

  ghost function TableOffsets(t: Table): map<bytes, int> { map k | k in t :: DecodeOffset(t[k].value) }

  lemma {:induction false} ReplayEntriesIsFold(rs: seq<Record>)
    requires AllKeyed(rs)
    ensures ReplayEntries(rs) == TableOffsets(Fold(rs))
  {
    hide DecodeOffset;
    if rs != [] {
      ReplayEntriesIsFold(rs[..|rs| - 1]);
      assert rs[|rs| - 1].key != [];
    }
  }

  /** The live map is what the topic's last values say, and every record on it has a key. */
  ghost predicate InSync(s: OffsetState) {
    && s.parts != [] && Ordered(s.parts)
    && AllKeyed(Contents(s.parts))
    && s.entries == TableOffsets(Fold(Contents(s.parts)))
    && NoneBefore(Contents(s.parts), 0)
  }

  ghost predicate CanAppend(parts: seq<Part>, key: bytes, value: Value, now: int)
    requires parts != []
  {
    key != [] && Fits(Record(LogHighWater(parts), now, key, value, []))
  }

  lemma AppendValueInSync(s: OffsetState, key: bytes, value: Value, now: int, segmentBytes: int)
    requires InSync(s) && CanAppend(s.parts, key, value, now) && value != Data([]) && LogHighWater(s.parts) >= 0
    ensures var entries := if value.Nil? then s.entries - {key} else s.entries[key := DecodeOffset(value)];
            var parts := AppendValue(s.parts, key, value, now, segmentBytes);
            InSync(OffsetState(parts, entries)) && LogHighWater(parts) == LogHighWater(s.parts) + 1
  {
    hide Ordered, Fits, AppendParts, FoldFrom, DecodeOffset;
    var r := Record(LogHighWater(s.parts), now, key, value, []);
    AppendKeepsOrder(s.parts, r, segmentBytes);
    FoldSnoc(map[], Contents(s.parts), r);
  }

  lemma {:induction false} TombstonesInSync(s: OffsetState, keys: seq<bytes>, now: int, segmentBytes: int)
    requires s.parts != [] && InSync(s) && LogHighWater(s.parts) >= 0 && CanTombstone(s.parts, keys, now, segmentBytes)
    ensures var parts := AppendTombstones(s.parts, keys, now, segmentBytes);
            InSync(OffsetState(parts, Without(s.entries, keys))) && LogHighWater(parts) >= 0
    decreases |keys|
  {
    hide InSync, AppendValue, CanAppend, LogHighWater;
    if keys == [] {
      assert Without(s.entries, keys) == s.entries;
      assert s == OffsetState(s.parts, s.entries);
    } else {
      AppendValueInSync(s, keys[0], Nil, now, segmentBytes);
      var s' := OffsetState(AppendValue(s.parts, keys[0], Nil, now, segmentBytes), s.entries - {keys[0]});
      TombstonesInSync(s', keys[1..], now, segmentBytes);
      assert Without(s'.entries, keys[1..]) == Without(s.entries, keys) by { assert keys == [keys[0]] + keys[1..]; }
    }
  }

  ghost predicate CanTombstone(parts: seq<Part>, keys: seq<bytes>, now: int, segmentBytes: int)
    requires parts != []
    decreases |keys|
  {
    keys != [] ==> CanAppend(parts, keys[0], Nil, now) && CanTombstone(AppendValue(parts, keys[0], Nil, now, segmentBytes), keys[1..], now, segmentBytes)
  }

  lemma CompactInSync(s: OffsetState)
    requires s.parts != [] && InSync(s)
    ensures InSync(OffsetState(CompactParts(s.parts), s.entries))
    ensures LogHighWater(CompactParts(s.parts)) == LogHighWater(s.parts)
  {
    CompactKeepsMeaning(s.parts);
    hide Ordered, FoldFrom, CompactParts, TableOffsets, LogHighWater, Contents;
    CompactKeyed(s.parts);
  }

  lemma CompactKeyed(parts: seq<Part>)
    requires parts != [] && Ordered(parts) && AllKeyed(Contents(parts)) && NoneBefore(Contents(parts), 0)
    ensures AllKeyed(Contents(CompactParts(parts))) && NoneBefore(Contents(CompactParts(parts)), 0)
  {
    hide Ordered, CompactParts, Contents;
    CompactKeepsSubset(parts);
    var left := Contents(CompactParts(parts));
    forall i | 0 <= i < |left| ensures left[i].key != [] && 0 <= left[i].offset {
      assert left[i] in Contents(parts);
    }
  }

  /** The operation can be carried out: keys are not empty, offsets are int64s, records fit. */
  ghost predicate CanStep(s: OffsetState, op: OffsetOp, segmentBytes: int)
    requires s.parts != []
  {
    match op
    case Commit(key, offset, now) => IsI64(offset) && CanAppend(s.parts, key, EncodeOffset(offset), now)
    case DeleteGroup(keys, now) => CanTombstone(s.parts, keys, now, segmentBytes)
    case CompactTopic => true
  }

  lemma OffsetStepInSync(s: OffsetState, op: OffsetOp, segmentBytes: int)
    requires s.parts != [] && InSync(s) && LogHighWater(s.parts) >= 0 && CanStep(s, op, segmentBytes)
    ensures InSync(OffsetStep(s, op, segmentBytes)) && LogHighWater(OffsetStep(s, op, segmentBytes).parts) >= 0
  {
    hide InSync, AppendValue, AppendTombstones, CanAppend, CanTombstone, CompactParts, LogHighWater;
    match op
    case Commit(key, offset, now) =>
      I64RoundTrip(offset);
      AppendValueInSync(s, key, EncodeOffset(offset), now, segmentBytes);
    case DeleteGroup(keys, now) => TombstonesInSync(s, keys, now, segmentBytes);
    case CompactTopic => CompactInSync(s);
  }

  function OffsetRun(s: OffsetState, ops: seq<OffsetOp>, segmentBytes: int): (s': OffsetState)
    requires s.parts != []
    ensures s'.parts != []
    decreases |ops|
  {
    if ops == [] then s else OffsetRun(OffsetStep(s, ops[0], segmentBytes), ops[1..], segmentBytes)
  }

  ghost predicate CanRun(s: OffsetState, ops: seq<OffsetOp>, segmentBytes: int)
    requires s.parts != []
    decreases |ops|
  {
    ops != [] ==> CanStep(s, ops[0], segmentBytes) && CanRun(OffsetStep(s, ops[0], segmentBytes), ops[1..], segmentBytes)
  }

  /** Replay after any run: whatever commits and group deletions happened, and however often the
      topic rolled over and was compacted in between, a replay in batches of `max` rebuilds
      exactly the live map. */
  lemma {:induction false} ReplayRebuildsLiveMap(s: OffsetState, ops: seq<OffsetOp>, segmentBytes: int, max: nat)
    requires InSync(s) && LogHighWater(s.parts) >= 0 && CanRun(s, ops, segmentBytes) && max > 0
    ensures var s' := OffsetRun(s, ops, segmentBytes);
            ReplayEntries(ReplayParts(s'.parts, 0, max)) == s'.entries
    decreases |ops|
  {
    if ops == [] {
      ReplayOrdered(s.parts, 0, max);
      AtOrAfterAll(Contents(s.parts), 0);
      ReplayEntriesIsFold(Contents(s.parts));
    } else {
      hide InSync, OffsetStep, CanStep, LogHighWater, ReplayEntries, ReplayParts;
      OffsetStepInSync(s, ops[0], segmentBytes);
      ReplayRebuildsLiveMap(OffsetStep(s, ops[0], segmentBytes), ops[1..], segmentBytes, max);
    }
  }

  lemma FreshStoreInSync()
    ensures InSync(OffsetState([Part(0, [])], map[])) && LogHighWater([Part(0, [])]) == 0
  {
    hide Storable;
    NothingStored();
    ConcatMapOne(RecsOf, Part(0, []));
    assert Contents([Part(0, [])]) == [];
    assert TableOffsets(map[]) == map[];
  }

  /** Two commits of one key that overlap: both append, then both update the map, the later
      appender first. The map and the topic then disagree unless the two offsets are equal. */
  lemma RacingCommits(s: OffsetState, key: bytes, a: int, b: int, now: int, segmentBytes: int, max: nat)
    requires s.parts != [] && InSync(s) && LogHighWater(s.parts) >= 0 && max > 0
    requires CanRun(s, [Commit(key, a, now), Commit(key, b, now)], segmentBytes)
    ensures var parts := OffsetRun(s, [Commit(key, a, now), Commit(key, b, now)], segmentBytes).parts;
            var entries := s.entries[key := b][key := a];
            ReplayEntries(ReplayParts(parts, 0, max)) == entries <==> a == b
  {
    hide *;
    var ops := [Commit(key, a, now), Commit(key, b, now)];
    ReplayRebuildsLiveMap(s, ops, segmentBytes, max);
    TwoCommits(s, key, a, b, now, segmentBytes);
    var live, raced := s.entries[key := a][key := b], s.entries[key := b][key := a];
    assert live[key] == b && raced[key] == a;
    if a == b { assert live == raced; }
  }

  lemma TwoCommits(s: OffsetState, key: bytes, a: int, b: int, now: int, segmentBytes: int)
    requires s.parts != []
    ensures OffsetRun(s, [Commit(key, a, now), Commit(key, b, now)], segmentBytes).entries == s.entries[key := a][key := b]
  {
    hide AppendValue;
    var ops := [Commit(key, a, now), Commit(key, b, now)];
    assert ops[1..] == [Commit(key, b, now)] && ops[1..][1..] == [];
    var s1 := OffsetStep(s, ops[0], segmentBytes);
    assert OffsetRun(s, ops, segmentBytes) == OffsetRun(s1, ops[1..], segmentBytes);
    assert OffsetRun(s1, ops[1..], segmentBytes) == OffsetRun(OffsetStep(s1, ops[1], segmentBytes), [], segmentBytes);
  }

  // ----- The store object -----

  class TopicOffsetStore {
    const segmentBytes: int
    /** The single partition of the offsets topic. */
    var parts: seq<Part>
    var entries: map<bytes, int>

    ghost function State(): OffsetState
      reads this
    {
      OffsetState(parts, entries)
    }

    constructor (parts: seq<Part>, segmentBytes: int)
      ensures this.parts == parts && entries == map[] && this.segmentBytes == segmentBytes
    {
      this.parts, this.segmentBytes, entries := parts, segmentBytes, map[];
    }

    /** Rebuilds the map from the topic, 256 records at a time. */
    method Replay()
      requires entries == map[] && parts != []
      modifies this`entries
      ensures entries == ReplayEntries(ReplayParts(parts, 0, 256))
    {
      hide PartitionRead, ReplayParts, ReplayEntries;
      var cursor := 0;
      ghost var seen: seq<Record> := [];
      ghost var all := ReplayParts(parts, 0, 256);
      EmptyReplay();
      assert [] + all == all;
      var batch := PartitionRead(parts, cursor, 256);
      while |batch| != 0
        invariant batch == PartitionRead(parts, cursor, 256)
        invariant entries == ReplayEntries(seen) && seen + ReplayParts(parts, cursor, 256) == all
        decreases |AtOrAfter(Contents(parts), cursor)|
      {
        ReplayStep(parts, cursor, 256);
        Assoc(seen, batch, ReplayParts(parts, batch[|batch| - 1].offset + 1, 256));
        ApplyBatch(batch, seen);
        seen := seen + batch;
        cursor := batch[|batch| - 1].offset + 1;
        batch := PartitionRead(parts, cursor, 256);
      }
      ReplayStep(parts, cursor, 256);
      assert seen + [] == seen;
    }

    method ApplyBatch(batch: seq<Record>, ghost seen: seq<Record>)
      requires entries == ReplayEntries(seen)
      modifies this`entries
      ensures entries == ReplayEntries(seen + batch)
    {
      hide ReplayEntries;
      assert seen + batch[..0] == seen;
      for i := 0 to |batch|
        invariant entries == ReplayEntries(seen + batch[..i])
      {
        var r := batch[i];
        assert seen + batch[..i + 1] == seen + batch[..i] + [r];
        ReplayEntriesSnoc(seen + batch[..i], r);
        if r.value.Nil? { entries := entries - {r.key}; } else { entries := entries[r.key := DecodeOffset(r.value)]; }
      }
      assert batch[..|batch|] == batch;
    }

    method Commit(group: bytes, topic: bytes, partition: int, offset: int, now: int)
      requires parts != []
      modifies this
      ensures State() == OffsetStep(old(State()), OffsetOp.Commit(JoinKey(group, topic, partition), offset, now), segmentBytes)
    {
      var key := JoinKey(group, topic, partition);
      parts := AppendValue(parts, key, EncodeOffset(offset), now, segmentBytes);
      entries := entries[key := offset];
    }

    method Lookup(group: bytes, topic: bytes, partition: int) returns (offset: int)
      ensures var key := JoinKey(group, topic, partition); offset == if key in entries then entries[key] else NO_OFFSET
    {
      var key := JoinKey(group, topic, partition);
      offset := if key in entries then entries[key] else NO_OFFSET;
    }

    /** Writes a tombstone for every key whose group part is `group`, in whatever order the map
        is walked, then forgets those keys. `scan` is the Sscanf fallback of splitKey. */
    method DeleteGroup(group: bytes, scan: bytes -> (bytes, bytes, int), now: int) returns (keys: seq<bytes>)
      requires parts != []
      modifies this
      ensures forall k :: k in keys <==> k in old(entries) && SplitKey(k, scan(k)).0 == group
      ensures State() == OffsetStep(old(State()), OffsetOp.DeleteGroup(keys, now), segmentBytes)
    {
      hide SplitKey, AppendValue;
      keys := GroupKeys(group, scan);
      for i := 0 to |keys|
        invariant parts != [] && entries == old(entries)
        invariant AppendTombstones(parts, keys[i..], now, segmentBytes) == AppendTombstones(old(parts), keys, now, segmentBytes)
      {
        assert keys[i..][1..] == keys[i + 1..];
        parts := AppendValue(parts, keys[i], Nil, now, segmentBytes);
      }
      for i := 0 to |keys|
        invariant parts == AppendTombstones(old(parts), keys, now, segmentBytes)
        invariant entries == Without(old(entries), keys[..i])
      {
        assert keys[..i + 1] == keys[..i] + [keys[i]];
        entries := entries - {keys[i]};
      }
      assert keys[..|keys|] == keys;
    }

    method GroupKeys(group: bytes, scan: bytes -> (bytes, bytes, int)) returns (keys: seq<bytes>)
      ensures forall k :: k in keys <==> k in entries && SplitKey(k, scan(k)).0 == group
    {
      hide SplitKey;
      keys := [];
      var todo := entries.Keys;
      while todo != {}
        invariant todo <= entries.Keys
        invariant forall k :: k in keys <==> k in entries && k !in todo && SplitKey(k, scan(k)).0 == group
        decreases |todo|
      {
        var k :| k in todo;
        if SplitKey(k, scan(k)).0 == group { keys := keys + [k]; }
        todo := todo - {k};
      }
    }
  }

  lemma ReplayEntriesSnoc(rs: seq<Record>, r: Record)
    ensures ReplayEntries(rs + [r]) ==
            if r.value.Nil? then ReplayEntries(rs) - {r.key} else ReplayEntries(rs)[r.key := DecodeOffset(r.value)]
  {
    assert (rs + [r])[..|rs|] == rs;
  }

  lemma EmptyReplay()
    ensures ReplayEntries([]) == map[]
  {}

  /** Deleting a group removes that group's commits and no other's, for names without NULs. */
  lemma DeleteGroupIsExact(group: bytes, g: bytes, topic: bytes, partition: int, scanned: (bytes, bytes, int))
    requires NulFree(g) && NulFree(topic)
    ensures SplitKey(JoinKey(g, topic, partition), scanned).0 == group <==> g == group
  {
    KeyRoundTrip(g, topic, partition, scanned);
  }
}
