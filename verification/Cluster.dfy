/** Follower catch-up: copying a peer's log, then applying replicated append commands behind the
    offset guard (broker/internal/cluster/sync.go, applyAppend in broker/internal/cluster/fsm.go). */
module Cluster {
  import opened Records
  import opened StoreSpec
  import opened Storage

  const OFFSET_UNSTAMPED := -1

  // ----- Sync -----

  /** What the select in the sync loop can receive. */
  datatype Delivery = Got(r: Record) | StreamClosed | PeerError | ErrorsClosed | Cancelled

  /** What the caller learns besides the count: a nil error, the peer's error, the context's, or
      nothing yet. */
  datatype SyncStatus = NilError | PeerFailed | Stopped | Waiting

  datatype Synced = Synced(log: seq<Record>, appended: nat, status: SyncStatus)

  /** The loop on the values delivered to it; `Waiting` when they run out before it returns. */
  function SyncLoop(log: seq<Record>, target: int, ds: seq<Delivery>, now: int): Synced
    decreases |ds|
  {
    if ds == [] then Synced(log, 0, Waiting) else
      match ds[0]
      case Got(r) =>
        var log' := log + [Stamp(r, |log|, now)];
        if |log'| >= target then Synced(log', 1, NilError)
        else var s := SyncLoop(log', target, ds[1..], now); s.(appended := s.appended + 1)
      case StreamClosed => Synced(log, 0, NilError)
      case PeerError => Synced(log, 0, PeerFailed)
      case Cancelled => Synced(log, 0, Stopped)
      case ErrorsClosed => SyncLoop(log, target, ds[1..], now)
  }

  function Sync(log: seq<Record>, target: int, ds: seq<Delivery>, now: int): Synced {
    if |log| >= target then Synced(log, 0, NilError) else SyncLoop(log, target, ds, now)
  }

  /** SyncPartitionFromPeer: `target` is the peer's high water at the call. */
  method SyncPartitionFromPeer(local: MemoryStore, p: PartitionRef, target: int, ds: seq<Delivery>, now: int)
    returns (appended: nat, status: SyncStatus)
    modifies local
    ensures var s := Sync(MemLog(old(local.partitions), p), target, ds, now);
            && appended == s.appended && status == s.status && MemLog(local.partitions, p) == s.log
            && forall q :: q != p ==> MemLog(local.partitions, q) == MemLog(old(local.partitions), q)
  {
    appended := 0;
    var hw := local.HighWater(p);
    if hw >= target { return appended, NilError; }
    ghost var log := MemLog(local.partitions, p);
    var i := 0;
    while i < |ds|
      invariant 0 <= i <= |ds|
      invariant forall q :: q != p ==> MemLog(local.partitions, q) == MemLog(old(local.partitions), q)
      invariant var s, rest := SyncLoop(log, target, ds, now), SyncLoop(MemLog(local.partitions, p), target, ds[i..], now);
                s == rest.(appended := rest.appended + appended)
    {
      var d := ds[i];
      assert ds[i..][1..] == ds[i + 1..];
      i := i + 1;
      match d
      case Got(r) =>
        var offset := local.Append(p, r, now);
        appended := appended + 1;
        hw := local.HighWater(p);
        if hw >= target { return appended, NilError; }
      case StreamClosed => return appended, NilError;
      case PeerError => return appended, PeerFailed;
      case Cancelled => return appended, Stopped;
      case ErrorsClosed =>
    }
    status := Waiting;
  }

  /** Offsets count up from zero and timestamps are set, as in any log a store has written. */
  ghost predicate Settled(log: seq<Record>) {
    forall i :: 0 <= i < |log| ==> log[i].offset == i && log[i].timestamp != 0
  }

  /** The records the subscription hands over, in order. */
  function Received(ds: seq<Delivery>): seq<Record> {
    if ds == [] then [] else (if ds[0].Got? then [ds[0].r] else []) + Received(ds[1..])
  }

  /** A subscription delivers the peer's log from `from` on, without gap or repetition. */
  ghost predicate Follows(ds: seq<Delivery>, peer: seq<Record>, from: nat) {
    from <= |peer| && Received(ds) <= peer[from..]
  }

  lemma {:induction false} SyncLoopCopies(peer: seq<Record>, k: nat, target: int, ds: seq<Delivery>, now: int)
    requires Settled(peer) && Follows(ds, peer, k) && k < target
    ensures var s := SyncLoop(peer[..k], target, ds, now);
            && k + s.appended <= |peer| && s.log == peer[..k + s.appended] && k + s.appended <= target
            && (k + s.appended == target ==> s.status == NilError)
            && (s.status == NilError && k + s.appended < target ==> StreamClosed in ds)
    decreases |ds|
  {
    if ds != [] {
      if ds[0].Got? {
        assert Received(ds)[0] == peer[k..][0];
        assert ds[0].r == peer[k];
        assert peer[..k + 1] == peer[..k] + [Stamp(ds[0].r, k, now)];
        assert peer[k..][1..] == peer[k + 1..] && Received(ds)[1..] == Received(ds[1..]);
        if k + 1 < target { SyncLoopCopies(peer, k + 1, target, ds[1..], now); }
      } else {
        SyncLoopCopies(peer, k, target, ds[1..], now);
      }
    }
  }

  /** Starting from a prefix of the peer's log, whatever interrupts it, a sync leaves a prefix of
      it. A nil error alone does not say how long a prefix: it is also what a stream that closes
      early returns. A nil error together with a count that makes up for what was missing says that
      the log is the peer's up to the target, and nothing less does. */
  lemma SyncCopies(peer: seq<Record>, k: nat, target: int, ds: seq<Delivery>, now: int)
    requires Settled(peer) && Follows(ds, peer, k)
    ensures var s := Sync(peer[..k], target, ds, now);
            && k + s.appended <= |peer| && s.log == peer[..k + s.appended]
            && (k <= target <= |peer| ==> (s.status == NilError && k + s.appended >= target <==> s.log == peer[..target]))
            && (s.status == NilError && k + s.appended < target ==> StreamClosed in ds)
  {
    if k < target { SyncLoopCopies(peer, k, target, ds, now); }
  }

  /** A stream that closes at once: nothing was copied, and the error is nil. */
  lemma EarlyCloseIsNil(log: seq<Record>, target: int, now: int)
    ensures Sync(log, target, [StreamClosed], now) == Synced(log, 0, NilError)
  {}

  // ----- Replicated appends -----

  datatype AppendCommand = AppendCommand(offset: int, record: Record)

  /** The guard: a stamped offset below the local high water is already there. */
  function Apply(log: seq<Record>, cmd: AppendCommand, now: int): (seq<Record>, int) {
    if cmd.offset != OFFSET_UNSTAMPED && cmd.offset < |log| then (log, cmd.offset)
    else (log + [Stamp(cmd.record, |log|, now)], |log|)
  }

  class FSM {
    const store: MemoryStore

    constructor (store: MemoryStore)
      ensures this.store == store
    {
      this.store := store;
    }

    method ApplyAppend(p: PartitionRef, cmd: AppendCommand, now: int) returns (offset: int)
      modifies store
      ensures (MemLog(store.partitions, p), offset) == Apply(MemLog(old(store.partitions), p), cmd, now)
      ensures forall q :: q != p ==> MemLog(store.partitions, q) == MemLog(old(store.partitions), q)
    {
      if cmd.offset != OFFSET_UNSTAMPED {
        var hw := store.HighWater(p);
        if cmd.offset < hw { return cmd.offset; }
      }
      offset := store.Append(p, cmd.record, now);
    }
  }

  /** The command that replicates record `i` of the log. */
  function CommandFor(log: seq<Record>, i: nat): AppendCommand
    requires i < |log|
  {
    AppendCommand(i, log[i])
  }

  function ApplyAll(local: seq<Record>, log: seq<Record>, cs: seq<nat>, now: int): seq<Record>
    requires forall k :: 0 <= k < |cs| ==> cs[k] < |log|
  {
    if cs == [] then local
    else Apply(ApplyAll(local, log, cs[..|cs| - 1], now), CommandFor(log, cs[|cs| - 1]), now).0
  }

  /** One command on a prefix: it keeps a prefix exactly when it is not ahead of the high water, or by
      chance carries the record that belongs there. */
  lemma ApplyIff(log: seq<Record>, k: nat, i: nat, now: int)
    requires Settled(log) && k <= |log| && i < |log|
    ensures var (local, offset) := Apply(log[..k], CommandFor(log, i), now);
            && (i < k ==> local == log[..k] && offset == i)
            && (i == k ==> local == log[..k + 1] && offset == i)
            && (i > k ==> offset == k && (local <= log <==> log[i].(offset := k) == log[k]))
  {
    var local := Apply(log[..k], CommandFor(log, i), now).0;
    if i == k { assert log[..k + 1] == log[..k] + [log[k]]; }
    if i > k {
      assert local == log[..k] + [log[i].(offset := k)];
      if local <= log { assert local[k] == log[k]; }
      if log[i].(offset := k) == log[k] { assert log[..k + 1] == local; }
    }
  }

  /** Commands never run ahead: each replicates a record already held or the next one. */
  ghost predicate NotAhead(k: nat, cs: seq<nat>) {
    forall m :: 0 <= m < |cs| ==> cs[m] <= k || exists j :: 0 <= j < m && cs[j] == cs[m] - 1
  }

  function Covered(k: nat, cs: seq<nat>): (n: nat)
    ensures n >= k
  {
    if cs == [] then k else var n := Covered(k, cs[..|cs| - 1]); if cs[|cs| - 1] >= n then cs[|cs| - 1] + 1 else n
  }

  lemma {:induction false} CoveredHolds(k: nat, cs: seq<nat>)
    ensures forall m :: 0 <= m < |cs| ==> cs[m] < Covered(k, cs)
  {
    if cs != [] { CoveredHolds(k, cs[..|cs| - 1]); }
  }

  /** Applying commands in order, with any of them replayed any number of times in between, yields
      exactly a prefix of the replicated log: nothing missing, nothing twice. */
  lemma {:induction false} ReplicationIsExact(log: seq<Record>, k: nat, cs: seq<nat>, now: int)
    requires Settled(log) && k <= |log| && NotAhead(k, cs) && forall m :: 0 <= m < |cs| ==> cs[m] < |log|
    ensures Covered(k, cs) <= |log| && ApplyAll(log[..k], log, cs, now) == log[..Covered(k, cs)]
  {
    if cs != [] {
      var init, i := cs[..|cs| - 1], cs[|cs| - 1];
      assert NotAhead(k, init) by { hide *; NotAheadPrefix(k, cs); }
      ReplicationIsExact(log, k, init, now);
      CoveredHolds(k, init);
      var n := Covered(k, init);
      assert i <= n by {
        if i > k { var j :| 0 <= j < |cs| - 1 && cs[j] == i - 1; assert init[j] == i - 1; }
      }
      ApplyIff(log, n, i, now);
    }
  }

  lemma NotAheadPrefix(k: nat, cs: seq<nat>)
    requires cs != [] && NotAhead(k, cs)
    ensures NotAhead(k, cs[..|cs| - 1])
  {
    var init := cs[..|cs| - 1];
    forall m | 0 <= m < |init| ensures init[m] <= k || exists j :: 0 <= j < m && init[j] == init[m] - 1 {
      if cs[m] > k {
        var j :| 0 <= j < m && cs[j] == cs[m] - 1;
        assert init[j] == init[m] - 1;
      }
    }
  }

  /** Commands `a`, …, `b - 1` in order. */
  function InOrder(a: nat, b: nat): (cs: seq<nat>)
    requires a <= b
    ensures |cs| == b - a && forall m :: 0 <= m < |cs| ==> cs[m] == a + m
  {
    seq(b - a, m requires 0 <= m < b - a => a + m)
  }

  lemma {:induction false} InOrderCovers(k: nat, a: nat, b: nat)
    requires a <= k && a <= b
    ensures NotAhead(k, InOrder(a, b)) && Covered(k, InOrder(a, b)) == if b >= k then b else k
    decreases b
  {
    var cs := InOrder(a, b);
    forall m | 0 <= m < |cs| && cs[m] > k ensures exists j :: 0 <= j < m && cs[j] == cs[m] - 1 { assert cs[m - 1] == cs[m] - 1; }
    if a < b {
      InOrderCovers(k, a, b - 1);
      assert cs[..|cs| - 1] == InOrder(a, b - 1);
    }
  }

  /** After any sync, commands from anywhere at or before what was copied up to `b` leave exactly
      the replicated log up to whichever is further. */
  lemma CatchUpFrom(log: seq<Record>, held: nat, target: nat, ds: seq<Delivery>, a: nat, b: nat, now: int)
    requires Settled(log) && held <= |log| && Follows(ds, log, held) && a <= b <= |log|
    requires a <= held + Sync(log[..held], target, ds, now).appended
    ensures var s := Sync(log[..held], target, ds, now);
            var n := held + s.appended;
            n <= |log| && ApplyAll(s.log, log, InOrder(a, b), now) == log[..if b >= n then b else n]
  {
    hide Follows, Sync, Settled;
    SyncCopies(log, held, target, ds, now);
    var n := held + Sync(log[..held], target, ds, now).appended;
    InOrderCovers(n, a, b);
    ReplicationIsExact(log, n, InOrder(a, b), now);
  }

  /** Catch-up converges: a sync whose caller sees a nil error and a count that makes up for what
      was missing, followed by the commands from anywhere at or before the target up to `b`, leaves
      exactly the replicated log up to whichever is further. */
  lemma CatchUpConverges(log: seq<Record>, held: nat, target: nat, ds: seq<Delivery>, a: nat, b: nat, now: int)
    requires Settled(log) && held <= target <= |log| && a <= target && a <= b <= |log| && Follows(ds, log, held)
    requires var s := Sync(log[..held], target, ds, now); s.status == NilError && held + s.appended >= target
    ensures ApplyAll(Sync(log[..held], target, ds, now).log, log, InOrder(a, b), now) == log[..if b >= target then b else target]
  {
    hide Follows, Sync, Settled, InOrder, ApplyAll;
    SyncCopies(log, held, target, ds, now);
    var s := Sync(log[..held], target, ds, now);
    assert |s.log| == target;
    CatchUpFrom(log, held, target, ds, a, b, now);
  }

  /** The count matters: after a sync that ended early with a nil error, the command for the target
      lands one offset too low, and the log is no longer a prefix of the replicated one unless the
      two records happen to be the same. */
  lemma EarlyCloseDiverges(log: seq<Record>, k: nat, now: int)
    requires Settled(log) && k + 1 < |log|
    ensures var s := Sync(log[..k], k + 1, [StreamClosed], now);
            && s.status == NilError && s.appended == 0
            && (ApplyAll(s.log, log, InOrder(k + 1, k + 2), now) <= log <==> log[k + 1].(offset := k) == log[k])
  {
    EarlyCloseIsNil(log[..k], k + 1, now);
    var cs := InOrder(k + 1, k + 2);
    assert cs[..0] == [];
    ApplyIff(log, k, k + 1, now);
  }

  /** Without a stamp there is no guard: replaying a command stores its record again. */
  lemma UnstampedDuplicates(log: seq<Record>, r: Record, now: int)
    ensures var cmd := AppendCommand(OFFSET_UNSTAMPED, r);
            var twice := Apply(Apply(log, cmd, now).0, cmd, now).0;
            |twice| == |log| + 2 && twice[|log| + 1] == twice[|log|].(offset := |log| + 1)
  {
  }
}
