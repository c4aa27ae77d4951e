/** One consumer group as a state machine: membership, rebalancing, generations and long-poll
    watchers (broker/internal/groups/manager.go). */
module Groups {
  import opened Seqs
  import opened Wrappers
  import opened Records
  import opened Lexical
  import opened Assign
  import opened Sticky

  datatype GroupStrategy = RangeStrategy | RoundRobinStrategy | StickyStrategy

  datatype Config = Config(strategy: GroupStrategy, sessionTimeout: int, counts: PartitionsFor)

  /** One outstanding long-poll heartbeat: its wake channel, and the member and generation it came with. */
  datatype Watcher = Watcher(channel: nat, member: string, generation: int)

  /** `members` maps each member to its last heartbeat. */
  datatype Group = Group(
    topics: seq<string>, members: map<string, int>, assignments: Assignment,
    generation: int, dirty: bool, watchers: seq<Watcher>)

  const NEW_GROUP := Group([], map[], map[], 0, false, [])

  // ----- Topics -----

  /** The elements of `s`, each at its last occurrence. */
  function Deduplicated(s: seq<string>): seq<string> {
    if s == [] then [] else if s[0] in s[1..] then Deduplicated(s[1..]) else [s[0]] + Deduplicated(s[1..])
  }

  function MergeTopics(a: seq<string>, b: seq<string>): seq<string> { Sort(Deduplicated(a + b)) }

  lemma {:induction false} DeduplicatedIs(s: seq<string>)
    ensures Distinct(Deduplicated(s)) && forall x :: x in Deduplicated(s) <==> x in s
  {
    if s != [] {
      DeduplicatedIs(s[1..]);
      assert s == [s[0]] + s[1..];
    }
  }

  /** The sorted union; its length tells whether a topic is new. */
  lemma MergeTopicsIs(a: seq<string>, b: seq<string>)
    requires Distinct(a)
    ensures var m := MergeTopics(a, b);
            && Distinct(m) && Ascending(m) && (forall x :: x in m <==> x in a || x in b)
            && (|m| == |a| <==> forall x :: x in b ==> x in a)
  {
    DeduplicatedIs(a + b);
    SortSorts(Deduplicated(a + b));
    SortDistinct(Deduplicated(a + b));
    var m := MergeTopics(a, b);
    hide MergeTopics, Ascending;
    forall x: string ensures x in m <==> x in a || x in b {
      assert x in a + b <==> x in a || x in b;
    }
    SameSize(a, m);
  }

  // ----- Members -----

  ghost function Pick(s: set<string>): (x: string)
    requires s != {}
    ensures x in s
  {
    var x :| x in s; x
  }

  /** The elements of a set in some order. */
  ghost function ToSeq(s: set<string>): seq<string> {
    if s == {} then [] else [Pick(s)] + ToSeq(s - {Pick(s)})
  }

  lemma {:induction false} ToSeqHolds(s: set<string>)
    ensures Distinct(ToSeq(s)) && forall x :: x in ToSeq(s) <==> x in s
    decreases s
  {
    hide Pick;
    if s != {} {
      var x, rest := Pick(s), ToSeq(s - {Pick(s)});
      ToSeqHolds(s - {x});
      DistinctCons(x, rest);
    }
  }

  lemma ToSeqIs(s: set<string>)
    ensures Distinct(ToSeq(s)) && multiset(ToSeq(s)) == multiset(s) && forall x :: x in ToSeq(s) <==> x in s
  {
    ToSeqHolds(s);
    hide ToSeq;
    forall x: string ensures multiset(ToSeq(s))[x] == multiset(s)[x] { OneOccurrence(ToSeq(s), x); }
  }

  /** The member ids in lexical order. */
  ghost function Ids(members: map<string, int>): seq<string> { Sort(ToSeq(members.Keys)) }

  lemma IdsAre(members: map<string, int>)
    ensures Distinct(Ids(members)) && (forall x :: x in Ids(members) <==> x in members)
    ensures (set m | m in Ids(members)) == members.Keys && (Ids(members) == [] <==> members == map[])
    ensures multiset(Ids(members)) == multiset(members.Keys)
  {
    hide Sort, ToSeq;
    ToSeqIs(members.Keys);
    SortDistinct(ToSeq(members.Keys));
    SortSorts(ToSeq(members.Keys));
    if members != map[] {
      var m :| m in members;
      assert m in Ids(members);
    }
    if Ids(members) != [] { assert Ids(members)[0] in members; }
  }

  function Stale(c: Config, g: Group, now: int): set<string> {
    set id | id in g.members && g.members[id] < now - c.sessionTimeout
  }

  /** Drops members whose last heartbeat is too old; dropping anyone wakes every watcher. */
  function Evict(c: Config, g: Group, now: int): (res: (Group, seq<Watcher>)) {
    var gone := Stale(c, g, now);
    if gone == {} then (g, [])
    else (g.(members := g.members - gone, assignments := g.assignments - gone, dirty := true, watchers := []), g.watchers)
  }

  ghost function Computed(c: Config, g: Group): Option<Assignment> {
    match c.strategy
    case RangeStrategy => AssignTopics(ByRange, Ids(g.members), g.topics, c.counts)
    case RoundRobinStrategy => AssignTopics(ByRoundRobin, Ids(g.members), g.topics, c.counts)
    case StickyStrategy => StickyAssign(Ids(g.members), g.topics, c.counts, g.assignments)
  }

  ghost function Rebalance(c: Config, g: Group): Option<Group> {
    match Computed(c, g)
    case None => None
    case Some(a) => Some(g.(assignments := a, generation := g.generation + 1, dirty := false, watchers := []))
  }

  // ----- Operations -----

  datatype JoinResult = JoinResult(member: string, generation: int, parts: seq<PartitionRef>)

  /** `now1` and `now2` are the two clock readings a call makes, in order. */
  datatype Op =
    | Join(member: string, topics: seq<string>, now1: int, now2: int)
    | Heartbeat(member: string, generation: int, now1: int, now2: int)
    | HeartbeatWait(member: string, generation: int, channel: nat, now1: int, now2: int)
    | Unwatch(channel: nat)
    | Leave(member: string)

  datatype Out = Joined(r: JoinResult) | NoTopics | LookupFailed | Beat(rebalanceNeeded: bool) | UnknownMember | Done

  /** The group after a call, the answer, and the watchers signalled by it. */
  datatype Result = Result(g: Group, out: Out, woken: seq<Watcher>)

  function Enrolled(g: Group, member: string, topics: seq<string>, now: int): Group {
    g.(members := g.members[member := now], topics := MergeTopics(g.topics, topics))
  }

  ghost function JoinStep(c: Config, g: Group, member: string, topics: seq<string>, now1: int, now2: int): Result {
    if topics == [] then Result(g, NoTopics, []) else
      var g1 := Enrolled(g, member, topics, now1);
      var (g2, woken) := Evict(c, g1, now2);
      if member in g.members && |g1.topics| == |g.topics| && Stale(c, g1, now2) == {} && !g2.dirty then
        Result(g2, Joined(JoinResult(member, g2.generation, Owned(g2.assignments, member))), woken)
      else
        match Rebalance(c, g2)
        case None => Result(g2, LookupFailed, woken)
        case Some(g3) => Result(g3, Joined(JoinResult(member, g3.generation, Owned(g3.assignments, member))), woken + g2.watchers)
  }

  function HeartbeatStep(c: Config, g: Group, member: string, generation: int, now1: int, now2: int): Result {
    if member !in g.members then Result(g, UnknownMember, []) else
      var (g2, woken) := Evict(c, g.(members := g.members[member := now1]), now2);
      Result(g2, Beat(generation != g2.generation || g2.dirty), woken)
  }

  function WaitStep(c: Config, g: Group, member: string, generation: int, channel: nat, now1: int, now2: int): Result {
    var res := HeartbeatStep(c, g, member, generation, now1, now2);
    if res.out != Beat(false) then res
    else res.(g := res.g.(watchers := res.g.watchers + [Watcher(channel, member, generation)]))
  }

  function RemoveFirst(ws: seq<Watcher>, channel: nat): seq<Watcher> {
    if ws == [] then [] else if ws[0].channel == channel then ws[1..] else [ws[0]] + RemoveFirst(ws[1..], channel)
  }

  function LeaveStep(g: Group, member: string): Result {
    if member !in g.members then Result(g, Done, []) else
      Result(g.(members := g.members - {member}, assignments := g.assignments - {member}, dirty := true, watchers := []), Done, g.watchers)
  }

  ghost function Step(c: Config, g: Group, op: Op): Result {
    match op
    case Join(member, topics, now1, now2) => JoinStep(c, g, member, topics, now1, now2)
    case Heartbeat(member, generation, now1, now2) => HeartbeatStep(c, g, member, generation, now1, now2)
    case HeartbeatWait(member, generation, channel, now1, now2) => WaitStep(c, g, member, generation, channel, now1, now2)
    case Unwatch(channel) => Result(g.(watchers := RemoveFirst(g.watchers, channel)), Done, [])
    case Leave(member) => LeaveStep(g, member)
  }

  // ----- No lost wake-up -----

  /** Waiting members exist only in a clean group, all at its current generation. */
  ghost predicate WatchInv(g: Group) {
    g.watchers != [] ==> !g.dirty && forall w :: w in g.watchers ==> w.generation == g.generation
  }

  predicate Outdated(g: Group, w: Watcher) { g.dirty || w.generation != g.generation }

  /** Every watcher the call leaves outdated is signalled by that very call, and any other is still
      registered unless it asked to be removed. */
  ghost predicate NoneLost(g: Group, res: Result, op: Op) {
    forall w :: w in g.watchers ==>
      && (Outdated(res.g, w) ==> w in res.woken)
      && (w in res.woken || w in res.g.watchers || op == Unwatch(w.channel))
  }

  lemma {:induction false} RemoveFirstIs(ws: seq<Watcher>, channel: nat)
    ensures forall w :: w in RemoveFirst(ws, channel) ==> w in ws
    ensures forall w :: w in ws ==> w in RemoveFirst(ws, channel) || w.channel == channel
  {
    if ws != [] && ws[0].channel != channel {
      RemoveFirstIs(ws[1..], channel);
      assert ws == [ws[0]] + ws[1..];
    }
  }

  lemma StepWakes(c: Config, g: Group, op: Op)
    requires WatchInv(g)
    ensures WatchInv(Step(c, g, op).g) && NoneLost(g, Step(c, g, op), op)
  {
    hide Computed, MergeTopics, Stale;
    if op.Unwatch? { RemoveFirstIs(g.watchers, op.channel); }
  }

  ghost function Run(c: Config, g: Group, ops: seq<Op>): Group
    decreases |ops|
  {
    if ops == [] then g else Run(c, Step(c, g, ops[0]).g, ops[1..])
  }

  /** In every state a group can reach, whatever the clock does and whether or not lookups fail, no
      wake-up is lost: the next call, whichever it is, signals every waiting member it leaves
      behind. */
  lemma {:induction false} NoLostWakeUp(c: Config, g: Group, ops: seq<Op>, op: Op)
    requires WatchInv(g)
    ensures WatchInv(Run(c, g, ops)) && NoneLost(Run(c, g, ops), Step(c, Run(c, g, ops), op), op)
    decreases |ops|
  {
    hide Step, NoneLost, WatchInv;
    if ops == [] {
      StepWakes(c, g, op);
    } else {
      StepWakes(c, g, ops[0]);
      NoLostWakeUp(c, Step(c, g, ops[0]).g, ops[1..], op);
    }
  }

  // ----- Exact cover -----

  /** The subscribed topics are sorted and listed once. */
  ghost predicate TopicsInv(g: Group) { Distinct(g.topics) && Ascending(g.topics) }

  lemma StepKeepsTopics(c: Config, g: Group, op: Op)
    requires TopicsInv(g)
    ensures TopicsInv(Step(c, g, op).g)
  {
    hide Computed, MergeTopics, Stale, Ascending;
    if op.Join? { MergeTopicsIs(g.topics, op.topics); }
  }

  /** A clean group with members hands out every partition of every subscribed topic exactly once. */
  ghost predicate CoverInv(c: Config, g: Group) {
    !g.dirty && g.members != map[] ==>
      && AllPartitions(g.topics, c.counts).Some?
      && g.assignments.Keys == g.members.Keys
      && ExactCover(g.assignments, Ids(g.members), AllPartitions(g.topics, c.counts).value)
  }

  lemma {:induction false} NobodyGetsNothing(s: Strategy, topics: seq<string>, counts: PartitionsFor)
    ensures AssignTopics(s, [], topics, counts).Some? ==> AssignTopics(s, [], topics, counts).value == map[]
    decreases |topics|
  {
    if topics != [] {
      NobodyGetsNothing(s, topics[..|topics| - 1], counts);
      assert Sort([]) == [];
    }
  }

  /** Whatever the strategy, a rebalance fails exactly when a count cannot be looked up, and
      otherwise its result is an exact cover. */
  lemma ComputedCovers(c: Config, g: Group)
    requires Distinct(g.topics) && g.members != map[]
    ensures Computed(c, g).Some? <==> AllPartitions(g.topics, c.counts).Some?
    ensures Computed(c, g).Some? ==>
              var a := Computed(c, g).value;
              a.Keys == g.members.Keys && ExactCover(a, Ids(g.members), AllPartitions(g.topics, c.counts).value)
  {
    hide AssignTopics, StickyAssign, AllPartitions, Ids, ExactCover;
    IdsAre(g.members);
    var ids := Ids(g.members);
    match c.strategy {
      case RangeStrategy => AssignCovers(ByRange, ids, g.topics, c.counts);
      case RoundRobinStrategy => AssignCovers(ByRoundRobin, ids, g.topics, c.counts);
      case StickyStrategy => StickyCovers(ids, g.topics, c.counts, g.assignments);
    }
    if Computed(c, g).Some? {
      AllPartitionsDistinct(g.topics, c.counts);
      CoverIsExact(Computed(c, g).value, ids, AllPartitions(g.topics, c.counts).value);
    }
  }

  lemma SameKeysSameIds(a: map<string, int>, b: map<string, int>)
    requires a.Keys == b.Keys
    ensures Ids(a) == Ids(b) && (a == map[] <==> b == map[])
  {
    if a != map[] { var m :| m in a; assert m in b; }
    if b != map[] { var m :| m in b; assert m in a; }
  }

  /** The one way out of the invariant: a join whose lookup fails in a group that was clean and
      evicted nobody. */
  predicate JoinFailsClean(res: Result) { res.out.LookupFailed? && !res.g.dirty }

  /** Nobody, the joining member included, counts as stale once the join has refreshed it. */
  predicate NobodyExpires(c: Config, g: Group, member: string, now1: int, now2: int) {
    now1 >= now2 - c.sessionTimeout &&
    forall id :: id in g.members && id != member ==> g.members[id] >= now2 - c.sessionTimeout
  }

  /** The same, read off the group and the call before it is made: a join in a clean group in which
      nobody expires, by a new member or for a new topic, with some topic, known or new, whose
      partition count cannot be looked up. */
  ghost predicate LeavesGap(c: Config, g: Group, op: Op) {
    && op.Join? && op.topics != [] && !g.dirty
    && NobodyExpires(c, g, op.member, op.now1, op.now2)
    && (op.member !in g.members || exists t :: t in op.topics && t !in g.topics)
    && exists t :: (t in g.topics || t in op.topics) && c.counts(t).None?
  }

  lemma {:induction false} LookupIff(topics: seq<string>, counts: PartitionsFor)
    ensures AllPartitions(topics, counts).Some? <==> forall t :: t in topics ==> counts(t).Some?
    decreases |topics|
  {
    if topics != [] {
      var init, last := topics[..|topics| - 1], topics[|topics| - 1];
      LookupIff(init, counts);
      assert topics == init + [last];
    }
  }

  lemma StaleIff(c: Config, g: Group, member: string, topics: seq<string>, now1: int, now2: int)
    ensures Stale(c, Enrolled(g, member, topics, now1), now2) == {} <==> NobodyExpires(c, g, member, now1, now2)
  {
    hide MergeTopics;
    var g1 := Enrolled(g, member, topics, now1);
    if Stale(c, g1, now2) == {} {
      assert member !in Stale(c, g1, now2);
      forall id | id in g.members && id != member ensures g.members[id] >= now2 - c.sessionTimeout {
        assert id !in Stale(c, g1, now2);
      }
    }
  }

  /** The condition is exactly the failure. */
  lemma FailsCleanIff(c: Config, g: Group, op: Op)
    requires TopicsInv(g)
    ensures JoinFailsClean(Step(c, g, op)) <==> LeavesGap(c, g, op)
  {
    hide Computed, Owned, Ascending, Stale, NobodyExpires, AllPartitions;
    if op.Join? && op.topics != [] {
      StaleIff(c, g, op.member, op.topics, op.now1, op.now2);
      MergeTopicsIs(g.topics, op.topics);
      hide MergeTopics;
      var g1 := Enrolled(g, op.member, op.topics, op.now1);
      if !g.dirty && Stale(c, g1, op.now2) == {} {
        assert op.member in g1.members;
        ComputedCovers(c, g1);
        LookupIff(g1.topics, c.counts);
      }
    }
  }

  lemma JoinCovers(c: Config, g: Group, member: string, topics: seq<string>, now1: int, now2: int)
    requires TopicsInv(g) && CoverInv(c, g)
    ensures var res := JoinStep(c, g, member, topics, now1, now2);
            CoverInv(c, res.g) <==> !JoinFailsClean(res)
  {
    hide Computed, ExactCover, AllPartitions, Ids, Owned, Ascending;
    if topics != [] {
      MergeTopicsIs(g.topics, topics);
      hide MergeTopics;
      var g1 := Enrolled(g, member, topics, now1);
      var g2 := Evict(c, g1, now2).0;
      if g2.members != map[] { ComputedCovers(c, g2); }
      if !g2.dirty {
        assert member in g2.members;
        if member in g.members && |g1.topics| == |g.topics| {
          assert g1.members.Keys == g.members.Keys;
          SameKeysSameIds(g1.members, g.members);
          SameTopics(g.topics, topics);
        }
      }
    }
  }

  /** Merging topics that are all known already changes nothing, once the list is sorted. */
  lemma SameTopics(a: seq<string>, b: seq<string>)
    requires Distinct(a) && Ascending(a) && |MergeTopics(a, b)| == |a|
    ensures MergeTopics(a, b) == a
  {
    MergeTopicsIs(a, b);
    hide MergeTopics;
    var m := MergeTopics(a, b);
    forall x: string ensures multiset(m)[x] == multiset(a)[x] {
      OneOccurrence(m, x);
      OneOccurrence(a, x);
    }
    AscendingUnique(m, a);
  }

  /** Exactly when a call leaves the invariant standing. */
  lemma StepCovers(c: Config, g: Group, op: Op)
    requires TopicsInv(g) && CoverInv(c, g)
    ensures CoverInv(c, Step(c, g, op).g) <==> !LeavesGap(c, g, op)
  {
    hide ExactCover, AllPartitions, Ids, JoinStep, LeavesGap;
    FailsCleanIff(c, g, op);
    match op
    case Join(member, topics, now1, now2) => JoinCovers(c, g, member, topics, now1, now2);
    case Heartbeat(member, generation, now1, now2) => if member in g.members { BeatCovers(c, g, member, now1, now2); }
    case HeartbeatWait(member, generation, channel, now1, now2) => if member in g.members { BeatCovers(c, g, member, now1, now2); }
    case Unwatch(channel) =>
    case Leave(member) =>
  }

  lemma BeatCovers(c: Config, g: Group, member: string, now1: int, now2: int)
    requires CoverInv(c, g) && member in g.members
    ensures CoverInv(c, Evict(c, g.(members := g.members[member := now1]), now2).0)
  {
    hide ExactCover, AllPartitions, Ids;
    SameKeysSameIds(g.members[member := now1], g.members);
  }

  /** No call of the run is one that leaves a gap. */
  ghost predicate GapFree(c: Config, g: Group, ops: seq<Op>)
    decreases |ops|
  {
    ops != [] ==> !LeavesGap(c, g, ops[0]) && GapFree(c, Step(c, g, ops[0]).g, ops[1..])
  }

  /** In every state a group can reach without such a call, a clean group covers every partition
      exactly once, whether its last join rebalanced or skipped. */
  lemma {:induction false} AlwaysCovered(c: Config, g: Group, ops: seq<Op>)
    requires TopicsInv(g) && CoverInv(c, g) && GapFree(c, g, ops)
    ensures TopicsInv(Run(c, g, ops)) && CoverInv(c, Run(c, g, ops))
    decreases |ops|
  {
    hide Step, CoverInv, TopicsInv;
    if ops != [] {
      StepCovers(c, g, ops[0]);
      StepKeepsTopics(c, g, ops[0]);
      AlwaysCovered(c, Step(c, g, ops[0]).g, ops[1..]);
    }
  }

  /** With lookups that always succeed no run has one. */
  lemma {:induction false} LookupsSucceed(c: Config, g: Group, ops: seq<Op>)
    requires forall t :: c.counts(t).Some?
    ensures GapFree(c, g, ops)
    decreases |ops|
  {
    hide Step;
    if ops != [] { LookupsSucceed(c, Step(c, g, ops[0]).g, ops[1..]); }
  }

  /** It does happen: a first join whose topic has no partition count enrols the member in a clean
      group without an assignment, and joining again then skips the rebalance and succeeds with
      nothing. */
  lemma FailedJoinLeavesGap(c: Config, member: string, topic: string, now1: int, now2: int)
    requires c.counts(topic).None? && now1 >= now2 - c.sessionTimeout
    ensures var op := Join(member, [topic], now1, now2);
            var res := Step(c, NEW_GROUP, op);
            && res.out == LookupFailed && !CoverInv(c, res.g)
            && Step(c, res.g, op).out == Joined(JoinResult(member, 0, []))
  {
    hide Ids, AssignTopics, StickyAssign, AllPartitions, MergeTopics;
    OneTopic(topic);
    LookupFails(ByRange, [], [topic], c.counts, 0);
    var g1 := Enrolled(NEW_GROUP, member, [topic], now1);
    assert member in g1.members && g1.topics == [topic];
    ComputedCovers(c, g1);
    hide Computed;
    assert Stale(c, g1, now2) == {};
    assert Enrolled(g1, member, [topic], now1) == g1;
  }

  lemma OneTopic(topic: string)
    ensures MergeTopics([], [topic]) == [topic] && MergeTopics([topic], [topic]) == [topic]
  {
    assert [] + [topic] == [topic] && [topic] + [topic] == [topic, topic];
    assert [topic, topic][1..] == [topic] && [topic][1..] == [];
    assert Deduplicated([topic]) == [topic] && Deduplicated([topic, topic]) == [topic];
    assert Sort([]) == [] && Insert(topic, []) == [topic];
  }

  // ----- Exclusive ownership -----

  /** A group with its past: the assignment computed at each generation, and every join result
      handed out. */
  datatype History = History(g: Group, plans: map<int, Assignment>, issued: seq<JoinResult>)

  const NEW_HISTORY := History(NEW_GROUP, map[0 := map[]], [])

  ghost function Record(c: Config, h: History, op: Op): History {
    var res := Step(c, h.g, op);
    History(res.g,
            if res.g.generation == h.g.generation then h.plans else h.plans[res.g.generation := res.g.assignments],
            if res.out.Joined? then h.issued + [res.out.r] else h.issued)
  }

  ghost function Recorded(c: Config, h: History, ops: seq<Op>): History
    decreases |ops|
  {
    if ops == [] then h else Recorded(c, Record(c, h, ops[0]), ops[1..])
  }

  ghost predicate Exclusive(a: Assignment) {
    forall m, n, p :: m in a && n in a && p in a[m] && p in a[n] ==> m == n
  }

  /** `b` is `a` with some members taken out. */
  ghost predicate Restricts(b: Assignment, a: Assignment) { forall m :: m in b ==> m in a && b[m] == a[m] }

  ghost predicate Backed(r: JoinResult, plans: map<int, Assignment>) {
    r.generation in plans && (r.parts == [] || r.parts == Owned(plans[r.generation], r.member))
  }

  ghost predicate HistoryInv(h: History) {
    && TopicsInv(h.g) && h.g.generation in h.plans
    && (forall n :: n in h.plans ==> n <= h.g.generation && Exclusive(h.plans[n]))
    && Restricts(h.g.assignments, h.plans[h.g.generation])
    && forall r :: r in h.issued ==> Backed(r, h.plans)
  }

  /** A call either keeps the generation and at most takes members out of the assignment, or moves to
      the next generation with an assignment without overlaps. */
  ghost predicate Progresses(g: Group, res: Result) {
    && (res.g.generation == g.generation ==> Restricts(res.g.assignments, g.assignments))
    && (res.g.generation != g.generation ==> res.g.generation == g.generation + 1 && Exclusive(res.g.assignments))
    && (res.out.Joined? ==>
          res.out.r.generation == res.g.generation && res.out.r.parts == Owned(res.g.assignments, res.out.r.member))
  }

  lemma StepProgresses(c: Config, g: Group, op: Op)
    requires TopicsInv(g)
    ensures Progresses(g, Step(c, g, op))
  {
    hide Computed, Ascending, Exclusive;
    if op.Join? && op.topics != [] {
      MergeTopicsIs(g.topics, op.topics);
      hide MergeTopics;
      var g2 := Evict(c, Enrolled(g, op.member, op.topics, op.now1), op.now2).0;
      ComputedExclusive(c, g2);
    }
  }

  lemma ComputedExclusive(c: Config, g: Group)
    requires Distinct(g.topics)
    ensures Computed(c, g).Some? ==> Exclusive(Computed(c, g).value)
  {
    hide AllPartitions, AssignTopics, Sort;
    IdsAre(g.members);
    if g.members == map[] {
      NobodyGetsNothing(ByRange, g.topics, c.counts);
      NobodyGetsNothing(ByRoundRobin, g.topics, c.counts);
    } else {
      hide Computed, Ids;
      ComputedCovers(c, g);
    }
  }

  lemma RecordKeeps(c: Config, h: History, op: Op)
    requires HistoryInv(h)
    ensures HistoryInv(Record(c, h, op)) && h.g.generation <= Record(c, h, op).g.generation
  {
    hide Step, TopicsInv, Exclusive;
    StepKeepsTopics(c, h.g, op);
    StepProgresses(c, h.g, op);
    var h' := Record(c, h, op);
    forall r | r in h'.issued ensures Backed(r, h'.plans) {}
  }

  lemma {:induction false} HistoryKeeps(c: Config, h: History, ops: seq<Op>)
    requires HistoryInv(h)
    ensures HistoryInv(Recorded(c, h, ops)) && h.g.generation <= Recorded(c, h, ops).g.generation
    decreases |ops|
  {
    hide HistoryInv, Record;
    if ops != [] {
      RecordKeeps(c, h, ops[0]);
      HistoryKeeps(c, Record(c, h, ops[0]), ops[1..]);
    }
  }

  /** Over the whole lifetime of a group, two join results of different members at one generation
      never share a partition, even when lookups fail or members time out in between. */
  lemma ExclusiveOwnership(c: Config, ops: seq<Op>, a: JoinResult, b: JoinResult, p: PartitionRef)
    requires var issued := Recorded(c, NEW_HISTORY, ops).issued; a in issued && b in issued
    requires a.generation == b.generation && p in a.parts && p in b.parts
    ensures a.member == b.member
  {
    hide Recorded;
    HistoryKeeps(c, NEW_HISTORY, ops);
    assert Exclusive(Recorded(c, NEW_HISTORY, ops).plans[a.generation]);
  }
}
