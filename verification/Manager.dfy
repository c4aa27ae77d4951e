/** The group coordinator: every call reads and updates its groups under one lock
    (Manager in broker/internal/groups/manager.go). */
module Managers {
  import opened Seqs
  import opened Wrappers
  import opened Records
  import opened Lexical
  import opened Assign
  import opened Sticky
  import opened Groups

  /** mergeTopics: collects both lists in a set, lists it in some order and sorts. */
  method MergeTopicsLoop(a: seq<string>, b: seq<string>) returns (out: seq<string>)
    ensures out == MergeTopics(a, b)
  {
    hide Sort, Deduplicated;
    var seen: set<string> := {};
    for i := 0 to |a|
      invariant seen == set t | t in a[..i]
    {
      assert a[..i + 1] == a[..i] + [a[i]];
      seen := seen + {a[i]};
    }
    for i := 0 to |b|
      invariant seen == (set t | t in a) + set t | t in b[..i]
    {
      assert b[..i + 1] == b[..i] + [b[i]];
      seen := seen + {b[i]};
    }
    var list := ListKeys(seen);
    DeduplicatedIs(a + b);
    SameElements(list, Deduplicated(a + b), seen);
    SortDeterministic(list, Deduplicated(a + b));
    out := Sort(list);
  }

  lemma SameElements(list: seq<string>, s: seq<string>, keys: set<string>)
    requires multiset(list) == multiset(keys) && Distinct(s) && forall x :: x in s <==> x in keys
    ensures multiset(list) == multiset(s)
  {
    forall x: string ensures multiset(s)[x] == multiset(keys)[x] { OneOccurrence(s, x); }
  }

  /** Ranging over a map's keys, in any order. */
  method ListKeys(keys: set<string>) returns (list: seq<string>)
    ensures multiset(list) == multiset(keys)
  {
    list := [];
    var todo := keys;
    while todo != {}
      invariant todo <= keys && multiset(list) == multiset(keys - todo)
    {
      var x :| x in todo;
      assert keys - (todo - {x}) == (keys - todo) + {x};
      list := list + [x];
      todo := todo - {x};
    }
    assert keys - {} == keys;
  }

  lemma {:induction false} FirstRemoved(ws: seq<Watcher>, channel: nat, i: nat)
    requires i <= |ws| && (i < |ws| ==> ws[i].channel == channel) && forall k :: 0 <= k < i ==> ws[k].channel != channel
    ensures RemoveFirst(ws, channel) == if i < |ws| then ws[..i] + ws[i + 1..] else ws
  {
    if i > 0 {
      FirstRemoved(ws[1..], channel, i - 1);
      assert ws == [ws[0]] + ws[1..];
      if i < |ws| { assert [ws[0]] + (ws[1..][..i - 1] + ws[1..][i..]) == ws[..i] + ws[i + 1..]; }
    }
  }

  lemma Overwrite<K, V>(m: map<K, V>, k: K, a: V, b: V)
    ensures m[k := a][k := b] == m[k := b] && m[k := a] - {k} == m - {k}
    ensures k in m && m[k] == a ==> m[k := a] == m
  {}

  /** One offset per partition, in order, or nothing exactly if some partition has none. */
  ghost predicate Answers(lookup: PartitionRef -> Option<int>, parts: seq<PartitionRef>, committed: Option<seq<int>>) {
    match committed
    case None => exists p :: p in parts && lookup(p).None?
    case Some(offs) => |offs| == |parts| && forall i :: 0 <= i < |parts| ==> lookup(parts[i]) == Some(offs[i])
  }

  method CommittedOffsets(lookup: PartitionRef -> Option<int>, parts: seq<PartitionRef>) returns (committed: Option<seq<int>>)
    ensures Answers(lookup, parts, committed)
  {
    var offs: seq<int> := [];
    for i := 0 to |parts|
      invariant |offs| == i && forall k :: 0 <= k < i ==> lookup(parts[k]) == Some(offs[k])
    {
      var off := lookup(parts[i]);
      if off.None? {
        assert parts[i] in parts;
        return None;
      }
      offs := offs + [off.value];
    }
    committed := Some(offs);
  }

  class Manager {
    const config: Config
    var groups: map<string, Group>
    /** Every wake-up sent so far, in order. */
    var signals: seq<Watcher>

    constructor (config: Config)
      ensures this.config == config && groups == map[] && signals == []
    {
      this.config, groups, signals := config, map[], [];
    }

    ghost function GroupNamed(name: string): Group
      reads this`groups
    {
      if name in groups then groups[name] else NEW_GROUP
    }

    /** Joins a group, creating it on first use; `generated` is the id a member without one is given.
        A member that joined is also told the committed offset of each of its partitions, unless one
        of them cannot be looked up; the group has changed by then all the same. */
    method Join(name: string, memberID: string, generated: string, topics: seq<string>, now1: int, now2: int,
                lookup: PartitionRef -> Option<int>) returns (out: Out, committed: Option<seq<int>>)
      modifies this
      ensures var member := if memberID == "" then generated else memberID;
              var res := Step(config, old(GroupNamed(name)), Op.Join(member, topics, now1, now2));
              && out == res.out && signals == old(signals) + res.woken
              && groups == if topics == [] then old(groups) else old(groups)[name := res.g]
      ensures out.Joined? ==> Answers(lookup, out.r.parts, committed)
    {
      hide Step, Answers;
      out := JoinGroup(name, if memberID == "" then generated else memberID, topics, now1, now2);
      committed := None;
      if out.Joined? { committed := CommittedOffsets(lookup, out.r.parts); }
    }

    /** Join up to the member's partitions. */
    method JoinGroup(name: string, member: string, topics: seq<string>, now1: int, now2: int) returns (out: Out)
      modifies this
      ensures var res := Step(config, old(GroupNamed(name)), Op.Join(member, topics, now1, now2));
              && out == res.out && signals == old(signals) + res.woken
              && groups == if topics == [] then old(groups) else old(groups)[name := res.g]
    {
      hide Enrolled, Groups.Evict, Groups.Rebalance, Stale;
      assert signals + [] == signals;
      if |topics| == 0 { return NoTopics; }
      var returning, expanded := Enrol(name, member, topics, now1);
      var evicted := EvictStale(name, now2);
      if !(returning && !expanded && evicted == 0 && !groups[name].dirty) {
        var ok := Rebalance(name);
        if !ok { return LookupFailed; }
      }
      var g := groups[name];
      out := Joined(JoinResult(member, g.generation, Owned(g.assignments, member)));
    }

    /** The first half of Join: the member is in the group, alive, and its topics are merged in. */
    method Enrol(name: string, member: string, topics: seq<string>, now: int) returns (returning: bool, expanded: bool)
      modifies this`groups
      ensures var g := old(GroupNamed(name));
              && groups == old(groups)[name := Enrolled(g, member, topics, now)]
              && returning == (member in g.members)
              && expanded == (|Enrolled(g, member, topics, now).topics| != |g.topics|)
    {
      hide MergeTopics;
      if name !in groups { groups := groups[name := NEW_GROUP]; }
      var g := groups[name];
      returning := member in g.members;
      var merged := MergeTopicsLoop(g.topics, topics);
      expanded := |merged| != |g.topics|;
      groups := groups[name := g.(members := g.members[member := now], topics := merged)];
    }

    /** Drops the stale members one by one, in any order. */
    method EvictStale(name: string, now: int) returns (evicted: nat)
      requires name in groups
      modifies this
      ensures var (g, woken) := Groups.Evict(config, old(groups[name]), now);
              && groups == old(groups)[name := g] && signals == old(signals) + woken
              && (evicted == 0 <==> Stale(config, old(groups[name]), now) == {})
    {
      var g := groups[name];
      var members, assignments := g.members, g.assignments;
      ghost var gone: set<string> := {};
      evicted := 0;
      var todo := g.members.Keys;
      while todo != {}
        invariant todo <= g.members.Keys && evicted == |gone|
        invariant gone == set id | id in Stale(config, g, now) && id !in todo
        invariant members == g.members - gone && assignments == g.assignments - gone
      {
        var id :| id in todo;
        if members[id] < now - config.sessionTimeout {
          members, assignments := members - {id}, assignments - {id};
          gone := gone + {id};
          evicted := evicted + 1;
        }
        todo := todo - {id};
      }
      assert gone == Stale(config, g, now);
      if evicted > 0 {
        groups := groups[name := g.(members := members, assignments := assignments, dirty := true)];
        NotifyWatchers(name);
      }
      assert signals + [] == signals;
    }

    /** Sends one wake-up per watcher and clears the list. */
    method NotifyWatchers(name: string)
      requires name in groups
      modifies this
      ensures groups == old(groups)[name := old(groups[name]).(watchers := [])]
      ensures signals == old(signals) + old(groups[name]).watchers
    {
      var watchers := groups[name].watchers;
      for i := 0 to |watchers|
        invariant groups == old(groups) && signals == old(signals) + watchers[..i]
      {
        signals := signals + [watchers[i]];
      }
      groups := groups[name := groups[name].(watchers := [])];
    }

    /** Recomputes the assignment; on a failed lookup nothing changes. */
    method Rebalance(name: string) returns (ok: bool)
      requires name in groups
      modifies this
      ensures var g := Groups.Rebalance(config, old(groups[name]));
              && ok == g.Some?
              && groups == (if ok then old(groups)[name := g.value] else old(groups))
              && signals == if ok then old(signals) + old(groups[name]).watchers else old(signals)
    {
      hide AssignTopics, StickyAssign;
      var g := groups[name];
      var ids := SortedIds(g.members);
      var computed: Option<Assignment>;
      match config.strategy {
        case RangeStrategy => computed := AssignByTopic(ByRange, ids, g.topics, config.counts);
        case RoundRobinStrategy => computed := AssignByTopic(ByRoundRobin, ids, g.topics, config.counts);
        case StickyStrategy => computed := StickyLoop(ids, g.topics, config.counts, g.assignments);
      }
      if computed.None? { return false; }
      groups := groups[name := g.(assignments := computed.value, generation := g.generation + 1, dirty := false)];
      NotifyWatchers(name);
      ok := true;
    }

    method SortedIds(members: map<string, int>) returns (ids: seq<string>)
      ensures ids == Ids(members)
    {
      hide Sort, ToSeq;
      var list := ListKeys(members.Keys);
      ToSeqIs(members.Keys);
      SortDeterministic(list, ToSeq(members.Keys));
      ids := Sort(list);
    }

    method Heartbeat(name: string, member: string, generation: int, now1: int, now2: int) returns (out: Out)
      modifies this
      ensures var res := HeartbeatStep(config, old(GroupNamed(name)), member, generation, now1, now2);
              && out == res.out && signals == old(signals) + res.woken
              && groups == if name in old(groups) then old(groups)[name := res.g] else old(groups)
    {
      if name !in groups || member !in groups[name].members { return UnknownMember; }
      var g := groups[name];
      groups := groups[name := g.(members := g.members[member := now1])];
      var evicted := EvictStale(name, now2);
      if evicted > 0 { groups := groups[name := groups[name].(dirty := true)]; }
      out := Beat(generation != groups[name].generation || groups[name].dirty);
    }

    /** Records the heartbeat and, when there is nothing to tell, registers the caller's channel. */
    method HeartbeatWait(name: string, member: string, generation: int, channel: nat, now1: int, now2: int)
      returns (out: Out)
      modifies this
      ensures var res := WaitStep(config, old(GroupNamed(name)), member, generation, channel, now1, now2);
              && out == res.out && signals == old(signals) + res.woken
              && groups == if name in old(groups) then old(groups)[name := res.g] else old(groups)
    {
      out := Heartbeat(name, member, generation, now1, now2);
      if out == Beat(false) {
        var g := groups[name];
        groups := groups[name := g.(watchers := g.watchers + [Watcher(channel, member, generation)])];
      }
    }

    /** Unregisters a channel whose caller timed out or was cancelled. */
    method RemoveWatcher(name: string, channel: nat)
      modifies this
      ensures signals == old(signals)
      ensures groups == if name !in old(groups) then old(groups)
                        else old(groups)[name := old(groups[name]).(watchers := RemoveFirst(old(groups[name]).watchers, channel))]
    {
      hide RemoveFirst;
      if name !in groups { return; }
      var g := groups[name];
      var ws := g.watchers;
      Overwrite(groups, name, g, g);
      for i := 0 to |ws|
        invariant groups == old(groups) && signals == old(signals)
        invariant forall k :: 0 <= k < i ==> ws[k].channel != channel
      {
        if ws[i].channel == channel {
          FirstRemoved(ws, channel, i);
          groups := groups[name := g.(watchers := ws[..i] + ws[i + 1..])];
          return;
        }
      }
      FirstRemoved(ws, channel, |ws|);
    }

    /** Leaves a group; the last member to leave takes the group with it. */
    method Leave(name: string, member: string)
      modifies this
      ensures var res := LeaveStep(old(GroupNamed(name)), member);
              && signals == old(signals) + res.woken
              && groups == if name !in old(groups) then old(groups)
                           else if member in old(groups[name]).members && res.g.members == map[] then old(groups) - {name}
                           else old(groups)[name := res.g]
    {
      assert signals + [] == signals;
      if name !in groups { return; }
      var g := groups[name];
      Overwrite(groups, name, g, g);
      if member !in g.members { return; }
      var members := g.members - {member};
      var left := g.(members := members, assignments := g.assignments - {member}, dirty := true);
      Overwrite(groups, name, left, left.(watchers := []));
      groups := groups[name := left];
      NotifyWatchers(name);
      Overwrite(old(groups), name, left.(watchers := []), left);
      if |members| == 0 { groups := groups - {name}; }
    }
  }
}
