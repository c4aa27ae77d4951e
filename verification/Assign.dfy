/** Range and round-robin assignment of a group's partitions to its members
    (broker/internal/groups/assign.go). */
module Assign {
  import opened Seqs
  import opened Wrappers
  import opened Records
  import opened Lexical

  type Assignment = map<string, seq<PartitionRef>>

  /** The partition count of a topic, or nothing when the lookup fails. */
  type PartitionsFor = string -> Option<int>

  /** The partitions `from`, …, `to - 1` of a topic. */
  function Slice(topic: string, from: int, to: int): (s: seq<PartitionRef>)
    ensures |s| == if from <= to then to - from else 0
    ensures forall k :: 0 <= k < |s| ==> s[k] == PartitionRef(topic, from + k)
  {
    if from < to then seq(to - from, k requires 0 <= k < to - from => PartitionRef(topic, from + k)) else []
  }

  lemma SliceJoin(topic: string, a: int, b: int, c: int)
    requires a <= b <= c
    ensures Slice(topic, a, b) + Slice(topic, b, c) == Slice(topic, a, c)
  {
  }

  function Owned(a: Assignment, id: string): seq<PartitionRef> { if id in a then a[id] else [] }

  /** How many of `total` partitions the `i`-th of `n` members gets. */
  function Target(total: nat, n: nat, i: nat): (t: nat)
    requires n > 0
  {
    total / n + if i < total % n then 1 else 0
  }

  /** Where the `i`-th member's slice starts. */
  function Start(total: nat, n: nat, i: nat): int
    requires n > 0
  {
    i * (total / n) + if i < total % n then i else total % n
  }

  lemma StartStep(total: nat, n: nat, i: nat)
    requires 0 < n
    ensures Start(total, n, 0) == 0 && Start(total, n, n) == total
    ensures Start(total, n, i + 1) == Start(total, n, i) + Target(total, n, i)
  {
    var q := total / n;
    assert (i + 1) * q == i * q + q;
    assert total == n * q + total % n;
  }

  // ----- Range -----

  /** The map after the first `i` members of the sorted list. */
  function RangeFold(members: seq<string>, topic: string, count: nat, i: nat): Assignment
    requires i <= |members|
  {
    if i == 0 then map[] else
      var n := |members|;
      RangeFold(members, topic, count, i - 1)[members[i - 1] := Slice(topic, Start(count, n, i - 1), Start(count, n, i))]
  }

  function Range(members: seq<string>, topic: string, count: int): Assignment {
    if count <= 0 then map[] else RangeFold(Sort(members), topic, count, |Sort(members)|)
  }

  method Contiguous(topic: string, cursor: int, share: nat) returns (parts: seq<PartitionRef>)
    ensures parts == Slice(topic, cursor, cursor + share)
  {
    parts := [];
    for j := 0 to share
      invariant parts == Slice(topic, cursor, cursor + j)
    {
      parts := parts + [PartitionRef(topic, cursor + j)];
    }
  }

  method RangeAssign(members: seq<string>, topic: string, count: int) returns (out: Assignment)
    ensures out == Range(members, topic, count)
  {
    hide Sort, Start, Slice;
    SortSorts(members);
    out := map[];
    if count <= 0 || |members| == 0 { return; }
    var sorted := Sort(members);
    hide Ascending;
    var n := |sorted|;
    var base, extra := count / n, count % n;
    var cursor := 0;
    StartStep(count, n, 0);
    for i := 0 to n
      invariant out == RangeFold(sorted, topic, count, i) && cursor == Start(count, n, i)
    {
      var share := base;
      if i < extra { share := share + 1; }
      assert share == Target(count, n, i);
      var parts := Contiguous(topic, cursor, share);
      StartStep(count, n, i);
      out := out[sorted[i] := parts];
      cursor := cursor + share;
    }
  }

  /** Members are distinct, so each keeps the contiguous slice it was given. */
  lemma {:induction false} RangeFoldAt(members: seq<string>, topic: string, count: nat, i: nat, k: nat)
    requires Distinct(members) && k < i <= |members|
    ensures var a := RangeFold(members, topic, count, i); var n := |members|;
            members[k] in a && a[members[k]] == Slice(topic, Start(count, n, k), Start(count, n, k + 1))
    ensures RangeFold(members, topic, count, i).Keys == set m | m in members[..i]
  {
    hide Start;
    assert members[..i] == members[..i - 1] + [members[i - 1]];
    if i == 1 {
      assert members[..0] == [];
    } else {
      RangeFoldAt(members, topic, count, i - 1, if k < i - 1 then k else 0);
    }
  }

  // ----- Round robin -----

  function RoundRobinFold(members: seq<string>, topic: string, j: nat): (a: Assignment)
    requires members != []
    ensures a.Keys == set m | m in members
  {
    if j == 0 then map m | m in members :: [] else
      var a, owner := RoundRobinFold(members, topic, j - 1), members[(j - 1) % |members|];
      a[owner := a[owner] + [PartitionRef(topic, j - 1)]]
  }

  function RoundRobin(members: seq<string>, topic: string, count: int): Assignment {
    if count <= 0 || members == [] then map[] else RoundRobinFold(Sort(members), topic, count)
  }

  method RoundRobinAssign(members: seq<string>, topic: string, count: int) returns (out: Assignment)
    ensures out == RoundRobin(members, topic, count)
  {
    hide Sort;
    out := map[];
    if count <= 0 || |members| == 0 { return; }
    var sorted := Sort(members);
    out := Emptied(sorted);
    var n := |sorted|;
    for j := 0 to count
      invariant out == RoundRobinFold(sorted, topic, j)
    {
      var owner := sorted[j % n];
      out := out[owner := out[owner] + [PartitionRef(topic, j)]];
    }
  }

  method Emptied(sorted: seq<string>) returns (out: Assignment)
    ensures out == map m | m in sorted :: []
  {
    out := map[];
    for i := 0 to |sorted|
      invariant out == map m | m in sorted[..i] :: []
    {
      assert sorted[..i + 1] == sorted[..i] + [sorted[i]];
      out := out[sorted[i] := []];
    }
    assert sorted[..|sorted|] == sorted;
  }

  /** The partitions below `count` that are `i` modulo `n`. */
  function Strided(topic: string, i: nat, n: nat, count: nat): seq<PartitionRef>
    requires n > 0
  {
    if count == 0 then [] else
      Strided(topic, i, n, count - 1) + if (count - 1) % n == i then [PartitionRef(topic, count - 1)] else []
  }

  lemma {:induction false} RoundRobinAt(members: seq<string>, topic: string, count: nat, i: nat)
    requires Distinct(members) && i < |members|
    ensures RoundRobinFold(members, topic, count)[members[i]] == Strided(topic, i, |members|, count)
    decreases count
  {
    if count > 0 {
      RoundRobinAt(members, topic, count - 1, i);
      var k := (count - 1) % |members|;
      assert members[k] == members[i] <==> k == i;
    }
  }

  lemma DivStep(c: nat, n: nat)
    requires n > 0
    ensures c % n == n - 1 ==> (c + 1) / n == c / n + 1 && (c + 1) % n == 0
    ensures c % n < n - 1 ==> (c + 1) / n == c / n && (c + 1) % n == c % n + 1
  {
    var q, r := c / n, c % n;
    assert c + 1 == n * q + (r + 1);
    if r == n - 1 {
      assert c + 1 == n * (q + 1);
      DivUnique(c + 1, n, q + 1, 0);
    } else {
      DivUnique(c + 1, n, q, r + 1);
    }
  }

  lemma DivUnique(a: nat, n: nat, q: nat, r: nat)
    requires n > 0 && a == n * q + r && r < n
    ensures a / n == q && a % n == r
  {
    var d := a / n - q;
    assert n * d == r - a % n by { assert a == n * (a / n) + a % n; }
  }

  lemma {:induction false} StridedCount(topic: string, i: nat, n: nat, count: nat)
    requires i < n
    ensures |Strided(topic, i, n, count)| == Target(count, n, i)
    decreases count
  {
    if count == 0 {
      DivUnique(0, n, 0, 0);
    } else {
      StridedCount(topic, i, n, count - 1);
      DivStep(count - 1, n);
    }
  }

  // ----- Cover -----

  /** Everything the listed members own, with multiplicity. */
  function Union(a: Assignment, members: seq<string>): multiset<PartitionRef> {
    if members == [] then multiset{} else Union(a, members[..|members| - 1]) + multiset(Owned(a, members[|members| - 1]))
  }

  lemma {:induction false} UnionUpdate(a: Assignment, members: seq<string>, m: string, ps: seq<PartitionRef>)
    requires m !in members
    ensures Union(a[m := ps], members) == Union(a, members)
  {
    if members != [] {
      UnionUpdate(a, members[..|members| - 1], m, ps);
    }
  }

  /** Handing one more partition to one of the members adds exactly that partition. */
  lemma {:induction false} UnionGive(a: Assignment, members: seq<string>, m: string, ps: seq<PartitionRef>)
    requires Distinct(members) && m in members
    ensures Union(a[m := Owned(a, m) + ps], members) == Union(a, members) + multiset(ps)
  {
    var init, last := members[..|members| - 1], members[|members| - 1];
    assert members == init + [last];
    if m == last {
      UnionUpdate(a, init, m, Owned(a, m) + ps);
    } else {
      UnionGive(a, init, m, ps);
    }
  }

  lemma {:induction false} RangeCovers(members: seq<string>, topic: string, count: nat, i: nat)
    requires Distinct(members) && i <= |members| && members != []
    ensures 0 <= Start(count, |members|, i)
    ensures Union(RangeFold(members, topic, count, i), members[..i]) == multiset(Slice(topic, 0, Start(count, |members|, i)))
  {
    hide Start, Target, Slice;
    var n := |members|;
    StartStep(count, n, i);
    if i == 0 {
      assert Slice(topic, 0, 0) == [] && members[..0] == [];
    } else {
      RangeCovers(members, topic, count, i - 1);
      StartStep(count, n, i - 1);
      var lo, hi := Start(count, n, i - 1), Start(count, n, i);
      var a, m := RangeFold(members, topic, count, i - 1), members[i - 1];
      SliceJoin(topic, 0, lo, hi);
      UnionSnoc(a, members[..i - 1], m, Slice(topic, lo, hi));
      assert members[..i] == members[..i - 1] + [m];
    }
  }

  /** A member not seen before brings exactly its own partitions. */
  lemma UnionSnoc(a: Assignment, members: seq<string>, m: string, ps: seq<PartitionRef>)
    requires m !in members
    ensures Union(a[m := ps], members + [m]) == Union(a, members) + multiset(ps)
  {
    UnionUpdate(a, members, m, ps);
    assert (members + [m])[..|members|] == members;
  }

  lemma RoundRobinGives(members: seq<string>, topic: string, j: nat)
    requires members != []
    ensures var a, owner := RoundRobinFold(members, topic, j), members[j % |members|];
            owner in members && RoundRobinFold(members, topic, j + 1) == a[owner := Owned(a, owner) + [PartitionRef(topic, j)]]
  {
  }

  lemma {:induction false} RoundRobinCovers(members: seq<string>, topic: string, count: nat)
    requires Distinct(members) && members != []
    ensures Union(RoundRobinFold(members, topic, count), members) == multiset(Slice(topic, 0, count))
    decreases count
  {
    hide *;
    if count == 0 {
      RoundRobinStart(members, topic);
    } else {
      RoundRobinCovers(members, topic, count - 1);
      RoundRobinStep(members, topic, count - 1);
    }
  }

  lemma RoundRobinStart(members: seq<string>, topic: string)
    requires members != []
    ensures Union(RoundRobinFold(members, topic, 0), members) == multiset(Slice(topic, 0, 0))
  {
    hide Union;
    EmptyUnion(RoundRobinFold(members, topic, 0), members);
  }

  lemma RoundRobinStep(members: seq<string>, topic: string, j: nat)
    requires Distinct(members) && members != []
    requires Union(RoundRobinFold(members, topic, j), members) == multiset(Slice(topic, 0, j))
    ensures Union(RoundRobinFold(members, topic, j + 1), members) == multiset(Slice(topic, 0, j + 1))
  {
    hide Union, RoundRobinFold, Owned;
    var p := PartitionRef(topic, j);
    RoundRobinGives(members, topic, j);
    UnionGive(RoundRobinFold(members, topic, j), members, members[j % |members|], [p]);
    assert Slice(topic, 0, j + 1) == Slice(topic, 0, j) + [p];
  }

  lemma {:induction false} EmptyUnion(a: Assignment, members: seq<string>)
    requires forall m :: m in members ==> Owned(a, m) == []
    ensures Union(a, members) == multiset{}
  {
    if members != [] { EmptyUnion(a, members[..|members| - 1]); }
  }

  // ----- All topics of a group -----

  datatype Strategy = ByRange | ByRoundRobin

  function TopicAssign(s: Strategy, members: seq<string>, topic: string, count: int): Assignment {
    match s
    case ByRange => Range(members, topic, count)
    case ByRoundRobin => RoundRobin(members, topic, count)
  }

  function NoPartitions(members: seq<string>): Assignment { map m | m in members :: [] }

  function Merge(a: Assignment, b: Assignment): Assignment { map m | m in a.Keys + b.Keys :: Owned(a, m) + Owned(b, m) }

  /** Topic by topic; a failed lookup fails the whole assignment. */
  function AssignTopics(s: Strategy, members: seq<string>, topics: seq<string>,
                        counts: PartitionsFor): Option<Assignment> {
    if topics == [] then Some(NoPartitions(members)) else
      var topic := topics[|topics| - 1];
      match AssignTopics(s, members, topics[..|topics| - 1], counts)
      case None => None
      case Some(a) =>
        match counts(topic)
        case None => None
        case Some(n) => Some(Merge(a, TopicAssign(s, members, topic, n)))
  }

  /** Every partition of every topic, topics in the given order, partitions ascending. */
  function AllPartitions(topics: seq<string>, counts: PartitionsFor): Option<seq<PartitionRef>> {
    if topics == [] then Some([]) else
      var topic := topics[|topics| - 1];
      match AllPartitions(topics[..|topics| - 1], counts)
      case None => None
      case Some(ps) =>
        match counts(topic)
        case None => None
        case Some(n) => Some(ps + Slice(topic, 0, n))
  }

  /** assign and assignRoundRobin. */
  method AssignByTopic(s: Strategy, members: seq<string>, topics: seq<string>, counts: PartitionsFor)
    returns (res: Option<Assignment>)
    ensures res == AssignTopics(s, members, topics, counts)
  {
    hide Range, RoundRobin;
    var out := NoPartitions(members);
    assert topics[..0] == [];
    for i := 0 to |topics|
      invariant AssignTopics(s, members, topics[..i], counts) == Some(out)
    {
      assert topics[..i + 1][..i] == topics[..i];
      var n := counts(topics[i]);
      if n.None? {
        LookupFails(s, members, topics, counts, i);
        return None;
      }
      var per: Assignment;
      if s.ByRange? { per := RangeAssign(members, topics[i], n.value); } else { per := RoundRobinAssign(members, topics[i], n.value); }
      out := AppendAll(out, per);
    }
    assert topics[..|topics|] == topics;
    res := Some(out);
  }

  /** Appends every member's list, members in any order. */
  method AppendAll(a: Assignment, per: Assignment) returns (out: Assignment)
    ensures out == Merge(a, per)
  {
    out := a;
    var todo := per.Keys;
    while todo != {}
      invariant todo <= per.Keys && out.Keys == a.Keys + (per.Keys - todo)
      invariant forall m :: m in out ==> out[m] == Owned(a, m) + if m in todo then [] else Owned(per, m)
    {
      var m :| m in todo;
      out := out[m := Owned(out, m) + per[m]];
      todo := todo - {m};
    }
  }

  lemma {:induction false} LookupFails(s: Strategy, members: seq<string>, topics: seq<string>,
                                       counts: PartitionsFor, i: nat)
    requires i < |topics| && counts(topics[i]).None?
    ensures AssignTopics(s, members, topics, counts).None? && AllPartitions(topics, counts).None?
    decreases |topics|
  {
    hide TopicAssign;
    if i < |topics| - 1 { LookupFails(s, members, topics[..|topics| - 1], counts, i); }
  }

  lemma MergeAt(a: Assignment, b: Assignment, m: string)
    ensures multiset(Owned(Merge(a, b), m)) == multiset(Owned(a, m)) + multiset(Owned(b, m))
  {
    assert Owned(Merge(a, b), m) == Owned(a, m) + Owned(b, m);
  }

  lemma {:induction false} UnionMerge(a: Assignment, b: Assignment, members: seq<string>)
    ensures Union(Merge(a, b), members) == Union(a, members) + Union(b, members)
  {
    hide Merge, Owned;
    if members != [] {
      UnionMerge(a, b, members[..|members| - 1]);
      MergeAt(a, b, members[|members| - 1]);
    }
  }

  lemma UnionRemove(a: Assignment, t: seq<string>, k: nat)
    requires k < |t|
    ensures Union(a, t) == Union(a, t[..k] + t[k + 1..]) + multiset(Owned(a, t[k]))
  {
    assert t[..k + 1][..k] == t[..k];
    assert Union(a, t[..k + 1]) == Union(a, t[..k]) + multiset(Owned(a, t[k]));
    hide *;
    UnionAppend(a, t[..k], t[k + 1..]);
    UnionAppend(a, t[..k + 1], t[k + 1..]);
    assert t == t[..k + 1] + t[k + 1..];
    SwapSums(Union(a, t[..k]), multiset(Owned(a, t[k])), Union(a, t[k + 1..]));
  }

  lemma SwapSums<T>(x: multiset<T>, y: multiset<T>, z: multiset<T>)
    ensures (x + y) + z == (x + z) + y
  {}

  lemma {:induction false} UnionPermutation(a: Assignment, s: seq<string>, t: seq<string>)
    requires multiset(s) == multiset(t)
    ensures Union(a, s) == Union(a, t)
    decreases |s|
  {
    hide Owned;
    assert |s| == |multiset(s)| == |multiset(t)| == |t|;
    if s != [] {
      var last := s[|s| - 1];
      assert last in multiset(t);
      var k :| 0 <= k < |t| && t[k] == last;
      Removed(s, t, k);
      UnionPermutation(a, s[..|s| - 1], t[..k] + t[k + 1..]);
      UnionRemove(a, t, k);
    }
  }

  lemma {:induction false} UnionAppend(a: Assignment, s: seq<string>, t: seq<string>)
    ensures Union(a, s + t) == Union(a, s) + Union(a, t)
  {
    if t == [] {
      assert s + t == s;
    } else {
      assert (s + t)[..|s + t| - 1] == s + t[..|t| - 1];
      UnionAppend(a, s, t[..|t| - 1]);
    }
  }

  /** One topic: the members together own exactly its partitions, and the `i`-th member in lexical
      order owns its share, so any two shares differ by at most one. */
  lemma TopicIsCovered(s: Strategy, members: seq<string>, topic: string, count: int)
    requires Distinct(members) && members != []
    ensures Union(TopicAssign(s, members, topic, count), members) == multiset(Slice(topic, 0, count))
    ensures TopicAssign(s, members, topic, count).Keys <= set m | m in members
  {
    hide RangeFold, RoundRobinFold, Union, Start, Slice;
    var a, sorted := TopicAssign(s, members, topic, count), Sort(members);
    SortSorts(members);
    SortDistinct(members);
    UnionPermutation(a, members, sorted);
    if count <= 0 {
      EmptyUnion(a, members);
      assert Slice(topic, 0, count) == [];
    } else {
      match s
      case ByRange =>
        RangeCovers(sorted, topic, count, |sorted|);
        RangeFoldAt(sorted, topic, count, |sorted|, 0);
        StartStep(count, |sorted|, 0);
        assert sorted[..|sorted|] == sorted;
      case ByRoundRobin => RoundRobinCovers(sorted, topic, count);
    }
  }

  lemma TopicIsBalanced(s: Strategy, members: seq<string>, topic: string, count: int, i: nat)
    requires Distinct(members) && i < |members|
    ensures |Owned(TopicAssign(s, members, topic, count), Sort(members)[i])| == if count <= 0 then 0 else Target(count, |members|, i)
  {
    var sorted := Sort(members);
    SortDistinct(members);
    if count > 0 {
      match s
      case ByRange =>
        RangeFoldAt(sorted, topic, count, |sorted|, i);
        StartStep(count, |sorted|, i);
      case ByRoundRobin =>
        RoundRobinAt(sorted, topic, count, i);
        StridedCount(topic, i, |sorted|, count);
    }
  }

  /** The whole group: the assignment fails exactly when some partition count cannot be looked up,
      and otherwise hands out every partition of every topic exactly once. */
  lemma {:induction false} AssignCovers(s: Strategy, members: seq<string>, topics: seq<string>, counts: PartitionsFor)
    requires Distinct(members) && members != []
    ensures AssignTopics(s, members, topics, counts).Some? <==> AllPartitions(topics, counts).Some?
    ensures AssignTopics(s, members, topics, counts).Some? ==>
              var a := AssignTopics(s, members, topics, counts).value;
              && a.Keys == (set m | m in members)
              && Union(a, members) == multiset(AllPartitions(topics, counts).value)
    decreases |topics|
  {
    hide TopicAssign, Union;
    if topics == [] {
      EmptyUnion(NoPartitions(members), members);
    } else {
      var init, topic := topics[..|topics| - 1], topics[|topics| - 1];
      AssignCovers(s, members, init, counts);
      if AssignTopics(s, members, init, counts).Some? && counts(topic).Some? {
        var a, n := AssignTopics(s, members, init, counts).value, counts(topic).value;
        TopicIsCovered(s, members, topic, n);
        UnionMerge(a, TopicAssign(s, members, topic, n), members);
      }
    }
  }

  /** The assignment does not depend on the order the members are listed in. */
  lemma {:induction false} AssignDeterministic(s: Strategy, a: seq<string>, b: seq<string>, topics: seq<string>,
                                               counts: PartitionsFor)
    requires multiset(a) == multiset(b)
    ensures AssignTopics(s, a, topics, counts) == AssignTopics(s, b, topics, counts)
    decreases |topics|
  {
    SortDeterministic(a, b);
    assert |a| == |multiset(a)| == |b|;
    if topics == [] {
      forall m: string ensures m in a <==> m in b { assert m in multiset(a) <==> m in multiset(b); }
      assert NoPartitions(a) == NoPartitions(b);
    } else {
      AssignDeterministic(s, a, b, topics[..|topics| - 1], counts);
    }
  }

  // ----- What covering means, partition by partition -----

  ghost predicate ExactCover(a: Assignment, members: seq<string>, all: seq<PartitionRef>) {
    && (forall m :: m in members ==> Distinct(Owned(a, m)))
    && (forall m, n, p :: m in members && n in members && p in Owned(a, m) && p in Owned(a, n) ==> m == n)
    && (forall p :: p in all <==> exists m :: m in members && p in Owned(a, m))
  }

  lemma {:induction false} UnionHolds(a: Assignment, members: seq<string>, p: PartitionRef)
    ensures p in Union(a, members) <==> exists m :: m in members && p in Owned(a, m)
  {
    if members != [] {
      var init, last := members[..|members| - 1], members[|members| - 1];
      assert members == init + [last];
      UnionHolds(a, init, p);
      assert p in multiset(Owned(a, last)) <==> p in Owned(a, last);
      if m :| m in init && p in Owned(a, m) { assert m in members; }
      if p in Owned(a, last) { assert last in members; }
    }
  }

  /** Two members' lists are counted separately. */
  lemma {:induction false} UnionCounts(a: Assignment, members: seq<string>, m: string, n: string)
    requires m in members && n in members
    ensures multiset(Owned(a, m)) <= Union(a, members)
    ensures m != n ==> multiset(Owned(a, m)) + multiset(Owned(a, n)) <= Union(a, members)
  {
    var init, last := members[..|members| - 1], members[|members| - 1];
    assert members == init + [last];
    if m in init && n in init {
      UnionCounts(a, init, m, n);
    } else if m in init {
      UnionCounts(a, init, m, m);
    } else if n in init {
      UnionCounts(a, init, n, n);
    }
  }

  lemma CoverIsExact(a: Assignment, members: seq<string>, all: seq<PartitionRef>)
    requires Distinct(all) && Union(a, members) == multiset(all)
    ensures ExactCover(a, members, all)
  {
    hide Owned, Union;
    DistinctMultiset(all);
    forall m | m in members ensures Distinct(Owned(a, m)) {
      UnionCounts(a, members, m, m);
      DistinctMultiset(Owned(a, m));
      forall p | p in Owned(a, m) ensures multiset(Owned(a, m))[p] == 1 { OnceAtMost(Owned(a, m), all, p); }
    }
    forall m, n, p | m in members && n in members && p in Owned(a, m) && p in Owned(a, n) ensures m == n {
      UnionCounts(a, members, m, n);
      if m != n { TwiceIsTooMuch(Owned(a, m), Owned(a, n), all, p); }
    }
    forall p: PartitionRef ensures p in all <==> exists m :: m in members && p in Owned(a, m) {
      UnionHolds(a, members, p);
      assert p in all <==> p in multiset(all);
    }
  }

  lemma OnceAtMost<T>(s: seq<T>, all: seq<T>, x: T)
    requires Distinct(all) && multiset(s) <= multiset(all) && x in s
    ensures multiset(s)[x] == 1
  {
    OneOccurrence(all, x);
    assert x in multiset(s);
  }

  lemma TwiceIsTooMuch<T>(s: seq<T>, t: seq<T>, all: seq<T>, x: T)
    requires Distinct(all) && x in s && x in t
    ensures !(multiset(s) + multiset(t) <= multiset(all))
  {
    OneOccurrence(all, x);
    assert x in multiset(s) && x in multiset(t);
    assert (multiset(s) + multiset(t))[x] >= 2;
  }

  lemma {:induction false} AllPartitionsDistinct(topics: seq<string>, counts: PartitionsFor)
    requires Distinct(topics) && AllPartitions(topics, counts).Some?
    ensures Distinct(AllPartitions(topics, counts).value)
    ensures forall p :: p in AllPartitions(topics, counts).value <==>
                          p.topic in topics && counts(p.topic).Some? && 0 <= p.index < counts(p.topic).value
    decreases |topics|
  {
    if topics != [] {
      var init, topic := topics[..|topics| - 1], topics[|topics| - 1];
      assert topics == init + [topic];
      AllPartitionsDistinct(init, counts);
      SliceHolds(topic, counts(topic).value);
    }
  }

  lemma SliceHolds(topic: string, n: int)
    ensures Distinct(Slice(topic, 0, n)) && forall p :: p in Slice(topic, 0, n) <==> p.topic == topic && 0 <= p.index < n
  {
    forall p: PartitionRef | p.topic == topic && 0 <= p.index < n ensures p in Slice(topic, 0, n) {
      assert Slice(topic, 0, n)[p.index] == p;
    }
  }
}
