/** Sticky assignment: members keep what they had as far as balance allows
    (assignSticky in broker/internal/groups/assign.go). */
module Sticky {
  import opened Seqs
  import opened Wrappers
  import opened Records
  import opened Lexical
  import opened Assign

  // ----- The algorithm -----

  /** Step 1: the target map after the first `i` members of the sorted list. */
  function Targets(sorted: seq<string>, total: nat, i: nat): map<string, int>
    requires i <= |sorted|
  {
    if i == 0 then map[] else Targets(sorted, total, i - 1)[sorted[i - 1] := Target(total, |sorted|, i - 1)]
  }

  function Wanted(targets: map<string, int>, m: string): int { if m in targets then targets[m] else 0 }

  /** Step 2 for one member: the first `cap` prior partitions that still exist and are not taken. */
  function Retain(prior: seq<PartitionRef>, valid: set<PartitionRef>, taken: set<PartitionRef>,
                  cap: int): seq<PartitionRef> {
    if prior == [] || cap <= 0 then []
    else if prior[0] !in valid || prior[0] in taken then Retain(prior[1..], valid, taken, cap)
    else [prior[0]] + Retain(prior[1..], valid, taken + {prior[0]}, cap - 1)
  }

  datatype Kept = Kept(out: Assignment, taken: set<PartitionRef>)

  function RetainFor(k: Kept, m: string, prior: Assignment, valid: set<PartitionRef>, target: int): Kept {
    var ps := Retain(Owned(prior, m), valid, k.taken, target - |Owned(k.out, m)|);
    Kept(k.out[m := Owned(k.out, m) + ps], k.taken + set p | p in ps)
  }

  /** Step 2 for the first `i` members. */
  function RetainAll(sorted: seq<string>, targets: map<string, int>, prior: Assignment, valid: set<PartitionRef>,
                     i: nat): Kept
    requires i <= |sorted|
  {
    if i == 0 then Kept(NoPartitions(sorted), {}) else
      var m := sorted[i - 1];
      RetainFor(RetainAll(sorted, targets, prior, valid, i - 1), m, prior, valid, Wanted(targets, m))
  }

  /** The first member from `i` on that is below its target. */
  function FirstBelow(sorted: seq<string>, targets: map<string, int>, out: Assignment, i: nat): (k: nat)
    requires i <= |sorted|
    ensures i <= k <= |sorted|
    ensures k < |sorted| ==> |Owned(out, sorted[k])| < Wanted(targets, sorted[k])
    ensures forall j :: i <= j < k ==> |Owned(out, sorted[j])| >= Wanted(targets, sorted[j])
    decreases |sorted| - i
  {
    if i == |sorted| || |Owned(out, sorted[i])| < Wanted(targets, sorted[i]) then i else FirstBelow(sorted, targets, out, i + 1)
  }

  /** Step 4 for one partition: nobody below target means it is dropped. */
  function GiveOne(sorted: seq<string>, targets: map<string, int>, out: Assignment, p: PartitionRef): Assignment {
    var k := FirstBelow(sorted, targets, out, 0);
    if k == |sorted| then out else out[sorted[k] := Owned(out, sorted[k]) + [p]]
  }

  function GiveAll(sorted: seq<string>, targets: map<string, int>, out: Assignment,
                   free: seq<PartitionRef>): Assignment {
    if free == [] then out
    else GiveOne(sorted, targets, GiveAll(sorted, targets, out, free[..|free| - 1]), free[|free| - 1])
  }

  function Untaken(taken: set<PartitionRef>): PartitionRef -> bool { (p: PartitionRef) => p !in taken }

  function AsSet(s: seq<PartitionRef>): set<PartitionRef> { set p | p in s }

  function Place(sorted: seq<string>, all: seq<PartitionRef>, prior: Assignment): Assignment {
    var targets := Targets(sorted, |all|, |sorted|);
    var kept := RetainAll(sorted, targets, prior, AsSet(all), |sorted|);
    GiveAll(sorted, targets, kept.out, Filter(Untaken(kept.taken), all))
  }

  function StickyAssign(members: seq<string>, topics: seq<string>, counts: PartitionsFor,
                        prior: Assignment): Option<Assignment> {
    match AllPartitions(topics, counts)
    case None => None
    case Some(all) =>
      if members == [] || all == [] then Some(NoPartitions(members)) else Some(Place(Sort(members), all, prior))
  }

  // ----- The loops -----

  method AllPartitionsLoop(topics: seq<string>, counts: PartitionsFor) returns (res: Option<seq<PartitionRef>>)
    ensures res == AllPartitions(topics, counts)
  {
    hide Slice;
    var out: seq<PartitionRef> := [];
    assert topics[..0] == [];
    for i := 0 to |topics|
      invariant AllPartitions(topics[..i], counts) == Some(out)
    {
      assert topics[..i + 1][..i] == topics[..i];
      var n := counts(topics[i]);
      if n.None? {
        LookupFails(ByRange, [], topics, counts, i);
        return None;
      }
      var ps := Contiguous(topics[i], 0, if n.value > 0 then n.value else 0);
      assert ps == Slice(topics[i], 0, n.value);
      out := out + ps;
    }
    assert topics[..|topics|] == topics;
    res := Some(out);
  }

  method TargetsLoop(sorted: seq<string>, total: nat) returns (targets: map<string, int>)
    ensures targets == Targets(sorted, total, |sorted|)
  {
    targets := map[];
    if |sorted| == 0 { return; }
    var base, extras := total / |sorted|, total % |sorted|;
    for i := 0 to |sorted|
      invariant targets == Targets(sorted, total, i)
    {
      var t := base;
      if i < extras { t := t + 1; }
      targets := targets[sorted[i] := t];
    }
  }

  method RetainLoop(out: Assignment, taken: set<PartitionRef>, m: string, prior: Assignment,
                    valid: set<PartitionRef>, target: int)
    returns (k: Kept)
    ensures k == RetainFor(Kept(out, taken), m, prior, valid, target)
  {
    var ps := Owned(prior, m);
    var mine, taken' := Owned(out, m), taken;
    ghost var all := Retain(ps, valid, taken, target - |mine|);
    ghost var kept: seq<PartitionRef> := [];
    var i := 0;
    while i < |ps| && |mine| < target
      invariant 0 <= i <= |ps|
      invariant mine == Owned(out, m) + kept && taken' == taken + set p | p in kept
      invariant kept + Retain(ps[i..], valid, taken', target - |mine|) == all
    {
      var p := ps[i];
      assert ps[i..][1..] == ps[i + 1..];
      if p in valid && p !in taken' {
        Assoc(kept, [p], Retain(ps[i + 1..], valid, taken' + {p}, target - |mine| - 1));
        kept := kept + [p];
        mine := mine + [p];
        taken' := taken' + {p};
      }
      i := i + 1;
    }
    assert kept == all;
    k := Kept(out[m := mine], taken');
  }

  method FreeLoop(all: seq<PartitionRef>, taken: set<PartitionRef>) returns (free: seq<PartitionRef>)
    ensures free == Filter(Untaken(taken), all)
  {
    free := [];
    for i := 0 to |all|
      invariant free == Filter(Untaken(taken), all[..i])
    {
      FilterSnoc(Untaken(taken), all[..i], all[i]);
      assert all[..i + 1] == all[..i] + [all[i]];
      if all[i] !in taken { free := free + [all[i]]; }
    }
    assert all[..|all|] == all;
  }

  method GiveLoop(sorted: seq<string>, targets: map<string, int>, out0: Assignment, free: seq<PartitionRef>)
    returns (out: Assignment)
    ensures out == GiveAll(sorted, targets, out0, free)
  {
    hide GiveOne;
    out := out0;
    for i := 0 to |free|
      invariant out == GiveAll(sorted, targets, out0, free[..i])
    {
      assert free[..i + 1][..i] == free[..i];
      out := GiveScan(sorted, targets, out, free[i]);
    }
    assert free[..|free|] == free;
  }

  method GiveScan(sorted: seq<string>, targets: map<string, int>, out0: Assignment, p: PartitionRef)
    returns (out: Assignment)
    ensures out == GiveOne(sorted, targets, out0, p)
  {
    out := out0;
    for k := 0 to |sorted|
      invariant out == out0 && FirstBelow(sorted, targets, out0, k) == FirstBelow(sorted, targets, out0, 0)
    {
      if |Owned(out, sorted[k])| < Wanted(targets, sorted[k]) {
        out := out[sorted[k] := Owned(out, sorted[k]) + [p]];
        break;
      }
    }
  }

  /** assignSticky. */
  method StickyLoop(members: seq<string>, topics: seq<string>, counts: PartitionsFor, prior: Assignment)
    returns (res: Option<Assignment>)
    ensures res == StickyAssign(members, topics, counts, prior)
  {
    hide Sort, Targets, RetainFor, GiveAll, Filter, AllPartitions;
    var found := AllPartitionsLoop(topics, counts);
    if found.None? { return None; }
    var all := found.value;
    if |members| == 0 || |all| == 0 { return Some(NoPartitions(members)); }
    var sorted := Sort(members);
    var targets := TargetsLoop(sorted, |all|);
    var valid := AsSet(all);
    var kept := Kept(NoPartitions(sorted), {});
    for i := 0 to |sorted|
      invariant kept == RetainAll(sorted, targets, prior, valid, i)
    {
      kept := RetainLoop(kept.out, kept.taken, sorted[i], prior, valid, Wanted(targets, sorted[i]));
    }
    var free := FreeLoop(all, kept.taken);
    var out := GiveLoop(sorted, targets, kept.out, free);
    res := Some(out);
  }

  // ----- Targets -----

  lemma {:induction false} TargetsAt(sorted: seq<string>, total: nat, i: nat, k: nat)
    requires Distinct(sorted) && k < i <= |sorted|
    ensures Wanted(Targets(sorted, total, i), sorted[k]) == Target(total, |sorted|, k)
  {
    hide Target;
    if k < i - 1 { TargetsAt(sorted, total, i - 1, k); }
  }

  /** What the first `k` members are short of their targets, all together. */
  function Deficit(out: Assignment, sorted: seq<string>, total: nat, k: nat): int
    requires k <= |sorted|
  {
    if k == 0 then 0 else Deficit(out, sorted, total, k - 1) + Target(total, |sorted|, k - 1) - |Owned(out, sorted[k - 1])|
  }

  lemma {:induction false} DeficitIsRest(out: Assignment, sorted: seq<string>, total: nat, k: nat)
    requires k <= |sorted| && sorted != []
    ensures Deficit(out, sorted, total, k) == Start(total, |sorted|, k) - |Union(out, sorted[..k])|
  {
    hide Start, Target, Owned;
    StartStep(total, |sorted|, k);
    if k > 0 {
      DeficitIsRest(out, sorted, total, k - 1);
      StartStep(total, |sorted|, k - 1);
      assert sorted[..k][..k - 1] == sorted[..k - 1];
      assert |multiset(Owned(out, sorted[k - 1]))| == |Owned(out, sorted[k - 1])|;
    }
  }

  ghost predicate WithinTargets(out: Assignment, sorted: seq<string>, total: nat) {
    forall k :: 0 <= k < |sorted| ==> |Owned(out, sorted[k])| <= Target(total, |sorted|, k)
  }

  ghost predicate AtTargets(out: Assignment, sorted: seq<string>, total: nat) {
    forall k :: 0 <= k < |sorted| ==> |Owned(out, sorted[k])| == Target(total, |sorted|, k)
  }

  lemma {:induction false} DeficitSign(out: Assignment, sorted: seq<string>, total: nat, n: nat)
    requires n <= |sorted| && WithinTargets(out, sorted, total)
    ensures Deficit(out, sorted, total, n) >= 0
    ensures Deficit(out, sorted, total, n) == 0 <==> forall k :: 0 <= k < n ==> |Owned(out, sorted[k])| == Target(total, |sorted|, k)
  {
    hide Target, Owned;
    if n > 0 { DeficitSign(out, sorted, total, n - 1); }
  }

  /** Nobody is over target and something is still to be placed: someone is below target. */
  lemma Balance(out: Assignment, sorted: seq<string>, total: nat, placed: multiset<PartitionRef>)
    requires sorted != [] && WithinTargets(out, sorted, total) && Union(out, sorted) == placed
    ensures |placed| <= total && (|placed| == total <==> AtTargets(out, sorted, total))
  {
    hide Target, Owned, Start, Union;
    DeficitIsRest(out, sorted, total, |sorted|);
    assert sorted[..|sorted|] == sorted;
    StartStep(total, |sorted|, 0);
    DeficitSign(out, sorted, total, |sorted|);
  }

  // ----- Step 2 -----

  lemma {:induction false} RetainIsSound(prior: seq<PartitionRef>, valid: set<PartitionRef>,
                                         taken: set<PartitionRef>, cap: int)
    ensures var ps := Retain(prior, valid, taken, cap);
            && Distinct(ps) && (|ps| <= cap || ps == [])
            && forall p :: p in ps ==> p in prior && p in valid && p !in taken
  {
    if prior != [] && cap > 0 {
      if prior[0] !in valid || prior[0] in taken {
        RetainIsSound(prior[1..], valid, taken, cap);
      } else {
        RetainIsSound(prior[1..], valid, taken + {prior[0]}, cap - 1);
      }
    }
  }

  function InSet(valid: set<PartitionRef>): PartitionRef -> bool { (p: PartitionRef) => p in valid }

  /** A member whose prior partitions nobody took keeps as many valid ones as fit its target. */
  lemma {:induction false} RetainIsMaximal(prior: seq<PartitionRef>, valid: set<PartitionRef>,
                                           taken: set<PartitionRef>, cap: int)
    requires Distinct(prior) && forall p :: p in prior ==> p !in taken
    ensures Retain(prior, valid, taken, cap) == Take(Filter(InSet(valid), prior), cap)
  {
    if prior != [] && cap > 0 {
      assert prior == [prior[0]] + prior[1..];
      if prior[0] !in valid {
        RetainIsMaximal(prior[1..], valid, taken, cap);
      } else {
        RetainIsMaximal(prior[1..], valid, taken + {prior[0]}, cap - 1);
        TakeAppend([prior[0]], Filter(InSet(valid), prior[1..]), cap);
      }
    }
  }

  /** After step 2 has done `i` members: the ones done hold what is taken, the others nothing, and
      nobody is over target. */
  ghost predicate RetainInv(sorted: seq<string>, total: nat, valid: set<PartitionRef>, k: Kept, i: nat) {
    && i <= |sorted| && k.taken <= valid && Union(k.out, sorted) == multiset(k.taken)
    && k.out.Keys == (set m | m in sorted)
    && WithinTargets(k.out, sorted, total)
    && BlankFrom(k.out, sorted, i)
  }

  ghost predicate BlankFrom(out: Assignment, sorted: seq<string>, i: nat) {
    forall j :: i <= j < |sorted| ==> Owned(out, sorted[j]) == []
  }

  lemma RetainForKeeps(sorted: seq<string>, total: nat, valid: set<PartitionRef>, prior: Assignment, k: Kept, i: nat)
    requires Distinct(sorted) && i < |sorted| && RetainInv(sorted, total, valid, k, i)
    ensures RetainInv(sorted, total, valid, RetainFor(k, sorted[i], prior, valid, Target(total, |sorted|, i)), i + 1)
  {
    hide Target, Retain, Union, Owned, WithinTargets, BlankFrom;
    var m, t := sorted[i], Target(total, |sorted|, i);
    var ps := Retain(Owned(prior, m), valid, k.taken, t - |Owned(k.out, m)|);
    RetainIsSound(Owned(prior, m), valid, k.taken, t - |Owned(k.out, m)|);
    RetainForUnion(sorted, k, m, ps);
    GrowAt(k.out, sorted, total, i, ps);
  }

  lemma GrowAt(out: Assignment, sorted: seq<string>, total: nat, i: nat, ps: seq<PartitionRef>)
    requires Distinct(sorted) && i < |sorted| && WithinTargets(out, sorted, total) && BlankFrom(out, sorted, i)
    requires |Owned(out, sorted[i])| + |ps| <= Target(total, |sorted|, i) || ps == []
    ensures var out' := out[sorted[i] := Owned(out, sorted[i]) + ps];
            WithinTargets(out', sorted, total) && BlankFrom(out', sorted, i + 1) && out'.Keys == out.Keys + {sorted[i]}
  {
    hide Target, Owned;
    UpdateAt(out, sorted, i, Owned(out, sorted[i]) + ps);
    hide Distinct;
  }

  lemma RetainForUnion(sorted: seq<string>, k: Kept, m: string, ps: seq<PartitionRef>)
    requires Distinct(sorted) && m in sorted && Union(k.out, sorted) == multiset(k.taken)
    requires Distinct(ps) && forall p :: p in ps ==> p !in k.taken
    ensures Union(k.out[m := Owned(k.out, m) + ps], sorted) == multiset(k.taken + set p | p in ps)
  {
    hide Union, Owned;
    DisjointUnion(k.taken, ps);
    UnionGive(k.out, sorted, m, ps);
  }

  lemma UpdateAt(out: Assignment, sorted: seq<string>, i: nat, ps: seq<PartitionRef>)
    requires Distinct(sorted) && i < |sorted|
    ensures var out' := out[sorted[i] := ps];
            && out'.Keys == out.Keys + {sorted[i]}
            && forall j :: 0 <= j < |sorted| ==> Owned(out', sorted[j]) == if j == i then ps else Owned(out, sorted[j])
  {
  }

  lemma {:induction false} RetainAllKeeps(sorted: seq<string>, all: seq<PartitionRef>, prior: Assignment, i: nat)
    requires Distinct(sorted) && i <= |sorted|
    ensures RetainInv(sorted, |all|, AsSet(all), RetainAll(sorted, Targets(sorted, |all|, |sorted|), prior, AsSet(all), i), i)
  {
    hide RetainFor, Target, Targets;
    if i == 0 {
      EmptyUnion(NoPartitions(sorted), sorted);
    } else {
      RetainAllKeeps(sorted, all, prior, i - 1);
      TargetsAt(sorted, |all|, |sorted|, i - 1);
      RetainForKeeps(sorted, |all|, AsSet(all), prior, RetainAll(sorted, Targets(sorted, |all|, |sorted|), prior, AsSet(all), i - 1), i - 1);
    }
  }

  // ----- Step 4 -----

  ghost predicate GiveInv(sorted: seq<string>, total: nat, out: Assignment, placed: multiset<PartitionRef>) {
    Union(out, sorted) == placed && WithinTargets(out, sorted, total) && out.Keys == set m | m in sorted
  }

  lemma GiveOneKeeps(sorted: seq<string>, total: nat, out: Assignment, placed: multiset<PartitionRef>, p: PartitionRef)
    requires Distinct(sorted) && sorted != [] && GiveInv(sorted, total, out, placed) && |placed| < total
    ensures GiveInv(sorted, total, GiveOne(sorted, Targets(sorted, total, |sorted|), out, p), placed + multiset{p})
  {
    hide Target, Targets, Union, Wanted;
    var targets := Targets(sorted, total, |sorted|);
    forall k | 0 <= k < |sorted| ensures Wanted(targets, sorted[k]) == Target(total, |sorted|, k) {
      TargetsAt(sorted, total, |sorted|, k);
    }
    Balance(out, sorted, total, placed);
    var k := FirstBelow(sorted, targets, out, 0);
    assert k < |sorted|;
    UnionGive(out, sorted, sorted[k], [p]);
    var out' := GiveOne(sorted, targets, out, p);
    forall j | 0 <= j < |sorted| ensures |Owned(out', sorted[j])| <= Target(total, |sorted|, j) {
      assert sorted[j] == sorted[k] <==> j == k;
    }
  }

  lemma {:induction false} GiveAllKeeps(sorted: seq<string>, total: nat, out: Assignment,
                                        placed: multiset<PartitionRef>, free: seq<PartitionRef>)
    requires Distinct(sorted) && sorted != [] && GiveInv(sorted, total, out, placed) && |placed| + |free| <= total
    ensures GiveInv(sorted, total, GiveAll(sorted, Targets(sorted, total, |sorted|), out, free), placed + multiset(free))
  {
    hide GiveInv, GiveOne;
    if free == [] {
      assert placed + multiset(free) == placed;
    } else {
      var init, p := free[..|free| - 1], free[|free| - 1];
      assert free == init + [p];
      GiveAllKeeps(sorted, total, out, placed, init);
      var targets := Targets(sorted, total, |sorted|);
      assert |placed + multiset(init)| == |placed| + |init|;
      GiveOneKeeps(sorted, total, GiveAll(sorted, targets, out, init), placed + multiset(init), p);
      assert placed + multiset(init) + multiset{p} == placed + multiset(free);
    }
  }

  lemma FreeIsTheRest(all: seq<PartitionRef>, taken: set<PartitionRef>)
    requires Distinct(all) && taken <= AsSet(all)
    ensures multiset(taken) + multiset(Filter(Untaken(taken), all)) == multiset(all)
  {
    forall x: PartitionRef ensures (multiset(taken) + multiset(Filter(Untaken(taken), all)))[x] == multiset(all)[x] {
      FilterCount(Untaken(taken), all, x);
      OneOccurrence(all, x);
    }
  }

  // ----- The three promises -----

  lemma PlaceCovers(sorted: seq<string>, all: seq<PartitionRef>, prior: Assignment)
    requires Distinct(sorted) && sorted != [] && Distinct(all)
    ensures var out := Place(sorted, all, prior);
            Union(out, sorted) == multiset(all) && AtTargets(out, sorted, |all|) && out.Keys == set m | m in sorted
  {
    hide GiveAll, RetainAll, Targets, Union, WithinTargets, AtTargets, Filter;
    var targets := Targets(sorted, |all|, |sorted|);
    RetainAllKeeps(sorted, all, prior, |sorted|);
    var kept := RetainAll(sorted, targets, prior, AsSet(all), |sorted|);
    FreeIsTheRest(all, kept.taken);
    var free := Filter(Untaken(kept.taken), all);
    assert |multiset(kept.taken)| + |multiset(free)| == |multiset(all)| == |all|;
    GiveAllKeeps(sorted, |all|, kept.out, multiset(kept.taken), free);
    Balance(Place(sorted, all, prior), sorted, |all|, multiset(all));
  }

  ghost predicate PriorDisjoint(prior: Assignment, sorted: seq<string>) {
    && (forall m :: m in sorted ==> Distinct(Owned(prior, m)))
    && forall m, n, p :: m in sorted && n in sorted && p in Owned(prior, m) && p in Owned(prior, n) ==> m == n
  }

  /** What a member keeps of a disjoint prior assignment. */
  function Keeps(prior: Assignment, m: string, valid: set<PartitionRef>, target: int): seq<PartitionRef> {
    Take(Filter(InSet(valid), Owned(prior, m)), target)
  }

  /** Step 2 on a disjoint prior: the members done hold what they keep, the others' partitions are
      not taken. */
  ghost predicate RetainExact(sorted: seq<string>, all: seq<PartitionRef>, prior: Assignment, k: Kept, i: nat) {
    && (forall j :: 0 <= j < |sorted| ==>
          Owned(k.out, sorted[j]) == if j < i then Keeps(prior, sorted[j], AsSet(all), Target(|all|, |sorted|, j)) else [])
    && forall j, p :: i <= j < |sorted| && p in Owned(prior, sorted[j]) ==> p !in k.taken
  }

  lemma RetainForFirst(k: Kept, m: string, prior: Assignment, valid: set<PartitionRef>, target: int)
    requires Owned(k.out, m) == [] && Distinct(Owned(prior, m)) && forall p :: p in Owned(prior, m) ==> p !in k.taken
    ensures var ps := Keeps(prior, m, valid, target);
            && RetainFor(k, m, prior, valid, target) == Kept(k.out[m := ps], k.taken + set p | p in ps)
            && forall p :: p in ps ==> p in Owned(prior, m)
  {
    hide Retain, Take, Filter;
    RetainIsMaximal(Owned(prior, m), valid, k.taken, target);
    RetainIsSound(Owned(prior, m), valid, k.taken, target);
    var ps := Keeps(prior, m, valid, target);
    assert [] + ps == ps;
  }

  lemma RetainForExact(sorted: seq<string>, all: seq<PartitionRef>, prior: Assignment, k: Kept, i: nat)
    requires Distinct(sorted) && i < |sorted| && PriorDisjoint(prior, sorted) && RetainExact(sorted, all, prior, k, i)
    ensures RetainExact(sorted, all, prior, RetainFor(k, sorted[i], prior, AsSet(all), Target(|all|, |sorted|, i)), i + 1)
  {
    hide Target, RetainFor, Keeps, AsSet;
    var m, t := sorted[i], Target(|all|, |sorted|, i);
    var ps := Keeps(prior, m, AsSet(all), t);
    RetainForFirst(k, m, prior, AsSet(all), t);
    UpdateAt(k.out, sorted, i, ps);
    hide Owned;
    forall j, p | i < j < |sorted| && p in Owned(prior, sorted[j]) ensures p !in k.taken + set q | q in ps {}
  }

  lemma {:induction false} RetainAllExact(sorted: seq<string>, all: seq<PartitionRef>, prior: Assignment, i: nat)
    requires Distinct(sorted) && i <= |sorted| && PriorDisjoint(prior, sorted)
    ensures RetainExact(sorted, all, prior, RetainAll(sorted, Targets(sorted, |all|, |sorted|), prior, AsSet(all), i), i)
  {
    hide Target, Targets, RetainFor, PriorDisjoint;
    if i > 0 {
      hide RetainExact;
      RetainAllExact(sorted, all, prior, i - 1);
      TargetsAt(sorted, |all|, |sorted|, i - 1);
      RetainForExact(sorted, all, prior, RetainAll(sorted, Targets(sorted, |all|, |sorted|), prior, AsSet(all), i - 1), i - 1);
    }
  }

  /** Step 4 only appends. */
  lemma {:induction false} GiveAllExtends(sorted: seq<string>, targets: map<string, int>, out: Assignment,
                                          free: seq<PartitionRef>, m: string)
    ensures Owned(out, m) <= Owned(GiveAll(sorted, targets, out, free), m)
  {
    if free != [] { GiveAllExtends(sorted, targets, out, free[..|free| - 1], m); }
  }

  /** Every member starts with the first of its still-valid prior partitions, as many as its target
      allows, in their prior order. */
  lemma PlaceIsSticky(sorted: seq<string>, all: seq<PartitionRef>, prior: Assignment, j: nat)
    requires Distinct(sorted) && PriorDisjoint(prior, sorted) && j < |sorted|
    ensures Keeps(prior, sorted[j], AsSet(all), Target(|all|, |sorted|, j)) <= Owned(Place(sorted, all, prior), sorted[j])
  {
    hide Keeps, Target, Owned, GiveAll, Filter;
    RetainAllExact(sorted, all, prior, |sorted|);
    var targets := Targets(sorted, |all|, |sorted|);
    var kept := RetainAll(sorted, targets, prior, AsSet(all), |sorted|);
    GiveAllExtends(sorted, targets, kept.out, Filter(Untaken(kept.taken), all), sorted[j]);
  }

  /** A balanced exact cover is left as it is. */
  lemma PlaceFixpoint(sorted: seq<string>, all: seq<PartitionRef>, prior: Assignment)
    requires Distinct(sorted) && sorted != [] && Distinct(all)
    requires Union(prior, sorted) == multiset(all) && AtTargets(prior, sorted, |all|) && prior.Keys == set m | m in sorted
    ensures Place(sorted, all, prior) == prior
  {
    hide GiveAll, RetainAll, Targets, Union, Filter, Target;
    CoverIsExact(prior, sorted, all);
    PlaceCovers(sorted, all, prior);
    forall j | 0 <= j < |sorted| ensures Owned(Place(sorted, all, prior), sorted[j]) == Owned(prior, sorted[j]) {
      PlaceIsSticky(sorted, all, prior, j);
      AllValid(Owned(prior, sorted[j]), AsSet(all));
    }
    forall m | m in prior ensures Place(sorted, all, prior)[m] == prior[m] {
      var j :| 0 <= j < |sorted| && sorted[j] == m;
    }
  }

  lemma AllValid(ps: seq<PartitionRef>, valid: set<PartitionRef>)
    requires forall p :: p in ps ==> p in valid
    ensures Take(Filter(InSet(valid), ps), |ps|) == ps
  {
    FilterAll(InSet(valid), ps);
  }

  // ----- assignSticky on the group's own inputs -----

  /** Every partition of every topic goes to exactly one member and the `j`-th member in lexical
      order gets exactly its target; the call fails exactly when a count cannot be looked up. */
  lemma StickyCovers(members: seq<string>, topics: seq<string>, counts: PartitionsFor, prior: Assignment)
    requires Distinct(members) && members != [] && Distinct(topics)
    ensures StickyAssign(members, topics, counts, prior).Some? <==> AllPartitions(topics, counts).Some?
    ensures StickyAssign(members, topics, counts, prior).Some? ==>
              var out, all := StickyAssign(members, topics, counts, prior).value, AllPartitions(topics, counts).value;
              && out.Keys == (set m | m in members) && Union(out, members) == multiset(all)
              && AtTargets(out, Sort(members), |all|)
  {
    hide Place, Union, Target;
    SortSorts(members);
    SortDistinct(members);
    if AllPartitions(topics, counts).Some? {
      var all := AllPartitions(topics, counts).value;
      AllPartitionsDistinct(topics, counts);
      var out := StickyAssign(members, topics, counts, prior).value;
      if all == [] {
        EmptyUnion(out, members);
        ZeroTargets(out, Sort(members));
      } else {
        PlaceCovers(Sort(members), all, prior);
      }
      UnionPermutation(out, members, Sort(members));
    }
  }

  lemma ZeroTargets(out: Assignment, sorted: seq<string>)
    requires forall m :: m in sorted ==> Owned(out, m) == []
    ensures AtTargets(out, sorted, 0)
  {
    forall k | 0 <= k < |sorted| ensures Target(0, |sorted|, k) == 0 { DivUnique(0, |sorted|, 0, 0); }
  }

  /** Stickiness: on a prior assignment without overlaps each member keeps min(target, number of its
      still-valid partitions) of them, the first ones, at the front of its new list. */
  lemma StickyKeeps(members: seq<string>, topics: seq<string>, counts: PartitionsFor, prior: Assignment, j: nat)
    requires Distinct(members) && PriorDisjoint(prior, members) && AllPartitions(topics, counts).Some?
    requires j < |members|
    ensures var out, all := StickyAssign(members, topics, counts, prior).value, AllPartitions(topics, counts).value;
            var m := Sort(members)[j];
            Keeps(prior, m, AsSet(all), Target(|all|, |members|, j)) <= Owned(out, m)
  {
    hide Place, Target, Sort, Keeps, AllPartitions, Owned, NoPartitions;
    SortDistinct(members);
    var all := AllPartitions(topics, counts).value;
    if all == [] {
      NothingKept(prior, Sort(members)[j], Target(0, |members|, j));
      assert AsSet(all) == {};
    } else {
      PlaceIsSticky(Sort(members), all, prior, j);
    }
  }

  lemma NothingKept(prior: Assignment, m: string, target: int)
    ensures Keeps(prior, m, {}, target) == []
  {
    FilterNone(InSet({}), Owned(prior, m));
  }

  /** Fed its own output, the algorithm moves nothing. */
  lemma StickyFixpoint(members: seq<string>, topics: seq<string>, counts: PartitionsFor, prior: Assignment)
    requires Distinct(members) && members != [] && Distinct(topics) && AllPartitions(topics, counts).Some?
    ensures var out := StickyAssign(members, topics, counts, prior).value;
            StickyAssign(members, topics, counts, out) == Some(out)
  {
    hide Place, Union, Target, AtTargets;
    StickyCovers(members, topics, counts, prior);
    var out, all := StickyAssign(members, topics, counts, prior).value, AllPartitions(topics, counts).value;
    if all != [] {
      SortSorts(members);
      SortDistinct(members);
      AllPartitionsDistinct(topics, counts);
      UnionPermutation(out, members, Sort(members));
      PlaceFixpoint(Sort(members), all, out);
    }
  }
}
