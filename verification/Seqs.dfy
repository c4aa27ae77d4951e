/** Facts about sequences that the proofs lean on. Stated for any element type, so that no
    definition of the model gets in the solver's way. */
module Seqs {
  lemma Assoc<T>(a: seq<T>, b: seq<T>, c: seq<T>)
    ensures (a + b) + c == a + (b + c)
  {}

  lemma Split<T>(a: seq<T>, b: seq<T>)
    ensures (a + b)[..|a|] == a && (a + b)[|a|..] == b
  {}

  lemma Split3<T>(a: seq<T>, b: seq<T>, c: seq<T>)
    ensures (a + (b + c))[..|a|] == a
    ensures (a + (b + c))[|a|..|a| + |b|] == b
    ensures (a + (b + c))[|a| + |b|..] == c
  {}

  lemma DropSlice<T>(s: seq<T>, a: nat, b: nat)
    requires a + b <= |s|
    ensures s[a..][b..] == s[a + b..] && s[a..][..b] == s[a..a + b] && s[..a] + s[a..a + b] == s[..a + b]
  {}

  lemma Words3<T>(a: seq<T>, b: seq<T>, c: seq<T>)
    requires |a| == |b| == |c| == 8
    ensures var s := a + (b + c); |s| == 24 && s[..8] == a && s[8..16] == b && s[16..24] == c
  {
    Split3(a, b, c);
  }

  lemma Regroup6<T>(a: seq<T>, b: seq<T>, c: seq<T>, d: seq<T>, e: seq<T>, f: seq<T>, z: seq<T>)
    ensures a + (b + (c + (d + (e + (f + z))))) == (a + (b + (c + (d + (e + f))))) + z
  {
    Assoc(e, f, z);
    Assoc(d, e + f, z);
    Assoc(c, d + (e + f), z);
    Assoc(b, c + (d + (e + f)), z);
    Assoc(a, b + (c + (d + (e + f))), z);
  }

  /** Overwriting a placeholder that sits between a buffer and a body. */
  lemma Patch<T>(buf: seq<T>, zero: seq<T>, body: seq<T>, word: seq<T>)
    requires |zero| == |word|
    ensures var grown := buf + zero + body;
            grown[|buf| + |zero|..] == body && grown[..|buf|] + word + body == buf + (word + body)
  {}

  /** The concatenation of `f(x)` over the elements of `xs`, in order. */
  function ConcatMap<A, B>(f: A -> seq<B>, xs: seq<A>): seq<B> {
    if xs == [] then [] else f(xs[0]) + ConcatMap(f, xs[1..])
  }

  lemma {:induction false} ConcatMapAppend<A, B>(f: A -> seq<B>, xs: seq<A>, ys: seq<A>)
    ensures ConcatMap(f, xs + ys) == ConcatMap(f, xs) + ConcatMap(f, ys)
  {
    if xs == [] {
      assert xs + ys == ys;
    } else {
      ConcatMapAppend(f, xs[1..], ys);
      assert (xs + ys)[1..] == xs[1..] + ys;
      Assoc(f(xs[0]), ConcatMap(f, xs[1..]), ConcatMap(f, ys));
    }
  }

  lemma ConcatMapOne<A, B>(f: A -> seq<B>, x: A)
    ensures ConcatMap(f, [x]) == f(x)
  {
    assert [x][1..] == [];
  }

  lemma ConcatMapSnoc<A, B>(f: A -> seq<B>, xs: seq<A>, x: A)
    ensures ConcatMap(f, xs + [x]) == ConcatMap(f, xs) + f(x)
  {
    ConcatMapAppend(f, xs, [x]);
    ConcatMapOne(f, x);
  }

  lemma {:induction false} ConcatMapLength<A, B>(f: A -> seq<B>, xs: seq<A>)
    requires forall x :: x in xs ==> |f(x)| > 0
    ensures |xs| <= |ConcatMap(f, xs)|
  {
    if xs != [] { ConcatMapLength(f, xs[1..]); }
  }

  /** The elements of `s` that satisfy `p`, in order. */
  function Filter<T>(p: T -> bool, s: seq<T>): seq<T> {
    if s == [] then [] else (if p(s[0]) then [s[0]] else []) + Filter(p, s[1..])
  }

  lemma {:induction false} FilterAppend<T>(p: T -> bool, a: seq<T>, b: seq<T>)
    ensures Filter(p, a + b) == Filter(p, a) + Filter(p, b)
  {
    if a == [] {
      assert a + b == b;
    } else {
      FilterAppend(p, a[1..], b);
      assert (a + b)[1..] == a[1..] + b && (a + b)[0] == a[0];
      Assoc(if p(a[0]) then [a[0]] else [], Filter(p, a[1..]), Filter(p, b));
    }
  }

  lemma FilterSnoc<T>(p: T -> bool, a: seq<T>, x: T)
    ensures Filter(p, a + [x]) == if p(x) then Filter(p, a) + [x] else Filter(p, a)
  {
    FilterAppend(p, a, [x]);
    assert [x][1..] == [];
  }

  lemma {:induction false} FilterAll<T>(p: T -> bool, s: seq<T>)
    requires forall i :: 0 <= i < |s| ==> p(s[i])
    ensures Filter(p, s) == s
  {
    if s != [] {
      FilterAll(p, s[1..]);
      assert s == [s[0]] + s[1..];
    }
  }

  lemma {:induction false} FilterNone<T>(p: T -> bool, s: seq<T>)
    requires forall i :: 0 <= i < |s| ==> !p(s[i])
    ensures Filter(p, s) == []
  {
    if s != [] { FilterNone(p, s[1..]); }
  }

  lemma {:induction false} FilterMembers<T>(p: T -> bool, s: seq<T>)
    ensures forall x :: x in Filter(p, s) <==> x in s && p(x)
  {
    if s != [] {
      FilterMembers(p, s[1..]);
      assert s == [s[0]] + s[1..];
    }
  }

  lemma {:induction false} FilterSame<T>(p: T -> bool, q: T -> bool, s: seq<T>)
    requires forall i :: 0 <= i < |s| ==> p(s[i]) == q(s[i])
    ensures Filter(p, s) == Filter(q, s)
  {
    if s != [] { FilterSame(p, q, s[1..]); }
  }

  /** At most the first `n` elements. */
  function Take<T>(s: seq<T>, n: int): seq<T> {
    if n <= 0 then [] else if n >= |s| then s else s[..n]
  }

  lemma TakeAppend<T>(a: seq<T>, b: seq<T>, n: int)
    ensures Take(a + b, n) == Take(a, n) + Take(b, n - |a|)
  {}

  /** The lengths of `f(x)` over the elements of `xs`. */
  function Sizes<A, B>(f: A -> seq<B>, xs: seq<A>): (ns: seq<nat>)
    ensures |ns| == |xs|
  {
    seq(|xs|, i requires 0 <= i < |xs| => |f(xs[i])|)
  }

  lemma SizesAppend<A, B>(f: A -> seq<B>, xs: seq<A>, ys: seq<A>)
    ensures Sizes(f, xs + ys) == Sizes(f, xs) + Sizes(f, ys)
  {}

  lemma SizesOne<A, B>(f: A -> seq<B>, x: A)
    ensures Sizes(f, [x]) == [|f(x)|]
  {}

  function Map<A, B>(f: A -> B, s: seq<A>): (t: seq<B>)
    ensures |t| == |s| && forall i :: 0 <= i < |s| ==> t[i] == f(s[i])
  {
    if s == [] then [] else [f(s[0])] + Map(f, s[1..])
  }

  lemma MapAppend<A, B>(f: A -> B, a: seq<A>, b: seq<A>)
    ensures Map(f, a + b) == Map(f, a) + Map(f, b)
  {}

  lemma MapSame<A, B>(f: A -> B, g: A -> B, s: seq<A>)
    requires forall x :: x in s ==> f(x) == g(x)
    ensures Map(f, s) == Map(g, s)
  {}

  /** Filtering the images is filtering by the image. */
  lemma {:induction false} FilterMap<A, B>(q: B -> bool, p: A -> bool, f: A -> B, s: seq<A>)
    requires forall x :: x in s ==> p(x) == q(f(x))
    ensures Filter(q, Map(f, s)) == Map(f, Filter(p, s))
  {
    if s != [] {
      FilterMap(q, p, f, s[1..]);
      assert s[0] in s && Map(f, s)[1..] == Map(f, s[1..]);
      MapAppend(f, if p(s[0]) then [s[0]] else [], Filter(p, s[1..]));
    }
  }

  /** Filtering twice is filtering by both. */
  lemma {:induction false} FilterTwice<T>(p: T -> bool, q: T -> bool, r: T -> bool, s: seq<T>)
    requires forall x :: x in s ==> r(x) == (p(x) && q(x))
    ensures Filter(q, Filter(p, s)) == Filter(r, s)
  {
    if s != [] {
      FilterTwice(p, q, r, s[1..]);
      assert s[0] in s;
      FilterAppend(q, if p(s[0]) then [s[0]] else [], Filter(p, s[1..]));
      assert p(s[0]) ==> [s[0]][1..] == [];
    }
  }

  /** 0, …, n - 1. */
  function Indices(n: nat): (s: seq<int>)
    ensures |s| == n && forall i :: 0 <= i < n ==> s[i] == i
  {
    seq(n, i => i)
  }

  /** How a filter over the indices grows by one. */
  lemma FilterIndices(p: int -> bool, q: int -> bool, r: int -> bool, n: nat)
    requires forall j :: 0 <= j < n ==> r(j) == (p(j) && q(j))
    ensures Filter(r, Indices(n + 1)) == Filter(q, Filter(p, Indices(n))) + if r(n) then [n] else []
  {
    assert Indices(n + 1) == Indices(n) + [n];
    FilterSnoc(r, Indices(n), n);
    FilterTwice(p, q, r, Indices(n));
  }

  ghost predicate Distinct<T>(s: seq<T>) { forall i, j :: 0 <= i < j < |s| ==> s[i] != s[j] }

  lemma DistinctCons<T>(x: T, s: seq<T>)
    requires Distinct(s) && x !in s
    ensures Distinct([x] + s)
  {}

  lemma DistinctMultiset<T>(s: seq<T>)
    ensures Distinct(s) <==> forall x :: x in s ==> multiset(s)[x] == 1
  {
    if Distinct(s) {
      forall x | x in s ensures multiset(s)[x] == 1 { OneOccurrence(s, x); }
    } else {
      var i, j :| 0 <= i < j < |s| && s[i] == s[j];
      assert s == s[..j] + [s[j]] + s[j + 1..];
      assert s[i] in s[..j];
      assert multiset(s)[s[j]] >= 2;
    }
  }

  lemma {:induction false} OneOccurrence<T>(s: seq<T>, x: T)
    requires Distinct(s)
    ensures multiset(s)[x] == if x in s then 1 else 0
  {
    if s != [] {
      OneOccurrence(s[1..], x);
      assert s == [s[0]] + s[1..];
    }
  }

  lemma {:induction false} FilterDistinct<T>(p: T -> bool, s: seq<T>)
    requires Distinct(s)
    ensures Distinct(Filter(p, s))
  {
    if s != [] {
      FilterDistinct(p, s[1..]);
      FilterMembers(p, s[1..]);
    }
  }

  lemma MapSnoc<A, B>(f: A -> B, s: seq<A>, x: A)
    ensures Map(f, s + [x]) == Map(f, s) + [f(x)]
  {}

  lemma MapTwice<A, B, C>(f: A -> B, g: B -> C, k: A -> C, s: seq<A>)
    requires forall x :: x in s ==> k(x) == g(f(x))
    ensures Map(g, Map(f, s)) == Map(k, s)
  {
  }

  lemma {:induction false} FilterCount<T>(p: T -> bool, s: seq<T>, x: T)
    ensures multiset(Filter(p, s))[x] == if p(x) then multiset(s)[x] else 0
  {
    if s != [] {
      FilterCount(p, s[1..], x);
      assert s == [s[0]] + s[1..];
    }
  }

  lemma SameSize<T>(a: seq<T>, m: seq<T>)
    requires Distinct(a) && Distinct(m) && forall x :: x in a ==> x in m
    ensures |a| <= |m| && (|m| == |a| <==> forall x :: x in m ==> x in a)
  {
    var s, t := set x | x in a, set x | x in m;
    DistinctSize(a);
    DistinctSize(m);
    SubsetSize(s, t);
    if |m| == |a| {
      forall x | x in m ensures x in a { assert x in t && x in s; }
    }
    if forall x :: x in m ==> x in a { assert s == t; }
  }

  lemma {:induction false} DistinctSize<T>(s: seq<T>)
    requires Distinct(s)
    ensures |set x | x in s| == |s|
  {
    if s != [] {
      DistinctSize(s[1..]);
      assert s == [s[0]] + s[1..];
      assert (set x | x in s) == {s[0]} + set x | x in s[1..];
    }
  }

  lemma {:induction false} SubsetSize<T>(s: set<T>, t: set<T>)
    requires s <= t
    ensures |s| <= |t| && (|s| == |t| ==> s == t)
    decreases |s|
  {
    if s != {} {
      var x :| x in s;
      SubsetSize(s - {x}, t - {x});
      assert s == (s - {x}) + {x} && t == (t - {x}) + {x};
    }
  }

  /** Taking the same element out of two permutations leaves permutations. */
  lemma Removed<T>(s: seq<T>, t: seq<T>, k: nat)
    requires k < |t| && s != [] && s[|s| - 1] == t[k] && multiset(s) == multiset(t)
    ensures multiset(s[..|s| - 1]) == multiset(t[..k] + t[k + 1..])
  {
    var init := s[..|s| - 1];
    assert s == init + [t[k]];
    assert multiset(s) == multiset(init) + multiset{t[k]};
    assert t == t[..k] + [t[k]] + t[k + 1..];
    assert multiset(init) == multiset(s) - multiset{t[k]};
    assert multiset(t[..k] + t[k + 1..]) == multiset(t) - multiset{t[k]};
  }

  lemma DisjointUnion<T>(taken: set<T>, ps: seq<T>)
    requires Distinct(ps) && forall p :: p in ps ==> p !in taken
    ensures multiset(taken + set p | p in ps) == multiset(taken) + multiset(ps)
  {
    forall x: T ensures multiset(taken + set p | p in ps)[x] == (multiset(taken) + multiset(ps))[x] {
      OneOccurrence(ps, x);
    }
  }
}
