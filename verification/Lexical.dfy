/** Go's order on strings and sort.Strings, the library call that makes the group assignments
    deterministic. */
module Lexical {
  import opened Seqs

  /** Bytewise lexicographic order. */
  predicate Leq(a: string, b: string) {
    a == [] || (b != [] && (a[0] < b[0] || (a[0] == b[0] && Leq(a[1..], b[1..]))))
  }

  lemma {:induction false} LeqTotal(a: string, b: string)
    ensures Leq(a, b) || Leq(b, a)
  {
    if a != [] && b != [] && a[0] == b[0] { LeqTotal(a[1..], b[1..]); }
  }

  lemma {:induction false} LeqAntisymmetric(a: string, b: string)
    requires Leq(a, b) && Leq(b, a)
    ensures a == b
  {
    if a != [] {
      LeqAntisymmetric(a[1..], b[1..]);
      assert a == [a[0]] + a[1..] && b == [b[0]] + b[1..];
    }
  }

  lemma {:induction false} LeqTransitive(a: string, b: string, c: string)
    requires Leq(a, b) && Leq(b, c)
    ensures Leq(a, c)
  {
    if a != [] && a[0] == b[0] == c[0] { LeqTransitive(a[1..], b[1..], c[1..]); }
  }

  ghost predicate Ascending(s: seq<string>) { forall i, j :: 0 <= i < j < |s| ==> Leq(s[i], s[j]) }

  function Insert(x: string, s: seq<string>): (r: seq<string>)
    ensures |r| == |s| + 1
  {
    if s == [] || Leq(x, s[0]) then [x] + s else [s[0]] + Insert(x, s[1..])
  }

  function Sort(s: seq<string>): (r: seq<string>)
    ensures |r| == |s|
  {
    if s == [] then [] else Insert(s[0], Sort(s[1..]))
  }

  lemma AscendingCons(x: string, s: seq<string>)
    requires Ascending(s) && forall y :: y in s ==> Leq(x, y)
    ensures Ascending([x] + s)
  {
    hide Leq;
    forall i, j | 0 <= i < j < |[x] + s| ensures Leq(([x] + s)[i], ([x] + s)[j]) {
      if i == 0 { assert s[j - 1] in s; } else { assert Leq(s[i - 1], s[j - 1]); }
    }
  }

  lemma {:induction false} InsertIsPermutation(x: string, s: seq<string>)
    ensures multiset(Insert(x, s)) == multiset(s) + multiset{x}
  {
    hide Leq;
    if s != [] && !Leq(x, s[0]) {
      InsertIsPermutation(x, s[1..]);
      assert s == [s[0]] + s[1..];
    }
  }

  lemma HeadIsLeast(s: seq<string>, y: string)
    requires Ascending(s) && y in s
    ensures Leq(s[0], y)
  {
    LeqTotal(y, y);
    hide Leq;
  }

  lemma {:induction false} InsertAscending(x: string, s: seq<string>)
    requires Ascending(s)
    ensures Ascending(Insert(x, s))
  {
    if s == [] {
    } else if Leq(x, s[0]) {
      hide Leq;
      forall y | y in s ensures Leq(x, y) {
        HeadIsLeast(s, y);
        LeqTransitive(x, s[0], y);
      }
      AscendingCons(x, s);
    } else {
      hide Leq;
      LeqTotal(x, s[0]);
      InsertAscending(x, s[1..]);
      InsertIsPermutation(x, s[1..]);
      var t := Insert(x, s[1..]);
      forall y | y in t ensures Leq(s[0], y) {
        assert y in multiset(t);
        if y != x { assert y in s[1..]; HeadIsLeast(s, y); }
      }
      AscendingCons(s[0], t);
    }
  }

  lemma {:induction false} SortSorts(s: seq<string>)
    ensures Ascending(Sort(s)) && multiset(Sort(s)) == multiset(s)
  {
    hide Insert, Leq;
    if s != [] {
      SortSorts(s[1..]);
      InsertAscending(s[0], Sort(s[1..]));
      InsertIsPermutation(s[0], Sort(s[1..]));
      assert s == [s[0]] + s[1..];
    }
    assert |multiset(Sort(s))| == |Sort(s)|;
  }

  lemma SameTails<T>(a: seq<T>, b: seq<T>)
    requires a != [] && b != [] && a[0] == b[0]
    ensures multiset(a) == multiset(b) <==> multiset(a[1..]) == multiset(b[1..])
    ensures a[1..] == b[1..] ==> a == b
  {
    assert a == [a[0]] + a[1..] && b == [b[0]] + b[1..];
    assert multiset(a[1..]) == multiset(a) - multiset{a[0]};
    assert multiset(b[1..]) == multiset(b) - multiset{b[0]};
  }

  lemma {:induction false} AscendingUnique(a: seq<string>, b: seq<string>)
    requires Ascending(a) && Ascending(b) && multiset(a) == multiset(b)
    ensures a == b
  {
    hide Leq;
    assert |a| == |multiset(a)| == |multiset(b)| == |b|;
    if a != [] {
      assert a[0] in multiset(b) && b[0] in multiset(a);
      HeadIsLeast(a, b[0]);
      HeadIsLeast(b, a[0]);
      LeqAntisymmetric(a[0], b[0]);
      SameTails(a, b);
      AscendingUnique(a[1..], b[1..]);
    }
  }

  /** Sorting forgets the order it was given. */
  lemma SortDeterministic(a: seq<string>, b: seq<string>)
    requires multiset(a) == multiset(b)
    ensures Sort(a) == Sort(b)
  {
    SortSorts(a);
    SortSorts(b);
    AscendingUnique(Sort(a), Sort(b));
  }

  lemma SortDistinct(s: seq<string>)
    requires Distinct(s)
    ensures Distinct(Sort(s)) && forall x :: x in Sort(s) <==> x in s
  {
    SortSorts(s);
    DistinctMultiset(s);
    forall x: string ensures x in Sort(s) <==> x in s {
      assert x in multiset(s) <==> x in multiset(Sort(s));
    }
    DistinctMultiset(Sort(s));
  }
}
