/** What a partition log means: one sequence of records with increasing offsets, the naive read
    over it, and the table obtained by letting the last value of each key win. */
module LogSpec {
  import opened Bytes
  import opened Seqs
  import opened Records

  ghost predicate Increasing(rs: seq<Record>) {
    forall i, j :: 0 <= i < j < |rs| ==> rs[i].offset < rs[j].offset
  }

  function NextOffset(base: int, rs: seq<Record>): int {
    if rs == [] then base else rs[|rs| - 1].offset + 1
  }

  // ----- The naive read -----

  function NotBefore(from: int): Record -> bool { (r: Record) => r.offset >= from }

  function AtOrAfter(rs: seq<Record>, from: int): seq<Record> { Filter(NotBefore(from), rs) }

  /** The first `max` records whose offset is at least `from`. */
  function NaiveRead(rs: seq<Record>, from: int, max: int): seq<Record> { Take(AtOrAfter(rs, from), max) }

  ghost predicate AllBefore(rs: seq<Record>, bound: int) { forall i :: 0 <= i < |rs| ==> rs[i].offset < bound }

  ghost predicate NoneBefore(rs: seq<Record>, bound: int) { forall i :: 0 <= i < |rs| ==> bound <= rs[i].offset }

  lemma AtOrAfterConcat(a: seq<Record>, b: seq<Record>, from: int)
    ensures AtOrAfter(a + b, from) == AtOrAfter(a, from) + AtOrAfter(b, from)
  {
    FilterAppend(NotBefore(from), a, b);
  }

  lemma AtOrAfterNone(rs: seq<Record>, from: int)
    requires AllBefore(rs, from)
    ensures AtOrAfter(rs, from) == []
  {
    FilterNone(NotBefore(from), rs);
  }

  lemma AtOrAfterAll(rs: seq<Record>, from: int)
    requires NoneBefore(rs, from)
    ensures AtOrAfter(rs, from) == rs
  {
    FilterAll(NotBefore(from), rs);
  }

  lemma AtOrAfterCut(rs: seq<Record>, k: nat, from: int)
    requires k <= |rs| && AllBefore(rs[..k], from) && NoneBefore(rs[k..], from)
    ensures AtOrAfter(rs, from) == rs[k..]
  {
    assert rs == rs[..k] + rs[k..];
    AtOrAfterConcat(rs[..k], rs[k..], from);
    AtOrAfterNone(rs[..k], from);
    AtOrAfterAll(rs[k..], from);
  }

  /** On an increasing log the records at or after an offset are a suffix. */
  lemma {:induction false} FirstAtOrAfter(rs: seq<Record>, from: int, k: nat) returns (n: nat)
    requires Increasing(rs) && k <= |rs| && AllBefore(rs[..k], from)
    ensures k <= n <= |rs| && AllBefore(rs[..n], from) && NoneBefore(rs[n..], from)
    decreases |rs| - k
  {
    if k < |rs| && rs[k].offset < from { n := FirstAtOrAfter(rs, from, k + 1); } else { n := k; }
  }

  // ----- Last value wins -----

  type Table = map<bytes, Record>

  /** Keyless records carry no state; a nil value deletes its key. */
  function Apply(t: Table, r: Record): Table {
    if r.key == [] then t else if r.value.Nil? then t - {r.key} else t[r.key := r]
  }

  function FoldFrom(t: Table, rs: seq<Record>): Table {
    if rs == [] then t else Apply(FoldFrom(t, rs[..|rs| - 1]), rs[|rs| - 1])
  }

  function Fold(rs: seq<Record>): Table { FoldFrom(map[], rs) }

  lemma FoldSnoc(t: Table, rs: seq<Record>, r: Record)
    ensures FoldFrom(t, rs + [r]) == Apply(FoldFrom(t, rs), r)
  {
    assert (rs + [r])[..|rs|] == rs;
  }

  lemma {:induction false} FoldConcat(t: Table, a: seq<Record>, b: seq<Record>)
    ensures FoldFrom(t, a + b) == FoldFrom(FoldFrom(t, a), b)
  {
    if b == [] {
      assert a + b == a;
    } else {
      var b' := b[..|b| - 1];
      FoldConcat(t, a, b');
      assert a + b == (a + b') + [b[|b| - 1]];
      FoldSnoc(t, a + b', b[|b| - 1]);
    }
  }

  /** Every live entry is a record of the log, filed under its own key, with a value. */
  ghost predicate TableOf(t: Table, rs: seq<Record>) {
    forall k :: k in t ==> t[k] in rs && t[k].key == k && k != [] && !t[k].value.Nil?
  }

  lemma {:induction false} FoldIsTable(rs: seq<Record>)
    ensures TableOf(Fold(rs), rs)
  {
    if rs != [] {
      FoldIsTable(rs[..|rs| - 1]);
      assert rs == rs[..|rs| - 1] + [rs[|rs| - 1]];
    }
  }

  /** Record `i` is the last one of key `k`. */
  ghost predicate LastOf(rs: seq<Record>, k: bytes, i: int) {
    0 <= i < |rs| && rs[i].key == k && forall j :: i < j < |rs| ==> rs[j].key != k
  }

  /** Last value wins: a key is in the table exactly if its last record has a value, and its entry
      is that record. */
  lemma {:induction false} FoldIsLast(rs: seq<Record>, k: bytes)
    ensures k in Fold(rs) <==> k != [] && exists i :: LastOf(rs, k, i) && !rs[i].value.Nil?
    ensures forall i :: LastOf(rs, k, i) && k in Fold(rs) ==> Fold(rs)[k] == rs[i]
  {
    if rs != [] {
      var n := |rs| - 1;
      var init := rs[..n];
      FoldIsLast(init, k);
      assert Fold(rs) == Apply(Fold(init), rs[n]);
      hide FoldFrom;
      if rs[n].key == k {
        assert LastOf(rs, k, n);
      } else {
        forall i ensures LastOf(rs, k, i) <==> LastOf(init, k, i) { LastOfInit(rs, k, i); }
      }
    }
  }

  lemma LastOfInit(rs: seq<Record>, k: bytes, i: int)
    requires rs != [] && rs[|rs| - 1].key != k
    ensures LastOf(rs, k, i) <==> LastOf(rs[..|rs| - 1], k, i)
  {
    var init := rs[..|rs| - 1];
    if LastOf(init, k, i) {
      forall j | i < j < |rs| ensures rs[j].key != k { if j < |init| { assert init[j].key != k; } }
    }
  }

  // ----- Compaction, as a function of the sealed records -----

  function Current(t: Table): Record -> bool {
    (r: Record) => r.key != [] && r.key in t && t[r.key].offset == r.offset
  }

  /** What compaction keeps: the record each live key's last value came from. */
  function Compacted(rs: seq<Record>): seq<Record> { Filter(Current(Fold(rs)), rs) }

  lemma SameOffsetSameRecord(rs: seq<Record>, a: Record, b: Record)
    requires Increasing(rs) && a in rs && b in rs && a.offset == b.offset
    ensures a == b
  {
    var i :| 0 <= i < |rs| && rs[i] == a;
    var j :| 0 <= j < |rs| && rs[j] == b;
  }

  lemma {:induction false} FilterIncreasing(p: Record -> bool, rs: seq<Record>)
    requires Increasing(rs)
    ensures Increasing(Filter(p, rs))
  {
    if rs != [] {
      FilterIncreasing(p, rs[1..]);
      FilterMembers(p, rs[1..]);
      var tail := Filter(p, rs[1..]);
      assert forall j :: 0 <= j < |tail| ==> tail[j] in rs[1..];
      assert forall r :: r in rs[1..] ==> rs[0].offset < r.offset;
    }
  }

  /** The part of a table whose records are among `rs`. */
  ghost function Held(t: Table, rs: seq<Record>): Table { map k | k in t && t[k] in rs :: t[k] }

  lemma HeldSnoc(t: Table, rs: seq<Record>, r: Record)
    requires forall k :: k in t ==> t[k].key == k
    ensures Held(t, rs + [r]) == if r.key in t && t[r.key] == r then Held(t, rs)[r.key := r] else Held(t, rs)
  {}

  /** Folding only the current records of any prefix gives the part of the table they hold. */
  lemma {:induction false} FoldOfKept(all: seq<Record>, t: Table, rs: seq<Record>)
    requires Increasing(all) && TableOf(t, all) && forall r :: r in rs ==> r in all
    ensures Fold(Filter(Current(t), rs)) == Held(t, rs)
  {
    if rs != [] {
      var init, last := rs[..|rs| - 1], rs[|rs| - 1];
      assert rs == init + [last];
      FoldOfKept(all, t, init);
      FilterSnoc(Current(t), init, last);
      HeldSnoc(t, init, last);
      if Current(t)(last) {
        SameOffsetSameRecord(all, last, t[last.key]);
        FoldSnoc(map[], Filter(Current(t), init), last);
      }
    }
  }

  /** Compaction preserves meaning: the same table, from records that keep their offsets and order. */
  lemma CompactionPreservesFold(rs: seq<Record>)
    requires Increasing(rs)
    ensures Fold(Compacted(rs)) == Fold(rs)
    ensures Increasing(Compacted(rs))
    ensures forall r :: r in Compacted(rs) ==> r in rs
  {
    FoldIsTable(rs);
    FoldOfKept(rs, Fold(rs), rs);
    assert Held(Fold(rs), rs) == Fold(rs);
    FilterIncreasing(Current(Fold(rs)), rs);
    FilterMembers(Current(Fold(rs)), rs);
  }

  /** Whatever follows the compacted records, the whole log folds to the same table as before. */
  lemma CompactionPreservesLog(sealed: seq<Record>, active: seq<Record>)
    requires Increasing(sealed)
    ensures Fold(Compacted(sealed) + active) == Fold(sealed + active)
  {
    CompactionPreservesFold(sealed);
    FoldConcat(map[], Compacted(sealed), active);
    FoldConcat(map[], sealed, active);
  }

  /** The compacted records are exactly the live ones, one per key. */
  lemma CompactedIsExact(rs: seq<Record>)
    requires Increasing(rs)
    ensures forall r :: r in Compacted(rs) <==> r.key in Fold(rs) && Fold(rs)[r.key] == r
    ensures forall i, j :: 0 <= i < j < |Compacted(rs)| ==> Compacted(rs)[i].key != Compacted(rs)[j].key
  {
    var t, c := Fold(rs), Compacted(rs);
    FoldIsTable(rs);
    FilterMembers(Current(t), rs);
    FilterIncreasing(Current(t), rs);
    forall r | r in c ensures r.key in t && t[r.key] == r {
      SameOffsetSameRecord(rs, r, t[r.key]);
    }
    forall i, j | 0 <= i < j < |c| ensures c[i].key != c[j].key {
      assert c[i] in c && c[j] in c;
    }
  }

  /** Compacting again changes nothing. */
  lemma CompactionIsIdempotent(rs: seq<Record>)
    requires Increasing(rs)
    ensures Compacted(Compacted(rs)) == Compacted(rs)
  {
    CompactionPreservesFold(rs);
    FilterMembers(Current(Fold(rs)), rs);
    FilterAll(Current(Fold(rs)), Compacted(rs));
  }
}
