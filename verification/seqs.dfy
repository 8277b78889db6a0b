/** The two array library calls the game loop relies on: `Array.prototype.filter`
    (used to drop marked entities) and the stable `Array.prototype.sort` with a
    numeric key (used to order ravens by width). */
module Seqs {

  /** No element occurs twice: no object is held twice by one collection. */
  predicate Distinct<T(==)>(s: seq<T>) {
    forall i, j :: 0 <= i < j < |s| ==> s[i] != s[j]
  }

  /** Appending is associative; used where a list grows by one batch at a time. */
  lemma AppendAssoc<T>(a: seq<T>, b: seq<T>, c: seq<T>)
    ensures (a + b) + c == a + (b + c)
  {
  }

  // ---------------------------------------------------------------------------
  // filter

  /** `s.filter(keep)`: the elements that satisfy `keep`, in their order in `s`. */
  function Filter<T>(s: seq<T>, keep: T -> bool): seq<T> {
    if s == [] then []
    else Filter(s[..|s| - 1], keep) + (if keep(s[|s| - 1]) then [s[|s| - 1]] else [])
  }

  /** The positions in `s` of the elements `Filter` keeps, in increasing order. */
  function KeptIndices<T>(s: seq<T>, keep: T -> bool): seq<nat> {
    if s == [] then []
    else KeptIndices(s[..|s| - 1], keep) + (if keep(s[|s| - 1]) then [|s| - 1] else [])
  }

  predicate StrictlyIncreasing(idx: seq<nat>) {
    forall i, j :: 0 <= i < j < |idx| ==> idx[i] < idx[j]
  }

  /** `r` is `s` filtered by `keep`, as seen through the positions `idx`: it
      holds the elements of `s` at exactly the positions that satisfy `keep`,
      each once and in their original relative order. */
  ghost predicate FilteredAt<T>(r: seq<T>, s: seq<T>, keep: T -> bool, idx: seq<nat>) {
    && |idx| == |r|
    && StrictlyIncreasing(idx)
    && (forall j :: 0 <= j < |idx| ==> idx[j] < |s| && r[j] == s[idx[j]])
    && (forall i :: 0 <= i < |s| ==> (keep(s[i]) <==> i in idx))
  }

  /** Filtering keeps exactly the elements at the positions that satisfy `keep`,
      in their original relative order. */
  lemma {:induction false} FilterKeepsOrder<T>(s: seq<T>, keep: T -> bool)
    ensures FilteredAt(Filter(s, keep), s, keep, KeptIndices(s, keep))
  {
    if s != [] {
      var init := s[..|s| - 1];
      FilterKeepsOrder(init, keep);
      var idx0 := KeptIndices(init, keep);
      assert forall j :: 0 <= j < |idx0| ==> idx0[j] < |init|;
      forall i | 0 <= i < |s|
        ensures keep(s[i]) <==> i in KeptIndices(s, keep)
      {
        if i < |init| {
          assert s[i] == init[i];
        }
      }
    }
  }

  /** A property of every element survives filtering, and every survivor
      satisfies `keep`. */
  lemma {:induction false} FilterPreserves<T>(s: seq<T>, keep: T -> bool, p: T -> bool)
    requires forall i :: 0 <= i < |s| ==> p(s[i])
    ensures forall j :: 0 <= j < |Filter(s, keep)| ==> p(Filter(s, keep)[j]) && keep(Filter(s, keep)[j])
  {
    if s != [] {
      FilterPreserves(s[..|s| - 1], keep, p);
    }
  }

  lemma {:induction false} FilterAll<T>(s: seq<T>, keep: T -> bool)
    requires forall i :: 0 <= i < |s| ==> keep(s[i])
    ensures Filter(s, keep) == s
  {
    if s != [] {
      FilterAll(s[..|s| - 1], keep);
    }
  }

  /** The elements of `s` at the positions `idx`, in that order. */
  function Pick<T>(s: seq<T>, idx: seq<nat>): seq<T>
    requires forall j :: 0 <= j < |idx| ==> idx[j] < |s|
  {
    seq(|idx|, j requires 0 <= j < |idx| => s[idx[j]])
  }

  /** Picking at increasing positions from a sequence without repetitions gives
      a sequence without repetitions. */
  lemma PickDistinct<T>(s: seq<T>, idx: seq<nat>)
    requires forall j :: 0 <= j < |idx| ==> idx[j] < |s|
    requires Distinct(s) && StrictlyIncreasing(idx)
    ensures Distinct(Pick(s, idx))
  {
  }

  /** An element occurs at most once in a sequence without repetitions. */
  lemma {:induction false} DistinctCount<T>(s: seq<T>, x: T)
    requires Distinct(s)
    ensures multiset(s)[x] <= 1
  {
    if s != [] {
      var init := s[..|s| - 1];
      DistinctCount(init, x);
      assert s == init + [s[|s| - 1]];
      if x == s[|s| - 1] {
        assert x !in init;
      }
    }
  }

  /** A permutation of a sequence without repetitions has none either. */
  lemma PermutationDistinct<T>(a: seq<T>, b: seq<T>)
    requires Distinct(a) && multiset(a) == multiset(b)
    ensures Distinct(b)
  {
    forall i, j | 0 <= i < j < |b|
      ensures b[i] != b[j]
    {
      if b[i] == b[j] {
        var x := b[i];
        assert b == b[..i] + [b[i]] + b[i + 1..j] + [b[j]] + b[j + 1..];
        assert multiset(b)[x] >= 2;
        DistinctCount(a, x);
        assert false;
      }
    }
  }

  /** Every kept element satisfies `keep`, and every element that does is kept. */
  lemma {:induction false} FilterMembers<T>(s: seq<T>, keep: T -> bool)
    ensures forall x :: x in Filter(s, keep) <==> x in s && keep(x)
  {
    if s != [] {
      var init := s[..|s| - 1];
      FilterMembers(init, keep);
      assert s == init + [s[|s| - 1]];
    }
  }

  lemma {:induction false} FilterAppend<T>(a: seq<T>, b: seq<T>, keep: T -> bool)
    ensures Filter(a + b, keep) == Filter(a, keep) + Filter(b, keep)
  {
    if b != [] {
      var b0 := b[..|b| - 1];
      assert (a + b)[..|a + b| - 1] == a + b0;
      FilterAppend(a, b0, keep);
    } else {
      assert a + b == a;
    }
  }

  lemma {:induction false} FilterSubset<T>(s: seq<T>, keep: T -> bool)
    ensures |Filter(s, keep)| <= |s|
    ensures multiset(Filter(s, keep)) <= multiset(s)
  {
    if s != [] {
      var init := s[..|s| - 1];
      FilterSubset(init, keep);
      assert s == init + [s[|s| - 1]];
    }
  }

  // ---------------------------------------------------------------------------
  // stable sort by a numeric key

  predicate SortedBy<T>(s: seq<T>, key: T -> real) {
    forall i, j :: 0 <= i < j < |s| ==> key(s[i]) <= key(s[j])
  }

  /** Inserts `x` after every element whose key is not larger than its own. */
  function InsertBy<T>(t: seq<T>, x: T, key: T -> real): seq<T> {
    if t == [] then [x]
    else if key(x) < key(t[0]) then [x] + t
    else [t[0]] + InsertBy(t[1..], x, key)
  }

  /** `s.sort((a, b) => key(a) - key(b))`, stable, as an insertion sort. */
  function SortBy<T>(s: seq<T>, key: T -> real): seq<T> {
    if s == [] then [] else InsertBy(SortBy(s[..|s| - 1], key), s[|s| - 1], key)
  }

  lemma {:induction false} InsertByPermutes<T>(t: seq<T>, x: T, key: T -> real)
    ensures multiset(InsertBy(t, x, key)) == multiset(t) + multiset{x}
  {
    if t != [] && key(t[0]) <= key(x) {
      InsertByPermutes(t[1..], x, key);
      assert t == [t[0]] + t[1..];
    }
  }

  lemma {:induction false} InsertByCorrect<T>(t: seq<T>, x: T, key: T -> real)
    requires SortedBy(t, key)
    ensures SortedBy(InsertBy(t, x, key), key)
    ensures multiset(InsertBy(t, x, key)) == multiset(t) + multiset{x}
  {
    InsertByPermutes(t, x, key);
    if t != [] && key(t[0]) <= key(x) {
      var t1 := t[1..];
      var rest := InsertBy(t1, x, key);
      InsertByCorrect(t1, x, key);
      assert SortedBy(t1, key);
      forall j | 0 <= j < |rest|
        ensures key(t[0]) <= key(rest[j])
      {
        assert rest[j] in multiset(rest);
        assert rest[j] in multiset(t1) || rest[j] == x;
        if rest[j] != x {
          var m :| 0 <= m < |t1| && t1[m] == rest[j];
          assert t[m + 1] == t1[m];
        }
      }
      assert InsertBy(t, x, key) == [t[0]] + rest;
    }
  }

  /** Sorting yields an ordered permutation of its input. */
  lemma {:induction false} SortByCorrect<T>(s: seq<T>, key: T -> real)
    ensures SortedBy(SortBy(s, key), key)
    ensures multiset(SortBy(s, key)) == multiset(s)
    ensures |SortBy(s, key)| == |s|
  {
    if s != [] {
      var init := s[..|s| - 1];
      SortByCorrect(init, key);
      InsertByCorrect(SortBy(init, key), s[|s| - 1], key);
      assert s == init + [s[|s| - 1]];
      assert |SortBy(s, key)| == |multiset(SortBy(s, key))| == |multiset(s)| == |s|;
    }
  }

  /** The elements that have one given key. */
  function HasKey<T>(key: T -> real, k: real): T -> bool {
    e => key(e) == k
  }

  lemma {:induction false} InsertByStable<T>(t: seq<T>, x: T, key: T -> real, k: real)
    requires SortedBy(t, key)
    ensures Filter(InsertBy(t, x, key), HasKey(key, k)) == Filter(t + [x], HasKey(key, k))
  {
    var p := HasKey(key, k);
    if t == [] {
      assert t + [x] == [x];
    } else if key(x) < key(t[0]) {
      FilterAppend([x], t, p);
      FilterAppend(t, [x], p);
      if p(x) {
        FilterNone(t, p);
      } else {
        assert Filter([x], p) == [];
      }
    } else {
      var t1 := t[1..];
      InsertByStable(t1, x, key, k);
      FilterAppend([t[0]], InsertBy(t1, x, key), p);
      assert t + [x] == [t[0]] + (t1 + [x]);
      FilterAppend([t[0]], t1 + [x], p);
    }
  }

  /** Nothing survives a filter that rejects every element. */
  lemma FilterNone<T>(t: seq<T>, p: T -> bool)
    requires forall i :: 0 <= i < |t| ==> !p(t[i])
    ensures Filter(t, p) == []
  {
    FilterMembers(t, p);
  }

  /** Stability: elements with equal keys keep their relative order. */
  lemma {:induction false} SortByStable<T>(s: seq<T>, key: T -> real, k: real)
    ensures Filter(SortBy(s, key), HasKey(key, k)) == Filter(s, HasKey(key, k))
  {
    if s != [] {
      var init := s[..|s| - 1];
      SortByStable(init, key, k);
      SortByCorrect(init, key);
      InsertByStable(SortBy(init, key), s[|s| - 1], key, k);
      FilterAppend(SortBy(init, key), [s[|s| - 1]], HasKey(key, k));
      FilterAppend(init, [s[|s| - 1]], HasKey(key, k));
      assert s == init + [s[|s| - 1]];
    }
  }

  /** A sorted sequence stays sorted when elements are dropped. */
  lemma FilterSorted<T>(s: seq<T>, key: T -> real, keep: T -> bool)
    requires SortedBy(s, key)
    ensures SortedBy(Filter(s, keep), key)
  {
    FilterKeepsOrder(s, keep);
  }
}
