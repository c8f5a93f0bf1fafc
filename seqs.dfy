/** Sequence operations that the backend and the pages share: filtering
    (`list.filter`, pandas boolean masks), prefixes (`slice(0, n)`, `head(n)`),
    stable sorting by a key (`sorted`, `Array.prototype.sort`) and
    keep-first de-duplication (a `Set` of keys already seen). */
module Seqs {

  // ---------------------------------------------------------------- filter

  function Filter<T(==)>(s: seq<T>, p: T -> bool): (r: seq<T>)
    ensures |r| <= |s|
    ensures forall x :: x in r ==> x in s && p(x)
    ensures forall x :: x in s && p(x) ==> x in r
    ensures IsSubsequence(r, s)
  {
    if s == [] then []
    else if p(s[0]) then [s[0]] + Filter(s[1..], p)
    else Filter(s[1..], p)
  }

  /** `r` is `s` with some elements dropped and the rest kept in order. */
  ghost predicate IsSubsequence<T>(r: seq<T>, s: seq<T>)
    decreases |s|
  {
    if r == [] then true
    else if s == [] then false
    else (r[0] == s[0] && IsSubsequence(r[1..], s[1..])) || IsSubsequence(r, s[1..])
  }

  lemma {:induction false} SubsequenceReflexive<T>(s: seq<T>)
    ensures IsSubsequence(s, s)
    decreases |s|
  {
    if s != [] {
      SubsequenceReflexive(s[1..]);
    }
  }

  /** A subsequence is no longer than the sequence. */
  lemma {:induction false} SubsequenceLength<T>(r: seq<T>, s: seq<T>)
    requires IsSubsequence(r, s)
    ensures |r| <= |s|
    decreases |s|
  {
    if r != [] {
      if r[0] == s[0] && IsSubsequence(r[1..], s[1..]) {
        SubsequenceLength(r[1..], s[1..]);
      } else {
        SubsequenceLength(r, s[1..]);
      }
    }
  }

  /** A prefix is a subsequence. */
  lemma {:induction false} PrefixSubsequence<T>(s: seq<T>, k: nat)
    requires k <= |s|
    ensures IsSubsequence(s[..k], s)
    decreases k
  {
    if k > 0 {
      assert s[..k][1..] == s[1..][..k - 1];
      PrefixSubsequence(s[1..], k - 1);
    }
  }

  lemma {:induction false} SubsequenceTransitive<T>(a: seq<T>, b: seq<T>, c: seq<T>)
    requires IsSubsequence(a, b) && IsSubsequence(b, c)
    ensures IsSubsequence(a, c)
    decreases |c|
  {
    if a != [] {
      if IsSubsequence(b, c[1..]) {
        SubsequenceTransitive(a, b, c[1..]);
      } else if a[0] == b[0] && IsSubsequence(a[1..], b[1..]) {
        SubsequenceTransitive(a[1..], b[1..], c[1..]);
      } else {
        SubsequenceTransitive(a, b[1..], c[1..]);
      }
    }
  }

  /** Where the elements of a subsequence sit in the sequence: at strictly
      increasing positions. */
  lemma {:induction false} SubsequenceIndices<T>(r: seq<T>, s: seq<T>) returns (pos: seq<nat>)
    requires IsSubsequence(r, s)
    ensures |pos| == |r|
    ensures forall k :: 0 <= k < |r| ==> pos[k] < |s| && r[k] == s[pos[k]]
    ensures forall k, l :: 0 <= k < l < |r| ==> pos[k] < pos[l]
    decreases |s|
  {
    if r == [] {
      pos := [];
    } else if r[0] == s[0] && IsSubsequence(r[1..], s[1..]) {
      var rest := SubsequenceIndices(r[1..], s[1..]);
      pos := [0] + seq(|rest|, k requires 0 <= k < |rest| => rest[k] + 1);
    } else {
      var rest := SubsequenceIndices(r, s[1..]);
      pos := seq(|rest|, k requires 0 <= k < |rest| => rest[k] + 1);
    }
  }

  /** Two elements of a subsequence lie at increasing positions of the sequence. */
  lemma SubsequencePositions<T>(r: seq<T>, s: seq<T>, i: int, j: int) returns (a: nat, b: nat)
    requires IsSubsequence(r, s) && 0 <= i < j < |r|
    ensures a < b < |s| && r[i] == s[a] && r[j] == s[b]
  {
    var pos := SubsequenceIndices(r, s);
    a, b := pos[i], pos[j];
  }

  /** Filtering out an element that occurs makes the sequence shorter. */
  lemma {:induction false} FilterDropsOne<T>(s: seq<T>, p: T -> bool, x: T)
    requires x in s && !p(x)
    ensures |Filter(s, p)| < |s|
  {
    if s[0] != x {
      FilterDropsOne(s[1..], p, x);
    }
  }

  /** Filtering a concatenation filters each part. */
  lemma {:induction false} FilterAppend<T>(a: seq<T>, b: seq<T>, p: T -> bool)
    ensures Filter(a + b, p) == Filter(a, p) + Filter(b, p)
  {
    if a == [] {
      assert a + b == b;
    } else {
      assert (a + b)[1..] == a[1..] + b;
      FilterAppend(a[1..], b, p);
    }
  }

  /** A filter that keeps everything returns its input. */
  lemma {:induction false} FilterAll<T>(s: seq<T>, p: T -> bool)
    requires forall x :: x in s ==> p(x)
    ensures Filter(s, p) == s
  {
    if s != [] {
      FilterAll(s[1..], p);
    }
  }

  /** A filter that keeps nothing returns the empty sequence. */
  lemma {:induction false} FilterNone<T>(s: seq<T>, p: T -> bool)
    requires forall x :: x in s ==> !p(x)
    ensures Filter(s, p) == []
  {
    if s != [] {
      FilterNone(s[1..], p);
    }
  }

  /** Filtering twice by two predicates is filtering once by their conjunction `both`. */
  lemma {:induction false} FilterFilter<T>(s: seq<T>, p: T -> bool, q: T -> bool, both: T -> bool)
    requires forall x :: x in s ==> both(x) == (p(x) && q(x))
    ensures Filter(Filter(s, p), q) == Filter(s, both)
  {
    if s != [] {
      FilterFilter(s[1..], p, q, both);
    }
  }

  /** Number of elements satisfying `p` (a `filter(...).length`). */
  function Count<T(==)>(s: seq<T>, p: T -> bool): (n: nat)
    ensures n <= |s|
  {
    |Filter(s, p)|
  }

  /** Counting the elements of a concatenation adds the counts. */
  lemma {:induction false} CountAppend<T>(s: seq<T>, t: seq<T>, p: T -> bool)
    ensures Count(s + t, p) == Count(s, p) + Count(t, p)
  {
    if s != [] {
      assert (s + t)[1..] == s[1..] + t;
      CountAppend(s[1..], t, p);
    } else {
      assert s + t == t;
    }
  }

  /** Two predicates that never hold together count at most the whole sequence. */
  lemma {:induction false} CountDisjoint<T>(s: seq<T>, p: T -> bool, q: T -> bool)
    requires forall x :: x in s ==> !(p(x) && q(x))
    ensures Count(s, p) + Count(s, q) <= |s|
  {
    if s != [] {
      CountDisjoint(s[1..], p, q);
    }
  }

  // ---------------------------------------------------------------- prefixes

  /** `slice(0, n)` and pandas `head(n)`: at most the first `n` elements. */
  function Take<T(==)>(s: seq<T>, n: int): (r: seq<T>)
    ensures |r| == if n <= 0 then 0 else if n < |s| then n else |s|
    ensures forall i :: 0 <= i < |r| ==> r[i] == s[i]
  {
    if n <= 0 then [] else if n < |s| then s[..n] else s
  }

  /** A prefix takes each element at most as often as the whole sequence holds it. */
  lemma TakeSubMultiset<T>(s: seq<T>, n: int)
    ensures multiset(Take(s, n)) <= multiset(s)
  {
    var k := |Take(s, n)|;
    assert Take(s, n) == s[..k];
    assert s == s[..k] + s[k..];
  }

  lemma TakeMembers<T>(s: seq<T>, n: int)
    ensures forall x :: x in Take(s, n) ==> x in s
  {
    forall x | x in Take(s, n) ensures x in s {
      var i :| 0 <= i < |Take(s, n)| && Take(s, n)[i] == x;
      assert s[i] == x;
    }
  }

  lemma TakeSubsequence<T>(s: seq<T>, n: int)
    ensures IsSubsequence(Take(s, n), s)
  {
    if n <= 0 {
    } else if n < |s| {
      PrefixSubsequence(s, n);
    } else {
      SubsequenceReflexive(s);
    }
  }

  // ---------------------------------------------------------------- order

  /** Ranks compare lexicographically, a proper prefix ranking lower: the order
      of JavaScript strings by code unit, and of tuples of numbers. */
  type Rank = seq<int>

  predicate RankLess(a: Rank, b: Rank)
    decreases |a|
  {
    if a == [] then b != []
    else if b == [] then false
    else a[0] < b[0] || (a[0] == b[0] && RankLess(a[1..], b[1..]))
  }

  lemma {:induction false} RankLessIrreflexive(a: Rank)
    ensures !RankLess(a, a)
  {
    if a != [] {
      RankLessIrreflexive(a[1..]);
    }
  }

  lemma {:induction false} RankLessTransitive(a: Rank, b: Rank, c: Rank)
    requires RankLess(a, b) && RankLess(b, c)
    ensures RankLess(a, c)
    decreases |a|
  {
    if a != [] && b != [] && c != [] && a[0] == b[0] == c[0] {
      RankLessTransitive(a[1..], b[1..], c[1..]);
    }
  }

  lemma {:induction false} RankLessTotal(a: Rank, b: Rank)
    ensures a == b || RankLess(a, b) || RankLess(b, a)
    decreases |a|
  {
    if a != [] && b != [] && a[0] == b[0] {
      RankLessTotal(a[1..], b[1..]);
      if a[1..] == b[1..] {
        assert a == [a[0]] + a[1..] && b == [b[0]] + b[1..];
      }
    }
  }

  /** One-element ranks compare as their numbers do. */
  lemma RankLessSingleton(x: int, y: int)
    ensures RankLess([x], [y]) <==> x < y
  {
    assert [x][1..] == [] && [y][1..] == [];
  }

  /** Two-part ranks compare on the first part, then on the second. */
  lemma RankLessPair(a: int, b: int, c: int, d: int)
    ensures RankLess([a, b], [c, d]) <==> a < c || (a == c && b < d)
  {
    assert [a, b][1..] == [b] && [c, d][1..] == [d];
    RankLessSingleton(b, d);
  }

  /** A string compares by its code points, a proper prefix first. */
  function StringRank(s: string): (r: Rank)
    ensures |r| == |s| && forall i :: 0 <= i < |s| ==> r[i] == s[i] as int
  {
    seq(|s|, i requires 0 <= i < |s| => s[i] as int)
  }

  /** `a` must be placed strictly before `b` when sorting in direction `desc`. */
  predicate Precedes(a: Rank, b: Rank, desc: bool) {
    if desc then RankLess(b, a) else RankLess(a, b)
  }

  lemma PrecedesAsymmetric(a: Rank, b: Rank, desc: bool)
    requires Precedes(a, b, desc)
    ensures !Precedes(b, a, desc)
  {
    if RankLess(a, b) && RankLess(b, a) {
      RankLessTransitive(a, b, a);
      RankLessIrreflexive(a);
    }
  }

  /** "Not strictly before" is transitive: ranks form a total preorder. */
  lemma NotPrecedesTransitive(a: Rank, b: Rank, c: Rank, desc: bool)
    requires !Precedes(a, b, desc) && !Precedes(b, c, desc)
    ensures !Precedes(a, c, desc)
  {
    RankLessTotal(a, b);
    RankLessTotal(b, c);
    if Precedes(a, c, desc) {
      if a == b {
      } else if b == c {
      } else if desc {
        RankLessTransitive(a, b, c);
        RankLessTransitive(a, c, a);
        RankLessIrreflexive(a);
      } else {
        RankLessTransitive(c, b, a);
        RankLessTransitive(a, c, a);
        RankLessIrreflexive(a);
      }
    }
  }

  /** No element is followed by one that should have come before it. */
  ghost predicate Ordered<T>(s: seq<T>, key: T -> Rank, desc: bool) {
    forall i, j :: 0 <= i < j < |s| ==> !Precedes(key(s[j]), key(s[i]), desc)
  }

  function Insert<T(==)>(x: T, s: seq<T>, key: T -> Rank, desc: bool): (r: seq<T>)
    ensures multiset(r) == multiset(s) + multiset{x}
    ensures |r| == |s| + 1
  {
    if s == [] then [x]
    else if Precedes(key(s[0]), key(x), desc) then
      assert s == [s[0]] + s[1..];
      [s[0]] + Insert(x, s[1..], key, desc)
    else
      [x] + s
  }

  /** Inserting into an ordered sequence keeps it ordered. */
  lemma {:induction false} InsertOrdered<T>(x: T, s: seq<T>, key: T -> Rank, desc: bool)
    requires Ordered(s, key, desc)
    ensures Ordered(Insert(x, s, key, desc), key, desc)
  {
    if s != [] {
      if Precedes(key(s[0]), key(x), desc) {
        InsertOrdered(x, s[1..], key, desc);
        OrderedAfterHead(s, x, Insert(x, s[1..], key, desc), key, desc);
      } else {
        OrderedBeforeHead(x, s, key, desc);
      }
    }
  }

  lemma OrderedAfterHead<T>(s: seq<T>, x: T, t: seq<T>, key: T -> Rank, desc: bool)
    requires s != [] && Precedes(key(s[0]), key(x), desc)
    requires multiset(t) == multiset(s[1..]) + multiset{x}
    requires Ordered(s, key, desc) && Ordered(t, key, desc)
    ensures Ordered([s[0]] + t, key, desc)
  {
    {
      var r := [s[0]] + t;
      forall i, j | 0 <= i < j < |r| ensures !Precedes(key(r[j]), key(r[i]), desc) {
        if i == 0 {
          var y := r[j];
          assert y in multiset(t);
          if y == x {
            PrecedesAsymmetric(key(s[0]), key(x), desc);
          } else {
            assert y in multiset(s[1..]);
            var k :| 0 <= k < |s[1..]| && s[1..][k] == y;
            assert s[k + 1] == y;
          }
        }
      }
    }
  }

  lemma OrderedBeforeHead<T>(x: T, s: seq<T>, key: T -> Rank, desc: bool)
    requires s != [] && !Precedes(key(s[0]), key(x), desc)
    requires Ordered(s, key, desc)
    ensures Ordered([x] + s, key, desc)
  {
    {
      var r := [x] + s;
      forall i, j | 0 <= i < j < |r| ensures !Precedes(key(r[j]), key(r[i]), desc) {
        if i == 0 && j > 1 {
          NotPrecedesTransitive(key(s[j - 1]), key(s[0]), key(x), desc);
        }
      }
    }
  }

  /** A stable insertion sort by `key`, ascending or (`desc`) descending. */
  function SortBy<T(==)>(s: seq<T>, key: T -> Rank, desc: bool): (r: seq<T>)
    ensures multiset(r) == multiset(s)
    ensures |r| == |s|
    ensures Ordered(r, key, desc)
  {
    if s == [] then []
    else
      assert s == [s[0]] + s[1..];
      InsertOrdered(s[0], SortBy(s[1..], key, desc), key, desc);
      Insert(s[0], SortBy(s[1..], key, desc), key, desc)
  }

  /** Where `Insert` places `x`: after the leading elements that strictly precede it. */
  function InsertPos<T>(x: T, s: seq<T>, key: T -> Rank, desc: bool): (k: nat)
    ensures k <= |s|
    ensures forall i :: 0 <= i < k ==> Precedes(key(s[i]), key(x), desc)
  {
    if s != [] && Precedes(key(s[0]), key(x), desc) then 1 + InsertPos(x, s[1..], key, desc) else 0
  }

  /** Insertion keeps the relative order of the elements already present. */
  lemma {:induction false} InsertAt<T>(x: T, s: seq<T>, key: T -> Rank, desc: bool)
    ensures var r, k := Insert(x, s, key, desc), InsertPos(x, s, key, desc);
      r[k] == x &&
      (forall i :: 0 <= i < k ==> r[i] == s[i]) &&
      (forall i :: k < i < |r| ==> r[i] == s[i - 1])
  {
    if s != [] && Precedes(key(s[0]), key(x), desc) {
      InsertAt(x, s[1..], key, desc);
    }
  }

  /** Equal keys appear in increasing order of `id`. */
  ghost predicate StableFor<T>(r: seq<T>, key: T -> Rank, id: T -> int) {
    forall i, j :: 0 <= i < j < |r| && key(r[i]) == key(r[j]) ==> id(r[i]) < id(r[j])
  }

  lemma InsertStable<T>(x: T, t: seq<T>, key: T -> Rank, desc: bool, id: T -> int)
    requires StableFor(t, key, id)
    requires forall y :: y in t ==> id(x) < id(y)
    ensures StableFor(Insert(x, t, key, desc), key, id)
  {
    InsertAt(x, t, key, desc);
    var k := InsertPos(x, t, key, desc);
    var r := Insert(x, t, key, desc);
    forall i, j | 0 <= i < j < |r| && key(r[i]) == key(r[j]) ensures id(r[i]) < id(r[j]) {
      if j == k {
        assert r[i] == t[i];
        RankLessIrreflexive(key(x));
        assert false;
      } else if i == k {
        assert r[j] == t[j - 1];
      } else {
        var i', j' := if i < k then i else i - 1, if j < k then j else j - 1;
        assert r[i] == t[i'] && r[j] == t[j'];
      }
    }
  }

  /** Stability: when the input is in increasing order of `id` (its positions,
      say), elements with equal keys come out in that same order. */
  lemma {:induction false} SortByStable<T>(s: seq<T>, key: T -> Rank, desc: bool, id: T -> int)
    requires forall i, j :: 0 <= i < j < |s| ==> id(s[i]) < id(s[j])
    ensures StableFor(SortBy(s, key, desc), key, id)
  {
    if s != [] {
      var t := SortBy(s[1..], key, desc);
      SortByStable(s[1..], key, desc, id);
      forall y | y in t ensures id(s[0]) < id(y) {
        assert y in multiset(s[1..]);
        var m :| 0 <= m < |s[1..]| && s[1..][m] == y;
        assert s[m + 1] == y;
      }
      InsertStable(s[0], t, key, desc, id);
    }
  }

  /** Pairwise distinct keys. */
  ghost predicate DistinctKeys<T>(s: seq<T>, key: T -> Rank) {
    forall i, j :: 0 <= i < j < |s| ==> key(s[i]) != key(s[j])
  }

  /** With pairwise distinct keys there are no ties: the sort result is strictly ordered. */
  lemma SortByStrict<T>(s: seq<T>, key: T -> Rank, desc: bool)
    requires DistinctKeys(s, key)
    ensures forall i, j :: 0 <= i < j < |SortBy(s, key, desc)| ==>
              Precedes(key(SortBy(s, key, desc)[i]), key(SortBy(s, key, desc)[j]), desc)
  {
    var r := SortBy(s, key, desc);
    forall i, j | 0 <= i < j < |r| ensures Precedes(key(r[i]), key(r[j]), desc) {
      PermutationKeepsDistinct(s, r, key, i, j);
      RankLessTotal(key(r[i]), key(r[j]));
    }
  }

  lemma PermutationKeepsDistinct<T>(s: seq<T>, r: seq<T>, key: T -> Rank, i: int, j: int)
    requires DistinctKeys(s, key) && multiset(r) == multiset(s)
    requires 0 <= i < j < |r|
    ensures key(r[i]) != key(r[j])
  {
    assert r[i] in multiset(s) && r[j] in multiset(s);
    var a :| 0 <= a < |s| && s[a] == r[i];
    var b :| 0 <= b < |s| && s[b] == r[j];
    if a == b {
      MultisetTwice(r, i, j);
      MultisetOnce(s, a, key);
    }
  }

  /** Equal elements at two positions make a multiplicity of at least two. */
  lemma MultisetTwice<T>(r: seq<T>, i: int, j: int)
    requires 0 <= i < j < |r| && r[i] == r[j]
    ensures multiset(r)[r[i]] >= 2
  {
    var x := r[i];
    assert r == r[..i] + [x] + r[i + 1..j] + [x] + r[j + 1..];
    assert multiset(r) == multiset(r[..i]) + multiset{x} + multiset(r[i + 1..j]) + multiset{x} + multiset(r[j + 1..]);
  }

  /** In a sequence with distinct keys every element occurs once. */
  lemma MultisetOnce<T>(s: seq<T>, a: int, key: T -> Rank)
    requires DistinctKeys(s, key) && 0 <= a < |s|
    ensures multiset(s)[s[a]] == 1
  {
    var x := s[a];
    assert s == s[..a] + [x] + s[a + 1..];
    assert x !in s[..a] by {
      forall m | 0 <= m < a ensures s[..a][m] != x { assert s[m] == s[..a][m]; }
    }
    assert x !in s[a + 1..] by {
      forall m | a + 1 <= m < |s| ensures s[m] != x { }
    }
    assert multiset(s) == multiset(s[..a]) + multiset{x} + multiset(s[a + 1..]);
  }

  /** Pairwise distinct elements. */
  ghost predicate Distinct<T>(s: seq<T>) {
    forall i, j :: 0 <= i < j < |s| ==> s[i] != s[j]
  }

  /** Reordering a sequence of distinct elements keeps them distinct. */
  lemma PermutationDistinct<T>(s: seq<T>, r: seq<T>)
    requires Distinct(s) && multiset(r) == multiset(s)
    ensures Distinct(r)
  {
    forall i, j | 0 <= i < j < |r| ensures r[i] != r[j] {
      if r[i] == r[j] {
        MultisetTwice(r, i, j);
        assert r[i] in multiset(s);
        var a :| 0 <= a < |s| && s[a] == r[i];
        DistinctOnce(s, a);
        assert false;
      }
    }
  }

  lemma DistinctOnce<T>(s: seq<T>, a: int)
    requires Distinct(s) && 0 <= a < |s|
    ensures multiset(s)[s[a]] == 1
  {
    var x := s[a];
    assert s == s[..a] + [x] + s[a + 1..];
    assert x !in s[..a] by {
      forall m | 0 <= m < a ensures s[..a][m] != x { assert s[m] == s[..a][m]; }
    }
    assert x !in s[a + 1..] by {
      forall m | a + 1 <= m < |s| ensures s[m] != x { }
    }
    assert multiset(s) == multiset(s[..a]) + multiset{x} + multiset(s[a + 1..]);
  }

  // ---------------------------------------------------------------- de-duplication

  /** The keys of the elements of `s`. */
  function KeysOf<T(==), K(==)>(s: seq<T>, key: T -> K): set<K> {
    set x | x in s :: key(x)
  }

  /** Keeps the first element of each key, in order: the `seen`-set filter. */
  function KeepFirst<T(==), K(==)>(s: seq<T>, key: T -> K): (r: seq<T>)
    ensures IsSubsequence(r, s)
    ensures KeysOf(r, key) == KeysOf(s, key)
    ensures forall i, j :: 0 <= i < j < |r| ==> key(r[i]) != key(r[j])
  {
    if s == [] then []
    else
      var init, last := s[..|s| - 1], s[|s| - 1];
      var r0 := KeepFirst(init, key);
      assert s == init + [last];
      assert KeysOf(s, key) == KeysOf(init, key) + {key(last)};
      if key(last) in KeysOf(init, key) then
        SubsequenceExtend(r0, init, last);
        r0
      else
        SubsequenceAppend(r0, init, last);
        var r := r0 + [last];
        assert forall i :: 0 <= i < |r0| ==> key(r0[i]) in KeysOf(r0, key);
        assert KeysOf(r, key) == KeysOf(r0, key) + {key(last)};
        r
  }

  /** One more element: kept exactly when its key has not been seen. */
  lemma KeepFirstStep<T, K>(s: seq<T>, x: T, key: T -> K)
    ensures KeysOf(s + [x], key) == KeysOf(s, key) + {key(x)}
    ensures KeepFirst(s + [x], key) ==
      if key(x) in KeysOf(s, key) then KeepFirst(s, key) else KeepFirst(s, key) + [x]
  {
    var t := s + [x];
    assert t[..|t| - 1] == s && t[|t| - 1] == x;
    assert forall y :: y in t <==> y in s || y == x;
  }

  /** `x` is the first element of `s` carrying its key, at position `i`. */
  ghost predicate FirstOfKey<T, K>(s: seq<T>, key: T -> K, x: T, i: int) {
    0 <= i < |s| && s[i] == x && key(x) !in KeysOf(s[..i], key)
  }

  /** What is kept is exactly the elements that are the first of their key. */
  lemma {:induction false} KeepFirstMembership<T, K>(s: seq<T>, key: T -> K, x: T)
    ensures x in KeepFirst(s, key) <==> exists i :: FirstOfKey(s, key, x, i)
    decreases |s|
  {
    if s != [] {
      var init, last := s[..|s| - 1], s[|s| - 1];
      KeepFirstMembership(init, key, x);
      assert forall i :: 0 <= i < |init| ==> s[..i] == init[..i];
      assert s[..|s| - 1] == init;
      if exists i :: FirstOfKey(init, key, x, i) {
        var i :| FirstOfKey(init, key, x, i);
        assert FirstOfKey(s, key, x, i);
      }
      if exists i :: FirstOfKey(s, key, x, i) {
        var i :| FirstOfKey(s, key, x, i);
        if i < |init| {
          assert FirstOfKey(init, key, x, i);
        } else {
          assert x == last && key(last) !in KeysOf(init, key);
        }
      }
      if key(last) !in KeysOf(init, key) {
        assert FirstOfKey(s, key, last, |s| - 1);
      }
    }
  }

  lemma {:induction false} SubsequenceAppend<T>(r: seq<T>, s: seq<T>, x: T)
    requires IsSubsequence(r, s)
    ensures IsSubsequence(r + [x], s + [x])
    decreases |s|
  {
    if r == [] {
      assert r + [x] == [x];
      SubsequenceSingleton(x, s);
    } else {
      assert (s + [x])[1..] == s[1..] + [x];
      if r[0] == s[0] && IsSubsequence(r[1..], s[1..]) {
        assert (r + [x])[1..] == r[1..] + [x];
        SubsequenceAppend(r[1..], s[1..], x);
      } else {
        SubsequenceAppend(r, s[1..], x);
      }
    }
  }

  lemma {:induction false} SubsequenceSingleton<T>(x: T, s: seq<T>)
    ensures IsSubsequence([x], s + [x])
    decreases |s|
  {
    if s == [] {
      assert [x][1..] == [];
    } else {
      assert (s + [x])[1..] == s[1..] + [x];
      SubsequenceSingleton(x, s[1..]);
    }
  }

  lemma {:induction false} SubsequenceExtend<T>(r: seq<T>, s: seq<T>, x: T)
    requires IsSubsequence(r, s)
    ensures IsSubsequence(r, s + [x])
    decreases |s|
  {
    if r != [] {
      assert (s + [x])[1..] == s[1..] + [x];
      if r[0] == s[0] && IsSubsequence(r[1..], s[1..]) {
        SubsequenceExtend(r[1..], s[1..], x);
      } else {
        SubsequenceExtend(r, s[1..], x);
      }
    }
  }
}
