/** Sequence operations shared by the model: `Array.prototype.filter`,
    stable `Array.prototype.sort` by a numeric key, and `splice`. */
module Seqs {

  /** `s.filter(p)`: built from the back so that a loop appending to its
      result can keep it as an invariant. */
  function Filter<T(==)>(s: seq<T>, p: T -> bool): (r: seq<T>)
    ensures |r| <= |s|
    ensures forall k :: 0 <= k < |s| ==> (s[k] in r <==> p(s[k]))
    ensures forall k :: 0 <= k < |r| ==> r[k] in s
    ensures forall k :: 0 <= k < |r| ==> p(r[k])
    decreases |s|
  {
    if s == [] then []
    else Filter(s[..|s| - 1], p) + (if p(s[|s| - 1]) then [s[|s| - 1]] else [])
  }

  /** Filtering with a test every element passes changes nothing. */
  lemma {:induction false} FilterAll<T>(s: seq<T>, p: T -> bool)
    requires forall k :: 0 <= k < |s| ==> p(s[k])
    ensures Filter(s, p) == s
    decreases |s|
  {
    if s != [] {
      FilterAll(s[..|s| - 1], p);
      assert s[..|s| - 1] + [s[|s| - 1]] == s;
    }
  }

  /** Filtering twice is filtering once by both tests. */
  lemma {:induction false} FilterFilter<T>(s: seq<T>, p: T -> bool, q: T -> bool, both: T -> bool)
    requires forall x :: both(x) == (p(x) && q(x))
    ensures Filter(Filter(s, p), q) == Filter(s, both)
    decreases |s|
  {
    if s != [] {
      var init := s[..|s| - 1];
      var last := s[|s| - 1];
      FilterFilter(init, p, q, both);
      var f := Filter(s, p);
      if p(last) {
        assert f == Filter(init, p) + [last];
        assert f[..|f| - 1] == Filter(init, p);
        assert Filter(f, q) == Filter(Filter(init, p), q) + (if q(last) then [last] else []);
      } else {
        assert f == Filter(init, p);
        assert !both(last);
      }
    }
  }

  /** Two sequences that agree wherever an element passes, and agree on
      which elements pass, filter to the same result. */
  lemma {:induction false} FilterSame<T>(s: seq<T>, t: seq<T>, p: T -> bool)
    requires |s| == |t|
    requires forall k :: 0 <= k < |s| ==> p(s[k]) == p(t[k])
    requires forall k :: 0 <= k < |s| && p(s[k]) ==> s[k] == t[k]
    ensures Filter(s, p) == Filter(t, p)
    decreases |s|
  {
    if s != [] {
      FilterSame(s[..|s| - 1], t[..|t| - 1], p);
    }
  }

  /** `a` is `b` with some elements left out and the rest kept in order. */
  predicate IsSubsequence<T(==)>(a: seq<T>, b: seq<T>)
    decreases |b|
  {
    if a == [] then true
    else if b == [] then false
    else if a[|a| - 1] == b[|b| - 1] then IsSubsequence(a[..|a| - 1], b[..|b| - 1])
    else IsSubsequence(a, b[..|b| - 1])
  }

  /** Every sequence is a subsequence of itself. */
  lemma {:induction false} SubsequenceRefl<T>(s: seq<T>)
    ensures IsSubsequence(s, s)
    decreases |s|
  {
    if s != [] {
      SubsequenceRefl(s[..|s| - 1]);
    }
  }

  /** Filtering keeps the survivors in their original order. */
  lemma {:induction false} FilterIsSubsequence<T>(s: seq<T>, p: T -> bool)
    ensures IsSubsequence(Filter(s, p), s)
    decreases |s|
  {
    if s != [] {
      var init := s[..|s| - 1];
      var last := s[|s| - 1];
      FilterIsSubsequence(init, p);
      var r := Filter(s, p);
      if p(last) {
        assert r[..|r| - 1] == Filter(init, p);
        assert s[..|s| - 1] == init;
      } else {
        assert r == Filter(init, p);
        if r != [] {
          assert r[|r| - 1] in r;
          assert r[|r| - 1] != last;
        }
      }
    }
  }

  /** The elements that pass and the elements that fail together are the
      original elements, counted with multiplicity. */
  lemma {:induction false} FilterPartition<T>(s: seq<T>, p: T -> bool, q: T -> bool)
    requires forall x :: q(x) == !p(x)
    ensures multiset(Filter(s, p)) + multiset(Filter(s, q)) == multiset(s)
    ensures |Filter(s, p)| + |Filter(s, q)| == |s|
    decreases |s|
  {
    if s != [] {
      var init, last := s[..|s| - 1], s[|s| - 1];
      assert s == init + [last];
      FilterPartition(init, p, q);
      FilterSnoc(init, last, p);
      FilterSnoc(init, last, q);
      var fp, fq := Filter(init, p), Filter(init, q);
      if p(last) {
        assert Filter(s, p) == fp + [last] && Filter(s, q) == fq;
        assert multiset(Filter(s, p)) == multiset(fp) + multiset{last};
      } else {
        assert Filter(s, p) == fp && Filter(s, q) == fq + [last];
        assert multiset(Filter(s, q)) == multiset(fq) + multiset{last};
      }
      assert multiset(s) == multiset(init) + multiset{last};
    }
  }

  /** Filtering keeps every copy of a passing element and no copy of a
      failing one. */
  lemma {:induction false} FilterCounts<T>(s: seq<T>, p: T -> bool)
    ensures forall x :: multiset(Filter(s, p))[x] == if p(x) then multiset(s)[x] else 0
    decreases |s|
  {
    if s != [] {
      var init, last := s[..|s| - 1], s[|s| - 1];
      assert s == init + [last];
      FilterCounts(init, p);
      FilterSnoc(init, last, p);
      assert multiset(s) == multiset(init) + multiset{last};
    }
  }

  /** Rearranging the input rearranges the output: filtering a permutation
      gives a permutation of the filtered sequence. */
  lemma FilterPermutation<T>(s: seq<T>, t: seq<T>, p: T -> bool)
    requires multiset(s) == multiset(t)
    ensures multiset(Filter(s, p)) == multiset(Filter(t, p))
  {
    var a, b := multiset(Filter(s, p)), multiset(Filter(t, p));
    FilterCounts(s, p);
    FilterCounts(t, p);
    forall x
      ensures a[x] == b[x]
    {
      assert a[x] == if p(x) then multiset(s)[x] else 0;
      assert b[x] == if p(x) then multiset(t)[x] else 0;
    }
    assert a == b;
  }

  /** Filtering a sequence with one more element at the back. */
  lemma FilterSnoc<T>(init: seq<T>, last: T, p: T -> bool)
    ensures Filter(init + [last], p) == Filter(init, p) + (if p(last) then [last] else [])
  {
    assert (init + [last])[..|init|] == init;
  }

  /** Non-decreasing by `key`. */
  predicate SortedBy<T>(s: seq<T>, key: T -> int) {
    forall i, j :: 0 <= i < j < |s| ==> key(s[i]) <= key(s[j])
  }

  /** Filtering a sorted sequence leaves it sorted. */
  lemma {:induction false} FilterSorted<T>(s: seq<T>, p: T -> bool, key: T -> int)
    requires SortedBy(s, key)
    ensures SortedBy(Filter(s, p), key)
    decreases |s|
  {
    if s != [] {
      var init := s[..|s| - 1];
      FilterSorted(init, p, key);
      var f := Filter(init, p);
      forall k | 0 <= k < |f|
        ensures key(f[k]) <= key(s[|s| - 1])
      {
        assert f[k] in init;
      }
    }
  }

  /** Places `x` after every element whose key is not greater than its own,
      so that equal keys keep their order of insertion. */
  function Insert<T(==)>(x: T, s: seq<T>, key: T -> int): (r: seq<T>)
    requires SortedBy(s, key)
    ensures SortedBy(r, key)
    ensures multiset(r) == multiset(s) + multiset{x}
    ensures |r| == |s| + 1
    ensures forall k :: 0 <= k < |r| ==> key(r[k]) >= LeastKey(x, s, key)
    decreases |s|
  {
    if s == [] then [x]
    else if key(x) < key(s[0]) then
      SortedCons(x, s, key);
      [x] + s
    else
      var rest := Insert(x, s[1..], key);
      InsertBehind(x, s, rest, key);
      [s[0]] + rest
  }

  /** The recursive step of `Insert`: `x` going into the tail of `s`
      leaves the head of `s` in front. */
  lemma InsertBehind<T>(x: T, s: seq<T>, rest: seq<T>, key: T -> int)
    requires s != [] && SortedBy(s, key) && key(s[0]) <= key(x)
    requires SortedBy(rest, key)
    requires multiset(rest) == multiset(s[1..]) + multiset{x}
    requires |rest| == |s|
    requires forall k :: 0 <= k < |rest| ==> key(rest[k]) >= LeastKey(x, s[1..], key)
    ensures SortedBy([s[0]] + rest, key)
    ensures multiset([s[0]] + rest) == multiset(s) + multiset{x}
    ensures forall k :: 0 <= k < |rest| + 1 ==> key(([s[0]] + rest)[k]) >= LeastKey(x, s, key)
  {
    assert LeastKey(x, s[1..], key) >= key(s[0]);
    SortedCons(s[0], rest, key);
    assert s == [s[0]] + s[1..];
  }

  /** A head no greater than every key of a sorted tail keeps it sorted. */
  lemma SortedCons<T>(h: T, t: seq<T>, key: T -> int)
    requires SortedBy(t, key)
    requires forall k :: 0 <= k < |t| ==> key(h) <= key(t[k])
    ensures SortedBy([h] + t, key)
  {
    var r := [h] + t;
    forall i, j | 0 <= i < j < |r|
      ensures key(r[i]) <= key(r[j])
    {
      assert r[j] == t[j - 1];
      if i > 0 {
        assert r[i] == t[i - 1];
      }
    }
  }

  /** The smallest key among `x` and the first (so least) element of `s`. */
  function LeastKey<T>(x: T, s: seq<T>, key: T -> int): int {
    if s == [] || key(x) <= key(s[0]) then key(x) else key(s[0])
  }

  /** `s.slice().sort((a, b) => key(a) - key(b))`: sorted by `key` and a
      permutation of `s`. */
  function SortBy<T(==)>(s: seq<T>, key: T -> int): (r: seq<T>)
    ensures SortedBy(r, key)
    ensures multiset(r) == multiset(s)
    ensures |r| == |s|
    decreases |s|
  {
    if s == [] then []
    else
      assert s == s[..|s| - 1] + [s[|s| - 1]];
      Insert(s[|s| - 1], SortBy(s[..|s| - 1], key), key)
  }

  /** `s.splice(i, 1)`. */
  function RemoveAt<T>(s: seq<T>, i: nat): (r: seq<T>)
    requires i < |s|
    ensures |r| == |s| - 1
    ensures forall k :: 0 <= k < i ==> r[k] == s[k]
    ensures forall k :: i <= k < |r| ==> r[k] == s[k + 1]
  {
    s[..i] + s[i + 1..]
  }

  /** Removing a position takes exactly that one element out. */
  lemma RemoveAtMultiset<T>(s: seq<T>, i: nat)
    requires i < |s|
    ensures multiset(RemoveAt(s, i)) + multiset{s[i]} == multiset(s)
  {
    var before, after := s[..i], s[i + 1..];
    assert s == before + [s[i]] + after;
    assert RemoveAt(s, i) == before + after;
  }

  /** `s.splice(i, 0, x)`. */
  function InsertAt<T>(s: seq<T>, i: nat, x: T): (r: seq<T>)
    requires i <= |s|
    ensures |r| == |s| + 1 && r[i] == x
    ensures forall k :: 0 <= k < i ==> r[k] == s[k]
    ensures forall k :: i < k < |r| ==> r[k] == s[k - 1]
  {
    s[..i] + [x] + s[i..]
  }

  /** The element at `from` taken out and put back in at `to`. */
  function Moved<T>(s: seq<T>, from: nat, to: nat): (r: seq<T>)
    requires from < |s| && to < |s|
    ensures |r| == |s| && r[to] == s[from]
  {
    InsertAt(RemoveAt(s, from), to, s[from])
  }

  /** Moving an element keeps every element, and taking the moved element
      back out leaves the others in their old order. */
  lemma MovedIsPermutation<T>(s: seq<T>, from: nat, to: nat)
    requires from < |s| && to < |s|
    ensures multiset(Moved(s, from, to)) == multiset(s)
    ensures RemoveAt(Moved(s, from, to), to) == RemoveAt(s, from)
  {
    var rest := RemoveAt(s, from);
    assert s == s[..from] + [s[from]] + s[from + 1..];
    assert rest == s[..from] + s[from + 1..];
    var m := Moved(s, from, to);
    assert m == rest[..to] + [s[from]] + rest[to..];
    assert rest == rest[..to] + rest[to..];
    calc {
      multiset(m);
      multiset(rest[..to]) + multiset{s[from]} + multiset(rest[to..]);
      multiset(rest) + multiset{s[from]};
      multiset(s[..from]) + multiset(s[from + 1..]) + multiset{s[from]};
      multiset(s);
    }
  }

  /** Moving an element to where it already is changes nothing. */
  lemma MovedToSelf<T>(s: seq<T>, i: nat)
    requires i < |s|
    ensures Moved(s, i, i) == s
  {
  }
}
