/** Sequence helpers for the deque operations the stages use:
    `erase` at an index, and keeping the elements that satisfy a test. */
module Seqs {

  /** `erase(begin() + k)` on a deque. */
  function RemoveAt<T>(s: seq<T>, k: nat): (r: seq<T>)
    requires k < |s|
    ensures |r| == |s| - 1
    ensures forall j :: 0 <= j < k ==> r[j] == s[j]
    ensures forall j :: k <= j < |r| ==> r[j] == s[j + 1]
  {
    s[..k] + s[k + 1..]
  }

  lemma RemoveAtMultiset<T>(s: seq<T>, k: nat)
    requires k < |s|
    ensures multiset(RemoveAt(s, k)) + multiset{s[k]} == multiset(s)
  {
    assert s == s[..k] + [s[k]] + s[k + 1..];
  }

  lemma RemoveAtMembers<T>(s: seq<T>, k: nat)
    requires k < |s|
    ensures forall x :: x in RemoveAt(s, k) ==> x in s
  {
    forall x | x in RemoveAt(s, k) ensures x in s {
      var j :| 0 <= j < |RemoveAt(s, k)| && RemoveAt(s, k)[j] == x;
      if j < k { assert s[j] == x; } else { assert s[j + 1] == x; }
    }
  }

  /** The elements of `s` that satisfy `p`, in their order in `s`. */
  function Filter<T>(s: seq<T>, p: T -> bool): (r: seq<T>)
    ensures |r| <= |s|
    ensures forall x :: x in r ==> x in s && p(x)
    ensures forall x :: x in s && p(x) ==> x in r
  {
    if s == [] then []
    else Filter(s[..|s| - 1], p) + (if p(s[|s| - 1]) then [s[|s| - 1]] else [])
  }

  /** Two complementary tests split a sequence into two parts that together
      hold each element exactly as often as the sequence does. */
  lemma {:induction false} FilterPartition<T>(s: seq<T>, p: T -> bool, q: T -> bool)
    requires forall x :: x in s ==> p(x) == !q(x)
    ensures multiset(Filter(s, p)) + multiset(Filter(s, q)) == multiset(s)
  {
    if s != [] {
      var init, x := s[..|s| - 1], s[|s| - 1];
      assert s == init + [x];
      FilterPartition(init, p, q);
      FilterSnoc(init, x, p);
      FilterSnoc(init, x, q);
    }
  }

  lemma FilterSnoc<T>(s: seq<T>, x: T, p: T -> bool)
    ensures Filter(s + [x], p) == Filter(s, p) + (if p(x) then [x] else [])
  {
    assert (s + [x])[..|s + [x]| - 1] == s;
  }

  /** `s` is an order-preserving merge of `a` and `b`: every element of `s`
      is taken, in turn, from the front of what is left of `a` or of `b`
      (read here from the back). */
  predicate Interleaving<T(==)>(s: seq<T>, a: seq<T>, b: seq<T>)
    decreases |s|
  {
    if s == [] then a == [] && b == []
    else
      var x := s[|s| - 1];
      (a != [] && a[|a| - 1] == x && Interleaving(s[..|s| - 1], a[..|a| - 1], b)) ||
      (b != [] && b[|b| - 1] == x && Interleaving(s[..|s| - 1], a, b[..|b| - 1]))
  }

  /** Two complementary tests split a sequence into two parts, each keeping
      the original order, that merge back into it. */
  lemma {:induction false} FilterInterleaves<T>(s: seq<T>, p: T -> bool, q: T -> bool)
    requires forall x :: x in s ==> p(x) == !q(x)
    ensures Interleaving(s, Filter(s, p), Filter(s, q))
    decreases |s|
  {
    if s != [] {
      var init, x := s[..|s| - 1], s[|s| - 1];
      assert s == init + [x];
      assert x in s;
      FilterInterleaves(init, p, q);
      var a, b := Filter(s, p), Filter(s, q);
      if p(x) {
        assert a == Filter(init, p) + [x] && b == Filter(init, q);
        assert a[..|a| - 1] == Filter(init, p);
      } else {
        assert a == Filter(init, p) && b == Filter(init, q) + [x];
        assert b[..|b| - 1] == Filter(init, q);
      }
    }
  }

  /** Filtering distributes over concatenation, so filtering keeps order. */
  lemma {:induction false} FilterAppend<T>(a: seq<T>, b: seq<T>, p: T -> bool)
    ensures Filter(a + b, p) == Filter(a, p) + Filter(b, p)
    decreases |b|
  {
    if b == [] {
      assert a + b == a;
    } else {
      var init, x := b[..|b| - 1], b[|b| - 1];
      var t := if p(x) then [x] else [];
      assert b == init + [x];
      assert a + b == (a + init) + [x];
      calc {
        Filter(a + b, p);
        Filter((a + init) + [x], p);
        { FilterSnoc(a + init, x, p); }
        Filter(a + init, p) + t;
        { FilterAppend(a, init, p); }
        Filter(a, p) + Filter(init, p) + t;
        { FilterSnoc(init, x, p); }
        Filter(a, p) + Filter(init + [x], p);
      }
    }
  }
}
