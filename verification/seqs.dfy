/** Sequence operations the application performs with Array methods:
    `filter`, `slice(0, n)`, `includes`, and a stable `sort` driven by a
    comparator. */
module Seqs {

  /** `s.filter(p)`: the elements satisfying `p`, in their original order. */
  function Filter<T(!new)>(s: seq<T>, p: T -> bool): (r: seq<T>)
    ensures |r| <= |s|
    ensures forall x :: x in r <==> x in s && p(x)
    ensures multiset(r) <= multiset(s)
  {
    if s == [] then []
    else
      assert s == [s[0]] + s[1..];
      if p(s[0]) then [s[0]] + Filter(s[1..], p) else Filter(s[1..], p)
  }

  /** One step of `Filter` on a sequence with a known head. */
  lemma FilterCons<T(!new)>(x: T, s: seq<T>, p: T -> bool)
    ensures Filter([x] + s, p) == (if p(x) then [x] else []) + Filter(s, p)
  {
    assert ([x] + s)[1..] == s;
  }

  lemma EmptyConcat<T>(a: seq<T>, b: seq<T>)
    requires a == []
    ensures a + b == b
  {
  }

  lemma {:induction false} FilterConcat<T(!new)>(a: seq<T>, b: seq<T>, p: T -> bool)
    ensures Filter(a + b, p) == Filter(a, p) + Filter(b, p)
  {
    if a != [] {
      var head := if p(a[0]) then [a[0]] else [];
      assert a + b == [a[0]] + (a[1..] + b);
      assert a == [a[0]] + a[1..];
      FilterCons(a[0], a[1..] + b, p);
      FilterCons(a[0], a[1..], p);
      FilterConcat(a[1..], b, p);
      assert head + (Filter(a[1..], p) + Filter(b, p)) == (head + Filter(a[1..], p)) + Filter(b, p);
    } else {
      EmptyConcat(a, b);
    }
  }

  lemma {:induction false} FilterAppend<T(!new)>(a: seq<T>, x: T, p: T -> bool)
    ensures Filter(a + [x], p) == Filter(a, p) + (if p(x) then [x] else [])
  {
    FilterConcat(a, [x], p);
    assert Filter([x], p) == (if p(x) then [x] else []) by {
      assert [x][1..] == [];
    }
  }

  /** Filtering by `p` and by its complement splits the sequence. */
  lemma FilterSplits<T(!new)>(s: seq<T>, p: T -> bool, q: T -> bool)
    requires forall x :: q(x) == !p(x)
    ensures multiset(Filter(s, p)) + multiset(Filter(s, q)) == multiset(s)
    ensures |Filter(s, p)| + |Filter(s, q)| == |s|
  {
    FilterSplitsMultiset(s, p, q);
    assert |multiset(s)| == |s|;
  }

  lemma {:induction false} FilterSplitsMultiset<T(!new)>(s: seq<T>, p: T -> bool, q: T -> bool)
    requires forall x :: q(x) == !p(x)
    ensures multiset(Filter(s, p)) + multiset(Filter(s, q)) == multiset(s)
  {
    if s != [] {
      var t := s[1..];
      FilterSplitsMultiset(t, p, q);
      assert s == [s[0]] + t;
    }
  }

  /** Keeping everything that passes is keeping everything. */
  lemma {:induction false} FilterKeepsAll<T(!new)>(s: seq<T>, p: T -> bool)
    requires forall k :: 0 <= k < |s| ==> p(s[k])
    ensures Filter(s, p) == s
  {
    if s != [] {
      FilterKeepsAll(s[1..], p);
    }
  }

  /** Filtering twice with the same predicate changes nothing more. */
  lemma {:induction false} FilterIdempotent<T(!new)>(s: seq<T>, p: T -> bool)
    ensures Filter(Filter(s, p), p) == Filter(s, p)
  {
    var r := Filter(s, p);
    forall k | 0 <= k < |r|
      ensures p(r[k])
    {
      assert r[k] in r;
    }
    FilterKeepsAll(r, p);
  }

  /** `s.slice(0, n)`. */
  function Take<T(!new)>(s: seq<T>, n: nat): (r: seq<T>)
    ensures |r| <= n && r <= s
    ensures |s| <= n ==> r == s
    ensures |s| > n ==> |r| == n
  {
    if |s| <= n then s else s[..n]
  }

  predicate NoDup<T(==,!new)>(s: seq<T>) {
    forall i, j :: 0 <= i < j < |s| ==> s[i] != s[j]
  }

  lemma HeadNotInTail<T(!new)>(s: seq<T>)
    requires NoDup(s) && s != []
    ensures s[0] !in s[1..]
  {
    forall j | 0 <= j < |s[1..]|
      ensures s[1..][j] != s[0]
    {
      assert s[1..][j] == s[j + 1];
    }
  }

  lemma {:induction false} FilterKeepsNoDup<T(!new)>(s: seq<T>, p: T -> bool)
    requires NoDup(s)
    ensures NoDup(Filter(s, p))
  {
    if s != [] {
      FilterKeepsNoDup(s[1..], p);
      if p(s[0]) {
        HeadNotInTail(s);
        assert s[0] !in Filter(s[1..], p);
      }
    }
  }

  /** `s.filter(x => x !== v)`: every copy of `v` removed. */
  function RemoveAll<T(==,!new)>(s: seq<T>, v: T): (r: seq<T>)
    ensures v !in r
    ensures forall x :: x != v ==> (x in r <==> x in s)
    ensures forall x :: x != v ==> multiset(r)[x] == multiset(s)[x]
    ensures v !in s ==> r == s
  {
    if s == [] then []
    else
      assert s == [s[0]] + s[1..];
      if s[0] == v then RemoveAll(s[1..], v) else [s[0]] + RemoveAll(s[1..], v)
  }

  /** `x => x !== v`. */
  function Differs<T(==)>(v: T): T -> bool {
    (x: T) => x != v
  }

  /** Removal keeps the other elements in their original order: it is the
      filter on `x !== v`. */
  lemma {:induction false} RemoveAllIsFilter<T(!new)>(s: seq<T>, v: T)
    ensures RemoveAll(s, v) == Filter(s, Differs(v))
  {
    if s != [] {
      RemoveAllIsFilter(s[1..], v);
    }
  }

  lemma {:induction false} RemoveAllKeepsNoDup<T(!new)>(s: seq<T>, v: T)
    requires NoDup(s)
    ensures NoDup(RemoveAll(s, v))
  {
    if s != [] {
      RemoveAllKeepsNoDup(s[1..], v);
      HeadNotInTail(s);
    }
  }

  /** Appending a fresh element keeps a sequence duplicate-free. */
  lemma AppendFreshKeepsNoDup<T(!new)>(s: seq<T>, v: T)
    requires NoDup(s) && v !in s
    ensures NoDup(s + [v])
  {
  }

  /** `leq` is a total preorder: what a consistent sort comparator induces. */
  ghost predicate TotalPreorder<T(!new)>(leq: (T, T) -> bool) {
    && (forall a, b :: leq(a, b) || leq(b, a))
    && (forall a, b, c :: leq(a, b) && leq(b, c) ==> leq(a, c))
  }

  predicate SortedBy<T(!new)>(s: seq<T>, leq: (T, T) -> bool) {
    forall i, j :: 0 <= i < j < |s| ==> leq(s[i], s[j])
  }

  /** Places `x` in front of the first element that must come strictly after
      it, so `x` follows every element it ties with. */
  function Insert<T(!new)>(x: T, s: seq<T>, leq: (T, T) -> bool): (r: seq<T>)
    ensures multiset(r) == multiset(s) + multiset{x}
    ensures |r| == |s| + 1
  {
    if s == [] then [x]
    else if !leq(s[0], x) then [x] + s
    else
      assert s == [s[0]] + s[1..];
      [s[0]] + Insert(x, s[1..], leq)
  }

  /** A stable sort: `Array.prototype.sort` with a consistent comparator,
      whose result is the one stable sorted permutation of its input. */
  function StableSort<T(!new)>(s: seq<T>, leq: (T, T) -> bool): (r: seq<T>)
    ensures multiset(r) == multiset(s)
    ensures |r| == |s|
  {
    if s == [] then []
    else
      assert s == s[..|s| - 1] + [s[|s| - 1]];
      Insert(s[|s| - 1], StableSort(s[..|s| - 1], leq), leq)
  }

  /** One step of `Insert` on a non-empty sequence. */
  lemma InsertStep<T(!new)>(x: T, s: seq<T>, leq: (T, T) -> bool)
    requires s != []
    ensures leq(s[0], x) ==> Insert(x, s, leq) == [s[0]] + Insert(x, s[1..], leq)
    ensures !leq(s[0], x) ==> Insert(x, s, leq) == [x] + s
  {
  }

  /** `Insert` adds `x` and keeps every element of `s`. */
  lemma {:induction false} InsertMembers<T(!new)>(x: T, s: seq<T>, leq: (T, T) -> bool)
    ensures forall y :: y in Insert(x, s, leq) <==> y == x || y in s
  {
    if s != [] {
      InsertStep(x, s, leq);
      if leq(s[0], x) {
        InsertMembers(x, s[1..], leq);
        assert s == [s[0]] + s[1..];
      }
    }
  }

  lemma ConsAppend<T>(a: T, b: seq<T>, c: seq<T>)
    ensures [a] + (b + c) == ([a] + b) + c
  {
  }

  /** A sorted sequence stays sorted with an element in front that may
      precede each of its elements. */
  lemma SortedCons<T(!new)>(x: T, s: seq<T>, leq: (T, T) -> bool)
    requires SortedBy(s, leq)
    requires forall k :: 0 <= k < |s| ==> leq(x, s[k])
    ensures SortedBy([x] + s, leq)
  {
    var r := [x] + s;
    forall i, j | 0 <= i < j < |r|
      ensures leq(r[i], r[j])
    {
      assert r[j] == s[j - 1];
      if i > 0 {
        assert r[i] == s[i - 1];
      }
    }
  }

  lemma SortedTail<T(!new)>(s: seq<T>, leq: (T, T) -> bool)
    requires s != [] && SortedBy(s, leq)
    ensures SortedBy(s[1..], leq)
  {
    forall i, j | 0 <= i < j < |s[1..]|
      ensures leq(s[1..][i], s[1..][j])
    {
      assert s[1..][i] == s[i + 1] && s[1..][j] == s[j + 1];
    }
  }

  lemma {:induction false} InsertSorted<T(!new)>(x: T, s: seq<T>, leq: (T, T) -> bool)
    requires TotalPreorder(leq)
    requires SortedBy(s, leq)
    ensures SortedBy(Insert(x, s, leq), leq)
  {
    if s != [] {
      InsertStep(x, s, leq);
      if leq(s[0], x) {
        SortedTail(s, leq);
        InsertSorted(x, s[1..], leq);
        InsertMembers(x, s[1..], leq);
        var t := Insert(x, s[1..], leq);
        forall k | 0 <= k < |t|
          ensures leq(s[0], t[k])
        {
          assert t[k] in t;
          if t[k] != x {
            var m :| 0 <= m < |s[1..]| && s[1..][m] == t[k];
            assert s[m + 1] == t[k];
          }
        }
        SortedCons(s[0], t, leq);
      } else {
        assert leq(x, s[0]);
        forall k | 0 <= k < |s|
          ensures leq(x, s[k])
        {
          if k > 0 {
            assert leq(s[0], s[k]);
          }
        }
        SortedCons(x, s, leq);
      }
    }
  }

  lemma {:induction false} StableSortSorted<T(!new)>(s: seq<T>, leq: (T, T) -> bool)
    requires TotalPreorder(leq)
    ensures SortedBy(StableSort(s, leq), leq)
  {
    if s != [] {
      StableSortSorted(s[..|s| - 1], leq);
      InsertSorted(s[|s| - 1], StableSort(s[..|s| - 1], leq), leq);
    }
  }

  /** Inserting into a sequence whose every element either may precede
      `x` (`goesLast`) or must follow it puts `x` at the back or the front. */
  lemma {:induction false} InsertIntoBack<T(!new)>(x: T, u: seq<T>, leq: (T, T) -> bool, goesLast: bool)
    requires forall k :: 0 <= k < |u| ==> leq(u[k], x) == goesLast
    ensures Insert(x, u, leq) == if goesLast then u + [x] else [x] + u
  {
    if u == [] {
      assert [x] + u == [x] && u + [x] == [x];
    } else {
      InsertStep(x, u, leq);
      if goesLast {
        assert leq(u[0], x);
        InsertIntoBack(x, u[1..], leq, goesLast);
        assert u == [u[0]] + u[1..];
        ConsAppend(u[0], u[1..], [x]);
      } else {
        assert !leq(u[0], x);
      }
    }
  }

  /** Inserting into "elements that may precede `x`, then a uniform block"
      lands `x` at the end of the first part or of the whole. */
  lemma {:induction false} InsertIntoBlocks<T(!new)>(x: T, p: seq<T>, u: seq<T>, leq: (T, T) -> bool, goesLast: bool)
    requires forall k :: 0 <= k < |p| ==> leq(p[k], x)
    requires forall k :: 0 <= k < |u| ==> leq(u[k], x) == goesLast
    ensures Insert(x, p + u, leq) == if goesLast then p + u + [x] else p + [x] + u
  {
    if p == [] {
      assert p + u == u && p + [x] + u == [x] + u && p + u + [x] == u + [x];
      InsertIntoBack(x, u, leq, goesLast);
    } else {
      var p' := p[1..];
      assert p == [p[0]] + p';
      assert (p + u)[0] == p[0] && (p + u)[1..] == p' + u;
      InsertStep(x, p + u, leq);
      assert leq(p[0], x);
      InsertIntoBlocks(x, p', u, leq, goesLast);
      if goesLast {
        ConsAppend(p[0], p' + u, [x]);
        ConsAppend(p[0], p', u);
      } else {
        ConsAppend(p[0], p' + [x], u);
        ConsAppend(p[0], p', [x]);
      }
    }
  }

  lemma PlaceBetween<T>(p: seq<T>, u: seq<T>, x: T, b: bool)
    ensures (if b then p + [x] + u else p + u + [x])
      == (p + (if b then [x] else [])) + (u + (if !b then [x] else []))
  {
    if b {
      assert u + [] == u;
    } else {
      assert p + [] == p;
    }
  }

  lemma FilterIsUniform<T(!new)>(s: seq<T>, p: T -> bool)
    ensures forall k :: 0 <= k < |Filter(s, p)| ==> p(Filter(s, p)[k])
  {
    var r := Filter(s, p);
    forall k | 0 <= k < |r| ensures p(r[k]) { assert r[k] in r; }
  }

  lemma InsertAfterBlocks<T(!new)>(init: seq<T>, x: T, leq: (T, T) -> bool, front: T -> bool, back: T -> bool)
    requires forall a, b :: leq(a, b) == (front(a) || !front(b))
    requires forall a :: back(a) == !front(a)
    ensures Insert(x, Filter(init, front) + Filter(init, back), leq)
      == Filter(init + [x], front) + Filter(init + [x], back)
  {
    var p := Filter(init, front);
    var u := Filter(init, back);
    FilterIsUniform(init, front);
    FilterIsUniform(init, back);
    assert forall k :: 0 <= k < |p| ==> leq(p[k], x);
    assert forall k :: 0 <= k < |u| ==> leq(u[k], x) == !front(x);
    InsertIntoBlocks(x, p, u, leq, !front(x));
    FilterAppend(init, x, front);
    FilterAppend(init, x, back);
    PlaceBetween(p, u, x, front(x));
  }

  /** A stable sort by an order that only puts the `front` class first
      yields the `front` elements, then the others, each in input order. */
  lemma {:induction false} StableSortTwoBlocks<T(!new)>(s: seq<T>, leq: (T, T) -> bool, front: T -> bool, back: T -> bool)
    requires forall a, b :: leq(a, b) == (front(a) || !front(b))
    requires forall a :: back(a) == !front(a)
    ensures StableSort(s, leq) == Filter(s, front) + Filter(s, back)
  {
    if s != [] {
      var init := s[..|s| - 1];
      var x := s[|s| - 1];
      assert s == init + [x];
      assert StableSort(s, leq) == Insert(x, StableSort(init, leq), leq);
      StableSortTwoBlocks(init, leq, front, back);
      InsertAfterBlocks(init, x, leq, front, back);
    }
  }

  /** `t` matches `s` position by position under `rel`. */
  predicate Pointwise<T(!new)>(s: seq<T>, t: seq<T>, rel: (T, T) -> bool) {
    |s| == |t| && forall k :: 0 <= k < |s| ==> rel(s[k], t[k])
  }

  /** Related elements compare alike under `leq`. */
  ghost predicate RespectsOrder<T(!new)>(rel: (T, T) -> bool, leq: (T, T) -> bool) {
    forall a, a2, b, b2 :: rel(a, a2) && rel(b, b2) ==> (leq(a, b) <==> leq(a2, b2))
  }

  /** Filtering with a predicate that cannot tell related elements apart
      keeps two related sequences related. */
  lemma {:induction false} FilterPointwise<T(!new)>(s: seq<T>, t: seq<T>, p: T -> bool, rel: (T, T) -> bool)
    requires Pointwise(s, t, rel)
    requires forall a, b :: rel(a, b) ==> (p(a) <==> p(b))
    ensures Pointwise(Filter(s, p), Filter(t, p), rel)
  {
    if s != [] {
      assert rel(s[0], t[0]);
      assert Pointwise(s[1..], t[1..], rel);
      FilterPointwise(s[1..], t[1..], p, rel);
      if p(s[0]) {
        ConsPointwise(s[0], t[0], Filter(s[1..], p), Filter(t[1..], p), rel);
      }
    }
  }

  /** Inserting related elements into related sorted lists lands them at
      the same position. */
  lemma {:induction false} InsertPointwise<T(!new)>(x: T, x2: T, s: seq<T>, t: seq<T>, leq: (T, T) -> bool,
                                                   rel: (T, T) -> bool)
    requires rel(x, x2) && Pointwise(s, t, rel) && RespectsOrder(rel, leq)
    ensures Pointwise(Insert(x, s, leq), Insert(x2, t, leq), rel)
  {
    if s == [] {
      ConsPointwise(x, x2, s, t, rel);
    } else {
      InsertStep(x, s, leq);
      InsertStep(x2, t, leq);
      assert rel(s[0], t[0]);
      assert leq(s[0], x) <==> leq(t[0], x2);
      if leq(s[0], x) {
        assert Pointwise(s[1..], t[1..], rel);
        InsertPointwise(x, x2, s[1..], t[1..], leq, rel);
        ConsPointwise(s[0], t[0], Insert(x, s[1..], leq), Insert(x2, t[1..], leq), rel);
      } else {
        ConsPointwise(x, x2, s, t, rel);
      }
    }
  }

  lemma ConsPointwise<T(!new)>(a: T, b: T, s: seq<T>, t: seq<T>, rel: (T, T) -> bool)
    requires rel(a, b) && Pointwise(s, t, rel)
    ensures Pointwise([a] + s, [b] + t, rel)
  {
  }

  /** A stable sort by an order that related elements share sorts two
      related sequences into related results. */
  lemma {:induction false} StableSortPointwise<T(!new)>(s: seq<T>, t: seq<T>, leq: (T, T) -> bool, rel: (T, T) -> bool)
    requires Pointwise(s, t, rel) && RespectsOrder(rel, leq)
    ensures Pointwise(StableSort(s, leq), StableSort(t, leq), rel)
  {
    if s != [] {
      var n := |s| - 1;
      assert Pointwise(s[..n], t[..n], rel);
      StableSortPointwise(s[..n], t[..n], leq, rel);
      assert rel(s[n], t[n]);
      InsertPointwise(s[n], t[n], StableSort(s[..n], leq), StableSort(t[..n], leq), leq, rel);
    }
  }

  /** `new Set(s)`: the distinct elements of `s`. */
  function ToSet<T(!new)>(s: seq<T>): (r: set<T>)
    ensures forall x :: x in r <==> x in s
    ensures |r| <= |s|
  {
    if s == [] then {}
    else
      assert s == [s[0]] + s[1..];
      {s[0]} + ToSet(s[1..])
  }

  /** Without duplicates, the set has one member per position. */
  lemma {:induction false} NoDupToSetSize<T(!new)>(s: seq<T>)
    requires NoDup(s)
    ensures |ToSet(s)| == |s|
  {
    if s != [] {
      HeadNotInTail(s);
      assert NoDup(s[1..]);
      NoDupToSetSize(s[1..]);
      assert s[0] !in ToSet(s[1..]);
    }
  }

  /** Removing a value just appended to a list that lacked it gives the
      list back. */
  lemma {:induction false} RemoveAllAppended<T(!new)>(s: seq<T>, v: T)
    requires v !in s
    ensures RemoveAll(s + [v], v) == s
  {
    if s == [] {
      assert [] + [v] == [v] && [v][1..] == [];
    } else {
      assert (s + [v])[0] == s[0] && (s + [v])[1..] == s[1..] + [v];
      RemoveAllAppended(s[1..], v);
      assert s == [s[0]] + s[1..];
    }
  }
}
