/** Shared vocabulary of the scheduling engine: workers, optional values,
    sequence helpers (filtering, de-duplication, subsequences) and per-worker
    counters that read as 0 for a worker never counted. */
module Basics {

  /** A worker is identified by name. */
  type Worker = string

  datatype Option<+T> = None | Some(value: T)

  /** The set of elements of a sequence. */
  function Elems<T(==)>(s: seq<T>): set<T>
  {
    set x | x in s
  }

  /** Only the empty sequence has no elements. */
  lemma NoElems<T>(s: seq<T>)
    ensures Elems(s) == {} <==> s == []
  {
    if s != [] {
      assert s[0] in Elems(s);
    }
  }

  /** No element occurs twice. */
  predicate NoDup<T(==)>(s: seq<T>)
  {
    forall i, j | 0 <= i < j < |s| :: s[i] != s[j]
  }

  /** `a` can be obtained from `b` by deleting elements, keeping the order. */
  predicate IsSubseq<T(==)>(a: seq<T>, b: seq<T>)
    decreases |b|
  {
    if a == [] then true
    else if b == [] then false
    else if a[0] == b[0] then IsSubseq(a[1..], b[1..])
    else IsSubseq(a, b[1..])
  }

  /** Putting an element that `a` does not hold in front of `b` keeps `a` a subsequence. */
  lemma {:induction false} SubseqSkip<T>(a: seq<T>, b: seq<T>, x: T)
    requires IsSubseq(a, b)
    requires x !in a
    ensures IsSubseq(a, [x] + b)
  {
    if a != [] {
      assert ([x] + b)[1..] == b;
    }
  }

  /** The first `i` elements of a non-empty sequence are its head followed
      by the first `i - 1` elements of its tail. */
  lemma PrefixOfTail<T>(s: seq<T>, i: nat)
    requires 0 < i <= |s|
    ensures s[..i][0] == s[0] && s[..i][1..] == s[1..][..i - 1]
  {
  }

  lemma PrefixOfCons<T>(x: T, s: seq<T>, i: nat)
    requires 0 < i <= |s| + 1
    ensures ([x] + s)[..i] == [x] + s[..i - 1]
  {
  }

  /** Putting the same element in front of both keeps a subsequence. */
  lemma SubseqCons<T>(x: T, a: seq<T>, b: seq<T>)
    requires IsSubseq(a, b)
    ensures IsSubseq([x] + a, [x] + b)
  {
    assert ([x] + a)[1..] == a && ([x] + b)[1..] == b;
  }

  /** The elements of `s` that are not in `drop`, in their original order. */
  function Without<T(==,!new)>(s: seq<T>, drop: set<T>): (r: seq<T>)
    ensures forall x :: x in r <==> x in s && x !in drop
    ensures |r| <= |s|
  {
    if s == [] then []
    else if s[0] in drop then Without(s[1..], drop)
    else [s[0]] + Without(s[1..], drop)
  }

  /** Filtering removes every copy of a dropped element and keeps every copy
      of the others. */
  lemma {:induction false} WithoutMultiplicity<T(!new)>(s: seq<T>, drop: set<T>, x: T)
    ensures multiset(Without(s, drop))[x] == if x in drop then 0 else multiset(s)[x]
  {
    if s != [] {
      WithoutMultiplicity(s[1..], drop, x);
      assert s == [s[0]] + s[1..];
      if s[0] !in drop {
        assert Without(s, drop) == [s[0]] + Without(s[1..], drop);
      }
    }
  }

  /** Filtering keeps the survivors in their order, and so keeps them distinct. */
  lemma {:induction false} WithoutKeepsOrder<T(!new)>(s: seq<T>, drop: set<T>)
    ensures IsSubseq(Without(s, drop), s)
    ensures NoDup(s) ==> NoDup(Without(s, drop))
  {
    if s != [] {
      WithoutKeepsOrder(s[1..], drop);
      var rest := Without(s[1..], drop);
      if s[0] in drop {
        SubseqSkip(rest, s[1..], s[0]);
        assert [s[0]] + s[1..] == s;
      } else {
        assert ([s[0]] + rest)[1..] == rest;
        if NoDup(s) {
          assert s[0] !in s[1..];
        }
      }
    }
  }

  /** The first occurrence of every element of `s`, in order. */
  function Distinct<T(==,!new)>(s: seq<T>): (r: seq<T>)
    ensures NoDup(r)
    ensures Elems(r) == Elems(s)
    decreases |s|
  {
    if s == [] then []
    else
      var rest := Without(s[1..], {s[0]});
      var r := Distinct(rest);
      assert Elems(s) == {s[0]} + Elems(rest);
      assert Elems([s[0]] + r) == {s[0]} + Elems(r);
      [s[0]] + r
  }

  /** A sequence without repetitions holds every element exactly once. */
  lemma {:induction false} NoDupMultiplicity<T>(s: seq<T>, x: T)
    requires NoDup(s)
    ensures multiset(s)[x] == if x in s then 1 else 0
  {
    if s != [] {
      assert s == [s[0]] + s[1..];
      NoDupMultiplicity(s[1..], x);
    }
  }

  /** A sequence whose multiplicities are all at most one has no repetitions. */
  lemma {:induction false} MultiplicityNoDup<T>(s: seq<T>)
    requires forall x :: multiset(s)[x] <= 1
    ensures NoDup(s)
  {
    if s != [] {
      assert s == [s[0]] + s[1..];
      assert multiset(s) == multiset{s[0]} + multiset(s[1..]);
      forall x
        ensures multiset(s[1..])[x] <= 1
      {
        assert multiset(s)[x] == multiset{s[0]}[x] + multiset(s[1..])[x];
      }
      MultiplicityNoDup(s[1..]);
      assert multiset(s)[s[0]] == 1 + multiset(s[1..])[s[0]];
      assert s[0] !in s[1..];
    }
  }

  /** A per-worker counter; a worker absent from the map has count 0. */
  type Counter = map<Worker, nat>

  function Get(c: Counter, w: Worker): nat
  {
    if w in c then c[w] else 0
  }

  /** The counter with `w` counted once more. */
  function Bump(c: Counter, w: Worker): (r: Counter)
    ensures r.Keys == c.Keys + {w}
    ensures Get(r, w) == Get(c, w) + 1
    ensures forall v | v != w :: Get(r, v) == Get(c, v)
  {
    c[w := Get(c, w) + 1]
  }

  /** A counter holding every roster name at zero. */
  function Zeroes(roster: seq<Worker>): (r: Counter)
    ensures r.Keys == Elems(roster)
    ensures forall w :: Get(r, w) == 0
  {
    map w | w in roster :: 0
  }

  /** Division of `total` by a positive `n`, rounded down. */
  function FloorDiv(total: nat, n: nat): (q: nat)
    requires n > 0
    ensures q * n <= total < (q + 1) * n
  {
    total / n
  }

  function Min(a: int, b: int): int
  {
    if a <= b then a else b
  }

  function Abs(x: int): nat
  {
    if x < 0 then -x else x
  }
}
