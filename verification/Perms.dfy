/** Sums, images and sorting of sequences that only depend on their elements, not on the order. */
module Perms {
  import opened Seqs

  predicate Permuted<T(==)>(a: seq<T>, b: seq<T>) {
    multiset(a) == multiset(b)
  }

  function Sum<T>(f: T -> nat, s: seq<T>): nat {
    if s == [] then 0 else f(s[0]) + Sum(f, s[1..])
  }

  function Map<T, U>(f: T -> U, s: seq<T>): (r: seq<U>)
    ensures |r| == |s| && forall i | 0 <= i < |s| :: r[i] == f(s[i])
  {
    seq(|s|, i requires 0 <= i < |s| => f(s[i]))
  }

  function Without<T>(s: seq<T>, k: nat): seq<T>
    requires k < |s|
  {
    s[..k] + s[k + 1..]
  }

  /** Where `a`'s first element sits in a permutation of `a`, and what is left of both. */
  lemma FirstElsewhere<T>(a: seq<T>, b: seq<T>) returns (k: nat)
    requires Permuted(a, b) && a != []
    ensures k < |b| && b[k] == a[0] && Permuted(a[1..], Without(b, k))
  {
    HeadTail(a);
    assert a[0] in multiset(b);
    k :| 0 <= k < |b| && b[k] == a[0];
    SplitAt(b, k);
    HeadTail(b[k..]);
    DropDrop(b, k, 1);
    assert multiset(a) == multiset{a[0]} + multiset(a[1..]);
    assert multiset(b) == multiset(b[..k]) + multiset(b[k..]) == multiset{b[k]} + (multiset(b[..k]) + multiset(b[k + 1..]));
    Cancel(a[0], multiset(a[1..]), multiset(b[..k]) + multiset(b[k + 1..]));
  }

  lemma Cancel<T>(x: T, a: multiset<T>, b: multiset<T>)
    requires multiset{x} + a == multiset{x} + b
    ensures a == b
  {
    assert a == multiset{x} + a - multiset{x};
  }

  lemma {:induction false} SumConcat<T>(f: T -> nat, a: seq<T>, b: seq<T>)
    ensures Sum(f, a + b) == Sum(f, a) + Sum(f, b)
    decreases |a|
  {
    if a == [] {
      EmptyLeft(b);
    } else {
      ConcatSlices(a, b, 1);
      SumConcat(f, a[1..], b);
    }
  }

  lemma {:induction false} SumPermuted<T>(f: T -> nat, a: seq<T>, b: seq<T>)
    requires Permuted(a, b)
    ensures Sum(f, a) == Sum(f, b)
    decreases |a|
  {
    if a == [] {
      assert |multiset(b)| == 0;
    } else {
      var k := FirstElsewhere(a, b);
      SumPermuted(f, a[1..], Without(b, k));
      SumConcat(f, b[..k], b[k + 1..]);
      SumConcat(f, b[..k], b[k..]);
      SplitAt(b, k);
      DropDrop(b, k, 1);
    }
  }

  lemma MapConcat<T, U>(f: T -> U, a: seq<T>, b: seq<T>)
    ensures Map(f, a + b) == Map(f, a) + Map(f, b)
  {
  }

  lemma {:induction false} MapPermuted<T, U>(f: T -> U, a: seq<T>, b: seq<T>)
    requires Permuted(a, b)
    ensures Permuted(Map(f, a), Map(f, b))
    decreases |a|
  {
    if a == [] {
      assert |multiset(b)| == 0;
    } else {
      var k := FirstElsewhere(a, b);
      MapPermuted(f, a[1..], Without(b, k));
      HeadTail(a);
      MapConcat(f, [a[0]], a[1..]);
      SplitAt(b, k);
      HeadTail(b[k..]);
      DropDrop(b, k, 1);
      MapConcat(f, b[..k], b[k..]);
      MapConcat(f, [b[k]], b[k + 1..]);
      MapConcat(f, b[..k], b[k + 1..]);
      assert Map(f, [b[k]]) == Map(f, [a[0]]);
    }
  }

  // ---- Sorting pairs, as Python's `sorted` orders them ----

  datatype Span = Span(begin: nat, finish: nat)

  predicate Leq(x: Span, y: Span) {
    x.begin < y.begin || (x.begin == y.begin && x.finish <= y.finish)
  }

  predicate Ordered(s: seq<Span>) {
    |s| <= 1 || (Leq(s[0], s[1]) && Ordered(s[1..]))
  }

  function Insert(x: Span, s: seq<Span>): (r: seq<Span>) {
    if s == [] then [x]
    else if Leq(x, s[0]) then [x] + s
    else [s[0]] + Insert(x, s[1..])
  }

  lemma {:induction false} InsertOrders(x: Span, s: seq<Span>)
    requires Ordered(s)
    ensures Ordered(Insert(x, s)) && multiset(Insert(x, s)) == multiset{x} + multiset(s)
    ensures Insert(x, s)[0] == if s == [] || Leq(x, s[0]) then x else s[0]
    decreases |s|
  {
    if s != [] {
      HeadTail(s);
      InsertOrders(x, s[1..]);
    }
  }

  function Sort(s: seq<Span>): (r: seq<Span>)
    ensures Ordered(r) && Permuted(s, r)
  {
    if s == [] then [] else
      HeadTail(s);
      InsertOrders(s[0], Sort(s[1..]));
      Insert(s[0], Sort(s[1..]))
  }

  lemma {:induction false} FirstIsLeast(s: seq<Span>, x: Span)
    requires Ordered(s) && x in s
    ensures Leq(s[0], x)
    decreases |s|
  {
    if x != s[0] {
      HeadTail(s);
      FirstIsLeast(s[1..], x);
    }
  }

  /** There is only one ordered arrangement of the same spans. */
  lemma {:induction false} OrderedUnique(a: seq<Span>, b: seq<Span>)
    requires Ordered(a) && Ordered(b) && Permuted(a, b)
    ensures a == b
    decreases |a|
  {
    if a == [] {
      assert |multiset(b)| == 0;
    } else {
      assert |multiset(b)| == |multiset(a)|;
      assert a[0] in multiset(b) && b[0] in multiset(a);
      FirstIsLeast(a, b[0]);
      FirstIsLeast(b, a[0]);
      HeadTail(a);
      HeadTail(b);
      assert multiset(a) == multiset{a[0]} + multiset(a[1..]) && multiset(b) == multiset{b[0]} + multiset(b[1..]);
      Cancel(a[0], multiset(a[1..]), multiset(b[1..]));
      OrderedUnique(a[1..], b[1..]);
    }
  }

  /** Sorting forgets the order its input came in. */
  lemma SortPermuted(a: seq<Span>, b: seq<Span>)
    requires Permuted(a, b)
    ensures Sort(a) == Sort(b)
  {
    OrderedUnique(Sort(a), Sort(b));
  }

  lemma SortOfOrdered(s: seq<Span>)
    requires Ordered(s)
    ensures Sort(s) == s
  {
    OrderedUnique(s, Sort(s));
  }

  // ---- Spans that tile an interval ----

  /** Walking the spans in order, each begins where the one before it finished. */
  predicate Tiles(s: seq<Span>, from: nat, to: nat) {
    if s == [] then from == to else s[0].begin == from && Tiles(s[1..], s[0].finish, to)
  }

  function Covers(p: nat): Span -> nat {
    (x: Span) => if x.begin <= p < x.finish then 1 else 0
  }

  /** Spans that tile an interval hold each of its points exactly once and no other point. */
  lemma {:induction false} TilesCoverOnce(s: seq<Span>, from: nat, to: nat, p: nat)
    requires Tiles(s, from, to) && forall i | 0 <= i < |s| :: s[i].begin <= s[i].finish
    ensures from <= to && Sum(Covers(p), s) == if from <= p < to then 1 else 0
    decreases |s|
  {
    if s != [] {
      assert s[0].begin <= s[0].finish;
      TilesCoverOnce(s[1..], s[0].finish, to, p);
    }
  }
}
