/** Enumerating finite sets of numbers in ascending order, as iterating an ordered map does. */
module Ordered {

  lemma {:induction false} LeastExists(s: set<nat>) returns (m: nat)
    requires s != {}
    ensures m in s && forall x | x in s :: m <= x
  {
    var y :| y in s;
    var rest := s - {y};
    m := y;
    if rest != {} {
      var n := LeastExists(rest);
      m := if y < n then y else n;
    }
    forall x | x in s
      ensures m <= x
    {
      assert x == y || x in rest;
    }
  }

  function Least(s: set<nat>): (m: nat)
    requires s != {}
    ensures m in s && forall x | x in s :: m <= x
  {
    assert exists m :: m in s && forall x | x in s :: m <= x by {
      var _ := LeastExists(s);
    }
    var m :| m in s && forall x | x in s :: m <= x;
    m
  }

  function Ascending(s: set<nat>): seq<nat>
  {
    if s == {} then [] else [Least(s)] + Ascending(s - {Least(s)})
  }

  lemma {:induction false} AscendingContents(s: set<nat>)
    ensures forall x :: x in Ascending(s) <==> x in s
  {
    if s != {} {
      AscendingContents(s - {Least(s)});
    }
  }

  ghost predicate Sorted(xs: seq<nat>)
  {
    forall i, j :: 0 <= i < j < |xs| ==> xs[i] <= xs[j]
  }

  /** Least element of a non-empty multiset. */
  function LeastOf(q: multiset<nat>): (m: nat)
    requires q != multiset{}
    ensures m in q && forall x | x in q :: m <= x
  {
    var s := set x | x in q;
    assert forall x :: x in s <==> x in q;
    assert s != {} by {
      var x :| x in q;
      assert x in s;
    }
    Least(s)
  }

  /** The elements of a multiset in ascending order: the order a min-heap yields them in. */
  function Drain(q: multiset<nat>): seq<nat>
    decreases |q|
  {
    if q == multiset{} then [] else [LeastOf(q)] + Drain(q - multiset{LeastOf(q)})
  }

  /** The least goes to the end of what was drained before. */
  lemma DrainStep(q: multiset<nat>, drained: seq<nat>)
    requires q != multiset{}
    ensures drained + Drain(q) == drained + [LeastOf(q)] + Drain(q - multiset{LeastOf(q)})
  {
  }

  lemma {:induction false} DrainLength(q: multiset<nat>)
    ensures |Drain(q)| == |q|
    decreases |q|
  {
    if q != multiset{} {
      DrainLength(q - multiset{LeastOf(q)});
    }
  }

  lemma {:induction false} DrainContents(q: multiset<nat>)
    ensures multiset(Drain(q)) == q
    decreases |q|
  {
    if q != multiset{} {
      var m := LeastOf(q);
      DrainContents(q - multiset{m});
      assert multiset(Drain(q)) == multiset{m} + multiset(Drain(q - multiset{m}));
    }
  }

  lemma {:induction false} DrainSorted(q: multiset<nat>)
    ensures Sorted(Drain(q))
    decreases |q|
  {
    if q != multiset{} {
      var m := LeastOf(q);
      var rest := Drain(q - multiset{m});
      DrainSorted(q - multiset{m});
      forall j | 0 <= j < |rest|
        ensures m <= rest[j]
      {
        DrainContents(q - multiset{m});
        assert rest[j] in multiset(rest);
      }
    }
  }

  /** No element occurs twice. */
  ghost predicate Distinct<T>(xs: seq<T>)
  {
    forall i, j | 0 <= i < j < |xs| :: xs[i] != xs[j]
  }

  lemma {:induction false} DistinctMultiset<T>(xs: seq<T>, x: T)
    requires Distinct(xs)
    ensures multiset(xs)[x] == if x in xs then 1 else 0
  {
    if xs != [] {
      var rest := xs[1..];
      assert xs == [xs[0]] + rest;
      assert forall i | 0 <= i < |rest| :: rest[i] == xs[i + 1];
      DistinctMultiset(rest, x);
    }
  }
}
