/** Sets of keys in order of their distance to a target: the reference for every nearest-node search. */
module DhtNearest {
  import opened DhtKeys

  ghost predicate IsNearest(keys: set<Key>, t: Key, k: Key)
  {
    k in keys && forall x | x in keys && x != k :: Nearer(t, k, x)
  }

  lemma {:induction false} NearestExists(keys: set<Key>, t: Key) returns (k: Key)
    requires keys != {}
    ensures IsNearest(keys, t, k)
  {
    var y :| y in keys;
    var rest := keys - {y};
    var n := y;
    k := y;
    if rest != {} {
      n := NearestExists(rest, t);
      NearerIsStrictTotalOrder(t, n, y, y);
      k := if Nearer(t, y, n) then y else n;
    }
    forall x | x in keys && x != k
      ensures Nearer(t, k, x)
    {
      assert x == y || x in rest;
      if k == y {
        NearerIsStrictTotalOrder(t, y, n, x);
      }
    }
  }

  lemma NearestUnique(keys: set<Key>, t: Key, k: Key)
    requires IsNearest(keys, t, k)
    ensures forall x | IsNearest(keys, t, x) :: x == k
  {
    forall x | IsNearest(keys, t, x)
      ensures x == k
    {
      NearerIsStrictTotalOrder(t, x, k, k);
    }
  }

  ghost function NearestOf(keys: set<Key>, t: Key): (k: Key)
    requires keys != {}
    ensures IsNearest(keys, t, k)
  {
    assert exists k :: IsNearest(keys, t, k) by {
      var _ := NearestExists(keys, t);
    }
    var k :| IsNearest(keys, t, k);
    k
  }

  ghost function ByDistance(keys: set<Key>, t: Key): seq<Key>
  {
    if keys == {} then [] else [NearestOf(keys, t)] + ByDistance(keys - {NearestOf(keys, t)}, t)
  }

  lemma ByDistanceStep(keys: set<Key>, t: Key, k: Key)
    requires IsNearest(keys, t, k)
    ensures ByDistance(keys, t) == [k] + ByDistance(keys - {k}, t)
  {
    NearestUnique(keys, t, k);
  }

  ghost predicate SortedFrom(e: seq<Key>, t: Key)
  {
    forall i, j | 0 <= i < j < |e| :: Nearer(t, e[i], e[j])
  }

  ghost function Elements(e: seq<Key>): set<Key>
  {
    set k | k in e
  }

  lemma {:induction false} ByDistanceContents(keys: set<Key>, t: Key)
    ensures Elements(ByDistance(keys, t)) == keys && |ByDistance(keys, t)| == |keys|
  {
    if keys != {} {
      var k := NearestOf(keys, t);
      ByDistanceContents(keys - {k}, t);
      assert Elements(ByDistance(keys, t)) == {k} + Elements(ByDistance(keys - {k}, t));
    }
  }

  lemma {:induction false} ByDistanceSorted(keys: set<Key>, t: Key)
    ensures SortedFrom(ByDistance(keys, t), t)
  {
    if keys != {} {
      var k := NearestOf(keys, t);
      var rest := ByDistance(keys - {k}, t);
      ByDistanceSorted(keys - {k}, t);
      ByDistanceContents(keys - {k}, t);
      forall j | 0 <= j < |rest|
        ensures Nearer(t, k, rest[j])
      {
        assert rest[j] in Elements(rest);
      }
    }
  }

  /** The sorted enumeration is unique, so `ByDistance` is what any correct sort returns. */
  lemma {:induction false} SortedIsUnique(e: seq<Key>, keys: set<Key>, t: Key)
    requires SortedFrom(e, t) && Elements(e) == keys
    ensures e == ByDistance(keys, t)
  {
    if e != [] {
      var k := e[0];
      forall x | x in keys && x != k
        ensures Nearer(t, k, x)
      {
        assert x in Elements(e);
      }
      assert k in Elements(e);
      NearestUnique(keys, t, k);
      var rest := e[1..];
      forall x
        ensures x in Elements(rest) <==> x in keys - {k}
      {
        NearerIsStrictTotalOrder(t, k, k, k);
        if x in rest {
          assert x in Elements(e);
        }
        if x in keys - {k} {
          assert x in Elements(e);
        }
      }
      SortedIsUnique(rest, keys - {k}, t);
    } else {
      assert keys == {};
    }
  }
}
