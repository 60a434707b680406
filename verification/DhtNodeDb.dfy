/** `NodeDB`: the router database and its two nearest-router queries. */
module DhtNodeDb {
  import opened DhtKeys
  import opened DhtNearest
  import opened DhtStore

  /** Every record sits under its own key. */
  ghost predicate Keyed(m: Store)
  {
    forall k | k in m :: m[k].key == k
  }

  const NO_RECORD := Record(ZERO, 0, 0)

  /** One visit of `FindClosestTo`: a record with the zero key counts as no record. */
  function Closer(location: Key, rc: Record, other: Record): Record
  {
    if rc.key == ZERO || Nearer(location, other.key, rc.key) then other else rc
  }

  function Fold(location: Key, rc: Record, order: seq<Record>): Record
    decreases |order|
  {
    if order == [] then rc else Fold(location, Closer(location, rc, order[0]), order[1..])
  }

  /** `FindClosestTo` when the entries are visited in `order`. */
  function FoldClosest(location: Key, order: seq<Record>): Record
  {
    Fold(location, NO_RECORD, order)
  }

  /** `order` lists the entries of `m`, each once. */
  ghost predicate Enumerates(order: seq<Record>, m: Store)
  {
    && (forall r :: r in order <==> r.key in m && m[r.key] == r)
    && (forall i, j | 0 <= i < j < |order| :: order[i].key != order[j].key)
  }

  lemma {:induction false} FoldIsOneOf(location: Key, rc: Record, order: seq<Record>)
    ensures Fold(location, rc, order) == rc || Fold(location, rc, order) in order
    decreases |order|
  {
    if order != [] {
      FoldIsOneOf(location, Closer(location, rc, order[0]), order[1..]);
    }
  }

  /** Nothing visited later displaces a record that is nearest of all and not the zero key. */
  lemma {:induction false} FoldKeepsNearest(location: Key, rc: Record, order: seq<Record>)
    requires rc.key != ZERO && forall r | r in order :: r.key != rc.key ==> Nearer(location, rc.key, r.key)
    ensures Fold(location, rc, order).key == rc.key
    decreases |order|
  {
    if order != [] {
      NearerIsStrictTotalOrder(location, rc.key, order[0].key, rc.key);
      FoldKeepsNearest(location, Closer(location, rc, order[0]), order[1..]);
    }
  }

  /** The nearest record wins whenever it is visited, zero keys among the others or not. */
  lemma {:induction false} FoldFindsNearest(location: Key, rc: Record, order: seq<Record>, nearest: Record)
    requires nearest in order && nearest.key != ZERO
    requires forall r | r in order :: r.key != nearest.key ==> Nearer(location, nearest.key, r.key)
    requires rc.key == ZERO || rc.key == nearest.key || Nearer(location, nearest.key, rc.key)
    ensures Fold(location, rc, order).key == nearest.key
    decreases |order|
  {
    var next := Closer(location, rc, order[0]);
    if order[0].key == nearest.key {
      FoldKeepsNearest(location, next, order[1..]);
    } else {
      NearerIsStrictTotalOrder(location, nearest.key, rc.key, order[0].key);
      NearerIsStrictTotalOrder(location, nearest.key, order[0].key, rc.key);
      FoldFindsNearest(location, next, order[1..], nearest);
    }
  }

  ghost predicate FindsNearest(location: Key, m: Store)
  {
    forall order | Enumerates(order, m) :: IsNearest(m.Keys, location, FoldClosest(location, order).key)
  }

  /** The zero key is nearest to the location and has company. */
  predicate ZeroShadows(location: Key, m: Store)
  {
    ZERO in m && |m| > 1 && forall k | k in m && k != ZERO :: Nearer(location, ZERO, k)
  }

  lemma {:induction false} EnumerationExists(m: Store) returns (order: seq<Record>)
    requires Keyed(m)
    ensures Enumerates(order, m)
  {
    if m == map[] {
      order := [];
    } else {
      var k :| k in m;
      var rest := EnumerationExists(m - {k});
      order := [m[k]] + rest;
      EnumerationGrows(m, k, rest);
    }
  }

  lemma EnumerationGrows(m: Store, k: Key, rest: seq<Record>)
    requires Keyed(m) && k in m && Enumerates(rest, m - {k})
    ensures Enumerates([m[k]] + rest, m)
  {
    var order := [m[k]] + rest;
    forall r
      ensures r in order <==> r.key in m && m[r.key] == r
    {
      assert r in order <==> r == m[k] || r in rest;
    }
    forall i, j | 0 <= i < j < |order|
      ensures order[i].key != order[j].key
    {
      assert order[j] == rest[j - 1] && rest[j - 1] in rest;
    }
  }

  lemma FindsNearestUnlessShadowed(location: Key, m: Store, order: seq<Record>)
    requires Keyed(m) && m != map[] && Enumerates(order, m) && !ZeroShadows(location, m)
    ensures IsNearest(m.Keys, location, FoldClosest(location, order).key)
  {
    var k := NearestOf(m.Keys, location);
    if k != ZERO {
      assert m[k] in order;
      FoldFindsNearest(location, NO_RECORD, order, m[k]);
    } else {
      assert |m| == 1;
      assert m.Keys == {ZERO} by {
        assert ZERO in m.Keys && |m.Keys - {ZERO}| == 0;
      }
      FoldIsOneOf(location, NO_RECORD, order);
    }
  }

  /** Visiting the zero key first loses it: the next record replaces it unseen. */
  lemma ShadowedOrder(location: Key, m: Store) returns (order: seq<Record>)
    requires Keyed(m) && ZeroShadows(location, m)
    ensures Enumerates(order, m) && FoldClosest(location, order).key != ZERO
  {
    var rest := EnumerationExists(m - {ZERO});
    EnumerationGrows(m, ZERO, rest);
    order := [m[ZERO]] + rest;
    assert m.Keys - {ZERO} != {} by {
      assert |m.Keys - {ZERO}| == |m| - 1;
    }
    var k :| k in m.Keys - {ZERO};
    assert m[k] in rest;
    assert order[1..] == rest && rest[0] in rest;
    FoldIsOneOf(location, rest[0], rest[1..]);
    assert forall r | r in rest[1..] :: r in rest;
    assert Fold(location, NO_RECORD, order) == Fold(location, m[ZERO], rest);
    assert Fold(location, m[ZERO], rest) == Fold(location, rest[0], rest[1..]);
  }

  /**
    On a store with entries, the answer is the nearest router for every order of visiting if and only
    if the zero key is not both the nearest and one of several.
  */
  lemma FindClosestExactly(location: Key, m: Store)
    requires Keyed(m) && m != map[]
    ensures FindsNearest(location, m) <==> !ZeroShadows(location, m)
  {
    if ZeroShadows(location, m) {
      var order := ShadowedOrder(location, m);
      assert IsNearest(m.Keys, location, ZERO);
      NearestUnique(m.Keys, location, ZERO);
      assert !IsNearest(m.Keys, location, FoldClosest(location, order).key);
    } else {
      forall order | Enumerates(order, m)
        ensures IsNearest(m.Keys, location, FoldClosest(location, order).key)
      {
        FindsNearestUnlessShadowed(location, m, order);
      }
    }
  }

  // ------------------------------------------------------------------ many at once

  /** The `n` nearest records, nearest first. */
  ghost function Closest(m: Store, location: Key, n: nat): seq<Record>
  {
    ByDistanceContents(m.Keys, location);
    var order := ByDistance(m.Keys, location);
    seq(if n < |order| then n else |order|, i requires 0 <= i < |order| => Lookup(m, order, i))
  }

  ghost function Lookup(m: Store, order: seq<Key>, i: nat): Record
    requires i < |order| && Elements(order) == m.Keys
  {
    assert order[i] in Elements(order);
    m[order[i]]
  }

  /** Asking for more keeps what was there: results are prefixes of each other as the count grows. */
  lemma ClosestIsPrefix(m: Store, location: Key, n: nat, n': nat)
    requires n <= n'
    ensures Closest(m, location, n) <= Closest(m, location, n')
  {
    ByDistanceContents(m.Keys, location);
  }

  /** With no zero key in the store, the single query is the first of the many. */
  lemma QueriesAgree(m: Store, location: Key, n: nat, order: seq<Record>)
    requires Keyed(m) && m != map[] && ZERO !in m && n > 0 && Enumerates(order, m)
    ensures Closest(m, location, n) != [] && Closest(m, location, n)[0] == FoldClosest(location, order)
  {
    FindsNearestUnlessShadowed(location, m, order);
    var best := FoldClosest(location, order);
    NearestUnique(m.Keys, location, best.key);
    assert ByDistance(m.Keys, location)[0] == best.key;
    FoldIsOneOf(location, NO_RECORD, order);
    assert best in order;
  }

  class NodeDB {
    var entries: Store

    ghost predicate Valid()
      reads this
    {
      Keyed(entries)
    }

    constructor ()
      ensures Valid() && entries == map[]
    {
      entries := map[];
    }

    method PutIfNewer(rc: Record)
      requires Valid()
      modifies this
      ensures Valid() && entries == Put(old(entries), rc)
    {
      if rc.key !in entries || entries[rc.key].stamp < rc.stamp {
        if rc.key in entries {
          entries := entries - {rc.key};
        }
        entries := entries[rc.key := rc];
      }
    }

    /** Visits the entries in some order. */
    method FindClosestTo(location: Key) returns (rc: Record, ghost order: seq<Record>)
      requires Valid()
      ensures Enumerates(order, entries) && rc == FoldClosest(location, order)
      ensures entries != map[] && !ZeroShadows(location, entries) ==> IsNearest(entries.Keys, location, rc.key)
    {
      hide Nearer;
      rc, order := NO_RECORD, [];
      var rest := entries.Keys;
      while rest != {}
        invariant rest <= entries.Keys
        invariant Enumerates(order, entries - rest) && rc == Fold(location, NO_RECORD, order)
      {
        var k :| k in rest;
        FoldSnoc(location, NO_RECORD, order, entries[k]);
        EnumerationSnoc(entries, rest, k, order);
        rc := Closer(location, rc, entries[k]);
        order := order + [entries[k]];
        rest := rest - {k};
      }
      assert entries - {} == entries;
      if entries != map[] && !ZeroShadows(location, entries) {
        FindsNearestUnlessShadowed(location, entries, order);
      }
    }

    /** The nearest of a non-empty set of stored keys. */
    method Select(keys: set<Key>, location: Key) returns (best: Key)
      requires {} != keys <= entries.Keys
      ensures IsNearest(keys, location, best)
    {
      best :| best in keys;
      var rest := keys - {best};
      while rest != {}
        invariant rest <= keys && best in keys && best !in rest
        invariant IsNearest(keys - rest, location, best)
      {
        var k :| k in rest;
        SelectStep(keys - rest, location, best, k);
        assert keys - (rest - {k}) == keys - rest + {k};
        if Nearer(location, k, best) {
          best := k;
        }
        rest := rest - {k};
      }
      assert keys - rest == keys;
    }

    /** `std::partial_sort` up to the wanted count, as repeated selection. */
    method FindManyClosestTo(location: Key, n: nat) returns (closest: seq<Record>)
      requires Valid()
      ensures closest == Closest(entries, location, n)
    {
      hide IsNearest, Nearer, ByDistance;
      closest := [];
      var rest := entries.Keys;
      ghost var order := ByDistance(entries.Keys, location);
      ByDistanceContents(entries.Keys, location);
      while |closest| < n && rest != {}
        invariant rest <= entries.Keys && |closest| <= n
        invariant |closest| <= |order| && ByDistance(rest, location) == order[|closest|..]
        invariant forall i | 0 <= i < |closest| :: closest[i] == Lookup(entries, order, i)
      {
        var k := Select(rest, location);
        ByDistanceStep(rest, location, k);
        assert order[|closest|] == ByDistance(rest, location)[0] == k;
        assert order[|closest| + 1..] == ByDistance(rest, location)[1..];
        closest := closest + [entries[k]];
        rest := rest - {k};
      }
      ByDistanceContents(rest, location);
    }
  }

  lemma SelectStep(seen: set<Key>, location: Key, best: Key, k: Key)
    requires IsNearest(seen, location, best) && k !in seen
    ensures IsNearest(seen + {k}, location, if Nearer(location, k, best) then k else best)
  {
    NearerIsStrictTotalOrder(location, k, best, best);
    forall x | x in seen
      ensures Nearer(location, k, best) ==> Nearer(location, k, x)
    {
      NearerIsStrictTotalOrder(location, k, best, x);
    }
  }

  lemma {:induction false} FoldSnoc(location: Key, rc: Record, order: seq<Record>, r: Record)
    ensures Fold(location, rc, order + [r]) == Closer(location, Fold(location, rc, order), r)
    decreases |order|
  {
    if order == [] {
      assert order + [r] == [r] && [r][1..] == [];
      assert Fold(location, Closer(location, rc, r), []) == Closer(location, rc, r);
    } else {
      assert (order + [r])[0] == order[0] && (order + [r])[1..] == order[1..] + [r];
      FoldSnoc(location, Closer(location, rc, order[0]), order[1..], r);
    }
  }

  lemma EnumerationSnoc(m: Store, rest: set<Key>, k: Key, order: seq<Record>)
    requires Keyed(m) && k in rest && rest <= m.Keys && Enumerates(order, m - rest)
    ensures Enumerates(order + [m[k]], m - (rest - {k}))
  {
    var order' := order + [m[k]];
    forall r
      ensures r in order' <==> r.key in m - (rest - {k}) && m[r.key] == r
    {
      assert r in order' <==> r == m[k] || r in order;
    }
    forall i, j | 0 <= i < j < |order'|
      ensures order'[i].key != order'[j].key
    {
      assert order'[i] == order[i] && order[i] in order;
    }
  }
}
