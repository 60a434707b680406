/** `Bucket`: nearest-node searches over a map of routers, with a set of excluded keys. */
module DhtBucket {
  import opened Bytes
  import opened DhtKeys
  import opened DhtNearest
  import opened DhtStore

  /** The nodes a search can return: excluded ones aside, all but the bitwise complement of the target. */
  ghost function Candidates(nodes: set<Key>, target: Key, exclude: set<Key>): set<Key>
  {
    set k | k in nodes && k !in exclude && Distance(k, target) != FARTHEST
  }

  lemma DistanceToTarget(target: Key, a: Key, b: Key)
    ensures Less(Distance(a, target), Distance(b, target)) <==> Nearer(target, a, b)
  {
    XorLaws(a, target);
    XorLaws(b, target);
  }

  /**
    The searches see as many nodes as are not excluded if and only if the complement of the target is
    not one of them: no distance is below the initial bound for it.
  */
  lemma ComplementIsMissed(nodes: set<Key>, target: Key, exclude: set<Key>)
    ensures
      |ByDistance(Candidates(nodes, target, exclude), target)| == |nodes - exclude|
      <==> (forall k | k in nodes - exclude :: Distance(k, target) != FARTHEST)
  {
    var c := Candidates(nodes, target, exclude);
    var all := nodes - exclude;
    ByDistanceContents(c, target);
    if forall k | k in all :: Distance(k, target) != FARTHEST {
      assert c == all;
    } else {
      var k :| k in all && Distance(k, target) == FARTHEST;
      assert c <= all - {k};
      SubsetSize(c, all - {k});
    }
  }

  lemma {:induction false} SubsetSize(a: set<Key>, b: set<Key>)
    requires a <= b
    ensures |a| <= |b|
  {
    if a != {} {
      var x :| x in a;
      SubsetSize(a - {x}, b - {x});
    }
  }

  /** The first `n` keys of a sequence, or all of them. */
  function Prefix(e: seq<Key>, n: nat): seq<Key>
  {
    if n < |e| then e[..n] else e
  }

  /** Taking out the nearest key leaves the rest of the order. */
  lemma CandidatesStep(nodes: set<Key>, target: Key, exclude: set<Key>)
    requires Candidates(nodes, target, exclude) != {}
    ensures
      var c := Candidates(nodes, target, exclude);
      var k := NearestOf(c, target);
      && Candidates(nodes, target, exclude + {k}) == c - {k}
      && ByDistance(c, target) == [k] + ByDistance(c - {k}, target)
  {
    var c := Candidates(nodes, target, exclude);
    var k := NearestOf(c, target);
    assert Candidates(nodes, target, exclude + {k}) == c - {k};
  }

  /** The search state after looking at nodes whose candidates are `c`. */
  ghost predicate Best(c: set<Key>, target: Key, prior: Key, mindist: Key, result: Key)
  {
    && (c == {} ==> mindist == FARTHEST && result == prior)
    && (c != {} ==> mindist == Distance(result, target) && mindist != FARTHEST && IsNearest(c, target, result))
  }

  /** One round of the search loop. */
  lemma BestStep(seen: set<Key>, item: Key, target: Key, exclude: set<Key>, prior: Key, mindist: Key, result: Key)
    requires item !in seen && Best(Candidates(seen, target, exclude), target, prior, mindist, result)
    ensures
      var c := Candidates(seen + {item}, target, exclude);
      var d := Distance(item, target);
      if item !in exclude && Less(d, mindist) then Best(c, target, prior, d, item)
      else Best(c, target, prior, mindist, result)
  {
    var c := Candidates(seen, target, exclude);
    var c' := Candidates(seen + {item}, target, exclude);
    var d := Distance(item, target);
    BeatsFarthest(target, item);
    if item in exclude {
      assert c' == c;
    } else if d == FARTHEST {
      assert c' == c;
      if c != {} && Less(d, mindist) {
        BeatsFarthest(target, result);
        LessTransitive(d, mindist, d);
        LessIrreflexive(d);
      }
    } else {
      assert c' == c + {item};
      if c != {} {
        DistanceToTarget(target, item, result);
        forall x | x in c
          ensures Less(d, mindist) ==> Nearer(target, item, x)
        {
          NearerIsStrictTotalOrder(target, item, result, x);
        }
        NearerIsStrictTotalOrder(target, item, result, result);
      }
    }
  }

  /** One round of `GetManyNearExcluding`: the nearest candidate moves from the order to the result. */
  lemma PrefixStep(e: seq<Key>, n: nat)
    requires e != [] && n > 0
    ensures Elements(Prefix(e, n)) == {e[0]} + Elements(Prefix(e[1..], n - 1))
  {
    assert Prefix(e, n) == [e[0]] + Prefix(e[1..], n - 1);
  }

  class Bucket {
    var nodes: Store

    constructor ()
      ensures nodes == map[]
    {
      nodes := map[];
    }

    /** The node nearest to the target that is not excluded; `prior` stays when there is none. */
    method FindCloseExcluding(target: Key, prior: Key, exclude: set<Key>) returns (found: bool, result: Key)
      ensures found <==> Candidates(nodes.Keys, target, exclude) != {}
      ensures found ==> IsNearest(Candidates(nodes.Keys, target, exclude), target, result)
      ensures !found ==> result == prior
    {
      hide Less, IsNearest, Distance;
      var maxdist := FARTHEST;
      var mindist := FARTHEST;
      result := prior;
      var rest := nodes.Keys;
      ghost var seen := {};
      assert Candidates(seen, target, exclude) == {};
      while rest != {}
        invariant rest + seen == nodes.Keys && rest !! seen
        invariant Best(Candidates(seen, target, exclude), target, prior, mindist, result)
      {
        var item :| item in rest;
        BestStep(seen, item, target, exclude, prior, mindist, result);
        rest := rest - {item};
        seen := seen + {item};
        if item in exclude {
          continue;
        }
        var curDist := Distance(item, target);
        if Less(curDist, mindist) {
          mindist := curDist;
          result := item;
        }
      }
      assert seen == nodes.Keys;
      LessThanAllOnes(mindist, KEY_SIZE);
      found := Less(mindist, maxdist);
    }

    /**
      Adds the `n` nearest nodes that are not excluded to `result`, or all of them when there are
      fewer, and tells whether there were enough.
    */
    method GetManyNearExcluding(target: Key, result: set<Key>, n: nat, exclude: set<Key>)
      returns (enough: bool, result': set<Key>)
      ensures
        var order := ByDistance(Candidates(nodes.Keys, target, exclude), target);
        && result' == result + Elements(Prefix(order, n))
        && (enough <==> n <= |order|)
    {
      hide IsNearest, Distance, Candidates, ByDistance;
      var s := exclude;
      result' := result;
      var peer := ZERO;
      var left := n;
      ghost var all := Candidates(nodes.Keys, target, exclude);
      assert Elements(Prefix(ByDistance(all, target), 0)) == {};
      while left > 0
        invariant 0 <= left <= n
        invariant
          var now := ByDistance(Candidates(nodes.Keys, target, s), target);
          && result' + Elements(Prefix(now, left)) == result + Elements(Prefix(ByDistance(all, target), n))
          && (left <= |now| <==> n <= |ByDistance(all, target)|)
      {
        var found;
        found, peer := FindCloseExcluding(target, peer, s);
        ghost var now := Candidates(nodes.Keys, target, s);
        ByDistanceContents(now, target);
        if !found {
          return false, result';
        }
        NearestUnique(now, target, peer);
        CandidatesStep(nodes.Keys, target, s);
        PrefixStep(ByDistance(now, target), left);
        s := s + {peer};
        result' := result' + {peer};
        left := left - 1;
      }
      assert Elements(Prefix(ByDistance(Candidates(nodes.Keys, target, s), target), 0)) == {};
      return true, result';
    }

    method PutNode(val: Record)
      modifies this
      ensures nodes == Put(old(nodes), val)
    {
      if val.key !in nodes || nodes[val.key].stamp < val.stamp {
        nodes := nodes[val.key := val];
      }
    }

    method DelNode(key: Key)
      modifies this
      ensures nodes == old(nodes) - {key}
    {
      if key in nodes {
        nodes := nodes - {key};
      }
    }
  }
}
