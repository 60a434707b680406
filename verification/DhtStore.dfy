/**
  Stores of routers by key that keep the newest record per key: `NodeDB` and `Bucket` use the same
  rule, so it is stated once, with the question when the order of insertions matters.
*/
module DhtStore {
  import opened DhtKeys

  /** A router contact; `body` stands for all that is not its key or its time stamp. */
  datatype Record = Record(key: Key, stamp: nat, body: nat)

  type Store = map<Key, Record>

  /** `PutIfNewer`, `PutNode`: an equally old record does not replace the stored one. */
  function Put(m: Store, r: Record): Store
  {
    if r.key !in m || m[r.key].stamp < r.stamp then m[r.key := r] else m
  }

  function PutAll(m: Store, rs: seq<Record>): Store
    decreases |rs|
  {
    if rs == [] then m else PutAll(Put(m, rs[0]), rs[1..])
  }

  /** `r` is among the newest records of its key. */
  ghost predicate Newest(rs: seq<Record>, r: Record)
  {
    r in rs && forall x | x in rs && x.key == r.key :: x.stamp <= r.stamp
  }

  /** No key has two different newest records. */
  ghost predicate NoTies(rs: seq<Record>)
  {
    forall a, b | Newest(rs, a) && Newest(rs, b) && a.key == b.key :: a == b
  }

  /** What the store holds for a key after a run of insertions. */
  lemma {:induction false} PutAllHolds(m: Store, rs: seq<Record>, k: Key)
    ensures k in PutAll(m, rs) <==> k in m || exists r :: r in rs && r.key == k
    ensures k in PutAll(m, rs) ==>
      var v := PutAll(m, rs)[k];
      && ((k in m && v == m[k]) || (v in rs && v.key == k))
      && (k in m ==> m[k].stamp <= v.stamp)
      && (forall r | r in rs && r.key == k :: r.stamp <= v.stamp)
    ensures k in m && (forall r | r in rs && r.key == k :: r.stamp <= m[k].stamp) ==>
      k in PutAll(m, rs) && PutAll(m, rs)[k] == m[k]
    decreases |rs|
  {
    if rs != [] {
      var next := Put(m, rs[0]);
      PutAllHolds(next, rs[1..], k);
      assert forall r | r in rs[1..] :: r in rs;
      assert forall r | r in rs :: r == rs[0] || r in rs[1..];
    }
  }

  /** From an empty store every key seen maps to one of its newest records. */
  lemma HoldsNewest(rs: seq<Record>, k: Key)
    ensures k in PutAll(map[], rs) <==> exists r :: r in rs && r.key == k
    ensures k in PutAll(map[], rs) ==> Newest(rs, PutAll(map[], rs)[k]) && PutAll(map[], rs)[k].key == k
  {
    PutAllHolds(map[], rs, k);
  }

  lemma SameElements(rs: seq<Record>, rs': seq<Record>)
    requires multiset(rs) == multiset(rs')
    ensures forall r :: r in rs <==> r in rs'
    ensures forall r :: Newest(rs, r) <==> Newest(rs', r)
  {
    forall r
      ensures r in rs <==> r in rs'
    {
      assert r in rs <==> r in multiset(rs);
      assert r in rs' <==> r in multiset(rs');
    }
  }

  /** Without ties every order of the same insertions ends in the same store. */
  lemma Converges(rs: seq<Record>, rs': seq<Record>)
    requires multiset(rs) == multiset(rs') && NoTies(rs)
    ensures PutAll(map[], rs) == PutAll(map[], rs')
  {
    SameElements(rs, rs');
    var m, m' := PutAll(map[], rs), PutAll(map[], rs');
    forall k: Key
      ensures k in m <==> k in m'
      ensures k in m ==> m[k] == m'[k]
    {
      HoldsNewest(rs, k);
      HoldsNewest(rs', k);
    }
    assert m.Keys == m'.Keys;
  }

  /** Inserting a newest record first makes it stay. */
  lemma FirstNewestWins(rs: seq<Record>, i: nat)
    requires i < |rs| && Newest(rs, rs[i])
    ensures
      var moved := [rs[i]] + (rs[..i] + rs[i + 1..]);
      multiset(moved) == multiset(rs) && rs[i].key in PutAll(map[], moved) && PutAll(map[], moved)[rs[i].key] == rs[i]
  {
    var rest := rs[..i] + rs[i + 1..];
    var moved := [rs[i]] + rest;
    assert rs == rs[..i] + [rs[i]] + rs[i + 1..];
    assert multiset(moved) == multiset(rs);
    assert moved[1..] == rest;
    assert forall r | r in rest :: r in rs;
    PutAllHolds(map[rs[i].key := rs[i]], rest, rs[i].key);
    assert Put(map[], rs[i]) == map[rs[i].key := rs[i]];
  }

  ghost predicate OrderIrrelevant(rs: seq<Record>)
  {
    forall rs' | multiset(rs') == multiset(rs) :: PutAll(map[], rs') == PutAll(map[], rs)
  }

  /** The store is the same for every order of the insertions if and only if no key has two newest records. */
  lemma ConvergesExactly(rs: seq<Record>)
    ensures OrderIrrelevant(rs) <==> NoTies(rs)
  {
    if NoTies(rs) {
      forall rs' | multiset(rs') == multiset(rs)
        ensures PutAll(map[], rs') == PutAll(map[], rs)
      {
        Converges(rs, rs');
      }
    }
    if OrderIrrelevant(rs) {
      forall a, b | Newest(rs, a) && Newest(rs, b) && a.key == b.key
        ensures a == b
      {
        var i :| 0 <= i < |rs| && rs[i] == a;
        var j :| 0 <= j < |rs| && rs[j] == b;
        FirstNewestWins(rs, i);
        FirstNewestWins(rs, j);
      }
    }
  }
}
