/**
  Recursive router lookup. Each router forwards a lookup to the nearest router it knows, and only if
  that one is nearer to the target than itself, so a chain of forwards cannot go on for ever or meet a
  router twice, however inconsistent the routers' databases are.
*/
module DhtLookup {
  import opened Bytes
  import opened DhtKeys
  import opened DhtNearest
  import opened DhtStore
  import opened DhtNodeDb
  import opened DhtTx
  import opened DhtTxHolder

  datatype Action =
    | ReplySelf
    | ReplyNothing
    | ReplyKnown(rc: Record)
    | ReplyCloser(next: Key)
    | Forward(next: Key)

  /** `LookupRouterRelayed`, given the answer of the node database. */
  function Relay(us: Key, target: Key, allowed: bool, rc: Record, expiresSoon: bool, recursive: bool): Action
  {
    if target == us then ReplySelf
    else if !allowed then ReplyNothing
    else if rc.key == target then
      if expiresSoon then Forward(rc.key) else ReplyKnown(rc)
    else if recursive then
      if Less(Distance(rc.key, target), Distance(us, target)) then Forward(rc.key) else ReplyNothing
    else ReplyCloser(rc.key)
  }

  lemma TargetIsNearest(target: Key, k: Key)
    requires k != target
    ensures Nearer(target, target, k)
  {
    NearerIsStrictTotalOrder(target, target, k, k);
    if Nearer(target, k, target) {
      SelfDistance(target);
      NothingBelowZero(Distance(target, k), Distance(target, target));
    }
  }

  lemma {:induction false} NothingBelowZero(a: seq<byte>, zero: seq<byte>)
    requires |a| == |zero| && (forall i | 0 <= i < |zero| :: zero[i] == 0)
    ensures !Less(a, zero)
  {
    if a != [] {
      NothingBelowZero(a[1..], zero[1..]);
    }
  }

  lemma SelfDistance(k: Key)
    ensures forall i | 0 <= i < KEY_SIZE :: Distance(k, k)[i] == 0
  {
    forall i | 0 <= i < KEY_SIZE
      ensures Distance(k, k)[i] == 0
    {
      SelfXor(k[i], 8);
    }
  }

  lemma {:induction false} SelfXor(a: nat, n: nat)
    ensures XorBits(a, a, n) == 0
  {
    if n > 0 {
      SelfXor(a / 2, n - 1);
    }
  }

  /** Every forward goes strictly nearer to the target. */
  lemma ForwardIsNearer(us: Key, target: Key, allowed: bool, rc: Record, expiresSoon: bool, recursive: bool)
    requires Relay(us, target, allowed, rc, expiresSoon, recursive).Forward?
    ensures Nearer(target, Relay(us, target, allowed, rc, expiresSoon, recursive).next, us)
  {
    if rc.key == target {
      TargetIsNearest(target, us);
    } else {
      XorLaws(rc.key, target);
      XorLaws(us, target);
    }
  }

  /** One router's turn: what it knows, in the order it looks at it, at that moment. */
  datatype Hop = Hop(router: Key, known: seq<Record>, allowed: bool, expiresSoon: bool, recursive: bool)

  function ActionAt(hop: Hop, target: Key): Action
  {
    Relay(hop.router, target, hop.allowed, FoldClosest(target, hop.known), hop.expiresSoon, hop.recursive)
  }

  /** Each hop forwards to the next; nothing relates the databases of different hops. */
  ghost predicate Chain(hops: seq<Hop>, target: Key)
  {
    forall i | 0 <= i < |hops| - 1 :: ActionAt(hops[i], target) == Forward(hops[i + 1].router)
  }

  lemma {:induction false} ChainGetsNearer(hops: seq<Hop>, target: Key, i: nat, j: nat)
    requires Chain(hops, target) && i < j < |hops|
    ensures Nearer(target, hops[j].router, hops[i].router)
    decreases j - i
  {
    var h := hops[j - 1];
    assert ActionAt(h, target) == Forward(hops[j - 1 + 1].router);
    ForwardIsNearer(h.router, target, h.allowed, FoldClosest(target, h.known), h.expiresSoon, h.recursive);
    if i < j - 1 {
      ChainGetsNearer(hops, target, i, j - 1);
      NearerIsStrictTotalOrder(target, hops[j].router, hops[j - 1].router, hops[i].router);
    }
  }

  function Measure(k: Key, target: Key): nat
  {
    Number(Distance(target, k))
  }

  lemma {:induction false} ChainIsBounded(hops: seq<Hop>, target: Key)
    requires Chain(hops, target) && hops != []
    ensures |hops| <= Measure(hops[0].router, target) + 1
    decreases |hops|
  {
    if |hops| > 1 {
      var rest := hops[1..];
      assert Chain(rest, target) by {
        forall i | 0 <= i < |rest| - 1
          ensures ActionAt(rest[i], target) == Forward(rest[i + 1].router)
        {
          assert ActionAt(hops[i + 1], target) == Forward(hops[i + 2].router);
        }
      }
      ChainIsBounded(rest, target);
      ChainGetsNearer(hops, target, 0, 1);
      LessIsNumeric(Distance(target, rest[0].router), Distance(target, hops[0].router));
    }
  }

  /**
    Every chain of forwards is finite, with a bound its first router could compute, and visits no
    router twice, whatever each router's database holds when its turn comes.
  */
  lemma LookupsTerminate(hops: seq<Hop>, target: Key)
    requires Chain(hops, target) && hops != []
    ensures |hops| <= Measure(hops[0].router, target) + 1
    ensures forall i, j | 0 <= i < j < |hops| :: hops[i].router != hops[j].router
  {
    ChainIsBounded(hops, target);
    forall i, j | 0 <= i < j < |hops|
      ensures hops[i].router != hops[j].router
    {
      ChainGetsNearer(hops, target, i, j);
      NearerIsStrictTotalOrder(target, hops[i].router, hops[i].router, hops[i].router);
    }
  }

  lemma FoldIsKnown(target: Key, known: seq<Record>)
    requires known != []
    ensures FoldClosest(target, known) in known
  {
    var rc := FoldClosest(target, known);
    assert rc == Fold(target, Closer(target, NO_RECORD, known[0]), known[1..]);
    FoldIsOneOf(target, Closer(target, NO_RECORD, known[0]), known[1..]);
    assert known[0] in known;
  }

  /**
    Forwards stay inside what the router knows if and only if it knows anything: then the next router is
    one in its database, and otherwise it is the zero key.
  */
  lemma ForwardIsKnownExactly(hop: Hop, target: Key)
    requires ActionAt(hop, target).Forward?
    ensures (exists rc :: rc in hop.known && rc.key == ActionAt(hop, target).next) <==> hop.known != []
    ensures hop.known == [] ==> ActionAt(hop, target).next == ZERO
  {
    if hop.known != [] {
      FoldIsKnown(target, hop.known);
    }
  }

  // ---------------------------------------------------------- answers, over the database

  /** What a router answers about a target it does not know, when `nearest` is the nearest it knows. */
  function Fallback(hop: Hop, target: Key, nearest: Key): Action
  {
    if !hop.recursive then ReplyCloser(nearest)
    else if Nearer(target, nearest, hop.router) then Forward(nearest)
    else ReplyNothing
  }

  /** The zero key stands for no record: it can be looked up only where it does not hide. */
  predicate Sees(target: Key, m: Store)
  {
    target == ZERO ==> m != map[] && !ZeroShadows(target, m)
  }

  /** The query finds the target itself if and only if it is in the database. */
  lemma FindsTargetExactly(target: Key, known: seq<Record>, m: Store)
    requires Keyed(m) && Enumerates(known, m) && Sees(target, m)
    ensures FoldClosest(target, known).key == target <==> target in m
    ensures target in m ==> FoldClosest(target, known) == m[target]
  {
    FoldIsOneOf(target, NO_RECORD, known);
    if target == ZERO {
      FindsNearestUnlessShadowed(target, m, known);
      var k :| k in m;
      assert m[k] in known;
      FoldIsKnown(target, known);
      TargetIsNever(target, FoldClosest(target, known).key);
      hide FoldClosest, Nearer, ZeroShadows;
    } else if target in m {
      assert m[target] in known;
      forall r | r in known && r.key != target
        ensures Nearer(target, target, r.key)
      {
        TargetIsNearest(target, r.key);
      }
      FoldFindsNearest(target, NO_RECORD, known, m[target]);
    }
  }

  lemma TargetIsNever(target: Key, k: Key)
    ensures !Nearer(target, k, target)
  {
    NearerIsStrictTotalOrder(target, target, k, k);
    if k != target {
      TargetIsNearest(target, k);
      NearerIsStrictTotalOrder(target, k, target, k);
    }
  }

  /**
    Over the database, in whatever order it is visited: a lookup of ourselves is answered with ourselves, one
    that is not allowed with nothing, and one of a router we know with its record, or by asking that router
    when the record expires soon.
  */
  lemma KnownIsAnswered(hop: Hop, target: Key, m: Store)
    requires Keyed(m) && Enumerates(hop.known, m) && Sees(target, m)
    ensures
      var a := ActionAt(hop, target);
      var asked := target != hop.router && hop.allowed;
      && (a == ReplySelf <==> target == hop.router)
      && (target != hop.router && !hop.allowed ==> a == ReplyNothing)
      && (a.ReplyKnown? <==> asked && target in m && !hop.expiresSoon)
      && (a.ReplyKnown? ==> a.rc == m[target])
      && (a == Forward(target) <==> asked && target in m && hop.expiresSoon)
  {
    FindsTargetExactly(target, hop.known, m);
  }

  /** And one of a router we do not know goes to the nearest router we know, if the query finds that one. */
  lemma UnknownFallsBack(hop: Hop, target: Key, m: Store)
    requires Keyed(m) && Enumerates(hop.known, m) && target !in m
    requires target != hop.router && hop.allowed && m != map[] && !ZeroShadows(target, m)
    ensures ActionAt(hop, target) == Fallback(hop, target, NearestOf(m.Keys, target))
  {
    FindsTargetExactly(target, hop.known, m);
    FindsNearestUnlessShadowed(target, m, hop.known);
    var rc := FoldClosest(target, hop.known);
    NearestUnique(m.Keys, target, rc.key);
    XorLaws(rc.key, target);
    XorLaws(hop.router, target);
  }

  /** A router that knows nobody takes the zero key for known, and answers with an empty record. */
  lemma NobodyKnownAnswersZero(hop: Hop)
    requires hop.known == [] && hop.router != ZERO && hop.allowed && !hop.expiresSoon
    ensures ActionAt(hop, ZERO) == ReplyKnown(NO_RECORD)
  {
  }

  /** For any other target it falls back to the zero key. */
  lemma NobodyKnownFallsBack(hop: Hop, target: Key)
    requires hop.known == [] && target != ZERO && target != hop.router && hop.allowed
    ensures ActionAt(hop, target) == Fallback(hop, target, ZERO)
  {
    XorLaws(ZERO, target);
    XorLaws(hop.router, target);
  }

  // ------------------------------------------------------------------- the object

  /** An owner that was never created has no transaction. */
  lemma FreshOwner(h: Holder, owner: Owner)
    requires Consistent(h) && owner !in h.created
    ensures owner !in h.tx
  {
    assert OwnerAccounted(h, owner);
  }

  /** A transaction number greater than all before is new, and entering it keeps the table consistent. */
  lemma EnterFresh(h: Holder, ids: nat, owner: Owner, k: Target, t: TX, deadline: nat)
    requires Consistent(h) && (forall o | o in h.created :: o.txid <= ids) && owner.txid == ids + 1 && t.target == k
    ensures owner !in h.created && owner !in h.tx
    ensures
      var h' := DhtTx.NewTX(h, owner, k, t, deadline);
      Consistent(h') && forall o | o in h'.created :: o.txid <= ids + 1
  {
    FreshOwner(h, owner);
    hide Consistent;
    ConsistentNewTX(h, owner, k, t, deadline);
  }

  class Context {
    const ourKey: Key
    const nodedb: NodeDB
    const pendingRouterLookups: TXHolder
    var ids: nat

    /** Transaction numbers handed out so far are at most `ids`. */
    ghost predicate Valid()
      reads this, nodedb, pendingRouterLookups
    {
      && nodedb.Valid() && Consistent(pendingRouterLookups.View())
      && forall o | o in pendingRouterLookups.created :: o.txid <= ids
    }

    constructor (ourKey: Key, nodedb: NodeDB, lookups: TXHolder)
      requires nodedb.Valid() && lookups.View() == Empty()
      ensures Valid() && this.ourKey == ourKey && this.nodedb == nodedb && pendingRouterLookups == lookups && ids == 0
    {
      this.ourKey, this.nodedb, pendingRouterLookups, ids := ourKey, nodedb, lookups, 0;
      new;
      EmptyIsConsistent();
    }

    /** Enters a lookup under a transaction number that was never used before. */
    method LookupRouterRecursive(target: Key, whoAsked: Owner, askPeer: Key, now: nat)
      requires Valid()
      modifies this`ids, pendingRouterLookups
      ensures Valid() && ids == old(ids) + 1
      ensures Owner(askPeer, ids) !in old(pendingRouterLookups.created)
      ensures pendingRouterLookups.View() == DhtTx.NewTX(old(pendingRouterLookups.View()), Owner(askPeer, ids),
        Router(target), TX(Router(target), whoAsked, {ourKey}, []), now + 15000)
    {
      hide Consistent, DhtTx.NewTX;
      var owner := Owner(askPeer, ids + 1);
      var t := TX(Router(target), whoAsked, {ourKey}, []);
      EnterFresh(pendingRouterLookups.View(), ids, owner, Router(target), t, now + 15000);
      ids := ids + 1;
      pendingRouterLookups.NewTX(owner, Router(target), t, now, 15000);
    }

    method LookupRouterRelayed(requester: Key, txid: nat, target: Key, recursive: bool, allowed: bool,
          expiresSoon: bool, now: nat)
      returns (action: Action, ghost known: seq<Record>)
      requires Valid()
      modifies this`ids, pendingRouterLookups
      ensures Valid()
      ensures Enumerates(known, old(nodedb.entries))
      ensures action == Relay(ourKey, target, allowed, FoldClosest(target, known), expiresSoon, recursive)
      ensures Sees(target, old(nodedb.entries)) ==>
        && (action == ReplySelf <==> target == ourKey)
        && (action.ReplyKnown? <==> target != ourKey && allowed && target in old(nodedb.entries) && !expiresSoon)
        && (action.ReplyKnown? ==> action.rc == old(nodedb.entries)[target])
      ensures !action.Forward? ==> ids == old(ids) && pendingRouterLookups.View() == old(pendingRouterLookups.View())
      ensures action.Forward? ==>
        && ids == old(ids) + 1 && Owner(action.next, ids) !in old(pendingRouterLookups.created)
        && pendingRouterLookups.View() == DhtTx.NewTX(old(pendingRouterLookups.View()), Owner(action.next, ids),
             Router(target), TX(Router(target), Owner(requester, txid), {ourKey}, []), now + 15000)
    {
      var rc;
      rc, known := nodedb.FindClosestTo(target);
      if Sees(target, nodedb.entries) {
        KnownIsAnswered(Hop(ourKey, known, allowed, expiresSoon, recursive), target, nodedb.entries);
      }
      if target == ourKey {
        return ReplySelf, known;
      }
      if !allowed {
        return ReplyNothing, known;
      }
      var next := rc.key;
      if next == target {
        if expiresSoon {
          LookupRouterRecursive(target, Owner(requester, txid), next, now);
          return Forward(next), known;
        }
        return ReplyKnown(rc), known;
      } else if recursive {
        if Less(Distance(next, target), Distance(ourKey, target)) {
          LookupRouterRecursive(target, Owner(requester, txid), next, now);
          return Forward(next), known;
        }
        return ReplyNothing, known;
      }
      return ReplyCloser(next), known;
    }
  }
}
