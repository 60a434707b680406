/** When a call for due retests hands out each node once: an exact condition on the queue. */
module ReachabilityOnce {
  import opened Reachability

  /** A retest that will be handed out when it is taken off before `t`. */
  predicate Counts(e: Retest, failing: set<Key>, t: int)
  {
    e.pk in failing && e.at < t
  }

  /** The queued retests of failing nodes that are earlier than `t`. */
  ghost function Earlier(queue: multiset<Retest>, failing: set<Key>, t: int): multiset<Retest>
    decreases |queue|
  {
    if queue == multiset{} then multiset{}
    else
      var e :| e in queue;
      Earlier(queue - multiset{e}, failing, t) + if Counts(e, failing, t) then multiset{e} else multiset{}
  }

  lemma {:induction false} EarlierHas(queue: multiset<Retest>, failing: set<Key>, t: int, x: Retest)
    ensures Earlier(queue, failing, t)[x] == if Counts(x, failing, t) then queue[x] else 0
    decreases |queue|
  {
    if queue != multiset{} {
      var e :| e in queue && Earlier(queue, failing, t) ==
        Earlier(queue - multiset{e}, failing, t) + if Counts(e, failing, t) then multiset{e} else multiset{};
      EarlierHas(queue - multiset{e}, failing, t, x);
    }
  }

  /** Two queued retests of one node, `e` no later than `f`. */
  predicate SameNode(queue: multiset<Retest>, e: Retest, f: Retest)
  {
    e.pk == f.pk && e.at <= f.at && multiset{e, f} <= queue
  }

  /** How many retests are handed out before `f` at least, if `e` is. */
  ghost function Ahead(queue: multiset<Retest>, failing: set<Key>, e: Retest, f: Retest): nat
  {
    |Earlier(queue, failing, f.at)| + if e.at == f.at then 1 else 0
  }

  /** Some failing node has two due retests that both can be among the first four handed out. */
  ghost predicate Crowded(queue: multiset<Retest>, failing: set<Key>, now: int)
  {
    exists e, f ::
      && SameNode(queue, e, f) && f.pk in failing && f.at <= now
      && Ahead(queue, failing, e, f) < MAX_RETESTS_PER_TICK
  }

  predicate EachOnce(handed: seq<(Key, int)>)
  {
    forall i, j | 0 <= i < j < |handed| :: handed[i].0 != handed[j].0
  }

  // ----------------------------------------------------------- counting what is handed out

  lemma EarlierAppend(popped: seq<Retest>, e: Retest, failing: set<Key>, t: int)
    ensures
      Earlier(multiset(popped + [e]), failing, t) ==
      Earlier(multiset(popped), failing, t) + if Counts(e, failing, t) then multiset{e} else multiset{}
  {
    hide Earlier, Counts;
    assert multiset(popped + [e]) == multiset(popped) + multiset{e};
    var all := Earlier(multiset(popped), failing, t) + if Counts(e, failing, t) then multiset{e} else multiset{};
    forall x
      ensures Earlier(multiset(popped + [e]), failing, t)[x] == all[x]
    {
      EarlierHas(multiset(popped + [e]), failing, t, x);
      EarlierHas(multiset(popped), failing, t, x);
    }
  }

  /** At least the earlier ones of what was taken off were handed out; exactly those, if all are earlier. */
  lemma {:induction false} HandedOutCounts(popped: seq<Retest>, failing: set<Key>, t: int)
    ensures |Earlier(multiset(popped), failing, t)| <= |HandedOut(popped, failing)|
    ensures (forall e | e in popped :: e.at < t) ==>
      |Earlier(multiset(popped), failing, t)| == |HandedOut(popped, failing)|
    decreases |popped|
  {
    if popped != [] {
      var front, e := popped[..|popped| - 1], popped[|popped| - 1];
      assert popped == front + [e];
      HandedOutCounts(front, failing, t);
      HandedOutAppend(front, e, failing);
      EarlierAppend(front, e, failing, t);
      hide Earlier, HandedOut;
      assert e in popped && forall x | x in front :: x in popped;
    } else {
      assert multiset(popped) == multiset{};
    }
  }

  lemma SizeMonotone(a: multiset<Retest>, b: multiset<Retest>)
    requires a <= b
    ensures |a| <= |b|
  {
    assert b == a + (b - a);
  }

  // ------------------------------------------------------------- a repeated node is crowded

  /** The retest behind the `j`th entry handed out. */
  lemma {:induction false} BehindEntry(popped: seq<Retest>, failing: set<Key>, j: nat) returns (k: nat)
    requires j < |HandedOut(popped, failing)|
    ensures k < |popped| && popped[k].pk in failing && HandedOut(popped, failing)[j].0 == popped[k].pk
    ensures HandedOut(popped[..k], failing) == HandedOut(popped, failing)[..j]
    decreases |popped|
  {
    var front, e := popped[..|popped| - 1], popped[|popped| - 1];
    assert popped == front + [e];
    HandedOutAppend(front, e, failing);
    if j < |HandedOut(front, failing)| {
      k := BehindEntry(front, failing, j);
      assert front[..k] == popped[..k];
    } else {
      k := |popped| - 1;
    }
  }

  /** Everything earlier than a retest that was taken off was taken off before it. */
  lemma EarlierWasTaken(queue: multiset<Retest>, popped: seq<Retest>, now: int, failing: set<Key>, k: nat)
    requires k < |popped| && multiset(popped) <= queue && Popped(queue, popped, queue - multiset(popped), now)
    ensures Earlier(queue, failing, popped[k].at) <= multiset(popped[..k])
  {
    hide Earlier;
    var t := popped[k].at;
    var before, behind := popped[..k], popped[k..];
    assert popped == before + behind;
    assert forall e | e in behind :: e.at >= t;
    forall x
      ensures Earlier(queue, failing, t)[x] <= multiset(before)[x]
    {
      EarlierHas(queue, failing, t, x);
      if Counts(x, failing, t) {
        assert x !in behind && x !in queue - multiset(popped);
        assert multiset(popped)[x] == multiset(before)[x] + multiset(behind)[x];
      }
    }
  }

  lemma BothTaken(popped: seq<Retest>, l: nat, k: nat)
    requires l < k < |popped|
    ensures multiset{popped[l], popped[k]} <= multiset(popped)
  {
    assert popped == popped[..l] + [popped[l]] + popped[l + 1..k] + [popped[k]] + popped[k + 1..];
  }

  lemma OnlyCounting(queue: multiset<Retest>, failing: set<Key>, t: int, x: Retest)
    requires x in Earlier(queue, failing, t)
    ensures Counts(x, failing, t)
  {
    EarlierHas(queue, failing, t, x);
  }

  lemma RepeatIsCrowded(s: State, now: int, popped: seq<Retest>, i: nat, j: nat)
    requires Enabled(s, Get(now, popped)) && i < j < |HandedOut(popped, s.failing)|
    requires HandedOut(popped, s.failing)[i].0 == HandedOut(popped, s.failing)[j].0
    ensures Crowded(s.queue, s.failing, now)
  {
    hide Earlier, HandedOut, Counts;
    var k := BehindEntry(popped, s.failing, j);
    assert HandedOut(popped, s.failing)[..j][i] == HandedOut(popped, s.failing)[i];
    var before := popped[..k];
    var l := BehindEntry(before, s.failing, i);
    var e, f := before[l], popped[k];
    BothTaken(popped, l, k);
    assert SameNode(s.queue, e, f) && f.at <= now && j < MAX_RETESTS_PER_TICK;
    EarlierWasTaken(s.queue, popped, now, s.failing, k);
    hide Popped, TakesEnough;
    var early := Earlier(s.queue, s.failing, f.at);
    forall x | x in early
      ensures Counts(x, s.failing, f.at)
    {
      OnlyCounting(s.queue, s.failing, f.at, x);
    }
    AheadIsHandedOut(before, l, early, s.failing, f.at);
  }

  /** The earlier retests and one more of the same time make up part of what was handed out. */
  lemma AheadIsHandedOut(before: seq<Retest>, l: nat, early: multiset<Retest>, failing: set<Key>, t: int)
    requires l < |before| && before[l].pk in failing && before[l].at <= t && early <= multiset(before)
    requires forall x | x in early :: Counts(x, failing, t)
    ensures |early| + (if before[l].at == t then 1 else 0) <= |HandedOut(before, failing)|
  {
    hide HandedOut;
    var e := before[l];
    var all := early + if e.at == t then multiset{e} else multiset{};
    assert all <= Earlier(multiset(before), failing, t + 1) by {
      hide Earlier;
      assert e in multiset(before);
      forall x
        ensures all[x] <= Earlier(multiset(before), failing, t + 1)[x]
      {
        EarlierHas(multiset(before), failing, t + 1, x);
      }
    }
    SizeMonotone(all, Earlier(multiset(before), failing, t + 1));
    HandedOutCounts(before, failing, t + 1);
  }

  // -------------------------------------------------------- a crowded queue repeats a node

  /** Taking off everything earlier than `t`. */
  lemma {:induction false} TakeEarlier(queue: multiset<Retest>, popped: seq<Retest>, after: multiset<Retest>,
        now: int, t: int)
    returns (popped': seq<Retest>, after': multiset<Retest>)
    requires Popped(queue, popped, after, now) && t <= now && forall e | e in popped :: e.at < t
    ensures Popped(queue, popped', after', now)
    ensures (forall e | e in popped' :: e.at < t) && forall e | e in after' :: e.at >= t
    decreases |after|
  {
    popped', after' := popped, after;
    if after != multiset{} {
      var top := EarliestExists(after);
      if top.at < t {
        PoppedMore(queue, popped, after, now, top);
        assert forall e | e in popped + [top] :: e in popped || e == top;
        hide Popped;
        popped', after' := TakeEarlier(queue, popped + [top], after - multiset{top}, now, t);
      }
    }
  }

  /** A call that has begun like this can go on to its end. */
  lemma {:induction false} GoOn(queue: multiset<Retest>, popped: seq<Retest>, after: multiset<Retest>,
        failing: set<Key>, now: int)
    returns (popped': seq<Retest>, after': multiset<Retest>)
    requires Popped(queue, popped, after, now) && Collected(HandedOut(popped, failing), popped, failing)
    ensures Popped(queue, popped', after', now) && TakesEnough(popped', failing, after', now) && popped <= popped'
    decreases |after|
  {
    hide Popped, HandedOut;
    popped', after' := popped, after;
    if |HandedOut(popped, failing)| == MAX_RETESTS_PER_TICK || after == multiset{} {
      EnoughOrEmpty(HandedOut(popped, failing), popped, failing, after, now);
    } else {
      var top := EarliestExists(after);
      if top.at > now {
        NothingDue(HandedOut(popped, failing), popped, failing, after, now);
      } else {
        PoppedMore(queue, popped, after, now, top);
        CollectedMore(HandedOut(popped, failing), popped, failing, top);
        HandedOutAppend(popped, top, failing);
        popped', after' := GoOn(queue, popped + [top], after - multiset{top}, failing, now);
      }
    }
  }

  lemma {:induction false} HandedOutPrefix(a: seq<Retest>, b: seq<Retest>, failing: set<Key>)
    requires a <= b
    ensures HandedOut(a, failing) <= HandedOut(b, failing)
    decreases |b|
  {
    if |a| < |b| {
      var front := b[..|b| - 1];
      assert b == front + [b[|b| - 1]];
      HandedOutPrefix(a, front, failing);
      HandedOutAppend(front, b[|b| - 1], failing);
    } else {
      assert a == b;
    }
  }

  /** A call that has taken `f` after `e` repeats their node, however it goes on. */
  lemma RepeatsNode(taken: seq<Retest>, e: Retest, f: Retest, popped: seq<Retest>, failing: set<Key>)
    requires e in taken && e.pk == f.pk && f.pk in failing && taken + [f] <= popped
    ensures !EachOnce(HandedOut(popped, failing))
  {
    hide HandedOut;
    HandedOutHas(taken, failing, e);
    HandedOutAppend(taken, f, failing);
    HandedOutPrefix(taken + [f], popped, failing);
    var handed, j := HandedOut(popped, failing), |HandedOut(taken, failing)|;
    var i :| 0 <= i < j && HandedOut(taken, failing)[i] == (e.pk, e.failures);
    assert handed[i] == HandedOut(taken + [f], failing)[i] && handed[j] == HandedOut(taken + [f], failing)[j];
  }

  /** Once everything earlier than `t` is off the queue, as many were handed out as were queued earlier than `t`. */
  lemma EarlierAreOut(queue: multiset<Retest>, popped: seq<Retest>, after: multiset<Retest>, failing: set<Key>, t: int)
    requires queue == multiset(popped) + after
    requires (forall e | e in popped :: e.at < t) && forall e | e in after :: e.at >= t
    ensures |HandedOut(popped, failing)| == |Earlier(queue, failing, t)|
  {
    hide Earlier, HandedOut;
    forall x
      ensures Earlier(queue, failing, t)[x] == Earlier(multiset(popped), failing, t)[x]
    {
      EarlierHas(queue, failing, t, x);
      EarlierHas(multiset(popped), failing, t, x);
      if x in after {
        assert !Counts(x, failing, t);
      }
    }
    assert Earlier(queue, failing, t) == Earlier(multiset(popped), failing, t);
    HandedOutCounts(popped, failing, t);
  }

  /** Taking off one of the earliest retests left, while fewer than four are handed out. */
  lemma TakeOne(queue: multiset<Retest>, popped: seq<Retest>, after: multiset<Retest>, failing: set<Key>, now: int,
        top: Retest)
    requires Popped(queue, popped, after, now) && top in after && top.at <= now && top.pk in failing
    requires forall x | x in after :: top.at <= x.at
    requires |HandedOut(popped, failing)| < MAX_RETESTS_PER_TICK
    ensures Popped(queue, popped + [top], after - multiset{top}, now)
    ensures |HandedOut(popped + [top], failing)| == |HandedOut(popped, failing)| + 1
    ensures Collected(HandedOut(popped + [top], failing), popped + [top], failing)
  {
    PoppedMore(queue, popped, after, now, top);
    HandedOutAppend(popped, top, failing);
  }

  lemma CrowdedRepeats(s: State, now: int, e: Retest, f: Retest) returns (popped: seq<Retest>)
    requires SameNode(s.queue, e, f) && f.pk in s.failing && f.at <= now
    requires Ahead(s.queue, s.failing, e, f) < MAX_RETESTS_PER_TICK
    ensures Enabled(s, Get(now, popped)) && !EachOnce(HandedOut(popped, s.failing))
  {
    hide HandedOut, Earlier, Collected, TakesEnough;
    PoppedNothing(s.queue, s.failing, now);
    var taken, after := TakeEarlier(s.queue, [], s.queue, now, f.at);
    EarlierAreOut(s.queue, taken, after, s.failing, f.at);
    assert f !in taken && multiset(taken)[f] == 0;
    if e.at == f.at {
      assert e !in taken && multiset(taken)[e] == 0 && multiset{e, f} <= after;
      TakeOne(s.queue, taken, after, s.failing, now, e);
      taken, after := taken + [e], after - multiset{e};
    } else {
      assert e !in after && e in multiset(taken);
    }
    hide Popped;
    TakeOne(s.queue, taken, after, s.failing, now, f);
    var after';
    popped, after' := GoOn(s.queue, taken + [f], after - multiset{f}, s.failing, now);
    RepeatsNode(taken, e, f, popped, s.failing);
    LeftOver(s.queue, popped, after', now);
  }

  lemma LeftOver(queue: multiset<Retest>, popped: seq<Retest>, after: multiset<Retest>, now: int)
    requires Popped(queue, popped, after, now)
    ensures multiset(popped) <= queue && after == queue - multiset(popped)
  {
  }

  // ------------------------------------------------------------------------ the main results

  /**
    Every call hands out each node at most once if and only if no failing node has two due retests that
    both can be among the first four.
  */
  lemma HandsOutOnceExactly(s: State, now: int)
    ensures
      (forall popped | Enabled(s, Get(now, popped)) :: EachOnce(HandedOut(popped, s.failing))) <==>
      !Crowded(s.queue, s.failing, now)
  {
    hide Enabled, HandedOut, Ahead, SameNode;
    if Crowded(s.queue, s.failing, now) {
      var e, f :| SameNode(s.queue, e, f) && f.pk in s.failing && f.at <= now
        && Ahead(s.queue, s.failing, e, f) < MAX_RETESTS_PER_TICK;
      var popped := CrowdedRepeats(s, now, e, f);
      assert Enabled(s, Get(now, popped));
    } else {
      forall popped | Enabled(s, Get(now, popped))
        ensures EachOnce(HandedOut(popped, s.failing))
      {
        if !EachOnce(HandedOut(popped, s.failing)) {
          var handed := HandedOut(popped, s.failing);
          var i: nat, j: nat :| i < j < |handed| && handed[i].0 == handed[j].0;
          RepeatIsCrowded(s, now, popped, i, j);
        }
      }
    }
  }

  /** Every node is added only while none of its retests is queued. */
  ghost predicate AddsUnqueued(s: State, ops: seq<Op>)
    decreases |ops|
  {
    ops == [] ||
    ((ops[0].Add? ==> forall e | e in s.queue :: e.pk != ops[0].retest.pk) && AddsUnqueued(Apply(s, ops[0]), ops[1..]))
  }

  /** No node has two retests queued. */
  ghost predicate SingleRetests(queue: multiset<Retest>)
  {
    forall e, f :: !SameNode(queue, e, f)
  }

  lemma SingleStep(s: State, op: Op)
    requires SingleRetests(s.queue) && (op.Add? ==> forall e | e in s.queue :: e.pk != op.retest.pk)
    ensures SingleRetests(Apply(s, op).queue)
  {
    var t := Apply(s, op);
    forall e, f
      ensures !SameNode(t.queue, e, f)
    {
      assert !SameNode(s.queue, e, f);
      if op.Add? && SameNode(t.queue, e, f) {
        TwoOf(s.queue, op.retest, e, f);
      }
    }
  }

  /** Of two retests that are queued after one was added, one was queued before. */
  lemma TwoOf(queue: multiset<Retest>, added: Retest, e: Retest, f: Retest)
    requires multiset{e, f} <= queue + multiset{added}
    ensures e in queue || f in queue
  {
    var two := multiset{e, f};
    if e == f {
      assert two[e] == 2;
    } else {
      assert two[e] == 1 && two[f] == 1;
    }
  }

  lemma {:induction false} SingleRun(s: State, ops: seq<Op>)
    requires SingleRetests(s.queue) && AddsUnqueued(s, ops)
    ensures SingleRetests(Run(s, ops).queue)
    decreases |ops|
  {
    if ops != [] {
      hide SingleRetests, Apply;
      SingleStep(s, ops[0]);
      SingleRun(Apply(s, ops[0]), ops[1..]);
    }
  }

  /** A caller that adds a node only while none of its retests is queued never gets a node twice from one call. */
  lemma CarefulCallersGetEachOnce(ops: seq<Op>, now: int, popped: seq<Retest>)
    requires AddsUnqueued(START, ops) && Enabled(Run(START, ops), Get(now, popped))
    ensures EachOnce(HandedOut(popped, Run(START, ops).failing))
  {
    SingleRun(START, ops);
    hide Run, Enabled, HandedOut, Ahead, EachOnce;
    HandsOutOnceExactly(Run(START, ops), now);
  }
}
