/**
  The schedule of reachability tests: a queue of retests of failing nodes with lazy deletion, and a
  shuffled list of nodes for the general tests. Times are in milliseconds; random intervals and the
  shuffled order are parameters.
*/
module Reachability {
  import opened Wrappers

  type Key = nat

  const MAX_RETESTS_PER_TICK := 4
  const TESTING_BACKOFF := 10_000
  const TESTING_BACKOFF_MAX := 120_000

  /** A queued retest: the node, when, and how often it failed. */
  datatype Retest = Retest(pk: Key, at: int, failures: int)

  // -------------------------------------------------------------- retests of failing nodes

  /** The retests taken off the queue that count: those of nodes still failing. */
  function HandedOut(popped: seq<Retest>, failing: set<Key>): seq<(Key, int)>
  {
    if popped == [] then []
    else
      var e := popped[0];
      (if e.pk in failing then [(e.pk, e.failures)] else []) + HandedOut(popped[1..], failing)
  }

  ghost predicate InOrder(popped: seq<Retest>)
  {
    forall i, j | 0 <= i < j < |popped| :: popped[i].at <= popped[j].at
  }

  /** `popped` came off the queue: everything in it was due, in time order, and no later than what is left. */
  ghost predicate Popped(before: multiset<Retest>, popped: seq<Retest>, after: multiset<Retest>, now: int)
  {
    && before == multiset(popped) + after
    && InOrder(popped)
    && (forall e | e in popped :: e.at <= now)
    && (forall e, f | e in popped && f in after :: e.at <= f.at)
  }

  /** What a call may take off the queue: it ends with the fourth retest handed out, or when nothing due is left. */
  ghost predicate TakesEnough(popped: seq<Retest>, failing: set<Key>, after: multiset<Retest>, now: int)
  {
    var n := |HandedOut(popped, failing)|;
    && n <= MAX_RETESTS_PER_TICK
    && (n < MAX_RETESTS_PER_TICK ==> forall f | f in after :: f.at > now)
    && (n == MAX_RETESTS_PER_TICK ==> popped != [] && popped[|popped| - 1].pk in failing)
  }

  lemma {:induction false} HandedOutAppend(popped: seq<Retest>, e: Retest, failing: set<Key>)
    ensures
      HandedOut(popped + [e], failing) ==
      HandedOut(popped, failing) + if e.pk in failing then [(e.pk, e.failures)] else []
  {
    if popped == [] {
      assert popped + [e] == [e];
    } else {
      assert (popped + [e])[0] == popped[0] && (popped + [e])[1..] == popped[1..] + [e];
      HandedOutAppend(popped[1..], e, failing);
      var head := if popped[0].pk in failing then [(popped[0].pk, popped[0].failures)] else [];
      var last := if e.pk in failing then [(e.pk, e.failures)] else [];
      var rest := HandedOut(popped[1..], failing);
      assert HandedOut(popped + [e], failing) == head + (rest + last);
      assert head + (rest + last) == (head + rest) + last;
    }
  }

  lemma {:induction false} EarliestExists(queue: multiset<Retest>) returns (top: Retest)
    requires queue != multiset{}
    ensures top in queue && forall e | e in queue :: top.at <= e.at
    decreases |queue|
  {
    var e :| e in queue;
    var rest := queue - multiset{e};
    assert queue == multiset{e} + rest;
    if rest == multiset{} {
      top := e;
    } else {
      var other := EarliestExists(rest);
      top := if e.at <= other.at then e else other;
      assert forall x | x in queue :: x == e || x in rest;
    }
  }

  lemma PoppedMore(before: multiset<Retest>, popped: seq<Retest>, after: multiset<Retest>, now: int, top: Retest)
    requires Popped(before, popped, after, now) && top in after && top.at <= now
    requires forall f | f in after :: top.at <= f.at
    ensures Popped(before, popped + [top], after - multiset{top}, now)
  {
    assert multiset(popped + [top]) == multiset(popped) + multiset{top};
    assert forall e | e in popped + [top] :: e in popped || e == top;
  }

  /** What the loop has so far: no more than four, and the fourth came last. */
  ghost predicate Collected(result: seq<(Key, int)>, popped: seq<Retest>, failing: set<Key>)
  {
    && result == HandedOut(popped, failing) && |result| <= MAX_RETESTS_PER_TICK
    && (|result| == MAX_RETESTS_PER_TICK ==> popped != [] && popped[|popped| - 1].pk in failing)
  }

  lemma CollectedMore(result: seq<(Key, int)>, popped: seq<Retest>, failing: set<Key>, top: Retest)
    requires Collected(result, popped, failing) && |result| < MAX_RETESTS_PER_TICK
    ensures Collected(if top.pk in failing then result + [(top.pk, top.failures)] else result, popped + [top], failing)
  {
    HandedOutAppend(popped, top, failing);
  }

  lemma NothingDue(result: seq<(Key, int)>, popped: seq<Retest>, failing: set<Key>, after: multiset<Retest>, now: int)
    requires Collected(result, popped, failing)
    requires |result| == MAX_RETESTS_PER_TICK || forall f | f in after :: f.at > now
    ensures result == HandedOut(popped, failing) && TakesEnough(popped, failing, after, now)
  {
  }

  lemma EnoughOrEmpty(result: seq<(Key, int)>, popped: seq<Retest>, failing: set<Key>, after: multiset<Retest>,
        now: int)
    requires Collected(result, popped, failing) && (|result| >= MAX_RETESTS_PER_TICK || after == multiset{})
    ensures result == HandedOut(popped, failing) && TakesEnough(popped, failing, after, now)
  {
  }

  lemma PoppedNothing(queue: multiset<Retest>, failing: set<Key>, now: int)
    ensures Popped(queue, [], queue, now) && Collected([], [], failing)
  {
  }

  /** When the next retest is due, never more than two minutes away. */
  function NextTest(now: int, previous: int, interval: int): (at: int)
    ensures at <= now + TESTING_BACKOFF_MAX
  {
    var delay := previous * TESTING_BACKOFF + interval;
    now + if delay > TESTING_BACKOFF_MAX then TESTING_BACKOFF_MAX else delay
  }

  /** Failing more often never brings the next retest forward; until the limit, each failure adds ten seconds. */
  lemma BackoffGrows(now: int, previous: int, more: nat, interval: int)
    ensures NextTest(now, previous, interval) <= NextTest(now, previous + more, interval)
    ensures
      NextTest(now, previous + more, interval) < now + 120_000 ==>
      NextTest(now, previous + more, interval) == NextTest(now, previous, interval) + more * 10_000
    ensures NextTest(now, 0, interval) == now + if interval <= 120_000 then interval else 120_000
  {
    assert (previous + more) * TESTING_BACKOFF == previous * TESTING_BACKOFF + more * TESTING_BACKOFF;
  }

  // ------------------------------------------------------------------------ whole runs

  /** The failing nodes and the queue, and for the record the nodes handed out since they were last added. */
  datatype State = State(failing: set<Key>, queue: multiset<Retest>, handed: set<Key>)

  datatype Op =
    | Add(retest: Retest)
    | Remove(pk: Key)
    | Get(now: int, popped: seq<Retest>)

  ghost predicate Enabled(s: State, op: Op)
  {
    match op
    case Get(now, popped) =>
      && multiset(popped) <= s.queue
      && Popped(s.queue, popped, s.queue - multiset(popped), now)
      && TakesEnough(popped, s.failing, s.queue - multiset(popped), now)
    case _ => true
  }

  function Keys(handed: seq<(Key, int)>): set<Key>
  {
    set h | h in handed :: h.0
  }

  function Apply(s: State, op: Op): State
  {
    match op
    case Add(e) => State(s.failing + {e.pk}, s.queue + multiset{e}, s.handed - {e.pk})
    case Remove(pk) => s.(failing := s.failing - {pk})
    case Get(now, popped) =>
      s.(queue := s.queue - multiset(popped), handed := s.handed + Keys(HandedOut(popped, s.failing)))
  }

  ghost predicate Legal(s: State, ops: seq<Op>)
    decreases |ops|
  {
    ops == [] || (Enabled(s, ops[0]) && Legal(Apply(s, ops[0]), ops[1..]))
  }

  function Run(s: State, ops: seq<Op>): State
    decreases |ops|
  {
    if ops == [] then s else Run(Apply(s, ops[0]), ops[1..])
  }

  const START := State({}, multiset{}, {})

  /** Every failing node is queued for a retest, or was handed out since it was last added. */
  ghost predicate Watched(s: State)
  {
    forall pk | pk in s.failing :: pk in s.handed || exists e :: e in s.queue && e.pk == pk
  }

  lemma {:induction false} HandedOutHas(popped: seq<Retest>, failing: set<Key>, e: Retest)
    requires e in popped && e.pk in failing
    ensures (e.pk, e.failures) in HandedOut(popped, failing)
  {
    if e != popped[0] {
      HandedOutHas(popped[1..], failing, e);
    }
  }

  lemma WatchedStep(s: State, op: Op)
    requires Watched(s) && Enabled(s, op)
    ensures Watched(Apply(s, op))
  {
    var t := Apply(s, op);
    forall pk | pk in t.failing
      ensures pk in t.handed || exists e :: e in t.queue && e.pk == pk
    {
      match op
      case Add(added) =>
        if pk == added.pk {
          assert added in t.queue;
        } else if pk !in s.handed {
          var e :| e in s.queue && e.pk == pk;
          assert e in t.queue;
        }
      case Remove(gone) =>
        if pk !in s.handed {
          var e :| e in s.queue && e.pk == pk;
          assert e in t.queue;
        }
      case Get(now, popped) =>
        if pk !in s.handed {
          var e :| e in s.queue && e.pk == pk;
          if e !in t.queue {
            assert e in multiset(popped);
            HandedOutHas(popped, s.failing, e);
            assert (e.pk, e.failures).0 in t.handed;
          }
        }
    }
  }

  lemma {:induction false} WatchedRun(s: State, ops: seq<Op>)
    requires Watched(s) && Legal(s, ops)
    ensures Watched(Run(s, ops))
    decreases |ops|
  {
    hide Watched, Enabled, Apply;
    if ops != [] {
      WatchedStep(s, ops[0]);
      WatchedRun(Apply(s, ops[0]), ops[1..]);
    }
  }

  /** After every run, no failing node is forgotten. */
  lemma NoFailingNodeIsForgotten(ops: seq<Op>, pk: Key)
    requires Legal(START, ops) && pk in Run(START, ops).failing
    ensures var s := Run(START, ops); pk in s.handed || exists e :: e in s.queue && e.pk == pk
  {
    WatchedRun(START, ops);
  }

  /** A call hands out at most four retests, and fewer only if no retest that is due is left. */
  lemma FourOrAllDue(s: State, now: int, popped: seq<Retest>)
    requires Enabled(s, Get(now, popped))
    ensures |HandedOut(popped, s.failing)| <= 4
    ensures |HandedOut(popped, s.failing)| < 4 ==> forall e | e in Apply(s, Get(now, popped)).queue :: e.at > now
  {
  }

  lemma {:induction false} HandsOutFailing(popped: seq<Retest>, failing: set<Key>, h: (Key, int))
    requires h in HandedOut(popped, failing)
    ensures h.0 in failing && exists e :: e in popped && e.pk == h.0 && e.failures == h.1
  {
    var e := popped[0];
    assert e in popped;
    if !(e.pk in failing && h == (e.pk, e.failures)) {
      HandsOutFailing(popped[1..], failing, h);
    }
  }

  lemma {:induction false} NotHandedOut(s: State, ops: seq<Op>, pk: Key, popped: seq<Retest>)
    requires pk !in s.failing && forall op | op in ops :: op.Add? ==> op.retest.pk != pk
    ensures pk !in Run(s, ops).failing && pk !in Keys(HandedOut(popped, Run(s, ops).failing))
    decreases |ops|
  {
    if ops == [] {
      forall h | h in HandedOut(popped, s.failing)
        ensures h.0 != pk
      {
        HandsOutFailing(popped, s.failing, h);
      }
    } else {
      assert ops[0] in ops;
      NotHandedOut(Apply(s, ops[0]), ops[1..], pk, popped);
    }
  }

  /** A node that is dropped is not handed out until it is added again, whatever is queued for it. */
  lemma DroppedStaysOut(s: State, ops: seq<Op>, pk: Key, popped: seq<Retest>)
    requires forall op | op in ops :: op.Add? ==> op.retest.pk != pk
    ensures pk !in Keys(HandedOut(popped, Run(Apply(s, Remove(pk)), ops).failing))
  {
    NotHandedOut(Apply(s, Remove(pk)), ops, pk, popped);
  }

  function Added(ops: seq<Op>): multiset<Retest>
  {
    if ops == [] then multiset{}
    else (if ops[0].Add? then multiset{ops[0].retest} else multiset{}) + Added(ops[1..])
  }

  function Taken(ops: seq<Op>): multiset<Retest>
  {
    if ops == [] then multiset{}
    else (if ops[0].Get? then multiset(ops[0].popped) else multiset{}) + Taken(ops[1..])
  }

  lemma {:induction false} RetestIsConserved(s: State, ops: seq<Op>, e: Retest)
    requires Legal(s, ops)
    ensures s.queue[e] + Added(ops)[e] == Run(s, ops).queue[e] + Taken(ops)[e]
    decreases |ops|
  {
    if ops != [] {
      hide Popped, TakesEnough, HandedOut;
      RetestIsConserved(Apply(s, ops[0]), ops[1..], e);
    }
  }

  /** Every retest ever added is still queued or was taken off exactly once. */
  lemma RetestsAreConserved(ops: seq<Op>)
    requires Legal(START, ops)
    ensures Added(ops) == Run(START, ops).queue + Taken(ops)
  {
    hide Legal, Run, Added, Taken;
    forall e {
      RetestIsConserved(START, ops, e);
    }
  }

  /** A node that is dropped and added again has two retests queued, and can be handed out twice in one call. */
  lemma HandedOutTwice(pk: Key, now: int, f: int)
    ensures
      var e := Retest(pk, now, f);
      var s := Apply(Apply(Apply(START, Add(e)), Remove(pk)), Add(e));
      Enabled(s, Get(now, [e, e])) && HandedOut([e, e], s.failing) == [(pk, f), (pk, f)]
  {
    var e := Retest(pk, now, f);
    var s := Apply(Apply(Apply(START, Add(e)), Remove(pk)), Add(e));
    assert [e, e][1..] == [e] && HandedOut([e], s.failing) == [(pk, f)];
    assert s.queue == multiset{e, e} == multiset([e, e]);
    assert s.queue - multiset([e, e]) == multiset{};
    assert forall x | x in [e, e] :: x == e;
  }

  // --------------------------------------------------------------------- general tests

  predicate Testable(pk: Key, me: Key, failing: set<Key>)
  {
    pk != me && pk !in failing
  }

  /** Nodes come off the back of the list until one can be tested. */
  function Draw(queue: seq<Key>, me: Key, failing: set<Key>): (Option<Key>, seq<Key>)
  {
    if queue == [] then (None, [])
    else
      var rest := queue[..|queue| - 1];
      var pk := queue[|queue| - 1];
      if Testable(pk, me, failing) then (Some(pk), rest) else Draw(rest, me, failing)
  }

  /** The list, and when the next general test may start. */
  datatype General = General(queue: seq<Key>, next: int)

  /** `next_random`; `order` is the shuffled whitelist, the intervals are those of the call and of its retry. */
  function NextRandom(g: General, me: Key, failing: set<Key>, now: int, order: seq<Key>, interval: int, again: int,
        requeue: bool)
    : (Option<Key>, General)
    decreases requeue
  {
    if g.next > now then (None, g)
    else
      var (pk, rest) := Draw(g.queue, me, failing);
      if pk.Some? || !requeue then (pk, General(rest, now + interval))
      else NextRandom(General(order, now + interval), me, failing, now, order, again, again, false)
  }

  /** What is drawn can be tested, and everything skipped on the way to it cannot. */
  lemma {:induction false} DrawIsSound(queue: seq<Key>, me: Key, failing: set<Key>)
    ensures
      var (pk, rest) := Draw(queue, me, failing);
      && rest <= queue
      && (pk.Some? <==> exists k :: k in queue && Testable(k, me, failing))
      && (pk.Some? ==> Testable(pk.value, me, failing) && |rest| < |queue| && queue[|rest|] == pk.value)
      && (forall i | |rest| < i < |queue| :: !Testable(queue[i], me, failing))
      && (pk.None? ==> rest == [])
  {
    if queue != [] {
      var last := queue[|queue| - 1];
      var front := queue[..|queue| - 1];
      assert queue == front + [last];
      if !Testable(last, me, failing) {
        DrawIsSound(front, me, failing);
        assert forall k | k in queue :: k in front || k == last;
      } else {
        assert last in queue;
      }
    }
  }

  /** A node is drawn only if it is not us and not failing; whatever is skipped is us or failing. */
  lemma DrawnCanBeTested(queue: seq<Key>, me: Key, failing: set<Key>)
    ensures
      var (pk, rest) := Draw(queue, me, failing);
      && (pk.Some? ==> pk.value != me && pk.value !in failing)
      && (pk.None? <==> forall k | k in queue :: k == me || k in failing)
      && (forall i | |rest| < i < |queue| :: queue[i] == me || queue[i] in failing)
  {
    DrawIsSound(queue, me, failing);
  }

  /** A call that is due sets the time of the next one; a call before that time draws nothing and changes nothing. */
  lemma TimerExactly(g: General, me: Key, failing: set<Key>, now: int, order: seq<Key>, interval: int, again: int)
    ensures
      var (pk, g') := NextRandom(g, me, failing, now, order, interval, again, true);
      var drawn := Draw(g.queue, me, failing).0;
      if now < g.next then pk == None && g' == g
      else g'.next == now + if drawn.Some? || interval > 0 then interval else again
  {
  }

  /**
    The call that finds the list used up fills it and tries again, but the time it has just set makes
    the second try come back at once: a node is drawn if and only if the interval is not positive.
  */
  lemma RefillDrawsExactly(g: General, me: Key, failing: set<Key>, now: int, order: seq<Key>, interval: int, again: int)
    requires g.next <= now && forall k | k in g.queue :: !Testable(k, me, failing)
    requires exists k :: k in order && Testable(k, me, failing)
    ensures NextRandom(g, me, failing, now, order, interval, again, true).0.Some? <==> interval <= 0
    ensures interval > 0 ==>
      NextRandom(g, me, failing, now, order, interval, again, true).1 == General(order, now + interval)
  {
    DrawIsSound(g.queue, me, failing);
    DrawIsSound(order, me, failing);
  }

  // ----------------------------------------------------------------------- the object

  class Testing {
    var testingQueue: seq<Key>
    var nextGeneralTest: int
    var failingQueue: multiset<Retest>
    var failing: set<Key>

    constructor (start: int)
      ensures testingQueue == [] && nextGeneralTest == start && failingQueue == multiset{} && failing == {}
    {
      testingQueue, nextGeneralTest := [], start;
      failingQueue, failing := multiset{}, {};
    }

    /** At most four due retests, in time order; fewer only if nothing due is left. */
    method GetFailing(now: int) returns (result: seq<(Key, int)>, ghost popped: seq<Retest>)
      modifies this`failingQueue
      ensures result == HandedOut(popped, failing)
      ensures Popped(old(failingQueue), popped, failingQueue, now) && TakesEnough(popped, failing, failingQueue, now)
    {
      result, popped := [], [];
      PoppedNothing(failingQueue, failing, now);
      hide Popped, Collected, TakesEnough;
      while |result| < MAX_RETESTS_PER_TICK && failingQueue != multiset{}
        invariant Collected(result, popped, failing)
        invariant Popped(old(failingQueue), popped, failingQueue, now)
        decreases |failingQueue|
      {
        ghost var before := failingQueue;
        var top := PopDue(now);
        if top.None? {
          NothingDue(result, popped, failing, failingQueue, now);
          return;
        }
        PoppedMore(old(failingQueue), popped, before, now, top.value);
        CollectedMore(result, popped, failing, top.value);
        if top.value.pk in failing {
          result := result + [(top.value.pk, top.value.failures)];
        }
        popped := popped + [top.value];
      }
      EnoughOrEmpty(result, popped, failing, failingQueue, now);
    }

    /** Takes the top off the priority queue if it is due; among retests of the same time, any can be the top. */
    method PopDue(now: int) returns (top: Option<Retest>)
      requires failingQueue != multiset{}
      modifies this`failingQueue
      ensures top.None? ==> failingQueue == old(failingQueue) && forall f | f in failingQueue :: f.at > now
      ensures top.Some? ==>
        && top.value in old(failingQueue) && top.value.at <= now
        && (forall f | f in old(failingQueue) :: top.value.at <= f.at)
        && failingQueue == old(failingQueue) - multiset{top.value} && |failingQueue| < |old(failingQueue)|
    {
      assert exists e :: e in failingQueue && forall f | f in failingQueue :: e.at <= f.at by {
        var _ := EarliestExists(failingQueue);
      }
      var e :| e in failingQueue && forall f | f in failingQueue :: e.at <= f.at;
      if e.at > now {
        return None;
      }
      failingQueue := failingQueue - multiset{e};
      return Some(e);
    }

    /** `now` and `interval` are what the clock and the generator give. */
    method AddFailingNode(pk: Key, previousFailures: int, now: int, interval: int)
      modifies this`failing, this`failingQueue
      ensures
        var previous := if previousFailures < 0 then 0 else previousFailures;
        && failing == old(failing) + {pk}
        && failingQueue == old(failingQueue) + multiset{Retest(pk, NextTest(now, previous, interval), previous + 1)}
    {
      var previous := if previousFailures < 0 then 0 else previousFailures;
      failing := failing + {pk};
      var retest := Retest(pk, NextTest(now, previous, interval), previous + 1);
      failingQueue := failingQueue + multiset{retest};
    }

    method RemoveNodeFromFailing(pk: Key)
      modifies this`failing
      ensures failing == old(failing) - {pk}
    {
      failing := failing - {pk};
    }

    method NextRandomNode(me: Key, now: int, order: seq<Key>, interval: int, again: int, requeue: bool)
      returns (pk: Option<Key>)
      modifies this`testingQueue, this`nextGeneralTest
      ensures
        var before := General(old(testingQueue), old(nextGeneralTest));
        var (drawn, g) := NextRandom(before, me, failing, now, order, interval, again, requeue);
        pk == drawn && testingQueue == g.queue && nextGeneralTest == g.next
      decreases requeue
    {
      if nextGeneralTest > now {
        return None;
      }
      nextGeneralTest := now + interval;
      while testingQueue != []
        invariant nextGeneralTest == now + interval
        invariant Draw(testingQueue, me, failing) == Draw(old(testingQueue), me, failing)
        decreases |testingQueue|
      {
        var last := testingQueue[|testingQueue| - 1];
        testingQueue := testingQueue[..|testingQueue| - 1];
        if last != me && last !in failing {
          return Some(last);
        }
      }
      if !requeue {
        return None;
      }
      testingQueue := order;
      pk := NextRandomNode(me, now, order, again, again, false);
    }
  }
}
