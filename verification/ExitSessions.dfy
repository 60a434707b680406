/**
  The exit endpoint's sessions to master nodes, beside its address pool. A session captures the address
  its node had when the session was made; unlike an exit it is not dropped when the node loses that
  address.
*/
module ExitSessions {
  import opened ExitAllocator

  /** The keys of known master nodes, and the sessions made to them with the addresses they captured. */
  datatype MasterNodes = MasterNodes(keys: set<PubKey>, sessions: map<PubKey, Ip>)

  /** `ObtainMasterNodeIP`: a session is made the first time a key is seen. */
  function ObtainMasterNode(c: Config, p: Pool, m: MasterNodes, pk: PubKey, now: nat): (Pool, MasterNodes, Ip)
  {
    if pk == c.us then (p, m, c.ifAddr)
    else
      var (q, ip) := Obtain(c, p, pk, now);
      (q, if pk in m.keys then m else MasterNodes(m.keys + {pk}, m.sessions[pk := ip]), ip)
  }

  /** Captured addresses are the current ones. */
  ghost predicate SessionsCurrent(p: Pool, m: MasterNodes)
  {
    forall pk | pk in m.sessions :: pk in p.keyToIp && p.keyToIp[pk] == m.sessions[pk]
  }

  /** Handing an address to `pk` takes the zero address from an identity that has a session. */
  predicate EvictsSession(c: Config, p: Pool, m: MasterNodes, pk: PubKey)
  {
    Newcomer(p, pk) && Full(c, p) && 0 in p.ipToKey && p.ipToKey[0] in m.sessions
  }

  /** Handing out an address keeps the captured ones right if and only if it evicts nobody with a session. */
  lemma ObtainKeepsSessionsExactly(c: Config, p: Pool, m: MasterNodes, pk: PubKey, now: nat)
    requires Sound(c, p) && SessionsCurrent(p, m)
    ensures SessionsCurrent(Obtain(c, p, pk, now).0, m) <==> !EvictsSession(c, p, m, pk)
  {
    if Newcomer(p, pk) {
      NewcomerAddressExactly(c, p, pk, now);
      hide Obtain, Sound;
      if EvictsSession(c, p, m, pk) {
        LosesAddressExactly(c, p, pk, now, p.ipToKey[0]);
      }
    }
  }

  // ---------------------------------------------------------------------- whole runs

  datatype State = State(pool: Pool, nodes: MasterNodes)

  /** An operation on the pool may open an exit for a router, whose key then counts as a master node's. */
  datatype Event =
    | Resolve(pk: PubKey, now: nat)
    | Operate(op: Op, fromRouter: bool)
    | Drop(expired: set<PubKey>)

  function Begun(c: Config): State
  {
    State(Started(c), MasterNodes({c.us}, map[]))
  }

  function Next(c: Config, s: State, e: Event): State
  {
    match e
    case Resolve(pk, now) =>
      var (p, m, _) := ObtainMasterNode(c, s.pool, s.nodes, pk, now);
      State(p, m)
    case Operate(op, fromRouter) =>
      var keys := if op.Open? && fromRouter then {op.pk} else {};
      State(Apply(c, s.pool, op), MasterNodes(s.nodes.keys + keys, s.nodes.sessions))
    case Drop(expired) => s.(nodes := MasterNodes(s.nodes.keys, s.nodes.sessions - expired))
  }

  function After(c: Config, s: State, events: seq<Event>): State
    decreases |events|
  {
    if events == [] then s else After(c, Next(c, s, events[0]), events[1..])
  }

  /** Identities are not the zero key. */
  predicate AllNamed(events: seq<Event>)
  {
    forall e | e in events :: EventNamed(e)
  }

  predicate EventNamed(e: Event)
  {
    match e
    case Resolve(pk, _) => pk != 0
    case Operate(op, _) => Named(op)
    case Drop(_) => true
  }

  /** The event evicts an identity that has a session. */
  predicate Strands(c: Config, s: State, e: Event)
  {
    match e
    case Resolve(pk, _) => pk != c.us && EvictsSession(c, s.pool, s.nodes, pk)
    case Operate(op, _) => Asks(op) && EvictsSession(c, s.pool, s.nodes, op.pk)
    case Drop(_) => false
  }

  predicate NeverStrands(c: Config, s: State, events: seq<Event>)
    decreases |events|
  {
    events == [] || (!Strands(c, s, events[0]) && NeverStrands(c, Next(c, s, events[0]), events[1..]))
  }

  /** Captured addresses are the current ones at every point of a run. */
  ghost predicate AlwaysCurrent(c: Config, s: State, events: seq<Event>)
    decreases |events|
  {
    && SessionsCurrent(s.pool, s.nodes)
    && (events == [] || AlwaysCurrent(c, Next(c, s, events[0]), events[1..]))
  }

  /** Every hook is called by a session that is in the table. */
  predicate HooksHeld(c: Config, s: State, events: seq<Event>)
    decreases |events|
  {
    events == [] || (HookHeld(s, events[0]) && HooksHeld(c, Next(c, s, events[0]), events[1..]))
  }

  predicate HookHeld(s: State, e: Event)
  {
    e.Operate? && e.op.Ready? ==> e.op.pk in s.nodes.sessions
  }

  ghost predicate SoundState(c: Config, s: State)
  {
    Sound(c, s.pool) && s.nodes.sessions.Keys <= s.nodes.keys
  }

  /** Whichever event it is, captured addresses stay right if and only if it evicts no identity that has a session. */
  lemma SessionsCurrentExactly(c: Config, s: State, e: Event)
    requires SoundState(c, s) && SessionsCurrent(s.pool, s.nodes) && EventNamed(e)
    ensures var t := Next(c, s, e); SessionsCurrent(t.pool, t.nodes) <==> !Strands(c, s, e)
  {
    hide Sound, Good, Obtain, EvictsSession;
    match e
    case Resolve(pk, now) =>
      if pk != c.us {
        ObtainKeepsSessionsExactly(c, s.pool, s.nodes, pk, now);
        SoundObtain(c, s.pool, pk, now);
      }
    case Operate(op, _) =>
      if Asks(op) {
        ObtainKeepsSessionsExactly(c, s.pool, s.nodes, op.pk, op.now);
      }
    case Drop(_) =>
  }

  lemma SoundNext(c: Config, s: State, e: Event)
    requires SoundState(c, s) && EventNamed(e)
    ensures SoundState(c, Next(c, s, e))
  {
    hide Sound, Good, Obtain, Apply;
    match e
    case Resolve(pk, now) =>
      if pk != c.us {
        SoundObtain(c, s.pool, pk, now);
      }
    case Operate(op, _) =>
      SoundStep(c, s.pool, op);
    case Drop(_) =>
  }

  /** While captured addresses are right, a hook called by a session finds its identity mapped. */
  lemma GoodNext(c: Config, s: State, e: Event)
    requires Good(c, s.pool) && SessionsCurrent(s.pool, s.nodes) && EventNamed(e) && HookHeld(s, e)
    ensures Good(c, Next(c, s, e).pool)
  {
    assert Sound(c, s.pool);
    hide Sound, Good, Obtain, Apply;
    match e
    case Resolve(pk, now) =>
      if pk != c.us {
        SoundObtain(c, s.pool, pk, now);
      }
    case Operate(op, _) =>
      GoodStep(c, s.pool, op);
    case Drop(_) =>
  }

  lemma AllNamedSplit(events: seq<Event>)
    requires events != [] && AllNamed(events)
    ensures EventNamed(events[0]) && AllNamed(events[1..])
  {
    assert events[0] in events;
  }

  /** Over every run, captured addresses are right throughout if and only if no event evicts one with a session. */
  lemma {:induction false} SessionsThroughoutExactly(c: Config, s: State, events: seq<Event>)
    requires SoundState(c, s) && SessionsCurrent(s.pool, s.nodes) && AllNamed(events)
    ensures AlwaysCurrent(c, s, events) <==> NeverStrands(c, s, events)
    decreases |events|
  {
    hide SoundState, SessionsCurrent, Next, Strands;
    if events != [] {
      AllNamedSplit(events);
      SessionsCurrentExactly(c, s, events[0]);
      SoundNext(c, s, events[0]);
      if !Strands(c, s, events[0]) {
        SessionsThroughoutExactly(c, Next(c, s, events[0]), events[1..]);
      }
    }
  }

  /** Then, with hooks called by sessions only, no hook comes late. */
  lemma {:induction false} CurrentSessionsKeepGood(c: Config, s: State, events: seq<Event>)
    requires Good(c, s.pool) && AlwaysCurrent(c, s, events) && AllNamed(events) && HooksHeld(c, s, events)
    ensures Good(c, After(c, s, events).pool)
    decreases |events|
  {
    hide Good, SessionsCurrent, Next, HookHeld;
    if events != [] {
      AllNamedSplit(events);
      GoodNext(c, s, events[0]);
      CurrentSessionsKeepGood(c, Next(c, s, events[0]), events[1..]);
    }
  }

  /**
    Over every run from the start, captured addresses are right throughout if and only if no event evicts an
    identity that has a session; and then, with hooks called by sessions only, the maps stay inverse to each
    other and exits isolated.
  */
  lemma SessionsStayCurrentExactly(c: Config, events: seq<Event>)
    requires ConfigOk(c) && AllNamed(events)
    ensures AlwaysCurrent(c, Begun(c), events) <==> NeverStrands(c, Begun(c), events)
    ensures
      NeverStrands(c, Begun(c), events) && HooksHeld(c, Begun(c), events) ==>
      var p := After(c, Begun(c), events).pool; Inverse(p.keyToIp, p.ipToKey) && ExitsCurrent(p.keyToIp, p.active)
  {
    GoodStarted(c);
    SessionsThroughoutExactly(c, Begun(c), events);
    if NeverStrands(c, Begun(c), events) && HooksHeld(c, Begun(c), events) {
      CurrentSessionsKeepGood(c, Begun(c), events);
    }
  }

  /** The address a request returns is the one its identity is mapped to from then on. */
  lemma ResolvedIsMapped(c: Config, p: Pool, m: MasterNodes, pk: PubKey, now: nat)
    requires Sound(c, p) && OwnMapped(c, p) && pk != 0
    ensures
      var (q, _, ip) := ObtainMasterNode(c, p, m, pk, now);
      pk in q.keyToIp && q.keyToIp[pk] == ip
  {
    hide Obtain, Sound, Good;
    SoundObtain(c, p, pk, now);
  }

  /** When a session is made and when it goes, and when a key becomes known. */
  lemma SessionsExactly(c: Config, s: State, e: Event, pk: PubKey)
    ensures
      var t := Next(c, s, e);
      && (pk in t.nodes.sessions <==>
            || (pk in s.nodes.sessions && !(e.Drop? && pk in e.expired))
            || (e.Resolve? && e.pk == pk && pk != c.us && pk !in s.nodes.keys))
      && (pk in t.nodes.keys <==>
            || pk in s.nodes.keys || (e.Resolve? && e.pk == pk && pk != c.us)
            || (e.Operate? && e.fromRouter && e.op.Open? && e.op.pk == pk))
  {
    hide Obtain, Apply;
  }

  /** A known node without a session, be it expired or its own caller, never gets one again. */
  lemma {:induction false} NoSecondSession(c: Config, s: State, events: seq<Event>, pk: PubKey)
    requires pk in s.nodes.keys && pk !in s.nodes.sessions
    ensures pk in After(c, s, events).nodes.keys && pk !in After(c, s, events).nodes.sessions
    decreases |events|
  {
    hide Next;
    if events != [] {
      SessionsExactly(c, s, events[0], pk);
      NoSecondSession(c, Next(c, s, events[0]), events[1..], pk);
    }
  }

  /**
    It happens: with two addresses, the third master node takes the zero address of the second, whose session
    goes on using what is now another identity's address.
  */
  lemma SessionKeepsTakenAddress()
    ensures
      var c := Config(7, 1, 2);
      var s := After(c, Begun(c), [Resolve(8, 1), Resolve(9, 2), Resolve(10, 3)]);
      && ConfigOk(c) && 10 in s.pool.keyToIp && 9 in s.nodes.sessions
      && s.nodes.sessions[9] == 0 == s.pool.keyToIp[10] && 9 !in s.pool.keyToIp
  {
    var c := Config(7, 1, 2);
    var a, b, d := Resolve(8, 1), Resolve(9, 2), Resolve(10, 3);
    var s := State(Pool(map[7 := 1, 8 := 2], map[1 := 7, 2 := 8], map[1 := 0, 2 := 1], 2, map[]),
                   MasterNodes({7, 8}, map[8 := 2]));
    assert Next(c, Begun(c), a) == s;
    SecondAndThird(c, s);
    hide Next;
    AfterThree(c, Begun(c), a, b, d);
  }

  lemma AfterThree(c: Config, s: State, a: Event, b: Event, d: Event)
    ensures After(c, s, [a, b, d]) == Next(c, Next(c, Next(c, s, a), b), d)
  {
    hide Next;
    assert [a, b, d][1..] == [b, d] && [b, d][1..] == [d] && [d][1..] == [];
    var t := Next(c, Next(c, s, a), b);
    assert After(c, t, [d]) == Next(c, t, d);
  }

  lemma SecondAndThird(c: Config, s: State)
    requires c == Config(7, 1, 2) && s.nodes == MasterNodes({7, 8}, map[8 := 2])
    requires s.pool == Pool(map[7 := 1, 8 := 2], map[1 := 7, 2 := 8], map[1 := 0, 2 := 1], 2, map[])
    ensures
      var t := Next(c, Next(c, s, Resolve(9, 2)), Resolve(10, 3));
      && 10 in t.pool.keyToIp && 9 in t.nodes.sessions
      && t.nodes.sessions[9] == 0 == t.pool.keyToIp[10] && 9 !in t.pool.keyToIp
  {
    SecondNewcomer(c);
  }
}
