/**
  The exit endpoint's address pool. Identities get addresses of one range. When the range is used up the
  source searches for the address that was used longest ago, to take it from its identity. The search
  starts from `std::numeric_limits<llarp_time_t>::max()`; that template is not specialised for durations,
  so the value is a default one, 0 ms, and the search finds nothing: a newcomer to a full pool gets the
  zero address and takes it from whoever has it.

  Identities and addresses are numbers; 0 is the zero key and the zero address that `operator[]` and
  an unset `huint128_t` produce. The functions spell out what the source's map operations do in every
  state, also where a key is missing.
*/
module ExitAllocator {

  type PubKey = nat
  type Ip = nat

  /** What the source takes for the largest time. */
  const MAX_TIME: nat := 0

  /** A live exit caches the address it was given. */
  datatype Exit = Exit(ip: Ip, path: nat)

  datatype Config = Config(us: PubKey, ifAddr: Ip, highest: Ip)

  /** The range starts at our own address; neither it nor our key is zero. */
  predicate ConfigOk(c: Config)
  {
    0 < c.ifAddr <= c.highest && c.us != 0
  }

  datatype Pool = Pool(
    keyToIp: map<PubKey, Ip>,
    ipToKey: map<Ip, PubKey>,
    activity: map<Ip, nat>,
    next: Ip,
    active: map<PubKey, seq<Exit>>)

  /** `Configure` and `Start`. */
  function Started(c: Config): Pool
  {
    Pool(map[c.us := c.ifAddr], map[c.ifAddr := c.us], map[c.ifAddr := MAX_TIME], c.ifAddr, map[])
  }

  function ExitsOf(p: Pool, pk: PubKey): seq<Exit>
  {
    if pk in p.active then p.active[pk] else []
  }

  /** `KickIdentOffExit`. */
  function Kick(p: Pool, pk: PubKey): Pool
  {
    var ip := if pk in p.keyToIp then p.keyToIp[pk] else 0;
    p.(keyToIp := p.keyToIp - {pk}, ipToKey := p.ipToKey - {ip}, active := p.active - {pk})
  }

  /** `AllocateNewAddress`: with the range used up, the search comes up with the zero address. */
  function Allocate(c: Config, p: Pool): (Pool, Ip)
  {
    if p.next < c.highest then (p.(next := p.next + 1), p.next + 1)
    else
      var pk := if 0 in p.ipToKey then p.ipToKey[0] else 0;
      (Kick(p.(ipToKey := p.ipToKey[0 := pk]), pk), 0)
  }

  /** `GetIPForIdent`. */
  function Obtain(c: Config, p: Pool, pk: PubKey, now: nat): (Pool, Ip)
  {
    if pk in p.keyToIp then
      (p.(activity := p.activity[p.keyToIp[pk] := now]), p.keyToIp[pk])
    else
      var (q, ip) := Allocate(c, p);
      (q.(keyToIp := q.keyToIp[pk := ip],
          ipToKey := if ip in q.ipToKey then q.ipToKey else q.ipToKey[ip := pk],
          activity := if ip in q.ipToKey then q.activity else q.activity[ip := now]), ip)
  }

  /** `AllocateNewExit` once the path is known. */
  function NewExit(c: Config, p: Pool, pk: PubKey, path: nat, now: nat): Pool
  {
    var (q, ip) := Obtain(c, p, pk, now);
    q.(active := q.active[pk := ExitsOf(q, pk) + [Exit(ip, path)]])
  }

  function Keep(exits: seq<Exit>, expired: set<nat>): seq<Exit>
  {
    if exits == [] then []
    else (if exits[0].path in expired then [] else [exits[0]]) + Keep(exits[1..], expired)
  }

  lemma {:induction false} KeepContents(exits: seq<Exit>, expired: set<nat>, e: Exit)
    ensures e in Keep(exits, expired) <==> e in exits && e.path !in expired
  {
    if exits != [] {
      KeepContents(exits[1..], expired, e);
    }
  }

  /** The expiry loop of `Tick`: exits whose path has expired go. */
  function ExpireExits(p: Pool, expired: set<nat>): Pool
  {
    p.(active := map pk | pk in p.active :: Keep(p.active[pk], expired))
  }

  function WithoutFirst(exits: seq<Exit>, path: nat): seq<Exit>
  {
    if exits == [] then []
    else if exits[0].path == path then exits[1..]
    else [exits[0]] + WithoutFirst(exits[1..], path)
  }

  lemma {:induction false} WithoutFirstContents(exits: seq<Exit>, path: nat, e: Exit)
    requires e in WithoutFirst(exits, path)
    ensures e in exits
  {
    if exits[0].path != path && e != exits[0] {
      WithoutFirstContents(exits[1..], path, e);
    }
  }

  /** `RemoveExit`: the identity's first exit on that path goes. */
  function RemoveExit(p: Pool, pk: PubKey, path: nat): Pool
  {
    if pk in p.active then p.(active := p.active[pk := WithoutFirst(p.active[pk], path)]) else p
  }

  /**
    What a DNS answer does once the session it waited for is ready: `operator[]` on the map of identities,
    which maps a missing one to the zero address.
  */
  function ReadyHook(p: Pool, pk: PubKey): (Pool, Ip)
  {
    if pk in p.keyToIp then (p, p.keyToIp[pk]) else (p.(keyToIp := p.keyToIp[pk := 0]), 0)
  }

  // ------------------------------------------------------------------ the invariant

  /** Every address is held by an identity that is mapped to it. */
  ghost predicate HoldersMapped(keyToIp: map<PubKey, Ip>, ipToKey: map<Ip, PubKey>)
  {
    forall ip | ip in ipToKey :: ipToKey[ip] in keyToIp && keyToIp[ipToKey[ip]] == ip
  }

  ghost predicate Inverse(keyToIp: map<PubKey, Ip>, ipToKey: map<Ip, PubKey>)
  {
    && (forall pk | pk in keyToIp :: keyToIp[pk] in ipToKey && ipToKey[keyToIp[pk]] == pk)
    && HoldersMapped(keyToIp, ipToKey)
  }

  /** The maps are inverse to each other, but for the zero address. */
  ghost predicate InverseBut0(keyToIp: map<PubKey, Ip>, ipToKey: map<Ip, PubKey>)
  {
    && (forall pk | pk in keyToIp && keyToIp[pk] != 0 :: keyToIp[pk] in ipToKey && ipToKey[keyToIp[pk]] == pk)
    && HoldersMapped(keyToIp, ipToKey)
  }

  /** Each live exit's address is the current address of its identity. */
  ghost predicate ExitsCurrent(keyToIp: map<PubKey, Ip>, active: map<PubKey, seq<Exit>>)
  {
    forall pk | pk in active :: pk in keyToIp && forall e | e in active[pk] :: e.ip == keyToIp[pk]
  }

  /**
    The addresses handed out are held, and so may be the zero address once the range is used up. Each has
    an activity time.
  */
  ghost predicate Tracked(c: Config, next: Ip, ipToKey: map<Ip, PubKey>, activity: map<Ip, nat>)
  {
    && c.ifAddr <= next <= c.highest
    && (forall ip | ip in ipToKey :: (ip == 0 && next == c.highest) || c.ifAddr <= ip <= next)
    && (forall ip | c.ifAddr <= ip <= next :: ip in ipToKey)
    && ipToKey.Keys <= activity.Keys
  }

  /** What holds after every run. */
  ghost predicate Sound(c: Config, p: Pool)
  {
    && ConfigOk(c) && 0 !in p.keyToIp
    && InverseBut0(p.keyToIp, p.ipToKey)
    && ExitsCurrent(p.keyToIp, p.active)
    && Tracked(c, p.next, p.ipToKey, p.activity)
  }

  /** What holds as long as every hook finds its identity mapped. */
  ghost predicate Good(c: Config, p: Pool)
  {
    Sound(c, p) && Inverse(p.keyToIp, p.ipToKey) && p.activity.Keys == p.ipToKey.Keys
  }

  lemma GoodStarted(c: Config)
    requires ConfigOk(c)
    ensures Good(c, Started(c))
  {
  }

  lemma SoundStarted(c: Config)
    requires ConfigOk(c)
    ensures Sound(c, Started(c))
  {
    GoodStarted(c);
  }

  // ------------------------------------------------------------- handing out an address

  predicate Newcomer(p: Pool, pk: PubKey)
  {
    pk !in p.keyToIp
  }

  predicate Full(c: Config, p: Pool)
  {
    p.next >= c.highest
  }

  /** Whoever holds the zero address. */
  function ZeroHolder(p: Pool): set<PubKey>
  {
    if 0 in p.ipToKey then {p.ipToKey[0]} else {}
  }

  /** The pool after a newcomer got an address. */
  function Admitted(c: Config, p: Pool, pk: PubKey, now: nat): Pool
  {
    if Full(c, p) then
      Pool(
        (p.keyToIp - ZeroHolder(p))[pk := 0], p.ipToKey[0 := pk], p.activity[0 := now], p.next,
        p.active - ZeroHolder(p))
    else
      var ip := p.next + 1;
      Pool(p.keyToIp[pk := ip], p.ipToKey[ip := pk], p.activity[ip := now], ip, p.active)
  }

  /**
    A newcomer gets an address of the range if and only if the range is not used up, and the zero address
    otherwise; then whoever held that loses it with all exits, and nobody else loses anything.
  */
  lemma NewcomerAddressExactly(c: Config, p: Pool, pk: PubKey, now: nat)
    requires Sound(c, p) && Newcomer(p, pk)
    ensures
      var (q, ip) := Obtain(c, p, pk, now);
      && (c.ifAddr <= ip <= c.highest <==> !Full(c, p)) && (Full(c, p) ==> ip == 0)
      && ip !in p.ipToKey - {0} && q == Admitted(c, p, pk, now)
  {
    if Full(c, p) {
      if 0 in p.ipToKey {
        assert p.ipToKey[0 := p.ipToKey[0]] == p.ipToKey;
      } else {
        assert 0 !in p.active;
        assert p.ipToKey[0 := 0] - {0} == p.ipToKey && p.keyToIp - {} == p.keyToIp && p.active - {} == p.active;
        assert p.keyToIp - {0} == p.keyToIp && p.active - {0} == p.active;
      }
      assert (p.ipToKey - {0})[0 := pk] == p.ipToKey[0 := pk];
    } else {
      assert p.next + 1 !in p.ipToKey;
    }
  }

  /** An identity loses its address if and only if it holds the zero address and a newcomer meets a full pool. */
  lemma LosesAddressExactly(c: Config, p: Pool, pk: PubKey, now: nat, loser: PubKey)
    requires Sound(c, p) && loser in p.keyToIp
    ensures
      loser !in Obtain(c, p, pk, now).0.keyToIp <==>
      Newcomer(p, pk) && Full(c, p) && 0 in p.ipToKey && p.ipToKey[0] == loser
  {
    if Newcomer(p, pk) {
      hide Obtain, Sound;
      NewcomerAddressExactly(c, p, pk, now);
    }
  }

  /** `ip` was used longest ago. */
  ghost predicate LeastActive(p: Pool, ip: Ip)
  {
    ip in p.activity && forall a | a in p.activity :: p.activity[ip] <= p.activity[a]
  }

  /** What the search is for: `pk` took the place of an identity whose address was used longest ago. */
  ghost predicate TookLeastActive(p: Pool, q: Pool, pk: PubKey)
  {
    exists ip :: LeastActive(p, ip) && ip in p.ipToKey && q.keyToIp == (p.keyToIp - {p.ipToKey[ip]})[pk := ip]
  }

  /**
    A newcomer to a full pool takes the place of a least active identity if and only if the zero address is
    held and was used longest ago.
  */
  lemma TakesLeastActiveExactly(c: Config, p: Pool, pk: PubKey, now: nat)
    requires Sound(c, p) && Newcomer(p, pk) && Full(c, p)
    ensures TookLeastActive(p, Obtain(c, p, pk, now).0, pk) <==> 0 in p.ipToKey && LeastActive(p, 0)
  {
    hide Obtain, Sound, LeastActive;
    NewcomerAddressExactly(c, p, pk, now);
    var q := Obtain(c, p, pk, now).0;
    assert q.keyToIp[pk] == 0;
    if 0 in p.ipToKey && LeastActive(p, 0) {
      assert q.keyToIp == (p.keyToIp - {p.ipToKey[0]})[pk := 0];
    }
  }

  // -------------------------------------------------------------- one step keeps it

  lemma SoundAdmitted(c: Config, p: Pool, pk: PubKey, now: nat)
    requires Sound(c, p) && Newcomer(p, pk) && pk != 0
    ensures Sound(c, Admitted(c, p, pk, now))
  {
    AdmittedInverse(c, p, pk, now);
    AdmittedExits(c, p, pk, now);
    AdmittedTracked(c, p, pk, now);
    hide InverseBut0, ExitsCurrent, Tracked;
  }

  lemma AdmittedInverse(c: Config, p: Pool, pk: PubKey, now: nat)
    requires InverseBut0(p.keyToIp, p.ipToKey) && Newcomer(p, pk) && (Full(c, p) || p.next + 1 !in p.ipToKey)
    ensures var q := Admitted(c, p, pk, now); InverseBut0(q.keyToIp, q.ipToKey)
  {
  }

  lemma AdmittedExits(c: Config, p: Pool, pk: PubKey, now: nat)
    requires ExitsCurrent(p.keyToIp, p.active) && Newcomer(p, pk)
    ensures var q := Admitted(c, p, pk, now); ExitsCurrent(q.keyToIp, q.active)
  {
  }

  lemma AdmittedTracked(c: Config, p: Pool, pk: PubKey, now: nat)
    requires Tracked(c, p.next, p.ipToKey, p.activity)
    ensures var q := Admitted(c, p, pk, now); Tracked(c, q.next, q.ipToKey, q.activity)
  {
  }

  lemma GoodAdmitted(c: Config, p: Pool, pk: PubKey, now: nat)
    requires Good(c, p) && Newcomer(p, pk) && pk != 0
    ensures Good(c, Admitted(c, p, pk, now))
  {
    SoundAdmitted(c, p, pk, now);
    hide Tracked, ExitsCurrent;
  }

  /** Handing out an address keeps the pool sound or good; the identity ends up mapped to it and active. */
  lemma SoundObtain(c: Config, p: Pool, pk: PubKey, now: nat)
    requires Sound(c, p) && pk != 0
    ensures
      var (q, ip) := Obtain(c, p, pk, now);
      && Sound(c, q) && (Good(c, p) ==> Good(c, q))
      && pk in q.keyToIp && q.keyToIp[pk] == ip && ip in q.activity && q.activity[ip] == now
  {
    if Newcomer(p, pk) {
      hide Sound, Good;
      NewcomerAddressExactly(c, p, pk, now);
      hide Obtain, Inverse;
      SoundAdmitted(c, p, pk, now);
      if Good(c, p) {
        GoodAdmitted(c, p, pk, now);
      }
    }
  }

  lemma SoundNewExit(c: Config, p: Pool, pk: PubKey, path: nat, now: nat)
    requires Sound(c, p) && pk != 0
    ensures Sound(c, NewExit(c, p, pk, path, now)) && (Good(c, p) ==> Good(c, NewExit(c, p, pk, path, now)))
  {
    SoundObtain(c, p, pk, now);
    hide Obtain, Inverse, InverseBut0, Tracked;
  }

  lemma SoundExpireExits(c: Config, p: Pool, expired: set<nat>)
    requires Sound(c, p)
    ensures Sound(c, ExpireExits(p, expired))
  {
    var q := ExpireExits(p, expired);
    forall pk, e | pk in q.active && e in q.active[pk]
      ensures e.ip == p.keyToIp[pk]
    {
      KeepContents(p.active[pk], expired, e);
    }
  }

  lemma SoundRemoveExit(c: Config, p: Pool, pk: PubKey, path: nat)
    requires Sound(c, p)
    ensures Sound(c, RemoveExit(p, pk, path))
  {
    if pk in p.active {
      forall e | e in WithoutFirst(p.active[pk], path)
        ensures e in p.active[pk]
      {
        WithoutFirstContents(p.active[pk], path, e);
      }
    }
  }

  lemma SoundReadyHook(c: Config, p: Pool, pk: PubKey)
    requires Sound(c, p) && pk != 0
    ensures Sound(c, ReadyHook(p, pk).0)
  {
  }

  /** The hook keeps the two maps inverse to each other if and only if its identity is still mapped. */
  lemma ReadyHookExactly(p: Pool, pk: PubKey)
    requires Inverse(p.keyToIp, p.ipToKey)
    ensures var q := ReadyHook(p, pk).0; Inverse(q.keyToIp, q.ipToKey) <==> pk in p.keyToIp
  {
    var q := ReadyHook(p, pk).0;
    if pk !in p.keyToIp {
      assert 0 in p.ipToKey ==> p.ipToKey[0] in p.keyToIp;
      assert pk in q.keyToIp && q.keyToIp[pk] == 0;
    }
  }

  // -------------------------------------------------------------------- the live exits

  /** The place of the first exit on a path. */
  predicate FirstOn(exits: seq<Exit>, path: nat, n: nat)
  {
    n < |exits| && exits[n].path == path && forall i | 0 <= i < n :: exits[i].path != path
  }

  lemma {:induction false} WithoutFirstIs(exits: seq<Exit>, path: nat)
    ensures (forall i | 0 <= i < |exits| :: exits[i].path != path) ==> WithoutFirst(exits, path) == exits
    ensures forall n: nat | FirstOn(exits, path, n) :: WithoutFirst(exits, path) == exits[..n] + exits[n + 1..]
  {
    if exits != [] && exits[0].path != path {
      var rest := exits[1..];
      WithoutFirstIs(rest, path);
      forall n: nat | FirstOn(exits, path, n)
        ensures WithoutFirst(exits, path) == exits[..n] + exits[n + 1..]
      {
        assert FirstOn(rest, path, n - 1);
        assert [exits[0]] + (rest[..n - 1] + rest[n..]) == exits[..n] + exits[n + 1..];
      }
    }
  }

  /** Removing an exit takes the identity's first one on that path, if there is one, and leaves all others. */
  lemma RemovesFirstExactly(p: Pool, pk: PubKey, path: nat, other: PubKey)
    ensures
      var q := RemoveExit(p, pk, path);
      && q == p.(active := q.active) && (other != pk ==> ExitsOf(q, other) == ExitsOf(p, other))
      && ((forall i | 0 <= i < |ExitsOf(p, pk)| :: ExitsOf(p, pk)[i].path != path) ==> ExitsOf(q, pk) == ExitsOf(p, pk))
      && (forall n: nat | FirstOn(ExitsOf(p, pk), path, n) ::
            ExitsOf(q, pk) == ExitsOf(p, pk)[..n] + ExitsOf(p, pk)[n + 1..])
  {
    WithoutFirstIs(ExitsOf(p, pk), path);
    hide WithoutFirst;
  }

  lemma {:induction false} KeepCounts(exits: seq<Exit>, expired: set<nat>, e: Exit)
    ensures multiset(Keep(exits, expired))[e] == if e.path in expired then 0 else multiset(exits)[e]
  {
    if exits != [] {
      assert exits == [exits[0]] + exits[1..];
      KeepCounts(exits[1..], expired, e);
    }
  }

  /** A tick takes exactly the exits on expired paths. */
  lemma ExpiresExactly(p: Pool, expired: set<nat>, pk: PubKey, e: Exit)
    ensures
      var q := ExpireExits(p, expired);
      && q == p.(active := q.active)
      && multiset(ExitsOf(q, pk))[e] == if e.path in expired then 0 else multiset(ExitsOf(p, pk))[e]
  {
    KeepCounts(ExitsOf(p, pk), expired, e);
  }

  /** A new exit is on its identity's address, after the exits it has; only an evicted identity loses its own. */
  lemma OpensExactly(c: Config, p: Pool, pk: PubKey, path: nat, now: nat, other: PubKey)
    requires Sound(c, p) && pk != 0
    ensures
      var q := NewExit(c, p, pk, path, now);
      && pk in q.keyToIp && ExitsOf(q, pk) == ExitsOf(p, pk) + [Exit(q.keyToIp[pk], path)]
      && (other != pk ==>
            var evicted := Newcomer(p, pk) && Full(c, p) && other in ZeroHolder(p);
            ExitsOf(q, other) == if evicted then [] else ExitsOf(p, other))
  {
    SoundObtain(c, p, pk, now);
    if Newcomer(p, pk) {
      NewcomerAddressExactly(c, p, pk, now);
      hide Obtain, Good;
      assert pk !in p.active;
    }
  }

  // ---------------------------------------------------------------------- whole runs

  datatype Op =
    | Ask(pk: PubKey, now: nat)
    | Open(pk: PubKey, path: nat, now: nat)
    | Remove(pk: PubKey, path: nat)
    | Tick(expired: set<nat>)
    | Ready(pk: PubKey)

  function Apply(c: Config, p: Pool, op: Op): Pool
  {
    match op
    case Ask(pk, now) => Obtain(c, p, pk, now).0
    case Open(pk, path, now) => NewExit(c, p, pk, path, now)
    case Remove(pk, path) => RemoveExit(p, pk, path)
    case Tick(expired) => ExpireExits(p, expired)
    case Ready(pk) => ReadyHook(p, pk).0
  }

  function Run(c: Config, p: Pool, ops: seq<Op>): Pool
    decreases |ops|
  {
    if ops == [] then p else Run(c, Apply(c, p, ops[0]), ops[1..])
  }

  /** The operation asks for an address. */
  predicate Asks(op: Op)
  {
    op.Ask? || op.Open?
  }

  /** Identities are not the zero key. */
  predicate Legal(ops: seq<Op>)
  {
    forall op | op in ops :: Named(op)
  }

  predicate Named(op: Op)
  {
    Asks(op) || op.Ready? ==> op.pk != 0
  }

  lemma LegalSplit(ops: seq<Op>)
    requires ops != []
    ensures Legal(ops) <==> Named(ops[0]) && Legal(ops[1..])
  {
    assert ops[0] in ops && forall op | op in ops :: op == ops[0] || op in ops[1..];
  }

  lemma SoundStep(c: Config, p: Pool, op: Op)
    requires Sound(c, p) && Named(op)
    ensures Sound(c, Apply(c, p, op))
  {
    hide Sound, Good, Obtain;
    match op
    case Ask(pk, now) => SoundObtain(c, p, pk, now);
    case Open(pk, path, now) => SoundNewExit(c, p, pk, path, now);
    case Remove(pk, path) => SoundRemoveExit(c, p, pk, path);
    case Tick(expired) => SoundExpireExits(c, p, expired);
    case Ready(pk) => SoundReadyHook(c, p, pk);
  }

  lemma {:induction false} SoundRun(c: Config, p: Pool, ops: seq<Op>)
    requires Sound(c, p) && Legal(ops)
    ensures Sound(c, Run(c, p, ops))
    decreases |ops|
  {
    hide Sound, Apply;
    if ops != [] {
      LegalSplit(ops);
      SoundStep(c, p, ops[0]);
      SoundRun(c, Apply(c, p, ops[0]), ops[1..]);
    }
  }

  /** A hook finds its identity mapped. */
  predicate Answers(p: Pool, op: Op)
  {
    op.Ready? ==> op.pk in p.keyToIp
  }

  predicate Answered(c: Config, p: Pool, ops: seq<Op>)
    decreases |ops|
  {
    ops == [] || (Answers(p, ops[0]) && Answered(c, Apply(c, p, ops[0]), ops[1..]))
  }

  lemma GoodStep(c: Config, p: Pool, op: Op)
    requires Good(c, p) && Named(op) && Answers(p, op)
    ensures Good(c, Apply(c, p, op))
  {
    SoundStep(c, p, op);
    if Asks(op) {
      SoundObtain(c, p, op.pk, op.now);
    }
    hide Sound, Inverse, Obtain;
  }

  lemma {:induction false} GoodRun(c: Config, p: Pool, ops: seq<Op>)
    requires Good(c, p) && Legal(ops) && Answered(c, p, ops)
    ensures Good(c, Run(c, p, ops))
    decreases |ops|
  {
    hide Good, Apply;
    if ops != [] {
      LegalSplit(ops);
      GoodStep(c, p, ops[0]);
      GoodRun(c, Apply(c, p, ops[0]), ops[1..]);
    }
  }

  // ---------------------------------------------------------------- hooks that come late

  /** `pk` is mapped to the zero address without holding it. */
  predicate Stale(p: Pool, pk: PubKey)
  {
    pk in p.keyToIp && p.keyToIp[pk] == 0 && pk !in ZeroHolder(p)
  }

  lemma LateHookIsStale(c: Config, p: Pool, op: Op)
    requires Sound(c, p) && !Answers(p, op)
    ensures Stale(Apply(c, p, op), op.pk)
  {
  }

  lemma StaleStays(c: Config, p: Pool, op: Op, pk: PubKey)
    requires Sound(c, p) && Stale(p, pk)
    ensures Stale(Apply(c, p, op), pk)
  {
    if Asks(op) && Newcomer(p, op.pk) {
      NewcomerAddressExactly(c, p, op.pk, op.now);
      hide Obtain, Sound;
    }
  }

  /** Nothing ever gives a stale identity an address of its own again. */
  lemma {:induction false} StaleForEver(c: Config, p: Pool, ops: seq<Op>, pk: PubKey)
    requires Sound(c, p) && Legal(ops) && Stale(p, pk)
    ensures Stale(Run(c, p, ops), pk)
    decreases |ops|
  {
    hide Sound, Apply, Stale;
    if ops != [] {
      LegalSplit(ops);
      SoundStep(c, p, ops[0]);
      StaleStays(c, p, ops[0], pk);
      StaleForEver(c, Apply(c, p, ops[0]), ops[1..], pk);
    }
  }

  /** A hook that comes late leaves somebody stale for ever. */
  lemma {:induction false} LateHookStays(c: Config, p: Pool, ops: seq<Op>) returns (pk: PubKey)
    requires Sound(c, p) && Legal(ops) && !Answered(c, p, ops)
    ensures Stale(Run(c, p, ops), pk)
    decreases |ops|
  {
    hide Sound, Apply, Stale;
    var q := Apply(c, p, ops[0]);
    LegalSplit(ops);
    SoundStep(c, p, ops[0]);
    if Answers(p, ops[0]) {
      pk := LateHookStays(c, q, ops[1..]);
    } else {
      LateHookIsStale(c, p, ops[0]);
      pk := ops[0].pk;
      StaleForEver(c, q, ops[1..], pk);
    }
  }

  /** Over every run, the maps end up inverse to each other if and only if every hook found its identity mapped. */
  lemma InverseExactly(c: Config, p: Pool, ops: seq<Op>)
    requires Good(c, p) && Legal(ops)
    ensures var q := Run(c, p, ops); Inverse(q.keyToIp, q.ipToKey) <==> Answered(c, p, ops)
  {
    hide Sound;
    if Answered(c, p, ops) {
      GoodRun(c, p, ops);
    } else {
      var pk := LateHookStays(c, p, ops);
      assert Stale(Run(c, p, ops), pk);
    }
  }

  // ------------------------------------------------------------------ what stays in the range

  predicate MeetsFull(c: Config, p: Pool, op: Op)
  {
    Asks(op) && Newcomer(p, op.pk) && Full(c, p)
  }

  /** Some newcomer meets a full pool. */
  predicate Overflows(c: Config, p: Pool, ops: seq<Op>)
    decreases |ops|
  {
    ops != [] && (MeetsFull(c, p, ops[0]) || Overflows(c, Apply(c, p, ops[0]), ops[1..]))
  }

  lemma ZeroHeldStep(c: Config, p: Pool, op: Op)
    requires Sound(c, p)
    ensures 0 in Apply(c, p, op).ipToKey <==> 0 in p.ipToKey || MeetsFull(c, p, op)
  {
    if Asks(op) && Newcomer(p, op.pk) {
      NewcomerAddressExactly(c, p, op.pk, op.now);
      hide Obtain;
    }
  }

  lemma {:induction false} ZeroHeldExactly(c: Config, p: Pool, ops: seq<Op>)
    requires Sound(c, p) && Legal(ops)
    ensures 0 in Run(c, p, ops).ipToKey <==> 0 in p.ipToKey || Overflows(c, p, ops)
    decreases |ops|
  {
    hide Sound, Apply, MeetsFull;
    if ops != [] {
      LegalSplit(ops);
      SoundStep(c, p, ops[0]);
      ZeroHeldStep(c, p, ops[0]);
      ZeroHeldExactly(c, Apply(c, p, ops[0]), ops[1..]);
    }
  }

  predicate InRange(c: Config, p: Pool)
  {
    forall pk | pk in p.keyToIp :: c.ifAddr <= p.keyToIp[pk] <= c.highest
  }

  /** Over every run, everybody is in the range if and only if no hook came late and no newcomer met a full pool. */
  lemma InRangeExactly(c: Config, ops: seq<Op>)
    requires ConfigOk(c) && Legal(ops)
    ensures
      InRange(c, Run(c, Started(c), ops)) <==> Answered(c, Started(c), ops) && !Overflows(c, Started(c), ops)
  {
    var p := Run(c, Started(c), ops);
    GoodStarted(c);
    SoundRun(c, Started(c), ops);
    ZeroHeldExactly(c, Started(c), ops);
    if !Answered(c, Started(c), ops) {
      var pk := LateHookStays(c, Started(c), ops);
      assert p.keyToIp[pk] == 0;
    } else {
      GoodRun(c, Started(c), ops);
      assert 0 in p.ipToKey ==> p.ipToKey[0] in p.keyToIp && p.keyToIp[p.ipToKey[0]] == 0;
      hide Answered, Overflows, Run;
    }
  }

  /** The identities that asked for an address. */
  function Askers(ops: seq<Op>): set<PubKey>
  {
    set op | op in ops && Asks(op) :: op.pk
  }

  /** Before the range is used up, there are as many identities as addresses handed out. */
  predicate Counted(c: Config, p: Pool)
  {
    c.ifAddr <= p.next && |p.keyToIp.Keys| == p.next - c.ifAddr + 1
  }

  lemma CountedStep(c: Config, p: Pool, op: Op)
    requires Good(c, p) && Counted(c, p) && Answers(p, op) && !MeetsFull(c, p, op)
    ensures
      var q := Apply(c, p, op);
      Counted(c, q) && q.keyToIp.Keys == p.keyToIp.Keys + (if Asks(op) then {op.pk} else {})
  {
    if Asks(op) && Newcomer(p, op.pk) {
      NewcomerAddressExactly(c, p, op.pk, op.now);
      hide Obtain, Good;
      assert p.keyToIp[op.pk := p.next + 1].Keys == p.keyToIp.Keys + {op.pk};
    }
  }

  lemma AskersSplit(ops: seq<Op>)
    requires ops != []
    ensures Askers(ops) == (if Asks(ops[0]) then {ops[0].pk} else {}) + Askers(ops[1..])
  {
    assert ops[0] in ops && forall op | op in ops :: op == ops[0] || op in ops[1..];
  }

  lemma MoreThan(a: set<PubKey>, b: set<PubKey>, pk: PubKey)
    requires pk !in a && pk in b
    ensures |a + b| > |a|
  {
    assert a < a + b;
    SmallerSet(a, a + b);
  }

  lemma SmallerSet(a: set<PubKey>, b: set<PubKey>)
    requires a < b
    ensures |a| < |b|
  {
    assert b == a + (b - a) && b - a != {};
  }

  lemma NobodyAsks()
    ensures Askers([]) == {}
  {
  }

  /** An operation that does not overflow keeps the crowd: those mapped and those who will ask. */
  lemma SameCrowd(c: Config, p: Pool, ops: seq<Op>)
    requires ops != [] && Good(c, p) && Counted(c, p) && Answers(p, ops[0]) && !MeetsFull(c, p, ops[0])
    ensures
      var q := Apply(c, p, ops[0]);
      Counted(c, q) && q.keyToIp.Keys + Askers(ops[1..]) == p.keyToIp.Keys + Askers(ops)
  {
    hide Good, Counted, Answers, MeetsFull, Apply, Askers;
    AskersSplit(ops);
    CountedStep(c, p, ops[0]);
  }

  lemma CrowdTooBig(c: Config, p: Pool, ops: seq<Op>)
    requires ops != [] && Counted(c, p) && MeetsFull(c, p, ops[0])
    ensures |p.keyToIp.Keys + Askers(ops)| > c.highest - c.ifAddr + 1
  {
    hide Askers;
    AskersSplit(ops);
    MoreThan(p.keyToIp.Keys, Askers(ops), ops[0].pk);
  }

  lemma CrowdFits(c: Config, p: Pool)
    requires Good(c, p) && Counted(c, p)
    ensures |p.keyToIp.Keys + Askers([])| <= c.highest - c.ifAddr + 1
  {
    NobodyAsks();
    assert p.keyToIp.Keys + {} == p.keyToIp.Keys;
  }

  lemma {:induction false} OverflowsExactly(c: Config, p: Pool, ops: seq<Op>)
    requires Good(c, p) && Counted(c, p) && Legal(ops) && Answered(c, p, ops)
    ensures Overflows(c, p, ops) <==> |p.keyToIp.Keys + Askers(ops)| > c.highest - c.ifAddr + 1
    decreases |ops|
  {
    hide Good, Counted, MeetsFull, Apply, Askers;
    if ops == [] {
      CrowdFits(c, p);
    } else if MeetsFull(c, p, ops[0]) {
      CrowdTooBig(c, p, ops);
    } else {
      LegalSplit(ops);
      GoodStep(c, p, ops[0]);
      SameCrowd(c, p, ops);
      OverflowsExactly(c, Apply(c, p, ops[0]), ops[1..]);
    }
  }

  /**
    Over every run, everybody is in the range if and only if no hook came late and the identities that asked,
    with ours, are no more than its addresses.
  */
  lemma CrowdExactly(c: Config, ops: seq<Op>)
    requires ConfigOk(c) && Legal(ops)
    ensures
      InRange(c, Run(c, Started(c), ops)) <==>
      Answered(c, Started(c), ops) && |{c.us} + Askers(ops)| <= c.highest - c.ifAddr + 1
  {
    GoodStarted(c);
    assert Started(c).keyToIp.Keys == {c.us};
    hide Good, InRange, Askers;
    InRangeExactly(c, ops);
    if Answered(c, Started(c), ops) {
      OverflowsExactly(c, Started(c), ops);
    }
  }

  // --------------------------------------------------------------------- our own address

  /** Our address is ours, nobody else is mapped to it, and we do not hold the zero address. */
  ghost predicate OwnMapped(c: Config, p: Pool)
  {
    && c.us in p.keyToIp && p.keyToIp[c.us] == c.ifAddr
    && c.ifAddr in p.ipToKey && p.ipToKey[c.ifAddr] == c.us
    && c.us !in ZeroHolder(p) && c.ifAddr <= p.next
    && forall pk | pk in p.keyToIp && p.keyToIp[pk] == c.ifAddr :: pk == c.us
  }

  lemma OwnMappedObtain(c: Config, p: Pool, pk: PubKey, now: nat)
    requires ConfigOk(c) && OwnMapped(c, p)
    ensures OwnMapped(c, Obtain(c, p, pk, now).0)
  {
    if Newcomer(p, pk) {
      OwnMappedAllocate(c, p);
      hide Allocate;
    }
  }

  lemma OwnMappedAllocate(c: Config, p: Pool)
    requires ConfigOk(c) && OwnMapped(c, p)
    ensures var (q, ip) := Allocate(c, p); OwnMapped(c, q) && ip != c.ifAddr
  {
  }

  lemma OwnMappedStep(c: Config, p: Pool, op: Op)
    requires ConfigOk(c) && OwnMapped(c, p)
    ensures OwnMapped(c, Apply(c, p, op))
  {
    if Asks(op) {
      OwnMappedObtain(c, p, op.pk, op.now);
      hide Obtain;
    }
  }

  lemma {:induction false} OwnMappedRun(c: Config, p: Pool, ops: seq<Op>)
    requires ConfigOk(c) && OwnMapped(c, p)
    ensures OwnMapped(c, Run(c, p, ops))
    decreases |ops|
  {
    hide OwnMapped, Apply;
    if ops != [] {
      OwnMappedStep(c, p, ops[0]);
      OwnMappedRun(c, Apply(c, p, ops[0]), ops[1..]);
    }
  }

  /** After any run whatsoever, also with late hooks and zero keys, our address is ours and nobody else's. */
  lemma OwnAddressIsKept(c: Config, ops: seq<Op>)
    requires ConfigOk(c)
    ensures
      var p := Run(c, Started(c), ops);
      && c.ifAddr in p.ipToKey && p.ipToKey[c.ifAddr] == c.us
      && forall pk :: pk in p.keyToIp && p.keyToIp[pk] == c.ifAddr <==> pk == c.us
  {
    OwnMappedRun(c, Started(c), ops);
  }

  predicate AsksFor(op: Op, pk: PubKey)
  {
    Asks(op) && op.pk == pk
  }

  predicate Strangers(c: Config, ops: seq<Op>)
  {
    forall op | op in ops :: !AsksFor(op, c.us)
  }

  /** The clock has started. */
  predicate Timed(ops: seq<Op>)
  {
    forall op | op in ops :: Asks(op) ==> op.now > 0
  }

  /** Only our own address can count as never used, and it does exactly if `unasked` says so. */
  predicate Clocked(c: Config, p: Pool, unasked: bool)
  {
    && c.ifAddr in p.activity && (p.activity[c.ifAddr] == 0 <==> unasked)
    && forall ip | ip in p.activity && ip != c.ifAddr :: p.activity[ip] > 0
  }

  lemma ClockedStep(c: Config, p: Pool, op: Op, unasked: bool)
    requires OwnMapped(c, p) && Clocked(c, p, unasked) && ConfigOk(c) && (Asks(op) ==> op.now > 0)
    ensures Clocked(c, Apply(c, p, op), unasked && !AsksFor(op, c.us))
  {
    if Asks(op) && Newcomer(p, op.pk) {
      OwnMappedAllocate(c, p);
      AllocateKeepsActivity(c, p);
      hide Allocate;
    }
  }

  lemma AllocateKeepsActivity(c: Config, p: Pool)
    ensures Allocate(c, p).0.activity == p.activity
  {
  }

  lemma {:induction false} ClockedRun(c: Config, p: Pool, ops: seq<Op>, unasked: bool)
    requires ConfigOk(c) && OwnMapped(c, p) && Clocked(c, p, unasked) && Timed(ops)
    ensures Clocked(c, Run(c, p, ops), unasked && Strangers(c, ops))
    decreases |ops|
  {
    hide OwnMapped, Clocked, Apply, AsksFor;
    if ops != [] {
      assert ops[0] in ops && forall op | op in ops :: op == ops[0] || op in ops[1..];
      assert forall op | op in ops[1..] :: op in ops;
      OwnMappedStep(c, p, ops[0]);
      ClockedStep(c, p, ops[0], unasked);
      ClockedRun(c, Apply(c, p, ops[0]), ops[1..], unasked && !AsksFor(ops[0], c.us));
    }
  }

  /**
    Our own address, which is marked at the start so as never to count as idle, is the one used longest ago,
    and the only one, as long as nobody asks for our identity. Its mark is gone if and only if somebody does.
  */
  lemma OwnCountsIdlest(c: Config, ops: seq<Op>)
    requires ConfigOk(c) && Timed(ops)
    ensures
      var p := Run(c, Started(c), ops);
      && c.ifAddr in p.activity && (p.activity[c.ifAddr] == MAX_TIME <==> Strangers(c, ops))
      && (Strangers(c, ops) ==> forall ip :: LeastActive(p, ip) <==> ip == c.ifAddr)
  {
    ClockedRun(c, Started(c), ops, true);
    var p := Run(c, Started(c), ops);
    hide Run, Strangers;
    if Strangers(c, ops) {
      forall ip
        ensures LeastActive(p, ip) <==> ip == c.ifAddr
      {
        assert LeastActive(p, c.ifAddr);
      }
    }
  }

  /** So from the start no newcomer to a full pool takes the place of the least active identity. */
  lemma NeverTakesLeastActive(c: Config, ops: seq<Op>, pk: PubKey, now: nat)
    requires ConfigOk(c) && Legal(ops) && Timed(ops) && Strangers(c, ops)
    requires var p := Run(c, Started(c), ops); Newcomer(p, pk) && Full(c, p)
    ensures var p := Run(c, Started(c), ops); !TookLeastActive(p, Obtain(c, p, pk, now).0, pk)
  {
    hide Run, LeastActive, TookLeastActive, Obtain, Good;
    SoundStarted(c);
    SoundRun(c, Started(c), ops);
    OwnCountsIdlest(c, ops);
    TakesLeastActiveExactly(c, Run(c, Started(c), ops), pk, now);
  }

  // --------------------------------------------------------------------- the main results

  /**
    After every run the two maps are inverse to each other if and only if every hook found its identity
    mapped, and then exactly the mapped addresses have an activity time. In any case every address but
    zero is held by the one identity mapped to it, and lies in the range.
  */
  lemma PoolStaysConsistent(c: Config, ops: seq<Op>)
    requires ConfigOk(c) && Legal(ops)
    ensures
      var p := Run(c, Started(c), ops);
      && (Inverse(p.keyToIp, p.ipToKey) <==> Answered(c, Started(c), ops))
      && (Answered(c, Started(c), ops) ==> p.activity.Keys == p.ipToKey.Keys)
      && InverseBut0(p.keyToIp, p.ipToKey) && p.ipToKey.Keys <= p.activity.Keys
      && forall pk | pk in p.keyToIp :: p.keyToIp[pk] == 0 || c.ifAddr <= p.keyToIp[pk] <= c.highest
  {
    GoodStarted(c);
    InverseExactly(c, Started(c), ops);
    SoundRun(c, Started(c), ops);
    if Answered(c, Started(c), ops) {
      GoodRun(c, Started(c), ops);
    }
  }

  /**
    After every run each live exit uses its identity's current address. Exits of different identities can
    share none but the zero address, and not even that if every hook found its identity mapped.
  */
  lemma ExitsAreIsolated(c: Config, ops: seq<Op>, pk: PubKey, pk': PubKey, e: Exit, e': Exit)
    requires ConfigOk(c) && Legal(ops)
    requires
      var p := Run(c, Started(c), ops);
      e in ExitsOf(p, pk) && e' in ExitsOf(p, pk')
    ensures
      var p := Run(c, Started(c), ops);
      && pk in p.keyToIp && e.ip == p.keyToIp[pk]
      && (pk != pk' && e.ip == e'.ip ==> e.ip == 0 && !Answered(c, Started(c), ops))
  {
    GoodStarted(c);
    SoundRun(c, Started(c), ops);
    if Answered(c, Started(c), ops) {
      GoodRun(c, Started(c), ops);
    }
  }

  // -------------------------------------------------------------------------- witnesses

  lemma RunOfFive(c: Config, p: Pool, a: Op, b: Op, d: Op, e: Op, f: Op)
    ensures Run(c, p, [a, b, d, e, f]) == Apply(c, Apply(c, Apply(c, Apply(c, Apply(c, p, a), b), d), e), f)
  {
    hide Apply;
    assert [a, b, d, e, f][1..] == [b, d, e, f] && [b, d, e, f][1..] == [d, e, f];
    assert [d, e, f][1..] == [e, f] && [e, f][1..] == [f] && [f][1..] == [];
    var q := Apply(c, Apply(c, p, a), b);
    var r := Apply(c, Apply(c, q, d), e);
    assert Run(c, r, [f]) == Apply(c, r, f);
    assert Run(c, q, [d, e, f]) == Run(c, r, [f]);
  }

  /** With two addresses, the second newcomer gets the zero address and the third takes it from the second. */
  lemma ThreeNewcomers(c: Config)
    requires c == Config(7, 1, 2)
    ensures
      Apply(c, Apply(c, Apply(c, Started(c), Ask(8, 1)), Ask(9, 2)), Open(10, 1, 3)) ==
      Pool(map[7 := 1, 8 := 2, 10 := 0], map[1 := 7, 2 := 8, 0 := 10], map[1 := 0, 2 := 1, 0 := 3], 2,
           map[10 := [Exit(0, 1)]])
  {
    var p := Pool(map[7 := 1, 8 := 2], map[1 := 7, 2 := 8], map[1 := 0, 2 := 1], 2, map[]);
    assert Apply(c, Started(c), Ask(8, 1)) == p;
    SecondNewcomer(c);
    ThirdNewcomer(c);
  }

  lemma SecondNewcomer(c: Config)
    requires c == Config(7, 1, 2)
    ensures
      var p := Pool(map[7 := 1, 8 := 2], map[1 := 7, 2 := 8], map[1 := 0, 2 := 1], 2, map[]);
      Apply(c, p, Ask(9, 2)) ==
      Pool(map[7 := 1, 8 := 2, 9 := 0], map[1 := 7, 2 := 8, 0 := 9], map[1 := 0, 2 := 1, 0 := 2], 2, map[])
  {
  }

  lemma ThirdNewcomer(c: Config)
    requires c == Config(7, 1, 2)
    ensures
      var p := Pool(map[7 := 1, 8 := 2, 9 := 0], map[1 := 7, 2 := 8, 0 := 9], map[1 := 0, 2 := 1, 0 := 2], 2, map[]);
      Apply(c, p, Open(10, 1, 3)) ==
      Pool(map[7 := 1, 8 := 2, 10 := 0], map[1 := 7, 2 := 8, 0 := 10], map[1 := 0, 2 := 1, 0 := 3], 2,
           map[10 := [Exit(0, 1)]])
  {
    assert [] + [Exit(0, 1)] == [Exit(0, 1)];
  }

  /** The hook of an evicted identity maps it to the zero address, where its next exit goes. */
  lemma EvictedOpensAtZero(c: Config, p: Pool)
    requires 9 !in p.keyToIp && 9 !in p.active && ExitsOf(p, 10) == [Exit(0, 1)]
    ensures
      var q := Apply(c, Apply(c, p, Ready(9)), Open(9, 2, 4));
      ExitsOf(q, 9) == [Exit(0, 2)] && ExitsOf(q, 10) == [Exit(0, 1)]
  {
    assert [] + [Exit(0, 2)] == [Exit(0, 2)];
  }

  /** With a late hook, live exits of two identities can share the zero address. */
  lemma LateHookSharesZero()
    ensures
      var c := Config(7, 1, 2);
      var ops := [Ask(8, 1), Ask(9, 2), Open(10, 1, 3), Ready(9), Open(9, 2, 4)];
      && ConfigOk(c) && Legal(ops)
      && var p := Run(c, Started(c), ops); ExitsOf(p, 9) == [Exit(0, 2)] && ExitsOf(p, 10) == [Exit(0, 1)]
  {
    var c := Config(7, 1, 2);
    ThreeNewcomers(c);
    var p := Apply(c, Apply(c, Apply(c, Started(c), Ask(8, 1)), Ask(9, 2)), Open(10, 1, 3));
    assert 9 !in p.keyToIp && 9 !in p.active && ExitsOf(p, 10) == [Exit(0, 1)];
    hide Apply;
    EvictedOpensAtZero(c, p);
    RunOfFive(c, Started(c), Ask(8, 1), Ask(9, 2), Open(10, 1, 3), Ready(9), Open(9, 2, 4));
  }
}
