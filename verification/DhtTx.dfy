/**
  `TXHolder`: pending lookups. `tx` maps the peer asked (with a transaction number) to the
  transaction, `waiting` collects the askers per key, `timeouts` holds one deadline per key. Lookups
  for a key that is already waited for are merged: only the first one is sent.

  `created`, `started`, `closed` and `replied` are history: transactions entered, `Start` calls per
  key, waiting periods ended per key, and `SendReply` calls per transaction.
*/
module DhtTx {
  import opened DhtKeys
  import opened Ordered

  datatype Owner = Owner(node: Key, txid: nat)

  /** What is looked up: a router by its id, or an introset on behalf of an asker. */
  datatype Target = Router(id: Key) | AskedBy(owner: Owner)

  /** What is found: a router contact, an introset or a router id, reduced to a name for it. */
  datatype Value = Value(name: nat)

  type Validator = (Target, Value) -> bool

  datatype TX = TX(target: Target, whoAsked: Owner, peersAsked: set<Key>, valuesFound: seq<Value>)

  datatype Reply = Reply(owner: Owner, tx: TX)

  datatype Holder = Holder(
    waiting: map<Target, seq<Owner>>,
    timeouts: map<Target, nat>,
    tx: map<Owner, TX>,
    replies: seq<Reply>,
    created: multiset<Owner>,
    replied: multiset<Owner>,
    started: multiset<Target>,
    closed: multiset<Target>)

  function Empty(): Holder
  {
    Holder(map[], map[], map[], [], multiset{}, multiset{}, multiset{}, multiset{})
  }

  function Waiters(h: Holder, k: Target): seq<Owner>
  {
    if k in h.waiting then h.waiting[k] else []
  }

  /** `OnFound`: note the peer, keep the value if it is valid. */
  function OnFound(validate: Validator, t: TX, peer: Key, v: Value): TX
  {
    t.(peersAsked := t.peersAsked + {peer},
       valuesFound := if validate(t.target, v) then t.valuesFound + [v] else t.valuesFound)
  }

  function OnFoundAll(validate: Validator, t: TX, peer: Key, values: seq<Value>): TX
    decreases |values|
  {
    if values == [] then t else OnFoundAll(validate, OnFound(validate, t, peer, values[0]), peer, values[1..])
  }

  /** `NewTX`; an owner that is already pending keeps its transaction, as `emplace` does. */
  function NewTX(h: Holder, owner: Owner, k: Target, t: TX, deadline: nat): Holder
  {
    h.(tx := if owner in h.tx then h.tx else h.tx[owner := t],
       waiting := h.waiting[k := Waiters(h, k) + [owner]],
       timeouts := if k in h.timeouts then h.timeouts else h.timeouts[k := deadline],
       created := if owner in h.tx then h.created else h.created + multiset{owner},
       started := if Waiters(h, k) == [] then h.started + multiset{k} else h.started)
  }

  /** The loop of `Inform` with replies: feed the values, send the reply, drop the transaction. */
  function Answer(validate: Validator, h: Holder, owners: seq<Owner>, peer: Key, values: seq<Value>): Holder
    decreases |owners|
  {
    if owners == [] then h
    else Answer(validate, Answered(validate, h, owners[0], peer, values), owners[1..], peer, values)
  }

  /** One transaction gets the values, replies and goes. */
  function Answered(validate: Validator, h: Holder, o: Owner, peer: Key, values: seq<Value>): Holder
  {
    if o !in h.tx then h
    else
      h.(tx := h.tx - {o},
         replies := h.replies + [Reply(o, OnFoundAll(validate, h.tx[o], peer, values))],
         replied := h.replied + multiset{o})
  }

  /** `Inform` with `sendreply` set, as all callers have it: everybody waiting is answered. */
  function Inform(validate: Validator, h: Holder, peer: Key, k: Target, values: seq<Value>, removeTimeouts: bool)
    : Holder
  {
    var answered := Answer(validate, h, Waiters(h, k), peer, values);
    answered.(waiting := h.waiting - {k},
              timeouts := if removeTimeouts then h.timeouts - {k} else h.timeouts,
              closed := if k in h.waiting then h.closed + multiset{k} else h.closed)
  }

  /** The loop of `Inform` without replies: feed the values and keep the transactions. */
  function Tell(validate: Validator, h: Holder, owners: seq<Owner>, peer: Key, values: seq<Value>): Holder
    decreases |owners|
  {
    if owners == [] then h else Tell(validate, Told(validate, h, owners[0], peer, values), owners[1..], peer, values)
  }

  function Told(validate: Validator, h: Holder, o: Owner, peer: Key, values: seq<Value>): Holder
  {
    if o in h.tx then h.(tx := h.tx[o := OnFoundAll(validate, h.tx[o], peer, values)]) else h
  }

  /** `Inform` without `sendreply`, its default: nobody stops waiting. */
  function InformQuietly(validate: Validator, h: Holder, peer: Key, k: Target, values: seq<Value>, removeTimeouts: bool)
    : Holder
  {
    var told := Tell(validate, h, Waiters(h, k), peer, values);
    told.(timeouts := if removeTimeouts then h.timeouts - {k} else h.timeouts)
  }

  function Found(validate: Validator, h: Holder, from: Owner, k: Target, values: seq<Value>): Holder
  {
    Inform(validate, h, from.node, k, values, true)
  }

  function NotFound(validate: Validator, h: Holder, from: Owner): Holder
  {
    if from in h.tx then Inform(validate, h, from.node, h.tx[from].target, [], true) else h
  }

  function ExpireKey(validate: Validator, h: Holder, k: Target): Holder
  {
    var informed := Inform(validate, h, ZERO, k, [], false);
    informed.(timeouts := informed.timeouts - {k})
  }

  /** `Expire` over the late keys in the order it meets them. */
  function ExpireKeys(validate: Validator, h: Holder, keys: seq<Target>): Holder
    decreases |keys|
  {
    if keys == [] then h else ExpireKeys(validate, ExpireKey(validate, h, keys[0]), keys[1..])
  }

  function Late(h: Holder, now: nat): set<Target>
  {
    set k | k in h.timeouts && now >= h.timeouts[k]
  }

  // ------------------------------------------------------------------ the invariant

  /** The owners waiting under one key are in `tx` with that target, and nobody else is. */
  ghost predicate WaitersOk(h: Holder, k: Target)
    requires k in h.waiting
  {
    && Distinct(h.waiting[k]) && h.waiting[k] != []
    && forall o :: o in h.waiting[k] <==> o in h.tx && h.tx[o].target == k
  }

  /** A transaction entered is either pending or has been answered once. */
  ghost predicate OwnerAccounted(h: Holder, o: Owner)
  {
    h.created[o] == h.replied[o] + if o in h.tx then 1 else 0
  }

  /** A key has one `Start` per ended waiting period, and one more while it is waited for. */
  ghost predicate KeyAccounted(h: Holder, k: Target)
  {
    h.started[k] == h.closed[k] + if k in h.waiting then 1 else 0
  }

  /** The three maps agree, and the history accounts for every transaction and every waiting period. */
  ghost predicate Consistent(h: Holder)
  {
    && h.waiting.Keys == h.timeouts.Keys
    && (forall k | k in h.waiting :: WaitersOk(h, k))
    && (forall o | o in h.tx :: h.tx[o].target in h.waiting)
    && (forall o :: OwnerAccounted(h, o))
    && (forall k :: KeyAccounted(h, k))
  }

  /** What the reply loop does to the transactions: those listed go, each with one reply. */
  lemma {:induction false} AnswerEffect(validate: Validator, h: Holder, owners: seq<Owner>, peer: Key,
        values: seq<Value>)
    requires Distinct(owners) && forall o | o in owners :: o in h.tx
    ensures
      var r := Answer(validate, h, owners, peer, values);
      && r == h.(tx := r.tx, replies := r.replies, replied := r.replied)
      && (forall o :: o in r.tx <==> o in h.tx && o !in owners)
      && (forall o | o in r.tx :: r.tx[o] == h.tx[o])
      && (forall o :: r.replied[o] == h.replied[o] + if o in owners then 1 else 0)
    decreases |owners|
  {
    hide OnFoundAll;
    if owners != [] {
      var o, rest := owners[0], owners[1..];
      assert owners == [o] + rest;
      assert forall i | 0 <= i < |rest| :: rest[i] == owners[i + 1];
      assert o !in rest;
      var t := OnFoundAll(validate, h.tx[o], peer, values);
      var h' := h.(tx := h.tx - {o}, replies := h.replies + [Reply(o, t)], replied := h.replied + multiset{o});
      AnswerEffect(validate, h', rest, peer, values);
    }
  }

  lemma WaitersNewTX(h: Holder, owner: Owner, k: Target, t: TX, deadline: nat, k': Target)
    requires Consistent(h) && owner !in h.tx && t.target == k
    requires k' in NewTX(h, owner, k, t, deadline).waiting
    ensures WaitersOk(NewTX(h, owner, k, t, deadline), k')
  {
    hide OwnerAccounted, KeyAccounted;
    if k' in h.waiting {
      assert WaitersOk(h, k');
    }
  }

  lemma ConsistentNewTX(h: Holder, owner: Owner, k: Target, t: TX, deadline: nat)
    requires Consistent(h) && owner !in h.tx && t.target == k
    ensures Consistent(NewTX(h, owner, k, t, deadline))
  {
    assert k in h.waiting ==> WaitersOk(h, k);
    assert k in h.waiting ==> h.waiting[k] != [];
    hide WaitersOk;
    var h' := NewTX(h, owner, k, t, deadline);
    forall k' | k' in h'.waiting
      ensures WaitersOk(h', k')
    {
      WaitersNewTX(h, owner, k, t, deadline, k');
    }
    forall o
      ensures OwnerAccounted(h', o)
    {
      assert OwnerAccounted(h, o);
    }
    forall k'
      ensures KeyAccounted(h', k')
    {
      assert KeyAccounted(h, k');
    }
  }

  /** What `Inform` changes. */
  lemma InformEffect(validate: Validator, h: Holder, peer: Key, k: Target, values: seq<Value>)
    requires Consistent(h)
    ensures
      var h' := Inform(validate, h, peer, k, values, true);
      && h'.waiting == h.waiting - {k} && h'.timeouts == h.timeouts - {k}
      && h'.created == h.created && h'.started == h.started
      && h'.closed == (if k in h.waiting then h.closed + multiset{k} else h.closed)
      && (forall o :: o in h'.tx <==> o in h.tx && h.tx[o].target != k)
      && (forall o | o in h'.tx :: h'.tx[o] == h.tx[o])
      && (forall o :: h'.replied[o] == h.replied[o] + if o in h.tx && h.tx[o].target == k then 1 else 0)
  {
    hide Answer, OwnerAccounted, KeyAccounted;
    assert k in h.waiting ==> WaitersOk(h, k);
    AnswerEffect(validate, h, Waiters(h, k), peer, values);
  }

  lemma WaitersInform(h: Holder, h': Holder, k: Target, k': Target)
    requires k' in h.waiting && k' != k && WaitersOk(h, k') && h'.waiting == h.waiting - {k}
    requires forall o :: o in h'.tx <==> o in h.tx && h.tx[o].target != k
    requires forall o | o in h'.tx :: h'.tx[o] == h.tx[o]
    ensures WaitersOk(h', k')
  {
  }

  /** Informing a key and removing its deadline leaves everything else as it was. */
  lemma ConsistentInform(validate: Validator, h: Holder, peer: Key, k: Target, values: seq<Value>)
    requires Consistent(h)
    ensures
      var h' := Inform(validate, h, peer, k, values, true);
      && Consistent(h') && h'.timeouts == h.timeouts - {k} && h'.created == h.created
      && h'.waiting == h.waiting - {k}
  {
    hide Inform, WaitersOk;
    var h' := Inform(validate, h, peer, k, values, true);
    InformEffect(validate, h, peer, k, values);
    forall k' | k' in h'.waiting
      ensures WaitersOk(h', k')
    {
      WaitersInform(h, h', k, k');
    }
    forall o
      ensures OwnerAccounted(h', o)
    {
      assert OwnerAccounted(h, o);
    }
    forall k'
      ensures KeyAccounted(h', k')
    {
      assert KeyAccounted(h, k');
    }
  }

  lemma ConsistentExpireKey(validate: Validator, h: Holder, k: Target)
    requires Consistent(h)
    ensures
      var h' := ExpireKey(validate, h, k);
      && Consistent(h') && h'.timeouts == h.timeouts - {k} && h'.created == h.created
      && h'.waiting == h.waiting - {k}
  {
    hide Consistent, Answer;
    ConsistentInform(validate, h, ZERO, k, []);
    assert ExpireKey(validate, h, k) == Inform(validate, h, ZERO, k, [], true);
  }

  lemma {:induction false} ConsistentExpireKeys(validate: Validator, h: Holder, keys: seq<Target>)
    requires Consistent(h)
    ensures
      var h' := ExpireKeys(validate, h, keys);
      && Consistent(h') && h'.timeouts == h.timeouts - Members(keys) && h'.created == h.created
      && h'.waiting == h.waiting - Members(keys)
    decreases |keys|
  {
    hide Consistent, ExpireKey;
    if keys != [] {
      ConsistentExpireKey(validate, h, keys[0]);
      ConsistentExpireKeys(validate, ExpireKey(validate, h, keys[0]), keys[1..]);
      assert keys == [keys[0]] + keys[1..];
      assert Members(keys) == {keys[0]} + Members(keys[1..]);
    }
  }

  ghost function Members(keys: seq<Target>): set<Target>
  {
    set k | k in keys
  }

  // ---------------------------------------------------------------------- whole runs

  datatype Op =
    | Enter(owner: Owner, k: Target, tx: TX, deadline: nat)
    | GotValues(from: Owner, k: Target, values: seq<Value>)
    | GotNothing(from: Owner)
    | Expire(now: nat, order: seq<Target>)

  /** Transactions are entered under their own target by an owner never used before; `Expire` meets the late keys. */
  ghost predicate Enabled(h: Holder, op: Op)
  {
    match op
    case Enter(owner, k, t, _) => owner !in h.created && t.target == k
    case Expire(now, order) => Members(order) == Late(h, now)
    case _ => true
  }

  function Apply(validate: Validator, h: Holder, op: Op): Holder
  {
    match op
    case Enter(owner, k, t, deadline) => NewTX(h, owner, k, t, deadline)
    case GotValues(from, k, values) => Found(validate, h, from, k, values)
    case GotNothing(from) => NotFound(validate, h, from)
    case Expire(_, order) => ExpireKeys(validate, h, order)
  }

  ghost predicate Legal(validate: Validator, h: Holder, ops: seq<Op>)
    decreases |ops|
  {
    ops == [] || (Enabled(h, ops[0]) && Legal(validate, Apply(validate, h, ops[0]), ops[1..]))
  }

  function Run(validate: Validator, h: Holder, ops: seq<Op>): Holder
    decreases |ops|
  {
    if ops == [] then h else Run(validate, Apply(validate, h, ops[0]), ops[1..])
  }

  ghost predicate EnteredOnce(h: Holder)
  {
    forall o: Owner :: h.created[o] <= 1
  }

  lemma ConsistentStep(validate: Validator, h: Holder, op: Op)
    requires Consistent(h) && EnteredOnce(h) && Enabled(h, op)
    ensures Consistent(Apply(validate, h, op)) && EnteredOnce(Apply(validate, h, op))
  {
    match op
    case Enter(owner, k, t, deadline) =>
      assert OwnerAccounted(h, owner);
      hide Consistent;
      ConsistentNewTX(h, owner, k, t, deadline);
    case GotValues(from, k, values) =>
      hide Consistent, Inform;
      ConsistentInform(validate, h, from.node, k, values);
    case GotNothing(from) =>
      hide Consistent, Inform;
      if from in h.tx {
        ConsistentInform(validate, h, from.node, h.tx[from].target, []);
      }
    case Expire(_, order) =>
      hide Consistent, ExpireKeys;
      ConsistentExpireKeys(validate, h, order);
  }

  lemma {:induction false} ConsistentRun(validate: Validator, h: Holder, ops: seq<Op>)
    requires Consistent(h) && EnteredOnce(h) && Legal(validate, h, ops)
    ensures Consistent(Run(validate, h, ops)) && EnteredOnce(Run(validate, h, ops))
    decreases |ops|
  {
    hide Consistent, EnteredOnce, Apply;
    if ops != [] {
      ConsistentStep(validate, h, ops[0]);
      ConsistentRun(validate, Apply(validate, h, ops[0]), ops[1..]);
    }
  }

  /** An owner is in the waiting list of exactly its own target, once, as long as it is pending. */
  ghost predicate WaitsOnce(h: Holder, k: Target, o: Owner)
    requires k in h.waiting
  {
    multiset(h.waiting[k])[o] == if o in h.tx && h.tx[o].target == k then 1 else 0
  }

  lemma EachWaitsOnce(h: Holder, k: Target, o: Owner)
    requires Consistent(h) && k in h.waiting
    ensures WaitsOnce(h, k, o) && exists o' :: o' in h.tx && h.tx[o'].target == k
  {
    assert WaitersOk(h, k);
    assert h.waiting[k][0] in h.waiting[k];
    DistinctMultiset(h.waiting[k], o);
  }

  lemma EachAnsweredOnce(h: Holder, o: Owner)
    requires Consistent(h) && EnteredOnce(h)
    ensures h.replied[o] == if o in h.created && o !in h.tx then 1 else 0
  {
    assert OwnerAccounted(h, o);
  }

  /**
    After every run the three maps cover the same keys, each pending owner waits exactly once and
    under its own target, each transaction has been answered exactly when it is no longer pending and
    then exactly once, and each key has one `Start` for each period in which it was waited for.
  */
  lemma MapsAgreeAfterEveryRun(validate: Validator, ops: seq<Op>, k: Target, o: Owner)
    requires Legal(validate, Empty(), ops)
    ensures
      var h := Run(validate, Empty(), ops);
      && h.waiting.Keys == h.timeouts.Keys == (set o | o in h.tx :: h.tx[o].target)
      && (k in h.waiting ==> WaitsOnce(h, k, o))
      && (h.replied[o] == if o in h.created && o !in h.tx then 1 else 0)
      && (h.started[k] == h.closed[k] + if k in h.waiting then 1 else 0)
  {
    hide Run, Legal, WaitersOk;
    EmptyIsConsistent();
    ConsistentRun(validate, Empty(), ops);
    var h := Run(validate, Empty(), ops);
    EachAnsweredOnce(h, o);
    assert KeyAccounted(h, k);
    if k in h.waiting {
      EachWaitsOnce(h, k, o);
    }
    forall k' | k' in h.waiting
      ensures exists o :: o in h.tx && h.tx[o].target == k'
    {
      EachWaitsOnce(h, k', o);
    }
  }

  lemma EmptyIsConsistent()
    ensures Consistent(Empty()) && EnteredOnce(Empty())
  {
  }

  // ------------------------------------------------------------------------- deadlines

  /** The deadline each owner was entered with, in a run. */
  function Deadlines(d: map<Owner, nat>, ops: seq<Op>): map<Owner, nat>
    decreases |ops|
  {
    if ops == [] then d
    else Deadlines(if ops[0].Enter? then d[ops[0].owner := ops[0].deadline] else d, ops[1..])
  }

  /** Every key's deadline is that of the one who has waited for it longest. */
  ghost predicate FirstSets(h: Holder, d: map<Owner, nat>)
  {
    forall k | k in h.waiting ::
      && h.waiting[k] != [] && h.waiting[k][0] in d
      && k in h.timeouts && h.timeouts[k] == d[h.waiting[k][0]]
  }

  lemma FirstSetsEnter(h: Holder, d: map<Owner, nat>, owner: Owner, k: Target, t: TX, deadline: nat)
    requires Consistent(h) && FirstSets(h, d) && owner !in h.tx && t.target == k
    ensures FirstSets(NewTX(h, owner, k, t, deadline), d[owner := deadline])
  {
    hide OwnerAccounted, KeyAccounted;
    var h' := NewTX(h, owner, k, t, deadline);
    forall k' | k' in h'.waiting
      ensures
        && h'.waiting[k'] != [] && h'.waiting[k'][0] in d[owner := deadline]
        && k' in h'.timeouts && h'.timeouts[k'] == d[owner := deadline][h'.waiting[k'][0]]
    {
      if k' in h.waiting {
        assert WaitersOk(h, k');
        assert h.waiting[k'][0] in h.waiting[k'] && h.waiting[k'][0] != owner;
      }
    }
  }

  /** Steps that only take keys away. */
  lemma FirstSetsFewer(h: Holder, h': Holder, d: map<Owner, nat>, gone: set<Target>)
    requires FirstSets(h, d) && h'.waiting == h.waiting - gone && h'.timeouts == h.timeouts - gone
    ensures FirstSets(h', d)
  {
  }

  lemma FirstSetsStep(validate: Validator, h: Holder, d: map<Owner, nat>, op: Op)
    requires Consistent(h) && EnteredOnce(h) && Enabled(h, op) && FirstSets(h, d)
    ensures FirstSets(Apply(validate, h, op), if op.Enter? then d[op.owner := op.deadline] else d)
  {
    match op
    case Enter(owner, k, t, deadline) =>
      assert OwnerAccounted(h, owner);
      hide Consistent, FirstSets;
      FirstSetsEnter(h, d, owner, k, t, deadline);
    case GotValues(from, k, values) =>
      hide Consistent, Inform, FirstSets;
      ConsistentInform(validate, h, from.node, k, values);
      FirstSetsFewer(h, Apply(validate, h, op), d, {k});
    case GotNothing(from) =>
      hide Consistent, Inform, FirstSets;
      if from in h.tx {
        ConsistentInform(validate, h, from.node, h.tx[from].target, []);
        FirstSetsFewer(h, Apply(validate, h, op), d, {h.tx[from].target});
      }
    case Expire(_, order) =>
      hide Consistent, ExpireKeys, FirstSets;
      ConsistentExpireKeys(validate, h, order);
      FirstSetsFewer(h, Apply(validate, h, op), d, Members(order));
  }

  lemma {:induction false} FirstSetsRun(validate: Validator, h: Holder, d: map<Owner, nat>, ops: seq<Op>)
    requires Consistent(h) && EnteredOnce(h) && Legal(validate, h, ops) && FirstSets(h, d)
    ensures FirstSets(Run(validate, h, ops), Deadlines(d, ops))
    decreases |ops|
  {
    hide Consistent, EnteredOnce, Apply, FirstSets, Enabled;
    if ops != [] {
      ConsistentStep(validate, h, ops[0]);
      FirstSetsStep(validate, h, d, ops[0]);
      FirstSetsRun(validate, Apply(validate, h, ops[0]),
        if ops[0].Enter? then d[ops[0].owner := ops[0].deadline] else d, ops[1..]);
    }
  }

  /** After every run, a key that is waited for has the deadline that its first waiting asker was entered with. */
  lemma FirstAskerSetsDeadline(validate: Validator, ops: seq<Op>, k: Target)
    requires Legal(validate, Empty(), ops) && k in Run(validate, Empty(), ops).waiting
    ensures
      var h, d := Run(validate, Empty(), ops), Deadlines(map[], ops);
      && h.waiting[k] != [] && h.waiting[k][0] in d
      && k in h.timeouts && h.timeouts[k] == d[h.waiting[k][0]]
  {
    hide Run, Legal, Deadlines;
    EmptyIsConsistent();
    FirstSetsRun(validate, Empty(), map[], ops);
  }

  lemma ExpireKeepsTheRest(validate: Validator, h: Holder, now: nat, order: seq<Target>)
    requires Consistent(h) && Members(order) == Late(h, now)
    ensures
      var h' := ExpireKeys(validate, h, order);
      h'.waiting == h.waiting - Late(h, now) && h'.timeouts == h.timeouts - Late(h, now)
  {
    hide ExpireKeys, Late, Consistent;
    ConsistentExpireKeys(validate, h, order);
  }

  /**
    After any run, `Expire(now)` ends the waiting for exactly the keys whose first waiting asker's
    deadline has passed, and leaves all other keys as they were.
  */
  lemma NobodyWaitsPastDeadline(validate: Validator, ops: seq<Op>, now: nat, order: seq<Target>, k: Target)
    requires Legal(validate, Empty(), ops) && Enabled(Run(validate, Empty(), ops), Expire(now, order))
    requires k in Run(validate, Empty(), ops).waiting
    ensures
      var h, d := Run(validate, Empty(), ops), Deadlines(map[], ops);
      var h' := ExpireKeys(validate, h, order);
      && h.waiting[k] != [] && h.waiting[k][0] in d
      && (k in h'.waiting <==> now < d[h.waiting[k][0]])
      && (k in h'.waiting ==> h'.waiting[k] == h.waiting[k] && k in h'.timeouts && h'.timeouts[k] == d[h.waiting[k][0]])
  {
    hide Run, Legal, Deadlines, ExpireKeys, Consistent;
    EmptyIsConsistent();
    ConsistentRun(validate, Empty(), ops);
    FirstAskerSetsDeadline(validate, ops, k);
    ExpireKeepsTheRest(validate, Run(validate, Empty(), ops), now, order);
  }

  /** An owner that is already pending keeps its transaction, and waits for the other key as well. */
  lemma PendingKeepsTransaction(h: Holder, owner: Owner, k: Target, t: TX, deadline: nat)
    requires owner in h.tx
    ensures
      var h' := NewTX(h, owner, k, t, deadline);
      h'.tx == h.tx && h'.created == h.created && h'.waiting == h.waiting[k := Waiters(h, k) + [owner]]
  {
  }

  /** A later asker for a key changes neither its deadline nor causes a second `Start`. */
  lemma LaterAskersMerge(h: Holder, owner: Owner, k: Target, t: TX, deadline: nat)
    requires Consistent(h) && k in h.waiting
    ensures
      var h' := NewTX(h, owner, k, t, deadline);
      h'.timeouts == h.timeouts && h'.started == h.started && h'.waiting[k] == h.waiting[k] + [owner]
  {
    assert WaitersOk(h, k);
  }

  // -------------------------------------------------------------------- what replies carry

  /** The values that pass validation, in order. */
  function ValidOnes(validate: Validator, k: Target, values: seq<Value>): seq<Value>
  {
    if values == [] then []
    else (if validate(k, values[0]) then [values[0]] else []) + ValidOnes(validate, k, values[1..])
  }

  /** A transaction after a peer was heard. */
  function Heard(validate: Validator, t: TX, peer: Key, values: seq<Value>): TX
  {
    TX(t.target, t.whoAsked, t.peersAsked + (if values == [] then {} else {peer}),
       t.valuesFound + ValidOnes(validate, t.target, values))
  }

  /** Handing values to a transaction adds exactly the valid ones, in order, and the peer if there are any values. */
  lemma {:induction false} FoundKeepsValid(validate: Validator, t: TX, peer: Key, values: seq<Value>)
    ensures OnFoundAll(validate, t, peer, values) == Heard(validate, t, peer, values)
    decreases |values|
  {
    if values == [] {
      assert t.valuesFound + [] == t.valuesFound && t.peersAsked + {} == t.peersAsked;
    } else {
      var v := values[0];
      FoundKeepsValid(validate, OnFound(validate, t, peer, v), peer, values[1..]);
      ValidAppend(validate, t, v, values[1..]);
    }
  }

  lemma ValidAppend(validate: Validator, t: TX, v: Value, rest: seq<Value>)
    ensures
      (if validate(t.target, v) then t.valuesFound + [v] else t.valuesFound) + ValidOnes(validate, t.target, rest) ==
      t.valuesFound + ((if validate(t.target, v) then [v] else []) + ValidOnes(validate, t.target, rest))
  {
    if validate(t.target, v) {
      assert t.valuesFound + [v] + ValidOnes(validate, t.target, rest) ==
             t.valuesFound + ([v] + ValidOnes(validate, t.target, rest));
    } else {
      assert [] + ValidOnes(validate, t.target, rest) == ValidOnes(validate, t.target, rest);
    }
  }

  /** `replies` grew by one reply for each of `owners`, in order, with what its transaction had heard by then. */
  ghost predicate Replies(validate: Validator, h: Holder, h': Holder, owners: seq<Owner>, peer: Key, values: seq<Value>)
    requires forall o | o in owners :: o in h.tx
  {
    && |h'.replies| == |h.replies| + |owners| && h.replies <= h'.replies
    && forall i | 0 <= i < |owners| ::
         h'.replies[|h.replies| + i] == Reply(owners[i], Heard(validate, h.tx[owners[i]], peer, values))
  }

  lemma RepliesCons(validate: Validator, h: Holder, h1: Holder, r: Holder, o: Owner, rest: seq<Owner>, peer: Key,
        values: seq<Value>)
    requires o in h.tx && forall x | x in rest :: x in h.tx && x in h1.tx && h1.tx[x] == h.tx[x]
    requires h1.replies == h.replies + [Reply(o, Heard(validate, h.tx[o], peer, values))]
    requires Replies(validate, h1, r, rest, peer, values)
    ensures Replies(validate, h, r, [o] + rest, peer, values)
  {
    hide Heard;
    var owners := [o] + rest;
    forall i | 0 <= i < |owners|
      ensures r.replies[|h.replies| + i] == Reply(owners[i], Heard(validate, h.tx[owners[i]], peer, values))
    {
      if i == 0 {
        assert r.replies[|h.replies|] == h1.replies[|h.replies|];
      } else {
        var x := rest[i - 1];
        assert x in rest && owners[i] == x;
        assert r.replies[|h1.replies| + (i - 1)] == Reply(x, Heard(validate, h1.tx[x], peer, values));
      }
    }
  }

  lemma {:induction false} AnswerReplies(validate: Validator, h: Holder, owners: seq<Owner>, peer: Key,
        values: seq<Value>)
    requires Distinct(owners) && forall o | o in owners :: o in h.tx
    ensures Replies(validate, h, Answer(validate, h, owners, peer, values), owners, peer, values)
    decreases |owners|
  {
    if owners != [] {
      var o, rest := owners[0], owners[1..];
      DistinctRest(owners);
      FoundKeepsValid(validate, h.tx[o], peer, values);
      var h1 := Answered(validate, h, o, peer, values);
      hide OnFoundAll, Heard, Replies, Distinct;
      AnswerReplies(validate, h1, rest, peer, values);
      assert owners == [o] + rest;
      hide Answer;
      RepliesCons(validate, h, h1, Answer(validate, h1, rest, peer, values), o, rest, peer, values);
    }
  }

  lemma DistinctRest(owners: seq<Owner>)
    requires Distinct(owners) && owners != []
    ensures owners[0] !in owners[1..] && Distinct(owners[1..])
    ensures forall o | o in owners[1..] :: o in owners
  {
    var rest := owners[1..];
    assert forall i | 0 <= i < |rest| :: rest[i] == owners[i + 1];
  }

  lemma WaitersPending(h: Holder, k: Target)
    requires Consistent(h)
    ensures Distinct(Waiters(h, k)) && forall o | o in Waiters(h, k) :: o in h.tx && h.tx[o].target == k
  {
    assert k in h.waiting ==> WaitersOk(h, k);
  }

  lemma InformReplies(validate: Validator, h: Holder, peer: Key, k: Target, values: seq<Value>, removeTimeouts: bool)
    requires Consistent(h)
    ensures forall o | o in Waiters(h, k) :: o in h.tx
    ensures
      Replies(validate, h, Inform(validate, h, peer, k, values, removeTimeouts), Waiters(h, k), peer, values)
  {
    hide Consistent, Answer, Distinct;
    WaitersPending(h, k);
    AnswerReplies(validate, h, Waiters(h, k), peer, values);
  }

  /** The transactions entered in a run, as they were entered. */
  function Entered(e: map<Owner, TX>, ops: seq<Op>): map<Owner, TX>
    decreases |ops|
  {
    if ops == [] then e
    else Entered(if ops[0].Enter? then e[ops[0].owner := ops[0].tx] else e, ops[1..])
  }

  /** Pending transactions are as they were entered. */
  ghost predicate Untouched(h: Holder, e: map<Owner, TX>)
  {
    && (forall o | o in h.tx :: o in e && h.tx[o] == e[o])
    && (forall o | o in h.created :: o in e)
  }

  /** A reply carries what its transaction was entered with, followed by values that are valid for its target. */
  ghost predicate Carries(validate: Validator, e: map<Owner, TX>, r: Reply)
  {
    && r.owner in e && r.tx.target == e[r.owner].target && r.tx.whoAsked == e[r.owner].whoAsked
    && e[r.owner].valuesFound <= r.tx.valuesFound
    && forall i | |e[r.owner].valuesFound| <= i < |r.tx.valuesFound| :: validate(r.tx.target, r.tx.valuesFound[i])
  }

  ghost predicate AllCarry(validate: Validator, h: Holder, e: map<Owner, TX>)
  {
    forall i | 0 <= i < |h.replies| :: Carries(validate, e, h.replies[i]) && h.replies[i].owner in h.created
  }

  lemma {:induction false} ValidOnesAreValid(validate: Validator, k: Target, values: seq<Value>)
    ensures forall i | 0 <= i < |ValidOnes(validate, k, values)| :: validate(k, ValidOnes(validate, k, values)[i])
  {
    if values != [] {
      ValidOnesAreValid(validate, k, values[1..]);
    }
  }

  lemma HeardCarries(validate: Validator, e: map<Owner, TX>, o: Owner, peer: Key, values: seq<Value>)
    requires o in e
    ensures Carries(validate, e, Reply(o, Heard(validate, e[o], peer, values)))
  {
    ValidOnesAreValid(validate, e[o].target, values);
    var t := Heard(validate, e[o], peer, values);
    forall i | |e[o].valuesFound| <= i < |t.valuesFound|
      ensures validate(t.target, t.valuesFound[i])
    {
      assert t.valuesFound[i] == ValidOnes(validate, e[o].target, values)[i - |e[o].valuesFound|];
    }
  }

  /** Everybody pending was created. */
  lemma PendingCreated(h: Holder, o: Owner)
    requires Consistent(h) && o in h.tx
    ensures o in h.created
  {
    assert OwnerAccounted(h, o);
  }

  lemma CarriesInform(validate: Validator, h: Holder, e: map<Owner, TX>, peer: Key, k: Target, values: seq<Value>)
    requires Consistent(h) && Untouched(h, e) && AllCarry(validate, h, e)
    ensures
      var h' := Inform(validate, h, peer, k, values, true);
      Untouched(h', e) && AllCarry(validate, h', e)
  {
    hide Inform, Consistent, Carries, Heard;
    var h' := Inform(validate, h, peer, k, values, true);
    InformEffect(validate, h, peer, k, values);
    InformReplies(validate, h, peer, k, values, true);
    var owners := Waiters(h, k);
    forall i | 0 <= i < |h'.replies|
      ensures Carries(validate, e, h'.replies[i]) && h'.replies[i].owner in h'.created
    {
      if i < |h.replies| {
        assert h'.replies[i] == h.replies[i];
      } else {
        var o := owners[i - |h.replies|];
        assert o in owners;
        assert h'.replies[|h.replies| + (i - |h.replies|)] == Reply(o, Heard(validate, h.tx[o], peer, values));
        HeardCarries(validate, e, o, peer, values);
        PendingCreated(h, o);
      }
    }
  }

  lemma {:induction false} CarriesExpire(validate: Validator, h: Holder, e: map<Owner, TX>, keys: seq<Target>)
    requires Consistent(h) && Untouched(h, e) && AllCarry(validate, h, e)
    ensures var h' := ExpireKeys(validate, h, keys); Untouched(h', e) && AllCarry(validate, h', e)
    decreases |keys|
  {
    hide Consistent, Inform, Untouched, AllCarry;
    if keys != [] {
      CarriesInform(validate, h, e, ZERO, keys[0], []);
      ConsistentExpireKey(validate, h, keys[0]);
      ExpireIsInform(validate, h, keys[0]);
      CarriesExpire(validate, ExpireKey(validate, h, keys[0]), e, keys[1..]);
    }
  }

  lemma ExpireIsInform(validate: Validator, h: Holder, k: Target)
    ensures ExpireKey(validate, h, k) == Inform(validate, h, ZERO, k, [], true)
  {
    hide Answer;
  }

  lemma CarriesEnter(validate: Validator, h: Holder, e: map<Owner, TX>, owner: Owner, k: Target, t: TX, deadline: nat)
    requires Consistent(h) && Untouched(h, e) && AllCarry(validate, h, e) && owner !in h.created
    ensures
      var h' := NewTX(h, owner, k, t, deadline);
      Untouched(h', e[owner := t]) && AllCarry(validate, h', e[owner := t])
  {
    assert OwnerAccounted(h, owner);
    hide Consistent;
    var h' := NewTX(h, owner, k, t, deadline);
    forall i | 0 <= i < |h'.replies|
      ensures Carries(validate, e[owner := t], h'.replies[i]) && h'.replies[i].owner in h'.created
    {
      assert Carries(validate, e, h.replies[i]) && h.replies[i].owner != owner;
    }
  }

  lemma CarriesStep(validate: Validator, h: Holder, e: map<Owner, TX>, op: Op)
    requires Consistent(h) && Enabled(h, op) && Untouched(h, e) && AllCarry(validate, h, e)
    ensures
      var e' := if op.Enter? then e[op.owner := op.tx] else e;
      Untouched(Apply(validate, h, op), e') && AllCarry(validate, Apply(validate, h, op), e')
  {
    hide Consistent, Inform, Untouched, AllCarry, ExpireKeys;
    match op
    case Enter(owner, k, t, deadline) => CarriesEnter(validate, h, e, owner, k, t, deadline);
    case GotValues(from, k, values) => CarriesInform(validate, h, e, from.node, k, values);
    case GotNothing(from) =>
      if from in h.tx {
        CarriesInform(validate, h, e, from.node, h.tx[from].target, []);
      }
    case Expire(_, order) => CarriesExpire(validate, h, e, order);
  }

  lemma {:induction false} CarriesRun(validate: Validator, h: Holder, e: map<Owner, TX>, ops: seq<Op>)
    requires Consistent(h) && EnteredOnce(h) && Legal(validate, h, ops) && Untouched(h, e) && AllCarry(validate, h, e)
    ensures
      var h' := Run(validate, h, ops);
      Untouched(h', Entered(e, ops)) && AllCarry(validate, h', Entered(e, ops))
    decreases |ops|
  {
    hide Consistent, EnteredOnce, Apply, Enabled, Untouched, AllCarry;
    if ops != [] {
      ConsistentStep(validate, h, ops[0]);
      CarriesStep(validate, h, e, ops[0]);
      CarriesRun(validate, Apply(validate, h, ops[0]), if ops[0].Enter? then e[ops[0].owner := ops[0].tx] else e,
        ops[1..]);
    }
  }

  /** After every run, each reply carries what its transaction was entered with and then only valid values. */
  lemma RepliesAreValid(validate: Validator, ops: seq<Op>, r: Reply)
    requires Legal(validate, Empty(), ops) && r in Run(validate, Empty(), ops).replies
    ensures Carries(validate, Entered(map[], ops), r)
  {
    hide Run, Legal, Entered, Carries, Consistent;
    EmptyIsConsistent();
    CarriesRun(validate, Empty(), map[], ops);
  }

  /** After any run, the owners waiting for a key have transactions as they were entered. */
  lemma WaitersUntouched(validate: Validator, ops: seq<Op>, k: Target)
    requires Legal(validate, Empty(), ops)
    ensures
      var h, e := Run(validate, Empty(), ops), Entered(map[], ops);
      Consistent(h) && forall o | o in Waiters(h, k) :: o in h.tx && o in e && h.tx[o] == e[o]
  {
    hide Run, Legal, Entered, Carries, Consistent, Waiters;
    EmptyIsConsistent();
    ConsistentRun(validate, Empty(), ops);
    CarriesRun(validate, Empty(), map[], ops);
    WaitersPending(Run(validate, Empty(), ops), k);
  }

  /** `replies` grew by one reply for each of `owners`, with its transaction as entered and what `peer` brought. */
  ghost predicate RepliesFrom(validate: Validator, e: map<Owner, TX>, h: Holder, h': Holder, owners: seq<Owner>,
        peer: Key, values: seq<Value>)
  {
    && |h'.replies| == |h.replies| + |owners| && h.replies <= h'.replies
    && forall i | 0 <= i < |owners| ::
         owners[i] in e && h'.replies[|h.replies| + i] == Reply(owners[i], Heard(validate, e[owners[i]], peer, values))
  }

  /**
    After any run, values found for a key are answered to everybody waiting for it, in order: each reply has
    what its transaction was entered with and then exactly the valid values. Nothing found adds nothing.
  */
  lemma AnsweredWithValues(validate: Validator, ops: seq<Op>, from: Owner, k: Target, values: seq<Value>)
    requires Legal(validate, Empty(), ops)
    ensures
      var h, e := Run(validate, Empty(), ops), Entered(map[], ops);
      && RepliesFrom(validate, e, h, Found(validate, h, from, k, values), Waiters(h, k), from.node, values)
      && RepliesFrom(validate, e, h, ExpireKey(validate, h, k), Waiters(h, k), ZERO, [])
      && (from in h.tx ==>
            RepliesFrom(validate, e, h, NotFound(validate, h, from), Waiters(h, h.tx[from].target), from.node, []))
  {
    hide Run, Legal, Entered, Consistent, Inform, Heard;
    var h := Run(validate, Empty(), ops);
    WaitersUntouched(validate, ops, k);
    InformReplies(validate, h, from.node, k, values, true);
    InformReplies(validate, h, ZERO, k, [], false);
    if from in h.tx {
      WaitersUntouched(validate, ops, h.tx[from].target);
      InformReplies(validate, h, from.node, h.tx[from].target, [], true);
    }
  }

  // -------------------------------------------------------------- informing without replies

  /** What the loop without replies does: each listed transaction hears the values and stays. */
  lemma {:induction false} TellEffect(validate: Validator, h: Holder, owners: seq<Owner>, peer: Key, values: seq<Value>)
    requires Distinct(owners) && forall o | o in owners :: o in h.tx
    ensures
      var r := Tell(validate, h, owners, peer, values);
      && r == h.(tx := r.tx) && r.tx.Keys == h.tx.Keys
      && (forall o | o in h.tx :: r.tx[o] == if o in owners then Heard(validate, h.tx[o], peer, values) else h.tx[o])
    decreases |owners|
  {
    if owners != [] {
      hide OnFoundAll, Heard;
      var o, rest := owners[0], owners[1..];
      assert owners == [o] + rest;
      DistinctRest(owners);
      hide Distinct;
      FoundKeepsValid(validate, h.tx[o], peer, values);
      TellEffect(validate, Told(validate, h, o, peer, values), rest, peer, values);
    }
  }

  /** The same waiting, deadlines, history and targets. */
  lemma ConsistentAlike(h: Holder, h': Holder)
    requires Consistent(h) && h' == h.(tx := h'.tx) && h'.tx.Keys == h.tx.Keys
    requires forall o | o in h.tx :: h'.tx[o].target == h.tx[o].target
    ensures Consistent(h')
  {
    hide Distinct;
    forall k | k in h'.waiting
      ensures WaitersOk(h', k)
    {
      assert WaitersOk(h, k);
    }
    forall o
      ensures OwnerAccounted(h', o)
    {
      assert OwnerAccounted(h, o);
    }
    forall k
      ensures KeyAccounted(h', k)
    {
      assert KeyAccounted(h, k);
    }
  }

  /** Informing without replies answers nobody: the transactions of those waiting hear the values, and stay. */
  lemma QuietInformHears(validate: Validator, h: Holder, peer: Key, k: Target, values: seq<Value>, removeTimeouts: bool,
        o: Owner)
    requires Consistent(h) && o in h.tx
    ensures
      var h' := InformQuietly(validate, h, peer, k, values, removeTimeouts);
      && h'.waiting == h.waiting && h'.replies == h.replies && o in h'.tx
      && h'.tx[o] == if h.tx[o].target == k then Heard(validate, h.tx[o], peer, values) else h.tx[o]
  {
    assert h.tx[o].target in h.waiting && WaitersOk(h, h.tx[o].target);
    WaitersPending(h, k);
    hide Tell, Heard, Distinct, OwnerAccounted, KeyAccounted;
    TellEffect(validate, h, Waiters(h, k), peer, values);
  }

  /**
    Informing without replies keeps the maps in agreement if and only if it leaves the deadline of a key
    that is waited for.
  */
  lemma QuietInformExactly(validate: Validator, h: Holder, peer: Key, k: Target, values: seq<Value>,
        removeTimeouts: bool)
    requires Consistent(h)
    ensures
      Consistent(InformQuietly(validate, h, peer, k, values, removeTimeouts)) <==> !(removeTimeouts && k in h.waiting)
  {
    WaitersPending(h, k);
    hide Tell, WaitersOk, OwnerAccounted, KeyAccounted, Distinct;
    var told := Tell(validate, h, Waiters(h, k), peer, values);
    var h' := InformQuietly(validate, h, peer, k, values, removeTimeouts);
    TellEffect(validate, h, Waiters(h, k), peer, values);
    if removeTimeouts && k in h.waiting {
      assert k in h'.waiting && k !in h'.timeouts;
    } else {
      assert h.timeouts - {k} == h.timeouts || !removeTimeouts;
      assert h' == told;
      ConsistentAlike(h, told);
    }
  }
}
