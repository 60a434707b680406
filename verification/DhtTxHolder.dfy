/** The `TXHolder` object, proved against the functions of `DhtTx`. */
module DhtTxHolder {
  import opened DhtKeys
  import opened DhtTx

  /** The inner loop of `Inform`: hand every value to one transaction. */
  method Feed(validate: Validator, t: TX, peer: Key, values: seq<Value>) returns (fed: TX)
    ensures fed == OnFoundAll(validate, t, peer, values)
  {
    fed := t;
    var n := 0;
    while n < |values|
      invariant 0 <= n <= |values|
      invariant OnFoundAll(validate, fed, peer, values[n..]) == OnFoundAll(validate, t, peer, values)
    {
      assert values[n..][0] == values[n] && values[n..][1..] == values[n + 1..];
      fed := OnFound(validate, fed, peer, values[n]);
      n := n + 1;
    }
  }

  lemma AnswerStep(validate: Validator, h: Holder, owners: seq<Owner>, n: nat, peer: Key, values: seq<Value>)
    requires n < |owners|
    ensures
      var o := owners[n];
      Answer(validate, h, owners[n..], peer, values) ==
      Answer(validate, Answered(validate, h, o, peer, values), owners[n + 1..], peer, values)
  {
    hide OnFoundAll;
    assert owners[n..][1..] == owners[n + 1..];
  }

  lemma TellStep(validate: Validator, h: Holder, owners: seq<Owner>, n: nat, peer: Key, values: seq<Value>)
    requires n < |owners|
    ensures
      Tell(validate, h, owners[n..], peer, values) ==
      Tell(validate, Told(validate, h, owners[n], peer, values), owners[n + 1..], peer, values)
  {
    hide OnFoundAll;
    assert owners[n..][1..] == owners[n + 1..];
  }

  class TXHolder {
    const validate: Validator
    var waiting: map<Target, seq<Owner>>
    var timeouts: map<Target, nat>
    var tx: map<Owner, TX>
    /** calls of `SendReply`, oldest first */
    var replies: seq<Reply>
    ghost var created: multiset<Owner>
    ghost var replied: multiset<Owner>
    /** calls of `Start` per key */
    var started: multiset<Target>
    ghost var closed: multiset<Target>

    ghost function View(): Holder
      reads this
    {
      Holder(waiting, timeouts, tx, replies, created, replied, started, closed)
    }

    constructor (validate: Validator)
      ensures this.validate == validate && View() == Empty() && Consistent(View())
    {
      this.validate := validate;
      waiting, timeouts, tx, replies, started := map[], map[], map[], [], multiset{};
      created, replied, closed := multiset{}, multiset{}, multiset{};
      new;
      EmptyIsConsistent();
    }

    /**
      An owner that is already pending keeps its transaction. Its new one is thrown away, and starting
      that would be undefined; so such an owner must not be the first to ask for a key.
    */
    method NewTX(owner: Owner, k: Target, t: TX, now: nat, requestTimeout: nat)
      requires owner in tx ==> k in waiting && waiting[k] != []
      modifies this`waiting, this`timeouts, this`tx, this`created, this`started
      ensures View() == DhtTx.NewTX(old(View()), owner, k, t, now + requestTimeout)
    {
      ghost var after := DhtTx.NewTX(View(), owner, k, t, now + requestTimeout);
      if owner !in tx {
        tx := tx[owner := t];
        created := created + multiset{owner};
      }
      assert tx == after.tx && created == after.created;
      var waiters := if k in waiting then waiting[k] else [];
      var count := |waiters|;
      waiting := waiting[k := waiters + [owner]];
      assert waiting == after.waiting;
      if k !in timeouts {
        timeouts := timeouts[k := now + requestTimeout];
      }
      assert timeouts == after.timeouts;
      if count == 0 {
        started := started + multiset{k};
      }
      assert started == after.started;
    }

    /** The loop of `Inform`. */
    method InformOwners(owners: seq<Owner>, peer: Key, values: seq<Value>, sendReply: bool)
      modifies this`tx, this`replies, this`replied
      ensures
        View() ==
        if sendReply then Answer(validate, old(View()), owners, peer, values)
        else Tell(validate, old(View()), owners, peer, values)
    {
      hide OnFoundAll;
      var n := 0;
      assert owners[0..] == owners;
      while n < |owners|
        invariant 0 <= n <= |owners|
        invariant sendReply ==>
          Answer(validate, View(), owners[n..], peer, values) == Answer(validate, old(View()), owners, peer, values)
        invariant !sendReply ==>
          Tell(validate, View(), owners[n..], peer, values) == Tell(validate, old(View()), owners, peer, values)
      {
        var o := owners[n];
        AnswerStep(validate, View(), owners, n, peer, values);
        TellStep(validate, View(), owners, n, peer, values);
        hide Answer, Tell;
        if o in tx {
          var fed := Feed(validate, tx[o], peer, values);
          if sendReply {
            replies := replies + [Reply(o, fed)];
            replied := replied + multiset{o};
            tx := tx - {o};
          } else {
            tx := tx[o := fed];
          }
        }
        n := n + 1;
      }
    }

    method Inform(peer: Key, k: Target, values: seq<Value>, sendReply: bool, removeTimeouts: bool)
      modifies this`waiting, this`timeouts, this`tx, this`replies, this`replied, this`closed
      ensures
        View() ==
        if sendReply then DhtTx.Inform(validate, old(View()), peer, k, values, removeTimeouts)
        else InformQuietly(validate, old(View()), peer, k, values, removeTimeouts)
    {
      hide Answer, Tell;
      InformOwners(if k in waiting then waiting[k] else [], peer, values, sendReply);
      if sendReply {
        if k in waiting {
          closed := closed + multiset{k};
        }
        waiting := waiting - {k};
      }
      if removeTimeouts {
        timeouts := timeouts - {k};
      }
    }

    method Found(from: Owner, k: Target, values: seq<Value>)
      modifies this
      ensures View() == DhtTx.Found(validate, old(View()), from, k, values)
    {
      Inform(from.node, k, values, true, true);
    }

    method NotFound(from: Owner)
      modifies this
      ensures View() == DhtTx.NotFound(validate, old(View()), from)
    {
      if from !in tx {
        return;
      }
      Inform(from.node, tx[from].target, [], true, true);
    }

    method ExpireOne(k: Target)
      modifies this
      ensures View() == ExpireKey(validate, old(View()), k) && timeouts == old(timeouts) - {k}
    {
      hide DhtTx.Inform;
      InformKeepsTimeouts(validate, View(), ZERO, k, []);
      Inform(ZERO, k, [], true, false);
      timeouts := timeouts - {k};
    }

    /** Meets the late keys in some order. */
    method Expire(now: nat) returns (ghost order: seq<Target>)
      modifies this
      ensures Members(order) == Late(old(View()), now)
      ensures View() == ExpireKeys(validate, old(View()), order)
    {
      order := [];
      ghost var before := View();
      var rest := timeouts.Keys;
      assert Met(before, now, order, rest);
      while rest != {}
        invariant rest <= timeouts.Keys && (forall k | k in rest :: timeouts[k] == before.timeouts[k])
        invariant Met(before, now, order, rest)
        invariant View() == ExpireKeys(validate, before, order)
      {
        hide ExpireKeys, ExpireKey, Met;
        var k :| k in rest;
        MetMore(before, now, order, rest, k);
        rest := rest - {k};
        if now >= timeouts[k] {
          ExpireSnoc(validate, before, order, k);
          ExpireOne(k);
          order := order + [k];
        }
      }
    }
  }

  /** `order` lists the late keys other than those in `rest`. */
  ghost predicate Met(before: Holder, now: nat, order: seq<Target>, rest: set<Target>)
  {
    Members(order) == Late(before, now) - rest && rest <= before.timeouts.Keys
  }

  lemma MetMore(before: Holder, now: nat, order: seq<Target>, rest: set<Target>, k: Target)
    requires Met(before, now, order, rest) && k in rest
    ensures k in before.timeouts
    ensures Met(before, now, if now >= before.timeouts[k] then order + [k] else order, rest - {k})
  {
    assert Members(order + [k]) == Members(order) + {k};
  }

  lemma InformKeepsTimeouts(validate: Validator, h: Holder, peer: Key, k: Target, values: seq<Value>)
    ensures DhtTx.Inform(validate, h, peer, k, values, false).timeouts == h.timeouts
  {
  }

  lemma {:induction false} ExpireSnoc(validate: Validator, h: Holder, keys: seq<Target>, k: Target)
    ensures ExpireKeys(validate, h, keys + [k]) == ExpireKey(validate, ExpireKeys(validate, h, keys), k)
    decreases |keys|
  {
    hide ExpireKey;
    if keys == [] {
      assert keys + [k] == [k] && [k][1..] == [];
      assert ExpireKeys(validate, ExpireKey(validate, h, k), []) == ExpireKey(validate, h, k);
    } else {
      assert (keys + [k])[0] == keys[0] && (keys + [k])[1..] == keys[1..] + [k];
      ExpireSnoc(validate, ExpireKey(validate, h, keys[0]), keys[1..], k);
    }
  }
}
