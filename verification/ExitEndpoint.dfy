/** The `ExitEndpoint` object's address handling, proved against the functions of `ExitAllocator` and `ExitSessions`. */
module ExitEndpoint {
  import opened ExitAllocator
  import opened ExitSessions

  class Endpoint {
    const config: Config
    var keyToIp: map<PubKey, Ip>
    var ipToKey: map<Ip, PubKey>
    var ipActivity: map<Ip, nat>
    var nextAddr: Ip
    var activeExits: map<PubKey, seq<Exit>>
    /** whether exits to the internet are allowed here */
    const permitExit: bool
    var paths: map<nat, PubKey>
    var mnodeKeys: set<PubKey>
    var mnodeSessions: map<PubKey, Ip>

    ghost function View(): Pool
      reads this
    {
      Pool(keyToIp, ipToKey, ipActivity, nextAddr, activeExits)
    }

    ghost function MasterView(): MasterNodes
      reads this
    {
      MasterNodes(mnodeKeys, mnodeSessions)
    }

    constructor Start(config: Config, permitExit: bool)
      requires ConfigOk(config)
      ensures this.config == config && this.permitExit == permitExit
      ensures View() == Started(config) && Good(config, View())
      ensures paths == map[] && MasterView() == MasterNodes({config.us}, map[])
    {
      this.config, this.permitExit := config, permitExit;
      paths, mnodeKeys, mnodeSessions := map[], {config.us}, map[];
      nextAddr := config.ifAddr;
      keyToIp := map[config.us := config.ifAddr];
      ipToKey := map[config.ifAddr := config.us];
      ipActivity := map[config.ifAddr := MAX_TIME];
      activeExits := map[];
      new;
      GoodStarted(config);
    }

    method KickIdentOffExit(pk: PubKey)
      modifies this`keyToIp, this`ipToKey, this`activeExits
      ensures View() == Kick(old(View()), pk)
    {
      var ip := 0;
      if pk in keyToIp {
        ip := keyToIp[pk];
      }
      keyToIp := keyToIp - {pk};
      ipToKey := ipToKey - {ip};
      activeExits := activeExits - {pk};
    }

    /** The search for the address that was used longest ago, among those used before `start`. */
    method FindOldest(start: nat) returns (found: Ip)
      ensures
        if exists a | a in ipActivity :: ipActivity[a] < start then LeastActive(View(), found) else found == 0
    {
      found := 0;
      var min := start;
      var rest := ipActivity.Keys;
      while rest != {}
        invariant rest <= ipActivity.Keys && min <= start
        invariant forall a | a in ipActivity && a !in rest :: min <= ipActivity[a]
        invariant if min == start then found == 0 else found in ipActivity && ipActivity[found] == min
      {
        var addr :| addr in rest;
        rest := rest - {addr};
        if ipActivity[addr] < min {
          found := addr;
          min := ipActivity[addr];
        }
      }
    }

    method AllocateNewAddress() returns (found: Ip)
      modifies this`nextAddr, this`keyToIp, this`ipToKey, this`activeExits
      ensures (View(), found) == Allocate(config, old(View()))
    {
      if nextAddr < config.highest {
        nextAddr := nextAddr + 1;
        return nextAddr;
      }
      found := FindOldest(MAX_TIME);
      var pk := 0;
      if found in ipToKey {
        pk := ipToKey[found];
      }
      ipToKey := ipToKey[found := pk];
      KickIdentOffExit(pk);
    }

    method MarkIPActive(ip: Ip, now: nat)
      modifies this`ipActivity
      ensures ipActivity == old(ipActivity)[ip := now]
    {
      ipActivity := ipActivity[ip := now];
    }

    method GetIPForIdent(pk: PubKey, now: nat) returns (found: Ip)
      modifies this`nextAddr, this`keyToIp, this`ipToKey, this`activeExits, this`ipActivity
      ensures (View(), found) == Obtain(config, old(View()), pk, now)
    {
      if pk !in keyToIp {
        hide Allocate;
        found := AllocateNewAddress();
        keyToIp := keyToIp[pk := found];
        if found in ipToKey {
          return;
        }
        ipToKey := ipToKey[found := pk];
      } else {
        found := keyToIp[pk];
      }
      MarkIPActive(found, now);
    }

    /** Refused, with nothing changed, for a forbidden exit to the internet and for a path nobody handles. */
    method AllocateNewExit(pk: PubKey, path: nat, wantInternet: bool, handled: bool, fromRouter: bool, now: nat)
      returns (mapped: bool)
      modifies this
      ensures
        if (wantInternet && !permitExit) || !handled then !mapped && unchanged(this)
        else
          && View() == NewExit(config, old(View()), pk, path, now)
          && (mapped <==> pk in keyToIp) && paths == old(paths)[path := pk]
          && MasterView() == MasterNodes(old(mnodeKeys) + (if fromRouter then {pk} else {}), old(mnodeSessions))
    {
      hide Obtain;
      if wantInternet && !permitExit {
        return false;
      }
      if !handled {
        return false;
      }
      var ip := GetIPForIdent(pk, now);
      if fromRouter {
        mnodeKeys := mnodeKeys + {pk};
      }
      var exits := if pk in activeExits then activeExits[pk] else [];
      activeExits := activeExits[pk := exits + [Exit(ip, path)]];
      paths := paths[path := pk];
      mapped := pk in keyToIp;
    }

    method ObtainMasterNodeIP(pk: PubKey, now: nat) returns (ip: Ip)
      modifies this
      ensures paths == old(paths)
      ensures (View(), MasterView(), ip) == ObtainMasterNode(config, old(View()), old(MasterView()), pk, now)
    {
      hide Obtain;
      if pk == config.us {
        return config.ifAddr;
      }
      ip := GetIPForIdent(pk, now);
      if pk !in mnodeKeys {
        mnodeKeys := mnodeKeys + {pk};
        mnodeSessions := mnodeSessions[pk := ip];
      }
    }

    /** The hook of a DNS answer, called once the session to `pk` is ready. */
    method AnswerReady(pk: PubKey) returns (ip: Ip)
      modifies this`keyToIp
      ensures (View(), ip) == ReadyHook(old(View()), pk)
      ensures
        Inverse(old(keyToIp), ipToKey) ==>
        (Inverse(keyToIp, ipToKey) <==> pk in old(keyToIp)) && (pk in old(keyToIp) <==> View() == old(View()))
    {
      if Inverse(keyToIp, ipToKey) {
        ReadyHookExactly(View(), pk);
      }
      if pk !in keyToIp {
        keyToIp := keyToIp[pk := 0];
      }
      ip := keyToIp[pk];
    }

    /** The first loop of `Tick`: sessions that have expired go, their keys stay known. */
    method ExpireSessions(expired: set<PubKey>)
      modifies this`mnodeSessions
      ensures mnodeSessions == old(mnodeSessions) - expired
    {
      var rest := mnodeSessions.Keys;
      while rest != {}
        invariant rest <= old(mnodeSessions).Keys
        invariant mnodeSessions == old(mnodeSessions) - (expired - rest)
      {
        var pk :| pk in rest;
        rest := rest - {pk};
        if pk in expired {
          mnodeSessions := mnodeSessions - {pk};
        }
      }
    }

    method Remove(pk: PubKey, path: nat)
      modifies this`activeExits
      ensures View() == RemoveExit(old(View()), pk, path)
    {
      if pk in activeExits {
        var exits := activeExits[pk];
        var n := 0;
        hide WithoutFirst;
        while n < |exits|
          invariant 0 <= n <= |exits| && unchanged(this)
          invariant exits[..n] + WithoutFirst(exits[n..], path) == WithoutFirst(exits, path)
        {
          WithoutFirstStep(exits, n, path);
          if exits[n].path == path {
            activeExits := activeExits[pk := exits[..n] + exits[n + 1..]];
            return;
          }
          n := n + 1;
        }
        WithoutFirstEnd(exits, path);
        assert activeExits[pk := exits] == activeExits;
      }
    }

    /** The expiry loop of `Tick`. */
    method ExpireActive(expired: set<nat>)
      modifies this`activeExits
      ensures View() == ExpireExits(old(View()), expired)
    {
      var rest := activeExits.Keys;
      while rest != {}
        invariant rest <= activeExits.Keys == old(activeExits).Keys
        invariant forall pk | pk in activeExits ::
          activeExits[pk] == if pk in rest then old(activeExits)[pk] else Keep(old(activeExits)[pk], expired)
      {
        var pk :| pk in rest;
        rest := rest - {pk};
        var kept := DropExpired(activeExits[pk], expired);
        activeExits := activeExits[pk := kept];
      }
    }
  }

  lemma WithoutFirstStep(exits: seq<Exit>, n: nat, path: nat)
    requires n < |exits|
    ensures
      exits[..n] + WithoutFirst(exits[n..], path) ==
      if exits[n].path == path then exits[..n] + exits[n + 1..]
      else exits[..n + 1] + WithoutFirst(exits[n + 1..], path)
  {
    assert exits[n..][1..] == exits[n + 1..];
    var rest := WithoutFirst(exits[n + 1..], path);
    assert exits[..n] + ([exits[n]] + rest) == exits[..n + 1] + rest;
  }

  lemma WithoutFirstEnd(exits: seq<Exit>, path: nat)
    ensures exits[..|exits|] + WithoutFirst(exits[|exits|..], path) == exits
  {
  }

  method DropExpired(exits: seq<Exit>, expired: set<nat>) returns (kept: seq<Exit>)
    ensures kept == Keep(exits, expired)
  {
    kept := [];
    var n := 0;
    while n < |exits|
      invariant 0 <= n <= |exits|
      invariant kept + Keep(exits[n..], expired) == Keep(exits, expired)
    {
      assert exits[n..][1..] == exits[n + 1..];
      assert forall rest: seq<Exit> :: kept + ([exits[n]] + rest) == (kept + [exits[n]]) + rest;
      if exits[n].path !in expired {
        kept := kept + [exits[n]];
      }
      n := n + 1;
    }
  }
}
