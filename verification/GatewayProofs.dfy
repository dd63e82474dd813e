/** What every reachable state of the gateway keeps. */
module GatewayProofs {
  import opened Options
  import opened Iptables
  import opened FwRules
  import opened FwClasses
  import opened GatewaySpec
  import CS = ClientSpec

  // ---------- Client rules as multisets ----------

  lemma {:induction false} RulesConcat(e: Env, a: seq<CS.Client>, b: seq<CS.Client>)
    ensures OutRules(e, a + b) == OutRules(e, a) + OutRules(e, b)
    ensures IncRules(e, a + b) == IncRules(e, a) + IncRules(e, b)
    decreases |a|
  {
    if a == [] {
      assert a + b == b;
    } else {
      assert (a + b)[0] == a[0] && (a + b)[1..] == a[1..] + b;
      RulesConcat(e, a[1..], b);
    }
  }

  function OutOf(e: Env, c: CS.Client): multiset<Rule> {
    if c.state.Authenticated? then multiset{OutRule(e, c.ip, c.mac, c.idx)} else multiset{}
  }

  function IncOf(e: Env, c: CS.Client): multiset<Rule> {
    if c.state.Authenticated? then multiset{IncMarkRule(e, c.ip, c.idx), IncAcceptRule(c.ip)} else multiset{}
  }

  lemma RulesOfOne(e: Env, c: CS.Client)
    ensures OutRules(e, [c]) == OutOf(e, c) && IncRules(e, [c]) == IncOf(e, c)
  {
  }

  /** The rules of a list, with one client taken out of it. */
  lemma RulesAround(e: Env, cs: seq<CS.Client>, i: nat)
    requires i < |cs|
    ensures OutRules(e, cs) == OutRules(e, CS.RemoveAt(cs, i)) + OutOf(e, cs[i])
    ensures IncRules(e, cs) == IncRules(e, CS.RemoveAt(cs, i)) + IncOf(e, cs[i])
  {
    assert cs == cs[..i] + ([cs[i]] + cs[i + 1..]);
    RulesConcat(e, cs[..i], [cs[i]] + cs[i + 1..]);
    RulesConcat(e, [cs[i]], cs[i + 1..]);
    RulesConcat(e, cs[..i], cs[i + 1..]);
    RulesOfOne(e, cs[i]);
  }

  /** Only the state, the address pair and the slot of a client matter for its rules. */
  lemma RulesReplaced(e: Env, cs: seq<CS.Client>, i: nat, c: CS.Client)
    requires i < |cs|
    ensures OutRules(e, cs[i := c]) == OutRules(e, cs) - OutOf(e, cs[i]) + OutOf(e, c)
    ensures IncRules(e, cs[i := c]) == IncRules(e, cs) - IncOf(e, cs[i]) + IncOf(e, c)
  {
    assert CS.RemoveAt(cs[i := c], i) == CS.RemoveAt(cs, i);
    hide *;
    RulesAround(e, cs, i);
    RulesAround(e, cs[i := c], i);
    assert cs[i := c][i] == c;
  }

  // ---------- Granting and revoking ----------

  /** Only the two client chains change. */
  predicate SameBut(t: Table, t': Table) {
    t'.Keys == t.Keys && forall c :: c in t && c != NdsOut && c != NdsInc ==> t'[c] == t[c]
  }

  lemma GrantAdds(e: Env, t: Table, c: CS.Client)
    requires NdsOut in t && NdsInc in t
    ensures var t' := GrantTo(e, t, c);
            && SameBut(t, t')
            && multiset(t'[NdsOut]) == multiset(t[NdsOut]) + OutOf(e, c.(state := CS.Authenticated))
            && multiset(t'[NdsInc]) == multiset(t[NdsInc]) + IncOf(e, c.(state := CS.Authenticated))
  {
    var a, b, d := OutRule(e, c.ip, c.mac, c.idx), IncMarkRule(e, c.ip, c.idx), IncAcceptRule(c.ip);
    var t' := GrantTo(e, t, c);
    assert t'[NdsOut] == t[NdsOut] + [a];
    assert t'[NdsInc] == t[NdsInc] + [b] + [d];
  }

  /** Deleting one rule of a chain. */
  lemma DeleteOne(t: Table, chain: Chain, r: Rule)
    requires chain in t && r in multiset(t[chain])
    ensures var t' := Exec(t, DeleteRule(chain, r)).0;
            && t'.Keys == t.Keys && (forall c :: c in t && c != chain ==> t'[c] == t[c])
            && multiset(t'[chain]) == multiset(t[chain]) - multiset{r}
  {
    assert r in t[chain];
    RemoveFirstMultiset(t[chain], r);
  }

  lemma RevokeRemoves(e: Env, t: Table, c: CS.Client)
    requires NdsOut in t && NdsInc in t
    requires OutOf(e, c) <= multiset(t[NdsOut]) && IncOf(e, c) <= multiset(t[NdsInc])
    ensures var t' := RevokeFrom(e, t, c);
            && SameBut(t, t')
            && multiset(t'[NdsOut]) == multiset(t[NdsOut]) - OutOf(e, c)
            && multiset(t'[NdsInc]) == multiset(t[NdsInc]) - IncOf(e, c)
  {
    if c.state.Authenticated? {
      var a, b, d := OutRule(e, c.ip, c.mac, c.idx), IncMarkRule(e, c.ip, c.idx), IncAcceptRule(c.ip);
      assert b != d;
      assert OutOf(e, c) == multiset{a} && IncOf(e, c) == multiset{b, d};
      hide OutOf, IncOf, OutRule, IncMarkRule, IncAcceptRule;
      RevokeThree(e, t, a, b, d);
    }
  }

  lemma TwoLess(m: multiset<Rule>, b: Rule, d: Rule)
    requires multiset{b, d} <= m && b != d
    ensures b in m && d in m - multiset{b} && m - multiset{b} - multiset{d} == m - multiset{b, d}
  {
  }

  lemma DeleteTwo(t: Table, b: Rule, d: Rule)
    requires NdsInc in t && b != d && multiset{b, d} <= multiset(t[NdsInc])
    ensures var t' := Exec(Exec(t, DeleteRule(NdsInc, b)).0, DeleteRule(NdsInc, d)).0;
            && t'.Keys == t.Keys && (forall c :: c in t && c != NdsInc ==> t'[c] == t[c])
            && multiset(t'[NdsInc]) == multiset(t[NdsInc]) - multiset{b, d}
  {
    hide Exec;
    TwoLess(multiset(t[NdsInc]), b, d);
    DeleteOne(t, NdsInc, b);
    DeleteOne(Exec(t, DeleteRule(NdsInc, b)).0, NdsInc, d);
  }

  lemma RevokeThree(e: Env, t: Table, a: Rule, b: Rule, d: Rule)
    requires NdsOut in t && NdsInc in t && b != d
    requires multiset{a} <= multiset(t[NdsOut]) && multiset{b, d} <= multiset(t[NdsInc])
    ensures var t1 := Exec(t, DeleteRule(NdsOut, a)).0;
            var t2 := Exec(t1, DeleteRule(NdsInc, b)).0;
            var t' := Exec(t2, DeleteRule(NdsInc, d)).0;
            && SameBut(t, t')
            && multiset(t'[NdsOut]) == multiset(t[NdsOut]) - multiset{a}
            && multiset(t'[NdsInc]) == multiset(t[NdsInc]) - multiset{b, d}
  {
    hide Exec;
    assert a in multiset{a};
    DeleteOne(t, NdsOut, a);
    DeleteTwo(Exec(t, DeleteRule(NdsOut, a)).0, b, d);
  }

  // ---------- Client steps ----------

  /** The invariant as far as clients are concerned. */
  predicate ClientsGood(s: Setting, t: Table, cs: seq<CS.Client>) {
    CS.Sound(cs, s.maxclients) && Agree(s.e, t, cs)
  }

  lemma AddGood(s: Setting, t: Table, cs: seq<CS.Client>, ip: Ip, arp: Option<Mac>, token: string, now: int)
    requires ClientsGood(s, t, cs)
    ensures ClientsGood(s, t, CS.Add(cs, s.maxclients, ip, arp, token, now))
  {
    CS.AddKeepsSound(cs, s.maxclients, ip, arp, token, now);
    var cs' := CS.Add(cs, s.maxclients, ip, arp, token, now);
    if cs' != cs {
      var c := cs'[|cs|];
      assert cs' == cs + [c];
      RulesConcat(s.e, cs, [c]);
      RulesOfOne(s.e, c);
    }
  }

  lemma AuthenticateGood(s: Setting, t: Table, cs: seq<CS.Client>, i: nat)
    requires ClientsGood(s, t, cs) && i < |cs| && !cs[i].state.Authenticated?
    ensures SameBut(t, GrantTo(s.e, t, cs[i]))
    ensures ClientsGood(s, GrantTo(s.e, t, cs[i]), cs[i := cs[i].(state := CS.Authenticated)])
  {
    hide OutRules, IncRules, GrantTo, OutRule, IncMarkRule, IncAcceptRule, CS.Sound;
    GrantAdds(s.e, t, cs[i]);
    RulesReplaced(s.e, cs, i, cs[i].(state := CS.Authenticated));
    SoundReplaced(cs, s.maxclients, i, cs[i].(state := CS.Authenticated));
  }

  lemma SoundReplaced(cs: seq<CS.Client>, max: nat, i: nat, c: CS.Client)
    requires CS.Sound(cs, max) && i < |cs|
    requires c.ip == cs[i].ip && c.mac == cs[i].mac && c.idx == cs[i].idx
    ensures CS.Sound(cs[i := c], max)
  {
  }

  lemma RemoveGood(s: Setting, t: Table, cs: seq<CS.Client>, i: nat)
    requires ClientsGood(s, t, cs) && i < |cs|
    ensures SameBut(t, RevokeFrom(s.e, t, cs[i]))
    ensures ClientsGood(s, RevokeFrom(s.e, t, cs[i]), CS.RemoveAt(cs, i))
  {
    hide OutRules, IncRules, RevokeFrom, OutOf, IncOf, CS.Sound, CS.RemoveAt;
    RulesAround(s.e, cs, i);
    RevokeRemoves(s.e, t, cs[i]);
    CS.RemoveKeepsSound(cs, s.maxclients, i);
  }

  /** Counter updates touch nothing the firewall depends on. */
  lemma CountGood(s: Setting, t: Table, cs: seq<CS.Client>, i: nat, c: CS.Client)
    requires ClientsGood(s, t, cs) && i < |cs|
    requires c.ip == cs[i].ip && c.mac == cs[i].mac && c.idx == cs[i].idx && c.state == cs[i].state
    ensures ClientsGood(s, t, cs[i := c])
  {
    assert OutOf(s.e, c) == OutOf(s.e, cs[i]) && IncOf(s.e, c) == IncOf(s.e, cs[i]);
    assert CS.RemoveAt(cs[i := c], i) == CS.RemoveAt(cs, i);
    hide OutRules, IncRules, OutOf, IncOf, CS.Sound, CS.RemoveAt;
    RulesAround(s.e, cs, i);
    RulesAround(s.e, cs[i := c], i);
    SoundReplaced(cs, s.maxclients, i, c);
  }

  lemma CountOutGood(s: Setting, t: Table, cs: seq<CS.Client>, r: Reading, now: int)
    requires ClientsGood(s, t, cs)
    ensures ClientsGood(s, t, CountOutgoing(cs, r, now))
  {
    hide ClientsGood;
    var i := CS.FindByIp(cs, r.ip);
    if i < |cs| {
      CountGood(s, t, cs, i, cs[i].(outgoing := r.bytes, updated := now));
    }
  }

  lemma CountInGood(s: Setting, t: Table, cs: seq<CS.Client>, r: Reading)
    requires ClientsGood(s, t, cs)
    ensures ClientsGood(s, t, CountIncoming(cs, r))
  {
    hide ClientsGood;
    var i := CS.FindByIp(cs, r.ip);
    if i < |cs| {
      CountGood(s, t, cs, i, cs[i].(incoming := r.bytes));
    }
  }

  lemma {:induction false} SweepGood(s: Setting, t: Table, kept: seq<CS.Client>, rest: seq<CS.Client>,
      clock: nat -> int, k: nat)
    requires ClientsGood(s, t, kept + rest)
    ensures var (t', cs') := Sweep(s, t, kept, rest, clock, k);
            SameBut(t, t') && ClientsGood(s, t', cs')
    decreases |rest|
  {
    if rest == [] {
      assert kept + rest == kept;
    } else {
      var i := |kept|;
      assert (kept + rest)[i] == rest[0];
      assert CS.RemoveAt(kept + rest, i) == kept + rest[1..];
      assert kept + rest == (kept + [rest[0]]) + rest[1..];
      RemoveGood(s, t, kept + rest, i);
      hide ClientsGood, Expired;
      if Expired(s, rest[0], clock(k)) {
        SweepGood(s, RevokeFrom(s.e, t, rest[0]), kept, rest[1..], clock, k + 1);
      } else {
        SweepGood(s, t, kept + [rest[0]], rest[1..], clock, k + 1);
      }
    }
  }

  // ---------- MAC steps ----------

  lemma {:induction false} RemoveMacNoRepeats(macs: seq<Mac>, mac: Mac)
    requires NoRepeats(macs)
    ensures NoRepeats(RemoveMac(macs, mac)) && forall m :: m in RemoveMac(macs, mac) ==> m in macs
    decreases |macs|
  {
    if macs != [] && macs[0] != mac {
      RemoveMacNoRepeats(macs[1..], mac);
      var rest := RemoveMac(macs[1..], mac);
      assert macs[0] !in macs[1..];
      assert RemoveMac(macs, mac) == [macs[0]] + rest;
    }
  }

  lemma MacRulesHead(macs: seq<Mac>, mac: Mac, target: Target)
    ensures MacRules([mac] + macs, target) == [MacRule(mac, target)] + MacRules(macs, target)
  {
  }

  lemma {:induction false} MacRulesRemove(macs: seq<Mac>, mac: Mac, target: Target)
    requires mac in macs
    ensures MacRules(RemoveMac(macs, mac), target) == RemoveFirst(MacRules(macs, target), MacRule(mac, target))
    ensures MacRule(mac, target) in MacRules(macs, target)
    decreases |macs|
  {
    var rules := MacRules(macs, target);
    assert rules[1..] == MacRules(macs[1..], target);
    if macs[0] == mac {
      assert rules[0] == MacRule(mac, target);
    } else {
      MacRulesRemove(macs[1..], mac, target);
      assert rules[0] != MacRule(mac, target) by {
        assert rules[0].matches[0] == MacSource(macs[0]);
        assert MacRule(mac, target).matches[0] == MacSource(mac);
      }
      MacRulesHead(RemoveMac(macs[1..], mac), macs[0], target);
      assert MacRule(mac, target) in rules[1..];
    }
  }

  /** Adding an address to the list and its rule to the chain, at either end. */
  lemma HoldsMacsAdd(chain: seq<Rule>, macs: seq<Mac>, mac: Mac, target: Target)
    requires HoldsMacs(chain, macs, target)
    ensures HoldsMacs(chain + [MacRule(mac, target)], [mac] + macs, target)
    ensures HoldsMacs([MacRule(mac, target)] + chain, [mac] + macs, target)
  {
    MacRulesHead(macs, mac, target);
  }

  lemma HoldsMacsRemove(chain: seq<Rule>, macs: seq<Mac>, mac: Mac, target: Target)
    requires HoldsMacs(chain, macs, target) && mac in macs
    ensures MacRule(mac, target) in chain
    ensures HoldsMacs(RemoveFirst(chain, MacRule(mac, target)), RemoveMac(macs, mac), target)
  {
    var r := MacRule(mac, target);
    MacRulesRemove(macs, mac, target);
    assert r in multiset(MacRules(macs, target));
    RemoveFirstMultiset(chain, r);
    RemoveFirstMultiset(MacRules(macs, target), r);
  }

  /** Removing a rule from a chain that ends in another one leaves that end alone. */
  lemma {:induction false} RemoveBeforeLast(chain: seq<Rule>, last: Rule, r: Rule)
    requires r in chain
    ensures RemoveFirst(chain + [last], r) == RemoveFirst(chain, r) + [last]
  {
    assert (chain + [last])[0] == chain[0] && (chain + [last])[1..] == chain[1..] + [last];
    if chain[0] != r {
      RemoveBeforeLast(chain[1..], last, r);
    }
  }

  /** Only one MAC chain changes. */
  predicate OnlyChain(t: Table, t': Table, c: Chain) {
    t'.Keys == t.Keys && forall d :: d in t && d != c ==> t'[d] == t[d]
  }

  lemma TrustGood(e: Env, w: World, mac: Mac)
    requires MangleHolds(e, w.kernel.mangle, w.lists) && NoRepeats(w.lists.trusted)
    ensures var w' := Trusted(e, w, mac);
            && MangleHolds(e, w'.kernel.mangle, w'.lists) && NoRepeats(w'.lists.trusted)
            && OnlyChain(w.kernel.mangle, w'.kernel.mangle, NdsTru)
  {
    if mac !in w.lists.trusted {
      HoldsMacsAdd(w.kernel.mangle[NdsTru], w.lists.trusted, mac, e.Marker(e.cfg.marks.trusted));
      hide HoldsMacs;
    }
  }

  lemma UntrustGood(e: Env, w: World, mac: Mac)
    requires MangleHolds(e, w.kernel.mangle, w.lists) && NoRepeats(w.lists.trusted)
    ensures var w' := Untrusted(e, w, mac);
            && MangleHolds(e, w'.kernel.mangle, w'.lists) && NoRepeats(w'.lists.trusted)
            && OnlyChain(w.kernel.mangle, w'.kernel.mangle, NdsTru)
  {
    if mac in w.lists.trusted {
      HoldsMacsRemove(w.kernel.mangle[NdsTru], w.lists.trusted, mac, e.Marker(e.cfg.marks.trusted));
      RemoveMacNoRepeats(w.lists.trusted, mac);
      hide HoldsMacs, RemoveMac, RemoveFirst;
    }
  }

  lemma BlockGood(e: Env, w: World, mac: Mac)
    requires MangleHolds(e, w.kernel.mangle, w.lists) && NoRepeats(w.lists.blocked)
    ensures var w' := Blocked(e, w, mac);
            && MangleHolds(e, w'.kernel.mangle, w'.lists) && NoRepeats(w'.lists.blocked)
            && OnlyChain(w.kernel.mangle, w'.kernel.mangle, NdsBlk)
  {
    if e.cfg.mechanism == MacBlock && mac !in w.lists.blocked {
      HoldsMacsAdd(w.kernel.mangle[NdsBlk], w.lists.blocked, mac, e.Marker(e.cfg.marks.blocked));
      hide HoldsMacs;
    }
  }

  lemma UnblockGood(e: Env, w: World, mac: Mac)
    requires MangleHolds(e, w.kernel.mangle, w.lists) && NoRepeats(w.lists.blocked)
    ensures var w' := Unblocked(e, w, mac);
            && MangleHolds(e, w'.kernel.mangle, w'.lists) && NoRepeats(w'.lists.blocked)
            && OnlyChain(w.kernel.mangle, w'.kernel.mangle, NdsBlk)
  {
    if e.cfg.mechanism == MacBlock && mac in w.lists.blocked {
      HoldsMacsRemove(w.kernel.mangle[NdsBlk], w.lists.blocked, mac, e.Marker(e.cfg.marks.blocked));
      RemoveMacNoRepeats(w.lists.blocked, mac);
      hide HoldsMacs, RemoveMac, RemoveFirst;
    }
  }

  lemma AllowGood(e: Env, w: World, mac: Mac)
    requires MangleHolds(e, w.kernel.mangle, w.lists) && NoRepeats(w.lists.allowed)
    ensures var w' := Allowed(e, w, mac);
            && MangleHolds(e, w'.kernel.mangle, w'.lists) && NoRepeats(w'.lists.allowed)
            && OnlyChain(w.kernel.mangle, w'.kernel.mangle, NdsBlk)
  {
    if e.cfg.mechanism == MacAllow && mac !in w.lists.allowed {
      var chain := w.kernel.mangle[NdsBlk];
      var n := |chain| - 1;
      HoldsMacsAdd(chain[..n], w.lists.allowed, mac, Return);
      var chain' := chain[..0] + [MacRule(mac, Return)] + chain[0..];
      assert chain' == [MacRule(mac, Return)] + chain;
      assert chain'[..|chain'| - 1] == [MacRule(mac, Return)] + chain[..n];
      hide HoldsMacs;
    }
  }

  lemma UnallowGood(e: Env, w: World, mac: Mac)
    requires MangleHolds(e, w.kernel.mangle, w.lists) && NoRepeats(w.lists.allowed)
    ensures var w' := Unallowed(e, w, mac);
            && MangleHolds(e, w'.kernel.mangle, w'.lists) && NoRepeats(w'.lists.allowed)
            && OnlyChain(w.kernel.mangle, w'.kernel.mangle, NdsBlk)
  {
    if e.cfg.mechanism == MacAllow && mac in w.lists.allowed {
      var chain := w.kernel.mangle[NdsBlk];
      var allow, last := chain[..|chain| - 1], chain[|chain| - 1];
      assert chain == allow + [last];
      HoldsMacsRemove(allow, w.lists.allowed, mac, Return);
      RemoveMacNoRepeats(w.lists.allowed, mac);
      RemoveBeforeLast(allow, last, MacRule(mac, Return));
      hide HoldsMacs, RemoveMac, RemoveFirst;
      var chain' := RemoveFirst(allow, MacRule(mac, Return)) + [last];
      assert chain'[..|chain'| - 1] == RemoveFirst(allow, MacRule(mac, Return));
    }
  }

  /** The commands of the MAC steps succeed whenever the chains hold the lists. */
  lemma MacCommandsWork(e: Env, t: Table, lists: MacLists, mac: Mac)
    requires MangleHolds(e, t, lists)
    ensures Exec(t, AppendRule(NdsTru, TrustRule(e, mac))).1 == 0
    ensures mac in lists.trusted ==> Exec(t, DeleteRule(NdsTru, TrustRule(e, mac))).1 == 0
    ensures Exec(t, AppendRule(NdsBlk, BlockRule(e, mac))).1 == 0
    ensures e.cfg.mechanism == MacBlock && mac in lists.blocked ==>
            Exec(t, DeleteRule(NdsBlk, BlockRule(e, mac))).1 == 0
    ensures Exec(t, InsertRule(NdsBlk, 1, MacRule(mac, Return))).1 == 0
    ensures e.cfg.mechanism == MacAllow && mac in lists.allowed ==>
            Exec(t, DeleteRule(NdsBlk, MacRule(mac, Return))).1 == 0
  {
    if mac in lists.trusted {
      RuleIsThere(t[NdsTru], lists.trusted, e.Marker(e.cfg.marks.trusted), mac);
    }
    if e.cfg.mechanism == MacBlock && mac in lists.blocked {
      RuleIsThere(t[NdsBlk], lists.blocked, e.Marker(e.cfg.marks.blocked), mac);
    }
    if e.cfg.mechanism == MacAllow && mac in lists.allowed {
      var n := |t[NdsBlk]| - 1;
      RuleIsThere(t[NdsBlk][..n], lists.allowed, Return, mac);
      assert t[NdsBlk] == t[NdsBlk][..n] + t[NdsBlk][n..];
    }
    hide HoldsMacs, MacRule;
  }

  lemma RuleIsThere(chain: seq<Rule>, macs: seq<Mac>, target: Target, mac: Mac)
    requires HoldsMacs(chain, macs, target) && mac in macs
    ensures MacRule(mac, target) in chain
  {
    var i :| 0 <= i < |macs| && macs[i] == mac;
    assert MacRules(macs, target)[i] == MacRule(mac, target);
    assert MacRules(macs, target)[i] in multiset(MacRules(macs, target));
    assert MacRule(mac, target) in multiset(chain);
  }

  // ---------- Runs ----------

  lemma {:induction false} RunConcat(s: Setting, w: World, a: seq<Step>, b: seq<Step>)
    ensures Run(s, w, a + b) == Run(s, Run(s, w, a), b)
    decreases |a|
  {
    hide After;
    if a == [] {
      assert a + b == b;
    } else {
      assert (a + b)[0] == a[0] && (a + b)[1..] == a[1..] + b;
      RunConcat(s, After(s, w, a[0]), a[1..], b);
    }
  }

  lemma RunOne(s: Setting, w: World, step: Step)
    ensures Run(s, w, [step]) == After(s, w, step)
  {
    hide After;
    assert [step][1..] == [];
  }
}
