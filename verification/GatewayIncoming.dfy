/** What becomes of a packet on its way to a client, in every state the program can reach. */
module GatewayIncoming {
  import opened Iptables
  import opened FwRules
  import opened FwMeaning
  import opened FwClasses
  import opened FwTeardown
  import opened GatewaySpec
  import opened GatewayProofs
  import opened GatewayTheorems
  import opened GatewaySteps
  import CS = ClientSpec

  // ---------- A mark before every accept ----------

  /** A rule that marks packets to this address. */
  predicate MarksFor(r: Rule, ip: Ip) {
    r.matches == [Dst(Host(ip))] && (r.target.SetMark? || r.target.OrMark?)
  }

  /** Of the rules for an address, with `n` marking ones before, no prefix has more that accept than that mark. */
  predicate MarksFirst(chain: seq<Rule>, ip: Ip, n: nat) {
    chain == [] ||
    if chain[0] == IncAcceptRule(ip) then n > 0 && MarksFirst(chain[1..], ip, n - 1)
    else MarksFirst(chain[1..], ip, if MarksFor(chain[0], ip) then n + 1 else n)
  }

  ghost predicate Ordered(chain: seq<Rule>) {
    forall ip :: MarksFirst(chain, ip, 0)
  }

  lemma {:induction false} GrantOrdered(chain: seq<Rule>, ip: Ip, m: Rule, a: Rule, to: Ip, n: nat)
    requires MarksFirst(chain, ip, n) && MarksFor(m, to) && a == IncAcceptRule(to)
    ensures MarksFirst(chain + [m] + [a], ip, n)
    decreases |chain|
  {
    var more := chain + [m] + [a];
    if chain == [] {
      assert more == [m, a] && more[1..] == [a] && [a][1..] == [];
    } else {
      assert more[0] == chain[0] && more[1..] == chain[1..] + [m] + [a];
      GrantOrdered(chain[1..], ip, m, a, to,
        if chain[0] == IncAcceptRule(ip) then n - 1 else if MarksFor(chain[0], ip) then n + 1 else n);
    }
  }

  /** Without a rule that is about another address. */
  lemma {:induction false} OtherRemoved(chain: seq<Rule>, ip: Ip, r: Rule, n: nat)
    requires MarksFirst(chain, ip, n) && r != IncAcceptRule(ip) && !MarksFor(r, ip)
    ensures MarksFirst(RemoveFirst(chain, r), ip, n)
    decreases |chain|
  {
    if chain != [] && chain[0] != r {
      OtherRemoved(chain[1..], ip, r,
        if chain[0] == IncAcceptRule(ip) then n - 1 else if MarksFor(chain[0], ip) then n + 1 else n);
      var rest := RemoveFirst(chain[1..], r);
      assert RemoveFirst(chain, r)[1..] == rest;
    }
  }

  lemma {:induction false} AcceptRemoved(chain: seq<Rule>, ip: Ip, n: nat)
    requires MarksFirst(chain, ip, n + 1) && IncAcceptRule(ip) in chain
    ensures MarksFirst(RemoveFirst(chain, IncAcceptRule(ip)), ip, n)
    decreases |chain|
  {
    if chain[0] != IncAcceptRule(ip) {
      AcceptRemoved(chain[1..], ip, if MarksFor(chain[0], ip) then n + 1 else n);
      assert RemoveFirst(chain, IncAcceptRule(ip))[1..] == RemoveFirst(chain[1..], IncAcceptRule(ip));
    }
  }

  lemma {:induction false} MarkRemoved(chain: seq<Rule>, ip: Ip, m: Rule, n: nat)
    requires MarksFirst(chain, ip, n) && MarksFor(m, ip) && m in chain
    ensures MarksFirst(RemoveFirst(chain, m), ip, n + 1)
    decreases |chain|
  {
    if chain[0] != m {
      MarkRemoved(chain[1..], ip, m,
        if chain[0] == IncAcceptRule(ip) then n - 1 else if MarksFor(chain[0], ip) then n + 1 else n);
      assert RemoveFirst(chain, m)[1..] == RemoveFirst(chain[1..], m);
    }
  }

  /** Without the first of each of a client's two rules. */
  lemma {:induction false} BothRemoved(chain: seq<Rule>, ip: Ip, m: Rule, n: nat)
    requires MarksFirst(chain, ip, n) && MarksFor(m, ip) && m in chain && IncAcceptRule(ip) in chain
    ensures MarksFirst(RemoveFirst(RemoveFirst(chain, m), IncAcceptRule(ip)), ip, n)
    decreases |chain|
  {
    var a := IncAcceptRule(ip);
    var r := RemoveFirst(chain, m);
    if chain[0] == m {
      AcceptRemoved(chain[1..], ip, n);
    } else {
      assert r == [chain[0]] + RemoveFirst(chain[1..], m);
      assert r[1..] == RemoveFirst(chain[1..], m);
      if chain[0] == a {
        MarkRemoved(chain[1..], ip, m, n - 1);
      } else {
        BothRemoved(chain[1..], ip, m, if MarksFor(chain[0], ip) then n + 1 else n);
        assert RemoveFirst(r, a)[1..] == RemoveFirst(r[1..], a);
      }
    }
  }

  lemma RevokeOrdered(chain: seq<Rule>, to: Ip, m: Rule)
    requires Ordered(chain) && MarksFor(m, to) && m in chain && IncAcceptRule(to) in chain
    ensures Ordered(RemoveFirst(RemoveFirst(chain, m), IncAcceptRule(to)))
  {
    forall ip ensures MarksFirst(RemoveFirst(RemoveFirst(chain, m), IncAcceptRule(to)), ip, 0) {
      assert MarksFirst(chain, ip, 0);
      if ip == to {
        BothRemoved(chain, ip, m, 0);
      } else {
        assert IncAcceptRule(to).matches[0] != IncAcceptRule(ip).matches[0];
        assert m.matches[0] == Dst(Host(to)) != Dst(Host(ip));
        OtherRemoved(chain, ip, m, 0);
        OtherRemoved(RemoveFirst(chain, m), ip, IncAcceptRule(to), 0);
      }
    }
  }

  // ---------- Every step keeps the order ----------

  ghost predicate InOrder(t: Table) {
    NdsInc in t && Ordered(t[NdsInc])
  }

  lemma GrantKeepsOrder(e: Env, t: Table, c: CS.Client)
    requires InOrder(t)
    ensures InOrder(GrantTo(e, t, c))
  {
    var m, a := IncMarkRule(e, c.ip, c.idx), IncAcceptRule(c.ip);
    assert GrantTo(e, t, c)[NdsInc] == t[NdsInc] + [m] + [a];
    hide GrantTo;
    forall ip ensures MarksFirst(t[NdsInc] + [m] + [a], ip, 0) {
      GrantOrdered(t[NdsInc], ip, m, a, c.ip, 0);
    }
  }

  lemma RevokeKeepsOrder(e: Env, t: Table, c: CS.Client)
    requires InOrder(t) && (c.state.Authenticated? ==> IncOf(e, c) <= multiset(t[NdsInc]))
    ensures InOrder(RevokeFrom(e, t, c))
  {
    if c.state.Authenticated? {
      var m, a := IncMarkRule(e, c.ip, c.idx), IncAcceptRule(c.ip);
      assert m in IncOf(e, c) && a in IncOf(e, c);
      assert m in t[NdsInc] && a in t[NdsInc] && m != a;
      RevokeOrdered(t[NdsInc], c.ip, m);
      StillThere(t[NdsInc], m, a);
      hide Ordered, IncOf, IncMarkRule, IncAcceptRule, OutRule;
    }
  }

  lemma {:induction false} StillThere(chain: seq<Rule>, r: Rule, a: Rule)
    requires a in chain && a != r
    ensures a in RemoveFirst(chain, r)
  {
    if chain[0] != r && chain[0] != a {
      StillThere(chain[1..], r, a);
    }
  }

  lemma {:induction false} SweepKeepsOrder(s: Setting, t: Table, kept: seq<CS.Client>, rest: seq<CS.Client>,
      clock: nat -> int, k: nat)
    requires ClientsGood(s, t, kept + rest) && InOrder(t)
    ensures InOrder(Sweep(s, t, kept, rest, clock, k).0)
    decreases |rest|
  {
    if rest != [] {
      VisitKeepsOrder(s, t, kept, rest);
      hide ClientsGood, Expired, InOrder, RevokeFrom;
      if Expired(s, rest[0], clock(k)) {
        SweepKeepsOrder(s, RevokeFrom(s.e, t, rest[0]), kept, rest[1..], clock, k + 1);
      } else {
        SweepKeepsOrder(s, t, kept + [rest[0]], rest[1..], clock, k + 1);
      }
    }
  }

  lemma VisitKeepsOrder(s: Setting, t: Table, kept: seq<CS.Client>, rest: seq<CS.Client>)
    requires ClientsGood(s, t, kept + rest) && InOrder(t) && rest != []
    ensures ClientsGood(s, t, kept + [rest[0]] + rest[1..])
    ensures ClientsGood(s, RevokeFrom(s.e, t, rest[0]), kept + rest[1..]) && InOrder(RevokeFrom(s.e, t, rest[0]))
  {
    var i := |kept|;
    assert (kept + rest)[i] == rest[0];
    assert CS.RemoveAt(kept + rest, i) == kept + rest[1..];
    assert kept + rest == kept + [rest[0]] + rest[1..];
    assert Agree(s.e, t, kept + rest);
    hide InOrder, IncOf, RevokeFrom, CS.RemoveAt, OutRules, IncRules, CS.Sound;
    RulesAround(s.e, kept + rest, i);
    RemoveGood(s, t, kept + rest, i);
    RevokeKeepsOrder(s.e, t, rest[0]);
  }

  lemma LoginKeepsOrder(s: Setting, k0: Tables, w: World, ip: Ip, mac: Mac)
    requires Fresh(k0) && Good(s, k0, w) && InOrder(w.kernel.mangle)
    ensures InOrder(Authenticated(s.e, w, ip, mac).kernel.mangle)
  {
    var i := CS.Find(w.clients, ip, mac);
    hide Good, GrantTo, InOrder, CS.Find;
    if i < |w.clients| {
      GrantKeepsOrder(s.e, w.kernel.mangle, w.clients[i]);
    }
  }

  lemma LogoutKeepsOrder(s: Setting, k0: Tables, w: World, ip: Ip, mac: Mac)
    requires Fresh(k0) && Good(s, k0, w) && InOrder(w.kernel.mangle)
    ensures InOrder(Deauthenticated(s.e, w, ip, mac).kernel.mangle)
  {
    var cs, t := w.clients, w.kernel.mangle;
    var i := CS.Find(cs, ip, mac);
    assert Agree(s.e, t, cs);
    hide Good, RevokeFrom, InOrder, CS.Find, IncOf, OutRules, IncRules;
    if i < |cs| {
      RulesAround(s.e, cs, i);
      RevokeKeepsOrder(s.e, t, cs[i]);
    }
  }

  lemma ExpireKeepsOrder(s: Setting, k0: Tables, w: World, clock: nat -> int)
    requires Fresh(k0) && Good(s, k0, w) && InOrder(w.kernel.mangle)
    ensures InOrder(Swept(s, w, clock).kernel.mangle)
  {
    GoodParts(s, k0, w);
    hide Good, FirewallGood, ClientsGood, InOrder, Sweep;
    assert [] + w.clients == w.clients;
    SweepKeepsOrder(s, w.kernel.mangle, [], w.clients, clock, 0);
  }

  /** The MAC commands work on other chains. */
  lemma MacKeepsOrder(s: Setting, w: World, mac: Mac)
    requires InOrder(w.kernel.mangle)
    ensures InOrder(Trusted(s.e, w, mac).kernel.mangle) && InOrder(Untrusted(s.e, w, mac).kernel.mangle)
    ensures InOrder(Blocked(s.e, w, mac).kernel.mangle) && InOrder(Unblocked(s.e, w, mac).kernel.mangle)
  {
    var t := w.kernel.mangle;
    OtherChain(t, AppendRule(NdsTru, TrustRule(s.e, mac)));
    OtherChain(t, DeleteRule(NdsTru, TrustRule(s.e, mac)));
    OtherChain(t, AppendRule(NdsBlk, BlockRule(s.e, mac)));
    OtherChain(t, DeleteRule(NdsBlk, BlockRule(s.e, mac)));
    hide Exec, InOrder, TrustRule, BlockRule, RemoveMac;
  }

  lemma AllowKeepsOrder(s: Setting, w: World, mac: Mac)
    requires InOrder(w.kernel.mangle)
    ensures InOrder(Allowed(s.e, w, mac).kernel.mangle) && InOrder(Unallowed(s.e, w, mac).kernel.mangle)
  {
    var t := w.kernel.mangle;
    OtherChain(t, InsertRule(NdsBlk, 1, MacRule(mac, Return)));
    OtherChain(t, DeleteRule(NdsBlk, MacRule(mac, Return)));
    hide Exec, InOrder, MacRule, RemoveMac;
  }

  lemma OtherChain(t: Table, cmd: Command)
    requires InOrder(t) && cmd.chain != NdsInc
    requires cmd.AppendRule? || cmd.InsertRule? || cmd.DeleteRule?
    ensures InOrder(Exec(t, cmd).0)
  {
    hide Ordered;
  }

  lemma StepKeepsOrder(s: Setting, k0: Tables, w: World, step: Step)
    requires Fresh(k0) && Good(s, k0, w) && InOrder(w.kernel.mangle)
    ensures InOrder(After(s, w, step).kernel.mangle)
  {
    hide Good, Authenticated, Deauthenticated, Swept, Trusted, Untrusted, Blocked, Unblocked, Allowed, Unallowed,
        InOrder;
    match step
    case Authenticate(ip, mac) => LoginKeepsOrder(s, k0, w, ip, mac);
    case Deauthenticate(ip, mac) => LogoutKeepsOrder(s, k0, w, ip, mac);
    case Expire(clock) => ExpireKeepsOrder(s, k0, w, clock);
    case Trust(arg) => if arg.Some? { MacKeepsOrder(s, w, arg.value); }
    case Untrust(arg) => if arg.Some? { MacKeepsOrder(s, w, arg.value); }
    case Block(arg) => if arg.Some? { MacKeepsOrder(s, w, arg.value); }
    case Unblock(arg) => if arg.Some? { MacKeepsOrder(s, w, arg.value); }
    case Allow(arg) => if arg.Some? { AllowKeepsOrder(s, w, arg.value); }
    case Unallow(arg) => if arg.Some? { AllowKeepsOrder(s, w, arg.value); }
    case _ =>
  }

  lemma {:induction false} RunKeepsOrder(s: Setting, k0: Tables, w: World, steps: seq<Step>)
    requires Fresh(k0) && Good(s, k0, w) && InOrder(w.kernel.mangle)
    ensures InOrder(Run(s, w, steps).kernel.mangle)
    decreases |steps|
  {
    hide Good, InOrder;
    if steps != [] {
      StepKeepsOrder(s, k0, w, steps[0]);
      StepGood(s, k0, w, steps[0]);
      hide After;
      RunKeepsOrder(s, k0, After(s, w, steps[0]), steps[1..]);
    }
  }

  /** In every reachable state the rules of the incoming chain mark a packet before they accept it. */
  lemma ReachedInOrder(s: Setting, k0: Tables, lists: MacLists, steps: seq<Step>, w: World)
    requires Fresh(k0) && Reached(s, k0, lists, steps, w)
    ensures InOrder(w.kernel.mangle)
  {
    StartGood(s, k0, lists);
    StartChains(s.e, lists, k0.mangle);
    assert InOrder(Start(s, k0, lists).kernel.mangle);
    hide Good, Start, InOrder, Run;
    RunKeepsOrder(s, k0, Start(s, k0, lists), steps);
  }

  // ---------- The walk of a packet to a client ----------

  /** The marks of some clients, one after the other. */
  function Stamps(e: Env, mark: nat, idxs: seq<nat>): (m: nat)
    decreases |idxs|
  {
    if idxs == [] then mark
    else Stamps(e, Stamp(e, mark, ClientMark(idxs[0], e.cfg.marks.authenticated)), idxs[1..])
  }

  /** The rule is one of the two of an authenticated client. */
  ghost predicate ClientRule(e: Env, cs: seq<CS.Client>, r: Rule) {
    exists c :: c in cs && c.state.Authenticated? && (r == IncMarkRule(e, c.ip, c.idx) || r == IncAcceptRule(c.ip))
  }

  lemma {:induction false} IncRulesAre(e: Env, cs: seq<CS.Client>, r: Rule)
    ensures r in IncRules(e, cs) ==> ClientRule(e, cs, r)
    decreases |cs|
  {
    hide IncMarkRule, IncAcceptRule;
    if cs != [] {
      IncRulesAre(e, cs[1..], r);
      assert cs == [cs[0]] + cs[1..];
    }
  }

  /** An authenticated client of this address has this index. */
  ghost predicate LoggedIn(cs: seq<CS.Client>, ip: Ip, idx: nat) {
    exists c :: c in cs && c.state.Authenticated? && c.ip == ip && c.idx == idx
  }

  lemma DstMatches(ip: Ip, p: Packet, target: Target)
    ensures Matches(Rule([Dst(Host(ip))], target), p) <==> p.dst == ip
  {
    MatchesOne(Dst(Host(ip)), p);
  }

  /** A client's rule, seen from a packet to `ip`: it accepts it, marks it as a client of that address, or is about
      another address. */
  lemma RuleCases(e: Env, cs: seq<CS.Client>, r: Rule, ip: Ip) returns (idx: nat)
    requires ClientRule(e, cs, r)
    ensures
      || r == IncAcceptRule(ip)
      || (r != IncAcceptRule(ip) && MarksFor(r, ip) && LoggedIn(cs, ip, idx)
          && r.target == e.Marker(ClientMark(idx, e.cfg.marks.authenticated)))
      || (r != IncAcceptRule(ip) && !MarksFor(r, ip) && forall p: Packet :: p.dst == ip ==> !Matches(r, p))
    ensures forall p: Packet :: p.dst == ip && (r == IncAcceptRule(ip) || MarksFor(r, ip)) ==> Matches(r, p)
  {
    var c :| c in cs && c.state.Authenticated? && (r == IncMarkRule(e, c.ip, c.idx) || r == IncAcceptRule(c.ip));
    idx := c.idx;
    hide ClientMark;
    assert r.matches[0] == Dst(Host(c.ip)) && IncAcceptRule(ip).matches[0] == Dst(Host(ip));
    assert MarksFor(r, ip) ==> r.matches[0] == Dst(Host(ip));
    forall p: Packet ensures Matches(r, p) <==> p.dst == c.ip {
      DstMatches(c.ip, p, r.target);
    }
  }

  /** The walk of a packet through rules of clients: the marking ones of its address up to the first accepting one. */
  lemma {:induction false} ClientsWalk(t: Table, e: Env, cs: seq<CS.Client>, chain: seq<Rule>, p: Packet, depth: nat,
      n: nat) returns (idxs: seq<nat>)
    requires (forall r :: r in chain ==> ClientRule(e, cs, r)) && MarksFirst(chain, p.dst, n)
    ensures forall x :: x in idxs ==> LoggedIn(cs, p.dst, x)
    ensures var q := p.(mark := Stamps(e, p.mark, idxs));
      if IncAcceptRule(p.dst) in chain
      then n + |idxs| > 0 && Walk(t, chain, p, depth) == Decided(Accepted, q)
      else Walk(t, chain, p, depth) == Passed(q)
    decreases |chain|
  {
    idxs := [];
    NoStamps(e, p.mark);
    if chain == [] {
      hide IncAcceptRule, ClientMark;
    } else {
      var r, rest, ip := chain[0], chain[1..], p.dst;
      assert chain == [r] + rest && r in chain && forall x :: x in rest ==> x in chain;
      var idx := RuleCases(e, cs, r, ip);
      FirstRule(t, e, r, rest, p, depth, idx);
      hide Walk, ClientMark, ClientRule, LoggedIn, IncAcceptRule, MarksFor, Matches, Stamps, Stamp;
      if r == IncAcceptRule(ip) {
      } else if MarksFor(r, ip) {
        var q := p.(mark := Stamp(e, p.mark, ClientMark(idx, e.cfg.marks.authenticated)));
        var more := ClientsWalk(t, e, cs, rest, q, depth, n + 1);
        idxs := [idx] + more;
        StampsMore(e, p.mark, idx, more);
      } else {
        idxs := ClientsWalk(t, e, cs, rest, p, depth, n);
      }
    }
  }

  lemma FirstRule(t: Table, e: Env, r: Rule, rest: seq<Rule>, p: Packet, depth: nat, idx: nat)
    requires r == IncAcceptRule(p.dst) || MarksFor(r, p.dst) ==> Matches(r, p)
    requires r != IncAcceptRule(p.dst) && MarksFor(r, p.dst) ==>
             r.target == e.Marker(ClientMark(idx, e.cfg.marks.authenticated))
    requires r != IncAcceptRule(p.dst) && !MarksFor(r, p.dst) ==> !Matches(r, p)
    ensures Walk(t, [r] + rest, p, depth) ==
            if r == IncAcceptRule(p.dst) then Decided(Accepted, p)
            else if MarksFor(r, p.dst)
            then Walk(t, rest, p.(mark := Stamp(e, p.mark, ClientMark(idx, e.cfg.marks.authenticated))), depth)
            else Walk(t, rest, p, depth)
  {
    WalkHead(t, r, rest, p, depth);
    assert IncAcceptRule(p.dst).target.Accept?;
    hide Walk, ClientMark, IncAcceptRule, MarksFor, Matches;
  }

  lemma StampsMore(e: Env, mark: nat, idx: nat, more: seq<nat>)
    ensures Stamps(e, mark, [idx] + more) == Stamps(e, Stamp(e, mark, ClientMark(idx, e.cfg.marks.authenticated)), more)
  {
    assert ([idx] + more)[1..] == more;
    hide ClientMark;
  }

  /** A packet to a client's network. */
  predicate ToGateway(e: Env, p: Packet) {
    p.outIf == e.cfg.gwInterface && e.cfg.gwRange.Has(p.dst)
  }

  lemma JumpsIn(t: Table, e: Env, old0: seq<Rule>, p: Packet, depth: nat)
    requires NdsInc in t && depth >= 1
    ensures ToGateway(e, p) ==>
      Walk(t, Postrouting(e) + old0, p, depth) ==
      match Walk(t, t[NdsInc], p, depth - 1)
      case Decided(v, q) => Decided(v, q)
      case Returned(q) => Walk(t, old0, q, depth)
      case Passed(q) => Walk(t, old0, q, depth)
    ensures !ToGateway(e, p) ==> Walk(t, Postrouting(e) + old0, p, depth) == Walk(t, old0, p, depth)
  {
    var r := Postrouting(e)[0];
    assert Postrouting(e) == [r];
    WalkHead(t, r, old0, p, depth);
    MatchesTwo(OutIf(e.cfg.gwInterface), Dst(e.cfg.gwRange), p, Jump(NdsInc));
  }

  lemma OldRulesAlike(s: Setting, k0: Tables, w: World, p: Packet, depth: nat)
    requires Fresh(k0) && Foreign(k0.mangle) && Good(s, k0, w)
    ensures Walk(w.kernel.mangle, k0.mangle[PostroutingHook], p, depth)
         == Walk(k0.mangle, k0.mangle[PostroutingHook], p, depth)
  {
    var t0, t := k0.mangle, w.kernel.mangle;
    SharedBehind(s.e, t0, t);
    WalkSame(UserChains(t0), t, t0, t0[PostroutingHook], p, depth);
  }

  lemma SharedBehind(e: Env, t0: Table, t: Table)
    requires PreroutingHook in t0 && PostroutingHook in t0 && Foreign(t0) && MangleStands(e, t0, t)
    ensures Shared(UserChains(t0), t, t0) && JumpsWithin(UserChains(t0), t0[PostroutingHook])
  {
    hide Prerouting, Postrouting, JumpsWithin;
  }

  /** The hook, on chains that hold clients' rules in order. */
  lemma ThroughHook(t: Table, e: Env, cs: seq<CS.Client>, old0: seq<Rule>, p: Packet, depth: nat)
      returns (idxs: seq<nat>)
    requires NdsInc in t && MarksFirst(t[NdsInc], p.dst, 0) && depth >= 1
    requires forall r :: r in t[NdsInc] ==> ClientRule(e, cs, r)
    requires IncAcceptRule(p.dst) in t[NdsInc] <==> exists x :: LoggedIn(cs, p.dst, x)
    ensures forall x :: x in idxs ==> LoggedIn(cs, p.dst, x)
    ensures idxs != [] <==> ToGateway(e, p) && exists x :: LoggedIn(cs, p.dst, x)
    ensures Walk(t, Postrouting(e) + old0, p, depth) ==
            if idxs != [] then Decided(Accepted, p.(mark := Stamps(e, p.mark, idxs))) else Walk(t, old0, p, depth)
  {
    hide *;
    JumpsIn(t, e, old0, p, depth);
    idxs := [];
    if ToGateway(e, p) {
      idxs := ClientsWalk(t, e, cs, t[NdsInc], p, depth - 1, 0);
      if idxs != [] {
        assert idxs[0] in idxs;
      } else {
        NoStamps(e, p.mark);
        assert p.(mark := p.mark) == p;
      }
    }
  }

  /** Main result, in every reachable state: the POSTROUTING hook accepts a packet to the address of an authenticated
      client, marked as that client's; every other packet sees the rules that were there before, as it is. */
  lemma IncomingPacket(s: Setting, k0: Tables, lists: MacLists, steps: seq<Step>, w: World, p: Packet, depth: nat)
      returns (idxs: seq<nat>)
    requires Fresh(k0) && Foreign(k0.mangle) && Reached(s, k0, lists, steps, w) && depth >= 1
    ensures PostroutingHook in w.kernel.mangle
    ensures forall x :: x in idxs ==> LoggedIn(w.clients, p.dst, x)
    ensures idxs != [] <==> ToGateway(s.e, p) && exists x :: LoggedIn(w.clients, p.dst, x)
    ensures Walk(w.kernel.mangle, w.kernel.mangle[PostroutingHook], p, depth) ==
            if idxs != [] then Decided(Accepted, p.(mark := Stamps(s.e, p.mark, idxs)))
            else Walk(k0.mangle, k0.mangle[PostroutingHook], p, depth)
  {
    ReachedGood(s, k0, lists, steps, w);
    ReachedInOrder(s, k0, lists, steps, w);
    GoodClients(s, k0, w);
    GoodHook(s, k0, w);
    InOrderAt(w.kernel.mangle, p.dst);
    hide *;
    OldRulesAlike(s, k0, w, p, depth);
    AcceptStands(s, w.kernel.mangle, w.clients, p.dst);
    idxs := ThroughHook(w.kernel.mangle, s.e, w.clients, k0.mangle[PostroutingHook], p, depth);
  }

  /** With one client of the address the mark is that client's. */
  lemma {:induction false} OneClientMarks(e: Env, mark: nat, idxs: seq<nat>, x: nat)
    requires idxs != [] && forall y :: y in idxs ==> y == x
    ensures Stamps(e, mark, idxs) == Stamp(e, mark, ClientMark(x, e.cfg.marks.authenticated))
    decreases |idxs|
  {
    var v := ClientMark(x, e.cfg.marks.authenticated);
    assert idxs[0] in idxs;
    if |idxs| > 1 {
      assert forall k | 0 <= k < |idxs[1..]| :: idxs[1..][k] == idxs[k + 1] && idxs[k + 1] in idxs;
      OneClientMarks(e, Stamp(e, mark, v), idxs[1..], x);
      StampAgain(e, mark, v);
    } else {
      assert idxs[1..] == [];
    }
  }

  lemma GoodHook(s: Setting, k0: Tables, w: World)
    requires Fresh(k0) && Good(s, k0, w)
    ensures PostroutingHook in k0.mangle && PostroutingHook in w.kernel.mangle
    ensures w.kernel.mangle[PostroutingHook] == Postrouting(s.e) + k0.mangle[PostroutingHook]
  {
  }

  lemma InOrderAt(t: Table, ip: Ip)
    requires InOrder(t)
    ensures NdsInc in t && MarksFirst(t[NdsInc], ip, 0)
  {
  }

  lemma NoStamps(e: Env, mark: nat)
    ensures Stamps(e, mark, []) == mark
  {
  }

  /** The incoming chain has rules of clients only, and an accepting one for an address exactly when an
      authenticated client has it. */
  lemma AcceptStands(s: Setting, t: Table, cs: seq<CS.Client>, ip: Ip)
    requires Agree(s.e, t, cs)
    ensures forall r :: r in t[NdsInc] ==> ClientRule(s.e, cs, r)
    ensures IncAcceptRule(ip) in t[NdsInc] <==> exists x :: LoggedIn(cs, ip, x)
  {
    hide IncRules, OutRules, IncMarkRule;
    var a := IncAcceptRule(ip);
    forall r | r in t[NdsInc] ensures ClientRule(s.e, cs, r) {
      assert r in multiset(t[NdsInc]);
      IncRulesAre(s.e, cs, r);
    }
    if a in t[NdsInc] {
      AcceptIsOf(s.e, cs, ip);
    }
    if x :| LoggedIn(cs, ip, x) {
      var c :| c in cs && c.state.Authenticated? && c.ip == ip && c.idx == x;
      var i :| 0 <= i < |cs| && cs[i] == c;
      RulesOfListed(s.e, cs, i);
      assert a in multiset(t[NdsInc]);
    }
  }

  lemma AcceptIsOf(e: Env, cs: seq<CS.Client>, ip: Ip)
    requires ClientRule(e, cs, IncAcceptRule(ip))
    ensures exists x :: LoggedIn(cs, ip, x)
  {
    var r := IncAcceptRule(ip);
    var c :| c in cs && c.state.Authenticated? && (r == IncMarkRule(e, c.ip, c.idx) || r == IncAcceptRule(c.ip));
    hide ClientMark;
    assert r.target.Accept? && r.matches[0] == Dst(Host(ip));
    assert IncAcceptRule(c.ip).matches[0] == Dst(Host(c.ip));
    assert LoggedIn(cs, ip, c.idx);
  }
}
