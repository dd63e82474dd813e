/** What the running program does to packets, in every state it can reach. */
module GatewayPackets {
  import opened Options
  import opened Iptables
  import opened FwRules
  import opened FwMeaning
  import opened FwClasses
  import opened FwTeardown
  import opened GatewaySpec
  import opened GatewayTheorems
  import CS = ClientSpec

  // ---------- The fate of a packet ----------

  /** The authenticated client a packet comes from. */
  function LoginOf(cs: seq<CS.Client>, p: Packet): Login {
    var i := CS.Find(cs, p.src, p.mac);
    if i < |cs| && cs[i].state.Authenticated? then Login.Client(cs[i].idx) else Nobody
  }

  lemma OutRuleMatches(e: Env, c: CS.Client, p: Packet)
    ensures Matches(OutRule(e, c.ip, c.mac, c.idx), p) <==> c.ip == p.src && c.mac == p.mac
    ensures MarkBlind(OutRule(e, c.ip, c.mac, c.idx))
  {
    MatchesTwo(Src(Host(c.ip)), MacSource(c.mac), p, OutRule(e, c.ip, c.mac, c.idx).target);
    hide ClientMark;
  }

  /** The rules of the outgoing chain are those of the authenticated clients. */
  lemma {:induction false} OutRulesAre(e: Env, cs: seq<CS.Client>, r: Rule)
    ensures r in OutRules(e, cs) <==>
              exists c :: c in cs && c.state.Authenticated? && r == OutRule(e, c.ip, c.mac, c.idx)
    decreases |cs|
  {
    hide OutRule;
    if cs != [] {
      OutRulesAre(e, cs[1..], r);
      assert cs == [cs[0]] + cs[1..];
    }
  }

  lemma SameClient(cs: seq<CS.Client>, max: nat, c: CS.Client, i: nat)
    requires CS.Sound(cs, max) && c in cs && i < |cs| && c.ip == cs[i].ip && c.mac == cs[i].mac
    ensures c == cs[i]
  {
    var j :| 0 <= j < |cs| && cs[j] == c;
  }

  lemma LoginMeets(e: Env, t: Table, cs: seq<CS.Client>, max: nat, p: Packet)
    requires CS.Sound(cs, max) && Agree(e, t, cs)
    ensures OutgoingMeets(e, t[NdsOut], p, LoginOf(cs, p))
  {
    var chain, who, i := t[NdsOut], LoginOf(cs, p), CS.Find(cs, p.src, p.mac);
    forall k | 0 <= k < |chain|
      ensures MarkBlind(chain[k])
      ensures Matches(chain[k], p) ==>
        who.Client? && chain[k].target == e.Marker(ClientMark(who.idx, e.cfg.marks.authenticated))
    {
      assert chain[k] in multiset(chain);
      OutRulesAre(e, cs, chain[k]);
      var c :| c in cs && c.state.Authenticated? && chain[k] == OutRule(e, c.ip, c.mac, c.idx);
      OutRuleMatches(e, c, p);
      if Matches(chain[k], p) {
        var j :| 0 <= j < |cs| && cs[j] == c;
        assert i <= j;
        SameClient(cs, max, c, i);
      }
    }
    if who.Client? {
      var r := OutRule(e, cs[i].ip, cs[i].mac, cs[i].idx);
      OutRulesAre(e, cs, r);
      OutRuleMatches(e, cs[i], p);
      assert cs[i] in cs;
      assert r in multiset(chain);
      assert r in chain && Matches(r, p);
    }
  }

  /** What the configuration, the lists and the logins of the moment ask for a packet on its way to
      the internet. */
  function Fate(s: Setting, w: World, p: Packet): Option<Verdict> {
    var rs := s.e.cfg.rulesets;
    if p.mac in w.lists.trusted then (if p.state.Invalid? then Some(Dropped) else ClassVerdict(rs.trustedUsers, p))
    else if IsBlocked(s.e, w.lists, p.mac) || p.state.Invalid? then Some(Dropped)
    else if LoginOf(w.clients, p).Client? then ClassVerdict(rs.authenticated, p)
    else StrangerFate(s, p)
  }

  /** What it asks for a packet that nothing is known about. */
  function StrangerFate(s: Setting, p: Packet): Option<Verdict> {
    var rs := s.e.cfg.rulesets;
    if p.state.Invalid? then Some(Dropped)
    else if rs.preauthenticated.rules == [] then PolicyVerdict(rs.preauthenticated.policy)
    else Some(OrReject(RulesVerdict(rs.preauthenticated.rules, p)))
  }

  /** The packet carries none of the three marks. */
  predicate NoClass(e: Env, p: Packet) {
    var marks := e.cfg.marks;
    Class(e, p) != marks.blocked && Class(e, p) != marks.trusted && Class(e, p) != marks.authenticated
  }

  lemma {:induction false} HitIgnoresMark(rules: seq<FwRule>, p: Packet, mark: nat)
    ensures FirstHit(rules, p.(mark := mark)) == FirstHit(rules, p)
  {
    if rules != [] {
      HitIgnoresMark(rules[1..], p, mark);
    }
  }

  lemma VerdictIgnoresMark(rs: Ruleset, p: Packet, mark: nat)
    ensures ClassVerdict(rs, p.(mark := mark)) == ClassVerdict(rs, p)
    ensures RulesVerdict(rs.rules, p.(mark := mark)) == RulesVerdict(rs.rules, p)
  {
    HitIgnoresMark(rs.rules, p, mark);
  }

  lemma FateOfClass(s: Setting, w: World, p: Packet, mark: nat)
    requires s.e.cfg.marks.Distinct()
    ensures Class(s.e, p.(mark := mark)) == WantedClass(s.e, w.lists, p, LoginOf(w.clients, p)) ==>
            ForwardVerdict(s.e, p.(mark := mark)) == Fate(s, w, p)
    ensures NoClass(s.e, p.(mark := mark)) ==> ForwardVerdict(s.e, p.(mark := mark)) == StrangerFate(s, p)
  {
    var rs := s.e.cfg.rulesets;
    VerdictIgnoresMark(rs.trustedUsers, p, mark);
    VerdictIgnoresMark(rs.authenticated, p, mark);
    VerdictIgnoresMark(rs.preauthenticated, p, mark);
    hide ClassVerdict, RulesVerdict, Class, IsBlocked, LoginOf;
  }

  lemma LoginFits(s: Setting, w: World, p: Packet)
    requires CS.Sound(w.clients, s.maxclients)
    requires forall idx: nat :: idx < s.maxclients ==> MarkFits(s.e.cfg.marks, idx)
    ensures LoginOf(w.clients, p).Client? ==> MarkFits(s.e.cfg.marks, LoginOf(w.clients, p).idx)
  {
  }

  /** The state can be reached, and the client marks can be told from the others. */
  predicate Live(s: Setting, k0: Tables, lists: MacLists, steps: seq<Step>, w: World)
    requires Fresh(k0)
  {
    && Reached(s, k0, lists, steps, w) && s.e.masking && s.e.cfg.marks.Distinct()
    && forall idx: nat :: idx < s.maxclients ==> MarkFits(s.e.cfg.marks, idx)
  }

  /** The packet as the three jumps mark it. */
  function Marked(s: Setting, w: World, p: Packet): Packet {
    p.(mark := MarkAfter(s.e, w.lists, p, LoginOf(w.clients, p)))
  }

  /** The class that the MAC lists and the client list of the moment give a packet. */
  function MarkedClass(s: Setting, w: World, p: Packet): nat {
    if s.e.orMark then UnitedClass(s.e, w.lists, p, LoginOf(w.clients, p))
    else WantedClass(s.e, w.lists, p, LoginOf(w.clients, p))
  }

  /** The whole PREROUTING hook: a packet without a mark is given its class, and then sees the rules that
      were there before. */
  lemma PacketMarked(s: Setting, k0: Tables, lists: MacLists, steps: seq<Step>, w: World, p: Packet, depth: nat)
    requires Fresh(k0) && Foreign(k0.mangle) && Live(s, k0, lists, steps, w)
    requires FromGateway(s.e, p) && Class(s.e, p) == 0 && depth >= 1
    ensures Class(s.e, Marked(s, w, p)) == MarkedClass(s, w, p)
    ensures PreroutingHook in w.kernel.mangle
    ensures Walk(w.kernel.mangle, w.kernel.mangle[PreroutingHook], p, depth)
         == Walk(k0.mangle, k0.mangle[PreroutingHook], Marked(s, w, p), depth)
  {
    ReachedGood(s, k0, lists, steps, w);
    var t, who := w.kernel.mangle, LoginOf(w.clients, p);
    LoginFits(s, w, p);
    LoginMeets(s.e, t, w.clients, s.maxclients, p);
    assert MangleHolds(s.e, t, w.lists) && MangleStands(s.e, k0.mangle, t);
    hide LoginOf, MangleHolds, OutgoingMeets, MarkFits, CS.Sound, Agree, Reached;
    PreroutingWalk(t, s.e, w.lists, p, who, depth);
    Classified(t, s.e, w.lists, p, who, depth);
    var old0 := k0.mangle[PreroutingHook];
    WalkConcat(t, Prerouting(s.e), old0, p, depth);
    ForeignShared(s.e, k0.mangle, t);
    WalkSame(UserChains(k0.mangle), t, k0.mangle, old0, Marked(s, w, p), depth);
  }

  lemma ForeignShared(e: Env, t0: Table, t: Table)
    requires PreroutingHook in t0 && PostroutingHook in t0 && Foreign(t0) && MangleStands(e, t0, t)
    ensures Shared(UserChains(t0), t, t0) && JumpsWithin(UserChains(t0), t0[PreroutingHook])
  {
    hide Prerouting, Postrouting, JumpsWithin;
  }

  /** In every reachable state, for every packet from the gateway interface: once it carries the class
      that the moment gives it, the filter table forwards, drops or rejects it by that class. */
  lemma ForwardByClass(s: Setting, k0: Tables, lists: MacLists, steps: seq<Step>, w: World, q: Packet, depth: nat)
    requires Fresh(k0) && Foreign(k0.filter) && Reached(s, k0, lists, steps, w) && FromGateway(s.e, q) && depth >= 2
    ensures ForwardHook in w.kernel.filter
    ensures Walk(w.kernel.filter, w.kernel.filter[ForwardHook], q, depth)
         == if ForwardVerdict(s.e, q).Some? then Decided(ForwardVerdict(s.e, q).value, q)
            else Walk(k0.filter, k0.filter[ForwardHook], q, depth)
  {
    ReachedGood(s, k0, lists, steps, w);
    assert w.kernel.filter == FilterTable(s.e, k0.filter);
    hide Walk, FilterTable, ForwardVerdict, Good, Reached, Foreign;
    ForwardCompiled(s.e, k0.filter, q, depth);
    assert ForwardHook in w.kernel.filter by { HooksStay(s.e, k0.filter); }
  }

  lemma HooksStay(e: Env, t0: Table)
    requires InputHook in t0 && ForwardHook in t0
    ensures InputHook in FilterTable(e, t0) && ForwardHook in FilterTable(e, t0)
  {
  }

  /** In every reachable state every packet from the gateway interface that carries none of the marks is
      marked by the mangle table; if what was there before leaves its class alone (`q` is the packet
      behind it), the filter table treats it exactly as the configuration, the MAC lists and the
      client list of that moment ask when at most one class applies or the classes overwrite each
      other, and as a stranger's when two classes are or-ed whose marks share no bit. */
  lemma PacketFate(s: Setting, k0: Tables, lists: MacLists, steps: seq<Step>, w: World, p: Packet, q: Packet,
      depth: nat)
    requires Fresh(k0) && Foreign(k0.mangle) && Foreign(k0.filter) && Live(s, k0, lists, steps, w)
    requires FromGateway(s.e, p) && Class(s.e, p) == 0 && depth >= 2
    requires q == p.(mark := q.mark) && Class(s.e, q) == Class(s.e, Marked(s, w, p))
    ensures PreroutingHook in w.kernel.mangle && ForwardHook in w.kernel.filter
    ensures Walk(w.kernel.mangle, w.kernel.mangle[PreroutingHook], p, depth)
         == Walk(k0.mangle, k0.mangle[PreroutingHook], Marked(s, w, p), depth)
    ensures var one := !s.e.orMark || AtMostOneClass(s.e, w.lists, p, LoginOf(w.clients, p));
            var fate := if one then Fate(s, w, p) else StrangerFate(s, p);
            one || Separate(s.e.cfg.marks) ==>
              Walk(w.kernel.filter, w.kernel.filter[ForwardHook], q, depth)
              == if fate.Some? then Decided(fate.value, q) else Walk(k0.filter, k0.filter[ForwardHook], q, depth)
  {
    var who := LoginOf(w.clients, p);
    hide *;
    PacketMarked(s, k0, lists, steps, w, p, depth);
    assert Reached(s, k0, lists, steps, w) && s.e.cfg.marks.Distinct() by { LiveParts(s, k0, lists, steps, w); }
    StillFromGateway(s.e, p, q.mark);
    ForwardByClass(s, k0, lists, steps, w, q, depth);
    FateOfClass(s, w, p, q.mark);
    ClassCases(s, w, p);
    NoClassMeans(s.e, q);
  }

  lemma LiveParts(s: Setting, k0: Tables, lists: MacLists, steps: seq<Step>, w: World)
    requires Fresh(k0) && Live(s, k0, lists, steps, w)
    ensures Reached(s, k0, lists, steps, w) && s.e.cfg.marks.Distinct()
  {
  }

  lemma NoClassMeans(e: Env, p: Packet)
    ensures var marks := e.cfg.marks;
      NoClass(e, p) <==>
        Class(e, p) != marks.blocked && Class(e, p) != marks.trusted && Class(e, p) != marks.authenticated
  {
  }

  /** Which class a packet is given. */
  lemma ClassCases(s: Setting, w: World, p: Packet)
    ensures var one := !s.e.orMark || AtMostOneClass(s.e, w.lists, p, LoginOf(w.clients, p));
            var m := MarkedClass(s, w, p);
            && (one ==> m == WantedClass(s.e, w.lists, p, LoginOf(w.clients, p)))
            && (!one && Separate(s.e.cfg.marks) ==>
                  m != s.e.cfg.marks.blocked && m != s.e.cfg.marks.trusted && m != s.e.cfg.marks.authenticated)
  {
    var who := LoginOf(w.clients, p);
    hide LoginOf, AtMostOneClass, UnitedClass, WantedClass, Separate;
    if s.e.orMark {
      if AtMostOneClass(s.e, w.lists, p, who) {
        UnitedIsWanted(s.e, w.lists, p, who);
      } else if Separate(s.e.cfg.marks) {
        UnitedWithSeparateMarks(s.e, w.lists, p, who);
      }
    }
  }

  lemma StillFromGateway(e: Env, p: Packet, mark: nat)
    requires FromGateway(e, p)
    ensures FromGateway(e, p.(mark := mark))
  {
  }

  // ---------- The captive portal of the running program ----------

  /** A new web request of a client of whom the lists say nothing and who is not authenticated. */
  predicate StrangersRequest(s: Setting, w: World, p: Packet) {
    && FromGateway(s.e, p) && p.proto.Tcp? && p.dport == 80 && p.state.New? && (p.syn ==> p.mssOption)
    && p.mac !in w.lists.trusted && !IsBlocked(s.e, w.lists, p.mac) && LoginOf(w.clients, p).Nobody?
  }

  /** The captive portal in every reachable state: with a preauthenticated ruleset of allow and log rules
      only, every new web request of a client that is at that moment neither trusted nor blocked nor
      authenticated is exempted and forwarded, or redirected to the gateway's port and accepted
      there. */
  lemma PortalAtWork(s: Setting, k0: Tables, lists: MacLists, steps: seq<Step>, w: World, p: Packet, q: Packet,
      depth: nat)
    requires Fresh(k0) && Foreign(k0.mangle) && Foreign(k0.xlate) && Foreign(k0.filter) && Live(s, k0, lists, steps, w)
    requires StrangersRequest(s, w, p) && Class(s.e, p) == 0 && depth >= 2
    requires q == p.(mark := q.mark) && Class(s.e, q) == Class(s.e, Marked(s, w, p))
    requires AcceptsOrLogs(s.e.cfg.rulesets.preauthenticated.rules)
    ensures PreroutingHook in w.kernel.xlate && ForwardHook in w.kernel.filter && InputHook in w.kernel.filter
    ensures var rules, k := s.e.cfg.rulesets.preauthenticated.rules, w.kernel;
            var to := Redirected(s.e.cfg.gwAddress, s.e.cfg.gwPort);
            var redirected := q.(dst := s.e.cfg.gwAddress, dport := s.e.cfg.gwPort);
            if FirstHit(rules, p) < |rules|
            then && Walk(k.xlate, k.xlate[PreroutingHook], q, depth) == Decided(Accepted, q)
                 && Walk(k.filter, k.filter[ForwardHook], q, depth) == Decided(Accepted, q)
            else && Walk(k.xlate, k.xlate[PreroutingHook], q, depth) == Decided(to, q)
                 && Walk(k.filter, k.filter[InputHook], redirected, depth) == Decided(Accepted, redirected)
  {
    PacketMarked(s, k0, lists, steps, w, p, depth);
    ReachedGood(s, k0, lists, steps, w);
    HitIgnoresMark(s.e.cfg.rulesets.preauthenticated.rules, p, q.mark);
    StrangerIsFresh(s, w, p, q);
    TablesStand(s, k0, w);
    hide *;
    CaptivePortal(s.e, k0.xlate, k0.filter, q, depth);
  }

  lemma StrangerIsFresh(s: Setting, w: World, p: Packet, q: Packet)
    requires StrangersRequest(s, w, p) && q == p.(mark := q.mark) && s.e.cfg.marks.Distinct()
    requires Class(s.e, q) == MarkedClass(s, w, p)
    ensures FreshWebRequest(s.e, q)
  {
    var who := LoginOf(w.clients, p);
    assert AtMostOneClass(s.e, w.lists, p, who);
    ClassCases(s, w, p);
    hide LoginOf, IsBlocked, Class, MarkedClass;
    assert WantedClass(s.e, w.lists, p, who) == 0;
  }

  lemma TablesStand(s: Setting, k0: Tables, w: World)
    requires Fresh(k0) && Good(s, k0, w)
    ensures w.kernel.xlate == NatTable(s.e, k0.xlate) && w.kernel.filter == FilterTable(s.e, k0.filter)
    ensures PreroutingHook in w.kernel.xlate && ForwardHook in w.kernel.filter && InputHook in w.kernel.filter
    ensures PreroutingHook in k0.xlate && InputHook in k0.filter && ForwardHook in k0.filter
  {
    HooksStay(s.e, k0.filter);
    NatHookStays(s.e, k0.xlate);
    hide NatTable, FilterTable;
  }

  lemma NatHookStays(e: Env, t0: Table)
    requires PreroutingHook in t0
    ensures PreroutingHook in NatTable(e, t0)
  {
  }

  /** Who is redirected, in every reachable state: a web request is, exactly when its client is not trusted,
      is not authenticated or is blocked, and no terminating preauthenticated rule applies; when two
      classes are or-ed whose marks share no bit, exactly when no such rule applies. */
  lemma RedirectedAtWork(s: Setting, k0: Tables, lists: MacLists, steps: seq<Step>, w: World, p: Packet, q: Packet,
      depth: nat)
    requires Fresh(k0) && Foreign(k0.mangle) && Foreign(k0.xlate) && Live(s, k0, lists, steps, w)
    requires FromGateway(s.e, p) && p.proto.Tcp? && p.dport == 80 && Class(s.e, p) == 0 && depth >= 1
    requires q == p.(mark := q.mark) && Class(s.e, q) == Class(s.e, Marked(s, w, p))
    ensures PreroutingHook in w.kernel.xlate
    ensures var one := !s.e.orMark || AtMostOneClass(s.e, w.lists, p, LoginOf(w.clients, p));
            var rules := s.e.cfg.rulesets.preauthenticated.rules;
            var to := Decided(Redirected(s.e.cfg.gwAddress, s.e.cfg.gwPort), q);
            var caught := p.mac !in w.lists.trusted
                          && (LoginOf(w.clients, p).Nobody? || IsBlocked(s.e, w.lists, p.mac));
            one || Separate(s.e.cfg.marks) ==>
              (Walk(w.kernel.xlate, w.kernel.xlate[PreroutingHook], q, depth) == to
               <==> (!one || caught) && FirstHit(rules, p) == |rules|)
  {
    PacketMarked(s, k0, lists, steps, w, p, depth);
    ReachedGood(s, k0, lists, steps, w);
    TablesStand(s, k0, w);
    HitIgnoresMark(s.e.cfg.rulesets.preauthenticated.rules, p, q.mark);
    StillFromGateway(s.e, p, q.mark);
    ClassCases(s, w, p);
    WantedCases(s, w, p);
    hide *;
    RedirectedExactly(s.e, k0.xlate, q, depth);
  }

  lemma WantedCases(s: Setting, w: World, p: Packet)
    requires s.e.cfg.marks.Distinct()
    ensures var c, marks := WantedClass(s.e, w.lists, p, LoginOf(w.clients, p)), s.e.cfg.marks;
      c != marks.trusted && c != marks.authenticated <==>
      p.mac !in w.lists.trusted && (LoginOf(w.clients, p).Nobody? || IsBlocked(s.e, w.lists, p.mac))
  {
    hide LoginOf, IsBlocked;
  }
}
