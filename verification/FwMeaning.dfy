/** What the built firewall does to a packet. */
module FwMeaning {
  import opened Options
  import opened Bits
  import opened Iptables
  import opened FwRules

  // ---------- What a configuration asks for ----------

  predicate Applies(r: FwRule, p: Packet) {
    && (r.mask.Some? ==> r.mask.value.Has(p.dst))
    && (r.protocol.Some? ==> r.protocol.value.All? || r.protocol.value == p.proto)
    && (r.port.Some? ==> r.port.value.lo <= p.dport <= r.port.value.hi)
  }

  predicate Terminates(r: FwRule) {
    !r.target.TargetLog? && !r.target.TargetUlog?
  }

  function RuleVerdict(r: FwRule): Verdict {
    match r.target
    case TargetDrop => Dropped
    case TargetReject => Rejected
    case _ => Accepted
  }

  /** The index of the first rule that applies and terminates, or the number of rules. */
  function FirstHit(rules: seq<FwRule>, p: Packet): (k: nat)
    ensures k <= |rules|
    ensures k < |rules| ==> Applies(rules[k], p) && Terminates(rules[k])
    ensures forall j :: 0 <= j < k ==> !(Applies(rules[j], p) && Terminates(rules[j]))
  {
    if rules == [] then 0
    else if Applies(rules[0], p) && Terminates(rules[0]) then 0
    else FirstHit(rules[1..], p) + 1
  }

  /** The verdict of a list of rules, if one of them gives a verdict. */
  function RulesVerdict(rules: seq<FwRule>, p: Packet): Option<Verdict> {
    var k := FirstHit(rules, p);
    if k < |rules| then Some(RuleVerdict(rules[k])) else None
  }

  /** The policy of an empty ruleset; "passthrough" leaves the packet to the rules that were there before. */
  function PolicyVerdict(p: Policy): Option<Verdict> {
    match p
    case PolicyReturn => None
    case PolicyAccept => Some(Accepted)
    case PolicyReject => Some(Rejected)
  }

  function OrReject(v: Option<Verdict>): Verdict {
    if v.Some? then v.value else Rejected
  }

  /** A marked class: its policy, or established traffic and then the rules, and nothing else. */
  function ClassVerdict(rs: Ruleset, p: Packet): Option<Verdict> {
    if rs.rules == [] then PolicyVerdict(rs.policy)
    else if p.state.Related? || p.state.Established? then Some(Accepted)
    else Some(OrReject(RulesVerdict(rs.rules, p)))
  }

  predicate FromGateway(e: Env, p: Packet) {
    p.inIf == e.cfg.gwInterface && e.cfg.gwRange.Has(p.src)
  }

  function Class(e: Env, p: Packet): nat {
    And(p.mark, e.MarkMask())
  }

  /** Packets on their way to the internet; None leaves them to the rules that were there before. */
  function ForwardVerdict(e: Env, p: Packet): Option<Verdict> {
    var marks, rs := e.cfg.marks, e.cfg.rulesets;
    if Class(e, p) == marks.blocked || p.state.Invalid? then Some(Dropped)
    else if Class(e, p) == marks.trusted then ClassVerdict(rs.trustedUsers, p)
    else if Class(e, p) == marks.authenticated then ClassVerdict(rs.authenticated, p)
    else if rs.preauthenticated.rules == [] then PolicyVerdict(rs.preauthenticated.policy)
    else Some(OrReject(RulesVerdict(rs.preauthenticated.rules, p)))
  }

  /** Packets to the router itself. */
  function RouterVerdict(e: Env, p: Packet): Option<Verdict> {
    var rs := e.cfg.rulesets;
    if Class(e, p) == e.cfg.marks.blocked || p.state.Invalid? then Some(Dropped)
    else if p.state.Related? || p.state.Established? then Some(Accepted)
    else if p.proto.Tcp? && p.syn && !p.mssOption then Some(Dropped)
    else if p.proto.Tcp? && p.dport == e.cfg.gwPort then Some(Accepted)
    else if Class(e, p) == e.cfg.marks.trusted then ClassVerdict(rs.trustedToRouter, p)
    else if rs.usersToRouter.rules == [] then PolicyVerdict(rs.usersToRouter.policy)
    else Some(OrReject(RulesVerdict(rs.usersToRouter.rules, p)))
  }

  /** Destination rewriting. */
  function NatVerdict(e: Env, p: Packet): Verdict {
    if Class(e, p) == e.cfg.marks.trusted || Class(e, p) == e.cfg.marks.authenticated then Accepted
    else
      var v := RulesVerdict(e.cfg.rulesets.preauthenticated.rules, p);
      if v.Some? then v.value
      else if p.proto.Tcp? && p.dport == 80 then Redirected(e.cfg.gwAddress, e.cfg.gwPort)
      else Accepted
  }

  // ---------- Walking one rule, and one ruleset ----------

  function RuleOutcome(t: Table, r: Rule, p: Packet, depth: nat): Outcome {
    if !Matches(r, p) then Passed(p)
    else
      match r.target
      case Accept => Decided(Accepted, p)
      case Drop => Decided(Dropped, p)
      case Reject => Decided(Rejected, p)
      case Dnat(ip, port) => Decided(Redirected(ip, port), p)
      case Return => Returned(p)
      case Log => Passed(p)
      case Ulog => Passed(p)
      case TcpMss(_) => Passed(p)
      case SetMark(v) => Passed(p.(mark := v))
      case OrMark(v) => Passed(p.(mark := Or(p.mark, v)))
      case Jump(chain) =>
        if depth == 0 || chain !in t then Passed(p)
        else
          match Walk(t, t[chain], p, depth - 1)
          case Decided(v, p') => Decided(v, p')
          case Returned(p') => Passed(p')
          case Passed(p') => Passed(p')
  }

  function Then(t: Table, o: Outcome, rest: seq<Rule>, depth: nat): Outcome {
    match o
    case Passed(p) => Walk(t, rest, p, depth)
    case _ => o
  }

  lemma WalkHead(t: Table, r: Rule, rest: seq<Rule>, p: Packet, depth: nat)
    ensures Walk(t, [r] + rest, p, depth) == Then(t, RuleOutcome(t, r, p, depth), rest, depth)
  {
    assert ([r] + rest)[1..] == rest;
  }

  lemma WalkOne(t: Table, r: Rule, p: Packet, depth: nat)
    ensures Walk(t, [r], p, depth) == RuleOutcome(t, r, p, depth)
  {
    WalkHead(t, r, [], p, depth);
    assert [r] + [] == [r];
  }

  lemma MatchesOne(m: Match, p: Packet)
    ensures Satisfies(m, p) ==> forall x :: x in [m] ==> Satisfies(x, p)
    ensures forall target :: Matches(Rule([m], target), p) <==> Satisfies(m, p)
  {
    assert m in [m];
    forall target
      ensures Matches(Rule([m], target), p) <==> Satisfies(m, p)
    {
      assert Rule([m], target).matches == [m];
    }
  }

  lemma MatchesTwo(m: Match, n: Match, p: Packet, target: Target)
    ensures Matches(Rule([m, n], target), p) <==> Satisfies(m, p) && Satisfies(n, p)
  {
    assert m in [m, n] && n in [m, n];
    assert Rule([m, n], target).matches == [m, n];
  }

  lemma CompileMatches(r: FwRule, p: Packet)
    ensures Matches(Compile(r), p) <==> Applies(r, p)
  {
    var ms := Compile(r).matches;
    if Matches(Compile(r), p) {
      assert r.mask.Some? ==> Dst(r.mask.value) in ms;
      assert r.protocol.Some? ==> ProtoIs(r.protocol.value) in ms;
      assert r.port.Some? ==> Dport(r.port.value.lo, r.port.value.hi) in ms;
    }
  }

  /** A compiled ruleset decides as its rules do; LOG and ULOG never decide. */
  lemma VerdictOnce(rules: seq<FwRule>, p: Packet)
    requires rules != []
    ensures RulesVerdict(rules, p) ==
            if Applies(rules[0], p) && Terminates(rules[0]) then Some(RuleVerdict(rules[0]))
            else RulesVerdict(rules[1..], p)
  {
  }

  lemma {:induction false} RulesetWalk(t: Table, rules: seq<FwRule>, p: Packet, depth: nat)
    ensures Walk(t, CompileAll(rules), p, depth)
         == match RulesVerdict(rules, p) { case Some(v) => Decided(v, p) case None => Passed(p) }
    decreases |rules|
  {
    if rules != [] {
      assert CompileAll(rules) == [Compile(rules[0])] + CompileAll(rules[1..]);
      VerdictOnce(rules, p);
      hide Walk, Compile, Applies, RulesVerdict, Terminates;
      WalkHead(t, Compile(rules[0]), CompileAll(rules[1..]), p, depth);
      CompileMatches(rules[0], p);
      RulesetWalk(t, rules[1..], p, depth);
    }
  }

  lemma AcceptEstablishedWalk(t: Table, p: Packet, depth: nat)
    ensures Walk(t, [ACCEPT_ESTABLISHED], p, depth)
         == if p.state.Related? || p.state.Established? then Decided(Accepted, p) else Passed(p)
  {
    WalkOne(t, ACCEPT_ESTABLISHED, p, depth);
    MatchesOne(StateRelatedEstablished, p);
  }

  lemma CatchAll(t: Table, target: Target, p: Packet, depth: nat)
    requires target.Accept? || target.Reject? || target.Return?
    ensures Walk(t, [Rule([], target)], p, depth)
         == match target { case Accept => Decided(Accepted, p) case Reject => Decided(Rejected, p)
             case _ => Returned(p) }
  {
    WalkOne(t, Rule([], target), p, depth);
  }

  lemma ClassChainWalk(t: Table, rs: Ruleset, p: Packet, depth: nat)
    requires rs.rules != []
    ensures Walk(t, ClassChain(rs), p, depth) == Decided(ClassVerdict(rs, p).value, p)
  {
    var a, b := [ACCEPT_ESTABLISHED], CompileAll(rs.rules);
    assert ClassChain(rs) == (a + b) + [REJECT_ALL];
    hide Walk, CompileAll, RulesVerdict;
    WalkConcat(t, a + b, [REJECT_ALL], p, depth);
    WalkConcat(t, a, b, p, depth);
    AcceptEstablishedWalk(t, p, depth);
    RulesetWalk(t, rs.rules, p, depth);
    CatchAll(t, Reject, p, depth);
  }

  /** The rule for a marked class: passed by the others, and for the class itself the class verdict;
      a policy of RETURN leaves the chain. */
  lemma ClassEntryWalk(t: Table, e: Env, mark: nat, rs: Ruleset, chain: Chain, p: Packet, depth: nat)
    requires depth >= 1 && chain in t && t[chain] == ClassChain(rs)
    ensures Walk(t, [ClassEntry(e, mark, rs, chain)], p, depth)
         == if Class(e, p) != mark then Passed(p)
            else match ClassVerdict(rs, p) { case Some(v) => Decided(v, p) case None => Returned(p) }
  {
    WalkOne(t, ClassEntry(e, mark, rs, chain), p, depth);
    MatchesOne(e.Marked(mark), p);
    if rs.rules != [] {
      ClassChainWalk(t, rs, p, depth - 1);
    }
  }

  // ---------- The chain to the internet ----------

  lemma InternetHeadWalk(t: Table, e: Env, p: Packet, depth: nat)
    ensures Walk(t, InternetHead(e), p, depth)
         == if Class(e, p) == e.cfg.marks.blocked || p.state.Invalid? then Decided(Dropped, p) else Passed(p)
  {
    var a, b := Rule([e.Marked(e.cfg.marks.blocked)], Drop), Rule([StateInvalid], Drop);
    assert InternetHead(e) == [a] + ([b] + MssRules(e));
    WalkHead(t, a, [b] + MssRules(e), p, depth);
    WalkHead(t, b, MssRules(e), p, depth);
    MatchesOne(e.Marked(e.cfg.marks.blocked), p);
    MatchesOne(StateInvalid, p);
    if e.cfg.setMss {
      WalkOne(t, MssRules(e)[0], p, depth);
    }
  }

  lemma InternetTailWalk(t: Table, rs: Ruleset, p: Packet, depth: nat)
    ensures Walk(t, InternetTail(rs), p, depth)
         == if rs.rules == []
             then match PolicyVerdict(rs.policy) { case Some(v) => Decided(v, p) case None => Returned(p) }
            else Decided(OrReject(RulesVerdict(rs.rules, p)), p)
  {
    if rs.rules == [] {
      WalkConcat(t, [Rule([], PolicyTarget(rs.policy))], [REJECT_ALL], p, depth);
      CatchAll(t, PolicyTarget(rs.policy), p, depth);
    } else {
      WalkConcat(t, CompileAll(rs.rules), [REJECT_ALL], p, depth);
      RulesetWalk(t, rs.rules, p, depth);
      CatchAll(t, Reject, p, depth);
    }
  }

  /** The filter table is built, whatever else it holds. */
  predicate FilterBuilt(e: Env, t: Table) {
    && NdsNet in t && t[NdsNet] == InternetChain(e)
    && NdsTru in t && t[NdsTru] == ClassChain(e.cfg.rulesets.trustedUsers)
    && NdsAut in t && t[NdsAut] == ClassChain(e.cfg.rulesets.authenticated)
    && NdsRtr in t && t[NdsRtr] == RouterChain(e)
    && NdsTrt in t && t[NdsTrt] == ClassChain(e.cfg.rulesets.trustedToRouter)
  }

  function OfVerdict(v: Option<Verdict>, p: Packet): Outcome {
    match v
    case Some(x) => Decided(x, p)
    case None => Returned(p)
  }

  lemma InternetChainWalk(t: Table, e: Env, p: Packet, depth: nat)
    requires FilterBuilt(e, t) && depth >= 1
    ensures Walk(t, InternetChain(e), p, depth) == OfVerdict(ForwardVerdict(e, p), p)
  {
    var marks, rs := e.cfg.marks, e.cfg.rulesets;
    var head, a, b := InternetHead(e), [ClassEntry(e, marks.trusted, rs.trustedUsers, NdsTru)],
                      [ClassEntry(e, marks.authenticated, rs.authenticated, NdsAut)];
    var tail := InternetTail(rs.preauthenticated);
    assert InternetChain(e) == head + a + b + tail;
    hide Walk, InternetHead, InternetTail, ClassEntry, RulesVerdict, ClassVerdict;
    WalkConcat(t, head + a + b, tail, p, depth);
    WalkConcat(t, head + a, b, p, depth);
    WalkConcat(t, head, a, p, depth);
    InternetHeadWalk(t, e, p, depth);
    ClassEntryWalk(t, e, marks.trusted, rs.trustedUsers, NdsTru, p, depth);
    ClassEntryWalk(t, e, marks.authenticated, rs.authenticated, NdsAut, p, depth);
    InternetTailWalk(t, rs.preauthenticated, p, depth);
  }

  // ---------- The chain to the router ----------

  lemma RouterHeadWalk(t: Table, e: Env, p: Packet, depth: nat)
    ensures Walk(t, RouterHead(e), p, depth)
         == if Class(e, p) == e.cfg.marks.blocked || p.state.Invalid? then Decided(Dropped, p)
            else if p.state.Related? || p.state.Established? then Decided(Accepted, p)
            else if p.proto.Tcp? && p.syn && !p.mssOption then Decided(Dropped, p)
            else if p.proto.Tcp? && p.dport == e.cfg.gwPort then Decided(Accepted, p)
            else Passed(p)
  {
    var h := RouterHead(e);
    assert h == [h[0]] + ([h[1]] + [h[2], h[3], h[4]]);
    RouterHeadEnd(t, e, p, depth);
    hide Walk;
    WalkHead(t, h[0], [h[1]] + [h[2], h[3], h[4]], p, depth);
    WalkHead(t, h[1], [h[2], h[3], h[4]], p, depth);
    MatchesOne(e.Marked(e.cfg.marks.blocked), p);
    MatchesOne(StateInvalid, p);
  }

  lemma RouterHeadEnd(t: Table, e: Env, p: Packet, depth: nat)
    ensures var h := RouterHead(e);
      && |h| == 5
      && Walk(t, [h[2], h[3], h[4]], p, depth)
         == if p.state.Related? || p.state.Established? then Decided(Accepted, p)
            else if p.proto.Tcp? && p.syn && !p.mssOption then Decided(Dropped, p)
            else if p.proto.Tcp? && p.dport == e.cfg.gwPort then Decided(Accepted, p)
            else Passed(p)
  {
    var h := RouterHead(e);
    assert [h[2], h[3], h[4]] == [h[2]] + ([h[3]] + [h[4]]);
    hide Walk;
    WalkHead(t, h[2], [h[3]] + [h[4]], p, depth);
    WalkHead(t, h[3], [h[4]], p, depth);
    WalkOne(t, h[4], p, depth);
    MatchesOne(StateRelatedEstablished, p);
    MatchesTwo(ProtoIs(Tcp), SynWithoutMss, p, Drop);
    MatchesTwo(ProtoIs(Tcp), Dport(e.cfg.gwPort, e.cfg.gwPort), p, Accept);
  }

  lemma RouterTailWalk(t: Table, rs: Ruleset, p: Packet, depth: nat)
    ensures Walk(t, RouterTail(rs), p, depth)
         == if rs.rules == []
             then match PolicyVerdict(rs.policy) { case Some(v) => Decided(v, p) case None => Returned(p) }
            else Decided(OrReject(RulesVerdict(rs.rules, p)), p)
  {
    if rs.rules == [] {
      CatchAll(t, PolicyTarget(rs.policy), p, depth);
    } else {
      WalkConcat(t, CompileAll(rs.rules), [REJECT_ALL], p, depth);
      RulesetWalk(t, rs.rules, p, depth);
      CatchAll(t, Reject, p, depth);
    }
  }

  lemma RouterChainWalk(t: Table, e: Env, p: Packet, depth: nat)
    requires FilterBuilt(e, t) && depth >= 1
    ensures Walk(t, RouterChain(e), p, depth) == OfVerdict(RouterVerdict(e, p), p)
  {
    var rs := e.cfg.rulesets;
    var head, a := RouterHead(e), [ClassEntry(e, e.cfg.marks.trusted, rs.trustedToRouter, NdsTrt)];
    var tail := RouterTail(rs.usersToRouter);
    assert RouterChain(e) == head + a + tail;
    hide Walk, RouterHead, RouterTail, ClassEntry, RulesVerdict, ClassVerdict;
    WalkConcat(t, head + a, tail, p, depth);
    WalkConcat(t, head, a, p, depth);
    RouterHeadWalk(t, e, p, depth);
    ClassEntryWalk(t, e, e.cfg.marks.trusted, rs.trustedToRouter, NdsTrt, p, depth);
    RouterTailWalk(t, rs.usersToRouter, p, depth);
  }

  // ---------- Whole hooks ----------

  /** A hook that starts with the jump of the gateway interface: packets from there get the chain's
      verdict; all others, and those the chain returns, meet the rules that were there before. */
  lemma EntryWalk(t: Table, e: Env, chain: Chain, rest: seq<Rule>, v: Option<Verdict>, p: Packet, depth: nat)
    requires depth >= 1 && chain in t
    requires Walk(t, t[chain], p, depth - 1) == OfVerdict(v, p)
    ensures Walk(t, [e.Entry(chain)] + rest, p, depth)
         == if FromGateway(e, p) && v.Some? then Decided(v.value, p) else Walk(t, rest, p, depth)
  {
    WalkHead(t, e.Entry(chain), rest, p, depth);
    MatchesTwo(InIf(e.cfg.gwInterface), Src(e.cfg.gwRange), p, Jump(chain));
  }

  /** Rules found in the table before the program started jump to user-defined chains of that table only. */
  predicate Foreign(t: Table) {
    && NoNds(t)
    && forall c :: c in t ==> JumpsWithin(UserChains(t), t[c])
  }

  function UserChains(t: Table): set<Chain> {
    t.Keys - {PreroutingHook, PostroutingHook, InputHook, ForwardHook}
  }

  /** Compilation is correct for forwarded packets: the filter table built from a configuration gives
      every packet from the gateway the verdict the configuration asks for; where it asks for none,
      and for all other packets, the outcome is the one the table gave before. */
  lemma ForwardCompiled(e: Env, t0: Table, p: Packet, depth: nat)
    requires InputHook in t0 && ForwardHook in t0 && Foreign(t0) && depth >= 2
    ensures Walk(FilterTable(e, t0), FilterTable(e, t0)[ForwardHook], p, depth)
         == if FromGateway(e, p) && ForwardVerdict(e, p).Some? then Decided(ForwardVerdict(e, p).value, p)
            else Walk(t0, t0[ForwardHook], p, depth)
  {
    var t := FilterTable(e, t0);
    FilterShape(e, t0);
    hide Walk, FilterTable, InternetChain, ForwardVerdict;
    InternetChainWalk(t, e, p, depth - 1);
    EntryWalk(t, e, NdsNet, t0[ForwardHook], ForwardVerdict(e, p), p, depth);
    WalkSame(UserChains(t0), t, t0, t0[ForwardHook], p, depth);
  }

  /** The same for packets to the router. */
  lemma InputCompiled(e: Env, t0: Table, p: Packet, depth: nat)
    requires InputHook in t0 && ForwardHook in t0 && Foreign(t0) && depth >= 2
    ensures Walk(FilterTable(e, t0), FilterTable(e, t0)[InputHook], p, depth)
         == if FromGateway(e, p) && RouterVerdict(e, p).Some? then Decided(RouterVerdict(e, p).value, p)
            else Walk(t0, t0[InputHook], p, depth)
  {
    var t := FilterTable(e, t0);
    FilterShape(e, t0);
    hide Walk, FilterTable, RouterChain, RouterVerdict;
    RouterChainWalk(t, e, p, depth - 1);
    EntryWalk(t, e, NdsRtr, t0[InputHook], RouterVerdict(e, p), p, depth);
    WalkSame(UserChains(t0), t, t0, t0[InputHook], p, depth);
  }

  lemma FilterShape(e: Env, t0: Table)
    requires InputHook in t0 && ForwardHook in t0 && Foreign(t0)
    ensures var t := FilterTable(e, t0);
            && FilterBuilt(e, t) && ForwardHook in t && InputHook in t
            && t[ForwardHook] == [e.Entry(NdsNet)] + t0[ForwardHook]
            && t[InputHook] == [e.Entry(NdsRtr)] + t0[InputHook]
            && Shared(UserChains(t0), t, t0)
  {
    hide InternetChain, RouterChain, ClassChain;
  }

  // ---------- nat ----------

  lemma NatHeadWalk(t: Table, e: Env, p: Packet, depth: nat)
    ensures Walk(t, NatHead(e), p, depth)
         == if Class(e, p) == e.cfg.marks.trusted || Class(e, p) == e.cfg.marks.authenticated
            then Decided(Accepted, p) else Passed(p)
  {
    var h := NatHead(e);
    assert h == [h[0]] + [h[1]];
    WalkHead(t, h[0], [h[1]], p, depth);
    WalkOne(t, h[1], p, depth);
    MatchesOne(e.Marked(e.cfg.marks.trusted), p);
    MatchesOne(e.Marked(e.cfg.marks.authenticated), p);
  }

  lemma NatTailWalk(t: Table, e: Env, p: Packet, depth: nat)
    ensures Walk(t, NatTail(e), p, depth)
         == Decided(if p.proto.Tcp? && p.dport == 80 then Redirected(e.cfg.gwAddress, e.cfg.gwPort) else Accepted, p)
  {
    var h := NatTail(e);
    assert h == [h[0]] + [h[1]];
    WalkHead(t, h[0], [h[1]], p, depth);
    CatchAll(t, Accept, p, depth);
    MatchesTwo(ProtoIs(Tcp), Dport(80, 80), p, h[0].target);
  }

  lemma NatChainWalk(t: Table, e: Env, p: Packet, depth: nat)
    ensures Walk(t, NatChain(e), p, depth) == Decided(NatVerdict(e, p), p)
  {
    var rules := e.cfg.rulesets.preauthenticated.rules;
    assert NatChain(e) == NatHead(e) + CompileAll(rules) + NatTail(e);
    hide Walk, NatHead, NatTail, CompileAll, RulesVerdict;
    WalkConcat(t, NatHead(e) + CompileAll(rules), NatTail(e), p, depth);
    WalkConcat(t, NatHead(e), CompileAll(rules), p, depth);
    NatHeadWalk(t, e, p, depth);
    RulesetWalk(t, rules, p, depth);
    NatTailWalk(t, e, p, depth);
  }

  lemma NatCompiled(e: Env, t0: Table, p: Packet, depth: nat)
    requires PreroutingHook in t0 && Foreign(t0) && depth >= 1
    ensures Walk(NatTable(e, t0), NatTable(e, t0)[PreroutingHook], p, depth)
         == if FromGateway(e, p) then Decided(NatVerdict(e, p), p) else Walk(t0, t0[PreroutingHook], p, depth)
  {
    var t := NatTable(e, t0);
    assert t[PreroutingHook] == [e.Entry(NdsOut)] + t0[PreroutingHook];
    assert Shared(UserChains(t0), t, t0);
    hide Walk, NatTable, NatChain, NatVerdict;
    assert t[NdsOut] == NatChain(e) by { assert NatTable(e, t0)[NdsOut] == NatChain(e) by { NatEntry(e, t0); } }
    NatChainWalk(t, e, p, depth - 1);
    EntryWalk(t, e, NdsOut, t0[PreroutingHook], Some(NatVerdict(e, p)), p, depth);
    WalkSame(UserChains(t0), t, t0, t0[PreroutingHook], p, depth);
  }

  lemma NatEntry(e: Env, t0: Table)
    requires PreroutingHook in t0
    ensures NdsOut in NatTable(e, t0) && NatTable(e, t0)[NdsOut] == NatChain(e)
  {
  }

  // ---------- The captive portal ----------

  /** A new, well-formed web request from an unmarked client behind the gateway. */
  predicate FreshWebRequest(e: Env, p: Packet) {
    && FromGateway(e, p) && p.proto.Tcp? && p.dport == 80 && p.state.New?
    && (p.syn ==> p.mssOption)
    && Class(e, p) != e.cfg.marks.blocked && Class(e, p) != e.cfg.marks.trusted
        && Class(e, p) != e.cfg.marks.authenticated
  }

  predicate AcceptsOrLogs(rules: seq<FwRule>) {
    forall i :: 0 <= i < |rules| ==> !rules[i].target.TargetDrop? && !rules[i].target.TargetReject?
  }

  /** Across tables: with a preauthenticated ruleset of allow and log rules only, every web request of
      an unauthenticated client is either exempted in nat by its first applicable allow rule and then
      forwarded by that same rule, or redirected to the gateway's port and then accepted there. */
  lemma CaptivePortal(e: Env, nat0: Table, filter0: Table, p: Packet, depth: nat)
    requires PreroutingHook in nat0 && Foreign(nat0)
    requires InputHook in filter0 && ForwardHook in filter0 && Foreign(filter0)
    requires depth >= 2 && FreshWebRequest(e, p) && AcceptsOrLogs(e.cfg.rulesets.preauthenticated.rules)
    ensures var rules := e.cfg.rulesets.preauthenticated.rules;
            var nat', filter' := NatTable(e, nat0), FilterTable(e, filter0);
            var redirected := p.(dst := e.cfg.gwAddress, dport := e.cfg.gwPort);
            if FirstHit(rules, p) < |rules|
            then && Walk(nat', nat'[PreroutingHook], p, depth) == Decided(Accepted, p)
                 && Walk(filter', filter'[ForwardHook], p, depth) == Decided(Accepted, p)
                 && rules[FirstHit(rules, p)].target.TargetAccept?
            else && Walk(nat', nat'[PreroutingHook], p, depth) == Decided(Redirected(e.cfg.gwAddress, e.cfg.gwPort), p)
                 && Walk(filter', filter'[InputHook], redirected, depth) == Decided(Accepted, redirected)
  {
    NatCompiled(e, nat0, p, depth);
    ForwardCompiled(e, filter0, p, depth);
    InputCompiled(e, filter0, p.(dst := e.cfg.gwAddress, dport := e.cfg.gwPort), depth);
    hide Walk, NatTable, FilterTable;
  }

  /** Whatever the rulesets, a new web request is redirected exactly when its client is neither trusted
      nor authenticated and no terminating preauthenticated rule applies to it. */
  lemma RedirectedExactly(e: Env, nat0: Table, p: Packet, depth: nat)
    requires PreroutingHook in nat0 && Foreign(nat0) && depth >= 1
    requires FromGateway(e, p) && p.proto.Tcp? && p.dport == 80
    ensures var nat' := NatTable(e, nat0);
            var rules := e.cfg.rulesets.preauthenticated.rules;
            Walk(nat', nat'[PreroutingHook], p, depth) == Decided(Redirected(e.cfg.gwAddress, e.cfg.gwPort), p)
            <==> (&& Class(e, p) != e.cfg.marks.trusted && Class(e, p) != e.cfg.marks.authenticated
                  && FirstHit(rules, p) == |rules|)
  {
    NatCompiled(e, nat0, p, depth);
    hide Walk, NatTable;
  }
}
