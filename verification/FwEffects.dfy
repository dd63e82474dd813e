/** What the filter and nat tables do to a packet besides deciding about it: what is logged, and when the
    segment size is clamped. */
module FwEffects {
  import opened Options
  import opened Bits
  import opened Iptables
  import opened FwRules
  import opened FwMeaning

  /** The logging and clamping targets that a packet meets, in order. */
  function Effects(t: Table, rules: seq<Rule>, p: Packet, depth: nat): (r: seq<Target>)
    decreases depth, |rules|
  {
    if rules == [] then []
    else if !Matches(rules[0], p) then Effects(t, rules[1..], p, depth)
    else
      match rules[0].target
      case Log => [Log] + Effects(t, rules[1..], p, depth)
      case Ulog => [Ulog] + Effects(t, rules[1..], p, depth)
      case TcpMss(v) => [TcpMss(v)] + Effects(t, rules[1..], p, depth)
      case SetMark(v) => Effects(t, rules[1..], p.(mark := v), depth)
      case OrMark(v) => Effects(t, rules[1..], p.(mark := Or(p.mark, v)), depth)
      case Jump(chain) =>
        if depth == 0 || chain !in t then Effects(t, rules[1..], p, depth)
        else
          var o := Walk(t, t[chain], p, depth - 1);
          Effects(t, t[chain], p, depth - 1) + (if o.Decided? then [] else Effects(t, rules[1..], o.p, depth))
      case _ => []
  }

  /** What one rule does. */
  function RuleEffects(t: Table, r: Rule, p: Packet, depth: nat): (e: seq<Target>) {
    if !Matches(r, p) then []
    else if r.target.Log? || r.target.Ulog? || r.target.TcpMss? then [r.target]
    else if r.target.Jump? && depth > 0 && r.target.chain in t then Effects(t, t[r.target.chain], p, depth - 1)
    else []
  }

  lemma EffectsHead(t: Table, r: Rule, rest: seq<Rule>, p: Packet, depth: nat)
    ensures var o := RuleOutcome(t, r, p, depth);
      Effects(t, [r] + rest, p, depth) ==
      RuleEffects(t, r, p, depth) + (if o.Passed? then Effects(t, rest, o.p, depth) else [])
  {
    assert ([r] + rest)[1..] == rest;
    var more := Effects(t, rest, RuleOutcome(t, r, p, depth).p, depth);
    assert [] + more == more;
  }

  lemma EffectsOne(t: Table, r: Rule, p: Packet, depth: nat)
    ensures Effects(t, [r], p, depth) == RuleEffects(t, r, p, depth)
  {
    EffectsHead(t, r, [], p, depth);
    assert [r] + [] == [r];
  }

  lemma {:induction false} EffectsConcat(t: Table, a: seq<Rule>, b: seq<Rule>, p: Packet, depth: nat)
    ensures var o := Walk(t, a, p, depth);
      Effects(t, a + b, p, depth) == Effects(t, a, p, depth) + (if o.Passed? then Effects(t, b, o.p, depth) else [])
    decreases |a|
  {
    if a == [] {
      assert a + b == b;
      assert [] + Effects(t, b, p, depth) == Effects(t, b, p, depth);
    } else {
      assert a == [a[0]] + a[1..] && a + b == [a[0]] + (a[1..] + b);
      EffectsHead(t, a[0], a[1..] + b, p, depth);
      EffectsHead(t, a[0], a[1..], p, depth);
      WalkHead(t, a[0], a[1..], p, depth);
      hide Effects, Walk, RuleEffects, RuleOutcome;
      var o, first := RuleOutcome(t, a[0], p, depth), RuleEffects(t, a[0], p, depth);
      if o.Passed? {
        EffectsConcat(t, a[1..], b, o.p, depth);
        var rest := Walk(t, a[1..], o.p, depth);
        Regrouped(first, Effects(t, a[1..], o.p, depth), if rest.Passed? then Effects(t, b, rest.p, depth) else []);
      } else {
        Regrouped(first, [], []);
      }
    }
  }

  lemma Regrouped(a: seq<Target>, b: seq<Target>, c: seq<Target>)
    ensures a + b + c == a + (b + c)
  {
  }

  // ---------- What a configuration asks for ----------

  /** The LOG and ULOG rules that apply before the first rule that decides. */
  function Logged(rules: seq<FwRule>, p: Packet): (r: seq<Target>) {
    if rules == [] then []
    else if !Applies(rules[0], p) then Logged(rules[1..], p)
    else if rules[0].target.TargetLog? then [Log] + Logged(rules[1..], p)
    else if rules[0].target.TargetUlog? then [Ulog] + Logged(rules[1..], p)
    else []
  }

  /** For a marked class: established traffic is accepted before any rule. */
  function ClassLogged(rs: Ruleset, p: Packet): (r: seq<Target>) {
    if rs.rules == [] || p.state.Related? || p.state.Established? then [] else Logged(rs.rules, p)
  }

  /** The clamping that a packet to the internet asks for: a connection request over TCP, when it is configured;
      without a value to the size of the path. */
  function Clamped(e: Env, p: Packet): (r: seq<Target>) {
    if e.cfg.setMss && p.proto.Tcp? && p.syn && !p.rst
    then [TcpMss(if e.cfg.mssValue > 0 then e.cfg.mssValue else 0)]
    else []
  }

  function ForwardEffects(e: Env, p: Packet): (r: seq<Target>) {
    var marks, rs := e.cfg.marks, e.cfg.rulesets;
    if Class(e, p) == marks.blocked || p.state.Invalid? then []
    else Clamped(e, p) +
         (if Class(e, p) == marks.trusted then ClassLogged(rs.trustedUsers, p)
          else if Class(e, p) == marks.authenticated then ClassLogged(rs.authenticated, p)
          else Logged(rs.preauthenticated.rules, p))
  }

  // ---------- Compiled rulesets ----------

  lemma {:induction false} RulesetEffects(t: Table, rules: seq<FwRule>, p: Packet, depth: nat)
    ensures Effects(t, CompileAll(rules), p, depth) == Logged(rules, p)
    decreases |rules|
  {
    if rules != [] {
      var r := Compile(rules[0]);
      assert CompileAll(rules) == [r] + CompileAll(rules[1..]);
      EffectsHead(t, r, CompileAll(rules[1..]), p, depth);
      CompileMatches(rules[0], p);
      hide Effects, Applies, Matches;
      RulesetEffects(t, rules[1..], p, depth);
      assert [] + Logged(rules[1..], p) == Logged(rules[1..], p);
    }
  }

  lemma LastEffects(t: Table, a: seq<Rule>, r: Rule, p: Packet, depth: nat)
    requires r.target.Accept? || r.target.Reject? || r.target.Return? || r.target.Dnat?
    ensures Effects(t, a + [r], p, depth) == Effects(t, a, p, depth)
  {
    EffectsConcat(t, a, [r], p, depth);
    hide Walk;
    var o := Walk(t, a, p, depth);
    if o.Passed? {
      EffectsOne(t, r, o.p, depth);
    }
    assert Effects(t, a, p, depth) + [] == Effects(t, a, p, depth);
  }

  lemma ClassChainEffects(t: Table, rs: Ruleset, p: Packet, depth: nat)
    requires rs.rules != []
    ensures Effects(t, ClassChain(rs), p, depth) == ClassLogged(rs, p)
  {
    var b := CompileAll(rs.rules);
    assert ClassChain(rs) == [ACCEPT_ESTABLISHED] + b + [REJECT_ALL];
    LastEffects(t, [ACCEPT_ESTABLISHED] + b, REJECT_ALL, p, depth);
    EffectsHead(t, ACCEPT_ESTABLISHED, b, p, depth);
    MatchesOne(StateRelatedEstablished, p);
    RulesetEffects(t, rs.rules, p, depth);
    hide Effects, CompileAll, Logged;
    assert [] + Logged(rs.rules, p) == Logged(rs.rules, p);
  }

  lemma ClassEntryEffects(t: Table, e: Env, mark: nat, rs: Ruleset, chain: Chain, p: Packet, depth: nat)
    requires depth >= 1 && chain in t && t[chain] == ClassChain(rs)
    ensures Effects(t, [ClassEntry(e, mark, rs, chain)], p, depth) ==
            if Class(e, p) == mark then ClassLogged(rs, p) else []
  {
    EffectsOne(t, ClassEntry(e, mark, rs, chain), p, depth);
    MatchesOne(e.Marked(mark), p);
    if rs.rules != [] {
      ClassChainEffects(t, rs, p, depth - 1);
    }
    hide Effects, ClassChain;
  }

  lemma MssEffects(t: Table, e: Env, p: Packet, depth: nat)
    ensures Effects(t, MssRules(e), p, depth) == Clamped(e, p)
  {
    if e.cfg.setMss {
      var r := MssRules(e)[0];
      assert MssRules(e) == [r];
      EffectsOne(t, r, p, depth);
      MatchesTwo(ProtoIs(Tcp), SynWithoutRst, p, r.target);
    }
    hide Matches;
  }

  lemma InternetHeadEffects(t: Table, e: Env, p: Packet, depth: nat)
    ensures Effects(t, InternetHead(e), p, depth) ==
            if Class(e, p) == e.cfg.marks.blocked || p.state.Invalid? then [] else Clamped(e, p)
  {
    var a, b := Rule([e.Marked(e.cfg.marks.blocked)], Drop), Rule([StateInvalid], Drop);
    assert InternetHead(e) == [a] + ([b] + MssRules(e));
    MatchesOne(e.Marked(e.cfg.marks.blocked), p);
    MatchesOne(StateInvalid, p);
    hide Effects, MssRules, Clamped, Matches;
    EffectsHead(t, a, [b] + MssRules(e), p, depth);
    EffectsHead(t, b, MssRules(e), p, depth);
    MssEffects(t, e, p, depth);
    assert [] + Clamped(e, p) == Clamped(e, p) && [] + ([] + Clamped(e, p)) == Clamped(e, p);
  }

  lemma InternetTailEffects(t: Table, rs: Ruleset, p: Packet, depth: nat)
    ensures Effects(t, InternetTail(rs), p, depth) == Logged(rs.rules, p)
  {
    if rs.rules == [] {
      var r := Rule([], PolicyTarget(rs.policy));
      LastEffects(t, [r], REJECT_ALL, p, depth);
      EffectsOne(t, r, p, depth);
    } else {
      LastEffects(t, CompileAll(rs.rules), REJECT_ALL, p, depth);
      RulesetEffects(t, rs.rules, p, depth);
    }
    hide Effects;
  }

  /** Behind rules that pass the packet on as it is, and behind rules that do not pass it on. */
  lemma EffectsBehind(t: Table, a: seq<Rule>, b: seq<Rule>, p: Packet, depth: nat)
    ensures Walk(t, a, p, depth) == Passed(p) ==>
      Effects(t, a + b, p, depth) == Effects(t, a, p, depth) + Effects(t, b, p, depth)
      && Walk(t, a + b, p, depth) == Walk(t, b, p, depth)
    ensures !Walk(t, a, p, depth).Passed? ==>
      Effects(t, a + b, p, depth) == Effects(t, a, p, depth) && Walk(t, a + b, p, depth) == Walk(t, a, p, depth)
  {
    EffectsConcat(t, a, b, p, depth);
    WalkConcat(t, a, b, p, depth);
    hide Walk, Effects;
    assert Effects(t, a, p, depth) + [] == Effects(t, a, p, depth);
  }

  lemma InternetChainEffects(t: Table, e: Env, p: Packet, depth: nat)
    requires FilterBuilt(e, t) && depth >= 1
    ensures Effects(t, InternetChain(e), p, depth) == ForwardEffects(e, p)
  {
    var marks, rs := e.cfg.marks, e.cfg.rulesets;
    var head, a, b := InternetHead(e), [ClassEntry(e, marks.trusted, rs.trustedUsers, NdsTru)],
                      [ClassEntry(e, marks.authenticated, rs.authenticated, NdsAut)];
    var tail := InternetTail(rs.preauthenticated);
    assert InternetChain(e) == head + (a + (b + tail));
    hide Walk, Effects, InternetHead, InternetTail, ClassEntry, ClassVerdict, ClassLogged, Logged, Clamped,
        InternetChain, Class;
    EffectsBehind(t, head, a + (b + tail), p, depth);
    InternetHeadWalk(t, e, p, depth);
    InternetHeadEffects(t, e, p, depth);
    if !(Class(e, p) == marks.blocked || p.state.Invalid?) {
      ClassEffects(t, e, p, depth);
    }
  }

  /** The part behind the head. */
  lemma ClassEffects(t: Table, e: Env, p: Packet, depth: nat)
    requires FilterBuilt(e, t) && depth >= 1
    ensures var marks, rs := e.cfg.marks, e.cfg.rulesets;
      var a, b := [ClassEntry(e, marks.trusted, rs.trustedUsers, NdsTru)],
                  [ClassEntry(e, marks.authenticated, rs.authenticated, NdsAut)];
      Effects(t, a + (b + InternetTail(rs.preauthenticated)), p, depth) ==
      if Class(e, p) == marks.trusted then ClassLogged(rs.trustedUsers, p)
      else if Class(e, p) == marks.authenticated then ClassLogged(rs.authenticated, p)
      else Logged(rs.preauthenticated.rules, p)
  {
    var marks, rs := e.cfg.marks, e.cfg.rulesets;
    var a, b := [ClassEntry(e, marks.trusted, rs.trustedUsers, NdsTru)],
                [ClassEntry(e, marks.authenticated, rs.authenticated, NdsAut)];
    var tail := InternetTail(rs.preauthenticated);
    hide Walk, Effects, InternetTail, ClassEntry, ClassVerdict, ClassLogged, Logged, Class;
    ClassEntryWalk(t, e, marks.trusted, rs.trustedUsers, NdsTru, p, depth);
    ClassEntryEffects(t, e, marks.trusted, rs.trustedUsers, NdsTru, p, depth);
    EffectsBehind(t, a, b + tail, p, depth);
    if Class(e, p) != marks.trusted {
      ClassEntryWalk(t, e, marks.authenticated, rs.authenticated, NdsAut, p, depth);
      ClassEntryEffects(t, e, marks.authenticated, rs.authenticated, NdsAut, p, depth);
      EffectsBehind(t, b, tail, p, depth);
      InternetTailEffects(t, rs.preauthenticated, p, depth);
      NothingBefore(Effects(t, b + tail, p, depth));
      NothingBefore(Effects(t, tail, p, depth));
    }
  }

  lemma NothingBefore(s: seq<Target>)
    ensures [] + s == s
  {
  }

  // ---------- The other chains ----------

  function RouterEffects(e: Env, p: Packet): (r: seq<Target>) {
    var rs := e.cfg.rulesets;
    if Class(e, p) == e.cfg.marks.blocked || p.state.Invalid? || p.state.Related? || p.state.Established?
       || (p.proto.Tcp? && ((p.syn && !p.mssOption) || p.dport == e.cfg.gwPort)) then []
    else if Class(e, p) == e.cfg.marks.trusted then ClassLogged(rs.trustedToRouter, p)
    else Logged(rs.usersToRouter.rules, p)
  }

  function NatEffects(e: Env, p: Packet): (r: seq<Target>) {
    if Class(e, p) == e.cfg.marks.trusted || Class(e, p) == e.cfg.marks.authenticated then []
    else Logged(e.cfg.rulesets.preauthenticated.rules, p)
  }

  /** Rules that neither log, clamp nor jump. */
  lemma {:induction false} NoEffects(t: Table, rules: seq<Rule>, p: Packet, depth: nat)
    requires forall r :: r in rules ==> r.target.Accept? || r.target.Drop? || r.target.Reject? || r.target.Return?
                                        || r.target.Dnat?
    ensures Effects(t, rules, p, depth) == []
    decreases |rules|
  {
    if rules != [] {
      assert rules[0] in rules && forall r :: r in rules[1..] ==> r in rules;
      NoEffects(t, rules[1..], p, depth);
    }
  }

  lemma RouterTailEffects(t: Table, rs: Ruleset, p: Packet, depth: nat)
    ensures Effects(t, RouterTail(rs), p, depth) == Logged(rs.rules, p)
  {
    if rs.rules == [] {
      EffectsOne(t, Rule([], PolicyTarget(rs.policy)), p, depth);
    } else {
      LastEffects(t, CompileAll(rs.rules), REJECT_ALL, p, depth);
      RulesetEffects(t, rs.rules, p, depth);
    }
    hide Effects;
  }

  lemma RouterChainEffects(t: Table, e: Env, p: Packet, depth: nat)
    requires FilterBuilt(e, t) && depth >= 1
    ensures Effects(t, RouterChain(e), p, depth) == RouterEffects(e, p)
  {
    var rs := e.cfg.rulesets;
    var head, a := RouterHead(e), [ClassEntry(e, e.cfg.marks.trusted, rs.trustedToRouter, NdsTrt)];
    var tail := RouterTail(rs.usersToRouter);
    assert RouterChain(e) == head + a + tail;
    NoEffects(t, head, p, depth);
    hide Walk, Effects, RouterHead, RouterTail, ClassEntry, ClassVerdict, ClassLogged, Logged, RouterChain, Class;
    assert head + a + tail == head + (a + tail);
    EffectsBehind(t, head, a + tail, p, depth);
    RouterHeadWalk(t, e, p, depth);
    EffectsBehind(t, a, tail, p, depth);
    ClassEntryWalk(t, e, e.cfg.marks.trusted, rs.trustedToRouter, NdsTrt, p, depth);
    ClassEntryEffects(t, e, e.cfg.marks.trusted, rs.trustedToRouter, NdsTrt, p, depth);
    RouterTailEffects(t, rs.usersToRouter, p, depth);
    NothingBefore(Effects(t, a + tail, p, depth));
    NothingBefore(Effects(t, tail, p, depth));
  }

  lemma NatChainEffects(t: Table, e: Env, p: Packet, depth: nat)
    ensures Effects(t, NatChain(e), p, depth) == NatEffects(e, p)
  {
    var rules := e.cfg.rulesets.preauthenticated.rules;
    var head, b, tail := NatHead(e), CompileAll(rules), NatTail(e);
    assert NatChain(e) == head + b + tail;
    NoEffects(t, head, p, depth);
    forall q ensures Effects(t, tail, q, depth) == [] {
      NoEffects(t, tail, q, depth);
    }
    hide Walk, Effects, NatHead, NatTail, CompileAll, Logged, NatChain, Class;
    assert head + b + tail == head + (b + tail);
    EffectsBehind(t, head, b + tail, p, depth);
    NatHeadWalk(t, e, p, depth);
    EffectsConcat(t, b, tail, p, depth);
    RulesetEffects(t, rules, p, depth);
    NothingBefore(Effects(t, b + tail, p, depth));
    assert Logged(rules, p) + [] == Logged(rules, p);
  }

  // ---------- Whole hooks ----------

  lemma EntryEffects(t: Table, e: Env, chain: Chain, rest: seq<Rule>, p: Packet, depth: nat)
    requires depth >= 1 && chain in t && FromGateway(e, p) && Walk(t, t[chain], p, depth - 1).Decided?
    ensures Effects(t, [e.Entry(chain)] + rest, p, depth) == Effects(t, t[chain], p, depth - 1)
  {
    var r := e.Entry(chain);
    EffectsHead(t, r, rest, p, depth);
    MatchesTwo(InIf(e.cfg.gwInterface), Src(e.cfg.gwRange), p, Jump(chain));
    hide Walk, Effects;
    assert Effects(t, t[chain], p, depth - 1) + [] == Effects(t, t[chain], p, depth - 1);
  }

  /** A hook whose chain decides about the packet. */
  lemma HookEffects(t: Table, e: Env, chain: Chain, rest: seq<Rule>, v: Option<Verdict>, p: Packet, depth: nat)
    requires depth >= 1 && chain in t && FromGateway(e, p) && v.Some?
    requires Walk(t, t[chain], p, depth - 1) == OfVerdict(v, p)
    ensures Effects(t, [e.Entry(chain)] + rest, p, depth) == Effects(t, t[chain], p, depth - 1)
  {
    hide Walk, Effects;
    EntryEffects(t, e, chain, rest, p, depth);
  }

  /** Main result: on its way to the internet or to the router a packet from the gateway interface that the program
      decides about meets exactly the logging its rulesets ask for, in their order, and is clamped exactly when that
      is configured. */
  lemma EffectsCompiled(e: Env, filter0: Table, p: Packet, depth: nat)
    requires InputHook in filter0 && ForwardHook in filter0 && Foreign(filter0) && FromGateway(e, p) && depth >= 2
    ensures var t := FilterTable(e, filter0);
      && (ForwardVerdict(e, p).Some? ==> Effects(t, t[ForwardHook], p, depth) == ForwardEffects(e, p))
      && (RouterVerdict(e, p).Some? ==> Effects(t, t[InputHook], p, depth) == RouterEffects(e, p))
  {
    var t := FilterTable(e, filter0);
    FilterShape(e, filter0);
    BuiltMeans(e, t);
    hide *;
    if ForwardVerdict(e, p).Some? {
      InternetChainWalk(t, e, p, depth - 1);
      InternetChainEffects(t, e, p, depth - 1);
      HookEffects(t, e, NdsNet, filter0[ForwardHook], ForwardVerdict(e, p), p, depth);
    }
    if RouterVerdict(e, p).Some? {
      RouterChainWalk(t, e, p, depth - 1);
      RouterChainEffects(t, e, p, depth - 1);
      HookEffects(t, e, NdsRtr, filter0[InputHook], RouterVerdict(e, p), p, depth);
    }
  }

  /** Main result: so for logging in nat. */
  lemma NatEffectsCompiled(e: Env, nat0: Table, p: Packet, depth: nat)
    requires PreroutingHook in nat0 && Foreign(nat0) && FromGateway(e, p) && depth >= 1
    ensures var t := NatTable(e, nat0);
      Effects(t, t[PreroutingHook], p, depth) == NatEffects(e, p)
  {
    var t := NatTable(e, nat0);
    NatEntry(e, nat0);
    assert t[PreroutingHook] == [e.Entry(NdsOut)] + nat0[PreroutingHook];
    assert OfVerdict(Some(NatVerdict(e, p)), p) == Decided(NatVerdict(e, p), p);
    hide *;
    NatChainWalk(t, e, p, depth - 1);
    NatChainEffects(t, e, p, depth - 1);
    HookEffects(t, e, NdsOut, nat0[PreroutingHook], Some(NatVerdict(e, p)), p, depth);
  }

  lemma BuiltMeans(e: Env, t: Table)
    requires FilterBuilt(e, t)
    ensures NdsNet in t && t[NdsNet] == InternetChain(e) && NdsRtr in t && t[NdsRtr] == RouterChain(e)
  {
  }
}
