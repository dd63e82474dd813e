/** src/fw_iptables.c: the commands that build, edit and tear down the firewall. */
module Firewall {
  import opened Iptables
  import opened FwRules

  function Get(k: Tables, n: TableName): Table {
    match n
    case Mangle => k.mangle
    case Nat => k.xlate
    case Filter => k.filter
  }

  function Put(k: Tables, n: TableName, t: Table): Tables {
    match n
    case Mangle => k.(mangle := t)
    case Nat => k.(xlate := t)
    case Filter => k.(filter := t)
  }

  /** `rc |= ...`: nonzero as soon as one of the two is. */
  function Either(a: int, b: int): int {
    if a != 0 then a else b
  }

  lemma InsertThenDelete(t: Table, chain: Chain, r: Rule)
    requires chain in t
    ensures Exec(Exec(t, InsertRule(chain, 1, r)).0, DeleteNumber(chain, 1)) == (t, 0)
  {
    var rules := t[chain][..0] + [r] + t[chain][0..];
    assert rules[..0] + rules[1..] == t[chain];
    assert t[chain := rules][chain := t[chain]] == t;
  }

  lemma MacRulesSnoc(macs: seq<Mac>, i: nat, target: Target)
    requires i < |macs|
    ensures MacRules(macs[..i + 1], target) == MacRules(macs[..i], target) + [MacRule(macs[i], target)]
  {
  }

  lemma MacRulesReverse(macs: seq<Mac>, i: nat, target: Target, rest: seq<Rule>)
    requires i < |macs|
    ensures var chain := Reverse(MacRules(macs[..i], target)) + rest;
            chain[..0] + [MacRule(macs[i], target)] + chain[0..] == Reverse(MacRules(macs[..i + 1], target)) + rest
  {
    var chain := Reverse(MacRules(macs[..i], target)) + rest;
    assert chain[..0] + [MacRule(macs[i], target)] + chain[0..] == [MacRule(macs[i], target)] + chain;
  }

  class Firewall {
    var kernel: Tables
    var marks: Marks
    var orMark: bool
    var masking: bool
    /** What this kernel supports. */
    const kernelOr: bool
    const kernelMask: bool

    constructor (kernel: Tables, kernelOr: bool, kernelMask: bool)
      ensures this.kernel == kernel && this.kernelOr == kernelOr && this.kernelMask == kernelMask
    {
      this.kernel, this.kernelOr, this.kernelMask := kernel, kernelOr, kernelMask;
      marks, orMark, masking := Marks(0, 0, 0), false, false;
    }

    /** iptables_do_command */
    method Do(n: TableName, cmd: Command) returns (rc: int)
      modifies this`kernel
      ensures rc == Exec(Get(old(kernel), n), cmd).1
      ensures kernel == Put(old(kernel), n, Exec(Get(old(kernel), n), cmd).0)
    {
      var (t, status) := Exec(Get(kernel, n), cmd);
      kernel := Put(kernel, n, t);
      rc := status;
    }

    /** `-A` */
    method Append(n: TableName, chain: Chain, rule: Rule) returns (rc: int)
      requires chain in Get(kernel, n)
      modifies this`kernel
      ensures rc == 0
      ensures kernel == Put(old(kernel), n, Get(old(kernel), n)[chain := Get(old(kernel), n)[chain] + [rule]])
    {
      rc := Do(n, AppendRule(chain, rule));
    }

    /** `-I chain at` */
    method Insert(n: TableName, chain: Chain, at: nat, rule: Rule) returns (rc: int)
      requires chain in Get(kernel, n) && 1 <= at <= |Get(kernel, n)[chain]| + 1
      modifies this`kernel
      ensures rc == 0
      ensures var rules := Get(old(kernel), n)[chain];
              kernel == Put(old(kernel), n, Get(old(kernel), n)[chain := rules[..at - 1] + [rule] + rules[at - 1..]])
    {
      rc := Do(n, InsertRule(chain, at, rule));
    }

    /** `-N` */
    method New(n: TableName, chain: Chain) returns (rc: int)
      requires chain !in Get(kernel, n)
      modifies this`kernel
      ensures rc == 0 && kernel == Put(old(kernel), n, Get(old(kernel), n)[chain := []])
    {
      rc := Do(n, NewChain(chain));
    }

    /** _iptables_init_marks */
    method InitMarks() returns (rc: int)
      ensures rc == 0 <==> marks.Distinct()
    {
      if marks.blocked == marks.trusted || marks.trusted == marks.authenticated || marks.authenticated
          == marks.blocked {
        return -1;
      }
      if marks.blocked == 0 || marks.trusted == 0 || marks.authenticated == 0 {
        return -1;
      }
      return 0;
    }

    /** _iptables_check_mark_masking: two test rules are inserted and removed again. */
    method CheckMarkMasking()
      requires PreroutingHook in kernel.mangle && ForwardHook in kernel.filter
      modifies this`kernel, this`orMark, this`masking
      ensures kernel == old(kernel) && orMark == kernelOr && masking == kernelMask
    {
      if kernelOr {
        var rc := Do(Mangle, InsertRule(PreroutingHook, 1, Rule([], OrMark(marks.blocked))));
        rc := Do(Mangle, DeleteNumber(PreroutingHook, 1));
        InsertThenDelete(old(kernel).mangle, PreroutingHook, Rule([], OrMark(marks.blocked)));
        orMark := true;
      } else {
        orMark := false;
      }
      if kernelMask {
        var rc := Do(Filter, InsertRule(ForwardHook, 1, Rule([Mark(marks.blocked, marks.Mask())], Reject)));
        rc := Do(Filter, DeleteNumber(ForwardHook, 1));
        InsertThenDelete(old(kernel).filter, ForwardHook, Rule([Mark(marks.blocked, marks.Mask())], Reject));
        masking := true;
      } else {
        masking := false;
      }
    }

    /** _iptables_append_ruleset */
    method AppendRuleset(n: TableName, rules: seq<FwRule>, chain: Chain) returns (rc: int)
      requires chain in Get(kernel, n)
      modifies this`kernel
      ensures rc == 0
      ensures kernel == Put(old(kernel), n,
          Get(old(kernel), n)[chain := Get(old(kernel), n)[chain] + CompileAll(rules)])
    {
      rc := 0;
      ghost var t := Get(kernel, n);
      assert t[chain] + CompileAll(rules[..0]) == t[chain];
      assert t[chain := t[chain]] == t;
      for i := 0 to |rules|
        invariant rc == 0
        invariant kernel == Put(old(kernel), n, t[chain := t[chain] + CompileAll(rules[..i])])
      {
        var status := Append(n, chain, Compile(rules[i]));
        rc := Either(rc, status);
        assert CompileAll(rules[..i + 1]) == CompileAll(rules[..i]) + [Compile(rules[i])];
        assert t[chain] + CompileAll(rules[..i]) + [Compile(rules[i])] == t[chain] + CompileAll(rules[..i + 1]);
      }
      assert rules[..|rules|] == rules;
    }

    // ---------- MAC rules ----------

    function Marker(v: nat): Target
      reads this
    {
      if orMark then OrMark(v) else SetMark(v)
    }

    function MarkMask(): nat
      reads this
    {
      if masking then marks.Mask() else 0xFFFF_FFFF
    }

    /** The configuration with what was found out about the kernel. */
    function EnvOf(cfg: Config): Env
      reads this
    {
      Env(cfg, orMark, masking)
    }

    method BlockMac(mac: Mac) returns (rc: int)
      modifies this`kernel
      ensures (kernel.mangle, rc) == Exec(old(kernel).mangle, AppendRule(NdsBlk, MacRule(mac, Marker(marks.blocked))))
      ensures kernel == old(kernel).(mangle := kernel.mangle)
    {
      rc := Do(Mangle, AppendRule(NdsBlk, MacRule(mac, Marker(marks.blocked))));
    }

    method UnblockMac(mac: Mac) returns (rc: int)
      modifies this`kernel
      ensures (kernel.mangle, rc) == Exec(old(kernel).mangle, DeleteRule(NdsBlk, MacRule(mac, Marker(marks.blocked))))
      ensures kernel == old(kernel).(mangle := kernel.mangle)
    {
      rc := Do(Mangle, DeleteRule(NdsBlk, MacRule(mac, Marker(marks.blocked))));
    }

    method AllowMac(mac: Mac) returns (rc: int)
      modifies this`kernel
      ensures (kernel.mangle, rc) == Exec(old(kernel).mangle, InsertRule(NdsBlk, 1, MacRule(mac, Return)))
      ensures kernel == old(kernel).(mangle := kernel.mangle)
    {
      rc := Do(Mangle, InsertRule(NdsBlk, 1, MacRule(mac, Return)));
    }

    method UnallowMac(mac: Mac) returns (rc: int)
      modifies this`kernel
      ensures (kernel.mangle, rc) == Exec(old(kernel).mangle, DeleteRule(NdsBlk, MacRule(mac, Return)))
      ensures kernel == old(kernel).(mangle := kernel.mangle)
    {
      rc := Do(Mangle, DeleteRule(NdsBlk, MacRule(mac, Return)));
    }

    method TrustMac(mac: Mac) returns (rc: int)
      modifies this`kernel
      ensures (kernel.mangle, rc) == Exec(old(kernel).mangle, AppendRule(NdsTru, MacRule(mac, Marker(marks.trusted))))
      ensures kernel == old(kernel).(mangle := kernel.mangle)
    {
      rc := Do(Mangle, AppendRule(NdsTru, MacRule(mac, Marker(marks.trusted))));
    }

    method UntrustMac(mac: Mac) returns (rc: int)
      modifies this`kernel
      ensures (kernel.mangle, rc) == Exec(old(kernel).mangle, DeleteRule(NdsTru, MacRule(mac, Marker(marks.trusted))))
      ensures kernel == old(kernel).(mangle := kernel.mangle)
    {
      rc := Do(Mangle, DeleteRule(NdsTru, MacRule(mac, Marker(marks.trusted))));
    }

    // ---------- iptables_fw_init, table by table ----------

    /** The loops over the MAC lists. */
    method FillTrusted(macs: seq<Mac>) returns (rc: int)
      requires NdsTru in kernel.mangle && kernel.mangle[NdsTru] == []
      modifies this`kernel
      ensures rc == 0
      ensures kernel == old(kernel).(mangle := old(kernel).mangle[NdsTru := MacRules(macs, Marker(marks.trusted))])
    {
      rc := 0;
      ghost var k := kernel;
      assert k.mangle[NdsTru := []] == k.mangle;
      for i := 0 to |macs|
        invariant rc == 0
        invariant kernel == k.(mangle := k.mangle[NdsTru := MacRules(macs[..i], Marker(marks.trusted))])
      {
        var status := TrustMac(macs[i]);
        rc := Either(rc, status);
        MacRulesSnoc(macs, i, Marker(marks.trusted));
        hide MacRules, MacRule;
      }
      assert macs[..|macs|] == macs;
    }

    method FillBlocked(macs: seq<Mac>) returns (rc: int)
      requires NdsBlk in kernel.mangle && kernel.mangle[NdsBlk] == []
      modifies this`kernel
      ensures rc == 0
      ensures kernel == old(kernel).(mangle := old(kernel).mangle[NdsBlk := MacRules(macs, Marker(marks.blocked))])
    {
      rc := 0;
      ghost var k := kernel;
      assert k.mangle[NdsBlk := []] == k.mangle;
      for i := 0 to |macs|
        invariant rc == 0
        invariant kernel == k.(mangle := k.mangle[NdsBlk := MacRules(macs[..i], Marker(marks.blocked))])
      {
        var status := BlockMac(macs[i]);
        rc := Either(rc, status);
        MacRulesSnoc(macs, i, Marker(marks.blocked));
        hide MacRules, MacRule;
      }
      assert macs[..|macs|] == macs;
    }

    /** Everything is blocked, but the allowed addresses are passed before that. */
    method FillAllowed(macs: seq<Mac>) returns (rc: int)
      requires NdsBlk in kernel.mangle && kernel.mangle[NdsBlk] == []
      modifies this`kernel
      ensures rc == 0
      ensures kernel == old(kernel).(mangle := old(kernel).mangle
                          [NdsBlk := Reverse(MacRules(macs, Return)) + [Rule([], Marker(marks.blocked))]])
    {
      ghost var k := kernel;
      var last := Rule([], Marker(marks.blocked));
      rc := Append(Mangle, NdsBlk, last);
      assert Reverse(MacRules([], Return)) + [last] == [last];
      for i := 0 to |macs|
        invariant rc == 0
        invariant kernel == k.(mangle := k.mangle[NdsBlk := Reverse(MacRules(macs[..i], Return)) + [last]])
      {
        var status := AllowMac(macs[i]);
        rc := Either(rc, status);
        MacRulesReverse(macs, i, Return, [last]);
        hide MacRules, MacRule, Reverse;
      }
      assert macs[..|macs|] == macs;
    }

    method FillMacChains(cfg: Config, lists: MacLists) returns (rc: int)
      requires NdsTru in kernel.mangle && NdsBlk in kernel.mangle && cfg.marks == marks
      requires kernel.mangle[NdsTru] == [] && kernel.mangle[NdsBlk] == []
      modifies this`kernel
      ensures rc == 0
      ensures kernel == old(kernel).(mangle := old(kernel).mangle
                          [NdsTru := MacRules(lists.trusted, EnvOf(cfg).Marker(marks.trusted))]
                          [NdsBlk := BlockedChain(EnvOf(cfg), lists)])
    {
      var rc1 := FillTrusted(lists.trusted);
      var rc2;
      if cfg.mechanism == MacBlock {
        rc2 := FillBlocked(lists.blocked);
      } else {
        rc2 := FillAllowed(lists.allowed);
      }
      rc := Either(rc1, rc2);
    }

    method NewMangleChains() returns (rc: int)
      requires NoNds(kernel.mangle)
      modifies this`kernel
      ensures rc == 0
      ensures kernel ==
              old(kernel).(mangle := old(kernel).mangle[NdsTru := []][NdsBlk := []][NdsInc := []][NdsOut := []])
    {
      var rc1 := New(Mangle, NdsTru);
      var rc2 := New(Mangle, NdsBlk);
      var rc3 := New(Mangle, NdsInc);
      var rc4 := New(Mangle, NdsOut);
      rc := Either(Either(rc1, rc2), Either(rc3, rc4));
    }

    /** The jumps to the new chains, ahead of what is there. */
    method PreroutingEntries(e: Env) returns (rc: int)
      requires PreroutingHook in kernel.mangle
      modifies this`kernel
      ensures rc == 0
      ensures kernel == old(kernel).(mangle := old(kernel).mangle
                          [PreroutingHook := Prerouting(e) + old(kernel).mangle[PreroutingHook]])
    {
      ghost var t, rules := kernel.mangle, kernel.mangle[PreroutingHook];
      var a, b, c := e.Entry(NdsOut), e.Entry(NdsBlk), e.Entry(NdsTru);
      var rc1 := Insert(Mangle, PreroutingHook, 1, a);
      assert kernel.mangle[PreroutingHook] == [a] + rules;
      assert kernel.mangle == t[PreroutingHook := [a] + rules];
      var rc2 := Insert(Mangle, PreroutingHook, 2, b);
      assert kernel.mangle[PreroutingHook] == [a, b] + rules;
      assert kernel.mangle == t[PreroutingHook := [a, b] + rules];
      var rc3 := Insert(Mangle, PreroutingHook, 3, c);
      assert kernel.mangle[PreroutingHook] == [a, b, c] + rules;
      rc := Either(Either(rc1, rc2), rc3);
    }

    method MangleEntries(e: Env) returns (rc: int)
      requires PreroutingHook in kernel.mangle && PostroutingHook in kernel.mangle
      modifies this`kernel
      ensures rc == 0
      ensures kernel == old(kernel).(mangle := old(kernel).mangle
                          [PreroutingHook := Prerouting(e) + old(kernel).mangle[PreroutingHook]]
                          [PostroutingHook := Postrouting(e) + old(kernel).mangle[PostroutingHook]])
    {
      ghost var t := kernel.mangle;
      hide Prerouting;
      var rc1 := PreroutingEntries(e);
      var rc2 := Insert(Mangle, PostroutingHook, 1, Postrouting(e)[0]);
      assert kernel.mangle[PostroutingHook] == Postrouting(e) + t[PostroutingHook];
      rc := Either(rc1, rc2);
    }

    method InitMangle(cfg: Config, lists: MacLists) returns (rc: int)
      requires PreroutingHook in kernel.mangle && PostroutingHook in kernel.mangle && NoNds(kernel.mangle)
          && cfg.marks == marks
      modifies this`kernel
      ensures rc == 0 && kernel == old(kernel).(mangle := MangleTable(EnvOf(cfg), lists, old(kernel).mangle))
    {
      var rc1 := NewMangleChains();
      var rc2 := MangleEntries(EnvOf(cfg));
      var rc3 := FillMacChains(cfg, lists);
      rc := Either(Either(rc1, rc2), rc3);
      hide Prerouting, Postrouting, BlockedChain;
      assert kernel.mangle == MangleTable(EnvOf(cfg), lists, old(kernel).mangle);
    }

    method BuildNatHead(e: Env) returns (rc: int)
      requires NdsOut in kernel.xlate && kernel.xlate[NdsOut] == []
      modifies this`kernel
      ensures rc == 0 && kernel == old(kernel).(xlate := old(kernel).xlate[NdsOut := NatHead(e)])
    {
      ghost var t := kernel.xlate;
      var rc1 := Append(TableName.Nat, NdsOut, Rule([e.Marked(e.cfg.marks.trusted)], Accept));
      var rc2 := Append(TableName.Nat, NdsOut, Rule([e.Marked(e.cfg.marks.authenticated)], Accept));
      rc := Either(rc1, rc2);
      assert kernel.xlate[NdsOut] == NatHead(e);
      assert kernel.xlate == t[NdsOut := NatHead(e)];
    }

    method BuildNatTail(e: Env) returns (rc: int)
      requires NdsOut in kernel.xlate
      modifies this`kernel
      ensures rc == 0 && kernel
          == old(kernel).(xlate := old(kernel).xlate[NdsOut := old(kernel).xlate[NdsOut] + NatTail(e)])
    {
      ghost var t := kernel.xlate;
      var rc1 := Append(TableName.Nat, NdsOut,
          Rule([ProtoIs(Tcp), Dport(80, 80)], Dnat(e.cfg.gwAddress, e.cfg.gwPort)));
      var rc2 := Append(TableName.Nat, NdsOut, Rule([], Accept));
      rc := Either(rc1, rc2);
      assert kernel.xlate[NdsOut] == t[NdsOut] + NatTail(e);
    }

    method InitNat(cfg: Config) returns (rc: int)
      requires PreroutingHook in kernel.xlate && NdsOut !in kernel.xlate
      modifies this`kernel
      ensures rc == 0 && kernel == old(kernel).(xlate := NatTable(EnvOf(cfg), old(kernel).xlate))
    {
      ghost var t := kernel.xlate;
      var e := EnvOf(cfg);
      hide NatHead, NatTail, CompileAll;
      var rc1 := New(TableName.Nat, NdsOut);
      var rc2 := Insert(TableName.Nat, PreroutingHook, 1, e.Entry(NdsOut));
      assert kernel.xlate[PreroutingHook] == [e.Entry(NdsOut)] + t[PreroutingHook];
      var rc3 := BuildNatHead(e);
      var rc4 := AppendRuleset(TableName.Nat, cfg.rulesets.preauthenticated.rules, NdsOut);
      var rc5 := BuildNatTail(e);
      rc := Either(Either(rc1, rc2), Either(rc3, Either(rc4, rc5)));
      assert kernel.xlate == NatTable(e, t);
    }

    /** The chain of a class of users and the rule that leads there, appended to `from`. */
    method AppendClass(e: Env, mark: nat, rs: Ruleset, from: Chain, chain: Chain) returns (rc: int)
      requires from in kernel.filter && chain in kernel.filter && from != chain && kernel.filter[chain] == []
      modifies this`kernel
      ensures rc == 0
      ensures kernel == old(kernel).(filter := old(kernel).filter
                          [from := old(kernel).filter[from] + [ClassEntry(e, mark, rs, chain)]]
                          [chain := ClassChain(rs)])
    {
      ghost var t0 := kernel.filter;
      if rs.rules == [] {
        rc := Append(Filter, from, Rule([e.Marked(mark)], PolicyTarget(rs.policy)));
        assert t0[from := t0[from] + [ClassEntry(e, mark, rs, chain)]][chain := []]
            == t0[from := t0[from] + [ClassEntry(e, mark, rs, chain)]];
      } else {
        var rc1 := Append(Filter, from, Rule([e.Marked(mark)], Jump(chain)));
        var rc2 := Append(Filter, chain, ACCEPT_ESTABLISHED);
        var rc3 := AppendRuleset(Filter, rs.rules, chain);
        var rc4 := Append(Filter, chain, REJECT_ALL);
        rc := Either(Either(rc1, rc2), Either(rc3, rc4));
        assert kernel.filter[chain] == ClassChain(rs);
      }
    }

    /** The chain for packets to the router. */
    method BuildRouterHead(e: Env) returns (rc: int)
      requires NdsRtr in kernel.filter && kernel.filter[NdsRtr] == []
      modifies this`kernel
      ensures rc == 0
      ensures kernel == old(kernel).(filter := old(kernel).filter[NdsRtr := RouterHead(e)])
    {
      ghost var t := kernel.filter;
      var rc1 := Append(Filter, NdsRtr, Rule([e.Marked(e.cfg.marks.blocked)], Drop));
      var rc2 := Append(Filter, NdsRtr, Rule([StateInvalid], Drop));
      var rc3 := Append(Filter, NdsRtr, ACCEPT_ESTABLISHED);
      var rc4 := Append(Filter, NdsRtr, Rule([ProtoIs(Tcp), SynWithoutMss], Drop));
      var rc5 := Append(Filter, NdsRtr, Rule([ProtoIs(Tcp), Dport(e.cfg.gwPort, e.cfg.gwPort)], Accept));
      rc := Either(Either(rc1, rc2), Either(rc3, Either(rc4, rc5)));
      assert kernel.filter[NdsRtr] == RouterHead(e);
      assert kernel.filter == t[NdsRtr := RouterHead(e)];
    }

    method BuildRouterTail(rs: Ruleset) returns (rc: int)
      requires NdsRtr in kernel.filter
      modifies this`kernel
      ensures rc == 0
      ensures kernel == old(kernel).(filter := old(kernel).filter[NdsRtr := old(kernel).filter[NdsRtr]
          + RouterTail(rs)])
    {
      ghost var t := kernel.filter;
      if rs.rules == [] {
        rc := Append(Filter, NdsRtr, Rule([], PolicyTarget(rs.policy)));
      } else {
        var rc1 := AppendRuleset(Filter, rs.rules, NdsRtr);
        var rc2 := Append(Filter, NdsRtr, REJECT_ALL);
        rc := Either(rc1, rc2);
        assert t[NdsRtr] + CompileAll(rs.rules) + [REJECT_ALL] == t[NdsRtr] + RouterTail(rs);
      }
    }

    method BuildToRouter(e: Env) returns (rc: int)
      requires NdsRtr in kernel.filter && NdsTrt in kernel.filter
      requires kernel.filter[NdsRtr] == [] && kernel.filter[NdsTrt] == []
      modifies this`kernel
      ensures rc == 0
      ensures kernel == old(kernel).(filter := old(kernel).filter
                          [NdsRtr := RouterChain(e)][NdsTrt := ClassChain(e.cfg.rulesets.trustedToRouter)])
    {
      ghost var t := kernel.filter;
      hide RouterHead, RouterTail, ClassEntry, ClassChain;
      var rs := e.cfg.rulesets;
      var rc1 := BuildRouterHead(e);
      var rc2 := AppendClass(e, e.cfg.marks.trusted, rs.trustedToRouter, NdsRtr, NdsTrt);
      var rc3 := BuildRouterTail(rs.usersToRouter);
      rc := Either(rc1, Either(rc2, rc3));
      assert kernel.filter == t[NdsRtr := RouterChain(e)][NdsTrt := ClassChain(rs.trustedToRouter)];
    }

    /** The chain for packets to the internet. */
    method BuildInternetHead(e: Env) returns (rc: int)
      requires NdsNet in kernel.filter && kernel.filter[NdsNet] == []
      modifies this`kernel
      ensures rc == 0
      ensures kernel == old(kernel).(filter := old(kernel).filter[NdsNet := InternetHead(e)])
    {
      ghost var t := kernel.filter;
      var rc1 := Append(Filter, NdsNet, Rule([e.Marked(e.cfg.marks.blocked)], Drop));
      var rc2 := Append(Filter, NdsNet, Rule([StateInvalid], Drop));
      rc := Either(rc1, rc2);
      if e.cfg.setMss {
        var rc3 := 0;
        if e.cfg.mssValue > 0 {
          rc3 := Append(Filter, NdsNet, Rule([ProtoIs(Tcp), SynWithoutRst], TcpMss(e.cfg.mssValue)));
        } else {
          rc3 := Append(Filter, NdsNet, Rule([ProtoIs(Tcp), SynWithoutRst], TcpMss(0)));
        }
        rc := Either(rc, rc3);
      }
      assert kernel.filter[NdsNet] == InternetHead(e);
      assert kernel.filter == t[NdsNet := InternetHead(e)];
    }

    method BuildInternetTail(rs: Ruleset) returns (rc: int)
      requires NdsNet in kernel.filter
      modifies this`kernel
      ensures rc == 0
      ensures kernel == old(kernel).(filter := old(kernel).filter[NdsNet := old(kernel).filter[NdsNet]
          + InternetTail(rs)])
    {
      ghost var t := kernel.filter;
      if rs.rules == [] {
        rc := Append(Filter, NdsNet, Rule([], PolicyTarget(rs.policy)));
      } else {
        rc := AppendRuleset(Filter, rs.rules, NdsNet);
      }
      var rc2 := Append(Filter, NdsNet, REJECT_ALL);
      rc := Either(rc, rc2);
      assert kernel.filter[NdsNet] == t[NdsNet] + InternetTail(rs);
    }

    method BuildToInternet(e: Env) returns (rc: int)
      requires NdsNet in kernel.filter && NdsTru in kernel.filter && NdsAut in kernel.filter
      requires kernel.filter[NdsNet] == [] && kernel.filter[NdsTru] == [] && kernel.filter[NdsAut] == []
      modifies this`kernel
      ensures rc == 0
      ensures kernel == old(kernel).(filter := old(kernel).filter
                          [NdsNet := InternetChain(e)]
                          [NdsTru := ClassChain(e.cfg.rulesets.trustedUsers)]
                          [NdsAut := ClassChain(e.cfg.rulesets.authenticated)])
    {
      ghost var t := kernel.filter;
      hide InternetHead, InternetTail, ClassEntry, ClassChain;
      var rs := e.cfg.rulesets;
      var rc1 := BuildInternetHead(e);
      var rc2 := AppendClass(e, e.cfg.marks.trusted, rs.trustedUsers, NdsNet, NdsTru);
      var rc3 := AppendClass(e, e.cfg.marks.authenticated, rs.authenticated, NdsNet, NdsAut);
      var rc4 := BuildInternetTail(rs.preauthenticated);
      rc := Either(Either(rc1, rc2), Either(rc3, rc4));
      assert kernel.filter[NdsNet] == InternetChain(e);
      ghost var trusted, authenticated := ClassChain(rs.trustedUsers), ClassChain(rs.authenticated);
      assert kernel.filter == t[NdsNet := InternetChain(e)][NdsTru := trusted][NdsAut := authenticated];
    }

    method NewFilterChains() returns (rc: int)
      requires NoNds(kernel.filter)
      modifies this`kernel
      ensures rc == 0
      ensures kernel == old(kernel).(filter := old(kernel).filter
                          [NdsNet := []][NdsRtr := []][NdsAut := []][NdsTru := []][NdsTrt := []])
    {
      var rc1 := New(Filter, NdsNet);
      var rc2 := New(Filter, NdsRtr);
      var rc3 := New(Filter, NdsAut);
      var rc4 := New(Filter, NdsTru);
      var rc5 := New(Filter, NdsTrt);
      rc := Either(Either(rc1, rc2), Either(rc3, Either(rc4, rc5)));
    }

    method InitFilter(cfg: Config) returns (rc: int)
      requires InputHook in kernel.filter && ForwardHook in kernel.filter && NoNds(kernel.filter)
      modifies this`kernel
      ensures rc == 0 && kernel == old(kernel).(filter := FilterTable(EnvOf(cfg), old(kernel).filter))
    {
      ghost var t := kernel.filter;
      var e := EnvOf(cfg);
      hide RouterChain, InternetChain, ClassChain;
      var rc1 := NewFilterChains();
      var rc2 := Insert(Filter, InputHook, 1, e.Entry(NdsRtr));
      assert kernel.filter[InputHook] == [e.Entry(NdsRtr)] + t[InputHook];
      var rc3 := BuildToRouter(e);
      var rc4 := Insert(Filter, ForwardHook, 1, e.Entry(NdsNet));
      assert kernel.filter[ForwardHook] == [e.Entry(NdsNet)] + t[ForwardHook];
      var rc5 := BuildToInternet(e);
      rc := Either(Either(rc1, rc2), Either(rc3, Either(rc4, rc5)));
      assert kernel.filter == FilterTable(e, t);
    }

    /** iptables_fw_init */
    method FwInit(cfg: Config, lists: MacLists) returns (rc: int)
      requires Fresh(kernel)
      modifies this
      ensures marks == cfg.marks && orMark == kernelOr && masking == kernelMask
      ensures rc == 0 <==> cfg.marks.Distinct()
      ensures kernel == Tables(MangleTable(EnvOf(cfg), lists, old(kernel).mangle),
                               NatTable(EnvOf(cfg), old(kernel).xlate),
                               FilterTable(EnvOf(cfg), old(kernel).filter))
    {
      marks := cfg.marks;
      rc := InitMarks();
      CheckMarkMasking();
      var rc1 := InitMangle(cfg, lists);
      var rc2 := InitNat(cfg);
      var rc3 := InitFilter(cfg);
      rc := Either(rc, Either(rc1, Either(rc2, rc3)));
    }

    // ---------- iptables_fw_access ----------

    method FwAccess(authenticate: bool, ip: Ip, mac: Mac, idx: nat) returns (rc: int)
      modifies this`kernel
      ensures forall cfg: Config :: cfg.marks == marks ==>
                kernel == old(kernel).(mangle := if authenticate
                    then Grant(EnvOf(cfg), old(kernel).mangle, ip, mac, idx)
                                                 else Revoke(EnvOf(cfg), old(kernel).mangle, ip, mac, idx))
    {
      var mark := Marker(ClientMark(idx, marks.authenticated));
      var rc1, rc2, rc3;
      if authenticate {
        rc1 := Do(Mangle, AppendRule(NdsOut, Rule([Src(Host(ip)), MacSource(mac)], mark)));
        rc2 := Do(Mangle, AppendRule(NdsInc, Rule([Dst(Host(ip))], mark)));
        rc3 := Do(Mangle, AppendRule(NdsInc, Rule([Dst(Host(ip))], Accept)));
      } else {
        rc1 := Do(Mangle, DeleteRule(NdsOut, Rule([Src(Host(ip)), MacSource(mac)], mark)));
        rc2 := Do(Mangle, DeleteRule(NdsInc, Rule([Dst(Host(ip))], mark)));
        rc3 := Do(Mangle, DeleteRule(NdsInc, Rule([Dst(Host(ip))], Accept)));
      }
      rc := Either(rc1, Either(rc2, rc3));
    }

    // ---------- iptables_fw_destroy ----------

    /** The scan of the listing for the first line that shows the word. */
    method FindMention(rules: seq<Rule>, word: string) returns (i: nat)
      ensures i <= |rules|
      ensures i < |rules| ==> Mentions(rules[i], word)
      ensures forall k :: 0 <= k < i ==> !Mentions(rules[k], word)
    {
      i := 0;
      while i < |rules|
        invariant 0 <= i <= |rules|
        invariant forall k :: 0 <= k < i ==> !Mentions(rules[k], word)
      {
        if Mentions(rules[i], word) {
          return;
        }
        i := i + 1;
      }
    }

    /** iptables_fw_destroy_mention: deletes the first rule whose listed line shows the name, by its
        number, and starts over. */
    method DestroyMention(n: TableName, chain: Chain, mention: Chain) returns (rc: int)
      modifies this`kernel
      ensures kernel == Put(old(kernel), n, Cleared(Get(old(kernel), n), chain, mention))
      decreases if chain in Get(kernel, n) then |Get(kernel, n)[chain]| else 0
    {
      hide Mentions, ChainName;
      if chain !in Get(kernel, n) {
        return -1;
      }
      var t, word := Get(kernel, n), ChainName(mention);
      var rules := t[chain];
      var i := FindMention(rules, word);
      hide Cleared;
      if i < |rules| {
        var status := Do(n, DeleteNumber(chain, i + 1));
        assert Get(kernel, n) == t[chain := rules[..i] + rules[i + 1..]];
        ClearedLater(t, chain, mention, i);
        var more := DestroyMention(n, chain, mention);
        return 0;
      }
      ClearedAlready(t, chain, mention);
      return -1;
    }

    method FlushChains(n: TableName, chains: seq<Chain>)
      modifies this`kernel
      ensures kernel == Put(old(kernel), n,
                            ExecAll(Get(old(kernel), n),
                                seq(|chains|, i requires 0 <= i < |chains| => FlushChain(chains[i]))))
    {
      ghost var cmds := seq(|chains|, i requires 0 <= i < |chains| => FlushChain(chains[i]));
      ghost var t := Get(kernel, n);
      for i := 0 to |chains|
        invariant kernel == Put(old(kernel), n, Get(kernel, n))
        invariant ExecAll(Get(kernel, n), cmds[i..]) == ExecAll(t, cmds)
      {
        assert cmds[i..][1..] == cmds[i + 1..];
        var rc := Do(n, FlushChain(chains[i]));
      }
    }

    method DeleteChains(n: TableName, chains: seq<Chain>)
      modifies this`kernel
      ensures kernel == Put(old(kernel), n,
                            ExecAll(Get(old(kernel), n),
                                seq(|chains|, i requires 0 <= i < |chains| => DeleteChain(chains[i]))))
    {
      ghost var cmds := seq(|chains|, i requires 0 <= i < |chains| => DeleteChain(chains[i]));
      ghost var t := Get(kernel, n);
      for i := 0 to |chains|
        invariant kernel == Put(old(kernel), n, Get(kernel, n))
        invariant ExecAll(Get(kernel, n), cmds[i..]) == ExecAll(t, cmds)
      {
        assert cmds[i..][1..] == cmds[i + 1..];
        var rc := Do(n, DeleteChain(chains[i]));
      }
    }

    /** iptables_fw_destroy */
    method FwDestroy()
      modifies this`kernel
      ensures kernel == Tables(DestroyedMangle(old(kernel).mangle), DestroyedNat(old(kernel).xlate),
                               DestroyedFilter(old(kernel).filter))
    {
      hide Cleared, ExecAll;
      var rc := DestroyMention(Mangle, PreroutingHook, NdsTru);
      rc := DestroyMention(Mangle, PreroutingHook, NdsBlk);
      rc := DestroyMention(Mangle, PreroutingHook, NdsAlw);
      rc := DestroyMention(Mangle, PreroutingHook, NdsOut);
      rc := DestroyMention(Mangle, PostroutingHook, NdsInc);
      FlushChains(Mangle, [NdsTru, NdsBlk, NdsAlw, NdsOut, NdsInc]);
      DeleteChains(Mangle, [NdsTru, NdsBlk, NdsAlw, NdsOut, NdsInc]);
      rc := DestroyMention(TableName.Nat, PreroutingHook, NdsOut);
      FlushChains(TableName.Nat, [NdsOut]);
      DeleteChains(TableName.Nat, [NdsOut]);
      rc := DestroyMention(Filter, InputHook, NdsRtr);
      rc := DestroyMention(Filter, ForwardHook, NdsNet);
      FlushChains(Filter, [NdsRtr, NdsNet, NdsAut, NdsTru, NdsTrt]);
      DeleteChains(Filter, [NdsRtr, NdsNet, NdsAut, NdsTru, NdsTrt]);
    }
  }

  /** Clearing after the first mention is deleted is clearing. */
  lemma ClearedLater(t: Table, chain: Chain, mention: Chain, i: nat)
    requires chain in t && i < |t[chain]| && Mentions(t[chain][i], ChainName(mention))
    requires forall k :: 0 <= k < i ==> !Mentions(t[chain][k], ChainName(mention))
    ensures Cleared(t[chain := t[chain][..i] + t[chain][i + 1..]], chain, mention) == Cleared(t, chain, mention)
  {
    hide Mentions, ChainName, WithoutMentions;
    WithoutFirstMention(t[chain], i, ChainName(mention));
  }

  lemma ClearedAlready(t: Table, chain: Chain, mention: Chain)
    requires chain in t && forall k :: 0 <= k < |t[chain]| ==> !Mentions(t[chain][k], ChainName(mention))
    ensures Cleared(t, chain, mention) == t
  {
    hide Mentions, ChainName, WithoutMentions;
    WithoutMentionsSame(t[chain], ChainName(mention));
  }

  lemma {:induction false} WithoutFirstMention(rules: seq<Rule>, i: nat, word: string)
    requires i < |rules| && Mentions(rules[i], word)
    requires forall k :: 0 <= k < i ==> !Mentions(rules[k], word)
    ensures WithoutMentions(rules[..i] + rules[i + 1..], word) == WithoutMentions(rules, word)
    decreases i
  {
    var less := rules[..i] + rules[i + 1..];
    if i == 0 {
      assert less == rules[1..];
    } else {
      assert less[0] == rules[0] && less[1..] == rules[1..][..i - 1] + rules[1..][i..];
      WithoutFirstMention(rules[1..], i - 1, word);
    }
  }
}
