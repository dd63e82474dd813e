/** What src/fw_iptables.c compiles a configuration into: the chains, in closed form. */
module FwRules {
  import opened Options
  import opened Bits
  import opened Iptables

  // ---------- Configuration ----------

  datatype RuleTarget = TargetDrop | TargetReject | TargetAccept | TargetLog | TargetUlog

  datatype Ports = Ports(lo: nat, hi: nat)

  /** t_firewall_rule; `mask`, `protocol` and `port` may be absent. */
  datatype FwRule = FwRule(target: RuleTarget, protocol: Option<Proto>, port: Option<Ports>, mask: Option<Net>)

  /** The policy of a ruleset that has no rule. */
  datatype Policy = PolicyReturn | PolicyAccept | PolicyReject

  datatype Ruleset = Ruleset(rules: seq<FwRule>, policy: Policy)

  datatype Rulesets = Rulesets(trustedUsers: Ruleset, trustedToRouter: Ruleset, usersToRouter: Ruleset,
                               authenticated: Ruleset, preauthenticated: Ruleset)

  datatype Marks = Marks(blocked: nat, trusted: nat, authenticated: nat) {
    /** FW_MARK_MASK */
    function Mask(): nat {
      Or(Or(blocked, trusted), authenticated)
    }

    predicate Distinct() {
      && blocked != trusted && trusted != authenticated && authenticated != blocked
      && blocked != 0 && trusted != 0 && authenticated != 0
    }
  }

  datatype MacMechanism = MacAllow | MacBlock

  datatype Config = Config(gwInterface: string, gwRange: Net, gwAddress: Ip, gwPort: nat,
                           setMss: bool, mssValue: int, mechanism: MacMechanism, marks: Marks, rulesets: Rulesets)

  /** The three MAC lists of the configuration, newest entry first. */
  datatype MacLists = MacLists(trusted: seq<Mac>, blocked: seq<Mac>, allowed: seq<Mac>)

  /** The configuration together with what the kernel was found to support. */
  datatype Env = Env(cfg: Config, orMark: bool, masking: bool) {
    /** `--mark v<markmask>` */
    function Marked(v: nat): Match {
      Mark(v, MarkMask())
    }

    function MarkMask(): nat {
      if masking then cfg.marks.Mask() else 0xFFFF_FFFF
    }

    /** `-j MARK <markop> v` */
    function Marker(v: nat): Target {
      if orMark then OrMark(v) else SetMark(v)
    }

    /** `-i gw_interface -s gw_iprange` */
    function FromGateway(): seq<Match> {
      [InIf(cfg.gwInterface), Src(cfg.gwRange)]
    }

    function Entry(chain: Chain): Rule {
      Rule(FromGateway(), Jump(chain))
    }
  }

  // ---------- Rules ----------

  /** _iptables_compile */
  function Compile(r: FwRule): Rule {
    var destination := if r.mask.Some? then [Dst(r.mask.value)] else [];
    var protocol := if r.protocol.Some? then [ProtoIs(r.protocol.value)] else [];
    var port := if r.port.Some? then [Dport(r.port.value.lo, r.port.value.hi)] else [];
    Rule(destination + protocol + port,
         match r.target
         case TargetDrop => Drop
         case TargetReject => Reject
         case TargetAccept => Accept
         case TargetLog => Log
         case TargetUlog => Ulog)
  }

  function CompileAll(rules: seq<FwRule>): (r: seq<Rule>)
    ensures |r| == |rules|
  {
    seq(|rules|, i requires 0 <= i < |rules| => Compile(rules[i]))
  }

  function PolicyTarget(p: Policy): Target {
    match p
    case PolicyReturn => Return
    case PolicyAccept => Accept
    case PolicyReject => Reject
  }

  const ACCEPT_ESTABLISHED := Rule([StateRelatedEstablished], Accept)
  const REJECT_ALL := Rule([], Reject)

  /** One rule for each address of a list, in list order. */
  function MacRules(macs: seq<Mac>, target: Target): (r: seq<Rule>)
    ensures |r| == |macs|
  {
    seq(|macs|, i requires 0 <= i < |macs| => MacRule(macs[i], target))
  }

  function MacRule(mac: Mac, target: Target): Rule {
    Rule([MacSource(mac)], target)
  }

  function Reverse<T>(s: seq<T>): (r: seq<T>)
    ensures |r| == |s|
  {
    seq(|s|, i requires 0 <= i < |s| => s[|s| - 1 - i])
  }

  // ---------- mangle ----------

  function BlockedChain(e: Env, lists: MacLists): seq<Rule> {
    match e.cfg.mechanism
    case MacBlock => MacRules(lists.blocked, e.Marker(e.cfg.marks.blocked))
    case MacAllow =>
      Reverse(MacRules(lists.allowed, Return)) + [Rule([], e.Marker(e.cfg.marks.blocked))]
  }

  function Prerouting(e: Env): seq<Rule> {
    [e.Entry(NdsOut), e.Entry(NdsBlk), e.Entry(NdsTru)]
  }

  function Postrouting(e: Env): seq<Rule> {
    [Rule([OutIf(e.cfg.gwInterface), Dst(e.cfg.gwRange)], Jump(NdsInc))]
  }

  function MangleTable(e: Env, lists: MacLists, t: Table): Table
    requires PreroutingHook in t && PostroutingHook in t
  {
    t[PreroutingHook := Prerouting(e) + t[PreroutingHook]]
     [PostroutingHook := Postrouting(e) + t[PostroutingHook]]
     [NdsTru := MacRules(lists.trusted, e.Marker(e.cfg.marks.trusted))]
     [NdsBlk := BlockedChain(e, lists)]
     [NdsInc := []]
     [NdsOut := []]
  }

  // ---------- nat ----------

  function NatHead(e: Env): seq<Rule> {
    [Rule([e.Marked(e.cfg.marks.trusted)], Accept), Rule([e.Marked(e.cfg.marks.authenticated)], Accept)]
  }

  function NatTail(e: Env): seq<Rule> {
    [Rule([ProtoIs(Tcp), Dport(80, 80)], Dnat(e.cfg.gwAddress, e.cfg.gwPort)), Rule([], Accept)]
  }

  function NatChain(e: Env): seq<Rule> {
    NatHead(e) + CompileAll(e.cfg.rulesets.preauthenticated.rules) + NatTail(e)
  }

  function NatTable(e: Env, t: Table): Table
    requires PreroutingHook in t
  {
    t[PreroutingHook := [e.Entry(NdsOut)] + t[PreroutingHook]][NdsOut := NatChain(e)]
  }

  // ---------- filter ----------

  /** The chain of a class of users, used when its ruleset has rules. */
  function ClassChain(rs: Ruleset): seq<Rule> {
    if rs.rules == [] then [] else [ACCEPT_ESTABLISHED] + CompileAll(rs.rules) + [REJECT_ALL]
  }

  /** The rule that sends a marked class to its chain, or applies its empty-ruleset policy. */
  function ClassEntry(e: Env, mark: nat, rs: Ruleset, chain: Chain): Rule {
    Rule([e.Marked(mark)], if rs.rules == [] then PolicyTarget(rs.policy) else Jump(chain))
  }

  function RouterHead(e: Env): seq<Rule> {
    [Rule([e.Marked(e.cfg.marks.blocked)], Drop),
     Rule([StateInvalid], Drop),
     ACCEPT_ESTABLISHED,
     Rule([ProtoIs(Tcp), SynWithoutMss], Drop),
     Rule([ProtoIs(Tcp), Dport(e.cfg.gwPort, e.cfg.gwPort)], Accept)]
  }

  function RouterTail(rs: Ruleset): seq<Rule> {
    if rs.rules == [] then [Rule([], PolicyTarget(rs.policy))] else CompileAll(rs.rules) + [REJECT_ALL]
  }

  function RouterChain(e: Env): seq<Rule> {
    var rs := e.cfg.rulesets;
    RouterHead(e) + [ClassEntry(e, e.cfg.marks.trusted, rs.trustedToRouter, NdsTrt)] + RouterTail(rs.usersToRouter)
  }

  function MssRules(e: Env): seq<Rule> {
    if e.cfg.setMss
    then [Rule([ProtoIs(Tcp), SynWithoutRst], TcpMss(if e.cfg.mssValue > 0 then e.cfg.mssValue else 0))]
    else []
  }

  function InternetHead(e: Env): seq<Rule> {
    [Rule([e.Marked(e.cfg.marks.blocked)], Drop), Rule([StateInvalid], Drop)] + MssRules(e)
  }

  function InternetTail(rs: Ruleset): seq<Rule> {
    (if rs.rules == [] then [Rule([], PolicyTarget(rs.policy))] else CompileAll(rs.rules)) + [REJECT_ALL]
  }

  function InternetChain(e: Env): seq<Rule> {
    var rs := e.cfg.rulesets;
    InternetHead(e)
    + [ClassEntry(e, e.cfg.marks.trusted, rs.trustedUsers, NdsTru)]
    + [ClassEntry(e, e.cfg.marks.authenticated, rs.authenticated, NdsAut)]
    + InternetTail(rs.preauthenticated)
  }

  function FilterTable(e: Env, t: Table): Table
    requires InputHook in t && ForwardHook in t
  {
    t[InputHook := [e.Entry(NdsRtr)] + t[InputHook]]
     [NdsRtr := RouterChain(e)]
     [NdsTrt := ClassChain(e.cfg.rulesets.trustedToRouter)]
     [ForwardHook := [e.Entry(NdsNet)] + t[ForwardHook]]
     [NdsNet := InternetChain(e)]
     [NdsTru := ClassChain(e.cfg.rulesets.trustedUsers)]
     [NdsAut := ClassChain(e.cfg.rulesets.authenticated)]
  }

  // ---------- The kernel before the program starts ----------

  predicate NoNds(t: Table) {
    && NdsNet !in t && NdsRtr !in t && NdsTrt !in t && NdsOut !in t && NdsInc !in t
    && NdsAut !in t && NdsBlk !in t && NdsAlw !in t && NdsTru !in t
  }

  /** The built-in chains exist and none of the program's chains does. */
  predicate Fresh(k: Tables) {
    && PreroutingHook in k.mangle && PostroutingHook in k.mangle && PreroutingHook in k.xlate
    && InputHook in k.filter && ForwardHook in k.filter
    && NoNds(k.mangle) && NoNds(k.xlate) && NoNds(k.filter)
  }

  // ---------- A client's rules ----------

  /** The mark `0x<idx + 10><FW_MARK_AUTHENTICATED>`: two hexadecimal texts side by side. */
  function ClientMark(idx: nat, authenticated: nat): nat {
    FromHex(Hex(idx + 10) + Hex(authenticated))
  }

  function OutRule(e: Env, ip: Ip, mac: Mac, idx: nat): Rule {
    Rule([Src(Host(ip)), MacSource(mac)], e.Marker(ClientMark(idx, e.cfg.marks.authenticated)))
  }

  function IncMarkRule(e: Env, ip: Ip, idx: nat): Rule {
    Rule([Dst(Host(ip))], e.Marker(ClientMark(idx, e.cfg.marks.authenticated)))
  }

  function IncAcceptRule(ip: Ip): Rule {
    Rule([Dst(Host(ip))], Accept)
  }

  /** The mangle table after iptables_fw_access(AUTH_MAKE_AUTHENTICATED) and its inverse. */
  function Grant(e: Env, t: Table, ip: Ip, mac: Mac, idx: nat): Table {
    var t1 := Exec(t, AppendRule(NdsOut, OutRule(e, ip, mac, idx))).0;
    var t2 := Exec(t1, AppendRule(NdsInc, IncMarkRule(e, ip, idx))).0;
    Exec(t2, AppendRule(NdsInc, IncAcceptRule(ip))).0
  }

  function Revoke(e: Env, t: Table, ip: Ip, mac: Mac, idx: nat): Table {
    var t1 := Exec(t, DeleteRule(NdsOut, OutRule(e, ip, mac, idx))).0;
    var t2 := Exec(t1, DeleteRule(NdsInc, IncMarkRule(e, ip, idx))).0;
    Exec(t2, DeleteRule(NdsInc, IncAcceptRule(ip))).0
  }

  // ---------- Teardown ----------

  /** strstr(s, word) */
  predicate Contains(s: string, word: string) {
    word <= s || (s != "" && Contains(s[1..], word))
  }

  predicate NameShows(m: Match, word: string) {
    match m
    case InIf(name) => Contains(name, word)
    case OutIf(name) => Contains(name, word)
    case _ => false
  }

  /** The line that lists the rule shows `word`: in its target or in an interface name. */
  predicate Mentions(r: Rule, word: string) {
    (r.target.Jump? && Contains(ChainName(r.target.chain), word)) || exists m :: m in r.matches && NameShows(m, word)
  }

  function WithoutMentions(rules: seq<Rule>, word: string): seq<Rule> {
    if rules == [] then []
    else if Mentions(rules[0], word) then WithoutMentions(rules[1..], word)
    else [rules[0]] + WithoutMentions(rules[1..], word)
  }

  /** A chain of a table without the rules that mention another chain's name; a missing chain stays missing. */
  function Cleared(t: Table, chain: Chain, named: Chain): Table {
    if chain in t then t[chain := WithoutMentions(t[chain], ChainName(named))] else t
  }

  function ExecAll(t: Table, cmds: seq<Command>): Table
    decreases |cmds|
  {
    if cmds == [] then t else ExecAll(Exec(t, cmds[0]).0, cmds[1..])
  }

  /** `-F` on each chain, then `-X` on each chain. */
  function Removed(t: Table, chains: seq<Chain>): Table {
    ExecAll(ExecAll(t, seq(|chains|, i requires 0 <= i < |chains| => FlushChain(chains[i]))),
            seq(|chains|, i requires 0 <= i < |chains| => DeleteChain(chains[i])))
  }

  function DestroyedMangle(t: Table): Table {
    var t1 := Cleared(t, PreroutingHook, NdsTru);
    var t2 := Cleared(t1, PreroutingHook, NdsBlk);
    var t3 := Cleared(t2, PreroutingHook, NdsAlw);
    var t4 := Cleared(t3, PreroutingHook, NdsOut);
    Removed(Cleared(t4, PostroutingHook, NdsInc), [NdsTru, NdsBlk, NdsAlw, NdsOut, NdsInc])
  }

  function DestroyedNat(t: Table): Table {
    Removed(Cleared(t, PreroutingHook, NdsOut), [NdsOut])
  }

  function DestroyedFilter(t: Table): Table {
    Removed(Cleared(Cleared(t, InputHook, NdsRtr), ForwardHook, NdsNet),
            [NdsRtr, NdsNet, NdsAut, NdsTru, NdsTrt])
  }

  lemma {:induction false} WithoutMentionsSame(a: seq<Rule>, word: string)
    requires forall i :: 0 <= i < |a| ==> !Mentions(a[i], word)
    ensures WithoutMentions(a, word) == a
  {
    hide Mentions;
    if a != [] {
      WithoutMentionsSame(a[1..], word);
    }
  }
}
