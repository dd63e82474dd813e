/** The packet filter that src/fw_iptables.c drives: rules, chains, the commands that edit
    them and the walk of a packet through them. */
module Iptables {
  import opened Bits

  type Ip = nat

  /** A hardware address in the kernel's canonical form. */
  type Mac = string

  /** One address, or the addresses that agree with one under a mask. */
  datatype Net = Host(ip: Ip) | Range(address: Ip, mask: nat) {
    predicate Has(x: Ip) {
      match this
      case Host(ip) => x == ip
      case Range(address, mask) => And(x, mask) == And(address, mask)
    }
  }

  datatype Proto = Tcp | Udp | Icmp | All

  datatype ConnState = New | Established | Related | Invalid

  datatype Packet = Packet(inIf: string, outIf: string, src: Ip, dst: Ip, mac: Mac, proto: Proto, dport: nat,
                           syn: bool, rst: bool, mssOption: bool, state: ConnState, mark: nat)

  datatype Match =
    | InIf(name: string)
    | OutIf(name: string)
    | Src(net: Net)
    | Dst(net: Net)
    | MacSource(mac: Mac)
    | Mark(value: nat, mask: nat)
    | StateInvalid
    | StateRelatedEstablished
    | ProtoIs(proto: Proto)
    | Dport(lo: nat, hi: nat)
    | SynWithoutMss
    | SynWithoutRst

  /** The chains this program works on, and any other; a hook is a built-in chain. */
  datatype Chain =
    | PreroutingHook | PostroutingHook | InputHook | ForwardHook
    | NdsNet | NdsRtr | NdsTrt | NdsOut | NdsInc | NdsAut | NdsBlk | NdsAlw | NdsTru
    | OtherChain(text: string)

  /** The name a chain has on the command line and in listings. */
  function ChainName(c: Chain): string {
    match c
    case PreroutingHook => "PREROUTING"
    case PostroutingHook => "POSTROUTING"
    case InputHook => "INPUT"
    case ForwardHook => "FORWARD"
    case NdsNet => "ndsNET"
    case NdsRtr => "ndsRTR"
    case NdsTrt => "ndsTRT"
    case NdsOut => "ndsOUT"
    case NdsInc => "ndsINC"
    case NdsAut => "ndsAUT"
    case NdsBlk => "ndsBLK"
    case NdsAlw => "ndsALW"
    case NdsTru => "ndsTRU"
    case OtherChain(text) => text
  }

  datatype Target =
    | Accept | Drop | Reject | Return | Log | Ulog
    | TcpMss(value: int)
    | SetMark(mark: nat)
    | OrMark(mark: nat)
    | Dnat(ip: Ip, port: nat)
    | Jump(chain: Chain)

  datatype Rule = Rule(matches: seq<Match>, target: Target)

  type Table = map<Chain, seq<Rule>>

  // ---------- Matching and walking ----------

  predicate Satisfies(m: Match, p: Packet) {
    match m
    case InIf(name) => p.inIf == name
    case OutIf(name) => p.outIf == name
    case Src(net) => net.Has(p.src)
    case Dst(net) => net.Has(p.dst)
    case MacSource(mac) => p.mac == mac
    case Mark(value, mask) => And(p.mark, mask) == value
    case StateInvalid => p.state.Invalid?
    case StateRelatedEstablished => p.state.Related? || p.state.Established?
    case ProtoIs(proto) => proto.All? || p.proto == proto
    case Dport(lo, hi) => lo <= p.dport <= hi
    case SynWithoutMss => p.syn && !p.mssOption
    case SynWithoutRst => p.syn && !p.rst
  }

  predicate Matches(r: Rule, p: Packet) {
    forall m :: m in r.matches ==> Satisfies(m, p)
  }

  datatype Verdict = Accepted | Dropped | Rejected | Redirected(ip: Ip, port: nat)

  /** A chain decides about a packet, returns early, or lets it pass to its end; targets that
      mark have changed the packet by then. */
  datatype Outcome = Decided(verdict: Verdict, p: Packet) | Returned(p: Packet) | Passed(p: Packet)

  /** First match, with jumps up to `depth` deep (the kernel refuses loops between chains). */
  function Walk(t: Table, rules: seq<Rule>, p: Packet, depth: nat): Outcome
    decreases depth, |rules|
  {
    if rules == [] then Passed(p)
    else if !Matches(rules[0], p) then Walk(t, rules[1..], p, depth)
    else
      match rules[0].target
      case Accept => Decided(Accepted, p)
      case Drop => Decided(Dropped, p)
      case Reject => Decided(Rejected, p)
      case Dnat(ip, port) => Decided(Redirected(ip, port), p)
      case Return => Returned(p)
      case Log => Walk(t, rules[1..], p, depth)
      case Ulog => Walk(t, rules[1..], p, depth)
      case TcpMss(_) => Walk(t, rules[1..], p, depth)
      case SetMark(v) => Walk(t, rules[1..], p.(mark := v), depth)
      case OrMark(v) => Walk(t, rules[1..], p.(mark := Or(p.mark, v)), depth)
      case Jump(chain) =>
        if depth == 0 || chain !in t then Walk(t, rules[1..], p, depth)
        else
          match Walk(t, t[chain], p, depth - 1)
          case Decided(v, p') => Decided(v, p')
          case Returned(p') => Walk(t, rules[1..], p', depth)
          case Passed(p') => Walk(t, rules[1..], p', depth)
  }

  // ---------- Commands ----------

  datatype TableName = Mangle | Nat | Filter

  datatype Tables = Tables(mangle: Table, xlate: Table, filter: Table)

  datatype Command =
    | NewChain(chain: Chain)
    | FlushChain(chain: Chain)
    | DeleteChain(chain: Chain)
    | AppendRule(chain: Chain, rule: Rule)
    | InsertRule(chain: Chain, at: nat, rule: Rule)
    | DeleteRule(chain: Chain, rule: Rule)
    | DeleteNumber(chain: Chain, number: nat)

  /** The rules without the first one equal to `r`. */
  function RemoveFirst(rules: seq<Rule>, r: Rule): seq<Rule> {
    if rules == [] then []
    else if rules[0] == r then rules[1..]
    else [rules[0]] + RemoveFirst(rules[1..], r)
  }

  predicate JumpsTo(t: Table, chain: Chain) {
    exists c, i :: c in t && 0 <= i < |t[c]| && t[c][i].target == Jump(chain)
  }

  /** The new table and the exit status; a command that fails changes nothing. */
  function Exec(t: Table, cmd: Command): (Table, int) {
    match cmd
    case NewChain(c) => if c in t then (t, 1) else (t[c := []], 0)
    case FlushChain(c) => if c in t then (t[c := []], 0) else (t, 1)
    case DeleteChain(c) => if c in t && t[c] == [] && !JumpsTo(t, c) then (t - {c}, 0) else (t, 1)
    case AppendRule(c, r) => if c in t then (t[c := t[c] + [r]], 0) else (t, 1)
    case InsertRule(c, n, r) =>
      if c in t && 1 <= n <= |t[c]| + 1 then (t[c := t[c][..n - 1] + [r] + t[c][n - 1..]], 0) else (t, 1)
    case DeleteRule(c, r) => if c in t && r in t[c] then (t[c := RemoveFirst(t[c], r)], 0) else (t, 1)
    case DeleteNumber(c, n) =>
      if c in t && 1 <= n <= |t[c]| then (t[c := t[c][..n - 1] + t[c][n..]], 0) else (t, 1)
  }

  // ---------- Laws of the walk ----------

  /** Rules before and after: the second part sees what passes the first. */
  lemma {:induction false} WalkConcat(t: Table, a: seq<Rule>, b: seq<Rule>, p: Packet, depth: nat)
    ensures Walk(t, a + b, p, depth)
         == match Walk(t, a, p, depth)
            case Passed(p') => Walk(t, b, p', depth)
            case o => o
    decreases |a|
  {
    if a == [] {
      assert a + b == b;
    } else {
      assert (a + b)[0] == a[0] && (a + b)[1..] == a[1..] + b;
      var next := if !Matches(a[0], p) then p else
        match a[0].target
        case SetMark(v) => p.(mark := v)
        case OrMark(v) => p.(mark := Or(p.mark, v))
        case Jump(chain) =>
          if depth == 0 || chain !in t then p else Walk(t, t[chain], p, depth - 1).p
        case _ => p;
      WalkConcat(t, a[1..], b, next, depth);
    }
  }

  /** Every jump among the rules goes to one of the chains `k`. */
  predicate JumpsWithin(k: set<Chain>, rules: seq<Rule>) {
    forall i :: 0 <= i < |rules| && rules[i].target.Jump? ==> rules[i].target.chain in k
  }

  /** The chains `k` are the same in both tables and jump only among themselves. */
  predicate Shared(k: set<Chain>, t: Table, u: Table) {
    forall c :: c in k ==> c in t && c in u && t[c] == u[c] && JumpsWithin(k, t[c])
  }

  /** Rules confined to shared chains walk alike in both tables. */
  lemma {:induction false} WalkSame(k: set<Chain>, t: Table, u: Table, rules: seq<Rule>, p: Packet, depth: nat)
    requires Shared(k, t, u) && JumpsWithin(k, rules)
    ensures Walk(t, rules, p, depth) == Walk(u, rules, p, depth)
    decreases depth, |rules|
  {
    if rules != [] {
      var r := rules[0];
      assert JumpsWithin(k, rules[1..]);
      if Matches(r, p) && r.target.Jump? && depth > 0 {
        var c := r.target.chain;
        assert c in k;
        WalkSame(k, t, u, t[c], p, depth - 1);
        WalkSame(k, t, u, rules[1..], Walk(t, t[c], p, depth - 1).p, depth);
      } else {
        var next := if !Matches(r, p) then p else
          match r.target
          case SetMark(v) => p.(mark := v)
          case OrMark(v) => p.(mark := Or(p.mark, v))
          case _ => p;
        WalkSame(k, t, u, rules[1..], next, depth);
      }
    }
  }

  lemma {:induction false} RemoveFirstMultiset(rules: seq<Rule>, r: Rule)
    requires r in rules
    ensures multiset(RemoveFirst(rules, r)) == multiset(rules) - multiset{r}
  {
    assert rules == [rules[0]] + rules[1..];
    if rules[0] != r {
      RemoveFirstMultiset(rules[1..], r);
    }
  }
}
