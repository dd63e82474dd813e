/** The running program as a state machine: clients, MAC lists and firewall change together, one
    locked section at a time. */
module GatewaySpec {
  import opened Options
  import opened Iptables
  import opened FwRules
  import opened FwClasses
  import opened FwTeardown
  import CS = ClientSpec

  datatype World = World(kernel: Tables, clients: seq<CS.Client>, lists: MacLists)

  /** What does not change while the program runs. */
  datatype Setting = Setting(e: Env, maxclients: nat, checkInterval: int, clientTimeout: int, clientForceout: int)

  /** A line of a counter listing: an address and the bytes counted for it. */
  datatype Reading = Reading(ip: Ip, bytes: nat)

  datatype Step =
    | AddClient(ip: Ip, arp: Option<Mac>, token: string, now: int)
    | Authenticate(ip: Ip, mac: Mac)
    | Deauthenticate(ip: Ip, mac: Mac)
    | CountOut(line: Reading, now: int)
    | CountIn(line: Reading)
    | Expire(clock: nat -> int)
    | Trust(arg: Option<Mac>)
    | Untrust(arg: Option<Mac>)
    | Block(arg: Option<Mac>)
    | Unblock(arg: Option<Mac>)
    | Allow(arg: Option<Mac>)
    | Unallow(arg: Option<Mac>)

  // ---------- auth_client_action ----------

  function GrantTo(e: Env, t: Table, c: CS.Client): Table {
    Grant(e, t, c.ip, c.mac, c.idx)
  }

  /** The rules of a client that leaves are removed if it is authenticated. */
  function RevokeFrom(e: Env, t: Table, c: CS.Client): Table {
    if c.state.Authenticated? then Revoke(e, t, c.ip, c.mac, c.idx) else t
  }

  function Authenticated(e: Env, w: World, ip: Ip, mac: Mac): World {
    var i := CS.Find(w.clients, ip, mac);
    if i == |w.clients| || w.clients[i].state.Authenticated? then w
    else w.(clients := w.clients[i := w.clients[i].(state := CS.Authenticated)],
            kernel := w.kernel.(mangle := GrantTo(e, w.kernel.mangle, w.clients[i])))
  }

  function Deauthenticated(e: Env, w: World, ip: Ip, mac: Mac): World {
    var i := CS.Find(w.clients, ip, mac);
    if i == |w.clients| then w
    else w.(clients := CS.RemoveAt(w.clients, i),
            kernel := w.kernel.(mangle := RevokeFrom(e, w.kernel.mangle, w.clients[i])))
  }

  // ---------- fw_refresh_client_list ----------

  /** The update rule of iptables_fw_counters_update: a counter only grows, and traffic from the
      client renews its time of last activity. */
  function CountOutgoing(cs: seq<CS.Client>, r: Reading, now: int): (r': seq<CS.Client>)
    ensures |r'| == |cs|
  {
    var i := CS.FindByIp(cs, r.ip);
    if i < |cs| && cs[i].outgoing < r.bytes then cs[i := cs[i].(outgoing := r.bytes, updated := now)] else cs
  }

  function CountIncoming(cs: seq<CS.Client>, r: Reading): (r': seq<CS.Client>)
    ensures |r'| == |cs|
  {
    var i := CS.FindByIp(cs, r.ip);
    if i < |cs| && cs[i].incoming < r.bytes then cs[i := cs[i].(incoming := r.bytes)] else cs
  }

  predicate Expired(s: Setting, c: CS.Client, now: int) {
    c.updated + s.checkInterval * s.clientTimeout <= now || c.added + s.checkInterval * s.clientForceout <= now
  }

  /** The walk over the list: the clients before `rest` have been visited and kept; the k-th visit
      reads the clock as `clock(k)`. */
  function Sweep(s: Setting, t: Table, kept: seq<CS.Client>, rest: seq<CS.Client>, clock: nat -> int,
      k: nat): (Table, seq<CS.Client>)
    decreases |rest|
  {
    if rest == [] then (t, kept)
    else if Expired(s, rest[0], clock(k)) then Sweep(s, RevokeFrom(s.e, t, rest[0]), kept, rest[1..], clock, k + 1)
    else Sweep(s, t, kept + [rest[0]], rest[1..], clock, k + 1)
  }

  /** The sweep, one locked section. */
  function Swept(s: Setting, w: World, clock: nat -> int): World {
    var (t, kept) := Sweep(s, w.kernel.mangle, [], w.clients, clock, 0);
    w.(clients := kept, kernel := w.kernel.(mangle := t))
  }

  /** What a whole pass does when nothing comes between its locked sections: the outgoing lines, each at
      its own time, the incoming lines, the sweep. */
  function PassSteps(outgoing: seq<Reading>, times: nat -> int, incoming: seq<Reading>,
      clock: nat -> int): (r: seq<Step>) {
    OutSteps(outgoing, times) + (InSteps(incoming) + [Expire(clock)])
  }

  function OutSteps(readings: seq<Reading>, times: nat -> int): (r: seq<Step>)
    ensures |r| == |readings|
  {
    seq(|readings|, i requires 0 <= i < |readings| => CountOut(readings[i], times(i)))
  }

  function InSteps(readings: seq<Reading>): (r: seq<Step>)
    ensures |r| == |readings|
  {
    seq(|readings|, i requires 0 <= i < |readings| => CountIn(readings[i]))
  }

  // ---------- The MAC commands ----------

  function WithMangle(w: World, cmd: Command): World {
    w.(kernel := w.kernel.(mangle := Exec(w.kernel.mangle, cmd).0))
  }

  /** The list without the first entry for this address. */
  function RemoveMac(macs: seq<Mac>, mac: Mac): seq<Mac> {
    if macs == [] then [] else if macs[0] == mac then macs[1..] else [macs[0]] + RemoveMac(macs[1..], mac)
  }

  function TrustRule(e: Env, mac: Mac): Rule {
    MacRule(mac, e.Marker(e.cfg.marks.trusted))
  }

  function BlockRule(e: Env, mac: Mac): Rule {
    MacRule(mac, e.Marker(e.cfg.marks.blocked))
  }

  function Trusted(e: Env, w: World, mac: Mac): World {
    if mac in w.lists.trusted then w
    else WithMangle(w.(lists := w.lists.(trusted := [mac] + w.lists.trusted)), AppendRule(NdsTru, TrustRule(e, mac)))
  }

  function Untrusted(e: Env, w: World, mac: Mac): World {
    if mac !in w.lists.trusted then w
    else WithMangle(w.(lists := w.lists.(trusted := RemoveMac(w.lists.trusted, mac))),
        DeleteRule(NdsTru, TrustRule(e, mac)))
  }

  function Blocked(e: Env, w: World, mac: Mac): World {
    if e.cfg.mechanism != MacBlock || mac in w.lists.blocked then w
    else WithMangle(w.(lists := w.lists.(blocked := [mac] + w.lists.blocked)), AppendRule(NdsBlk, BlockRule(e, mac)))
  }

  function Unblocked(e: Env, w: World, mac: Mac): World {
    if e.cfg.mechanism != MacBlock || mac !in w.lists.blocked then w
    else WithMangle(w.(lists := w.lists.(blocked := RemoveMac(w.lists.blocked, mac))),
        DeleteRule(NdsBlk, BlockRule(e, mac)))
  }

  function Allowed(e: Env, w: World, mac: Mac): World {
    if e.cfg.mechanism != MacAllow || mac in w.lists.allowed then w
    else WithMangle(w.(lists := w.lists.(allowed := [mac] + w.lists.allowed)),
        InsertRule(NdsBlk, 1, MacRule(mac, Return)))
  }

  function Unallowed(e: Env, w: World, mac: Mac): World {
    if e.cfg.mechanism != MacAllow || mac !in w.lists.allowed then w
    else WithMangle(w.(lists := w.lists.(allowed := RemoveMac(w.lists.allowed, mac))),
        DeleteRule(NdsBlk, MacRule(mac, Return)))
  }

  // ---------- Runs ----------

  function After(s: Setting, w: World, step: Step): World {
    match step
    case AddClient(ip, arp, token, now) => w.(clients := CS.Add(w.clients, s.maxclients, ip, arp, token, now))
    case Authenticate(ip, mac) => Authenticated(s.e, w, ip, mac)
    case Deauthenticate(ip, mac) => Deauthenticated(s.e, w, ip, mac)
    case CountOut(line, now) => w.(clients := CountOutgoing(w.clients, line, now))
    case CountIn(line) => w.(clients := CountIncoming(w.clients, line))
    case Expire(clock) => Swept(s, w, clock)
    case Trust(mac) => if mac.None? then w else Trusted(s.e, w, mac.value)
    case Untrust(mac) => if mac.None? then w else Untrusted(s.e, w, mac.value)
    case Block(mac) => if mac.None? then w else Blocked(s.e, w, mac.value)
    case Unblock(mac) => if mac.None? then w else Unblocked(s.e, w, mac.value)
    case Allow(mac) => if mac.None? then w else Allowed(s.e, w, mac.value)
    case Unallow(mac) => if mac.None? then w else Unallowed(s.e, w, mac.value)
  }

  function Run(s: Setting, w: World, steps: seq<Step>): World
    decreases |steps|
  {
    if steps == [] then w else Run(s, After(s, w, steps[0]), steps[1..])
  }

  /** The program has just built the firewall; nobody has connected. */
  function Start(s: Setting, k0: Tables, lists: MacLists): World
    requires Fresh(k0)
  {
    World(Tables(MangleTable(s.e, lists, k0.mangle), NatTable(s.e, k0.xlate), FilterTable(s.e, k0.filter)), [], lists)
  }

  // ---------- What every state keeps ----------

  /** The client rules of the outgoing chain: one for each authenticated client. */
  function OutRules(e: Env, cs: seq<CS.Client>): multiset<Rule> {
    if cs == [] then multiset{}
    else (if cs[0].state.Authenticated? then multiset{OutRule(e, cs[0].ip, cs[0].mac, cs[0].idx)} else multiset{})
         + OutRules(e, cs[1..])
  }

  /** The client rules of the incoming chain: two for each authenticated client. */
  function IncRules(e: Env, cs: seq<CS.Client>): multiset<Rule> {
    if cs == [] then multiset{}
    else (if cs[0].state.Authenticated?
          then multiset{IncMarkRule(e, cs[0].ip, cs[0].idx), IncAcceptRule(cs[0].ip)} else multiset{})
         + IncRules(e, cs[1..])
  }

  /** Firewall and client list agree. */
  predicate Agree(e: Env, t: Table, cs: seq<CS.Client>) {
    && NdsOut in t && NdsInc in t
    && multiset(t[NdsOut]) == OutRules(e, cs)
    && multiset(t[NdsInc]) == IncRules(e, cs)
  }

  predicate NoRepeats(macs: seq<Mac>) {
    forall i, j :: 0 <= i < j < |macs| ==> macs[i] != macs[j]
  }

  predicate Good(s: Setting, k0: Tables, w: World)
    requires Fresh(k0)
  {
    && CS.Sound(w.clients, s.maxclients)
    && Stands(s.e, k0, w.kernel)
    && Agree(s.e, w.kernel.mangle, w.clients)
    && MangleHolds(s.e, w.kernel.mangle, w.lists)
    && NoRepeats(w.lists.trusted) && NoRepeats(w.lists.blocked) && NoRepeats(w.lists.allowed)
  }
}
