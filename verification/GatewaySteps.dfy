/** What each step of the running program does to the clients, the lists and the packets. */
module GatewaySteps {
  import opened Options
  import opened Iptables
  import opened FwRules
  import opened FwMeaning
  import opened FwClasses
  import opened GatewaySpec
  import opened GatewayProofs
  import opened GatewayTheorems
  import opened GatewayPackets
  import CS = ClientSpec

  /** A client of this address pair is listed. */
  predicate Present(cs: seq<CS.Client>, ip: Ip, mac: Mac) {
    exists i :: 0 <= i < |cs| && cs[i].ip == ip && cs[i].mac == mac
  }

  lemma PresentIs(cs: seq<CS.Client>, ip: Ip, mac: Mac)
    ensures Present(cs, ip, mac) <==> CS.Find(cs, ip, mac) < |cs|
  {
    var i := CS.Find(cs, ip, mac);
    if i < |cs| {
      assert cs[i].ip == ip && cs[i].mac == mac;
    }
  }

  // ---------- Arrival ----------

  /** An arrival is listed behind the others when its pair is not listed and there is room: it is
      preauthenticated, with its token, the time and a slot that is free; otherwise nothing changes. */
  lemma Arrives(cs: seq<CS.Client>, max: nat, ip: Ip, mac: Mac, token: string, now: int)
    ensures var cs' := CS.Add(cs, max, ip, Some(mac), token, now);
      if Present(cs, ip, mac) || |cs| >= max then cs' == cs
      else
        && |cs'| == |cs| + 1 && (forall i :: 0 <= i < |cs| ==> cs'[i] == cs[i])
        && var c := cs'[|cs|];
           && c.ip == ip && c.mac == mac && c.token == Some(token) && c.state == CS.Preauthenticated
           && c.added == now && c.updated == now && c.incoming == 0 && c.outgoing == 0
           && c.idx < max && (forall i :: 0 <= i < |cs| ==> cs[i].idx != c.idx)
    ensures CS.Add(cs, max, ip, None, token, now) == cs
  {
    PresentIs(cs, ip, mac);
    if |cs| < max {
      CS.SlotAvailable(cs, max);
      var k := CS.FreeSlot(cs, max);
      assert !CS.SlotUsed(cs, k);
      forall i | 0 <= i < |cs| ensures cs[i].idx != k {
        assert cs[i] in cs;
      }
    }
  }

  // ---------- Login ----------

  /** The rules of a client stand in the client chains. */
  predicate RulesStand(e: Env, t: Table, c: CS.Client) {
    && NdsOut in t && OutRule(e, c.ip, c.mac, c.idx) in t[NdsOut]
    && NdsInc in t && IncMarkRule(e, c.ip, c.idx) in t[NdsInc] && IncAcceptRule(c.ip) in t[NdsInc]
  }

  lemma {:induction false} RulesOfListed(e: Env, cs: seq<CS.Client>, i: nat)
    requires i < |cs| && cs[i].state.Authenticated?
    ensures OutRule(e, cs[i].ip, cs[i].mac, cs[i].idx) in OutRules(e, cs)
    ensures IncMarkRule(e, cs[i].ip, cs[i].idx) in IncRules(e, cs) && IncAcceptRule(cs[i].ip) in IncRules(e, cs)
  {
    RulesAround(e, cs, i);
  }

  /** Main result: after a listed client has authenticated, exactly its own entry has changed, and only in
      being authenticated; its rules stand, and its packets, and nobody else's, have become those of a login. */
  lemma LoginWorks(s: Setting, k0: Tables, w: World, ip: Ip, mac: Mac, i: nat)
    requires Fresh(k0) && Good(s, k0, w)
    requires i < |w.clients| && w.clients[i].ip == ip && w.clients[i].mac == mac
    ensures var w' := After(s, w, Authenticate(ip, mac));
      && |w'.clients| == |w.clients| && w'.lists == w.lists
      && (forall j :: 0 <= j < |w.clients| ==>
            w'.clients[j] == if j == i then w.clients[j].(state := CS.Authenticated) else w.clients[j])
      && RulesStand(s.e, w'.kernel.mangle, w'.clients[i])
      && (forall p: Packet :: LoginOf(w'.clients, p) ==
            if p.src == ip && p.mac == mac then Login.Client(w.clients[i].idx) else LoginOf(w.clients, p))
  {
    var w' := After(s, w, Authenticate(ip, mac));
    assert w' == Authenticated(s.e, w, ip, mac);
    AuthenticateStepGood(s, k0, w, ip, mac);
    GoodClients(s, k0, w);
    FoundOnce(w.clients, s.maxclients, i);
    EntryChanges(s, w, ip, mac, i);
    GoodRules(s, k0, w', i);
    hide Good, After, Authenticated, CS.Sound, RulesStand, Agree;
    LoginChanges(w.clients, w'.clients, i);
  }

  lemma EntryChanges(s: Setting, w: World, ip: Ip, mac: Mac, i: nat)
    requires i < |w.clients| && CS.Find(w.clients, ip, mac) == i
    ensures var w' := Authenticated(s.e, w, ip, mac);
      && w'.lists == w.lists && w'.clients == w.clients[i := w.clients[i].(state := CS.Authenticated)]
  {
    hide GrantTo, CS.Find;
    if w.clients[i].state.Authenticated? {
      assert w.clients[i].(state := CS.Authenticated) == w.clients[i];
    }
  }

  lemma LoginChanges(cs: seq<CS.Client>, cs': seq<CS.Client>, i: nat)
    requires i < |cs| && cs' == cs[i := cs[i].(state := CS.Authenticated)] && CS.Find(cs, cs[i].ip, cs[i].mac) == i
    ensures forall p: Packet ::
      LoginOf(cs', p) == (if p.src == cs[i].ip && p.mac == cs[i].mac then Login.Client(cs[i].idx) else LoginOf(cs, p))
  {
    SamePairs(cs, cs');
    hide CS.Find;
  }

  /** No two clients share an address pair, so that a search finds the client with it. */
  lemma FoundOnce(cs: seq<CS.Client>, max: nat, i: nat)
    requires CS.Sound(cs, max) && i < |cs|
    ensures CS.Find(cs, cs[i].ip, cs[i].mac) == i
  {
  }

  lemma {:induction false} SamePairs(cs: seq<CS.Client>, cs': seq<CS.Client>)
    requires |cs| == |cs'| && forall j :: 0 <= j < |cs| ==> cs'[j].ip == cs[j].ip && cs'[j].mac == cs[j].mac
    ensures forall ip, mac :: CS.Find(cs', ip, mac) == CS.Find(cs, ip, mac)
  {
    forall ip, mac ensures CS.Find(cs', ip, mac) == CS.Find(cs, ip, mac) {
      CS.FoundAt(cs', CS.Find(cs, ip, mac), ip, mac);
    }
  }

  lemma GoodRules(s: Setting, k0: Tables, w: World, i: nat)
    requires Fresh(k0) && Good(s, k0, w) && i < |w.clients| && w.clients[i].state.Authenticated?
    ensures RulesStand(s.e, w.kernel.mangle, w.clients[i])
  {
    RulesOfListed(s.e, w.clients, i);
    var t := w.kernel.mangle;
    var c := w.clients[i];
    assert OutRule(s.e, c.ip, c.mac, c.idx) in multiset(t[NdsOut]);
    assert IncMarkRule(s.e, c.ip, c.idx) in multiset(t[NdsInc]) && IncAcceptRule(c.ip) in multiset(t[NdsInc]);
    hide OutRules, IncRules, OutRule, IncMarkRule, IncAcceptRule;
  }

  // ---------- Logout ----------

  lemma Removed(cs: seq<CS.Client>, max: nat, i: nat)
    requires CS.Sound(cs, max) && i < |cs|
    ensures forall c :: c in CS.RemoveAt(cs, i) <==> c in cs && !(c.ip == cs[i].ip && c.mac == cs[i].mac)
  {
    var cs' := CS.RemoveAt(cs, i);
    forall c
      ensures c in cs' <==> c in cs && !(c.ip == cs[i].ip && c.mac == cs[i].mac)
    {
      if c in cs' {
        var j :| 0 <= j < |cs'| && cs'[j] == c;
        assert c == cs[if j < i then j else j + 1];
      }
      if c in cs {
        var j :| 0 <= j < |cs| && cs[j] == c;
        if j != i {
          assert cs'[if j < i then j else j - 1] == c;
        }
      }
    }
  }

  /** Whose packet it is, said without a search. */
  lemma LoginMeans(cs: seq<CS.Client>, max: nat, p: Packet)
    requires CS.Sound(cs, max)
    ensures forall c :: c in cs && c.ip == p.src && c.mac == p.mac ==>
              LoginOf(cs, p) == if c.state.Authenticated? then Login.Client(c.idx) else Login.Nobody
    ensures (forall c :: c in cs ==> !(c.ip == p.src && c.mac == p.mac)) ==> LoginOf(cs, p) == Login.Nobody
  {
    var i := CS.Find(cs, p.src, p.mac);
    forall c | c in cs && c.ip == p.src && c.mac == p.mac
      ensures LoginOf(cs, p) == if c.state.Authenticated? then Login.Client(c.idx) else Login.Nobody
    {
      var j :| 0 <= j < |cs| && cs[j] == c;
      FoundOnce(cs, max, j);
    }
    if i < |cs| {
      assert cs[i] in cs;
    }
  }

  lemma LoginsApart(cs: seq<CS.Client>, cs': seq<CS.Client>, max: nat, ip: Ip, mac: Mac, p: Packet)
    requires CS.Sound(cs, max) && CS.Sound(cs', max)
    requires forall c :: c in cs' <==> c in cs && !(c.ip == ip && c.mac == mac)
    ensures LoginOf(cs', p) == if p.src == ip && p.mac == mac then Login.Nobody else LoginOf(cs, p)
  {
    LoginMeans(cs, max, p);
    LoginMeans(cs', max, p);
    hide LoginOf, CS.Sound;
    if c :| c in cs && c.ip == p.src && c.mac == p.mac {
      assert c in cs' <==> !(p.src == ip && p.mac == mac);
    }
  }

  /** Main result: after a deauthentication the pair is not listed, nobody else has changed, no rule of the
      outgoing chain applies to its packets, and its packets are nobody's. */
  lemma LogoutWorks(s: Setting, k0: Tables, w: World, ip: Ip, mac: Mac)
    requires Fresh(k0) && Good(s, k0, w)
    ensures var w' := After(s, w, Deauthenticate(ip, mac));
      && !Present(w'.clients, ip, mac) && w'.lists == w.lists
      && (forall c :: c in w'.clients <==> c in w.clients && !(c.ip == ip && c.mac == mac))
      && (forall p: Packet :: LoginOf(w'.clients, p) ==
            if p.src == ip && p.mac == mac then Login.Nobody else LoginOf(w.clients, p))
      && NdsOut in w'.kernel.mangle
      && (forall p: Packet :: p.src == ip && p.mac == mac ==>
            OutgoingMeets(s.e, w'.kernel.mangle[NdsOut], p, Login.Nobody))
  {
    var cs, w' := w.clients, After(s, w, Deauthenticate(ip, mac));
    DeauthenticateStepGood(s, k0, w, ip, mac);
    GoodClients(s, k0, w);
    GoodClients(s, k0, w');
    var i := CS.Find(cs, ip, mac);
    if i < |cs| {
      Removed(cs, s.maxclients, i);
    }
    hide Good, RevokeFrom, CS.RemoveAt, CS.Sound, LoginOf, OutgoingMeets, Agree;
    assert forall c :: c in w'.clients <==> c in cs && !(c.ip == ip && c.mac == mac);
    forall p: Packet
      ensures LoginOf(w'.clients, p) == if p.src == ip && p.mac == mac then Login.Nobody else LoginOf(cs, p)
      ensures OutgoingMeets(s.e, w'.kernel.mangle[NdsOut], p, LoginOf(w'.clients, p))
    {
      LoginsApart(cs, w'.clients, s.maxclients, ip, mac, p);
      LoginMeets(s.e, w'.kernel.mangle, w'.clients, s.maxclients, p);
    }
  }

  lemma GoodClients(s: Setting, k0: Tables, w: World)
    requires Fresh(k0) && Good(s, k0, w)
    ensures CS.Sound(w.clients, s.maxclients) && Agree(s.e, w.kernel.mangle, w.clients)
    ensures NdsOut in w.kernel.mangle && NdsInc in w.kernel.mangle
  {
  }

  // ---------- Packets behind a step ----------

  lemma {:induction false} RunMore(s: Setting, w: World, steps: seq<Step>, step: Step)
    ensures Run(s, w, steps + [step]) == After(s, Run(s, w, steps), step)
    decreases |steps|
  {
    hide After;
    if steps == [] {
      assert [step][1..] == [] && steps + [step] == [step];
    } else {
      assert (steps + [step])[0] == steps[0] && (steps + [step])[1..] == steps[1..] + [step];
      RunMore(s, After(s, w, steps[0]), steps[1..], step);
    }
  }

  lemma StillLive(s: Setting, k0: Tables, lists: MacLists, steps: seq<Step>, w: World, step: Step)
    requires Fresh(k0) && Live(s, k0, lists, steps, w)
    ensures Live(s, k0, lists, steps + [step], After(s, w, step))
  {
    RunMore(s, Start(s, k0, lists), steps, step);
    hide After, Run, Start, MarkFits, NoRepeats;
  }

  /** A packet from the gateway interface without a mark, of the client (ip, mac). */
  predicate PacketOf(s: Setting, p: Packet, ip: Ip, mac: Mac) {
    FromGateway(s.e, p) && Class(s.e, p) == 0 && p.src == ip && p.mac == mac
  }

  /** The PREROUTING hook gives the packet this class. */
  predicate GivesClass(s: Setting, k0: Tables, w: World, p: Packet, mark: nat, depth: nat)
    requires Fresh(k0)
  {
    && Class(s.e, Marked(s, w, p)) == mark
    && PreroutingHook in w.kernel.mangle
    && Walk(w.kernel.mangle, w.kernel.mangle[PreroutingHook], p, depth)
    == Walk(k0.mangle, k0.mangle[PreroutingHook], Marked(s, w, p), depth)
  }

  /** What the class is when at most the login says anything. */
  lemma ClassOfLogin(s: Setting, w: World, p: Packet)
    requires p.mac !in w.lists.trusted && !IsBlocked(s.e, w.lists, p.mac)
    ensures MarkedClass(s, w, p) == if LoginOf(w.clients, p).Nobody? then 0 else s.e.cfg.marks.authenticated
  {
    var who := LoginOf(w.clients, p);
    assert AtMostOneClass(s.e, w.lists, p, who);
    ClassCases(s, w, p);
    hide LoginOf, IsBlocked;
  }

  /** Main result: from its login on, a client's packets carry AUTHENTICATED when it is neither trusted nor
      blocked; from its deauthentication on, none. */
  lemma PacketsFollowLogin(s: Setting, k0: Tables, lists: MacLists, steps: seq<Step>, w: World,
      ip: Ip, mac: Mac, p: Packet, depth: nat)
    requires Fresh(k0) && Foreign(k0.mangle) && Live(s, k0, lists, steps, w)
    requires PacketOf(s, p, ip, mac) && mac !in w.lists.trusted && !IsBlocked(s.e, w.lists, mac) && depth >= 1
    ensures Present(w.clients, ip, mac) ==>
      GivesClass(s, k0, After(s, w, Authenticate(ip, mac)), p, s.e.cfg.marks.authenticated, depth)
    ensures GivesClass(s, k0, After(s, w, Deauthenticate(ip, mac)), p, 0, depth)
  {
    var login, logout := Authenticate(ip, mac), Deauthenticate(ip, mac);
    LiveParts(s, k0, lists, steps, w);
    ReachedGood(s, k0, lists, steps, w);
    StillLive(s, k0, lists, steps, w, login);
    StillLive(s, k0, lists, steps, w, logout);
    PacketMarked(s, k0, lists, steps + [logout], After(s, w, logout), p, depth);
    LogoutWorks(s, k0, w, ip, mac);
    ClassOfLogin(s, After(s, w, logout), p);
    hide After, Live, Good, Marked, MarkedClass, LoginOf, RulesStand, IsBlocked;
    if i :| 0 <= i < |w.clients| && w.clients[i].ip == ip && w.clients[i].mac == mac {
      LoginWorks(s, k0, w, ip, mac, i);
      PacketMarked(s, k0, lists, steps + [login], After(s, w, login), p, depth);
      ClassOfLogin(s, After(s, w, login), p);
    }
  }

  // ---------- The MAC lists ----------

  lemma {:induction false} RemovedMac(macs: seq<Mac>, mac: Mac)
    requires NoRepeats(macs)
    ensures forall m :: m in RemoveMac(macs, mac) <==> m in macs && m != mac
    decreases |macs|
  {
    if macs != [] {
      assert macs == [macs[0]] + macs[1..];
      if macs[0] != mac {
        RemovedMac(macs[1..], mac);
      } else {
        assert forall k :: 1 <= k < |macs| ==> macs[k] != macs[0];
      }
    }
  }

  /** Afterwards the address is on the list. */
  ghost predicate Joins(macs: seq<Mac>, macs': seq<Mac>, mac: Mac) {
    forall m :: m in macs' <==> m in macs || m == mac
  }

  /** Afterwards it is not. */
  ghost predicate Leaves(macs: seq<Mac>, macs': seq<Mac>, mac: Mac) {
    forall m :: m in macs' <==> m in macs && m != mac
  }

  lemma Joined(macs: seq<Mac>, mac: Mac)
    ensures Joins(macs, [mac] + macs, mac) && (mac in macs ==> Joins(macs, macs, mac))
  {
  }

  /** Main result: trusting an address puts it on the list and taking that back takes it off; no other address,
      list or client is touched. */
  lemma TrustWorks(s: Setting, k0: Tables, w: World, mac: Mac)
    requires Fresh(k0) && Good(s, k0, w)
    ensures var w' := After(s, w, Trust(Some(mac)));
      && Joins(w.lists.trusted, w'.lists.trusted, mac)
      && w'.lists == w.lists.(trusted := w'.lists.trusted) && w'.clients == w.clients
    ensures var w' := After(s, w, Untrust(Some(mac)));
      && Leaves(w.lists.trusted, w'.lists.trusted, mac)
      && w'.lists == w.lists.(trusted := w'.lists.trusted) && w'.clients == w.clients
  {
    GoodLists(s, k0, w);
    RemovedMac(w.lists.trusted, mac);
    Joined(w.lists.trusted, mac);
    hide Good, NoRepeats, RemoveMac, Joins, Exec, MangleHolds, TrustRule;
  }

  /** Main result: so for blocking, which needs the block mechanism. */
  lemma BlockWorks(s: Setting, k0: Tables, w: World, mac: Mac)
    requires Fresh(k0) && Good(s, k0, w)
    ensures var w' := After(s, w, Block(Some(mac)));
      && (if s.e.cfg.mechanism.MacBlock? then Joins(w.lists.blocked, w'.lists.blocked, mac) else w' == w)
      && w'.lists == w.lists.(blocked := w'.lists.blocked) && w'.clients == w.clients
    ensures var w' := After(s, w, Unblock(Some(mac)));
      && (if s.e.cfg.mechanism.MacBlock? then Leaves(w.lists.blocked, w'.lists.blocked, mac) else w' == w)
      && w'.lists == w.lists.(blocked := w'.lists.blocked) && w'.clients == w.clients
  {
    GoodLists(s, k0, w);
    RemovedMac(w.lists.blocked, mac);
    Joined(w.lists.blocked, mac);
    hide Good, NoRepeats, RemoveMac, Joins, Exec, MangleHolds, BlockRule;
  }

  /** Main result: so for allowing, which needs the other one. */
  lemma AllowWorks(s: Setting, k0: Tables, w: World, mac: Mac)
    requires Fresh(k0) && Good(s, k0, w)
    ensures var w' := After(s, w, Allow(Some(mac)));
      && (if s.e.cfg.mechanism.MacAllow? then Joins(w.lists.allowed, w'.lists.allowed, mac) else w' == w)
      && w'.lists == w.lists.(allowed := w'.lists.allowed) && w'.clients == w.clients
    ensures var w' := After(s, w, Unallow(Some(mac)));
      && (if s.e.cfg.mechanism.MacAllow? then Leaves(w.lists.allowed, w'.lists.allowed, mac) else w' == w)
      && w'.lists == w.lists.(allowed := w'.lists.allowed) && w'.clients == w.clients
  {
    GoodLists(s, k0, w);
    RemovedMac(w.lists.allowed, mac);
    Joined(w.lists.allowed, mac);
    hide Good, NoRepeats, RemoveMac, Joins, Exec, MangleHolds, MacRule;
  }

  /** Who is trusted or blocked at some moment is what the last such step said, and under --set-mark the class
      of its packets. */
  lemma ListsDecideClass(s: Setting, w: World, p: Packet)
    requires !s.e.orMark
    ensures p.mac in w.lists.trusted ==> MarkedClass(s, w, p) == s.e.cfg.marks.trusted
    ensures p.mac !in w.lists.trusted
            && (if s.e.cfg.mechanism.MacBlock? then p.mac in w.lists.blocked else p.mac !in w.lists.allowed) ==>
            MarkedClass(s, w, p) == s.e.cfg.marks.blocked
  {
    hide LoginOf;
  }

  // ---------- Counters ----------

  /** The first client of an address. */
  predicate FirstOf(cs: seq<CS.Client>, i: nat, ip: Ip) {
    i < |cs| && cs[i].ip == ip && forall j :: 0 <= j < i ==> cs[j].ip != ip
  }

  /** A counter line is about the first client of its address.  A higher reading raises the counter, and an
      outgoing one renews the time of last activity; a lower one, and every other client, changes nothing. */
  lemma LinesCount(cs: seq<CS.Client>, line: Reading, now: int)
    ensures var r := CountOutgoing(cs, line, now);
      |r| == |cs| && forall i :: 0 <= i < |cs| ==>
        if FirstOf(cs, i, line.ip) && cs[i].outgoing < line.bytes
        then r[i] == cs[i].(outgoing := line.bytes, updated := now) else r[i] == cs[i]
    ensures var r := CountIncoming(cs, line);
      |r| == |cs| && forall i :: 0 <= i < |cs| ==>
        if FirstOf(cs, i, line.ip) && cs[i].incoming < line.bytes
        then r[i] == cs[i].(incoming := line.bytes) else r[i] == cs[i]
  {
    forall i: nat | FirstOf(cs, i, line.ip) ensures CS.FindByIp(cs, line.ip) == i {
      CS.FoundAt(cs, i, line.ip, cs[i].mac);
    }
  }

  /** The highest of some readings of an address and what was there. */
  function Highest(lines: seq<Reading>, ip: Ip, was: nat): (n: nat) {
    if lines == [] then was
    else Highest(lines[1..], ip, if lines[0].ip == ip && lines[0].bytes > was then lines[0].bytes else was)
  }

  /** Main result: after a listing the outgoing counter of the first client of an address is the highest reading
      of that address, or what it was if that is higher; so for incoming. */
  lemma {:induction false} ListingCounts(s: Setting, w: World, lines: seq<Reading>, times: nat -> int, i: nat, ip: Ip)
    requires FirstOf(w.clients, i, ip)
    ensures var cs := Run(s, w, OutSteps(lines, times)).clients;
      FirstOf(cs, i, ip) && cs[i].outgoing == Highest(lines, ip, w.clients[i].outgoing)
    decreases |lines|
  {
    if lines != [] {
      var step := CountOut(lines[0], times(0));
      var w' := After(s, w, step);
      LinesCount(w.clients, lines[0], times(0));
      hide CountOutgoing;
      assert OutSteps(lines, times)[0] == step;
      assert OutSteps(lines, times)[1..] == OutSteps(lines[1..], (k: nat) => times(k + 1));
      assert FirstOf(w'.clients, i, ip);
      ListingCounts(s, w', lines[1..], (k: nat) => times(k + 1), i, ip);
    }
  }
}
