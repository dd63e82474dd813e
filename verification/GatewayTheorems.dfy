/** The main results about the running gateway, over every run of its locked steps. */
module GatewayTheorems {
  import opened Options
  import opened Iptables
  import opened FwRules
  import opened FwClasses
  import opened FwTeardown
  import opened GatewaySpec
  import opened GatewayProofs
  import CS = ClientSpec

  // ---------- Reachable states ----------

  lemma {:induction false} ReverseMultiset(s: seq<Rule>)
    ensures multiset(Reverse(s)) == multiset(s)
  {
    if s != [] {
      assert s == [s[0]] + s[1..];
      assert Reverse(s) == Reverse(s[1..]) + [s[0]];
      ReverseMultiset(s[1..]);
    }
  }

  lemma StartHoldsBlocked(e: Env, lists: MacLists)
    ensures HoldsBlocked(e, BlockedChain(e, lists), lists)
  {
    ReverseMultiset(MacRules(lists.allowed, Return));
    var chain := BlockedChain(e, lists);
    if e.cfg.mechanism == MacAllow {
      assert chain[..|chain| - 1] == Reverse(MacRules(lists.allowed, Return));
    }
    hide MacRules, Reverse;
  }

  lemma StartChains(e: Env, lists: MacLists, k: Table)
    requires PreroutingHook in k && PostroutingHook in k
    ensures var t := MangleTable(e, lists, k);
      && NdsTru in t && t[NdsTru] == MacRules(lists.trusted, e.Marker(e.cfg.marks.trusted))
      && NdsBlk in t && t[NdsBlk] == BlockedChain(e, lists)
      && NdsInc in t && t[NdsInc] == [] && NdsOut in t && t[NdsOut] == []
  {
    hide MacRules, BlockedChain, Prerouting, Postrouting;
  }

  lemma StartStands(e: Env, lists: MacLists, k: Table)
    requires PreroutingHook in k && PostroutingHook in k
    requires NdsTru !in k && NdsBlk !in k && NdsInc !in k && NdsOut !in k
    ensures MangleStands(e, k, MangleTable(e, lists, k))
  {
    hide MacRules, BlockedChain, Prerouting, Postrouting;
  }

  lemma StartGood(s: Setting, k0: Tables, lists: MacLists)
    requires Fresh(k0) && NoRepeats(lists.trusted) && NoRepeats(lists.blocked) && NoRepeats(lists.allowed)
    ensures Good(s, k0, Start(s, k0, lists))
  {
    StartHoldsBlocked(s.e, lists);
    StartChains(s.e, lists, k0.mangle);
    StartStands(s.e, lists, k0.mangle);
    hide MangleTable, MangleStands, MacRules, BlockedChain, NatTable, FilterTable, HoldsBlocked;
  }

  /** The invariant, apart from what concerns clients only. */
  predicate FirewallGood(s: Setting, k0: Tables, w: World)
    requires Fresh(k0)
  {
    && Stands(s.e, k0, w.kernel)
    && MangleHolds(s.e, w.kernel.mangle, w.lists)
    && NoRepeats(w.lists.trusted) && NoRepeats(w.lists.blocked) && NoRepeats(w.lists.allowed)
  }

  lemma GoodParts(s: Setting, k0: Tables, w: World)
    requires Fresh(k0)
    ensures Good(s, k0, w) <==> FirewallGood(s, k0, w) && ClientsGood(s, w.kernel.mangle, w.clients)
  {
  }

  lemma ClientsStep(s: Setting, k0: Tables, w: World, t: Table, cs: seq<CS.Client>)
    requires Fresh(k0) && FirewallGood(s, k0, w) && SameBut(w.kernel.mangle, t) && ClientsGood(s, t, cs)
    ensures Good(s, k0, w.(clients := cs, kernel := w.kernel.(mangle := t)))
  {
    hide ClientsGood, HoldsBlocked, HoldsMacs;
    GoodParts(s, k0, w.(clients := cs, kernel := w.kernel.(mangle := t)));
  }

  lemma MacStep(s: Setting, k0: Tables, w: World, w': World, chain: Chain)
    requires Fresh(k0) && Good(s, k0, w) && (chain == NdsTru || chain == NdsBlk)
    requires w'.clients == w.clients && w'.kernel == w.kernel.(mangle := w'.kernel.mangle)
    requires OnlyChain(w.kernel.mangle, w'.kernel.mangle, chain) && MangleHolds(s.e, w'.kernel.mangle, w'.lists)
    requires NoRepeats(w'.lists.trusted) && NoRepeats(w'.lists.blocked) && NoRepeats(w'.lists.allowed)
    ensures Good(s, k0, w')
  {
    hide MangleHolds, OutRules, IncRules, CS.Sound, NoRepeats;
  }

  lemma AddStepGood(s: Setting, k0: Tables, w: World, ip: Ip, arp: Option<Mac>, token: string, now: int)
    requires Fresh(k0) && Good(s, k0, w)
    ensures Good(s, k0, After(s, w, AddClient(ip, arp, token, now)))
  {
    hide Good, FirewallGood, ClientsGood, Stands, MangleHolds;
    GoodParts(s, k0, w);
    var t := w.kernel.mangle;
    AddGood(s, t, w.clients, ip, arp, token, now);
    SameButSelf(t);
    ClientsStep(s, k0, w, t, CS.Add(w.clients, s.maxclients, ip, arp, token, now));
  }

  lemma SameButSelf(t: Table)
    ensures SameBut(t, t)
  {
  }

  lemma AuthenticateStepGood(s: Setting, k0: Tables, w: World, ip: Ip, mac: Mac)
    requires Fresh(k0) && Good(s, k0, w)
    ensures Good(s, k0, Authenticated(s.e, w, ip, mac))
  {
    hide Good, FirewallGood, ClientsGood, Stands, MangleHolds, SameBut, GrantTo, CS.Find;
    GoodParts(s, k0, w);
    var t, cs := w.kernel.mangle, w.clients;
    var i := CS.Find(cs, ip, mac);
    if i < |cs| && !cs[i].state.Authenticated? {
      AuthenticateGood(s, t, cs, i);
      ClientsStep(s, k0, w, GrantTo(s.e, t, cs[i]), cs[i := cs[i].(state := CS.Authenticated)]);
    }
  }

  lemma DeauthenticateStepGood(s: Setting, k0: Tables, w: World, ip: Ip, mac: Mac)
    requires Fresh(k0) && Good(s, k0, w)
    ensures Good(s, k0, Deauthenticated(s.e, w, ip, mac))
  {
    hide Good, FirewallGood, ClientsGood, Stands, MangleHolds, SameBut, RevokeFrom, CS.RemoveAt, CS.Find;
    GoodParts(s, k0, w);
    var t, cs := w.kernel.mangle, w.clients;
    var i := CS.Find(cs, ip, mac);
    if i < |cs| {
      RemoveGood(s, t, cs, i);
      ClientsStep(s, k0, w, RevokeFrom(s.e, t, cs[i]), CS.RemoveAt(cs, i));
    }
  }

  lemma CountStepGood(s: Setting, k0: Tables, w: World, line: Reading, now: int)
    requires Fresh(k0) && Good(s, k0, w)
    ensures Good(s, k0, After(s, w, CountOut(line, now))) && Good(s, k0, After(s, w, CountIn(line)))
  {
    hide Good, FirewallGood, ClientsGood, SameBut, CountOutgoing, CountIncoming;
    GoodParts(s, k0, w);
    var t := w.kernel.mangle;
    SameButSelf(t);
    CountOutGood(s, t, w.clients, line, now);
    CountInGood(s, t, w.clients, line);
    ClientsStep(s, k0, w, t, CountOutgoing(w.clients, line, now));
    ClientsStep(s, k0, w, t, CountIncoming(w.clients, line));
    assert w.kernel.(mangle := t) == w.kernel;
  }

  lemma ExpireStepGood(s: Setting, k0: Tables, w: World, clock: nat -> int)
    requires Fresh(k0) && Good(s, k0, w)
    ensures Good(s, k0, Swept(s, w, clock))
  {
    hide Good, FirewallGood, ClientsGood, Stands, MangleHolds, SameBut, Sweep;
    GoodParts(s, k0, w);
    var t, cs := w.kernel.mangle, w.clients;
    assert [] + cs == cs;
    SweepGood(s, t, [], cs, clock, 0);
    var (t', cs') := Sweep(s, t, [], cs, clock, 0);
    ClientsStep(s, k0, w, t', cs');
  }

  lemma TrustStepGood(s: Setting, k0: Tables, w: World, mac: Mac)
    requires Fresh(k0) && Good(s, k0, w)
    ensures Good(s, k0, Trusted(s.e, w, mac)) && Good(s, k0, Untrusted(s.e, w, mac))
  {
    GoodLists(s, k0, w);
    hide Good, MangleHolds, NoRepeats, Exec, OnlyChain;
    TrustGood(s.e, w, mac);
    MacStep(s, k0, w, Trusted(s.e, w, mac), NdsTru);
    UntrustGood(s.e, w, mac);
    MacStep(s, k0, w, Untrusted(s.e, w, mac), NdsTru);
  }

  lemma BlockStepGood(s: Setting, k0: Tables, w: World, mac: Mac)
    requires Fresh(k0) && Good(s, k0, w)
    ensures Good(s, k0, Blocked(s.e, w, mac)) && Good(s, k0, Unblocked(s.e, w, mac))
  {
    GoodLists(s, k0, w);
    hide Good, MangleHolds, NoRepeats, Exec, OnlyChain;
    BlockGood(s.e, w, mac);
    MacStep(s, k0, w, Blocked(s.e, w, mac), NdsBlk);
    UnblockGood(s.e, w, mac);
    MacStep(s, k0, w, Unblocked(s.e, w, mac), NdsBlk);
  }

  lemma AllowStepGood(s: Setting, k0: Tables, w: World, mac: Mac)
    requires Fresh(k0) && Good(s, k0, w)
    ensures Good(s, k0, Allowed(s.e, w, mac)) && Good(s, k0, Unallowed(s.e, w, mac))
  {
    GoodLists(s, k0, w);
    hide Good, MangleHolds, NoRepeats, Exec, OnlyChain;
    AllowGood(s.e, w, mac);
    MacStep(s, k0, w, Allowed(s.e, w, mac), NdsBlk);
    UnallowGood(s.e, w, mac);
    MacStep(s, k0, w, Unallowed(s.e, w, mac), NdsBlk);
  }

  lemma GoodLists(s: Setting, k0: Tables, w: World)
    requires Fresh(k0) && Good(s, k0, w)
    ensures MangleHolds(s.e, w.kernel.mangle, w.lists)
    ensures NoRepeats(w.lists.trusted) && NoRepeats(w.lists.blocked) && NoRepeats(w.lists.allowed)
  {
  }

  lemma StepGood(s: Setting, k0: Tables, w: World, step: Step)
    requires Fresh(k0) && Good(s, k0, w)
    ensures Good(s, k0, After(s, w, step))
  {
    hide Good, Authenticated, Deauthenticated, Swept, Trusted, Untrusted, Blocked, Unblocked, Allowed, Unallowed;
    match step
    case AddClient(ip, arp, token, now) => AddStepGood(s, k0, w, ip, arp, token, now);
    case Authenticate(ip, mac) => AuthenticateStepGood(s, k0, w, ip, mac);
    case Deauthenticate(ip, mac) => DeauthenticateStepGood(s, k0, w, ip, mac);
    case CountOut(line, now) => CountStepGood(s, k0, w, line, now);
    case CountIn(line) => CountStepGood(s, k0, w, line, 0);
    case Expire(clock) => ExpireStepGood(s, k0, w, clock);
    case Trust(arg) => if arg.Some? { TrustStepGood(s, k0, w, arg.value); }
    case Untrust(arg) => if arg.Some? { TrustStepGood(s, k0, w, arg.value); }
    case Block(arg) => if arg.Some? { BlockStepGood(s, k0, w, arg.value); }
    case Unblock(arg) => if arg.Some? { BlockStepGood(s, k0, w, arg.value); }
    case Allow(arg) => if arg.Some? { AllowStepGood(s, k0, w, arg.value); }
    case Unallow(arg) => if arg.Some? { AllowStepGood(s, k0, w, arg.value); }
  }

  /** Every reachable state, under any interleaving of the steps: no two clients share an address pair
      or a slot, the client rules are exactly those of the authenticated clients, the MAC chains hold
      exactly the MAC lists, and everything else stands as it was built. */
  lemma {:induction false} RunGood(s: Setting, k0: Tables, w: World, steps: seq<Step>)
    requires Fresh(k0) && Good(s, k0, w)
    ensures Good(s, k0, Run(s, w, steps))
    decreases |steps|
  {
    hide Good;
    if steps != [] {
      StepGood(s, k0, w, steps[0]);
      hide After;
      RunGood(s, k0, After(s, w, steps[0]), steps[1..]);
    }
  }

  /** A world the program can be in. */
  predicate Reached(s: Setting, k0: Tables, lists: MacLists, steps: seq<Step>, w: World)
    requires Fresh(k0)
  {
    && NoRepeats(lists.trusted) && NoRepeats(lists.blocked) && NoRepeats(lists.allowed)
    && w == Run(s, Start(s, k0, lists), steps)
  }

  lemma ReachedGood(s: Setting, k0: Tables, lists: MacLists, steps: seq<Step>, w: World)
    requires Fresh(k0) && Reached(s, k0, lists, steps, w)
    ensures Good(s, k0, w)
  {
    hide Good, Run, Start;
    StartGood(s, k0, lists);
    RunGood(s, k0, Start(s, k0, lists), steps);
  }

  // ---------- Teardown after any run ----------

  /** Destroying the firewall after any run gives back the tables found at the start. */
  lemma TeardownAfterRun(s: Setting, k0: Tables, lists: MacLists, steps: seq<Step>, w: World)
    requires Fresh(k0) && Unrelated(k0.mangle) && Unrelated(k0.xlate) && Unrelated(k0.filter)
    requires Reached(s, k0, lists, steps, w)
    ensures Tables(DestroyedMangle(w.kernel.mangle), DestroyedNat(w.kernel.xlate), DestroyedFilter(w.kernel.filter))
        == k0
  {
    ReachedGood(s, k0, lists, steps, w);
    hide Reached, Unrelated, DestroyedMangle, DestroyedNat, DestroyedFilter;
    Teardown(s.e, k0, w.kernel);
  }

  // ---------- Expiry ----------

  /** The clients of a list that are not expired when visited, in order; the i-th visit reads `clock(k + i)`. */
  function Survivors(s: Setting, cs: seq<CS.Client>, clock: nat -> int, k: nat): seq<CS.Client>
    decreases |cs|
  {
    if cs == [] then []
    else (if Expired(s, cs[0], clock(k)) then [] else [cs[0]]) + Survivors(s, cs[1..], clock, k + 1)
  }

  /** The pass that deletes while it walks is a filter. */
  lemma {:induction false} SweepIsFilter(s: Setting, t: Table, kept: seq<CS.Client>, rest: seq<CS.Client>,
      clock: nat -> int, k: nat)
    ensures Sweep(s, t, kept, rest, clock, k).1 == kept + Survivors(s, rest, clock, k)
    decreases |rest|
  {
    hide Expired, RevokeFrom;
    if rest == [] {
      assert kept + [] == kept;
    } else if Expired(s, rest[0], clock(k)) {
      SweepIsFilter(s, RevokeFrom(s.e, t, rest[0]), kept, rest[1..], clock, k + 1);
      assert [] + Survivors(s, rest[1..], clock, k + 1) == Survivors(s, rest[1..], clock, k + 1);
    } else {
      SweepIsFilter(s, t, kept + [rest[0]], rest[1..], clock, k + 1);
      assert kept + ([rest[0]] + Survivors(s, rest[1..], clock, k + 1))
          == kept + [rest[0]] + Survivors(s, rest[1..], clock, k + 1);
    }
  }

  /** The client is seen at `now` before either of its deadlines. */
  predicate InTime(s: Setting, c: CS.Client, now: int) {
    now < c.updated + s.checkInterval * s.clientTimeout && now < c.added + s.checkInterval * s.clientForceout
  }

  /** Who survives: exactly the clients visited before their idle and their forced deadline. */
  lemma {:induction false} SurvivorsAre(s: Setting, cs: seq<CS.Client>, clock: nat -> int, k: nat, c: CS.Client)
    ensures c in Survivors(s, cs, clock, k) <==> exists i :: 0 <= i < |cs| && cs[i] == c && InTime(s, c, clock(k + i))
    decreases |cs|
  {
    if cs != [] {
      var rest := cs[1..];
      SurvivorsAre(s, rest, clock, k + 1, c);
      hide InTime;
      if c in Survivors(s, rest, clock, k + 1) {
        var i :| 0 <= i < |rest| && rest[i] == c && InTime(s, c, clock(k + 1 + i));
        assert cs[i + 1] == c && InTime(s, c, clock(k + (i + 1)));
      }
      if i :| 0 <= i < |cs| && cs[i] == c && InTime(s, c, clock(k + i)) {
        if i > 0 {
          assert rest[i - 1] == c && InTime(s, c, clock(k + 1 + (i - 1)));
        }
      }
      ExpiredIsLate(s, cs[0], clock(k));
    }
  }

  lemma ExpiredIsLate(s: Setting, c: CS.Client, now: int)
    ensures Expired(s, c, now) <==> !InTime(s, c, now)
  {
  }

  // ---------- No client outstays its time ----------

  function ForceTime(s: Setting): int {
    s.checkInterval * s.clientForceout
  }

  function IdleTime(s: Setting): int {
    s.checkInterval * s.clientTimeout
  }

  /** At time `t` every listed client is younger than the forced time-out. */
  predicate Young(s: Setting, cs: seq<CS.Client>, t: int) {
    forall i :: 0 <= i < |cs| ==> t - cs[i].added < ForceTime(s)
  }

  /** At time `t` no listed client has been idle for the idle time-out. */
  predicate Active(s: Setting, cs: seq<CS.Client>, t: int) {
    forall i :: 0 <= i < |cs| ==> t - cs[i].updated < IdleTime(s)
  }

  datatype Event = Event(time: int, step: Step)

  /** Time moves on, a step takes place at its time, and sweeps start at most `g` apart; `last` is the
      start of the last one. */
  ghost predicate Paced(events: seq<Event>, last: int, g: int)
    decreases |events|
  {
    events == [] ||
    (&& last <= events[0].time <= last + g
     && match events[0].step
        case AddClient(_, _, _, now) => now == events[0].time && Paced(events[1..], last, g)
        case CountOut(_, now) => now == events[0].time && Paced(events[1..], last, g)
        case Expire(clock) => (forall k: nat :: clock(k) >= events[0].time) && Paced(events[1..], events[0].time, g)
        case _ => Paced(events[1..], last, g))
  }

  function LastPass(events: seq<Event>, last: int): int
    decreases |events|
  {
    if events == [] then last
    else LastPass(events[1..], if events[0].step.Expire? then events[0].time else last)
  }

  function Steps(events: seq<Event>): (r: seq<Step>)
    ensures |r| == |events|
  {
    seq(|events|, i requires 0 <= i < |events| => events[i].step)
  }

  lemma ExpireMakesYoung(s: Setting, w: World, clock: nat -> int, t: int)
    requires forall k: nat :: clock(k) >= t
    ensures Young(s, After(s, w, Expire(clock)).clients, t) && Active(s, After(s, w, Expire(clock)).clients, t)
  {
    var cs := w.clients;
    var kept := After(s, w, Expire(clock)).clients;
    SweepIsFilter(s, w.kernel.mangle, [], cs, clock, 0);
    hide Survivors, RevokeFrom, Sweep;
    assert kept == [] + Survivors(s, cs, clock, 0) == Survivors(s, cs, clock, 0);
    hide After;
    forall j | 0 <= j < |kept|
      ensures t - kept[j].added < ForceTime(s) && t - kept[j].updated < IdleTime(s)
    {
      assert kept[j] in kept;
      SurvivorIsYoung(s, cs, clock, t, kept[j]);
    }
  }

  lemma SurvivorIsYoung(s: Setting, cs: seq<CS.Client>, clock: nat -> int, t: int, c: CS.Client)
    requires (forall k: nat :: clock(k) >= t) && c in Survivors(s, cs, clock, 0)
    ensures t - c.added < ForceTime(s) && t - c.updated < IdleTime(s)
  {
    SurvivorsAre(s, cs, clock, 0, c);
    var i :| 0 <= i < |cs| && cs[i] == c && InTime(s, c, clock(0 + i));
    assert clock(i) >= t;
  }

  /** Any other step keeps the clients young and active, as long as its own time is no earlier. */
  lemma StepKeepsYoung(s: Setting, w: World, step: Step, t: int)
    requires !step.Expire? && (step.AddClient? || step.CountOut? ==> step.now >= t)
    ensures Young(s, w.clients, t) && ForceTime(s) > 0 ==> Young(s, After(s, w, step).clients, t)
    ensures Active(s, w.clients, t) && IdleTime(s) > 0 ==> Active(s, After(s, w, step).clients, t)
  {
    hide GrantTo, RevokeFrom, Exec;
  }

  /** Whatever comes between the sweeps, each client was younger than the forced time-out, and had not been idle
      for the idle one, at the last of them. */
  lemma {:induction false} PassesKeepYoung(s: Setting, w: World, events: seq<Event>, last: int, g: int)
    requires Paced(events, last, g)
    ensures Young(s, w.clients, last) && ForceTime(s) > 0 ==>
            Young(s, Run(s, w, Steps(events)).clients, LastPass(events, last))
    ensures Active(s, w.clients, last) && IdleTime(s) > 0 ==>
            Active(s, Run(s, w, Steps(events)).clients, LastPass(events, last))
    decreases |events|
  {
    if events != [] {
      var step := events[0].step;
      assert Steps(events)[0] == step && Steps(events)[1..] == Steps(events[1..]);
      hide After, Young, Active;
      if step.Expire? {
        ExpireMakesYoung(s, w, step.clock, events[0].time);
        PassesKeepYoung(s, After(s, w, step), events[1..], events[0].time, g);
      } else {
        StepKeepsYoung(s, w, step, last);
        PassesKeepYoung(s, After(s, w, step), events[1..], last, g);
      }
    }
  }

  /** If sweeps start at most `g` seconds apart, then at no time until the next one is due
      is a client listed that was added the forced time-out and `g` seconds ago. */
  lemma NobodyOutstays(s: Setting, w: World, events: seq<Event>, start: int, g: int, u: int)
    requires w.clients == [] && Paced(events, start, g) && ForceTime(s) > 0
    requires u <= LastPass(events, start) + g
    ensures forall c :: c in Run(s, w, Steps(events)).clients ==> u < c.added + ForceTime(s) + g
  {
    PassesKeepYoung(s, w, events, start, g);
    var cs := Run(s, w, Steps(events)).clients;
    forall c | c in cs
      ensures u < c.added + ForceTime(s) + g
    {
      var i :| 0 <= i < |cs| && cs[i] == c;
    }
  }
}
