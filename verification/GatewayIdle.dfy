/** How long a client can stay listed without being heard of. */
module GatewayIdle {
  import opened Options
  import opened Iptables
  import opened FwRules
  import opened GatewaySpec
  import opened GatewayTheorems
  import opened GatewaySteps
  import CS = ClientSpec

  // ---------- When a client was last heard of ----------

  /** The outgoing counter of the client of an address pair. */
  function OutgoingOf(cs: seq<CS.Client>, ip: Ip, mac: Mac): (n: Option<nat>) {
    var i := CS.Find(cs, ip, mac);
    if i < |cs| then Some(cs[i].outgoing) else None
  }

  /** Between two lists the client has arrived, or its outgoing counter has grown. */
  predicate Heard(cs: seq<CS.Client>, cs': seq<CS.Client>, ip: Ip, mac: Mac) {
    var was, n := OutgoingOf(cs, ip, mac), OutgoingOf(cs', ip, mac);
    n.Some? && (was.None? || was.value < n.value)
  }

  /** The time of the last event of a run that the client was heard in; `t` before it. */
  function LastHeard(s: Setting, w: World, events: seq<Event>, ip: Ip, mac: Mac, t: int): (time: int)
    decreases |events|
  {
    if events == [] then t
    else
      var w' := After(s, w, events[0].step);
      LastHeard(s, w', events[1..], ip, mac, if Heard(w.clients, w'.clients, ip, mac) then events[0].time else t)
  }

  // ---------- Where the clients of a list come from ----------

  /** `c` is `b` a step later, at time `now`: not heard in it, or with a higher counter and the time renewed. */
  predicate Later(b: CS.Client, c: CS.Client, now: int) {
    && b.ip == c.ip && b.mac == c.mac
    && (if b.outgoing < c.outgoing then c.updated == now else c.outgoing == b.outgoing && c.updated == b.updated)
  }

  /** Every client of the second list is one of the first a step later, or has arrived in the step. */
  predicate Follows(cs: seq<CS.Client>, cs': seq<CS.Client>, now: int) {
    forall c :: c in cs' ==>
      (exists b :: b in cs && Later(b, c, now)) || (!Present(cs, c.ip, c.mac) && c.updated == now)
  }

  lemma SubsetFollows(cs: seq<CS.Client>, cs': seq<CS.Client>, now: int)
    requires forall c :: c in cs' ==> c in cs
    ensures Follows(cs, cs', now)
  {
    forall c | c in cs' ensures exists b :: b in cs && Later(b, c, now) {
      assert c in cs && Later(c, c, now);
    }
  }

  lemma PointwiseFollows(cs: seq<CS.Client>, cs': seq<CS.Client>, now: int)
    requires |cs| == |cs'| && forall i :: 0 <= i < |cs| ==> Later(cs[i], cs'[i], now)
    ensures Follows(cs, cs', now)
  {
    forall c | c in cs' ensures exists b :: b in cs && Later(b, c, now) {
      var i :| 0 <= i < |cs'| && cs'[i] == c;
      assert cs[i] in cs && Later(cs[i], c, now);
    }
  }

  lemma AddFollows(cs: seq<CS.Client>, max: nat, ip: Ip, arp: Option<Mac>, token: string, now: int)
    ensures Follows(cs, CS.Add(cs, max, ip, arp, token, now), now)
  {
    var cs' := CS.Add(cs, max, ip, arp, token, now);
    SubsetFollows(cs, cs, now);
    if cs' != cs {
      Arrives(cs, max, ip, arp.value, token, now);
      hide CS.Add;
      assert cs'[..|cs|] == cs;
      forall c | c in cs'
        ensures (exists b :: b in cs && Later(b, c, now)) || (!Present(cs, c.ip, c.mac) && c.updated == now)
      {
        if c in cs {
          assert Later(c, c, now);
        } else {
          assert cs' == cs'[..|cs|] + [cs'[|cs|]];
        }
      }
    }
  }

  lemma CountFollows(cs: seq<CS.Client>, line: Reading, now: int)
    ensures Follows(cs, CountOutgoing(cs, line, now), now) && Follows(cs, CountIncoming(cs, line), now)
  {
    LinesCount(cs, line, now);
    hide CountOutgoing, CountIncoming, FirstOf;
    PointwiseFollows(cs, CountOutgoing(cs, line, now), now);
    PointwiseFollows(cs, CountIncoming(cs, line), now);
  }

  lemma AuthenticateFollows(s: Setting, w: World, ip: Ip, mac: Mac, now: int)
    ensures Follows(w.clients, Authenticated(s.e, w, ip, mac).clients, now)
    ensures Follows(w.clients, Deauthenticated(s.e, w, ip, mac).clients, now)
  {
    hide GrantTo, RevokeFrom, Follows;
    PointwiseFollows(w.clients, Authenticated(s.e, w, ip, mac).clients, now);
    SubsetFollows(w.clients, Deauthenticated(s.e, w, ip, mac).clients, now);
  }

  lemma SweepFollows(s: Setting, w: World, clock: nat -> int, now: int)
    ensures Follows(w.clients, Swept(s, w, clock).clients, now)
  {
    var cs, cs' := w.clients, Swept(s, w, clock).clients;
    SweepIsFilter(s, w.kernel.mangle, [], cs, clock, 0);
    assert [] + Survivors(s, cs, clock, 0) == Survivors(s, cs, clock, 0);
    hide Sweep, Follows;
    forall c | c in cs' ensures c in cs {
      SurvivorsAre(s, cs, clock, 0, c);
    }
    SubsetFollows(cs, cs', now);
  }

  lemma StepFollows(s: Setting, w: World, step: Step, now: int)
    requires step.AddClient? || step.CountOut? ==> step.now == now
    ensures Follows(w.clients, After(s, w, step).clients, now)
  {
    if step.AddClient? || step.CountOut? || step.CountIn? {
      ListFollows(s, w, step, now);
    } else if step.Authenticate? || step.Deauthenticate? || step.Expire? {
      LoginFollows(s, w, step, now);
    } else {
      ListsOnly(s, w, step);
      SubsetFollows(w.clients, w.clients, now);
    }
    hide After, Follows;
  }

  lemma ListFollows(s: Setting, w: World, step: Step, now: int)
    requires step.AddClient? || step.CountOut? || step.CountIn?
    requires step.AddClient? || step.CountOut? ==> step.now == now
    ensures Follows(w.clients, After(s, w, step).clients, now)
  {
    hide CS.Add, CountOutgoing, CountIncoming, Follows;
    match step
    case AddClient(ip, arp, token, time) => AddFollows(w.clients, s.maxclients, ip, arp, token, time);
    case CountOut(line, time) => CountFollows(w.clients, line, time);
    case CountIn(line) => CountFollows(w.clients, line, now);
  }

  lemma LoginFollows(s: Setting, w: World, step: Step, now: int)
    requires step.Authenticate? || step.Deauthenticate? || step.Expire?
    ensures Follows(w.clients, After(s, w, step).clients, now)
  {
    hide Authenticated, Deauthenticated, Swept, Follows;
    match step
    case Authenticate(ip, mac) => AuthenticateFollows(s, w, ip, mac, now);
    case Deauthenticate(ip, mac) => AuthenticateFollows(s, w, ip, mac, now);
    case Expire(clock) => SweepFollows(s, w, clock, now);
  }

  /** The MAC steps leave the clients alone. */
  lemma ListsOnly(s: Setting, w: World, step: Step)
    requires step.Trust? || step.Untrust? || step.Block? || step.Unblock? || step.Allow? || step.Unallow?
    ensures After(s, w, step).clients == w.clients
  {
    hide Exec, TrustRule, BlockRule, MacRule, RemoveMac;
  }

  // ---------- The time of last activity ----------

  /** The time kept for the client of this pair, if it is listed, is `t`. */
  predicate KeptTime(cs: seq<CS.Client>, ip: Ip, mac: Mac, t: int) {
    forall i :: 0 <= i < |cs| && cs[i].ip == ip && cs[i].mac == mac ==> cs[i].updated == t
  }

  lemma FollowKeeps(cs: seq<CS.Client>, cs': seq<CS.Client>, max: nat, ip: Ip, mac: Mac, t: int, now: int)
    requires CS.Sound(cs, max) && CS.Sound(cs', max) && Follows(cs, cs', now) && KeptTime(cs, ip, mac, t)
    ensures KeptTime(cs', ip, mac, if Heard(cs, cs', ip, mac) then now else t)
  {
    var time := if Heard(cs, cs', ip, mac) then now else t;
    forall i | 0 <= i < |cs'| && cs'[i].ip == ip && cs'[i].mac == mac
      ensures cs'[i].updated == time
    {
      var c := cs'[i];
      FoundOnce(cs', max, i);
      assert c in cs';
      PresentIs(cs, ip, mac);
      if b :| b in cs && Later(b, c, now) {
        var j :| 0 <= j < |cs| && cs[j] == b;
        FoundOnce(cs, max, j);
      }
    }
  }

  /** The time kept for a client is that of its arrival or of the last growth of its outgoing counter. */
  lemma {:induction false} UpdatedIsHeard(s: Setting, k0: Tables, w: World, events: seq<Event>, last: int, g: int,
      ip: Ip, mac: Mac, t: int)
    requires Fresh(k0) && Good(s, k0, w) && Paced(events, last, g) && KeptTime(w.clients, ip, mac, t)
    ensures KeptTime(Run(s, w, Steps(events)).clients, ip, mac, LastHeard(s, w, events, ip, mac, t))
    decreases |events|
  {
    if events != [] {
      var step, now := events[0].step, events[0].time;
      var w' := After(s, w, step);
      assert Steps(events)[0] == step && Steps(events)[1..] == Steps(events[1..]);
      StepGood(s, k0, w, step);
      GoodClients(s, k0, w);
      GoodClients(s, k0, w');
      StepFollows(s, w, step, now);
      hide After, Good, CS.Sound, KeptTime, Follows, Heard;
      FollowKeeps(w.clients, w'.clients, s.maxclients, ip, mac, t, now);
      UpdatedIsHeard(s, k0, w', events[1..], if step.Expire? then now else last, g, ip, mac,
        if Heard(w.clients, w'.clients, ip, mac) then now else t);
    }
  }

  /** Main result: if sweeps start at most `g` seconds apart, then at no time until the next one is due is a
      client listed that was last heard of the idle time-out and `g` seconds ago: neither has it arrived nor
      has its outgoing counter grown since. */
  lemma NobodyIdles(s: Setting, k0: Tables, w: World, events: seq<Event>, start: int, g: int, u: int)
    requires Fresh(k0) && Good(s, k0, w)
    requires w.clients == [] && Paced(events, start, g) && IdleTime(s) > 0
    requires u <= LastPass(events, start) + g
    ensures forall c :: c in Run(s, w, Steps(events)).clients ==>
              u < LastHeard(s, w, events, c.ip, c.mac, start) + IdleTime(s) + g
  {
    PassesKeepYoung(s, w, events, start, g);
    var cs := Run(s, w, Steps(events)).clients;
    forall c | c in cs
      ensures u < LastHeard(s, w, events, c.ip, c.mac, start) + IdleTime(s) + g
    {
      UpdatedIsHeard(s, k0, w, events, start, g, c.ip, c.mac, start);
      var i :| 0 <= i < |cs| && cs[i] == c;
    }
  }
}
