/** The running program: src/auth.c, src/firewall.c and the commands of src/ndsctl_thread.c as steps on
    the client list, the MAC lists and the firewall, each proved to be the step of the specification. */
module Gateway {
  import opened Options
  import opened Iptables
  import opened FwRules
  import opened GatewaySpec
  import GP = GatewayProofs
  import CS = ClientSpec
  import CL = ClientList
  import FW = Firewall

  /** What iptables_fw_counters_update reads: the listed rules with an address and a byte count. */
  type Listing = seq<Reading>

  class Gateway {
    const setting: Setting
    const list: CL.ClientList
    const fw: FW.Firewall
    var lists: MacLists
    /** authenticated_since_start */
    var authentications: nat

    constructor (setting: Setting, list: CL.ClientList, fw: FW.Firewall, lists: MacLists)
      ensures this.setting == setting && this.list == list && this.fw == fw && this.lists == lists && authentications
          == 0
    {
      this.setting, this.list, this.fw, this.lists, authentications := setting, list, fw, lists, 0;
    }

    /** The firewall was initialised from this configuration; the list is well formed. */
    ghost predicate Valid()
      reads this, fw, list, list.arr, list.Nodes
    {
      && list.Valid() && list.arr.Length == setting.maxclients
      && fw.marks == setting.e.cfg.marks && fw.orMark == setting.e.orMark && fw.masking == setting.e.masking
    }

    ghost function State(): World
      reads this, fw, list, list.Nodes
    {
      World(fw.kernel, list.Contents(), lists)
    }

    /** iptables_fw_access on a listed client. */
    method Access(authenticate: bool, c: CL.Client)
      requires Valid()
      modifies fw`kernel
      ensures Valid()
      ensures fw.kernel == old(fw.kernel).(mangle :=
                if authenticate then GrantTo(setting.e, old(fw.kernel.mangle), c.Record())
                else Revoke(setting.e, old(fw.kernel.mangle), c.ip, c.mac, c.idx))
    {
      var rc := fw.FwAccess(authenticate, c.ip, c.mac, c.idx);
      assert fw.EnvOf(setting.e.cfg) == setting.e;
    }

    /** auth_client_action with AUTH_MAKE_AUTHENTICATED */
    method MakeAuthenticated(ip: Ip, mac: Mac)
      requires Valid()
      modifies this`authentications, fw`kernel, list.Nodes
      ensures Valid() && list.Nodes == old(list.Nodes)
      ensures State() == After(setting, old(State()), Authenticate(ip, mac))
      ensures var cs, i := old(list.Contents()), CS.Find(old(list.Contents()), ip, mac);
              authentications == old(authentications) + if i < |cs| && cs[i].state.Preauthenticated? then 1 else 0
    {
      var c := list.Find(ip, mac);
      if c == null {
        return;
      }
      if c.state != CS.Authenticated {
        Admit(c, CS.Find(list.Contents(), ip, mac));
      }
    }

    /** A listed client becomes authenticated: its entry, its rules, the statistics. */
    method Admit(c: CL.Client, ghost i: nat)
      requires Valid() && i < |list.Nodes| && list.Nodes[i] == c
      modifies this`authentications, fw`kernel, c`state
      ensures Valid()
      ensures list.Contents() == old(list.Contents())[i := old(list.Contents())[i].(state := CS.Authenticated)]
      ensures fw.kernel == old(fw.kernel).(mangle := GrantTo(setting.e, old(fw.kernel.mangle), old(list.Contents())[i]))
      ensures authentications == old(authentications) + 1
    {
      SetState(c, i);
      Access(true, c);
      authentications := authentications + 1;
    }

    method SetState(c: CL.Client, ghost i: nat)
      requires Valid() && i < |list.Nodes| && list.Nodes[i] == c
      modifies c`state
      ensures Valid()
      ensures list.Contents() == old(list.Contents())[i := old(c.Record()).(state := CS.Authenticated)]
    {
      ghost var before := list.Contents();
      c.state := CS.Authenticated;
      assert list.Contents() == before[i := before[i].(state := CS.Authenticated)];
    }

    /** auth_client_action with AUTH_MAKE_DEAUTHENTICATED */
    method MakeDeauthenticated(ip: Ip, mac: Mac)
      requires Valid()
      modifies fw`kernel, list, list.arr, list.Nodes
      ensures Valid()
      ensures State() == After(setting, old(State()), Deauthenticate(ip, mac))
    {
      var c := list.Find(ip, mac);
      if c == null {
        return;
      }
      Remove(c, CS.Find(list.Contents(), ip, mac));
    }

    /** A client leaves: its rules go if it is authenticated, then its entry. */
    method Remove(c: CL.Client, ghost i: nat)
      requires Valid() && i < |list.Nodes| && list.Nodes[i] == c
      modifies fw`kernel, list, list.arr, list.Nodes
      ensures Valid()
      ensures list.Nodes == WithoutNode(old(list.Nodes), i)
      ensures list.Contents() == CS.RemoveAt(old(list.Contents()), i)
      ensures fw.kernel == old(fw.kernel).(mangle := RevokeFrom(setting.e, old(fw.kernel.mangle),
          old(list.Contents())[i]))
    {
      if c.state == CS.Authenticated {
        Access(false, c);
      }
      list.Delete(c);
    }

    static ghost function WithoutNode(nodes: seq<CL.Client>, i: nat): seq<CL.Client>
      requires i < |nodes|
    {
      nodes[..i] + nodes[i + 1..]
    }

    // ---------- Commands over the control socket ----------

    /** ndsctl_auth, http_nodogsplash_add_client: the first locked section. */
    method Connect(ip: Ip, arp: Option<Mac>, token: string, now: int) returns (c: CL.Client?)
      requires Valid()
      modifies list, list.arr, list.Nodes
      ensures Valid()
      ensures State() == After(setting, old(State()), AddClient(ip, arp, token, now))
      ensures c != null ==> c in list.Nodes && c.ip == ip && arp == Some(c.mac)
    {
      c := list.AddClient(ip, arp, token, now);
    }

    /** ndsctl_deauth: the argument is tried as an address first, then as a MAC. */
    method FindForDeauth(ip: Option<Ip>, mac: Mac) returns (c: CL.Client?)
      requires Valid()
      ensures var cs := list.Contents();
        var i, j := if ip.Some? then CS.FindByIp(cs, ip.value) else |cs|, CS.FindByMac(cs, mac);
        c == if i < |cs| then list.Nodes[i] else if j < |cs| then list.Nodes[j] else null
    {
      c := null;
      if ip.Some? {
        c := list.FindByIp(ip.value);
      }
      if c == null {
        c := list.FindByMac(mac);
      }
    }

    /** ndsctl_trust; the argument is None when it is not a MAC address. */
    method TrustCommand(arg: Option<Mac>) returns (yes: bool)
      requires Valid()
      modifies this`lists, fw`kernel
      ensures Valid() && State() == After(setting, old(State()), Trust(arg))
      ensures yes <==>
              && arg.Some? && arg.value !in old(lists.trusted)
              && Exec(old(fw.kernel.mangle), AppendRule(NdsTru, TrustRule(setting.e, arg.value))).1 == 0
    {
      if arg.None? || arg.value in lists.trusted {
        return false;
      }
      lists := lists.(trusted := [arg.value] + lists.trusted);
      var rc := fw.TrustMac(arg.value);
      return rc == 0;
    }

    method UntrustCommand(arg: Option<Mac>) returns (yes: bool)
      requires Valid()
      modifies this`lists, fw`kernel
      ensures Valid() && State() == After(setting, old(State()), Untrust(arg))
      ensures yes <==>
              && arg.Some? && arg.value in old(lists.trusted)
              && Exec(old(fw.kernel.mangle), DeleteRule(NdsTru, TrustRule(setting.e, arg.value))).1 == 0
    {
      if arg.None? || arg.value !in lists.trusted {
        return false;
      }
      var shorter := Without(lists.trusted, arg.value);
      lists := lists.(trusted := shorter);
      var rc := fw.UntrustMac(arg.value);
      return rc == 0;
    }

    method BlockCommand(arg: Option<Mac>) returns (yes: bool)
      requires Valid()
      modifies this`lists, fw`kernel
      ensures Valid() && State() == After(setting, old(State()), Block(arg))
      ensures yes <==>
              && arg.Some? && setting.e.cfg.mechanism == MacBlock && arg.value !in old(lists.blocked)
              && Exec(old(fw.kernel.mangle), AppendRule(NdsBlk, BlockRule(setting.e, arg.value))).1 == 0
    {
      if arg.None? || setting.e.cfg.mechanism != MacBlock || arg.value in lists.blocked {
        return false;
      }
      lists := lists.(blocked := [arg.value] + lists.blocked);
      var rc := fw.BlockMac(arg.value);
      return rc == 0;
    }

    method UnblockCommand(arg: Option<Mac>) returns (yes: bool)
      requires Valid()
      modifies this`lists, fw`kernel
      ensures Valid() && State() == After(setting, old(State()), Unblock(arg))
      ensures yes <==>
              && arg.Some? && setting.e.cfg.mechanism == MacBlock && arg.value in old(lists.blocked)
              && Exec(old(fw.kernel.mangle), DeleteRule(NdsBlk, BlockRule(setting.e, arg.value))).1 == 0
    {
      if arg.None? || setting.e.cfg.mechanism != MacBlock || arg.value !in lists.blocked {
        return false;
      }
      var shorter := Without(lists.blocked, arg.value);
      lists := lists.(blocked := shorter);
      var rc := fw.UnblockMac(arg.value);
      return rc == 0;
    }

    method AllowCommand(arg: Option<Mac>) returns (yes: bool)
      requires Valid()
      modifies this`lists, fw`kernel
      ensures Valid() && State() == After(setting, old(State()), Allow(arg))
      ensures yes <==>
              && arg.Some? && setting.e.cfg.mechanism == MacAllow && arg.value !in old(lists.allowed)
              && Exec(old(fw.kernel.mangle), InsertRule(NdsBlk, 1, MacRule(arg.value, Return))).1 == 0
    {
      if arg.None? || setting.e.cfg.mechanism != MacAllow || arg.value in lists.allowed {
        return false;
      }
      lists := lists.(allowed := [arg.value] + lists.allowed);
      var rc := fw.AllowMac(arg.value);
      return rc == 0;
    }

    method UnallowCommand(arg: Option<Mac>) returns (yes: bool)
      requires Valid()
      modifies this`lists, fw`kernel
      ensures Valid() && State() == After(setting, old(State()), Unallow(arg))
      ensures yes <==>
              && arg.Some? && setting.e.cfg.mechanism == MacAllow && arg.value in old(lists.allowed)
              && Exec(old(fw.kernel.mangle), DeleteRule(NdsBlk, MacRule(arg.value, Return))).1 == 0
    {
      if arg.None? || setting.e.cfg.mechanism != MacAllow || arg.value !in lists.allowed {
        return false;
      }
      var shorter := Without(lists.allowed, arg.value);
      lists := lists.(allowed := shorter);
      var rc := fw.UnallowMac(arg.value);
      return rc == 0;
    }

    /** The loop of the remove_from_..._mac_list functions: unlinks the first entry found. */
    method Without(macs: seq<Mac>, mac: Mac) returns (r: seq<Mac>)
      ensures r == RemoveMac(macs, mac)
    {
      var i := 0;
      while i < |macs|
        invariant 0 <= i <= |macs| && mac !in macs[..i]
      {
        if macs[i] == mac {
          RemoveMacAt(macs, mac, i);
          return macs[..i] + macs[i + 1..];
        }
        assert macs[..i + 1] == macs[..i] + [macs[i]];
        i := i + 1;
      }
      RemoveMacAt(macs, mac, i);
      return macs;
    }

    static lemma {:induction false} RemoveMacAt(macs: seq<Mac>, mac: Mac, i: nat)
      requires i <= |macs| && mac !in macs[..i] && (i < |macs| ==> macs[i] == mac)
      ensures RemoveMac(macs, mac) == if i < |macs| then macs[..i] + macs[i + 1..] else macs
      decreases |macs|
    {
      if i > 0 {
        AroundMac(macs, i);
        RemoveMacAt(macs[1..], mac, i - 1);
      } else if macs != [] {
        assert macs[..0] + macs[1..] == macs[1..];
      }
    }

    static lemma AroundMac(macs: seq<Mac>, i: nat)
      requires 0 < i <= |macs|
      ensures macs == [macs[0]] + macs[1..] && macs[..i] == [macs[0]] + macs[1..][..i - 1] && macs[0] in macs[..i]
      ensures i < |macs| ==>
        macs[..i] + macs[i + 1..] == [macs[0]] + (macs[1..][..i - 1] + macs[1..][i..]) && macs[1..][i - 1] == macs[i]
    {
    }

    // ---------- The refresh pass ----------

    /** One line of the outgoing listing in iptables_fw_counters_update, under its own lock. */
    method CountOutOne(r: Reading, now: int)
      requires Valid()
      modifies list.Nodes
      ensures Valid() && list.Nodes == old(list.Nodes)
      ensures State() == After(setting, old(State()), GatewaySpec.CountOut(r, now))
    {
      var c := list.FindByIp(r.ip);
      if c != null && c.outgoing < r.bytes {
        SetOutgoing(c, CS.FindByIp(list.Contents(), r.ip), r.bytes, now);
      }
    }

    method SetOutgoing(c: CL.Client, ghost i: nat, bytes: nat, now: int)
      requires Valid() && i < |list.Nodes| && list.Nodes[i] == c
      modifies c`outgoing, c`updated
      ensures Valid()
      ensures list.Contents() == old(list.Contents())[i := old(list.Contents())[i].(outgoing := bytes, updated := now)]
    {
      ghost var before := list.Contents();
      c.outgoing := bytes;
      c.updated := now;
      assert list.Contents() == before[i := before[i].(outgoing := bytes, updated := now)];
    }

    /** The loop over the outgoing listing; the clock is read for each line. */
    method CountOut(readings: Listing, times: nat -> int)
      requires Valid()
      modifies list.Nodes
      ensures Valid() && list.Nodes == old(list.Nodes)
      ensures State() == Run(setting, old(State()), OutSteps(readings, times))
    {
      ghost var steps := OutSteps(readings, times);
      ghost var all := Run(setting, State(), steps);
      assert steps[0..] == steps;
      for k := 0 to |readings|
        invariant Valid() && list.Nodes == old(list.Nodes)
        invariant Run(setting, State(), steps[k..]) == all
      {
        assert steps[k..][0] == GatewaySpec.CountOut(readings[k], times(k)) && steps[k..][1..] == steps[k + 1..];
        hide Valid, After;
        CountOutOne(readings[k], times(k));
      }
    }

    /** One line of the incoming listing in iptables_fw_counters_update, under its own lock. */
    method CountInOne(r: Reading)
      requires Valid()
      modifies list.Nodes
      ensures Valid() && list.Nodes == old(list.Nodes)
      ensures State() == After(setting, old(State()), GatewaySpec.CountIn(r))
    {
      var c := list.FindByIp(r.ip);
      if c != null && c.incoming < r.bytes {
        SetIncoming(c, CS.FindByIp(list.Contents(), r.ip), r.bytes);
      }
    }

    method SetIncoming(c: CL.Client, ghost i: nat, bytes: nat)
      requires Valid() && i < |list.Nodes| && list.Nodes[i] == c
      modifies c`incoming
      ensures Valid()
      ensures list.Contents() == old(list.Contents())[i := old(list.Contents())[i].(incoming := bytes)]
    {
      ghost var before := list.Contents();
      c.incoming := bytes;
      assert list.Contents() == before[i := before[i].(incoming := bytes)];
    }

    /** The loop over the incoming listing. */
    method CountIn(readings: Listing)
      requires Valid()
      modifies list.Nodes
      ensures Valid() && list.Nodes == old(list.Nodes)
      ensures State() == Run(setting, old(State()), InSteps(readings))
    {
      ghost var steps := InSteps(readings);
      ghost var all := Run(setting, State(), steps);
      assert steps[0..] == steps;
      for k := 0 to |readings|
        invariant Valid() && list.Nodes == old(list.Nodes)
        invariant Run(setting, State(), steps[k..]) == all
      {
        assert steps[k..][0] == GatewaySpec.CountIn(readings[k]) && steps[k..][1..] == steps[k + 1..];
        hide Valid, After;
        CountInOne(readings[k]);
      }
    }

    /** fw_refresh_client_list after the counters have been read.  The walk saves the successor of each
        client before it visits it, looks the client up again, and may delete it; `clock(k)` is the time
        read at the k-th visit.  No two clients share an address pair, so the look-up finds the client
        itself, and the saved successor is still on the list. */
    method SweepList(clock: nat -> int)
      requires Valid() && CS.Sound(list.Contents(), setting.maxclients)
      modifies fw`kernel, list, list.arr, list.Nodes
      ensures Valid()
      ensures State() == After(setting, old(State()), Expire(clock))
    {
      ghost var whole := Sweep(setting, fw.kernel.mangle, [], list.Contents(), clock, 0);
      ghost var i := 0;
      var k := 0;
      var c := list.first;
      assert list.Contents()[..0] == [] && list.Contents()[0..] == list.Contents();
      ghost var w := State();
      SweptIs(w, clock);
      hide Sweep, CS.Sound, After;
      while c != null
        invariant Valid() && CS.Sound(list.Contents(), setting.maxclients)
        invariant 0 <= i <= |list.Nodes| && c == (if i < |list.Nodes| then list.Nodes[i] else null)
        invariant Sweep(setting, fw.kernel.mangle, list.Contents()[..i], list.Contents()[i..], clock, k) == whole
        invariant fw.kernel == old(fw.kernel).(mangle := fw.kernel.mangle)
        invariant forall n :: n in list.Nodes ==> n in old(list.Nodes)
        decreases |list.Nodes| - i
      {
        c, i := Visit(c, i, clock(k), clock, k);
        k := k + 1;
      }
      assert list.Contents()[..i] == list.Contents() && list.Contents()[i..] == [];
      SweepEnds(fw.kernel.mangle, list.Contents(), clock, k);
    }

    lemma SweptIs(w: World, clock: nat -> int)
      ensures var (t, kept) := Sweep(setting, w.kernel.mangle, [], w.clients, clock, 0);
              After(setting, w, Expire(clock)) == w.(clients := kept, kernel := w.kernel.(mangle := t))
    {
    }

    lemma SweepEnds(t: Table, kept: seq<CS.Client>, clock: nat -> int, k: nat)
      ensures Sweep(setting, t, kept, [], clock, k) == (t, kept)
    {
    }

    /** One visit: the next client to visit, and its position. */
    method Visit(c: CL.Client, ghost i: nat, now: int, ghost clock: nat -> int, ghost k: nat)
        returns (next: CL.Client?, ghost j: nat)
      requires Valid() && CS.Sound(list.Contents(), setting.maxclients)
      requires i < |list.Nodes| && list.Nodes[i] == c && now == clock(k)
      modifies fw`kernel, list, list.arr, list.Nodes
      ensures Valid() && CS.Sound(list.Contents(), setting.maxclients)
      ensures j <= |list.Nodes| && next == (if j < |list.Nodes| then list.Nodes[j] else null)
      ensures |list.Nodes| - j < old(|list.Nodes|) - i
      ensures forall n :: n in list.Nodes ==> n in old(list.Nodes)
      ensures fw.kernel == old(fw.kernel).(mangle := fw.kernel.mangle)
      ensures Sweep(setting, fw.kernel.mangle, list.Contents()[..j], list.Contents()[j..], clock, k + 1)
           == Sweep(setting, old(fw.kernel.mangle), old(list.Contents())[..i], old(list.Contents())[i..], clock, k)
    {
      ghost var cs := list.Contents();
      next := c.next;
      assert cs[i] == c.Record();
      FoundItself(cs, i);
      SweepUnfolds(setting, fw.kernel.mangle, cs, i, clock, k);
      hide CS.Sound, Sweep, CS.RemoveAt;
      var again := list.Find(c.ip, c.mac);
      j := i + 1;
      if again != null {
        if Expired(setting, again.Record(), now) {
          CS.RemoveKeepsSound(cs, setting.maxclients, i);
          Remove(again, i);
          j := i;
        }
      }
    }

    /** One visit of the specified pass, in terms of the list that remains. */
    static lemma SweepUnfolds(s: Setting, t: Table, cs: seq<CS.Client>, i: nat, clock: nat -> int, k: nat)
      requires i < |cs|
      ensures |CS.RemoveAt(cs, i)| == |cs| - 1
      ensures Sweep(s, t, cs[..i], cs[i..], clock, k)
           == if Expired(s, cs[i], clock(k))
              then Sweep(s, RevokeFrom(s.e, t, cs[i]), CS.RemoveAt(cs, i)[..i], CS.RemoveAt(cs, i)[i..], clock, k + 1)
              else Sweep(s, t, cs[..i + 1], cs[i + 1..], clock, k + 1)
    {
      hide Expired, RevokeFrom;
      assert cs[i..][0] == cs[i] && cs[i..][1..] == cs[i + 1..] && cs[..i] + [cs[i]] == cs[..i + 1];
      assert CS.RemoveAt(cs, i)[..i] == cs[..i] && CS.RemoveAt(cs, i)[i..] == cs[i + 1..];
    }

    lemma FoundItself(cs: seq<CS.Client>, i: nat)
      requires CS.Sound(cs, setting.maxclients) && i < |cs|
      ensures CS.Find(cs, cs[i].ip, cs[i].mac) == i
    {
    }

    /** fw_refresh_client_list, when no other locked section comes between its own. */
    method RefreshClients(outgoing: Listing, times: nat -> int, incoming: Listing, clock: nat -> int)
      requires Valid() && CS.Sound(list.Contents(), setting.maxclients)
      modifies fw`kernel, list, list.arr, list.Nodes
      ensures Valid()
      ensures State() == Run(setting, old(State()), PassSteps(outgoing, times, incoming, clock))
    {
      hide Run, After, Valid;
      ghost var w := State();
      CountOut(outgoing, times);
      RunKeepsSound(w, OutSteps(outgoing, times));
      GP.RunConcat(setting, w, OutSteps(outgoing, times), InSteps(incoming) + [Expire(clock)]);
      w := State();
      CountIn(incoming);
      RunKeepsSound(w, InSteps(incoming));
      GP.RunConcat(setting, w, InSteps(incoming), [Expire(clock)]);
      GP.RunOne(setting, State(), Expire(clock));
      SweepList(clock);
    }

    /** Counting keeps the list sound. */
    lemma {:induction false} RunKeepsSound(w: World, steps: seq<Step>)
      requires CS.Sound(w.clients, setting.maxclients)
      requires forall k :: 0 <= k < |steps| ==> steps[k].CountOut? || steps[k].CountIn?
      ensures CS.Sound(Run(setting, w, steps).clients, setting.maxclients)
      decreases |steps|
    {
      if steps != [] {
        CountKeepsSound(w, steps[0]);
        hide CS.Sound, After;
        RunKeepsSound(After(setting, w, steps[0]), steps[1..]);
      }
    }

    lemma CountKeepsSound(w: World, step: Step)
      requires CS.Sound(w.clients, setting.maxclients) && (step.CountOut? || step.CountIn?)
      ensures CS.Sound(After(setting, w, step).clients, setting.maxclients)
    {
      hide CS.Sound;
      var i := CS.FindByIp(w.clients, step.line.ip);
      if i < |w.clients| {
        GP.SoundReplaced(w.clients, setting.maxclients, i, w.clients[i].(outgoing := step.line.bytes,
          updated := if step.CountOut? then step.now else 0));
        GP.SoundReplaced(w.clients, setting.maxclients, i, w.clients[i].(incoming := step.line.bytes));
      }
    }
  }
}
