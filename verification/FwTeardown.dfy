/** iptables_fw_destroy undoes iptables_fw_init, whatever happened to the firewall in between. */
module FwTeardown {
  import opened Iptables
  import opened FwRules

  /** The rules found in the table show none of the program's chain names, and no such chain exists. */
  predicate Unrelated(t: Table) {
    && NoNds(t)
    && forall c, i, d :: c in t && 0 <= i < |t[c]| && d in NDS_CHAINS ==> !Mentions(t[c][i], ChainName(d))
  }

  const NDS_CHAINS := {NdsNet, NdsRtr, NdsTrt, NdsOut, NdsInc, NdsAut, NdsBlk, NdsAlw, NdsTru}

  predicate IsNds(c: Chain) {
    c in NDS_CHAINS
  }

  /** The mangle table while the program runs: its four chains hold anything, the rest is as it was
      but for the jumps in front of the two hooks. */
  predicate MangleStands(e: Env, t0: Table, t: Table)
    requires PreroutingHook in t0 && PostroutingHook in t0
  {
    && t.Keys == t0.Keys + {NdsTru, NdsBlk, NdsInc, NdsOut}
    && t[PreroutingHook] == Prerouting(e) + t0[PreroutingHook]
    && t[PostroutingHook] == Postrouting(e) + t0[PostroutingHook]
    && forall c :: c in t0 && c != PreroutingHook && c != PostroutingHook ==> t[c] == t0[c]
  }

  // ---------- Removing mentions ----------

  lemma {:induction false} WithoutMentionsConcat(a: seq<Rule>, b: seq<Rule>, word: string)
    ensures WithoutMentions(a + b, word) == WithoutMentions(a, word) + WithoutMentions(b, word)
    decreases |a|
  {
    hide Mentions;
    if a == [] {
      assert a + b == b;
    } else {
      assert (a + b)[0] == a[0] && (a + b)[1..] == a[1..] + b;
      WithoutMentionsConcat(a[1..], b, word);
    }
  }

  /** Filtering: exactly the rules that do not show the word stay. */
  lemma {:induction false} WithoutMentionsKeeps(a: seq<Rule>, word: string)
    ensures forall r :: r in WithoutMentions(a, word) <==> r in a && !Mentions(r, word)
  {
    hide Mentions;
    if a != [] {
      WithoutMentionsKeeps(a[1..], word);
      assert a == [a[0]] + a[1..];
    }
  }

  lemma JumpMentions(r: Rule, c: Chain)
    requires r.target == Jump(c)
    ensures Mentions(r, ChainName(c))
  {
    assert ChainName(c) <= ChainName(c);
  }

  /** A hook that starts with some of the program's jumps: clearing one name keeps the rules behind
      and leaves of the jumps those that do not show it. */
  lemma ClearedHook(t: Table, t0: Table, hook: Chain, jumps: seq<Rule>, named: Chain)
    requires Unrelated(t0) && IsNds(named) && hook in t0
    requires hook in t && t[hook] == jumps + t0[hook]
    ensures Cleared(t, hook, named) == t[hook := WithoutMentions(jumps, ChainName(named)) + t0[hook]]
  {
    WithoutMentionsConcat(jumps, t0[hook], ChainName(named));
    WithoutMentionsSame(t0[hook], ChainName(named));
  }

  lemma HeadIsIn(rules: seq<Rule>)
    requires rules != []
    ensures rules[0] in rules
  {
  }

  lemma ClearedPrerouting(e: Env, t0: Table, t: Table)
    requires Unrelated(t0) && PreroutingHook in t0 && PreroutingHook in t
    requires t[PreroutingHook] == Prerouting(e) + t0[PreroutingHook]
    ensures Cleared(Cleared(Cleared(Cleared(t, PreroutingHook, NdsTru), PreroutingHook, NdsBlk), PreroutingHook,
        NdsAlw),
                    PreroutingHook, NdsOut)
         == t[PreroutingHook := t0[PreroutingHook]]
  {
    hide Cleared, Mentions, WithoutMentions, ChainName, Unrelated;
    var j0 := Prerouting(e);
    var j1 := WithoutMentions(j0, ChainName(NdsTru));
    var j2 := WithoutMentions(j1, ChainName(NdsBlk));
    var j3 := WithoutMentions(j2, ChainName(NdsAlw));
    var j4 := WithoutMentions(j3, ChainName(NdsOut));
    var old0 := t0[PreroutingHook];
    ClearedHook(t, t0, PreroutingHook, j0, NdsTru);
    ClearedHook(t[PreroutingHook := j1 + old0], t0, PreroutingHook, j1, NdsBlk);
    assert t[PreroutingHook := j1 + old0][PreroutingHook := j2 + old0] == t[PreroutingHook := j2 + old0];
    ClearedHook(t[PreroutingHook := j2 + old0], t0, PreroutingHook, j2, NdsAlw);
    assert t[PreroutingHook := j2 + old0][PreroutingHook := j3 + old0] == t[PreroutingHook := j3 + old0];
    ClearedHook(t[PreroutingHook := j3 + old0], t0, PreroutingHook, j3, NdsOut);
    assert t[PreroutingHook := j3 + old0][PreroutingHook := j4 + old0] == t[PreroutingHook := j4 + old0];
    WithoutMentionsKeeps(j0, ChainName(NdsTru));
    WithoutMentionsKeeps(j1, ChainName(NdsBlk));
    WithoutMentionsKeeps(j2, ChainName(NdsAlw));
    WithoutMentionsKeeps(j3, ChainName(NdsOut));
    JumpMentions(e.Entry(NdsOut), NdsOut);
    JumpMentions(e.Entry(NdsBlk), NdsBlk);
    JumpMentions(e.Entry(NdsTru), NdsTru);
    assert forall r :: r in j0 ==> r !in j4;
    if j4 != [] {
      HeadIsIn(j4);
    }
    assert [] + old0 == old0;
  }

  /** One jump in front of a hook is gone once its name is cleared. */
  lemma ClearedOne(t0: Table, t: Table, hook: Chain, jump: Rule, named: Chain)
    requires Unrelated(t0) && IsNds(named) && jump.target == Jump(named)
    requires hook in t0 && hook in t && t[hook] == [jump] + t0[hook]
    ensures Cleared(t, hook, named) == t[hook := t0[hook]]
  {
    ClearedHook(t, t0, hook, [jump], named);
    JumpMentions(jump, named);
    hide Mentions, ChainName, Cleared;
    assert WithoutMentions([jump], ChainName(named)) == [];
    assert [] + t0[hook] == t0[hook];
  }

  // ---------- Flushing and deleting ----------

  /** The table as it was, plus the chains `extra`. */
  predicate Plus(t0: Table, t: Table, extra: set<Chain>) {
    && t.Keys == t0.Keys + extra && t0.Keys !! extra
    && forall c :: c in t0 ==> t[c] == t0[c]
  }

  lemma {:induction false} FlushAll(t0: Table, t: Table, extra: set<Chain>, chains: seq<Chain>)
    requires Plus(t0, t, extra) && forall i :: 0 <= i < |chains| ==> chains[i] !in t0
    ensures var t' := ExecAll(t, seq(|chains|, i requires 0 <= i < |chains| => FlushChain(chains[i])));
            && Plus(t0, t', extra)
            && forall c :: c in extra && (c in chains || t[c] == []) ==> t'[c] == []
    decreases |chains|
  {
    var cmds := seq(|chains|, i requires 0 <= i < |chains| => FlushChain(chains[i]));
    if chains != [] {
      var rest := chains[1..];
      assert cmds[1..] == seq(|rest|, i requires 0 <= i < |rest| => FlushChain(rest[i]));
      FlushAll(t0, Exec(t, cmds[0]).0, extra, rest);
      assert chains == [chains[0]] + rest;
    }
  }

  lemma NoJumps(t0: Table, t: Table, extra: set<Chain>, c: Chain)
    requires Unrelated(t0) && IsNds(c) && Plus(t0, t, extra) && forall x :: x in extra ==> t[x] == []
    ensures !JumpsTo(t, c)
  {
    forall d, i | d in t && 0 <= i < |t[d]|
      ensures t[d][i].target != Jump(c)
    {
      if t[d][i].target == Jump(c) {
        JumpMentions(t[d][i], c);
      }
    }
  }

  lemma {:induction false} DeleteAll(t0: Table, t: Table, extra: set<Chain>, chains: seq<Chain>)
    requires Unrelated(t0) && Plus(t0, t, extra) && forall x :: x in extra ==> t[x] == []
    requires forall i :: 0 <= i < |chains| ==> IsNds(chains[i]) && chains[i] !in t0
    ensures var t' := ExecAll(t, seq(|chains|, i requires 0 <= i < |chains| => DeleteChain(chains[i])));
            Plus(t0, t', extra - (set c | c in chains))
    decreases |chains|
  {
    var cmds := seq(|chains|, i requires 0 <= i < |chains| => DeleteChain(chains[i]));
    if chains != [] {
      var rest := chains[1..];
      assert cmds[1..] == seq(|rest|, i requires 0 <= i < |rest| => DeleteChain(rest[i]));
      NoJumps(t0, t, extra, chains[0]);
      hide Unrelated, IsNds;
      DeleteAll(t0, Exec(t, cmds[0]).0, extra - {chains[0]}, rest);
      assert extra - (set c | c in chains) == (extra - {chains[0]}) - (set c | c in rest);
    } else {
      assert extra - (set c | c in chains) == extra;
    }
  }

  lemma RemovedAll(t0: Table, t: Table, extra: set<Chain>, chains: seq<Chain>)
    requires Unrelated(t0) && Plus(t0, t, extra)
    requires forall i :: 0 <= i < |chains| ==> IsNds(chains[i]) && chains[i] !in t0
    requires forall c :: c in extra ==> c in chains
    ensures Removed(t, chains) == t0
  {
    hide Unrelated, IsNds, ExecAll;
    FlushAll(t0, t, extra, chains);
    var t1 := ExecAll(t, seq(|chains|, i requires 0 <= i < |chains| => FlushChain(chains[i])));
    DeleteAll(t0, t1, extra, chains);
    assert extra - (set c | c in chains) == {};
    assert Removed(t, chains).Keys == t0.Keys;
  }

  // ---------- The tables ----------

  lemma MangleDestroyed(e: Env, t0: Table, t: Table)
    requires PreroutingHook in t0 && PostroutingHook in t0 && Unrelated(t0) && MangleStands(e, t0, t)
    ensures DestroyedMangle(t) == t0
  {
    ClearedPrerouting(e, t0, t);
    var t1 := t[PreroutingHook := t0[PreroutingHook]];
    hide Unrelated, Removed, Cleared;
    ClearedOne(t0, t1, PostroutingHook, Postrouting(e)[0], NdsInc);
    var t2 := t1[PostroutingHook := t0[PostroutingHook]];
    MangleChains();
    RemovedAll(t0, t2, {NdsTru, NdsBlk, NdsInc, NdsOut}, [NdsTru, NdsBlk, NdsAlw, NdsOut, NdsInc]);
  }

  lemma MangleChains()
    ensures forall c :: c in {NdsTru, NdsBlk, NdsInc, NdsOut} ==> c in [NdsTru, NdsBlk, NdsAlw, NdsOut, NdsInc]
  {
    var chains := [NdsTru, NdsBlk, NdsAlw, NdsOut, NdsInc];
    assert chains[0] == NdsTru && chains[1] == NdsBlk && chains[3] == NdsOut && chains[4] == NdsInc;
  }

  lemma NatDestroyed(e: Env, t0: Table)
    requires PreroutingHook in t0 && Unrelated(t0)
    ensures DestroyedNat(NatTable(e, t0)) == t0
  {
    var t := NatTable(e, t0);
    hide NatChain;
    ClearedOne(t0, t, PreroutingHook, e.Entry(NdsOut), NdsOut);
    RemovedAll(t0, t[PreroutingHook := t0[PreroutingHook]], {NdsOut}, [NdsOut]);
  }

  lemma FilterDestroyed(e: Env, t0: Table)
    requires InputHook in t0 && ForwardHook in t0 && Unrelated(t0)
    ensures DestroyedFilter(FilterTable(e, t0)) == t0
  {
    var t := FilterTable(e, t0);
    var t1 := t[InputHook := t0[InputHook]];
    var t2 := t1[ForwardHook := t0[ForwardHook]];
    FilterHooks(e, t0);
    hide FilterTable, Unrelated, Removed, Cleared;
    ClearedOne(t0, t, InputHook, e.Entry(NdsRtr), NdsRtr);
    ClearedOne(t0, t1, ForwardHook, e.Entry(NdsNet), NdsNet);
    FiveChains();
    RemovedAll(t0, t2, {NdsNet, NdsRtr, NdsAut, NdsTru, NdsTrt}, [NdsRtr, NdsNet, NdsAut, NdsTru, NdsTrt]);
  }

  /** The hooks of the built filter table, and the table without the jumps. */
  lemma FilterHooks(e: Env, t0: Table)
    requires InputHook in t0 && ForwardHook in t0 && Unrelated(t0)
    ensures var t := FilterTable(e, t0);
      && InputHook in t && t[InputHook] == [e.Entry(NdsRtr)] + t0[InputHook]
      && ForwardHook in t && t[ForwardHook] == [e.Entry(NdsNet)] + t0[ForwardHook]
      && IsNds(NdsRtr) && IsNds(NdsNet)
      && Plus(t0, t[InputHook := t0[InputHook]][ForwardHook := t0[ForwardHook]],
              {NdsNet, NdsRtr, NdsAut, NdsTru, NdsTrt})
      && (forall c :: c in [NdsRtr, NdsNet, NdsAut, NdsTru, NdsTrt] ==> IsNds(c) && c !in t0)
  {
    hide RouterChain, InternetChain, ClassChain;
  }

  lemma FiveChains()
    ensures forall c :: c in {NdsNet, NdsRtr, NdsAut, NdsTru, NdsTrt} ==> c in [NdsRtr, NdsNet, NdsAut, NdsTru, NdsTrt]
    ensures forall c :: c in [NdsRtr, NdsNet, NdsAut, NdsTru, NdsTrt] ==> c in {NdsNet, NdsRtr, NdsAut, NdsTru, NdsTrt}
  {
    var chains := [NdsRtr, NdsNet, NdsAut, NdsTru, NdsTrt];
    assert chains[0] == NdsRtr && chains[1] == NdsNet && chains[2] == NdsAut && chains[3] == NdsTru;
    assert chains[4] == NdsTrt;
  }

  /** The kernel's tables while the program runs. */
  predicate Stands(e: Env, k0: Tables, k: Tables)
    requires Fresh(k0)
  {
    && MangleStands(e, k0.mangle, k.mangle)
    && k.xlate == NatTable(e, k0.xlate)
    && k.filter == FilterTable(e, k0.filter)
  }

  /** Teardown is the inverse of setup: from any state of the mangle chains, destroying the firewall
      gives back the very tables found at the start. */
  lemma Teardown(e: Env, k0: Tables, k: Tables)
    requires Fresh(k0) && Unrelated(k0.mangle) && Unrelated(k0.xlate) && Unrelated(k0.filter)
    requires Stands(e, k0, k)
    ensures Tables(DestroyedMangle(k.mangle), DestroyedNat(k.xlate), DestroyedFilter(k.filter)) == k0
  {
    MangleDestroyed(e, k0.mangle, k.mangle);
    NatDestroyed(e, k0.xlate);
    FilterDestroyed(e, k0.filter);
  }
}
