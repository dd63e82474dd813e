/** How packets from the gateway are marked: the mangle table. */
module FwClasses {
  import opened Bits
  import opened Iptables
  import opened FwRules
  import opened FwMeaning

  /** What `-j MARK <markop> v` makes of a mark. */
  function Stamp(e: Env, mark: nat, v: nat): nat {
    if e.orMark then Or(mark, v) else v
  }

  function StampIf(e: Env, c: bool, mark: nat, v: nat): nat {
    if c then Stamp(e, mark, v) else mark
  }

  // ---------- Chains whose rules mark ----------

  /** No rule looks at the mark, so marking on the way changes nothing about later matches. */
  predicate MarkBlind(r: Rule) {
    forall m :: m in r.matches ==> !m.Mark?
  }

  lemma BlindMatches(r: Rule, p: Packet, mark: nat)
    requires MarkBlind(r)
    ensures Matches(r, p.(mark := mark)) <==> Matches(r, p)
  {
    var q := p.(mark := mark);
    assert forall m :: m in r.matches ==> (Satisfies(m, q) <==> Satisfies(m, p));
  }

  lemma StampAgain(e: Env, mark: nat, v: nat)
    ensures Stamp(e, Stamp(e, mark, v), v) == Stamp(e, mark, v)
  {
    OrAssociates(mark, v, v);
    OrSelf(v);
  }

  lemma OrSelf(v: nat)
    ensures Or(v, v) == v
  {
  }

  /** A chain whose matching rules all set the same mark: it marks if any rule matches. */
  lemma {:induction false} StampWalk(t: Table, e: Env, rules: seq<Rule>, v: nat, p: Packet, depth: nat)
    requires forall i :: 0 <= i < |rules| ==>
      MarkBlind(rules[i]) && (Matches(rules[i], p) ==> rules[i].target == e.Marker(v))
    ensures Walk(t, rules, p, depth)
         == Passed(p.(mark := StampIf(e, exists r :: r in rules && Matches(r, p), p.mark, v)))
    decreases |rules|
  {
    if rules != [] {
      var q := if Matches(rules[0], p) then p.(mark := Stamp(e, p.mark, v)) else p;
      forall r | MarkBlind(r)
        ensures Matches(r, q) <==> Matches(r, p)
      {
        BlindMatches(r, p, q.mark);
      }
      WalkHead(t, rules[0], rules[1..], p, depth);
      assert rules == [rules[0]] + rules[1..];
      StampWalk(t, e, rules[1..], v, q, depth);
      StampAgain(e, p.mark, v);
      assert (exists r :: r in rules && Matches(r, p)) <==>
             Matches(rules[0], p) || exists r :: r in rules[1..] && Matches(r, q);
    }
  }

  /** A chain of RETURN rules: leaves as soon as one matches. */
  lemma {:induction false} ReturnWalk(t: Table, rules: seq<Rule>, p: Packet, depth: nat)
    requires forall i :: 0 <= i < |rules| ==> rules[i].target.Return?
    ensures Walk(t, rules, p, depth) == if exists r :: r in rules && Matches(r, p) then Returned(p) else Passed(p)
    decreases |rules|
  {
    if rules != [] {
      WalkHead(t, rules[0], rules[1..], p, depth);
      assert rules == [rules[0]] + rules[1..];
      ReturnWalk(t, rules[1..], p, depth);
    }
  }

  // ---------- The three chains of PREROUTING ----------

  /** The chain holds exactly one rule for each address of the list, in some order. */
  predicate HoldsMacs(chain: seq<Rule>, macs: seq<Mac>, target: Target) {
    multiset(chain) == multiset(MacRules(macs, target))
  }

  lemma HoldsMacsMeans(chain: seq<Rule>, macs: seq<Mac>, target: Target, p: Packet)
    requires HoldsMacs(chain, macs, target)
    ensures forall i :: 0 <= i < |chain| ==> chain[i].target == target && MarkBlind(chain[i])
    ensures (exists r :: r in chain && Matches(r, p)) <==> p.mac in macs
  {
    var rules := MacRules(macs, target);
    assert forall r :: r in chain <==> r in multiset(chain);
    assert forall r :: r in rules <==> r in multiset(rules);
    forall r | r in rules
      ensures r.target == target && MarkBlind(r) && exists mac :: mac in macs && r == MacRule(mac, target)
    {
      var i :| 0 <= i < |rules| && rules[i] == r;
      assert macs[i] in macs && r == MacRule(macs[i], target);
    }
    forall i | 0 <= i < |chain|
      ensures chain[i].target == target && MarkBlind(chain[i])
    {
      assert chain[i] in multiset(chain);
    }
    if p.mac in macs {
      var i :| 0 <= i < |macs| && macs[i] == p.mac;
      assert rules[i] in rules && rules[i] in chain;
      MatchesOne(MacSource(p.mac), p);
      assert Matches(MacRule(p.mac, target), p);
    }
    forall r | r in chain && Matches(r, p)
      ensures p.mac in macs
    {
      assert r in rules;
      var mac :| mac in macs && r == MacRule(mac, target);
      MatchesOne(MacSource(mac), p);
    }
  }

  /** The blocked chain in its two forms. */
  predicate HoldsBlocked(e: Env, chain: seq<Rule>, lists: MacLists) {
    match e.cfg.mechanism
    case MacBlock => HoldsMacs(chain, lists.blocked, e.Marker(e.cfg.marks.blocked))
    case MacAllow =>
      && |chain| > 0 && chain[|chain| - 1] == Rule([], e.Marker(e.cfg.marks.blocked))
      && HoldsMacs(chain[..|chain| - 1], lists.allowed, Return)
  }

  /** Which addresses the configuration blocks. */
  predicate IsBlocked(e: Env, lists: MacLists, mac: Mac) {
    match e.cfg.mechanism
    case MacBlock => mac in lists.blocked
    case MacAllow => mac !in lists.allowed
  }

  lemma BlockedWalk(t: Table, e: Env, chain: seq<Rule>, lists: MacLists, p: Packet, depth: nat)
    requires HoldsBlocked(e, chain, lists)
    ensures Walk(t, chain, p, depth).Passed? || Walk(t, chain, p, depth).Returned?
    ensures Walk(t, chain, p, depth).p
         == p.(mark := StampIf(e, IsBlocked(e, lists, p.mac), p.mark, e.cfg.marks.blocked))
  {
    hide Walk, HoldsMacs;
    match e.cfg.mechanism
    case MacBlock =>
      HoldsMacsMeans(chain, lists.blocked, e.Marker(e.cfg.marks.blocked), p);
      StampWalk(t, e, chain, e.cfg.marks.blocked, p, depth);
    case MacAllow =>
      AllowWalk(t, e, chain[..|chain| - 1], lists, p, depth);
      assert chain == chain[..|chain| - 1] + [Rule([], e.Marker(e.cfg.marks.blocked))];
  }

  lemma AllowWalk(t: Table, e: Env, allow: seq<Rule>, lists: MacLists, p: Packet, depth: nat)
    requires HoldsMacs(allow, lists.allowed, Return)
    ensures Walk(t, allow + [Rule([], e.Marker(e.cfg.marks.blocked))], p, depth)
         == if p.mac in lists.allowed then Returned(p) else Passed(p.(mark := Stamp(e, p.mark, e.cfg.marks.blocked)))
  {
    var last := Rule([], e.Marker(e.cfg.marks.blocked));
    hide Walk, HoldsMacs;
    HoldsMacsMeans(allow, lists.allowed, Return, p);
    ReturnWalk(t, allow, p, depth);
    WalkConcat(t, allow, [last], p, depth);
    WalkOne(t, last, p, depth);
  }

  lemma TrustedWalk(t: Table, e: Env, chain: seq<Rule>, lists: MacLists, p: Packet, depth: nat)
    requires HoldsMacs(chain, lists.trusted, e.Marker(e.cfg.marks.trusted))
    ensures Walk(t, chain, p, depth)
         == Passed(p.(mark := StampIf(e, p.mac in lists.trusted, p.mark, e.cfg.marks.trusted)))
  {
    HoldsMacsMeans(chain, lists.trusted, e.Marker(e.cfg.marks.trusted), p);
    StampWalk(t, e, chain, e.cfg.marks.trusted, p, depth);
  }

  /** Of the authenticated clients, the one whose rule a packet meets. */
  datatype Login = Nobody | Client(idx: nat)

  /** Every rule of the outgoing chain that the packet meets is the rule of this login. */
  predicate OutgoingMeets(e: Env, chain: seq<Rule>, p: Packet, who: Login) {
    && (forall i :: 0 <= i < |chain| ==> MarkBlind(chain[i]))
    && match who
       case Nobody => forall i :: 0 <= i < |chain| ==> !Matches(chain[i], p)
       case Client(idx) =>
         && (exists r :: r in chain && Matches(r, p))
         && forall i :: 0 <= i < |chain| && Matches(chain[i], p) ==>
                          chain[i].target == e.Marker(ClientMark(idx, e.cfg.marks.authenticated))
  }

  lemma OutgoingWalk(t: Table, e: Env, chain: seq<Rule>, p: Packet, who: Login, depth: nat)
    requires OutgoingMeets(e, chain, p, who)
    ensures Walk(t, chain, p, depth)
         == Passed(if who.Nobody? then p
             else p.(mark := Stamp(e, p.mark, ClientMark(who.idx, e.cfg.marks.authenticated))))
  {
    match who
    case Nobody => StampWalk(t, e, chain, 0, p, depth);
    case Client(idx) => StampWalk(t, e, chain, ClientMark(idx, e.cfg.marks.authenticated), p, depth);
  }

  /** The mangle chains as they stand at some moment. */
  predicate MangleHolds(e: Env, t: Table, lists: MacLists) {
    && NdsOut in t && NdsBlk in t && NdsTru in t
    && HoldsBlocked(e, t[NdsBlk], lists)
    && HoldsMacs(t[NdsTru], lists.trusted, e.Marker(e.cfg.marks.trusted))
  }

  /** The mark a packet from the gateway leaves PREROUTING's three jumps with. */
  function MarkAfter(e: Env, lists: MacLists, p: Packet, who: Login): nat {
    var m1 := if who.Nobody? then p.mark else Stamp(e, p.mark, ClientMark(who.idx, e.cfg.marks.authenticated));
    var m2 := StampIf(e, IsBlocked(e, lists, p.mac), m1, e.cfg.marks.blocked);
    StampIf(e, p.mac in lists.trusted, m2, e.cfg.marks.trusted)
  }

  lemma JumpWalk(t: Table, e: Env, chain: Chain, p: Packet, depth: nat)
    requires FromGateway(e, p) && depth >= 1 && chain in t && !Walk(t, t[chain], p, depth - 1).Decided?
    ensures RuleOutcome(t, e.Entry(chain), p, depth) == Passed(Walk(t, t[chain], p, depth - 1).p)
  {
    MatchesTwo(InIf(e.cfg.gwInterface), Src(e.cfg.gwRange), p, Jump(chain));
  }

  lemma PreroutingWalk(t: Table, e: Env, lists: MacLists, p: Packet, who: Login, depth: nat)
    requires MangleHolds(e, t, lists) && OutgoingMeets(e, t[NdsOut], p, who)
    requires FromGateway(e, p) && depth >= 1
    ensures Walk(t, Prerouting(e), p, depth) == Passed(p.(mark := MarkAfter(e, lists, p, who)))
  {
    var a, b, c := e.Entry(NdsOut), e.Entry(NdsBlk), e.Entry(NdsTru);
    assert Prerouting(e) == [a] + ([b] + [c]);
    hide Walk, HoldsBlocked, HoldsMacs, OutgoingMeets, IsBlocked, ClientMark;
    OutgoingWalk(t, e, t[NdsOut], p, who, depth - 1);
    JumpWalk(t, e, NdsOut, p, depth);
    var p1 := Walk(t, t[NdsOut], p, depth - 1).p;
    BlockedWalk(t, e, t[NdsBlk], lists, p1, depth - 1);
    JumpWalk(t, e, NdsBlk, p1, depth);
    var p2 := Walk(t, t[NdsBlk], p1, depth - 1).p;
    TrustedWalk(t, e, t[NdsTru], lists, p2, depth - 1);
    JumpWalk(t, e, NdsTru, p2, depth);
    WalkHead(t, a, [b] + [c], p, depth);
    WalkHead(t, b, [c], p1, depth);
    WalkOne(t, c, p2, depth);
  }

  // ---------- Marks as seen through the mask ----------

  /** The client marks contain no bit of the other marks: the condition under which an
      authenticated client's packets are recognised. */
  predicate MarkFits(marks: Marks, idx: nat) {
    And(idx + 10, Shr(marks.Mask(), 4 * |Hex(marks.authenticated)|)) == 0
  }

  lemma ClientMarkValue(idx: nat, authenticated: nat)
    ensures ClientMark(idx, authenticated) == (idx + 10) * Pow2(4 * |Hex(authenticated)|) + authenticated
    ensures authenticated < Pow2(4 * |Hex(authenticated)|)
  {
    FromHexConcat(Hex(idx + 10), Hex(authenticated));
    HexRoundTrip(idx + 10);
    HexRoundTrip(authenticated);
  }

  lemma MarksWithinMask(marks: Marks)
    ensures And(marks.blocked, marks.Mask()) == marks.blocked
    ensures And(marks.trusted, marks.Mask()) == marks.trusted
    ensures And(marks.authenticated, marks.Mask()) == marks.authenticated
  {
    var b, t, a := marks.blocked, marks.trusted, marks.authenticated;
    OrAssociates(b, t, a);
    AndAbsorbs(b, Or(t, a));
    OrCommutes(b, t);
    OrAssociates(t, b, a);
    AndAbsorbs(t, Or(b, a));
    OrCommutes(Or(b, t), a);
    AndAbsorbs(a, Or(b, t));
  }

  /** A client's mark, through the mask, is the AUTHENTICATED mark exactly when the digits of its
      index do not overlap the mask. */
  lemma ClientMarkMasked(marks: Marks, idx: nat)
    ensures And(ClientMark(idx, marks.authenticated), marks.Mask()) == marks.authenticated <==> MarkFits(marks, idx)
  {
    ClientMarkValue(idx, marks.authenticated);
    MarksWithinMask(marks);
    hide And, Or, Pow2, Hex, Shr, ClientMark;
    MaskConcat(idx + 10, marks.authenticated, marks.Mask(), 4 * |Hex(marks.authenticated)|);
  }

  /** Marks for which it fails: with a blocked mark of 0x1000 and a trusted mark of 0x2000 the first
      client's mark, 0xa400, masks to 0x2400. */
  lemma LongMarksMiss()
    ensures var marks := Marks(0x1000, 0x2000, 0x400);
      && marks.Distinct() && marks.Mask() == 0x3400 && ClientMark(0, marks.authenticated) == 0xa400
      && !MarkFits(marks, 0)
      && And(ClientMark(0, marks.authenticated), marks.Mask()) != marks.authenticated
  {
    var marks := Marks(0x1000, 0x2000, 0x400);
    LongMask();
    LongHex();
    ClientMarkValue(0, 0x400);
    LongShift();
    TenAndThree();
    ClientMarkMasked(marks, 0);
    hide And, Or, Shr, Pow2, Hex, ClientMark;
  }

  lemma LongHex()
    ensures |Hex(0x400)| == 3 && Pow2(4 * 3) == 4096
  {
    assert Hex(4) == [4] && Hex(0x40) == [4, 0] && Hex(0x400) == [4, 0, 0];
    assert Pow2(4) == 16 && Pow2(8) == 256 && Pow2(12) == 4096;
  }

  lemma TenAndThree()
    ensures And(10, 3) == 2
  {
    assert And(1, 0) == 0 && And(2, 0) == 0 && And(5, 1) == 1;
  }

  lemma LongMask()
    ensures Or(Or(0x1000, 0x2000), 0x400) == 0x3400
  {
    SmallOrs();
    ShiftedMarks();
    OrShifted(1, 2, 12);
    OrShifted(12, 1, 10);
    hide *;
  }

  lemma SmallOrs()
    ensures Or(1, 2) == 3 && Or(12, 1) == 13
  {
    assert Or(3, 0) == 3 && Or(6, 0) == 6;
  }

  lemma ShiftedMarks()
    ensures Shl(1, 12) == 0x1000 && Shl(2, 12) == 0x2000 && Shl(3, 12) == 0x3000
    ensures Shl(12, 10) == 0x3000 && Shl(1, 10) == 0x400 && Shl(13, 10) == 0x3400
  {
  }

  /** `m << n` */
  function Shl(m: nat, n: nat): nat
    decreases n
  {
    if n == 0 then m else Shl(2 * m, n - 1)
  }

  lemma {:induction false} OrShifted(x: nat, y: nat, n: nat)
    ensures Or(Shl(x, n), Shl(y, n)) == Shl(Or(x, y), n)
    decreases n
  {
    if n > 0 {
      OrBits(2 * x, 2 * y);
      OrShifted(2 * x, 2 * y, n - 1);
      hide Or;
      assert Or(2 * x, 2 * y) == 2 * Or(x, y);
    }
  }

  lemma LongShift()
    ensures Shr(0x3400, 12) == 3
  {
    assert Shr(3, 0) == 3 && Shr(6, 1) == 3 && Shr(13, 2) == 3 && Shr(26, 3) == 3 && Shr(52, 4) == 3;
    assert Shr(0x68, 5) == 3 && Shr(0xd0, 6) == 3 && Shr(0x1a0, 7) == 3 && Shr(0x340, 8) == 3;
    assert Shr(0x680, 9) == 3 && Shr(0xd00, 10) == 3 && Shr(0x1a00, 11) == 3;
  }

  /** That is so for every index when the other marks have no more hexadecimal digits. */
  lemma ShortMarksFit(marks: Marks, idx: nat)
    requires marks.blocked < Pow2(4 * |Hex(marks.authenticated)|)
        && marks.trusted < Pow2(4 * |Hex(marks.authenticated)|)
    ensures MarkFits(marks, idx)
  {
    var n := 4 * |Hex(marks.authenticated)|;
    HexRoundTrip(marks.authenticated);
    OrBelow(marks.blocked, marks.trusted, n);
    OrBelow(Or(marks.blocked, marks.trusted), marks.authenticated, n);
    ShrZero(marks.Mask(), n);
    AndZero(idx + 10);
  }

  /** Distinct slots have distinct marks. */
  lemma ClientMarksDiffer(i: nat, j: nat, authenticated: nat)
    ensures ClientMark(i, authenticated) == ClientMark(j, authenticated) <==> i == j
  {
    ClientMarkValue(i, authenticated);
    ClientMarkValue(j, authenticated);
    ProductsDiffer(i + 10, j + 10, Pow2(4 * |Hex(authenticated)|));
  }

  lemma {:induction false} ProductGrows(a: nat, b: nat, p: nat)
    requires a < b && p > 0
    ensures a * p < b * p
    decreases b - a
  {
    assert (a + 1) * p == a * p + p;
    if a + 1 < b {
      ProductGrows(a + 1, b, p);
    }
  }

  lemma ProductsDiffer(a: nat, b: nat, p: nat)
    requires p > 0
    ensures a * p == b * p <==> a == b
  {
    if a < b {
      ProductGrows(a, b, p);
    } else if b < a {
      ProductGrows(b, a, p);
    }
  }

  /** The class the configuration and the client list give a packet: trusted before blocked before
      authenticated. */
  function WantedClass(e: Env, lists: MacLists, p: Packet, who: Login): nat {
    if p.mac in lists.trusted then e.cfg.marks.trusted
    else if IsBlocked(e, lists, p.mac) then e.cfg.marks.blocked
    else if who.Client? then e.cfg.marks.authenticated
    else 0
  }

  /** Under --or-mark the classes that apply are or-ed. */
  function UnitedClass(e: Env, lists: MacLists, p: Packet, who: Login): nat {
    Or(Or(if who.Client? then e.cfg.marks.authenticated else 0,
          if IsBlocked(e, lists, p.mac) then e.cfg.marks.blocked else 0),
       if p.mac in lists.trusted then e.cfg.marks.trusted else 0)
  }

  lemma MaskedStamp(e: Env, mark: nat, v: nat, m: nat)
    ensures And(Stamp(e, mark, v), m) == if e.orMark then Or(And(mark, m), And(v, m)) else And(v, m)
  {
    AndOr(mark, v, m);
  }

  /** Packet classification.  A packet that carries none of the marks leaves PREROUTING, seen through
      the mask, with the wanted class under --set-mark and with the united class under --or-mark. */
  lemma Classified(t: Table, e: Env, lists: MacLists, p: Packet, who: Login, depth: nat)
    requires e.masking && MangleHolds(e, t, lists) && OutgoingMeets(e, t[NdsOut], p, who)
    requires FromGateway(e, p) && depth >= 1 && Class(e, p) == 0
    requires who.Client? ==> MarkFits(e.cfg.marks, who.idx)
    ensures var o := Walk(t, Prerouting(e), p, depth);
            && o.Passed? && o.p == p.(mark := o.p.mark)
            && Class(e, o.p) == if e.orMark then UnitedClass(e, lists, p, who) else WantedClass(e, lists, p, who)
  {
    PreroutingWalk(t, e, lists, p, who, depth);
    hide Walk, HoldsBlocked, HoldsMacs, OutgoingMeets, IsBlocked, ClientMark, And, Or, MarkFits;
    var marks := e.cfg.marks;
    var m := marks.Mask();
    MarksWithinMask(marks);
    AndZero(marks.authenticated);
    AndZero(marks.blocked);
    AndZero(0);
    var mark1 := if who.Nobody? then p.mark else ClientMark(who.idx, marks.authenticated);
    if who.Client? {
      ClientMarkMasked(marks, who.idx);
      MaskedStamp(e, p.mark, mark1, m);
    }
    var m1 := if who.Nobody? then p.mark else Stamp(e, p.mark, mark1);
    MaskedStamp(e, m1, marks.blocked, m);
    var m2 := StampIf(e, IsBlocked(e, lists, p.mac), m1, marks.blocked);
    MaskedStamp(e, m2, marks.trusted, m);
    AndZero(And(m1, m));
    AndZero(And(m2, m));
  }

  /** The two marking modes agree, and both give the wanted class, when at most one class applies. */
  lemma UnitedIsWanted(e: Env, lists: MacLists, p: Packet, who: Login)
    requires AtMostOneClass(e, lists, p, who)
    ensures UnitedClass(e, lists, p, who) == WantedClass(e, lists, p, who)
  {
    AndZero(e.cfg.marks.authenticated);
    AndZero(e.cfg.marks.blocked);
    AndZero(e.cfg.marks.trusted);
    AndZero(0);
  }

  /** They differ otherwise, with the default marks: under --or-mark a trusted client that also
      authenticated has neither class, so its web requests are caught like a stranger's. */
  lemma TrustedLoginIsLost(e: Env, lists: MacLists, p: Packet, who: Login)
    requires e.orMark && e.masking && e.cfg.marks == Marks(0x100, 0x200, 0x400) && e.cfg.mechanism == MacBlock
    requires p.mac in lists.trusted && p.mac !in lists.blocked && who.Client?
    ensures UnitedClass(e, lists, p, who) == 0x600 != WantedClass(e, lists, p, who)
    ensures UnitedClass(e, lists, p, who) !in {e.cfg.marks.blocked, e.cfg.marks.trusted, e.cfg.marks.authenticated}
  {
    OrBits(0x400, 0);
    AndZero(0x400);
    OrOfPowers();
  }

  /** `mark` has no bit outside `w`. */
  predicate Inside(mark: nat, w: nat) {
    And(mark, w) == mark
  }

  lemma PartsOfUnion(a: nat, b: nat, t: nat)
    ensures var u := Or(Or(a, b), t); Inside(a, u) && Inside(b, u) && Inside(t, u)
  {
    OrAssociates(a, b, t);
    AndAbsorbs(a, Or(b, t));
    OrCommutes(a, b);
    OrAssociates(b, a, t);
    AndAbsorbs(b, Or(a, t));
    OrCommutes(t, Or(a, b));
    AndAbsorbs(t, Or(a, b));
  }

  lemma MaskOfThree(a: nat, b: nat, t: nat, x: nat)
    ensures And(Or(Or(a, b), t), x) == Or(Or(And(a, x), And(b, x)), And(t, x))
  {
    AndOr(Or(a, b), t, x);
    AndOr(a, b, x);
  }

  lemma UnionInside(a: nat, b: nat, t: nat, w: nat)
    requires Inside(a, w) && Inside(b, w) && Inside(t, w)
    ensures Inside(Or(Or(a, b), t), w)
  {
    MaskOfThree(a, b, t, w);
  }

  /** For any marks: --or-mark gives the class --set-mark would give exactly when every class that
      applies has its mark inside that one. */
  lemma UnitedExactly(e: Env, lists: MacLists, p: Packet, who: Login)
    ensures var marks, w := e.cfg.marks, WantedClass(e, lists, p, who);
      UnitedClass(e, lists, p, who) == w <==>
        && (p.mac in lists.trusted ==> Inside(marks.trusted, w))
        && (IsBlocked(e, lists, p.mac) ==> Inside(marks.blocked, w))
        && (who.Client? ==> Inside(marks.authenticated, w))
  {
    var marks, w := e.cfg.marks, WantedClass(e, lists, p, who);
    var a := if who.Client? then marks.authenticated else 0;
    var b := if IsBlocked(e, lists, p.mac) then marks.blocked else 0;
    var t := if p.mac in lists.trusted then marks.trusted else 0;
    var u := UnitedClass(e, lists, p, who);
    PartsOfUnion(a, b, t);
    AndZero(w);
    AndZero(0);
    assert w == 0 || w == a || w == b || w == t;
    hide And, Or, IsBlocked;
    if Inside(a, w) && Inside(b, w) && Inside(t, w) {
      UnionInside(a, b, t, w);
      AndCommutes(u, w);
      AndZero(u);
    }
  }

  /** No two marks share a bit, and none is empty: so it is with the default marks. */
  predicate Separate(marks: Marks) {
    && marks.blocked > 0 && marks.trusted > 0 && marks.authenticated > 0
    && And(marks.blocked, marks.trusted) == 0 && And(marks.blocked, marks.authenticated) == 0
    && And(marks.trusted, marks.authenticated) == 0
  }

  lemma SeparateBothWays(marks: Marks)
    requires Separate(marks)
    ensures And(marks.trusted, marks.blocked) == 0 && And(marks.authenticated, marks.blocked) == 0
    ensures And(marks.authenticated, marks.trusted) == 0
    ensures !Inside(marks.blocked, marks.trusted) && !Inside(marks.trusted, marks.blocked)
    ensures !Inside(marks.blocked, marks.authenticated) && !Inside(marks.authenticated, marks.blocked)
    ensures !Inside(marks.trusted, marks.authenticated) && !Inside(marks.authenticated, marks.trusted)
  {
    AndCommutes(marks.blocked, marks.trusted);
    AndCommutes(marks.blocked, marks.authenticated);
    AndCommutes(marks.trusted, marks.authenticated);
  }

  /** At most one class applies to the packet. */
  predicate AtMostOneClass(e: Env, lists: MacLists, p: Packet, who: Login) {
    && !(p.mac in lists.trusted && IsBlocked(e, lists, p.mac))
    && !(p.mac in lists.trusted && who.Client?)
    && !(IsBlocked(e, lists, p.mac) && who.Client?)
  }

  /** With separate marks that is so exactly when at most one class applies; when two do, the packet has
      none of the three marks. */
  lemma UnitedWithSeparateMarks(e: Env, lists: MacLists, p: Packet, who: Login)
    requires Separate(e.cfg.marks)
    ensures var marks, u := e.cfg.marks, UnitedClass(e, lists, p, who);
      && (u == WantedClass(e, lists, p, who) <==> AtMostOneClass(e, lists, p, who))
      && (!AtMostOneClass(e, lists, p, who) ==> u != marks.blocked && u != marks.trusted && u != marks.authenticated)
  {
    var marks, u := e.cfg.marks, UnitedClass(e, lists, p, who);
    UnitedExactly(e, lists, p, who);
    SeparateBothWays(marks);
    AndSelf(marks.blocked);
    AndSelf(marks.trusted);
    AndSelf(marks.authenticated);
    var a := if who.Client? then marks.authenticated else 0;
    var b := if IsBlocked(e, lists, p.mac) then marks.blocked else 0;
    var t := if p.mac in lists.trusted then marks.trusted else 0;
    PartsOfUnion(a, b, t);
    UnionOutside(a, b, t, marks.blocked);
    UnionOutside(a, b, t, marks.trusted);
    UnionOutside(a, b, t, marks.authenticated);
    hide And, Or, IsBlocked, Separate;
  }

  /** A mark that misses every part misses the union. */
  lemma UnionOutside(a: nat, b: nat, t: nat, x: nat)
    ensures And(a, x) == 0 && And(b, x) == 0 && And(t, x) == 0 ==> And(Or(Or(a, b), t), x) == 0
    ensures And(0, x) == 0
  {
    MaskOfThree(a, b, t, x);
    AndZero(0);
    AndZero(x);
  }

  lemma OrOfPowers()
    ensures Or(0x400, 0x200) == 0x600
  {
    assert Or(2, 1) == 3;
    assert Or(4, 2) == 6;
    assert Or(8, 4) == 12;
    assert Or(16, 8) == 24;
    assert Or(32, 16) == 48;
    assert Or(64, 32) == 96;
    assert Or(128, 64) == 192;
    assert Or(256, 128) == 384;
    assert Or(512, 256) == 768;
    assert Or(1024, 512) == 1536;
  }

  // ---------- Without mark masking ----------

  lemma {:induction false} AndOnes(x: nat, k: nat)
    requires x < Pow2(k)
    ensures And(x, Pow2(k) - 1) == x
    decreases k
  {
    AndZero(x);
    if k > 0 {
      AndBits(x, Pow2(k) - 1);
      AndOnes(x / 2, k - 1);
      assert (Pow2(k) - 1) / 2 == Pow2(k - 1) - 1;
    }
  }

  lemma {:induction false} Pow2Adds(m: nat, n: nat)
    ensures Pow2(m + n) == Pow2(m) * Pow2(n)
    decreases n
  {
    if n > 0 {
      var a, b := Pow2(m), Pow2(n - 1);
      Pow2Adds(m, n - 1);
      assert Pow2(m + n) == 2 * Pow2(m + (n - 1)) && Pow2(n) == 2 * b;
      hide Pow2;
      assert a * (2 * b) == 2 * (a * b);
    } else {
      assert Pow2(m) * 1 == Pow2(m);
    }
  }

  lemma WordSize()
    ensures Pow2(32) == 0x1_0000_0000
  {
    assert Pow2(8) == 256;
    Pow2Adds(8, 8);
    Pow2Adds(16, 16);
  }

  /** On a kernel without mark masking no client mark is ever recognised as AUTHENTICATED. */
  lemma UnmaskedLoginIsLost(e: Env, mark: nat, idx: nat)
    requires !e.masking && mark < 0x1_0000_0000 && ClientMark(idx, e.cfg.marks.authenticated) < 0x1_0000_0000
    ensures And(Stamp(e, mark, ClientMark(idx, e.cfg.marks.authenticated)), e.MarkMask()) != e.cfg.marks.authenticated
  {
    var v := ClientMark(idx, e.cfg.marks.authenticated);
    var stamped := Stamp(e, mark, v);
    WordSize();
    ClientMarkValue(idx, e.cfg.marks.authenticated);
    ProductGrows(0, idx + 10, Pow2(4 * |Hex(e.cfg.marks.authenticated)|));
    OrBelow(mark, v, 32);
    OrIsAbove(mark, v);
    AndOnes(stamped, 32);
    hide And, Or, Pow2, ClientMark, Hex;
  }

  lemma {:induction false} OrIsAbove(x: nat, y: nat)
    ensures Or(x, y) >= y
  {
    if x > 0 && y > 0 {
      OrIsAbove(x / 2, y / 2);
      OrBits(x, y);
    }
  }
}
