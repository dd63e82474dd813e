/** Packet marks are unsigned words; this is their arithmetic: bitwise and/or on naturals,
    and the hexadecimal text in which marks reach the kernel. */
module Bits {

  function And(x: nat, y: nat): nat {
    if x == 0 || y == 0 then 0 else 2 * And(x / 2, y / 2) + (if x % 2 == 1 && y % 2 == 1 then 1 else 0)
  }

  function Or(x: nat, y: nat): nat {
    if x == 0 then y else if y == 0 then x
    else 2 * Or(x / 2, y / 2) + (if x % 2 == 1 || y % 2 == 1 then 1 else 0)
  }

  function Pow2(n: nat): (r: nat)
    ensures r >= 1
  {
    if n == 0 then 1 else 2 * Pow2(n - 1)
  }

  /** `m >> n` */
  function Shr(m: nat, n: nat): nat {
    if n == 0 then m else Shr(m / 2, n - 1)
  }

  // ---------- Bitwise laws ----------

  /** One bit at a time, with no special case for zero. */
  lemma AndBits(x: nat, y: nat)
    ensures And(x, y) / 2 == And(x / 2, y / 2)
    ensures And(x, y) % 2 == 1 <==> x % 2 == 1 && y % 2 == 1
  {
  }

  lemma OrBits(x: nat, y: nat)
    ensures Or(x, y) / 2 == Or(x / 2, y / 2)
    ensures Or(x, y) % 2 == 1 <==> x % 2 == 1 || y % 2 == 1
  {
  }

  lemma AndSelf(x: nat)
    ensures And(x, x) == x
  {
    if x > 0 {
      AndSelf(x / 2);
    }
  }

  lemma AndZero(x: nat)
    ensures And(x, 0) == 0 == And(0, x) && Or(x, 0) == x == Or(0, x)
  {
  }

  lemma AndCommutes(x: nat, y: nat)
    ensures And(x, y) == And(y, x)
  {
  }

  lemma OrCommutes(x: nat, y: nat)
    ensures Or(x, y) == Or(y, x)
  {
  }

  /** Masking with a mask that contains `x` keeps `x`. */
  lemma {:induction false} AndAbsorbs(x: nat, y: nat)
    ensures And(x, Or(x, y)) == x
    decreases x
  {
    AndZero(x);
    AndZero(Or(x, y));
    if x > 0 {
      AndAbsorbs(x / 2, y / 2);
      OrBits(x, y);
      AndBits(x, Or(x, y));
      hide And, Or;
      var r := And(x, Or(x, y));
      assert r / 2 == x / 2 && (r % 2 == 1 <==> x % 2 == 1);
    }
  }

  lemma {:induction false} OrAssociates(x: nat, y: nat, z: nat)
    ensures Or(Or(x, y), z) == Or(x, Or(y, z))
    decreases x
  {
    AndZero(y);
    AndZero(Or(y, z));
    if x > 0 {
      OrAssociates(x / 2, y / 2, z / 2);
      OrBits(x, y);
      OrBits(y, z);
      OrBits(Or(x, y), z);
      OrBits(x, Or(y, z));
      hide Or;
      var l, r := Or(Or(x, y), z), Or(x, Or(y, z));
      assert l / 2 == r / 2 && (l % 2 == 1 <==> r % 2 == 1);
    }
  }

  /** Masking distributes over or-ing. */
  lemma {:induction false} AndOr(x: nat, y: nat, m: nat)
    ensures And(Or(x, y), m) == Or(And(x, m), And(y, m))
    decreases m
  {
    AndZero(Or(x, y));
    AndZero(x);
    AndZero(y);
    if m > 0 {
      AndOr(x / 2, y / 2, m / 2);
      OrBits(x, y);
      AndBits(Or(x, y), m);
      AndBits(x, m);
      AndBits(y, m);
      OrBits(And(x, m), And(y, m));
      hide And, Or;
      var l, r := And(Or(x, y), m), Or(And(x, m), And(y, m));
      assert l / 2 == r / 2 && (l % 2 == 1 <==> r % 2 == 1);
    }
  }

  lemma {:induction false} OrBelow(x: nat, y: nat, n: nat)
    requires x < Pow2(n) && y < Pow2(n)
    ensures Or(x, y) < Pow2(n)
  {
    if n > 0 {
      OrBelow(x / 2, y / 2, n - 1);
      OrBits(x, y);
      hide Or;
      assert Or(x, y) / 2 < Pow2(n - 1);
    }
  }

  /** `m >> n` vanishes exactly when `m` has no more than `n` bits. */
  lemma {:induction false} ShrZero(m: nat, n: nat)
    ensures Shr(m, n) == 0 <==> m < Pow2(n)
  {
    if n > 0 {
      ShrZero(m / 2, n - 1);
    }
  }

  /** A number `a` written above `n` bits `b`: masking leaves `b`'s part exactly when the mask
      and `a` have no bit in common. */
  lemma {:induction false} MaskConcat(a: nat, b: nat, m: nat, n: nat)
    requires b < Pow2(n)
    ensures And(a * Pow2(n) + b, m) == And(b, m) <==> And(a, Shr(m, n)) == 0
    decreases n
  {
    var x := a * Pow2(n) + b;
    AndZero(m);
    if n > 0 {
      assert a * Pow2(n) == 2 * (a * Pow2(n - 1));
      assert x / 2 == a * Pow2(n - 1) + b / 2 && x % 2 == b % 2;
      MaskConcat(a, b / 2, m / 2, n - 1);
      AndBits(x, m);
      AndBits(b, m);
      hide And;
      var l, r := And(x, m), And(b, m);
      assert l % 2 == 1 <==> r % 2 == 1;
      assert l == r <==> l / 2 == r / 2;
    } else {
      assert x == a;
    }
  }

  // ---------- Hexadecimal text ----------

  /** The digits `%x` prints, most significant first. */
  function Hex(n: nat): (s: seq<nat>)
    ensures |s| >= 1
  {
    if n < 16 then [n] else Hex(n / 16) + [n % 16]
  }

  /** The number a digit string stands for. */
  function FromHex(s: seq<nat>): nat {
    if s == [] then 0 else 16 * FromHex(s[..|s| - 1]) + s[|s| - 1]
  }

  lemma Pow2Digit(k: nat)
    ensures Pow2(4 * (k + 1)) == 16 * Pow2(4 * k)
  {
    assert Pow2(4 * k + 4) == 2 * Pow2(4 * k + 3);
    assert Pow2(4 * k + 3) == 2 * Pow2(4 * k + 2);
    assert Pow2(4 * k + 2) == 2 * Pow2(4 * k + 1);
  }

  lemma Regroup(f: nat, p: nat)
    ensures f * (16 * p) == 16 * (f * p)
  {
  }

  lemma {:induction false} FromHexConcat(s: seq<nat>, t: seq<nat>)
    ensures FromHex(s + t) == FromHex(s) * Pow2(4 * |t|) + FromHex(t)
    decreases |t|
  {
    if t == [] {
      assert s + t == s;
    } else {
      var t' := t[..|t| - 1];
      assert (s + t)[..|s + t| - 1] == s + t';
      FromHexConcat(s, t');
      Pow2Digit(|t'|);
      Regroup(FromHex(s), Pow2(4 * |t'|));
    }
  }

  lemma {:induction false} HexRoundTrip(n: nat)
    ensures FromHex(Hex(n)) == n && n < Pow2(4 * |Hex(n)|)
  {
    if n >= 16 {
      HexRoundTrip(n / 16);
      assert Hex(n)[..|Hex(n)| - 1] == Hex(n / 16);
      Pow2Digit(|Hex(n / 16)|);
    } else {
      Pow2Digit(0);
    }
  }

  /** A shifted number and one below the shift do not overlap. */
  lemma {:induction false} OrDisjoint(x: nat, n: nat, y: nat)
    requires y < Pow2(n)
    ensures Or(x * Pow2(n), y) == x * Pow2(n) + y
  {
    AndZero(x * Pow2(n));
    if n > 0 {
      var p := Pow2(n - 1);
      assert x * Pow2(n) == 2 * (x * p);
      OrDisjoint(x, n - 1, y / 2);
      OrBits(2 * (x * p), y);
    } else {
      assert x * Pow2(0) == x;
    }
  }
}
