/** _httpd_decode of libhttpd/protocol.c against the standard encoding of section 4 of RFC 4648. */
module Base64 {
  import opened Bits
  import opened HttpText

  // ---------- The alphabet ----------

  function Six2Pr(v: nat): (c: char)
    requires v < 64
  {
    if v < 26 then (65 + v) as char
    else if v < 52 then (71 + v) as char
    else if v < 62 then (v - 4) as char
    else if v == 62 then '+' else '/'
  }

  /** The table pr2six: 64 for a character outside the alphabet. */
  function Pr2Six(c: char): (v: nat)
    ensures v <= 64
  {
    var a := c as int;
    if 65 <= a <= 90 then a - 65
    else if 97 <= a <= 122 then a - 71
    else if 48 <= a <= 57 then a + 4
    else if a == 43 then 62 else if a == 47 then 63 else 64
  }

  // ---------- Encoding ----------

  function Hi(x: nat, m: nat): (r: nat)
    requires m > 0
  {
    x / m
  }

  function Lo(x: nat, m: nat): (r: nat)
    requires m > 0
  {
    x % m
  }

  /** The six-bit values of one to three bytes; 64 stands for padding. */
  function Sextets(s: string): (r: seq<nat>)
    requires 1 <= |s| <= 3
    ensures |r| == 4 && r[0] <= 64 && r[1] <= 64 && r[2] <= 64 && r[3] <= 64
  {
    var a, b, c :=
      s[0] as int % 256, if |s| > 1 then s[1] as int % 256 else 0, if |s| > 2 then s[2] as int % 256 else 0;
    [ Hi(a, 4), Lo(a, 4) * 16 + Hi(b, 16),
      if |s| > 1 then Lo(b, 16) * 4 + Hi(c, 64) else 64, if |s| > 2 then Lo(c, 64) else 64 ]
  }

  function Letter(v: nat): (c: char)
    requires v <= 64
  {
    if v < 64 then Six2Pr(v) else '='
  }

  const CAPITALS := "ABCDEFGHIJKLMNOPQRSTUVWXYZ"
  const SMALL := "abcdefghijklmnopqrstuvwxyz"
  const OTHERS := "0123456789+/"

  /** The letters are those of table 1 of RFC 4648, in its order. */
  lemma LettersAre(v: nat)
    requires v < 64
    ensures Letter(v) == if v < 26 then CAPITALS[v] else if v < 52 then SMALL[v - 26] else OTHERS[v - 52]
  {
    if v < 26 {
      CapitalsAre(v);
    } else if v < 52 {
      SmallAre(v - 26);
    } else {
      var a := OTHERS;
      assert a[0] == '0' && a[1] == '1' && a[2] == '2' && a[3] == '3' && a[4] == '4' && a[5] == '5' && a[6] == '6'
          && a[7] == '7' && a[8] == '8' && a[9] == '9' && a[10] == '+' && a[11] == '/';
    }
  }

  lemma CapitalsAre(v: nat)
    requires v < 26
    ensures CAPITALS[v] as int == 65 + v
  {
    var a := CAPITALS;
    assert a[0] == 'A' && a[1] == 'B' && a[2] == 'C' && a[3] == 'D' && a[4] == 'E' && a[5] == 'F' && a[6] == 'G'
        && a[7] == 'H' && a[8] == 'I' && a[9] == 'J' && a[10] == 'K' && a[11] == 'L' && a[12] == 'M' && a[13] == 'N';
    assert a[14] == 'O' && a[15] == 'P' && a[16] == 'Q' && a[17] == 'R' && a[18] == 'S' && a[19] == 'T'
        && a[20] == 'U' && a[21] == 'V' && a[22] == 'W' && a[23] == 'X' && a[24] == 'Y' && a[25] == 'Z';
  }

  lemma SmallAre(v: nat)
    requires v < 26
    ensures SMALL[v] as int == 97 + v
  {
    var a := SMALL;
    assert a[0] == 'a' && a[1] == 'b' && a[2] == 'c' && a[3] == 'd' && a[4] == 'e' && a[5] == 'f' && a[6] == 'g'
        && a[7] == 'h' && a[8] == 'i' && a[9] == 'j' && a[10] == 'k' && a[11] == 'l' && a[12] == 'm' && a[13] == 'n';
    assert a[14] == 'o' && a[15] == 'p' && a[16] == 'q' && a[17] == 'r' && a[18] == 's' && a[19] == 't'
        && a[20] == 'u' && a[21] == 'v' && a[22] == 'w' && a[23] == 'x' && a[24] == 'y' && a[25] == 'z';
  }

  lemma Alphabet(v: nat)
    requires v <= 64
    ensures Pr2Six(Letter(v)) == v
  {
  }

  /** Four characters for three bytes; with fewer, zero bits and padding. */
  function EncodeGroup(s: string): (r: string)
    requires 1 <= |s| <= 3
    ensures |r| == 4
  {
    var v := Sextets(s);
    [Letter(v[0]), Letter(v[1]), Letter(v[2]), Letter(v[3])]
  }

  function Encode(s: string): (r: string)
    ensures |r| == (|s| + 2) / 3 * 4
  {
    if s == "" then ""
    else if |s| <= 3 then EncodeGroup(s)
    else EncodeGroup(s[..3]) + Encode(s[3..])
  }

  // ---------- Decoding ----------

  function Byte(x: nat): (c: char) { (x % 256) as char }

  /** The bytes that one group of four gives. */
  function Group(s: seq<char>): (r: string)
    requires |s| >= 4
    ensures |r| == 3
  {
    var a, b, c, d := Pr2Six(s[0]), Pr2Six(s[1]), Pr2Six(s[2]), Pr2Six(s[3]);
    [Byte(Or(a * 4, Hi(b, 16))), Byte(Or(b * 16, Hi(c, 4))), Byte(Or(c * 64, d))]
  }

  /** How many groups `n` characters make. */
  function Rounds(n: int): (k: nat) { if n <= 0 then 0 else (n + 3) / 4 }

  function Groups(s: seq<char>, k: nat): (r: string)
    requires 4 * k <= |s|
    ensures |r| == 3 * k
  {
    if k == 0 then "" else Groups(s, k - 1) + Group(s[4 * (k - 1)..])
  }

  function SkipBlanks(s: seq<char>): (k: nat)
    ensures k <= |s|
  {
    if s != [] && (s[0] == ' ' || s[0] == '\t') then 1 + SkipBlanks(s[1..]) else 0
  }

  /** The length of the run of alphabet characters. */
  function RunLength(s: seq<char>): (n: nat)
    ensures n <= |s|
  {
    if s != [] && Pr2Six(s[0]) <= 63 then 1 + RunLength(s[1..]) else 0
  }

  /** The number of characters that are decoded. */
  function Taken(s: seq<char>, outbufsize: nat): (n: nat) {
    var n := RunLength(s);
    if (n + 3) / 4 * 3 > outbufsize then outbufsize * 4 / 3 else n
  }

  /** The number that _httpd_decode returns for the text `s`. */
  function Count(s: seq<char>, outbufsize: nat): (count: nat)
    requires 4 * Rounds(Taken(s, outbufsize)) <= |s|
  {
    var n := Taken(s, outbufsize);
    var all := (RunLength(s) + 3) / 4 * 3;
    if n % 4 == 0 then all
    else if Pr2Six(s[4 * Rounds(n) - 2]) > 63 then all - 2 else all - 1
  }

  // ---------- Round trip ----------

  lemma {:induction false} GroupsLeft(s: seq<char>, k: nat)
    requires 4 * (k + 1) <= |s|
    ensures Groups(s, k + 1) == Group(s) + Groups(s[4..], k)
  {
    hide Group;
    var g := Group(s[4 * k..]);
    assert Groups(s, k + 1) == Groups(s, k) + g;
    if k == 0 {
      assert s[0..] == s && Groups(s, 0) == "" && Groups(s[4..], 0) == "";
      assert "" + Group(s) == Group(s) + "";
    } else {
      GroupsLeft(s, k - 1);
      assert s[4..][4 * (k - 1)..] == s[4 * k..];
      assert Groups(s[4..], k) == Groups(s[4..], k - 1) + g;
      assert Group(s) + Groups(s[4..], k - 1) + g == Group(s) + (Groups(s[4..], k - 1) + g);
    }
  }

  lemma ByteOf(x: nat, c: nat)
    requires c < 256
    ensures Byte(x * 256 + c) == c as char
  {
  }

  lemma OrFour(x: nat, y: nat)
    ensures y < 4 ==> Or(x * 4, y) == x * 4 + y
    ensures y < 16 ==> Or(x * 16, y) == x * 16 + y
    ensures y < 64 ==> Or(x * 64, y) == x * 64 + y
  {
    assert Pow2(1) == 2 && Pow2(2) == 4 && Pow2(3) == 8 && Pow2(4) == 16 && Pow2(5) == 32 && Pow2(6) == 64;
    if y < 4 { OrDisjoint(x, 2, y); }
    if y < 16 { OrDisjoint(x, 4, y); }
    if y < 64 { OrDisjoint(x, 6, y); }
  }

  lemma HiLo(a: nat)
    requires a < 256
    ensures a == 4 * Hi(a, 4) + Lo(a, 4) && Lo(a, 4) < 4 && Hi(a, 4) < 64
    ensures a == 16 * Hi(a, 16) + Lo(a, 16) && Lo(a, 16) < 16 && Hi(a, 16) < 16
    ensures a == 64 * Hi(a, 64) + Lo(a, 64) && Lo(a, 64) < 64 && Hi(a, 64) < 4
  {
  }

  lemma HiOf(x: nat, y: nat)
    ensures y < 4 ==> Hi(x * 4 + y, 4) == x
    ensures y < 16 ==> Hi(x * 16 + y, 16) == x
  {
  }

  lemma EncodedSextets(x: string, s: seq<char>)
    requires 1 <= |x| <= 3 && EncodeGroup(x) <= s
    ensures |s| >= 4 && [Pr2Six(s[0]), Pr2Six(s[1]), Pr2Six(s[2]), Pr2Six(s[3])] == Sextets(x)
  {
    var e, v := EncodeGroup(x), Sextets(x);
    assert s[0] == e[0] && s[1] == e[1] && s[2] == e[2] && s[3] == e[3];
    hide Pr2Six, Letter, Sextets;
    Alphabet(v[0]);
    Alphabet(v[1]);
    Alphabet(v[2]);
    Alphabet(v[3]);
  }

  lemma FirstByte(ah: nat, al: nat, bh: nat)
    requires ah < 64 && al < 4 && bh < 16
    ensures Byte(Or(ah * 4, Hi(al * 16 + bh, 16))) == (4 * ah + al) as char
  {
    hide Or, Byte, Hi;
    HiOf(al, bh);
    OrFour(ah, al);
    ByteOf(0, 4 * ah + al);
  }

  lemma SecondByte(al: nat, bh: nat, bl: nat, ch: nat)
    requires bh < 16 && bl < 16 && ch < 4
    ensures Byte(Or((al * 16 + bh) * 16, Hi(bl * 4 + ch, 4))) == (16 * bh + bl) as char
  {
    hide Or, Byte, Hi;
    HiOf(bl, ch);
    OrFour(al * 16 + bh, bl);
    ByteOf(al, 16 * bh + bl);
  }

  lemma ThirdByte(bl: nat, ch: nat, cl: nat)
    requires ch < 4 && cl < 64
    ensures Byte(Or((bl * 4 + ch) * 64, cl)) == (64 * ch + cl) as char
  {
    hide Or, Byte, Hi;
    OrFour(bl * 4 + ch, cl);
    ByteOf(bl, 64 * ch + cl);
  }

  /** The three bytes of four six-bit values. */
  lemma BytesOf(a: nat, b: nat, c: nat)
    requires a < 256 && b < 256 && c < 256
    ensures Byte(Or(Hi(a, 4) * 4, Hi(Lo(a, 4) * 16 + Hi(b, 16), 16))) == a as char
    ensures Byte(Or((Lo(a, 4) * 16 + Hi(b, 16)) * 16, Hi(Lo(b, 16) * 4 + Hi(c, 64), 4))) == b as char
    ensures Byte(Or((Lo(b, 16) * 4 + Hi(c, 64)) * 64, Lo(c, 64))) == c as char
  {
    hide Or, Byte, Hi, Lo;
    HiLo(a);
    HiLo(b);
    HiLo(c);
    FirstByte(Hi(a, 4), Lo(a, 4), Hi(b, 16));
    SecondByte(Lo(a, 4), Hi(b, 16), Lo(b, 16), Hi(c, 64));
    ThirdByte(Lo(b, 16), Hi(c, 64), Lo(c, 64));
  }

  lemma SextetsDecode(x: string)
    requires 1 <= |x| <= 3 && Bytes(x)
    ensures var v := Sextets(x);
      && v[0] <= 63 && v[1] <= 63 && (v[2] <= 63 <==> |x| > 1) && (v[3] <= 63 <==> |x| > 2)
      && Byte(Or(v[0] * 4, Hi(v[1], 16))) == x[0]
      && (|x| > 1 ==> Byte(Or(v[1] * 16, Hi(v[2], 4))) == x[1])
      && (|x| > 2 ==> Byte(Or(v[2] * 64, v[3])) == x[2])
  {
    var a, b, c := x[0] as int, if |x| > 1 then x[1] as int else 0, if |x| > 2 then x[2] as int else 0;
    SextetsAre(x, a, b, c);
    HiLo(a);
    HiLo(b);
    HiLo(c);
    hide Sextets, Or, Byte, Hi, Lo;
    BytesOf(a, b, c);
  }

  lemma SextetsAre(x: string, a: nat, b: nat, c: nat)
    requires 1 <= |x| <= 3 && a < 256 && b < 256 && c < 256
    requires x[0] as int == a && (if |x| > 1 then x[1] as int == b else b == 0)
    requires if |x| > 2 then x[2] as int == c else c == 0
    ensures Sextets(x) == [ Hi(a, 4), Lo(a, 4) * 16 + Hi(b, 16),
                            if |x| > 1 then Lo(b, 16) * 4 + Hi(c, 64) else 64, if |x| > 2 then Lo(c, 64) else 64 ]
  {
    assert a % 256 == a && b % 256 == b && c % 256 == c;
    hide Hi, Lo;
  }

  lemma GroupDecodes(x: string, s: seq<char>)
    requires 1 <= |x| <= 3 && Bytes(x) && EncodeGroup(x) <= s
    ensures Group(s)[..|x|] == x
    ensures |x| < 3 ==> RunLength(s) == |x| + 1 && (Pr2Six(s[2]) > 63 <==> |x| == 1)
    ensures |x| == 3 ==> RunLength(s) == 4 + RunLength(s[4..])
  {
    hide Pr2Six, Or, EncodeGroup, Sextets, Byte, Hi;
    EncodedSextets(x, s);
    SextetsDecode(x);
    RunOf4(s);
    var g, v := Group(s), Sextets(x);
    assert v == [v[0], v[1], v[2], v[3]];
    assert g[0] == x[0];
    assert |x| > 1 ==> g[1] == x[1];
    assert |x| > 2 ==> g[2] == x[2];
    if |x| == 1 {
      assert g[..1] == [g[0]];
    } else if |x| == 2 {
      assert g[..2] == [g[0], g[1]];
    } else {
      assert g[..3] == [g[0], g[1], g[2]];
    }
  }

  lemma RunOf4(s: seq<char>)
    requires |s| >= 4
    ensures RunLength(s) ==
      if Pr2Six(s[0]) > 63 then 0 else if Pr2Six(s[1]) > 63 then 1 else if Pr2Six(s[2]) > 63 then 2
      else if Pr2Six(s[3]) > 63 then 3 else 4 + RunLength(s[4..])
  {
    hide Pr2Six;
    assert s[1..][1..] == s[2..] && s[2..][1..] == s[3..] && s[3..][1..] == s[4..];
    assert RunLength(s[3..]) == if Pr2Six(s[3]) > 63 then 0 else 1 + RunLength(s[4..]);
    assert RunLength(s[2..]) == if Pr2Six(s[2]) > 63 then 0 else 1 + RunLength(s[3..]);
    assert RunLength(s[1..]) == if Pr2Six(s[1]) > 63 then 0 else 1 + RunLength(s[2..]);
  }

  /** The number of groups for `x`, and how many bytes the last one lacks. */
  function GroupCount(x: string): (k: nat) {
    if x == "" then 0 else if |x| <= 3 then 1 else 1 + GroupCount(x[3..])
  }

  function Lacking(x: string): (p: nat) {
    if x == "" then 0 else if |x| <= 3 then 3 - |x| else Lacking(x[3..])
  }

  /** What decoding finds in the encoding of `x` followed by other text. */
  ghost predicate Found(x: string, s: seq<char>, k: nat, p: nat) {
    && |x| == 3 * k - p && p <= 2 && |s| > 4 * k && RunLength(s) == 4 * k - p && Groups(s, k)[..|x|] == x
    && (p > 0 ==> k > 0 && (Pr2Six(s[4 * k - 2]) > 63 <==> p == 2))
  }

  lemma {:induction false} EncodedGroups(x: string, t: seq<char>)
    requires Bytes(x) && t != [] && Pr2Six(t[0]) > 63
    ensures Found(x, Encode(x) + t, GroupCount(x), Lacking(x))
    decreases |x|
  {
    if |x| <= 3 {
      FewEncoded(x, t);
    } else {
      hide *;
      var z := x[3..];
      RestIsBytes(x);
      EncodeMore(x);
      EncodedGroups(z, t);
      Regroups(EncodeGroup(x[..3]), Encode(z), t);
      FoundMore(x, Encode(x) + t, Encode(z) + t, GroupCount(z), Lacking(z));
    }
  }

  lemma RestIsBytes(x: string)
    requires |x| > 3 && Bytes(x)
    ensures Bytes(x[3..])
  {
  }

  lemma Regroups(a: seq<char>, b: seq<char>, c: seq<char>)
    ensures a + b + c == a + (b + c)
  {
  }

  lemma EncodeMore(x: string)
    requires |x| > 3
    ensures Encode(x) == EncodeGroup(x[..3]) + Encode(x[3..])
    ensures GroupCount(x) == 1 + GroupCount(x[3..]) && Lacking(x) == Lacking(x[3..])
  {
  }

  lemma FewEncoded(x: string, t: seq<char>)
    requires |x| <= 3 && Bytes(x) && t != [] && Pr2Six(t[0]) > 63
    ensures Found(x, Encode(x) + t, GroupCount(x), Lacking(x))
  {
    if x == "" {
      assert Encode(x) + t == t;
    } else {
      FoundOne(x, Encode(x) + t, t);
      hide Found;
    }
  }

  lemma FoundOne(x: string, s: seq<char>, t: seq<char>)
    requires 1 <= |x| <= 3 && Bytes(x) && t != [] && Pr2Six(t[0]) > 63 && s == EncodeGroup(x) + t
    ensures Found(x, s, 1, 3 - |x|)
  {
    hide Pr2Six, Group, EncodeGroup;
    GroupDecodes(x, s);
    GroupsLeft(s, 0);
    assert Group(s) + Groups(s[4..], 0) == Group(s);
    assert s[4..] == t;
  }

  lemma FoundMore(x: string, s: seq<char>, s': seq<char>, k: nat, p: nat)
    requires Bytes(x) && |x| > 3 && Found(x[3..], s', k, p) && s == EncodeGroup(x[..3]) + s'
    ensures Found(x, s, k + 1, p)
  {
    var y, z := x[..3], x[3..];
    hide Pr2Six, Group, EncodeGroup, Groups, RunLength;
    assert s[4..] == s';
    GroupDecodes(y, s);
    GroupsLeft(s, k);
    FirstThree(x, Group(s), Groups(s', k));
    assert p > 0 ==> s[4 * (k + 1) - 2] == s'[4 * k - 2];
  }

  lemma FirstThree(x: string, g: string, g': string)
    requires |x| > 3 && |g| == 3 && g[..3] == x[..3] && |x| - 3 <= |g'| && g'[..|x| - 3] == x[3..]
    ensures (g + g')[..|x|] == x
  {
    assert (g + g')[..|x|] == g + g'[..|x| - 3];
    assert g == g[..3] && x == x[..3] + x[3..];
  }

  // ---------- What is written ----------

  /** Every store lands in a buffer of `outbufsize` characters: the groups, and the NUL behind the count. */
  predicate InBounds(s: seq<char>, outbufsize: nat)
    requires 4 * Rounds(Taken(s, outbufsize)) <= |s|
  {
    3 * Rounds(Taken(s, outbufsize)) <= outbufsize && Count(s, outbufsize) < outbufsize
  }

  /** What the decoder leaves: the count it returns; whether a store went outside the buffer `b`; else the
      decoded bytes and the NUL.  A group's bytes behind the NUL stay. */
  ghost predicate Decoded(s: seq<char>, b: seq<char>, count: nat, outside: bool)
    requires 4 * Rounds(Taken(s, |b|)) <= |s|
  {
    var g := Groups(s, Rounds(Taken(s, |b|)));
    && count == Count(s, |b|) && (outside <==> !InBounds(s, |b|))
    && (!outside ==> count < |b| && b[count] == '\0'
                     && forall i | 0 <= i < |g| :: i < |b| && (i != count ==> b[i] == g[i]))
  }

  /** The length of the alphabet run alone says whether the stores stay inside: its groups must fit, and
      leave room for the NUL or end in an unfinished one. */
  predicate RunFits(n: nat, outbufsize: nat) {
    var whole := (n + 3) / 4 * 3;
    whole < outbufsize || (whole == outbufsize && n % 4 != 0)
  }

  /** Main result: on any text, the stores stay inside the buffer if and only if the run fits. */
  lemma StaysInside(s: seq<char>, outbufsize: nat)
    requires 4 * Rounds(Taken(s, outbufsize)) <= |s|
    ensures InBounds(s, outbufsize) <==> RunFits(RunLength(s), outbufsize)
  {
    var n := RunLength(s);
    hide Pr2Six, RunLength, Rounds;
    var k := (n + 3) / 4;
    if 3 * k > outbufsize {
      WholeTaken(outbufsize);
      CutGoesOutside(s, outbufsize);
    } else {
      RoundsOf(n, k);
      assert Taken(s, outbufsize) == n;
    }
  }

  lemma CutGoesOutside(s: seq<char>, o: nat)
    requires (RunLength(s) + 3) / 4 * 3 > o && 4 * Rounds(o * 4 / 3) <= |s|
    requires 3 * Rounds(o * 4 / 3) >= o && (3 * Rounds(o * 4 / 3) == o ==> o * 4 / 3 % 4 == 0)
    ensures 4 * Rounds(Taken(s, o)) <= |s| && !InBounds(s, o)
  {
    hide Pr2Six, RunLength, Rounds;
    assert Taken(s, o) == o * 4 / 3;
    hide Taken;
  }

  /** When the size cuts the text short, the last group or the NUL goes outside. */
  lemma WholeTaken(o: nat)
    ensures var t := o * 4 / 3; 3 * Rounds(t) >= o && (3 * Rounds(t) == o ==> t % 4 == 0)
  {
    var m := o / 3;
    if o == 3 * m {
      assert o * 4 / 3 == 4 * m;
      RoundsOf(4 * m, m);
    } else if o == 3 * m + 1 {
      assert o * 4 / 3 == 4 * m + 1;
      RoundsOf(4 * m + 1, m + 1);
    } else {
      assert o * 4 / 3 == 4 * m + 2;
      RoundsOf(4 * m + 2, m + 1);
    }
  }

  /** Bytes whose groups fit, with room for the NUL. */
  predicate Fits(n: nat, outbufsize: nat) {
    (n + 2) / 3 * 3 <= outbufsize && n < outbufsize
  }

  /** An encoding stays inside the buffer if and only if its bytes fit. */
  lemma EncodingFits(x: string, t: seq<char>, outbufsize: nat)
    requires Bytes(x) && t != [] && Pr2Six(t[0]) > 63
    ensures 4 * Rounds(Taken(Encode(x) + t, outbufsize)) <= |Encode(x) + t|
    ensures InBounds(Encode(x) + t, outbufsize) <==> Fits(|x|, outbufsize)
  {
    hide *;
    EncodingIsLong(x, t, outbufsize);
    EncodedGroups(x, t);
    FoundFits(x, Encode(x) + t, GroupCount(x), Lacking(x), outbufsize);
  }

  lemma FoundFits(x: string, s: seq<char>, k: nat, p: nat, o: nat)
    requires Found(x, s, k, p) && 4 * Rounds(Taken(s, o)) <= |s|
    ensures InBounds(s, o) <==> Fits(|x|, o)
  {
    StaysInside(s, o);
    SameFit(k, p, o);
    hide Pr2Six, Groups, RunLength, Rounds, Taken, InBounds, RunFits, Fits;
  }

  lemma SameFit(k: nat, p: nat, o: nat)
    requires p <= 2 && (p > 0 ==> k > 0)
    ensures RunFits(4 * k - p, o) <==> Fits(3 * k - p, o)
  {
    LettersOf(k, p);
  }

  /** Main result: the standard encoding of `x`, which the text after it ends, is decoded into the buffer
      with no store outside it, if and only if `x` fits; then the buffer holds exactly those bytes
      and a NUL, and their number is returned. */
  lemma Base64RoundTrip(x: string, t: seq<char>, b: seq<char>, count: nat, outside: bool)
    requires Bytes(x) && t != [] && Pr2Six(t[0]) > 63
    requires 4 * Rounds(Taken(Encode(x) + t, |b|)) <= |Encode(x) + t|
    requires Decoded(Encode(x) + t, b, count, outside)
    ensures !outside <==> Fits(|x|, |b|)
    ensures !outside ==> count == |x| && b[..|x|] == x && b[|x|] == '\0'
  {
    var s, k, p := Encode(x) + t, GroupCount(x), Lacking(x);
    EncodingFits(x, t, |b|);
    if !outside {
      EncodedGroups(x, t);
      DivisionsOf(x, s, k, p);
      hide Pr2Six, Groups, RunLength, Encode, GroupCount, Lacking, Rounds, Taken, Count, InBounds;
      FoundAll(x, s, k, p, |b|);
      BytesStand(x, Groups(s, k), b, count);
    }
  }

  lemma BytesStand(x: string, g: string, b: seq<char>, count: nat)
    requires count == |x| <= |g| && g[..|x|] == x && count < |b|
    requires forall i | 0 <= i < |g| :: i < |b| && (i != count ==> b[i] == g[i])
    ensures b[..|x|] == x
  {
    forall i | 0 <= i < |x| ensures b[i] == x[i] {
      assert x[i] == g[..|x|][i] == g[i];
    }
  }

  /** What the groups of an encoding that fits begin with. */
  lemma PlainOf(x: string, t: seq<char>, outbufsize: nat)
    requires Bytes(x) && t != [] && Pr2Six(t[0]) > 63 && Fits(|x|, outbufsize)
    ensures var s := Encode(x) + t; var k := Rounds(Taken(s, outbufsize));
      4 * k <= |s| && Count(s, outbufsize) == |x| <= 3 * k && Groups(s, k)[..|x|] == x
  {
    EncodedGroups(x, t);
    DivisionsOf(x, Encode(x) + t, GroupCount(x), Lacking(x));
    hide Pr2Six, Groups, RunLength, Encode, GroupCount, Lacking, Rounds, Taken, Count;
    FoundAll(x, Encode(x) + t, GroupCount(x), Lacking(x), outbufsize);
  }

  /** The decoder finds the encoding behind any blanks. */
  lemma {:induction false} BlanksSkipped(w: string, x: string, t: seq<char>)
    requires (forall k | 0 <= k < |w| :: w[k] == ' ' || w[k] == '\t') && t != []
    requires x != "" || (t[0] != ' ' && t[0] != '\t')
    ensures var coded := w + (Encode(x) + t); coded[SkipBlanks(coded)..] == Encode(x) + t
  {
    var e := Encode(x) + t;
    var coded := w + e;
    if w == "" {
      FirstLetter(x);
      assert coded == e && (x != "" ==> e[0] == Encode(x)[0]);
      assert coded[0..] == coded;
    } else {
      assert coded[1..] == w[1..] + e;
      BlanksSkipped(w[1..], x, t);
      assert coded[SkipBlanks(coded)..] == coded[1..][SkipBlanks(coded[1..])..];
    }
  }

  lemma FirstLetter(x: string)
    ensures x != "" ==> Encode(x) != "" && Encode(x)[0] != ' ' && Encode(x)[0] != '\t'
  {
    if x != "" {
      var v := Sextets(if |x| <= 3 then x else x[..3]);
      hide Sextets;
      assert Encode(x)[0] == Letter(v[0]);
    }
  }

  /** The text of an encoding is long enough for the groups that are read. */
  lemma EncodingIsLong(x: string, t: seq<char>, outbufsize: nat)
    requires Bytes(x) && t != [] && Pr2Six(t[0]) > 63
    ensures 4 * Rounds(Taken(Encode(x) + t, outbufsize)) <= |Encode(x) + t|
  {
    var s, k, p := Encode(x) + t, GroupCount(x), Lacking(x);
    EncodedGroups(x, t);
    DivisionsOf(x, s, k, p);
    RoundsOf(RunLength(s), k);
    hide Pr2Six, Groups, RunLength, Encode, GroupCount, Lacking, Rounds;
    if 3 * k > outbufsize {
      ShortTaken(k, outbufsize);
    }
  }

  /** The buffer httpdReadRequest decodes credentials into. */
  const AUTH_BUF_LEN: nat := 100

  /** Concretely: credentials of a hundred characters or more make it write outside that buffer, shorter
      ones never do. */
  lemma LongCredentialsOverrun(x: string, t: seq<char>)
    requires Bytes(x) && t != [] && Pr2Six(t[0]) > 63
    ensures 4 * Rounds(Taken(Encode(x) + t, AUTH_BUF_LEN)) <= |Encode(x) + t|
    ensures !InBounds(Encode(x) + t, AUTH_BUF_LEN) <==> |x| >= AUTH_BUF_LEN
  {
    EncodingFits(x, t, AUTH_BUF_LEN);
    hide *;
    assert Fits(|x|, AUTH_BUF_LEN) <==> |x| < AUTH_BUF_LEN by { HundredFit(|x|); }
  }

  lemma HundredFit(n: nat)
    ensures Fits(n, AUTH_BUF_LEN) <==> n < AUTH_BUF_LEN
  {
  }

  /** Not even one byte fits where there is room for one: three are written. */
  lemma OneByteOverruns(x: string, t: seq<char>)
    requires |x| == 1 && Bytes(x) && t != [] && Pr2Six(t[0]) > 63
    ensures 3 * Rounds(Taken(Encode(x) + t, 1)) == 3
  {
    EncodedGroups(x, t);
    hide Pr2Six, Groups, RunLength, Encode;
    assert GroupCount(x) == 1 && Lacking(x) == 2;
    assert RunLength(Encode(x) + t) == 2;
    RoundsOf(1, 1);
  }

  lemma ShortTaken(k: nat, o: nat)
    requires o < 3 * k
    ensures Rounds(o * 4 / 3) <= k
    ensures o + 2 >= 3 * k ==> Rounds(o * 4 / 3) == k && o * 4 / 3 % 4 != 0
    ensures o + 2 < 3 * k ==> Rounds(o * 4 / 3) < k
  {
    if o + 2 == 3 * k {
      assert o * 4 / 3 == 4 * k - 3;
    } else if o + 1 == 3 * k {
      assert o * 4 / 3 == 4 * k - 2;
    } else {
      assert o * 4 / 3 <= 4 * (k - 1);
    }
  }

  lemma RoundsOf(r: nat, k: nat)
    requires (r + 3) / 4 == k
    ensures Rounds(r) == k
  {
  }

  lemma FoundAll(x: string, s: seq<char>, k: nat, p: nat, outbufsize: nat)
    requires Found(x, s, k, p) && 3 * k <= outbufsize
    requires (RunLength(s) + 3) / 4 == k && (RunLength(s) % 4 == 0 <==> p == 0)
    ensures Rounds(Taken(s, outbufsize)) == k && 4 * k < |s| && Count(s, outbufsize) == |x|
  {
    hide Pr2Six, Groups, RunLength, Rounds;
    assert Taken(s, outbufsize) == RunLength(s);
    RoundsOf(RunLength(s), k);
  }

  lemma Quarter(x: nat, q: nat)
    requires 4 * q <= x < 4 * q + 4
    ensures x / 4 == q && x % 4 == x - 4 * q
  {
  }

  lemma Third(x: nat, q: nat)
    requires 3 * q <= x < 3 * q + 3
    ensures x / 3 == q && x % 3 == x - 3 * q
  {
  }

  lemma LettersOf(k: nat, p: nat)
    requires p <= 2 && (p > 0 ==> k > 0)
    ensures (4 * k - p + 3) / 4 == k && ((4 * k - p) % 4 == 0 <==> p == 0) && (3 * k - p + 2) / 3 == k
    ensures (3 * k - p) % 3 == 0 <==> p == 0
  {
    Quarter(4 * k - p + 3, k);
    Third(3 * k - p + 2, k);
    if p == 0 {
      Quarter(4 * k, k);
      Third(3 * k, k);
    } else {
      Quarter(4 * k - p, k - 1);
      Third(3 * k - p, k - 1);
    }
  }

  lemma DivisionsOf(x: string, s: seq<char>, k: nat, p: nat)
    requires Found(x, s, k, p)
    ensures (RunLength(s) + 3) / 4 == k && (RunLength(s) % 4 == 0 <==> p == 0) && (|x| + 2) / 3 == k
    ensures |x| % 3 == 0 <==> p == 0
  {
    LettersOf(k, p);
    hide Pr2Six, Groups, RunLength;
  }

  // ---------- The procedure ----------

  lemma {:induction false} BlanksThen(s: seq<char>, k: nat)
    requires k <= SkipBlanks(s)
    ensures SkipBlanks(s) == k + SkipBlanks(s[k..])
    ensures k < SkipBlanks(s) <==> k < |s| && (s[k] == ' ' || s[k] == '\t')
  {
    if k > 0 {
      BlanksThen(s[1..], k - 1);
      assert s[1..][k - 1..] == s[k..];
    } else {
      assert s[0..] == s;
    }
  }

  lemma {:induction false} RunThen(s: seq<char>, k: nat)
    requires k <= RunLength(s)
    ensures k < RunLength(s) <==> k < |s| && Pr2Six(s[k]) <= 63
  {
    if k > 0 {
      RunThen(s[1..], k - 1);
    }
  }

  /** _httpd_decode.  The code does not test its stores; here a store outside the buffer is left out and
      reported.  The text must go on behind its alphabet run as far as the last group is read. */
  method HttpdDecode(coded: seq<char>, bufplain: array<char>) returns (nbytesdecoded: nat, outside: bool)
    requires
      var s := coded[SkipBlanks(coded)..];
      RunLength(s) < |s| && 4 * Rounds(Taken(s, bufplain.Length)) <= |s|
    modifies bufplain
    ensures Decoded(coded[SkipBlanks(coded)..], bufplain[..], nbytesdecoded, outside)
  {
    hide Groups, Pr2Six, RunLength, SkipBlanks, Rounds;
    var outbufsize := bufplain.Length;
    var start := 0;
    while coded[start] == ' ' || coded[start] == '\t'
      invariant start <= SkipBlanks(coded)
      decreases SkipBlanks(coded) - start
    {
      BlanksThen(coded, start);
      start := start + 1;
    }
    BlanksThen(coded, start);
    var s := coded[start..];
    var nprbytes: int := RunEnd(s);
    nbytesdecoded := (nprbytes + 3) / 4 * 3;
    if nbytesdecoded > outbufsize {
      nprbytes := outbufsize * 4 / 3;
    }
    assert nprbytes == Taken(s, outbufsize);
    var bufin;
    bufin, outside := DecodeGroups(s, nprbytes, bufplain);
    ghost var b := bufplain[..];
    nbytesdecoded := LessPadding(s, nprbytes, bufin, nbytesdecoded);
    assert nbytesdecoded == Count(s, outbufsize);
    hide Taken, Count, Decoded;
    if nbytesdecoded < outbufsize {
      bufplain[nbytesdecoded] := '\0';
    } else {
      outside := true;
    }
    DecodedIs(s, b, bufplain[..], nbytesdecoded, outside);
  }

  /** The count without what an unfinished last group lacks. */
  method LessPadding(s: seq<char>, taken: nat, bufin: nat, all: nat) returns (count: int)
    requires bufin == 4 * Rounds(taken) <= |s|
    ensures count == if taken % 4 == 0 then all else if Pr2Six(s[4 * Rounds(taken) - 2]) > 63 then all - 2 else all - 1
  {
    hide Pr2Six;
    SameRest(taken, Rounds(taken));
    hide Rounds;
    count := all;
    var nprbytes := taken - bufin;
    if nprbytes % 4 != 0 {
      if Pr2Six(s[bufin - 2]) > 63 {
        count := count - 2;
      } else {
        count := count - 1;
      }
    }
  }

  lemma DecodedIs(s: seq<char>, b: seq<char>, b': seq<char>, count: nat, outside: bool)
    requires |b'| == |b| && 4 * Rounds(Taken(s, |b|)) <= |s| && count == Count(s, |b|)
    requires Kept(b, Groups(s, Rounds(Taken(s, |b|))))
    requires b' == if count < |b| then b[count := '\0'] else b
    requires outside <==> 3 * Rounds(Taken(s, |b|)) > |b| || count >= |b|
    ensures Decoded(s, b', count, outside)
  {
    hide Groups, Pr2Six, RunLength, Rounds, Taken, Count;
  }

  lemma SameRest(n: int, k: int)
    ensures (n - 4 * k) % 4 == n % 4
    ensures n % 4 != 0 && k == Rounds(n) && n >= 0 ==> k > 0
  {
  }

  /** How many characters of the alphabet come first. */
  method RunEnd(s: seq<char>) returns (nprbytes: nat)
    requires RunLength(s) < |s|
    ensures nprbytes == RunLength(s)
  {
    hide Pr2Six;
    nprbytes := 0;
    RunThen(s, 0);
    while Pr2Six(s[nprbytes]) <= 63
      invariant nprbytes <= RunLength(s)
      decreases RunLength(s) - nprbytes
    {
      RunThen(s, nprbytes);
      nprbytes := nprbytes + 1;
    }
    RunThen(s, nprbytes);
  }

  /** As much of `g` as there is room for stands at the start of `b`. */
  ghost predicate Kept(b: seq<char>, g: seq<char>) {
    forall i | 0 <= i < |g| :: i < |b| ==> b[i] == g[i]
  }

  /** The decoding loop: how many characters it has passed, and whether it wrote outside the buffer. */
  method DecodeGroups(s: seq<char>, taken: nat, bufplain: array<char>) returns (bufin: nat, outside: bool)
    requires 4 * Rounds(taken) <= |s|
    modifies bufplain
    ensures bufin == 4 * Rounds(taken) && (outside <==> 3 * Rounds(taken) > bufplain.Length)
    ensures Kept(bufplain[..], Groups(s, Rounds(taken)))
  {
    hide Pr2Six, Kept;
    bufin := 0;
    outside := false;
    var bufout := 0;
    var nprbytes: int := taken;
    ghost var k := 0;
    NothingKept(bufplain[..]);
    while nprbytes > 0
      invariant bufin == 4 * k && bufout == 3 * k && nprbytes == taken - bufin && k <= Rounds(taken)
      invariant nprbytes <= 0 ==> k == Rounds(taken)
      invariant outside <==> bufout > bufplain.Length
      invariant Kept(bufplain[..], Groups(s, k))
    {
      assert k < Rounds(taken);
      assert Groups(s, k + 1) == Groups(s, k) + Group(s[4 * k..]);
      var out := PutGroup(s, bufin, bufplain, bufout, Groups(s, k));
      outside := outside || out;
      bufout := bufout + 3;
      bufin := bufin + 4;
      nprbytes := nprbytes - 4;
      k := k + 1;
    }
  }

  lemma NothingKept(b: seq<char>)
    ensures Kept(b, "")
  {
  }

  /** One store, if it lands in the buffer. */
  method Put(bufplain: array<char>, at: nat, c: char, ghost g: seq<char>) returns (outside: bool)
    requires at == |g| && Kept(bufplain[..], g)
    modifies bufplain
    ensures Kept(bufplain[..], g + [c]) && (outside <==> at >= bufplain.Length)
  {
    outside := at >= bufplain.Length;
    if !outside {
      bufplain[at] := c;
    }
  }

  method PutGroup(s: seq<char>, bufin: nat, bufplain: array<char>, bufout: nat, ghost g: seq<char>)
      returns (outside: bool)
    requires bufin + 4 <= |s| && bufout == |g| && Kept(bufplain[..], g)
    modifies bufplain
    ensures Kept(bufplain[..], g + Group(s[bufin..])) && (outside <==> bufout + 3 > bufplain.Length)
  {
    hide Pr2Six, Or, Byte, Kept;
    var a := Byte(Or(Pr2Six(s[bufin]) * 4, Hi(Pr2Six(s[bufin + 1]), 16)));
    var b := Byte(Or(Pr2Six(s[bufin + 1]) * 16, Hi(Pr2Six(s[bufin + 2]), 4)));
    var c := Byte(Or(Pr2Six(s[bufin + 2]) * 64, Pr2Six(s[bufin + 3])));
    outside := Put(bufplain, bufout, a, g);
    outside := Put(bufplain, bufout + 1, b, g + [a]);
    outside := Put(bufplain, bufout + 2, c, g + [a] + [b]);
    assert g + Group(s[bufin..]) == g + [a] + [b] + [c];
  }
}
