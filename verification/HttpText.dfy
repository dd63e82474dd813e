/** The percent codec of libhttpd/protocol.c.  A character is a byte: its code is below 256. */
module HttpText {
  import opened Sanitiser

  ghost predicate Bytes(s: string) {
    forall k | 0 <= k < |s| :: s[k] as int < 256
  }

  ghost predicate NoNul(s: string) {
    forall k | 0 <= k < |s| :: s[k] != '\0'
  }

  // ---------- Encoding ----------

  /** The table isAcceptable under the mask URL_XPALPHAS, without `&`. */
  predicate Acceptable(c: char) {
    var a := c as int;
    || a == 0x21 || a == 0x22 || a == 0x24 || 0x27 <= a <= 0x2e
    || 0x30 <= a <= 0x39 || 0x40 <= a <= 0x5a || a == 0x5f || 0x61 <= a <= 0x7a
  }

  function HexDigit(n: nat): (c: char)
    requires n < 16
  {
    if n < 10 then (48 + n) as char else (55 + n) as char
  }

  function EscapeChar(c: char): (r: string)
    ensures 1 <= |r| <= 3
  {
    if Acceptable(c) then [c]
    else ['%', HexDigit(c as int / 16 % 16), HexDigit(c as int % 16)]
  }

  function Escape(s: string): (r: string)
    ensures |s| <= |r|
  {
    if s == "" then "" else EscapeChar(s[0]) + Escape(s[1..])
  }

  lemma {:induction false} EscapeMore(s: string, c: char)
    ensures Escape(s + [c]) == Escape(s) + EscapeChar(c)
  {
    if s == "" {
      assert [c][1..] == "" && "" + [c] == [c];
      assert Escape([c]) == EscapeChar(c) + Escape("");
    } else {
      assert (s + [c])[1..] == s[1..] + [c];
      EscapeMore(s[1..], c);
    }
  }

  /** Twice the number of characters of `s` that are escaped. */
  function Unacceptable(s: string): (n: nat)
    ensures |s| + n == |Escape(s)|
  {
    if s == "" then 0 else (if Acceptable(s[0]) then 0 else 2) + Unacceptable(s[1..])
  }

  lemma {:induction false} EscapeSplits(s: string, k: nat)
    requires k <= |s|
    ensures Escape(s) == Escape(s[..k]) + Escape(s[k..])
  {
    hide EscapeChar;
    if k == 0 {
      assert s[0..] == s && s[..0] == "";
      assert "" + Escape(s) == Escape(s);
    } else {
      EscapeSplits(s[1..], k - 1);
      assert s[..k][1..] == s[1..][..k - 1];
      assert s[1..][k - 1..] == s[k..];
      assert EscapeChar(s[0]) + (Escape(s[1..][..k - 1]) + Escape(s[k..]))
          == EscapeChar(s[0]) + Escape(s[1..][..k - 1]) + Escape(s[k..]);
    }
  }

  /** _httpd_escape: the buffer has exactly the room that the first loop counted. */
  method HttpdEscape(str: string) returns (result: array<char>)
    requires Bytes(str) && NoNul(str)
    ensures fresh(result) && result[..] == Escape(str) + ['\0']
  {
    var unacceptable := 0;
    for p := 0 to |str|
      invariant unacceptable + p == |Escape(str[..p])|
    {
      EscapeFits(str, p);
      if !Acceptable(str[p]) {
        unacceptable := unacceptable + 2;
      }
    }
    assert str[..|str|] == str;
    result := new char[|str| + unacceptable + 1](_ => '\0');
    var q := 0;
    for p := 0 to |str|
      invariant q == |Escape(str[..p])| < result.Length == |Escape(str)| + 1
      invariant result[..q] == Escape(str[..p])
    {
      EscapeFits(str, p);
      q := EscapeOne(result, q, str[p]);
    }
    result[q] := '\0';
    assert result[..] == result[..q] + [result[q]];
  }

  lemma EscapeFits(str: string, p: nat)
    requires p < |str|
    ensures Escape(str[..p + 1]) == Escape(str[..p]) + EscapeChar(str[p])
    ensures |Escape(str[..p + 1])| <= |Escape(str)|
  {
    assert str[..p + 1] == str[..p] + [str[p]];
    EscapeMore(str[..p], str[p]);
    EscapeSplits(str, p + 1);
  }

  /** The body of the second loop. */
  method EscapeOne(result: array<char>, q: nat, a: char) returns (q': nat)
    requires a as int < 256 && q + |EscapeChar(a)| < result.Length
    modifies result
    ensures q' == q + |EscapeChar(a)|
    ensures result[..q'] == old(result[..q]) + EscapeChar(a)
  {
    q' := q;
    if !Acceptable(a) {
      result[q'] := '%';
      result[q' + 1] := HexDigit(a as int / 16);
      result[q' + 2] := HexDigit(a as int % 16);
      q' := q' + 3;
    } else {
      result[q'] := a;
      q' := q' + 1;
    }
    assert result[q..q'] == EscapeChar(a);
    assert result[..q'] == result[..q] + result[q..q'];
  }

  // ---------- Decoding ----------

  /** _httpd_from_hex, as the byte it is stored in. */
  function FromHexByte(c: char): (n: nat)
    ensures n < 256
  {
    var a := c as int;
    if 0x30 <= a <= 0x39 then a - 0x30
    else if 0x41 <= a <= 0x46 then a - 0x41 + 10
    else (a - 0x61 + 10) % 256
  }

  function HighNibble(c: char): (r: char) { (FromHexByte(c) * 16 % 256) as char }
  function BothNibbles(c: char, d: char): (r: char) {
    ((FromHexByte(c) * 16 + FromHexByte(d)) % 256) as char
  }

  /** _httpd_unescape over the text `s`: `p` characters are read, `out` is written over the start.  A `%`
      that ends the text leaves what stands in the place it should fill. */
  function UnescapeFrom(s: string, p: nat, out: string): (r: string)
    requires |out| <= p <= |s|
    ensures |r| <= |s|
    decreases |s| - p
  {
    if p == |s| then out
    else if s[p] == '%' then
      if p + 1 == |s| then out + [s[|out|]]
      else if p + 2 == |s| then out + [HighNibble(s[p + 1])]
      else UnescapeFrom(s, p + 3, out + [BothNibbles(s[p + 1], s[p + 2])])
    else UnescapeFrom(s, p + 1, out + [if s[p] == '+' then ' ' else s[p]])
  }

  function Unescape(s: string): (r: string)
    ensures |r| <= |s|
  {
    UnescapeFrom(s, 0, "")
  }

  /** The same for a text whose every `%` has two characters after it: one that needs no history. */
  function Decode(s: string): (r: string) {
    if s == "" then ""
    else if s[0] == '%' then
      if |s| < 3 then "" else [BothNibbles(s[1], s[2])] + Decode(s[3..])
    else [if s[0] == '+' then ' ' else s[0]] + Decode(s[1..])
  }

  /** No escape is cut short at the end. */
  predicate WholeEscapes(s: string) {
    if s == "" then true
    else if s[0] == '%' then |s| >= 3 && WholeEscapes(s[3..])
    else WholeEscapes(s[1..])
  }

  lemma DecodeOnce(s: string)
    requires s != "" && WholeEscapes(s)
    ensures if s[0] == '%'
            then |s| >= 3 && WholeEscapes(s[3..]) && Decode(s) == [BothNibbles(s[1], s[2])] + Decode(s[3..])
            else WholeEscapes(s[1..]) && Decode(s) == [if s[0] == '+' then ' ' else s[0]] + Decode(s[1..])
  {
  }

  lemma {:induction false} UnescapeIsDecode(s: string, p: nat, out: string)
    requires |out| <= p <= |s| && WholeEscapes(s[p..])
    ensures UnescapeFrom(s, p, out) == out + Decode(s[p..])
    decreases |s| - p
  {
    var r := s[p..];
    if p == |s| {
      assert Decode(r) == "" && out + "" == out;
    } else {
      DecodeOnce(r);
      UnescapeOnce(s, p, out);
      hide UnescapeFrom, Decode, WholeEscapes, BothNibbles, HighNibble;
      var escaped := s[p] == '%';
      var n := if escaped then 3 else 1;
      assert r[n..] == s[p + n..];
      var c := if escaped then BothNibbles(s[p + 1], s[p + 2]) else if s[p] == '+' then ' ' else s[p];
      UnescapeIsDecode(s, p + n, out + [c]);
      Regroups(out, c, Decode(r[n..]));
    }
  }

  lemma Regroups(out: string, c: char, rest: string)
    ensures out + [c] + rest == out + ([c] + rest)
  {
  }

  function PlusToSpace(s: string): (r: string)
    ensures |r| == |s|
    ensures forall k | 0 <= k < |s| :: r[k] == if s[k] == '+' then ' ' else s[k]
  {
    if s == "" then "" else [if s[0] == '+' then ' ' else s[0]] + PlusToSpace(s[1..])
  }

  lemma HexValue(n: nat)
    requires n < 16
    ensures FromHexByte(HexDigit(n)) == n
  {
  }

  lemma HexPair(c: char)
    requires c as int < 256
    ensures BothNibbles(HexDigit(c as int / 16 % 16), HexDigit(c as int % 16)) == c
  {
    var a := c as int;
    HexValue(a / 16 % 16);
    HexValue(a % 16);
    hide HexDigit, FromHexByte;
    assert a / 16 % 16 == a / 16 && a / 16 * 16 + a % 16 == a;
  }

  lemma {:induction false} DecodeEscape(s: string)
    requires Bytes(s)
    ensures WholeEscapes(Escape(s)) && Decode(Escape(s)) == PlusToSpace(s)
  {
    if s != "" {
      var c, r := s[0], Escape(s[1..]);
      DecodeEscape(s[1..]);
      var e := EscapeChar(c) + r;
      if Acceptable(c) {
        assert e[1..] == r;
      } else {
        HexPair(c);
        assert e[3..] == r;
      }
    }
  }

  /** Main result: decoding what the encoder made gives the text back, `+` read as a space. */
  lemma CodecRoundTrip(s: string)
    requires Bytes(s)
    ensures Unescape(Escape(s)) == PlusToSpace(s)
    ensures Unescape(Escape(s)) == s <==> '+' !in s
  {
    DecodeEscape(s);
    PlusChanges(s);
    hide Decode, PlusToSpace, UnescapeFrom, WholeEscapes;
    var e := Escape(s);
    hide Escape;
    assert e[0..] == e;
    UnescapeIsDecode(e, 0, "");
    assert "" + Decode(e) == Decode(e);
  }

  lemma PlusChanges(s: string)
    ensures PlusToSpace(s) == s <==> '+' !in s
  {
    if '+' in s {
      var k :| 0 <= k < |s| && s[k] == '+';
      assert PlusToSpace(s)[k] == ' ';
    } else {
      assert PlusToSpace(s) == s;
    }
  }

  /** The characters an encoded text is made of: none that splits a request line, a path or a query. */
  predicate Plain(c: char) {
    (Acceptable(c) || c == '%') && c != '\0' && c != '/' && c != '?' && c != '=' && c != '&' && c != ' '
  }

  lemma {:induction false} EscapeIsPlain(s: string, k: nat)
    requires k < |Escape(s)|
    ensures Plain(Escape(s)[k])
  {
    var e := EscapeChar(s[0]);
    if k >= |e| {
      assert Escape(s)[k] == Escape(s[1..])[k - |e|];
      EscapeIsPlain(s[1..], k - |e|);
    } else {
      assert Escape(s)[k] == e[k];
    }
  }

  // ---------- In place ----------

  /** The text that begins at `at`. */
  function TextAt(b: seq<char>, at: nat): (s: string) {
    if at <= |b| then CString(b[at..]) else ""
  }

  lemma TextAtHolds(b: seq<char>, at: nat)
    requires at <= |b| && Terminated(b[at..])
    ensures var s := TextAt(b, at);
      && at + |s| < |b| && b[at + |s|] == '\0' && NoNul(s)
      && b[at..at + |s|] == s && (forall i | at <= i < at + |s| :: b[i] == s[i - at] != '\0')
  {
    var s := TextAt(b, at);
    TextEnds(b, at);
    TextNoNul(b, at);
    hide CString, Terminated, TextAt, NoNul;
    forall i | at <= i < at + |s| ensures b[i] == s[i - at] != '\0' {
      CharAt(b, at, i);
    }
    SliceIs(b, at, s);
  }

  lemma TextNoNul(b: seq<char>, at: nat)
    requires at <= |b|
    ensures NoNul(TextAt(b, at))
  {
    forall k | 0 <= k < |TextAt(b, at)| ensures TextAt(b, at)[k] != '\0' {
      CharAt(b, at, at + k);
    }
  }

  lemma TextEnds(b: seq<char>, at: nat)
    requires at <= |b| && Terminated(b[at..])
    ensures at + |TextAt(b, at)| < |b| && b[at + |TextAt(b, at)|] == '\0'
  {
    CStringAt(b[at..], |TextAt(b, at)|);
  }

  lemma SliceIs(b: seq<char>, at: nat, s: string)
    requires at + |s| <= |b| && (forall i | at <= i < at + |s| :: b[i] == s[i - at])
    ensures b[at..at + |s|] == s
  {
  }

  lemma CharAt(b: seq<char>, at: nat, i: nat)
    requires at <= i < at + |TextAt(b, at)| && at <= |b|
    ensures i < |b| && b[i] == TextAt(b, at)[i - at] != '\0'
  {
    CStringAt(b[at..], i - at);
    assert b[at..][i - at] == b[i];
  }

  lemma TextAtIs(b: seq<char>, at: nat, s: string)
    requires at + |s| < |b| && b[at + |s|] == '\0' && NoNul(s) && b[at..at + |s|] == s
    ensures TextAt(b, at) == s
  {
    assert '\0' !in s;
    assert b[at..] == s + ['\0'] + b[at + |s| + 1..];
    CStringOf(s, b[at..]);
  }

  lemma UnescapeOnce(s: string, p: nat, out: string)
    requires |out| <= p < |s|
    ensures UnescapeFrom(s, p, out) ==
      if s[p] == '%' then
        (if p + 1 == |s| then out + [s[|out|]]
         else if p + 2 == |s| then out + [HighNibble(s[p + 1])]
         else UnescapeFrom(s, p + 3, out + [BothNibbles(s[p + 1], s[p + 2])]))
      else UnescapeFrom(s, p + 1, out + [if s[p] == '+' then ' ' else s[p]])
    ensures UnescapeFrom(s, |s|, out) == out
  {
  }

  lemma NibblesAdd(c: char, d: char)
    ensures ((HighNibble(c) as int + FromHexByte(d)) % 256) as char == BothNibbles(c, d)
  {
    var h, l := FromHexByte(c), FromHexByte(d);
    WrapAdd(h * 16, l);
    hide FromHexByte;
    assert HighNibble(c) as int == h * 16 % 256;
  }

  lemma WrapAdd(x: nat, y: nat)
    ensures (x % 256 + y) % 256 == (x + y) % 256
  {
    var q, m := x / 256, x % 256 + y;
    assert x + y == 256 * q + m;
    assert m == 256 * (m / 256) + m % 256;
    assert x + y == 256 * (q + m / 256) + m % 256;
  }

  /** The `%` branch of _httpd_unescape. */
  method Percent(a: array<char>, q: nat, p: nat) returns (p': nat)
    requires q <= p && p + 1 < a.Length && (a[p + 1] != '\0' ==> p + 2 < a.Length)
    modifies a
    ensures forall i | 0 <= i < a.Length :: i != q ==> a[i] == old(a[i])
    ensures
      if old(a[p + 1]) == '\0' then p' == p + 1 && a[q] == old(a[q])
      else if old(a[p + 2]) == '\0' then p' == p + 2 && a[q] == HighNibble(old(a[p + 1]))
      else p' == p + 3 && a[q] == BothNibbles(old(a[p + 1]), old(a[p + 2]))
  {
    p' := p + 1;
    ghost var c, d := a[p'], if a[p'] != '\0' then a[p + 2] else '\0';
    NibblesAdd(c, d);
    hide FromHexByte, HighNibble, BothNibbles;
    if a[p'] != '\0' {
      a[q] := HighNibble(a[p']);
      p' := p' + 1;
      if a[p'] != '\0' {
        a[q] := ((a[q] as int + FromHexByte(a[p'])) % 256) as char;
        p' := p' + 1;
      }
    }
  }

  /** `x` is what a round writes and `p2` where the next one reads on. */
  lemma RoundIs(s: string, p: nat, out: string, x: char, p2: nat)
    requires |out| <= p < |s|
    requires if s[p] != '%' then x == (if s[p] == '+' then ' ' else s[p]) && p2 == p + 1
             else if p + 1 == |s| then x == s[|out|] && p2 == p + 1
             else if p + 2 == |s| then x == HighNibble(s[p + 1]) && p2 == p + 2
             else x == BothNibbles(s[p + 1], s[p + 2]) && p2 == p + 3
    ensures UnescapeFrom(s, p2, out + [x]) == UnescapeFrom(s, p, out)
  {
    UnescapeOnce(s, p, out);
    if p2 == |s| {
      UnescapeOnce(s, |s| - 1, "");
    }
  }

  /** One round, over the text `s` that stood at `at`. */
  method UnescapeRound(a: array<char>, at: nat, q: nat, p: nat, ghost s: string) returns (q': nat, p': nat)
    requires at <= q <= p < at + |s| < a.Length
    requires Ahead(a[..], at, q, s)
    modifies a
    ensures at <= q' <= p' <= at + |s| && p < p' && q' == q + 1
    ensures Ahead(a[..], at, q', s)
    ensures forall i | 0 <= i < a.Length :: i != q ==> a[i] == old(a[i])
    ensures UnescapeFrom(s, p' - at, a[at..q']) == UnescapeFrom(s, p - at, old(a[at..q]))
  {
    hide UnescapeFrom, HighNibble, BothNibbles;
    ghost var b, out := a[..], a[at..q];
    Window(b, at, q, q, s);
    Window(b, at, q, p, s);
    hide Ahead;
    if a[p] == '%' {
      p' := Percent(a, q, p);
    } else {
      a[q] := if a[p] == '+' then ' ' else a[p];
      p' := p + 1;
    }
    q' := q + 1;
    assert a[at..q] == out;
    assert a[at..q'] == a[at..q] + [a[q]];
    RoundIs(s, p - at, out, a[q], p' - at);
    AheadKept(b, a[..], at, q, s);
  }

  /** From `q` on the buffer still holds the text `s`, which began at `at`. */
  ghost predicate Ahead(b: seq<char>, at: nat, q: nat, s: string) {
    && at + |s| < |b| && b[at + |s|] == '\0'
    && (forall i | q <= i < at + |s| :: at <= i ==> b[i] == s[i - at] != '\0')
  }

  lemma AheadKept(b: seq<char>, b': seq<char>, at: nat, q: nat, s: string)
    requires Ahead(b, at, q, s) && |b'| == |b| && q < at + |s|
    requires forall i | 0 <= i < |b| :: i != q ==> b'[i] == b[i]
    ensures Ahead(b', at, q + 1, s)
  {
  }

  /** The next three characters. */
  lemma Window(b: seq<char>, at: nat, q: nat, p: nat, s: string)
    requires at <= q <= p < at + |s| && Ahead(b, at, q, s)
    ensures b[p] == s[p - at] != '\0'
    ensures if p + 1 < at + |s| then b[p + 1] == s[p + 1 - at] != '\0' else b[p + 1] == '\0'
    ensures p + 1 < at + |s| ==> if p + 2 < at + |s| then b[p + 2] == s[p + 2 - at] != '\0' else b[p + 2] == '\0'
  {
  }

  /** _httpd_unescape */
  method HttpdUnescape(a: array<char>, at: nat)
    requires at <= a.Length && Terminated(a[at..])
    modifies a
    ensures var s := old(TextAt(a[..], at)); var r := Unescape(s);
      && at + |s| < a.Length && a[at..at + |r|] == r && a[at + |r|] == '\0'
      && (forall i | 0 <= i < a.Length :: i < at || i > at + |r| ==> a[i] == old(a[i]))
  {
    ghost var s := TextAt(a[..], at);
    assert a[..][at..] == a[at..];
    TextAtHolds(a[..], at);
    assert Ahead(a[..], at, at, s);
    hide TextAt, Terminated, UnescapeFrom, Ahead;
    var p, q := at, at;
    assert a[at..q] == "";
    while a[p] != '\0'
      invariant at <= q <= p <= at + |s| < a.Length
      invariant forall i | 0 <= i < a.Length :: i < at || i >= q ==> a[i] == old(a[i])
      invariant Ahead(a[..], at, q, s)
      invariant UnescapeFrom(s, p - at, a[at..q]) == Unescape(s)
      decreases at + |s| - p
    {
      assert p < at + |s| by { AtTheEnd(a[..], at, q, s); }
      q, p := UnescapeRound(a, at, q, p, s);
    }
    LoopEnds(a[..], at, q, p, s);
    UnescapeEnd(s, a[at..q]);
    a[q] := '\0';
    assert a[at..q] == Unescape(s);
  }

  lemma LoopEnds(b: seq<char>, at: nat, q: nat, p: nat, s: string)
    requires Ahead(b, at, q, s) && at <= q <= p <= at + |s| && b[p] == '\0'
    ensures p == at + |s|
  {
  }

  lemma AtTheEnd(b: seq<char>, at: nat, q: nat, s: string)
    requires Ahead(b, at, q, s)
    ensures b[at + |s|] == '\0'
  {
  }

  lemma UnescapeEnd(s: string, out: string)
    requires |out| <= |s|
    ensures UnescapeFrom(s, |s|, out) == out
  {
  }
}
