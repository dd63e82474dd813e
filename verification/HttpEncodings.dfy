/** Decoding against any way of encoding: either letter case in an escape, any choice of what is escaped. */
module HttpEncodings {
  import opened Sanitiser
  import opened HttpText
  import opened HttpVars

  // ---------- Hexadecimal digits ----------

  const UPPER := "0123456789ABCDEF"
  const LOWER := "0123456789abcdef"

  /** The character is the digit `n`, in either letter case. */
  predicate DigitOf(c: char, n: nat) {
    n < 16 && (c == UPPER[n] || c == LOWER[n])
  }

  /** A digit `n` before and a digit `m` behind write the character. */
  predicate WrittenAs(c: char, hi: char, lo: char) {
    DigitOf(hi, c as int / 16) && DigitOf(lo, c as int % 16)
  }

  lemma DigitTable(n: nat)
    requires n < 16
    ensures UPPER[n] as int == if n < 10 then 48 + n else 55 + n
    ensures LOWER[n] as int == if n < 10 then 48 + n else 87 + n
  {
    assert UPPER[0] == '0' && UPPER[1] == '1' && UPPER[2] == '2' && UPPER[3] == '3' && UPPER[4] == '4'
        && UPPER[5] == '5' && UPPER[6] == '6' && UPPER[7] == '7' && UPPER[8] == '8' && UPPER[9] == '9'
        && UPPER[10] == 'A' && UPPER[11] == 'B' && UPPER[12] == 'C' && UPPER[13] == 'D' && UPPER[14] == 'E'
        && UPPER[15] == 'F';
    assert LOWER[10] == 'a' && LOWER[11] == 'b' && LOWER[12] == 'c' && LOWER[13] == 'd' && LOWER[14] == 'e'
        && LOWER[15] == 'f';
    assert forall k :: 0 <= k < 10 ==> LOWER[k] == UPPER[k];
  }

  lemma DigitValue(c: char, n: nat)
    requires DigitOf(c, n)
    ensures FromHexByte(c) == n
  {
    DigitTable(n);
  }

  lemma PairValue(c: char, hi: char, lo: char)
    requires WrittenAs(c, hi, lo)
    ensures BothNibbles(hi, lo) == c
  {
    DigitValue(hi, c as int / 16);
    DigitValue(lo, c as int % 16);
    hide FromHexByte, DigitOf;
  }

  // ---------- Any encoding ----------

  /** `e` writes `s`: a character stands for itself, `+` for a blank, and an escape for the character that its
      two digits write. */
  predicate Encodes(e: string, s: string)
    decreases |e|
  {
    if e == "" then s == ""
    else if e[0] == '%' then |e| >= 3 && s != "" && WrittenAs(s[0], e[1], e[2]) && Encodes(e[3..], s[1..])
    else s != "" && s[0] == (if e[0] == '+' then ' ' else e[0]) && Encodes(e[1..], s[1..])
  }

  /** The decoder reads an encoding wherever it stands. */
  lemma {:induction false} EncodingRead(t: string, p: nat, out: string, e: string, s: string)
    requires |out| <= p && p + |e| <= |t| && t[p..p + |e|] == e && Encodes(e, s)
    ensures |s| <= |e| && UnescapeFrom(t, p, out) == UnescapeFrom(t, p + |e|, out + s)
    decreases |e|
  {
    if e == "" {
      EncodesNothing(s);
      assert out + s == out;
    } else {
      var n := OneRead(t, p, out, e, s);
      hide UnescapeFrom, Encodes;
      EncodingRead(t, p + n, out + [s[0]], e[n..], s[1..]);
      assert out + [s[0]] + s[1..] == out + s;
    }
  }

  lemma EncodesNothing(s: string)
    requires Encodes("", s)
    ensures s == ""
  {
  }

  /** One character of the text. */
  lemma OneRead(t: string, p: nat, out: string, e: string, s: string) returns (n: nat)
    requires |out| <= p && p + |e| <= |t| && t[p..p + |e|] == e && Encodes(e, s) && e != ""
    ensures 1 <= n <= |e| && s != "" && Encodes(e[n..], s[1..]) && t[p + n..p + n + |e[n..]|] == e[n..]
    ensures UnescapeFrom(t, p, out) == UnescapeFrom(t, p + n, out + [s[0]])
  {
    n := if e[0] == '%' then 3 else 1;
    EncodesOnce(e, s);
    UnescapeOnce(t, p, out);
    hide UnescapeFrom, BothNibbles, HighNibble, Encodes;
    assert t[p] == e[0] && (n == 3 ==> t[p + 1] == e[1] && t[p + 2] == e[2]);
  }

  lemma EncodesOnce(e: string, s: string)
    requires Encodes(e, s) && e != ""
    ensures s != ""
    ensures e[0] == '%' ==> |e| >= 3 && BothNibbles(e[1], e[2]) == s[0] && Encodes(e[3..], s[1..])
    ensures e[0] != '%' ==> s[0] == (if e[0] == '+' then ' ' else e[0]) && Encodes(e[1..], s[1..])
  {
    if e[0] == '%' {
      PairValue(s[0], e[1], e[2]);
      hide WrittenAs, BothNibbles;
    }
  }

  /** Main result: whatever way a text is encoded in, decoding gives it back. */
  lemma AnyEncoding(e: string, s: string)
    requires Encodes(e, s)
    ensures Unescape(e) == s
  {
    assert e[0..0 + |e|] == e;
    EncodingRead(e, 0, "", e, s);
    assert "" + s == s;
    UnescapeEnds(e, s);
    hide UnescapeFrom;
  }

  lemma UnescapeEnds(t: string, out: string)
    requires |out| <= |t|
    ensures UnescapeFrom(t, |t|, out) == out
  {
  }

  /** A `%` that the text ends in stands for the character that is where the decoder writes. */
  lemma BarePercent(e: string, s: string)
    requires Encodes(e, s)
    ensures |s| <= |e| && Unescape(e + "%") == s + [(e + "%")[|s|]]
  {
    var t := e + "%";
    assert t[0..0 + |e|] == e && t[|e|] == '%';
    EncodingRead(t, 0, "", e, s);
    assert "" + s == s;
    hide Encodes;
    UnescapeOnce(t, |e|, s);
    hide UnescapeFrom;
  }

  /** An escape with one digit, at the end, counts it as the first of two. */
  lemma HalfEscape(e: string, s: string, c: char, n: nat)
    requires Encodes(e, s) && DigitOf(c, n)
    ensures Unescape(e + ['%', c]) == s + [(16 * n) as char]
  {
    var t := e + ['%', c];
    assert t[0..0 + |e|] == e && t[|e|] == '%' && t[|e| + 1] == c;
    FirstOfTwo(c, n);
    hide DigitOf, HighNibble, BothNibbles;
    EncodingRead(t, 0, "", e, s);
    assert "" + s == s;
    UnescapeOnce(t, |e|, s);
    hide UnescapeFrom, Encodes;
  }

  lemma FirstOfTwo(c: char, n: nat)
    requires DigitOf(c, n)
    ensures HighNibble(c) == (16 * n) as char
  {
    DigitValue(c, n);
    hide FromHexByte, DigitOf;
  }

  // ---------- What the encoder writes ----------

  /** The characters that the encoder leaves alone. */
  predicate Kept(c: char) {
    'a' <= c <= 'z' || 'A' <= c <= 'Z' || '0' <= c <= '9' || c in "!\"$'()*+,-.@_"
  }

  lemma KeptIs(c: char)
    ensures Kept(c) <==> Acceptable(c)
  {
    var k := "!\"$'()*+,-.@_";
    assert k[0] == '!' && k[1] == '\"' && k[2] == '$' && k[3] == '\'' && k[4] == '(' && k[5] == ')' && k[6] == '*'
        && k[7] == '+' && k[8] == ',' && k[9] == '-' && k[10] == '.' && k[11] == '@' && k[12] == '_';
  }

  /** The encoder keeps exactly those, and writes the others as escapes with large letters. */
  lemma EncoderWrites(c: char)
    requires c as int < 256
    ensures EscapeChar(c) == if Kept(c) then [c] else ['%', UPPER[c as int / 16], UPPER[c as int % 16]]
  {
    KeptIs(c);
    DigitTable(c as int / 16);
    DigitTable(c as int % 16);
    hide Kept, Acceptable;
  }

  /** So what it writes is one of the encodings, `+` apart. */
  lemma {:induction false} EncoderEncodes(s: string)
    requires Bytes(s)
    ensures Encodes(Escape(s), PlusToSpace(s))
  {
    if s != "" {
      var c, r := s[0], Escape(s[1..]);
      EncoderEncodes(s[1..]);
      EncoderWrites(c);
      KeptIs(c);
      var e := EscapeChar(c) + r;
      if Kept(c) {
        assert e[1..] == r;
      } else {
        assert e[3..] == r;
      }
    }
  }

  // ---------- Queries ----------

  /** A field of a query: `raw` is its value as it is written, `value` the text that writes. */
  datatype Field = Field(name: string, raw: string, value: string)

  function QueryText(fields: seq<Field>): (q: string) {
    if fields == [] then ""
    else
      var p := fields[0].name + "=" + fields[0].raw;
      if |fields| == 1 then p else p + ("&" + QueryText(fields[1..]))
  }

  ghost predicate FieldOk(f: Field) {
    '=' !in f.name && '&' !in f.name && '=' !in f.raw && '&' !in f.raw && Encodes(f.raw, f.value)
  }

  ghost predicate FieldsOk(fields: seq<Field>) {
    forall k | 0 <= k < |fields| :: FieldOk(fields[k])
  }

  /** The fields as they are read, each value up to its first NUL. */
  function FieldsRead(fields: seq<Field>): (r: seq<Pair>) {
    if fields == [] then [] else [Pair(fields[0].name, CString(fields[0].value))] + FieldsRead(fields[1..])
  }

  /** Main result: a query whose values are encoded in any way is read field by field. */
  lemma {:induction false} AnyQueryRead(fields: seq<Field>, buf: seq<char>)
    requires FieldsOk(fields)
    ensures Pairs(QueryText(fields), buf) == FieldsRead(fields)
    decreases |fields|
  {
    if fields == [] {
      NoPairs(buf);
    } else {
      var f, more := fields[0], fields[1..];
      assert FieldOk(f) && FieldsOk(more);
      AnyEncoding(f.raw, f.value);
      var q, p, rest := QueryText(fields), f.name + "=" + f.raw, QueryText(more);
      assert Value(f.raw) == CString(f.value);
      hide Pairs, Over, FieldsOk, Encodes, CString, Value;
      if more == [] {
        assert p + "" == p;
        FieldShape(f.name, f.raw, "");
        PairsFirst(p, buf, p, f.name);
      } else {
        FieldShape(f.name, f.raw, "&" + rest);
        PairsFirst(q, buf, p, f.name);
        assert q[|p| + 1..] == rest;
        AnyQueryRead(more, Over(buf, f.name + ['\0']));
      }
    }
  }
}
