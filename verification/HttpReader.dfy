/** The buffered reader of libhttpd/protocol.c. */
module HttpReader {

  const HTTP_READ_BUF_LEN: nat := 4096

  // ---------- Lines of a stream ----------

  datatype Read = Line(text: string, rest: string) | NoLine

  /** The next line of a byte stream, `acc` being the part already read: a line feed or a byte that is not
      ASCII ends it, a carriage return is dropped, `len` characters are the most; a tail that nothing ends
      is no line. */
  function NextLine(s: string, len: nat, acc: string): (r: Read)
    requires |acc| <= len
    ensures r.Line? ==> |r.text| <= len && |r.rest| <= |s| && (|acc| < len ==> |r.rest| < |s|)
    decreases |s|
  {
    if |acc| == len then Line(acc, s)
    else if s == "" then NoLine
    else if s[0] == '\n' || s[0] as int >= 128 then Line(acc, s[1..])
    else if s[0] == '\r' then NextLine(s[1..], len, acc)
    else NextLine(s[1..], len, acc + [s[0]])
  }

  function WithoutReturns(s: string): (r: string)
    ensures |r| <= |s|
  {
    if s == "" then "" else (if s[0] == '\r' then "" else [s[0]]) + WithoutReturns(s[1..])
  }

  ghost predicate OneLine(s: string) {
    forall k | 0 <= k < |s| :: s[k] != '\n' && s[k] as int < 128
  }

  /** One character, or the end. */
  lemma NextOnce(s: string, len: nat, acc: string)
    requires |acc| <= len
    ensures NextLine(s, len, acc) ==
            if |acc| == len then Line(acc, s)
            else if s == "" then NoLine
            else if s[0] == '\n' || s[0] as int >= 128 then Line(acc, s[1..])
            else NextLine(s[1..], len, if s[0] == '\r' then acc else acc + [s[0]])
  {
  }

  /** Main result: text without a line end, then a line end: the line is that text without its
      carriage returns, when it is short enough. */
  lemma {:induction false} LineIsRead(w: string, end: char, rest: string, len: nat, acc: string)
    requires OneLine(w) && (end == '\n' || end as int >= 128) && |acc| + |WithoutReturns(w)| < len
    ensures NextLine(w + [end] + rest, len, acc) == Line(acc + WithoutReturns(w), rest)
    decreases |w|
  {
    var s := w + [end] + rest;
    NextOnce(s, len, acc);
    hide NextLine;
    if w == "" {
      assert s[1..] == rest && acc + "" == acc;
    } else {
      assert s[0] == w[0] && s[1..] == w[1..] + [end] + rest;
      if w[0] == '\r' {
        LineIsRead(w[1..], end, rest, len, acc);
      } else {
        LineIsRead(w[1..], end, rest, len, acc + [w[0]]);
        assert acc + [w[0]] + WithoutReturns(w[1..]) == acc + ([w[0]] + WithoutReturns(w[1..]));
      }
    }
  }

  /** A longer line is cut behind its last character that is kept; what is left of it is read next. */
  lemma {:induction false} LongLineIsCut(w: string, rest: string, len: nat, acc: string)
    requires OneLine(w) && |acc| + |WithoutReturns(w)| == len && (w != "" ==> w[|w| - 1] != '\r')
    ensures NextLine(w + rest, len, acc) == Line(acc + WithoutReturns(w), rest)
    decreases |w|
  {
    if w == "" {
      assert w + rest == rest && acc + "" == acc;
    } else {
      var s := w + rest;
      LastIsKept(w);
      NextOnce(s, len, acc);
      hide NextLine;
      assert s[0] == w[0] && s[1..] == w[1..] + rest;
      if w[0] == '\r' {
        LongLineIsCut(w[1..], rest, len, acc);
      } else {
        LongLineIsCut(w[1..], rest, len, acc + [w[0]]);
        assert acc + [w[0]] + WithoutReturns(w[1..]) == acc + ([w[0]] + WithoutReturns(w[1..]));
      }
    }
  }

  lemma {:induction false} LastIsKept(w: string)
    requires w != "" && w[|w| - 1] != '\r'
    ensures WithoutReturns(w) != ""
  {
    if w[0] == '\r' {
      LastIsKept(w[1..]);
    }
  }

  /** A tail that nothing ends is no line. */
  lemma {:induction false} TailIsDropped(w: string, len: nat, acc: string)
    requires OneLine(w) && |acc| + |WithoutReturns(w)| < len
    ensures NextLine(w, len, acc) == NoLine
    decreases |w|
  {
    if w != "" {
      if w[0] == '\r' {
        TailIsDropped(w[1..], len, acc);
      } else {
        TailIsDropped(w[1..], len, acc + [w[0]]);
      }
    }
  }

  /** The text before the first line feed or byte that is not ASCII. */
  function Body(s: string): (b: string)
    ensures |b| <= |s|
  {
    if s == "" || s[0] == '\n' || s[0] as int >= 128 then "" else [s[0]] + Body(s[1..])
  }

  /** Main result: what is read of any stream, told by its text up to the first line end.  With fewer than
      `len` characters to keep it is that text, and no line when nothing ends it; with `len` or more it
      is the first `len` of them. */
  lemma {:induction false} LineOfStream(s: string, len: nat, acc: string)
    requires |acc| <= len
    ensures var kept, r := acc + WithoutReturns(Body(s)), NextLine(s, len, acc);
      && (|kept| < len ==> r == if |Body(s)| == |s| then NoLine else Line(kept, s[|Body(s)| + 1..]))
      && (|kept| >= len ==> r.Line? && r.text == kept[..len])
    ensures NextLine(s, len, acc).Line? && |NextLine(s, len, acc).text| == len <==>
            |acc| + |WithoutReturns(Body(s))| >= len
    decreases |s|
  {
    if |acc| == len || s == "" || s[0] == '\n' || s[0] as int >= 128 {
      LineAtOnce(s, len, acc);
    } else {
      NextOnce(s, len, acc);
      BodyOnce(s);
      hide NextLine, Body, WithoutReturns;
      var rest, w := s[1..], WithoutReturns(Body(s[1..]));
      var acc' := if s[0] == '\r' then acc else acc + [s[0]];
      LineOfStream(rest, len, acc');
      KeptOnce(acc, s[0], w);
      assert rest[|Body(rest)|..] == s[|Body(s)|..];
    }
  }

  lemma KeptOnce(acc: string, c: char, w: string)
    ensures acc + ((if c == '\r' then "" else [c]) + w) == (if c == '\r' then acc else acc + [c]) + w
  {
    assert "" + w == w;
  }

  lemma LineAtOnce(s: string, len: nat, acc: string)
    requires |acc| <= len && (|acc| == len || s == "" || s[0] == '\n' || s[0] as int >= 128)
    ensures var kept, r := acc + WithoutReturns(Body(s)), NextLine(s, len, acc);
      && (|kept| < len ==> r == if |Body(s)| == |s| then NoLine else Line(kept, s[|Body(s)| + 1..]))
      && (|kept| >= len ==> r.Line? && r.text == kept[..len])
      && (r.Line? && |r.text| == len <==> |kept| >= len)
  {
    var kept := acc + WithoutReturns(Body(s));
    if |acc| == len {
      assert kept[..len] == acc;
      hide Body, WithoutReturns;
    } else {
      assert Body(s) == "" && WithoutReturns("") == "";
      assert kept == acc;
    }
  }

  lemma BodyOnce(s: string)
    requires s != "" && s[0] != '\n' && s[0] as int < 128
    ensures |Body(s)| == 1 + |Body(s[1..])|
    ensures WithoutReturns(Body(s)) == (if s[0] == '\r' then "" else [s[0]]) + WithoutReturns(Body(s[1..]))
  {
    assert Body(s)[1..] == Body(s[1..]);
  }

  /** The stream has `len` characters or more to keep before its first line end. */
  predicate LongLine(s: string, len: nat) {
    |WithoutReturns(Body(s))| >= len
  }

  // ---------- The reader ----------

  /** What reads return, joined; a read that returns nothing ends the stream. */
  function Flow(net: seq<string>): (s: string) {
    if net == [] || net[0] == "" then "" else net[0] + Flow(net[1..])
  }

  lemma LongLineRead(s: string, len: nat)
    ensures var r := NextLine(s, len, "");
      && (LongLine(s, len) ==> r.Line? && |r.text| == len)
      && (r.Line? && |r.text| == len ==> LongLine(s, len))
  {
    LineOfStream(s, len, "");
    hide NextLine, Body, WithoutReturns;
  }

  class Reader {
    /** What the coming network reads return. */
    var net: seq<string>
    const readBuf: array<char>
    var readBufPtr: nat
    var readBufRemain: nat

    ghost predicate Valid()
      reads this
    {
      && readBuf.Length == HTTP_READ_BUF_LEN + 1
      && readBufPtr + readBufRemain <= HTTP_READ_BUF_LEN
      && (forall k | 0 <= k < |net| :: |net[k]| <= HTTP_READ_BUF_LEN)
    }

    /** The bytes still to come. */
    ghost function Stream(): (s: string)
      requires Valid()
      reads this, readBuf
    {
      readBuf[readBufPtr..readBufPtr + readBufRemain] + Flow(net)
    }

    constructor (net: seq<string>)
      requires forall k | 0 <= k < |net| :: |net[k]| <= HTTP_READ_BUF_LEN
      ensures Valid() && fresh(readBuf) && Stream() == Flow(net)
    {
      this.net := net;
      readBuf := new char[HTTP_READ_BUF_LEN + 1](_ => '\0');
      readBufPtr, readBufRemain := 0, 0;
      new;
      assert readBuf[0..0] == "";
    }

    /** _httpd_net_read into the buffer. */
    method NetRead() returns (n: nat)
      requires Valid() && readBufRemain == 0
      modifies readBuf, this`net
      ensures Valid() && n <= HTTP_READ_BUF_LEN
      ensures readBuf[..n] + Flow(net) == old(Flow(net))
      ensures n == 0 ==> old(Flow(net)) == ""
    {
      forall k | 0 <= k < readBuf.Length {
        readBuf[k] := '\0';
      }
      n := 0;
      if net != [] && net[0] != "" {
        var chunk := net[0];
        n := |chunk|;
        forall k | 0 <= k < n {
          readBuf[k] := chunk[k];
        }
        net := net[1..];
        assert readBuf[..n] == chunk;
      }
    }

    /** _httpd_readChar */
    method ReadChar() returns (ok: bool, c: char)
      requires Valid()
      modifies this`net, this`readBufPtr, this`readBufRemain, readBuf
      ensures Valid()
      ensures ok <==> old(Stream()) != ""
      ensures if ok then [c] + Stream() == old(Stream()) else Stream() == ""
    {
      if readBufRemain == 0 {
        Refill();
        if readBufRemain < 1 {
          return false, '\0';
        }
      }
      c := TakeChar();
      ok := true;
    }

    /** An empty buffer is filled by a read. */
    method Refill()
      requires Valid() && readBufRemain == 0
      modifies this`net, this`readBufPtr, this`readBufRemain, readBuf
      ensures Valid() && Stream() == old(Stream())
      ensures readBufRemain == 0 ==> Stream() == ""
    {
      assert Stream() == Flow(net);
      var n := NetRead();
      readBufRemain := n;
      hide Flow;
      if readBufRemain < 1 {
        assert readBuf[readBufPtr..readBufPtr] == "" && readBuf[..0] == "";
      } else {
        readBuf[readBufRemain] := '\0';
        readBufPtr := 0;
        assert readBuf[0..n] == readBuf[..n];
      }
    }

    /** A character out of the buffer. */
    method TakeChar() returns (c: char)
      requires Valid() && readBufRemain > 0
      modifies this`readBufPtr, this`readBufRemain
      ensures Valid() && [c] + Stream() == old(Stream())
    {
      hide Flow;
      c := readBuf[readBufPtr];
      ghost var p, m := readBufPtr, readBufRemain;
      assert readBuf[p..p + m] == [c] + readBuf[p + 1..p + m];
      readBufPtr := readBufPtr + 1;
      readBufRemain := readBufRemain - 1;
      assert Stream() == readBuf[p + 1..p + m] + Flow(net);
    }

    /** _httpd_readLine: however the input was divided into reads, the line is the next of the stream.  The
        code writes a NUL behind it; it goes one past the end of a buffer of `len` characters exactly when the
        stream has `len` characters or more to keep before its first line end.  That store is left out here
        and reported as `past`. */
    method ReadLine(destBuf: array<char>, len: nat) returns (ok: bool, past: bool)
      requires Valid() && destBuf != readBuf && len <= destBuf.Length
      modifies this`net, this`readBufPtr, this`readBufRemain, readBuf, destBuf
      ensures Valid()
      ensures match NextLine(old(Stream()), len, "")
              case NoLine => !ok && Stream() == ""
              case Line(text, rest) =>
                ok && Stream() == rest && Holds(destBuf[..], text, old(destBuf[..]))
      ensures past <==> len == destBuf.Length && LongLine(old(Stream()), len)
    {
      LongLineRead(Stream(), len);
      hide LongLine;
      var count := 0;
      past := false;
      ghost var s, was := Stream(), destBuf[..];
      while count < len
        invariant Valid() && count <= len && s == Stream()
        invariant destBuf[count..] == was[count..]
        invariant NextLine(s, len, destBuf[..count]) == NextLine(old(Stream()), len, "")
        decreases |s|
      {
        ghost var acc := destBuf[..count];
        NextOnce(s, len, acc);
        hide NextLine;
        var got, curChar := ReadChar();
        assert destBuf[..count] == acc;
        if !got {
          return false, false;
        }
        assert s[0] == curChar && s[1..] == Stream();
        if curChar == '\n' || curChar as int >= 128 {
          CloseLine(destBuf, count, was);
          return true, false;
        }
        if curChar != '\r' {
          destBuf[count] := curChar;
          count := count + 1;
          assert destBuf[..count] == acc + [curChar];
          assert destBuf[count..] == was[count - 1..][1..];
        }
        s := Stream();
      }
      NextOnce(s, len, destBuf[..count]);
      hide NextLine;
      if count < destBuf.Length {
        CloseLine(destBuf, count, was);
      } else {
        past := true;
        assert destBuf[..] == destBuf[..count];
      }
      ok := true;
    }

    /** The NUL behind a line. */
    method CloseLine(destBuf: array<char>, count: nat, ghost was: seq<char>)
      requires count < destBuf.Length == |was| && destBuf[count..] == was[count..]
      modifies destBuf
      ensures Holds(destBuf[..], old(destBuf[..count]), was)
    {
      ghost var acc := destBuf[..count];
      destBuf[count] := '\0';
      assert destBuf[..] == acc + ['\0'] + destBuf[count + 1..];
      assert destBuf[count + 1..] == was[count..][1..];
    }
  }

  /** A buffer in which a line was put over older contents. */
  ghost predicate Holds(b: seq<char>, text: string, was: seq<char>) {
    |b| == |was| && |text| <= |b| && b == LineOver(text, was)
  }

  function LineOver(text: string, was: seq<char>): (b: seq<char>) {
    if |text| < |was| then text + ['\0'] + was[|text| + 1..] else text
  }
}
