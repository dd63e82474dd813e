/** Reading a request: httpdReadRequest of libhttpd/api.c, from the byte stream to the request variables. */
module HttpRequest {
  import opened Sanitiser
  import opened HttpText
  import opened HttpVars
  import opened HttpReader
  import opened HttpHeaders
  import Base64

  datatype Verb = NoVerb | Get | Post

  predicate Alpha(c: char) {
    'A' <= c <= 'Z' || 'a' <= c <= 'z'
  }

  function Alphas(s: string): (n: nat)
    ensures n <= |s|
  {
    if s != "" && Alpha(s[0]) then 1 + Alphas(s[1..]) else 0
  }

  function Spaces(s: string): (n: nat)
    ensures n <= |s|
  {
    if s != "" && s[0] == ' ' then 1 + Spaces(s[1..]) else 0
  }

  function VerbOf(word: string): (v: Verb) {
    if Uppercase(word) == "GET" then Get else if Uppercase(word) == "POST" then Post else NoVerb
  }

  /** What follows the first word of a request line and the blanks after it, up to the next blank.  When
      the line ends with its first word, that is read from `junk`, the text behind the end. */
  function Target(line: string, junk: string): (t: string) {
    var n := Alphas(line);
    var rest := if n < |line| then line[n + 1..] else junk;
    UpTo(rest[Spaces(rest)..], ' ')
  }

  datatype Parsed = Parsed(verb: Verb, path: string, query: string, variables: seq<Var>)
                  | BadMethod

  /** The path is split at its first question mark; what follows it is stored. */
  function SplitPath(verb: Verb, path: string, vars: seq<Var>): (r: Parsed) {
    var p := UpTo(path, '?');
    if |p| == |path| then Parsed(verb, path, "", vars)
    else Parsed(verb, p, path[|p| + 1..], Store(vars, path[|p| + 1..]))
  }

  /** What a request line comes to, for a request with nothing in it yet. */
  function RequestLineOf(line: string, junk: string): (r: Parsed) {
    var verb := VerbOf(line[..Alphas(line)]);
    if verb == NoVerb then BadMethod
    else SplitPath(verb, Sanitise(Cut(Target(line, junk), HTTP_MAX_URL - 1)), [])
  }

  /** The text behind the first NUL of the line buffer. */
  function Behind(b: seq<char>): (junk: string) {
    var n := |CString(b)|;
    if n < |b| then CString(b[n + 1..]) else ""
  }

  /** httpdReadRequest on a stream; `stack` stands in the line buffer before. */
  function RequestOf(s: string, stack: seq<char>): (r: Parsed) {
    match NextLine(s, HTTP_MAX_LEN, "")
    case NoLine => Parsed(NoVerb, "", "", [])
    case Line(text, _) =>
      var b := LineOver(text, stack);
      RequestLineOf(CString(b), Behind(b))
  }

  /** The fields that the headers behind a request line set, for a request with nothing in it yet. */
  function FieldsOf(s: string, stack: seq<char>): (f: Fields) {
    match NextLine(s, HTTP_MAX_LEN, "")
    case NoLine => NO_FIELDS
    case Line(text, rest) =>
      if RequestOf(s, stack).BadMethod? then NO_FIELDS else HeadersOf(rest, LineOver(text, stack), NO_FIELDS).1
  }

  /** Every line that is read leaves room for its NUL. */
  predicate LinesFit(s: string, stack: seq<char>) {
    !LongLine(s, HTTP_MAX_LEN) &&
    match NextLine(s, HTTP_MAX_LEN, "")
    case NoLine => true
    case Line(_, rest) => RequestOf(s, stack).BadMethod? || HeadersFit(rest)
  }

  // ---------- The lists of variables, in place ----------

  lemma {:induction false} AddTrimmedAt(vars: seq<Var>, j: nat, name: string, value: string)
    requires j <= |vars| && (forall k | 0 <= k < j :: vars[k].name != name)
    ensures j == |vars| ==> AddTrimmed(vars, name, value) == vars + [Var(name, [value])]
    ensures j < |vars| && vars[j].name == name ==>
      AddTrimmed(vars, name, value) == vars[j := Var(name, vars[j].values + [value])]
    decreases |vars|
  {
    if vars != [] && j > 0 {
      AddTrimmedAt(vars[1..], j - 1, name, value);
      assert vars == [vars[0]] + vars[1..];
    } else if j == 0 && vars != [] {
      assert vars[0 := Var(name, vars[0].values + [value])] == [Var(name, vars[0].values + [value])] + vars[1..];
    } else {
      assert vars + [Var(name, [value])] == [Var(name, [value])];
    }
  }

  lemma {:induction false} ValuesAt(vars: seq<Var>, j: nat, name: string)
    requires j <= |vars| && (forall k | 0 <= k < j :: vars[k].name != name)
    ensures j == |vars| ==> Values(vars, name) == []
    ensures j < |vars| && vars[j].name == name ==> Values(vars, name) == vars[j].values
    decreases |vars|
  {
    if vars != [] && j > 0 {
      ValuesAt(vars[1..], j - 1, name);
    }
  }

  /** The text that begins at `at`, copied, as far as the buffer goes. */
  method CopyText(a: array<char>, at: nat) returns (s: string)
    requires at <= a.Length
    ensures s == TextAt(a[..], at)
  {
    ghost var b := a[at..];
    assert a[..][at..] == b;
    hide CString;
    s := "";
    CStringAt(b, 0);
    while at + |s| < a.Length && a[at + |s|] != '\0'
      invariant |s| <= |CString(b)| && at + |s| <= a.Length && s == CString(b)[..|s|]
      decreases |CString(b)| - |s|
    {
      CStringAt(b, |s|);
      s := s + [a[at + |s|]];
    }
    CStringAt(b, |s|);
  }

  class Request {
    var verb: Verb
    const path: array<char>
    var query: string
    var variables: seq<Var>
    var fields: Fields

    constructor ()
      ensures verb == NoVerb && query == "" && variables == [] && fields == NO_FIELDS
      ensures fresh(path) && path.Length == HTTP_MAX_URL && path[0] == '\0'
    {
      verb, query, variables, fields := NoVerb, "", [], NO_FIELDS;
      path := new char[HTTP_MAX_URL](_ => '\0');
    }

    /** httpdAddVariable */
    method AddVariable(name: string, value: string)
      modifies this`variables
      ensures variables == Add(old(variables), name, value)
    {
      var trimmed := name;
      while trimmed != "" && (trimmed[0] == ' ' || trimmed[0] == '\t')
        invariant TrimBlank(trimmed) == TrimBlank(name)
        decreases |trimmed|
      {
        trimmed := trimmed[1..];
      }
      var j := 0;
      while j < |variables|
        invariant j <= |variables| && variables == old(variables)
        invariant forall k | 0 <= k < j :: variables[k].name != trimmed
      {
        if variables[j].name == trimmed {
          AddTrimmedAt(variables, j, trimmed, value);
          variables := variables[j := Var(trimmed, variables[j].values + [value])];
          return;
        }
        j := j + 1;
      }
      AddTrimmedAt(variables, j, trimmed, value);
      variables := variables + [Var(trimmed, [value])];
    }

    /** httpdGetVariableByName: the first value, if there is one. */
    method GetVariableByName(name: string) returns (found: bool, value: string)
      ensures found <==> Values(variables, name) != []
      ensures value == if found then Values(variables, name)[0] else ""
    {
      var j := 0;
      while j < |variables|
        invariant j <= |variables| && (forall k | 0 <= k < j :: variables[k].name != name)
      {
        if variables[j].name == name {
          ValuesAt(variables, j, name);
          found := variables[j].values != [];
          value := if found then variables[j].values[0] else "";
          return;
        }
        j := j + 1;
      }
      ValuesAt(variables, j, name);
      found, value := false, "";
    }

    /** A value that ends at a NUL is decoded in place and copied. */
    method TakeValue(at: nat, ghost v: string) returns (value: string)
      requires at + |v| < path.Length && path[at..at + |v|] == v && NoNul(v) && path[at + |v|] == '\0'
      modifies path
      ensures value == Value(v)
      ensures forall k | 0 <= k < path.Length :: k < at || k > at + |v| ==> path[k] == old(path[k])
    {
      TextAtIs(path[..], at, v);
      assert path[at..][|v|] == '\0';
      HttpdUnescape(path, at);
      ghost var r := Unescape(v);
      assert path[at..][|r|] == '\0';
      TextOf(path[..], at, r);
      value := CopyText(path, at);
    }

    /** _httpd_storeData, on the part of the path buffer that begins at `at`. */
    method StoreData(at: nat)
      requires at <= path.Length && Terminated(path[at..])
      modifies path, this`variables
      ensures variables == Store(old(variables), old(TextAt(path[..], at)))
      ensures at <= path.Length && path[..at] == old(path[..at])
    {
      var q := CopyText(path, at);
      assert path[..][at..] == path[at..];
      hide *;
      var name := new char[|q|](_ => '\0');
      StoreStarts(variables, path[..], at, q, name[..]);
      var cp: nat, cp2: nat, val: int := 0, 0, -1;
      ghost var was := path[..at];
      while cp < |q|
        invariant cp <= |q| && at + |q| < path.Length
        invariant val == -1 || 0 <= val <= cp
        invariant cp2 <= cp && Writable(name[..], cp, cp2, val)
        invariant Unread(path[..], q, at, if val >= 0 then val else cp)
        invariant path[..at] == was
        invariant FeedAll(q, cp, Scan(variables, name[..], cp2, val)) == Store(old(variables), q)
      {
        FeedOnce(q, cp, Scan(variables, name[..], cp2, val));
        cp2, val := StoreOne(q, at, name, cp, cp2, val);
        cp := cp + 1;
      }
      StoreLast(q, at, name, cp2, val);
      assert path[..at] == was;
    }

    /** Before the loop. */
    static lemma StoreStarts(vars: seq<Var>, b: seq<char>, at: nat, q: string, name: seq<char>)
      requires at <= |b| && Terminated(b[at..]) && q == TextAt(b, at)
      requires |name| == |q| && (forall k | 0 <= k < |name| :: name[k] == '\0')
      ensures at + |q| < |b| && Unread(b, q, at, 0) && Writable(name, 0, 0, -1)
      ensures Store(vars, q) == FeedAll(q, 0, Scan(vars, name, 0, -1))
    {
      TextAtHolds(b, at);
      ZerosAre(name);
      hide TextAt, CString, FeedAll;
    }

    /** One character of the query. */
    method StoreOne(q: string, at: nat, name: array<char>, cp: nat, cp2: nat, val: int)
      returns (cp2': nat, val': int)
      requires cp < |q| == name.Length && name != path && at + |q| < path.Length
      requires (val == -1 || 0 <= val <= cp) && cp2 <= cp && Writable(name[..], cp, cp2, val)
      requires Unread(path[..], q, at, if val >= 0 then val else cp)
      modifies path, name, this`variables
      ensures Scan(variables, name[..], cp2', val') == Feed(q, cp, Scan(old(variables), old(name[..]), cp2, val))
      ensures (val' == -1 || 0 <= val' <= cp + 1) && cp2' <= cp + 1 && Writable(name[..], cp + 1, cp2', val')
      ensures Unread(path[..], q, at, if val' >= 0 then val' else cp + 1)
      ensures path[..at] == old(path[..at])
    {
      hide Value, Add, CString;
      cp2', val' := cp2, val;
      if q[cp] == '=' {
        name[cp2] := '\0';
        val' := cp + 1;
      } else if q[cp] == '&' {
        assert name[..][|q| - 1] == '\0';
        StorePair(q, at, name, cp, val);
        cp2', val' := 0, -1;
      } else if val < 0 {
        name[cp2] := q[cp];
        cp2' := cp2 + 1;
      }
    }

    /** The pair before `cp` is added. */
    method StorePair(q: string, at: nat, name: array<char>, cp: nat, val: int)
      requires cp <= |q| == name.Length && name != path && at + |q| < path.Length
      requires (val == -1 || 0 <= val <= cp) && '\0' in name[..]
      requires Unread(path[..], q, at, if val >= 0 then val else cp)
      modifies path, this`variables
      ensures variables == Add(old(variables), CString(name[..]), if val >= 0 then Value(q[val..cp]) else "")
      ensures forall k | 0 <= k < path.Length :: k < at || k > at + cp ==> path[k] == old(path[k])
    {
      hide Value, Add, CString;
      var tmpVal := "";
      if val >= 0 {
        path[at + cp] := '\0';
        assert path[at + val..at + cp] == q[val..cp];
        tmpVal := TakeValue(at + val, q[val..cp]);
      }
      assert name[..][0..] == name[..] == name[0..];
      var n := CopyText(name, 0);
      AddVariable(n, tmpVal);
    }

    /** The pair that the query ends with. */
    method StoreLast(q: string, at: nat, name: array<char>, cp2: nat, val: int)
      requires |q| == name.Length && name != path && at + |q| < path.Length
      requires (val == -1 || 0 <= val <= |q|) && cp2 <= |q| && Writable(name[..], |q|, cp2, val)
      requires Unread(path[..], q, at, if val >= 0 then val else |q|)
      modifies path, this`variables
      ensures variables == FeedAll(q, |q|, Scan(old(variables), name[..], cp2, val))
      ensures path[..at] == old(path[..at])
    {
      FeedEnd(q, Scan(variables, name[..], cp2, val));
      hide Value, Add, CString, FeedAll;
      if val >= 0 {
        assert q[val..|q|] == q[val..];
        assert name[..][|q| - 1] == '\0';
        StorePair(q, at, name, |q|, val);
      }
    }

    /** The first line: method and path. */
    method FirstLine(line: string, junk: string) returns (ok: bool)
      requires path.Length == HTTP_MAX_URL && verb == NoVerb && NoNul(line) && NoNul(junk)
      modifies this`verb, path
      ensures if ok then Terminated(path[..]) && RequestLineOf(line, junk) == SplitPath(verb, CString(path[..]), [])
              else RequestLineOf(line, junk) == BadMethod
    {
      LineCases(line, junk);
      hide RequestLineOf, SplitPath;
      hide Sanitise, Terminated, CString, Target, Cut;
      var word, target := SplitLine(line, junk);
      if Uppercase(word) == "GET" {
        verb := Get;
      }
      if Uppercase(word) == "POST" {
        verb := Post;
      }
      if verb == NoVerb {
        return false;
      }
      TargetNoNul(line, junk);
      CopyPath(target);
      SanitiseUrl(path);
      return true;
    }

    /** strncpy into the path buffer, and a last NUL. */
    method CopyPath(target: string)
      requires path.Length == HTTP_MAX_URL && NoNul(target)
      modifies path
      ensures Terminated(path[..]) && CString(path[..]) == Cut(target, HTTP_MAX_URL - 1)
    {
      forall k | 0 <= k < HTTP_MAX_URL {
        path[k] := if k < |target| then target[k] else '\0';
      }
      path[HTTP_MAX_URL - 1] := '\0';
      ghost var c := Cut(target, HTTP_MAX_URL - 1);
      assert path[..][HTTP_MAX_URL - 1] == '\0';
      assert c + ['\0'] <= path[..] by {
        assert path[..|c| + 1] == c + ['\0'];
      }
      CStringOf(c, path[..]);
    }

    /** The query is cut off the path and stored. */
    method SplitQuery()
      requires Terminated(path[..])
      modifies path, this`query, this`variables
      ensures Terminated(path[..])
      ensures old(query) == "" ==>
        Parsed(verb, CString(path[..]), query, variables) == SplitPath(verb, old(CString(path[..])), old(variables))
    {
      ghost var p := CString(path[..]);
      assert path[0..] == path[..] == path[..][0..];
      TextAtHolds(path[..], 0);
      UpToSays(p, '?');
      hide CString, Terminated, UpTo, Store;
      var cp := 0;
      while path[cp] != '\0' && path[cp] != '?'
        invariant cp <= |UpTo(p, '?')| < path.Length && path[..] == old(path[..])
        decreases |p| - cp
      {
        assert path[cp] == p[cp];
        cp := cp + 1;
      }
      assert cp < |p| ==> path[cp] == p[cp];
      assert cp == |UpTo(p, '?')|;
      if path[cp] != '\0' {
        path[cp] := '\0';
        cp := cp + 1;
        QueryThere(old(path[..]), path[..], p, cp);
        assert path[..][cp..] == path[cp..];
        query := CopyText(path, cp);
        ghost var b := path[..];
        StoreData(cp);
        assert forall k | 0 <= k <= cp - 1 :: path[..][k] == path[..cp][k] == b[..cp][k] == b[k];
        PathThere(b, path[..], cp - 1);
      }
    }

    /** httpdReadRequest: whatever the division of the stream into reads.  `buf` is its line buffer; `past`
        reports a store behind its end. */
    method ReadRequest(reader: Reader, buf: array<char>) returns (ok: bool, past: bool)
      requires reader.Valid() && path.Length == HTTP_MAX_URL && path != reader.readBuf
      requires buf.Length == HTTP_MAX_LEN && buf != reader.readBuf && buf != path
      requires verb == NoVerb && query == "" && variables == [] && fields == NO_FIELDS && path[0] == '\0'
      modifies this, path, buf, reader`net, reader`readBufPtr, reader`readBufRemain, reader.readBuf
      ensures reader.Valid()
      ensures match RequestOf(old(reader.Stream()), old(buf[..]))
              case BadMethod => !ok
              case parsed => ok && Parsed(verb, CString(path[..]), query, variables) == parsed
      ensures fields == FieldsOf(old(reader.Stream()), old(buf[..]))
      ensures past <==> !LinesFit(old(reader.Stream()), old(buf[..]))
    {
      hide *;
      ok, past := ReadLines(reader, buf);
      if ok {
        SplitQuery();
      }
    }

    /** The request line and the headers. */
    method ReadLines(reader: Reader, buf: array<char>) returns (ok: bool, past: bool)
      requires reader.Valid() && path.Length == HTTP_MAX_URL && path != reader.readBuf
      requires buf.Length == HTTP_MAX_LEN && buf != reader.readBuf && buf != path
      requires verb == NoVerb && fields == NO_FIELDS && path[0] == '\0'
      modifies this`verb, this`fields, path, buf, reader`net, reader`readBufPtr, reader`readBufRemain, reader.readBuf
      ensures reader.Valid()
      ensures RequestOf(old(reader.Stream()), old(buf[..])) ==
              if ok then SplitPath(verb, CString(path[..]), []) else BadMethod
      ensures ok ==> Terminated(path[..])
      ensures fields == FieldsOf(old(reader.Stream()), old(buf[..]))
      ensures past <==> !LinesFit(old(reader.Stream()), old(buf[..]))
    {
      EmptyPath(path[..]);
      ghost var s, stack := reader.Stream(), buf[..];
      StreamCases(s, stack);
      FieldCases(s, stack);
      hide *;
      var got, line, junk;
      got, line, junk, past := TakeLine(reader, buf);
      if !got {
        return true, past;
      }
      ok := FirstLine(line, junk);
      if ok {
        var more := ReadHeaders(reader, buf);
        past := past || more;
      }
    }

    /** A line, as the text up to its first NUL, and what stands behind that. */
    method TakeLine(reader: Reader, buf: array<char>) returns (got: bool, line: string, junk: string, past: bool)
      requires reader.Valid() && buf != reader.readBuf && buf.Length == HTTP_MAX_LEN
      modifies buf, reader`net, reader`readBufPtr, reader`readBufRemain, reader.readBuf
      ensures reader.Valid()
      ensures past <==> LongLine(old(reader.Stream()), HTTP_MAX_LEN)
      ensures var r := NextLine(old(reader.Stream()), HTTP_MAX_LEN, "");
        && got == r.Line?
        && (got ==> var b := LineOver(r.text, old(buf[..]));
                    && buf[..] == b && line == CString(b) && junk == Behind(b)
                    && NoNul(line) && NoNul(junk) && reader.Stream() == r.rest)
        && (!got ==> reader.Stream() == "")
    {
      hide CString, NextLine, LineOver, LongLine;
      got, past := reader.ReadLine(buf, HTTP_MAX_LEN);
      line, junk := "", "";
      if got {
        assert buf[..][0..] == buf[..] == buf[0..];
        line := CopyText(buf, 0);
        TextNoNul(buf[..], 0);
        if |line| < buf.Length {
          junk := CopyText(buf, |line| + 1);
          TextNoNul(buf[..], |line| + 1);
        }
      }
    }

    /** The header lines up to an empty one. */
    method ReadHeaders(reader: Reader, buf: array<char>) returns (past: bool)
      requires reader.Valid() && buf != reader.readBuf && buf.Length == HTTP_MAX_LEN
      modifies this`fields, buf, reader`net, reader`readBufPtr, reader`readBufRemain, reader.readBuf
      ensures reader.Valid()
      ensures HeadersOf(old(reader.Stream()), old(buf[..]), old(fields)) == (reader.Stream(), fields)
      ensures past <==> !HeadersFit(old(reader.Stream()))
    {
      hide Header, NextLine, CString, LineOver, LongLine, HeadersOf, HeadersFit;
      past := false;
      ghost var all, fits := HeadersOf(reader.Stream(), buf[..], fields), HeadersFit(reader.Stream());
      while true
        invariant reader.Valid()
        invariant HeadersOf(reader.Stream(), buf[..], fields) == all
        invariant fits <==> !past && HeadersFit(reader.Stream())
        decreases |reader.Stream()|
      {
        ghost var s, was := reader.Stream(), buf[..];
        HeadersOnce(s, was, fields);
        var got, line, junk, long := TakeLine(reader, buf);
        past := past || long;
        if !got {
          return;
        }
        if line == "" {
          return;
        }
        TakeHeader(buf, line);
      }
    }

    /** The fields of one header line. */
    method TakeHeader(buf: array<char>, line: string)
      requires line == CString(buf[..])
      modifies this`fields
      ensures fields == Header(buf[..], old(fields))
    {
      hide Uppercase, CString, Base64.Decoded, Credentials;
      TextFits(buf[..]);
      var n := |AUTHORIZATION|;
      if Begins(line, AUTHORIZATION) && BASIC <= line[n..] {
        assert buf[n + |BASIC|..] == buf[..][n + |BASIC|..];
        TakeCredentials(Padded(buf[n + |BASIC|..]));
      }
      if Begins(line, HOST) {
        fields := fields.(host := Cut(line[|HOST|..], HTTP_MAX_URL - 1));
      }
    }

    /** Encoded credentials. */
    method TakeCredentials(coded: seq<char>)
      requires exists c :: coded == Padded(c)
      modifies this`fields
      ensures fields == if Decodable(coded) then Credentials(Plaintext(coded), old(fields))
                        else old(fields).(outside := true)
    {
      hide CString, Base64.SkipBlanks, Base64.RunLength, Base64.Taken, Base64.Rounds, Decodable, Plaintext, Credentials;
      ghost var c :| coded == Padded(c);
      PaddedReads(c, Base64.AUTH_BUF_LEN);
      var authBuf := new char[Base64.AUTH_BUF_LEN](_ => '\0');
      var count, outside := Base64.HttpdDecode(coded, authBuf);
      PlainLeft(coded, authBuf[..], count, outside);
      if outside {
        fields := fields.(outside := true);
      } else {
        assert authBuf[..][0..] == authBuf[..] == authBuf[0..];
        var plain := CopyText(authBuf, 0);
        fields := Credentials(plain, fields);
      }
    }
  }

  lemma TextFits(b: seq<char>)
    ensures |CString(b)| <= |b|
  {
  }

  /** One header line. */
  lemma HeadersOnce(s: string, was: seq<char>, f: Fields)
    requires |was| == HTTP_MAX_LEN
    ensures var r := NextLine(s, HTTP_MAX_LEN, "");
      && (r.NoLine? ==> HeadersOf(s, was, f) == ("", f) && (HeadersFit(s) <==> !LongLine(s, HTTP_MAX_LEN)))
      && (r.Line? ==>
            var b := LineOver(r.text, was);
            && HeadersOf(s, was, f) == (if CString(b) == "" then (r.rest, f) else HeadersOf(r.rest, b, Header(b, f)))
            && (HeadersFit(s) <==> !LongLine(s, HTTP_MAX_LEN) && (CString(b) == "" || HeadersFit(r.rest)))
            && |r.rest| < |s|)
  {
    var r := NextLine(s, HTTP_MAX_LEN, "");
    if r.Line? {
      SameEmpty(r.text, was);
    }
    hide NextLine, LineOver, CString, LongLine, Header;
  }

  lemma SameEmpty(text: string, was: seq<char>)
    requires |was| == HTTP_MAX_LEN
    ensures CString(text) == "" <==> CString(LineOver(text, was)) == ""
  {
    if text != "" {
      assert LineOver(text, was)[0] == text[0];
    }
  }

  lemma LineCases(line: string, junk: string)
    ensures var verb := VerbOf(line[..Alphas(line)]);
      RequestLineOf(line, junk) == if verb == NoVerb then BadMethod
                                   else SplitPath(verb, Sanitise(Cut(Target(line, junk), HTTP_MAX_URL - 1)), [])
  {
  }

  lemma StreamCases(s: string, stack: seq<char>)
    ensures var r := NextLine(s, HTTP_MAX_LEN, "");
      RequestOf(s, stack) ==
        if r.Line? then RequestLineOf(CString(LineOver(r.text, stack)), Behind(LineOver(r.text, stack)))
        else Parsed(NoVerb, "", "", [])
  {
    hide NextLine, LineOver, RequestLineOf;
  }

  lemma FieldCases(s: string, stack: seq<char>)
    ensures var r := NextLine(s, HTTP_MAX_LEN, "");
      var bad := RequestOf(s, stack).BadMethod?;
      && FieldsOf(s, stack) == (if r.NoLine? || bad then NO_FIELDS
                                else HeadersOf(r.rest, LineOver(r.text, stack), NO_FIELDS).1)
      && (LinesFit(s, stack) <==> !LongLine(s, HTTP_MAX_LEN) && (r.NoLine? || bad || HeadersFit(r.rest)))
  {
    hide NextLine, HeadersOf, LineOver, LongLine, HeadersFit, RequestLineOf;
  }

  /** A line shorter than the buffer, as the code then reads it. */
  lemma LineThere(text: string, was: seq<char>)
    requires |text| < |was|
    ensures CString(LineOver(text, was)) == CString(text)
  {
    var b := LineOver(text, was);
    assert b[..|text|] == text && b[0..|text|] == text && b[|text|] == '\0';
    assert b[0..] == b;
    TextOf(b, 0, text);
  }

  lemma EmptyPath(b: seq<char>)
    requires b != [] && b[0] == '\0'
    ensures Terminated(b) && CString(b) == "" && SplitPath(NoVerb, "", []) == Parsed(NoVerb, "", "", [])
  {
  }

  /** The query behind the question mark. */
  lemma QueryThere(b: seq<char>, b': seq<char>, p: string, cp: nat)
    requires p == TextAt(b, 0) && |p| < |b| && b[|p|] == '\0' && 0 < cp <= |p|
    requires (forall i | 0 <= i < |p| :: b[i] == p[i] != '\0') && b' == b[cp - 1 := '\0']
    ensures Terminated(b'[cp..]) && TextAt(b', cp) == p[cp..]
    ensures TextAt(b', 0) == p[..cp - 1]
  {
    assert b'[cp..][|p| - cp] == '\0';
    assert b'[cp..cp + (|p| - cp)] == p[cp..];
    TextAtIs(b', cp, p[cp..]);
    assert b'[0..cp - 1] == p[..cp - 1];
    TextAtIs(b', 0, p[..cp - 1]);
  }

  /** What stands before `n` and the NUL there are all that the text is made of. */
  lemma PathThere(b: seq<char>, b': seq<char>, n: nat)
    requires |b| == |b'| && n < |b| && b[n] == '\0' && (forall k | 0 <= k <= n :: b[k] == b'[k])
    ensures TextAt(b, 0) == TextAt(b', 0) && Terminated(b')
  {
    assert b[0..n] == b'[0..n];
    TextOf(b, 0, b[0..n]);
    TextOf(b', 0, b[0..n]);
  }

  /** The two words of a request line. */
  method SplitLine(line: string, junk: string) returns (word: string, target: string)
    ensures word == line[..Alphas(line)] && target == Target(line, junk)
  {
    var cp2 := 0;
    while cp2 < |line| && Alpha(line[cp2])
      invariant cp2 <= |line| && Alphas(line) == cp2 + Alphas(line[cp2..])
    {
      assert line[cp2..][1..] == line[cp2 + 1..];
      cp2 := cp2 + 1;
    }
    word := line[..cp2];
    var rest := if cp2 < |line| then line[cp2 + 1..] else junk;
    var tail := SkipSpaces(rest);
    target := UpToBlank(tail);
  }

  method SkipSpaces(rest: string) returns (tail: string)
    ensures tail == rest[Spaces(rest)..]
  {
    var cp := 0;
    while cp < |rest| && rest[cp] == ' '
      invariant cp <= |rest| && Spaces(rest) == cp + Spaces(rest[cp..])
    {
      assert rest[cp..][1..] == rest[cp + 1..];
      cp := cp + 1;
    }
    tail := rest[cp..];
  }

  method UpToBlank(tail: string) returns (word: string)
    ensures word == UpTo(tail, ' ')
  {
    var cp2 := 0;
    while cp2 < |tail| && tail[cp2] != ' '
      invariant cp2 <= |tail| && ' ' !in tail[..cp2]
    {
      assert tail[..cp2 + 1] == tail[..cp2] + [tail[cp2]];
      cp2 := cp2 + 1;
    }
    UpToIs(tail, ' ', cp2);
    word := tail[..cp2];
  }

  lemma TargetNoNul(line: string, junk: string)
    requires NoNul(line) && NoNul(junk)
    ensures NoNul(Target(line, junk))
  {
    hide NoNul, UpTo, Alphas, Spaces;
    var n := Alphas(line);
    var rest := if n < |line| then line[n + 1..] else junk;
    if n < |line| {
      NoNulPart(line, n + 1, |line|);
      assert line[n + 1..|line|] == rest;
    }
    var tail := rest[Spaces(rest)..];
    NoNulPart(rest, Spaces(rest), |rest|);
    assert rest[Spaces(rest)..|rest|] == tail;
    WordNoNul(tail);
  }

  lemma WordNoNul(s: string)
    requires NoNul(s)
    ensures NoNul(UpTo(s, ' '))
  {
    UpToSays(s, ' ');
    hide UpTo;
  }

  lemma NoNulPart(s: string, i: nat, j: nat)
    requires NoNul(s) && i <= j <= |s|
    ensures NoNul(s[i..j])
  {
  }

  lemma ZerosAre(b: seq<char>)
    requires forall k | 0 <= k < |b| :: b[k] == '\0'
    ensures b == Zeros(|b|)
  {
  }

  /** Up to `cp` characters are written in the name buffer; the value has begun after a NUL. */
  ghost predicate Writable(name: seq<char>, cp: nat, cp2: nat, val: int) {
    && (forall k | 0 <= k < |name| :: k >= cp ==> name[k] == '\0')
    && (val >= 0 ==> cp > 0 && (forall k | 0 <= k < |name| :: k >= cp - 1 ==> name[k] == '\0'))
  }

  /** From `from` on the buffer still holds the query. */
  ghost predicate Unread(b: seq<char>, q: string, at: nat, from: int) {
    && 0 <= from && at + |q| < |b| && b[at + |q|] == '\0' && NoNul(q)
    && (forall i | 0 <= i < |b| :: at + from <= i < at + |q| ==> b[i] == q[i - at])
  }

  /** Text that a NUL ends, up to its first NUL. */
  lemma TextOf(b: seq<char>, at: nat, r: string)
    requires at + |r| < |b| && b[at..at + |r|] == r && b[at + |r|] == '\0'
    ensures TextAt(b, at) == CString(r)
  {
    hide CString;
    var t := b[at..];
    assert t[..|r|] == b[at..at + |r|] && t[|r|] == b[at + |r|];
    assert t[..|r| + 1] == t[..|r|] + [t[|r|]];
    CStringPrefix(r, b[at..]);
  }

  // ---------- What stands behind the line ----------

  /** The request does not end with its method. */
  predicate HasTarget(s: string) {
    var r := NextLine(s, HTTP_MAX_LEN, "");
    r.NoLine? || VerbOf(r.text[..Alphas(r.text)]) == NoVerb || Alphas(r.text) < |r.text|
  }

  lemma {:induction false} SameAlphas(text: string)
    ensures Alphas(CString(text)) == Alphas(text) <= |CString(text)|
  {
    if text != "" && Alpha(text[0]) {
      SameAlphas(text[1..]);
      assert CString(text)[1..] == CString(text[1..]);
    }
  }

  lemma {:induction false} CStringIsStart(text: string)
    ensures CString(text) <= text
  {
    if text != "" && text[0] != '\0' {
      CStringIsStart(text[1..]);
      assert text == [text[0]] + text[1..];
    }
  }

  lemma AlphasOfText(text: string)
    ensures Alphas(CString(text)) == Alphas(text) <= |CString(text)|
    ensures CString(text)[..Alphas(text)] == text[..Alphas(text)]
  {
    SameAlphas(text);
    CStringIsStart(text);
    hide *;
  }

  /** A NUL inside a line ends it, and what is behind that is part of the line. */
  lemma InnerText(text: string, was: seq<char>)
    requires |text| < |was|
    ensures CString(LineOver(text, was)) == CString(text)
    ensures |CString(text)| < |text| ==> Behind(LineOver(text, was)) == CString(text[|CString(text)| + 1..])
    ensures |CString(text)| == |text| ==> Behind(LineOver(text, was)) == CString(was[|text| + 1..])
  {
    var b, n := LineOver(text, was), |CString(text)|;
    LineThere(text, was);
    hide CString, LineOver;
    if n < |text| {
      LineTail(text, was, n + 1);
      CStringPrefix(text[n + 1..], b[n + 1..]);
    } else {
      LineTail(text, was, n + 1);
    }
  }

  /** The line buffer from a place on. */
  lemma LineTail(text: string, was: seq<char>, n: nat)
    requires |text| < |was| && n <= |text| + 1
    ensures |LineOver(text, was)| == |was|
    ensures n <= |text| ==> text[n..] + ['\0'] <= LineOver(text, was)[n..]
    ensures n == |text| + 1 ==> LineOver(text, was)[n..] == was[n..]
  {
    var b := LineOver(text, was);
    if n <= |text| {
      assert b[n..] == text[n..] + ['\0'] + was[|text| + 1..];
    }
  }

  /** Of a request whose first line does not end with its method, or that fills the line buffer, nothing
      depends on what stood in the buffer before. */
  lemma StackDoesNotMatter(s: string, stack: seq<char>, other: seq<char>)
    requires |stack| == |other| == HTTP_MAX_LEN && HasTarget(s)
    ensures RequestOf(s, stack) == RequestOf(s, other)
  {
    var r := NextLine(s, HTTP_MAX_LEN, "");
    StreamCases(s, stack);
    StreamCases(s, other);
    if r.Line? {
      var b, c := LineOver(r.text, stack), LineOver(r.text, other);
      if |r.text| < HTTP_MAX_LEN {
        InnerText(r.text, stack);
        InnerText(r.text, other);
        AlphasOfText(r.text);
        NoTargetTaken(CString(r.text), Behind(b), Behind(c));
        if Alphas(r.text) < |r.text| && Alphas(r.text) == |CString(r.text)| {
          assert Behind(b) == Behind(c);
        }
      } else {
        assert b == c;
      }
    }
  }

  /** A line without a method is refused; one that goes on after it does not look behind itself. */
  lemma NoTargetTaken(line: string, junk: string, other: string)
    ensures VerbOf(line[..Alphas(line)]) == NoVerb || Alphas(line) < |line| ==>
            RequestLineOf(line, junk) == RequestLineOf(line, other)
  {
    LineCases(line, junk);
    LineCases(line, other);
    hide Sanitise, Cut, SplitPath, RequestLineOf, VerbOf, Alphas;
  }

  /** Otherwise the path is read from there. */
  lemma StackMatters(s: string) returns (stack: seq<char>, other: seq<char>)
    requires !HasTarget(s)
    ensures |stack| == |other| == HTTP_MAX_LEN && RequestOf(s, stack) != RequestOf(s, other)
  {
    var text := NextLine(s, HTTP_MAX_LEN, "").text;
    MethodIsShort(s);
    stack, other := Stacks(|text|);
    hide *;
    MethodAlone(s, text, stack, "");
    MethodAlone(s, text, other, "x");
    PathsOfJunk();
  }

  lemma MethodIsShort(s: string)
    requires !HasTarget(s)
    ensures var r := NextLine(s, HTTP_MAX_LEN, "");
      && r.Line? && |r.text| <= 4 && |CString(r.text)| == |r.text| && Alphas(r.text) == |r.text|
      && VerbOf(r.text[..Alphas(r.text)]) != NoVerb
  {
    ShortMethod(NextLine(s, HTTP_MAX_LEN, "").text);
    hide NextLine, VerbOf, Alphas, CString;
  }

  /** Two contents of the line buffer that differ behind a line of `n` characters. */
  lemma Stacks(n: nat) returns (stack: seq<char>, other: seq<char>)
    requires n <= 4
    ensures |stack| == |other| == HTTP_MAX_LEN > n + 1
    ensures CString(stack[n + 1..]) == "" && CString(other[n + 1..]) == "x"
  {
    stack := seq(HTTP_MAX_LEN, _ => '\0');
    other := stack[n + 1 := 'x'];
    assert stack[n + 1..][0] == '\0' && other[n + 1..][0] == 'x' && other[n + 1..][1] == '\0';
    NothingBehindLine(stack[n + 1..]);
    XBehindLine(other[n + 1..]);
  }

  /** A line that is only its method, and the text behind it. */
  lemma MethodAlone(s: string, text: string, stack: seq<char>, junk: string)
    requires var r := NextLine(s, HTTP_MAX_LEN, ""); r.Line? && r.text == text && |text| + 1 < |stack|
    requires VerbOf(text[..Alphas(text)]) != NoVerb && Alphas(text) == |text| && |CString(text)| == |text|
    requires CString(stack[|text| + 1..]) == junk && (junk == "" || junk == "x")
    ensures RequestOf(s, stack) == SplitPath(VerbOf(text[..Alphas(text)]), Sanitise(junk), [])
  {
    AlphasOfText(text);
    WholeText(text);
    hide *;
    InnerText(text, stack);
    StreamCases(s, stack);
    JunkPath(text, junk);
  }

  lemma WholeText(text: string)
    requires |CString(text)| == |text|
    ensures CString(text) == text
  {
    CStringIsStart(text);
  }

  lemma NothingBehindLine(b: seq<char>)
    requires b != [] && b[0] == '\0'
    ensures CString(b) == ""
  {
  }

  lemma XBehindLine(b: seq<char>)
    requires |b| > 1 && b[0] == 'x' && b[1] == '\0'
    ensures CString(b) == "x"
  {
    assert CString(b[1..]) == "";
  }

  lemma ShortMethod(text: string)
    requires VerbOf(text[..Alphas(text)]) != NoVerb && Alphas(text) == |text|
    ensures |text| <= 4 && |CString(text)| == |text|
  {
    AlphasOfText(text);
    assert text[..|text|] == text;
    assert |Uppercase(text)| == |text|;
  }

  lemma JunkPath(line: string, junk: string)
    requires VerbOf(line[..Alphas(line)]) != NoVerb && Alphas(line) == |line| && (junk == "" || junk == "x")
    ensures RequestLineOf(line, junk) == SplitPath(VerbOf(line[..Alphas(line)]), Sanitise(junk), [])
  {
    hide *;
    LineCases(line, junk);
    TargetIsJunk(line, junk);
    JunkIsShort(junk);
  }

  lemma JunkIsShort(junk: string)
    requires junk == "" || junk == "x"
    ensures Cut(junk, HTTP_MAX_URL - 1) == junk
  {
  }

  lemma TargetIsJunk(line: string, junk: string)
    requires Alphas(line) == |line| && (junk == "" || junk == "x")
    ensures Target(line, junk) == junk
  {
    assert Spaces(junk) == 0 && junk[0..] == junk && junk[..|junk|] == junk;
    assert ' ' !in junk;
    hide UpTo, Alphas;
    UpToIs(junk, ' ', |junk|);
  }

  lemma PathsOfJunk()
    ensures Sanitise("") == "" && Sanitise("x") == "x"
    ensures forall v :: SplitPath(v, "", []) == Parsed(v, "", "", []) && SplitPath(v, "x", []) == Parsed(v, "x", "", [])
  {
    assert "x"[1..] == "";
    assert Collapse("x") == "x" && DropDots("x") == "x";
    assert GoUp("x", "", 0) == GoUp("", "" + ['x'], 0) == "x";
    UpToIs("x", '?', 1);
    assert "x"[..1] == "x";
  }

  // ---------- Lines that fill the buffer ----------

  /** A stream that begins with as many characters as the line buffer has, and no line end among them. */
  lemma FullLineOverruns(w: string, rest: string, stack: seq<char>)
    requires |w| == HTTP_MAX_LEN && OneLine(w) && '\r' !in w
    ensures LongLine(w + rest, HTTP_MAX_LEN) && !LinesFit(w + rest, stack)
  {
    NoReturns(w);
    hide WithoutReturns, NextLine, Body;
    assert w[|w| - 1] in w;
    LongLineIsCut(w, rest, HTTP_MAX_LEN, "");
    LineOfStream(w + rest, HTTP_MAX_LEN, "");
    assert "" + w == w;
    StreamCases(w + rest, stack);
  }
}
