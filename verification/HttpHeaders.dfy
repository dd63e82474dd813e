/** The header lines that httpdReadRequest of libhttpd/api.c uses: Authorization and Host. */
module HttpHeaders {
  import opened Letters
  import opened Sanitiser
  import opened HttpText
  import opened HttpVars
  import opened HttpReader
  import Base64

  const HTTP_MAX_LEN: nat := 10240
  const HTTP_MAX_URL: nat := 1024
  const HTTP_MAX_AUTH: nat := 128

  // ---------- Letter case ----------

  function Upper(c: char): (r: char) {
    if 'a' <= c <= 'z' then (c as int - 32) as char else c
  }

  function Uppercase(s: string): (r: string)
    ensures |r| == |s|
  {
    if s == "" then "" else [Upper(s[0])] + Uppercase(s[1..])
  }

  lemma {:induction false} SameLettersIs(a: string, b: string)
    ensures SameLetters(a, b) <==> Uppercase(a) == Uppercase(b)
  {
    if a != "" && b != "" {
      SameLettersIs(a[1..], b[1..]);
      LetterCase(a[0], b[0]);
      assert a == [a[0]] + a[1..] && b == [b[0]] + b[1..];
      assert SameLetters(a, b) <==> SameLetter(a[0], b[0]) && SameLetters(a[1..], b[1..]);
      hide SameLetters, Upper, SameLetter;
      var u, v := Uppercase(a), Uppercase(b);
      assert u[0] == Upper(a[0]) && u[1..] == Uppercase(a[1..]) && v[0] == Upper(b[0]) && v[1..] == Uppercase(b[1..]);
    }
  }

  lemma LetterCase(c: char, d: char)
    ensures SameLetter(c, d) <==> Upper(c) == Upper(d)
  {
  }

  /** The line begins with `word` in any letter case. */
  predicate Begins(line: string, word: string) {
    |word| <= |line| && Uppercase(line[..|word|]) == Uppercase(word)
  }

  function Cut(s: string, n: nat): (r: string)
    ensures |r| <= n
  {
    if |s| <= n then s else s[..n]
  }

  // ---------- One header ----------

  /** What a request keeps of its headers; `outside` says that decoding credentials wrote outside its
      buffer. */
  datatype Fields = Fields(host: string, user: string, password: string, outside: bool)

  const NO_FIELDS := Fields("", "", "", false)

  const AUTHORIZATION := "Authorization: "
  const BASIC := "Basic "
  const HOST := "Host: "

  /** What stands behind the line buffer is read as NUL. */
  function Padded(coded: seq<char>): (r: seq<char>)
    ensures |r| == |coded| + 4
  {
    coded + ['\0', '\0', '\0', '\0']
  }

  /** The text that decoding `coded` leaves in its buffer. */
  function Plaintext(coded: seq<char>): (plain: string) {
    var s := coded[Base64.SkipBlanks(coded)..];
    var k := Base64.Rounds(Base64.Taken(s, Base64.AUTH_BUF_LEN));
    if 4 * k <= |s| && Base64.Count(s, Base64.AUTH_BUF_LEN) <= 3 * k
    then CString(Base64.Groups(s, k)[..Base64.Count(s, Base64.AUTH_BUF_LEN)]) else ""
  }

  /** Decoding `coded` stays inside its buffer. */
  predicate Decodable(coded: seq<char>) {
    Base64.RunFits(Base64.RunLength(coded[Base64.SkipBlanks(coded)..]), Base64.AUTH_BUF_LEN)
  }

  /** User and password, apart at the first colon; without one the password stays as it was. */
  function Credentials(plain: string, f: Fields): (r: Fields) {
    var user := UpTo(plain, ':');
    var g := f.(user := Cut(user, HTTP_MAX_AUTH - 1));
    if |user| < |plain| then g.(password := Cut(plain[|user| + 1..], HTTP_MAX_AUTH - 1)) else g
  }

  /** A header line, in its buffer. */
  function Header(b: seq<char>, f: Fields): (r: Fields) {
    var line := CString(b);
    var n := |AUTHORIZATION|;
    var g :=
      if !Begins(line, AUTHORIZATION) || !(BASIC <= line[n..]) then f
      else
        var coded := Padded(b[n + |BASIC|..]);
        if Decodable(coded) then Credentials(Plaintext(coded), f) else f.(outside := true);
    if Begins(line, HOST) then g.(host := Cut(line[|HOST|..], HTTP_MAX_URL - 1)) else g
  }

  /** Header lines are read up to an empty one; `was` stands in the line buffer before. */
  function HeadersOf(s: string, was: seq<char>, f: Fields): (r: (string, Fields))
    decreases |s|
  {
    match NextLine(s, HTTP_MAX_LEN, "")
    case NoLine => ("", f)
    case Line(text, rest) =>
      var b := LineOver(text, was);
      if CString(b) == "" then (rest, f) else HeadersOf(rest, b, Header(b, f))
  }

  /** Every line read leaves room for its NUL. */
  predicate HeadersFit(s: string)
    decreases |s|
  {
    !LongLine(s, HTTP_MAX_LEN) &&
    match NextLine(s, HTTP_MAX_LEN, "")
    case NoLine => true
    case Line(text, rest) => CString(text) == "" || HeadersFit(rest)
  }

  // ---------- Decoding in its buffer ----------

  lemma {:induction false} BlanksEnd(s: seq<char>)
    ensures SkipLimit(s)
  {
    if s != [] {
      BlanksEnd(s[1..]);
      assert s[1..] + ['\0', '\0', '\0', '\0'] == Padded(s)[1..];
    }
  }

  /** Neither blanks nor the alphabet run go beyond the text before the padding. */
  ghost predicate SkipLimit(s: seq<char>) {
    Base64.SkipBlanks(Padded(s)) <= |s|
  }

  lemma {:induction false} RunEnds(s: seq<char>)
    ensures Base64.RunLength(Padded(s)) <= |s|
  {
    if s != [] {
      RunEnds(s[1..]);
      assert s[1..] + ['\0', '\0', '\0', '\0'] == Padded(s)[1..];
    }
  }

  /** The groups that are read lie within the padded text. */
  lemma ReadsFit(s: seq<char>, o: nat)
    requires Base64.RunLength(s) + 3 <= |s|
    ensures 4 * Base64.Rounds(Base64.Taken(s, o)) <= |s|
  {
    var n := Base64.RunLength(s);
    var k := (n + 3) / 4;
    Base64.RoundsOf(n, k);
    if 3 * k > o {
      Base64.ShortTaken(k, o);
    }
    hide Base64.RunLength, Base64.Rounds;
  }

  lemma PaddedReads(coded: seq<char>, o: nat)
    ensures var p := Padded(coded); var s := p[Base64.SkipBlanks(p)..];
      Base64.RunLength(s) < |s| && 4 * Base64.Rounds(Base64.Taken(s, o)) <= |s|
  {
    BlanksEnd(coded);
    var p := Padded(coded);
    var n := Base64.SkipBlanks(p);
    var rest := coded[n..];
    assert p[n..] == Padded(rest);
    RunEnds(rest);
    ReadsFit(p[n..], o);
  }

  /** What the decoder left is the plain text, unless it wrote outside. */
  lemma PlainLeft(coded: seq<char>, b: seq<char>, count: nat, outside: bool)
    requires |b| == Base64.AUTH_BUF_LEN
    requires var s := coded[Base64.SkipBlanks(coded)..];
      4 * Base64.Rounds(Base64.Taken(s, |b|)) <= |s| && Base64.Decoded(s, b, count, outside)
    ensures outside <==> !Decodable(coded)
    ensures !outside ==> Terminated(b) && CString(b) == Plaintext(coded)
  {
    var s := coded[Base64.SkipBlanks(coded)..];
    Base64.StaysInside(s, |b|);
    if !outside {
      FitsCounted(s, |b|);
      var g := Base64.Groups(s, Base64.Rounds(Base64.Taken(s, |b|)));
      hide Base64.SkipBlanks, Base64.Taken, Base64.Rounds, Base64.Groups, Base64.Count, CString, Base64.RunLength;
      SameStart(b, g, count);
      CStringPrefix(g[..count], b);
    }
  }

  /** When the run fits, all of it is decoded, and the count lies within. */
  lemma FitsCounted(s: seq<char>, o: nat)
    requires 4 * Base64.Rounds(Base64.Taken(s, o)) <= |s| && Base64.RunFits(Base64.RunLength(s), o)
    ensures Base64.Count(s, o) <= 3 * Base64.Rounds(Base64.Taken(s, o))
  {
    hide Base64.RunLength, Base64.Rounds, Base64.Pr2Six;
    var n := Base64.RunLength(s);
    var k := (n + 3) / 4;
    assert 3 * k <= o;
    Base64.RoundsOf(n, k);
    assert Base64.Taken(s, o) == n;
    hide Base64.Taken, Base64.RunFits;
  }

  lemma SameStart(b: seq<char>, g: string, count: nat)
    requires count <= |g| && count < |b| && b[count] == '\0'
    requires forall i | 0 <= i < |g| :: i < |b| && (i != count ==> b[i] == g[i])
    ensures g[..count] + ['\0'] <= b && Terminated(b)
  {
    assert b[..count] == g[..count];
    assert b[..count + 1] == g[..count] + ['\0'];
  }

  /** Text that a NUL ends, up to its first NUL. */
  lemma {:induction false} CStringPrefix(r: string, b: seq<char>)
    requires r + ['\0'] <= b
    ensures CString(b) == CString(r)
  {
    if r == "" {
      assert b[0] == '\0';
    } else {
      assert b[0] == r[0];
      assert r[1..] + ['\0'] <= b[1..];
      CStringPrefix(r[1..], b[1..]);
    }
  }

  // ---------- Credentials come back ----------

  /** A header line with the text `x` encoded, behind any blanks. */
  function LineWith(name: string, blanks: string, x: string): (line: string) {
    name + ("Basic " + (blanks + Base64.Encode(x)))
  }

  /** What the decoder is given: the blanks, the encoding, and what stands behind the line. */
  function CredentialsCoded(name: string, blanks: string, x: string, was: seq<char>): (coded: seq<char>) {
    var n := |LineWith(name, blanks, x)|;
    blanks + (Base64.Encode(x) + Padded(['\0'] + if n < |was| then was[n + 1..] else []))
  }

  /** The header of a client that sends credentials. */
  function CredentialsLine(name: string, blanks: string, user: string, password: string): (line: string) {
    LineWith(name, blanks, user + (":" + password))
  }

  ghost predicate BlankText(w: string) {
    forall k | 0 <= k < |w| :: w[k] == ' ' || w[k] == '\t'
  }

  /** Encoded credentials, any blanks before them and any text behind their NUL. */
  lemma PlainOfEncoded(blanks: string, x: string, t: seq<char>)
    requires BlankText(blanks) && x != "" && Bytes(x) && NoNul(x) && t != [] && t[0] == '\0'
    ensures var coded := blanks + (Base64.Encode(x) + t);
      (Decodable(coded) <==> |x| < Base64.AUTH_BUF_LEN) && (Decodable(coded) ==> Plaintext(coded) == x)
  {
    hide *;
    var s := Base64.Encode(x) + t;
    var coded := blanks + s;
    NulEnds(t);
    BlanksPassed(blanks, x, t);
    DecodableIs(coded, s);
    EncodedFits(x, t);
    if |x| < Base64.AUTH_BUF_LEN {
      EncodedPlain(x, t, coded);
    }
  }

  lemma NulEnds(t: seq<char>)
    requires t != [] && t[0] == '\0'
    ensures Base64.Pr2Six(t[0]) > 63
  {
  }

  lemma BlanksPassed(blanks: string, x: string, t: seq<char>)
    requires BlankText(blanks) && x != "" && t != []
    ensures var coded := blanks + (Base64.Encode(x) + t); coded[Base64.SkipBlanks(coded)..] == Base64.Encode(x) + t
  {
    hide Base64.Encode, Base64.SkipBlanks;
    Base64.BlanksSkipped(blanks, x, t);
  }

  lemma EncodedFits(x: string, t: seq<char>)
    requires Bytes(x) && t != [] && Base64.Pr2Six(t[0]) > 63
    ensures Base64.RunFits(Base64.RunLength(Base64.Encode(x) + t), Base64.AUTH_BUF_LEN) <==> |x| < Base64.AUTH_BUF_LEN
  {
    hide *;
    Base64.LongCredentialsOverrun(x, t);
    Base64.StaysInside(Base64.Encode(x) + t, Base64.AUTH_BUF_LEN);
  }

  lemma EncodedPlain(x: string, t: seq<char>, coded: seq<char>)
    requires Bytes(x) && NoNul(x) && t != [] && Base64.Pr2Six(t[0]) > 63 && |x| < Base64.AUTH_BUF_LEN
    requires coded[Base64.SkipBlanks(coded)..] == Base64.Encode(x) + t
    ensures Plaintext(coded) == x
  {
    hide *;
    Base64.HundredFit(|x|);
    Base64.PlainOf(x, t, Base64.AUTH_BUF_LEN);
    PlaintextIs(coded, Base64.Encode(x) + t);
    CStringWhole(x);
  }

  lemma DecodableIs(coded: seq<char>, s: seq<char>)
    requires s == coded[Base64.SkipBlanks(coded)..]
    ensures Decodable(coded) <==> Base64.RunFits(Base64.RunLength(s), Base64.AUTH_BUF_LEN)
  {
  }

  lemma PlaintextIs(coded: seq<char>, s: seq<char>)
    requires s == coded[Base64.SkipBlanks(coded)..]
    requires var k := Base64.Rounds(Base64.Taken(s, Base64.AUTH_BUF_LEN));
      4 * k <= |s| && Base64.Count(s, Base64.AUTH_BUF_LEN) <= 3 * k
    ensures var k := Base64.Rounds(Base64.Taken(s, Base64.AUTH_BUF_LEN));
      Plaintext(coded) == CString(Base64.Groups(s, k)[..Base64.Count(s, Base64.AUTH_BUF_LEN)])
  {
    hide Base64.SkipBlanks, Base64.Rounds, Base64.Taken, Base64.Count, Base64.Groups, CString;
  }

  lemma CStringWhole(x: string)
    requires NoNul(x)
    ensures CString(x) == x
  {
    assert '\0' !in x;
    CStringOf(x, x + ['\0']);
    CStringPrefix(x, x + ['\0']);
  }

  lemma NotHost(line: string)
    requires line != "" && (line[0] == 'A' || line[0] == 'a')
    ensures !Begins(line, HOST)
  {
    if |HOST| <= |line| {
      var p := line[..|HOST|];
      UpperFirst(p);
      UpperFirst(HOST);
      assert p[0] == line[0] && HOST[0] == 'H';
      hide Uppercase;
    }
  }

  /** The text of such a header line in its buffer, and what the decoder is given. */
  lemma CredentialsShape(name: string, blanks: string, x: string, was: seq<char>)
    requires |name| == |AUTHORIZATION| && NoNul(name) && BlankText(blanks)
    requires |LineWith(name, blanks, x)| < |was|
    ensures var line := LineWith(name, blanks, x);
      var b := LineOver(line, was);
      var n := |AUTHORIZATION|;
      && |b| == |was| && n + |BASIC| <= |line| && CString(b) == line && line[..n] == name && BASIC <= line[n..]
      && Padded(b[n + |BASIC|..]) == CredentialsCoded(name, blanks, x, was)
  {
    var e := Base64.Encode(x);
    var tail := blanks + e;
    var line := LineWith(name, blanks, x);
    var b := LineOver(line, was);
    EncodedNoNul(x);
    hide Base64.Encode;
    LineNoNul(name, blanks, e);
    assert '\0' !in line;
    assert line + ['\0'] <= b;
    CStringOf(line, b);
    var n := |AUTHORIZATION|;
    assert line[n..] == BASIC + tail;
    assert line[n + |BASIC|..] == tail;
    assert b[n + |BASIC|..] == tail + (['\0'] + was[|line| + 1..]);
    assert Padded(b[n + |BASIC|..]) == blanks + (e + Padded(['\0'] + was[|line| + 1..]));
  }

  lemma {:induction false} EncodedNoNul(x: string)
    ensures NoNul(Base64.Encode(x))
  {
    if x == "" {
    } else if |x| <= 3 {
      GroupNoNul(x);
    } else {
      GroupNoNul(x[..3]);
      EncodedNoNul(x[3..]);
      hide Base64.EncodeGroup;
    }
  }

  lemma GroupNoNul(x: string)
    requires 1 <= |x| <= 3
    ensures NoNul(Base64.EncodeGroup(x))
  {
    hide Base64.Sextets;
  }

  lemma LineNoNul(name: string, blanks: string, e: string)
    requires NoNul(name) && BlankText(blanks) && NoNul(e)
    ensures NoNul(name + (BASIC + (blanks + e)))
  {
    assert NoNul(BASIC);
  }

  /** Main result: a header with credentials, its name in any letter case and any blanks before them, sets
      exactly that user and that password when they and their colon have fewer than a hundred characters;
      otherwise decoding them writes outside its buffer. */
  lemma CredentialsRoundTrip(name: string, blanks: string, user: string, password: string, was: seq<char>, f: Fields)
    requires SameLetters(name, "Authorization: ") && BlankText(blanks)
    requires var x := user + (":" + password); Bytes(x) && NoNul(x) && ':' !in user
    requires |CredentialsLine(name, blanks, user, password)| < |was|
    ensures Header(LineOver(CredentialsLine(name, blanks, user, password), was), f) ==
            if |user| + 1 + |password| < Base64.AUTH_BUF_LEN then f.(user := user, password := password)
            else f.(outside := true)
  {
    NameLetters(name, "Authorization: ");
    SameLettersIs(name, "Authorization: ");
    hide *;
    var x := user + (":" + password);
    var line, coded := CredentialsLine(name, blanks, user, password), CredentialsCoded(name, blanks, x, was);
    SomeText(user, password);
    CredentialsLineIs(name, blanks, user, password);
    CredentialsHeader(name, blanks, x, was);
    CredentialsDecoded(name, blanks, x, was);
    HeaderIs(LineOver(line, was), f, line, coded);
    if |x| < Base64.AUTH_BUF_LEN {
      Sizes();
      CredentialsParted(user, password, f);
    }
  }

  /** A header name in another letter case. */
  lemma NameLetters(name: string, word: string)
    requires SameLetters(name, word) && word in {"Authorization: ", "Host: "}
    ensures |name| == |word| > 0 && NoNul(name) && name[0] != '\0'
  {
    forall k | 0 <= k < |word| ensures word[k] != '\0' {
    }
  }

  /** Main result: a header with a host, its name in any letter case, sets exactly that host, cut at 1023
      characters. */
  lemma HostRoundTrip(name: string, host: string, was: seq<char>, f: Fields)
    requires SameLetters(name, "Host: ") && NoNul(host) && |name + host| < |was|
    ensures Header(LineOver(name + host, was), f) == f.(host := if |host| < 1024 then host else host[..1023])
  {
    NameLetters(name, "Host: ");
    SameLettersIs(name, "Host: ");
    var line := name + host;
    assert NoNul(line) && '\0' !in line;
    assert line + ['\0'] <= LineOver(line, was);
    CStringOf(line, LineOver(line, was));
    assert line[..6] == name && line[6..] == host;
    NotAuthorization(line);
    hide Uppercase, CString, LineOver, NoNul, SameLetters;
  }

  /** A header of any other name changes nothing. */
  lemma OtherHeaderIgnored(line: string, was: seq<char>, f: Fields)
    requires NoNul(line) && |line| < |was|
    requires |line| >= 15 ==> !SameLetters(line[..15], "Authorization: ")
    requires |line| >= 6 ==> !SameLetters(line[..6], "Host: ")
    ensures Header(LineOver(line, was), f) == f
  {
    assert '\0' !in line;
    assert line + ['\0'] <= LineOver(line, was);
    CStringOf(line, LineOver(line, was));
    if |line| >= 15 {
      SameLettersIs(line[..15], "Authorization: ");
    }
    if |line| >= 6 {
      SameLettersIs(line[..6], "Host: ");
    }
    hide Uppercase, CString, LineOver, NoNul, SameLetters;
  }

  /** Credentials of another scheme change nothing. */
  lemma OtherSchemeIgnored(name: string, scheme: string, was: seq<char>, f: Fields)
    requires SameLetters(name, "Authorization: ") && NoNul(scheme) && !("Basic " <= scheme)
    requires |name + scheme| < |was|
    ensures Header(LineOver(name + scheme, was), f) == f
  {
    NameLetters(name, "Authorization: ");
    SameLettersIs(name, "Authorization: ");
    FirstIsA(name);
    var line := name + scheme;
    assert line[0] == name[0] && line[15..] == scheme;
    NotHost(line);
    hide *;
    LineInBuffer(name, scheme, was);
    NoBasicHeader(LineOver(line, was), f, line);
  }

  lemma LineInBuffer(name: string, rest: string, was: seq<char>)
    requires NoNul(name) && NoNul(rest) && |name + rest| < |was|
    ensures CString(LineOver(name + rest, was)) == name + rest
  {
    var line := name + rest;
    assert '\0' !in line;
    assert line + ['\0'] <= LineOver(line, was);
    CStringOf(line, LineOver(line, was));
  }

  lemma NoBasicHeader(b: seq<char>, f: Fields, line: string)
    requires CString(b) == line && |line| >= 15 && !("Basic " <= line[15..]) && !Begins(line, HOST)
    ensures Header(b, f) == f
  {
    hide CString, Begins, Decodable, Credentials, Plaintext;
  }

  lemma NotAuthorization(line: string)
    requires line != "" && (line[0] == 'H' || line[0] == 'h')
    ensures !Begins(line, AUTHORIZATION)
  {
    if |AUTHORIZATION| <= |line| {
      var p := line[..|AUTHORIZATION|];
      UpperFirst(p);
      UpperFirst(AUTHORIZATION);
      assert p[0] == line[0] && AUTHORIZATION[0] == 'A';
      hide Uppercase;
    }
  }

  lemma CredentialsHeader(name: string, blanks: string, x: string, was: seq<char>)
    requires Uppercase(name) == Uppercase(AUTHORIZATION) && NoNul(name) && BlankText(blanks)
    requires |LineWith(name, blanks, x)| < |was|
    ensures var line := LineWith(name, blanks, x);
      IsCredentials(LineOver(line, was), line, CredentialsCoded(name, blanks, x, was))
  {
    var line := LineWith(name, blanks, x);
    FirstIsA(name);
    CredentialsShape(name, blanks, x, was);
    hide LineOver, CString, Uppercase, Base64.Encode, NoNul, BlankText, CredentialsCoded, Padded;
    assert line[0] == line[..|AUTHORIZATION|][0] == name[0];
    NotHost(line);
  }

  lemma CredentialsDecoded(name: string, blanks: string, x: string, was: seq<char>)
    requires BlankText(blanks) && x != "" && Bytes(x) && NoNul(x)
    ensures var coded := CredentialsCoded(name, blanks, x, was);
      (Decodable(coded) <==> |x| < Base64.AUTH_BUF_LEN) && (Decodable(coded) ==> Plaintext(coded) == x)
  {
    hide Plaintext, Decodable, Base64.Encode, NoNul, Bytes, BlankText, LineWith;
    var n := |LineWith(name, blanks, x)|;
    var t := Padded(['\0'] + if n < |was| then was[n + 1..] else []);
    assert t[0] == '\0';
    PlainOfEncoded(blanks, x, t);
  }

  lemma CredentialsLineIs(name: string, blanks: string, user: string, password: string)
    ensures CredentialsLine(name, blanks, user, password) == LineWith(name, blanks, user + (":" + password))
  {
  }

  lemma SomeText(user: string, password: string)
    ensures user + (":" + password) != ""
  {
  }

  lemma Sizes()
    ensures Base64.AUTH_BUF_LEN < HTTP_MAX_AUTH
  {
  }

  lemma UpperFirst(s: string)
    requires s != ""
    ensures Uppercase(s)[0] == Upper(s[0])
  {
  }

  lemma FirstIsA(name: string)
    requires Uppercase(name) == Uppercase(AUTHORIZATION)
    ensures |name| == |AUTHORIZATION| && (name[0] == 'A' || name[0] == 'a')
  {
    hide Uppercase;
    assert |AUTHORIZATION| == |Uppercase(name)| == |name|;
    assert AUTHORIZATION[0] == 'A';
    UpperFirst(name);
    UpperFirst(AUTHORIZATION);
  }

  /** The buffer holds a header line with credentials `coded`. */
  ghost predicate IsCredentials(b: seq<char>, line: string, coded: seq<char>) {
    var n := |AUTHORIZATION|;
    && CString(b) == line && Begins(line, AUTHORIZATION) && !Begins(line, HOST)
    && BASIC <= line[n..] && n + |BASIC| <= |b| && coded == Padded(b[n + |BASIC|..])
  }

  lemma HeaderIs(b: seq<char>, f: Fields, line: string, coded: seq<char>)
    requires IsCredentials(b, line, coded)
    ensures Header(b, f) == if Decodable(coded) then Credentials(Plaintext(coded), f) else f.(outside := true)
  {
    hide CString, Begins, Decodable, Credentials, Plaintext;
  }

  /** Text without a colon is a user, and the password stays. */
  lemma UserAlone(user: string, f: Fields)
    requires ':' !in user
    ensures Credentials(user, f) == f.(user := if |user| < 128 then user else user[..127])
  {
    UpToIs(user, ':', |user|);
    assert user[..|user|] == user;
  }

  /** Both are cut at 127 characters. */
  lemma CredentialsCut(user: string, password: string, f: Fields)
    requires ':' !in user
    ensures Credentials(user + (":" + password), f) ==
            f.(user := if |user| < 128 then user else user[..127],
               password := if |password| < 128 then password else password[..127])
  {
    var x := user + (":" + password);
    assert x[..|user|] == user && x[|user|] == ':' && x[|user| + 1..] == password;
    UpToIs(x, ':', |user|);
  }

  lemma CredentialsParted(user: string, password: string, f: Fields)
    requires ':' !in user && |user| < HTTP_MAX_AUTH && |password| < HTTP_MAX_AUTH
    ensures Credentials(user + (":" + password), f) == f.(user := user, password := password)
  {
    CredentialsCut(user, password, f);
  }

  // ---------- Several headers ----------

  function HeaderText(lines: seq<string>): (s: string) {
    if lines == [] then "" else lines[0] + "\r\n" + HeaderText(lines[1..])
  }

  /** The fields that some header lines set one after the other, each over the one before in the buffer. */
  function HeadersSet(lines: seq<string>, was: seq<char>, f: Fields): (r: Fields)
    decreases |lines|
  {
    if lines == [] then f
    else HeadersSet(lines[1..], LineOver(lines[0], was), Header(LineOver(lines[0], was), f))
  }

  ghost predicate HeaderLine(line: string) {
    OneLine(line) && '\r' !in line && line != "" && line[0] != '\0' && |line| < HTTP_MAX_LEN
  }

  /** Main result: every header line up to the empty one is used, in order, and what follows that is left. */
  lemma {:induction false} EveryHeader(lines: seq<string>, body: string, was: seq<char>, f: Fields)
    requires (forall k | 0 <= k < |lines| :: HeaderLine(lines[k])) && |was| == HTTP_MAX_LEN
    ensures HeadersOf(HeaderText(lines) + ("\r\n" + body), was, f) == (body, HeadersSet(lines, was, f))
    decreases |lines|
  {
    var rest := "\r\n" + body;
    if lines == [] {
      PlainLineRead("", body);
      assert "" + "\r\n" + body == "" + rest == rest;
      assert LineOver("", was)[0] == '\0';
      hide NextLine, Header, LineOver;
    } else {
      var line, more := lines[0], HeaderText(lines[1..]) + rest;
      assert HeaderLine(line);
      PlainLineRead(line, more);
      assert HeaderText(lines) + rest == line + "\r\n" + more;
      var b := LineOver(line, was);
      assert b[0] == line[0] && |b| == HTTP_MAX_LEN;
      hide NextLine, Header, LineOver, HeaderLine;
      EveryHeader(lines[1..], body, b, Header(b, f));
    }
  }

  /** A header line alone, and the empty line behind it. */
  lemma OneHeader(line: string, body: string, was: seq<char>, f: Fields)
    requires HeaderLine(line) && |was| == HTTP_MAX_LEN
    ensures HeadersOf(line + "\r\n" + ("\r\n" + body), was, f) == (body, Header(LineOver(line, was), f))
  {
    EveryHeader([line], body, was, f);
    assert [line][1..] == [];
    assert HeaderText([line]) == line + "\r\n" + "" == line + "\r\n";
    hide HeadersOf, Header, LineOver;
  }

  lemma PlainLineRead(line: string, rest: string)
    requires OneLine(line) && '\r' !in line && |line| < HTTP_MAX_LEN
    ensures NextLine(line + "\r\n" + rest, HTTP_MAX_LEN, "") == Line(line, rest)
  {
    NoReturns(line);
    ReturnDropped(line);
    ReturnBehind(line);
    hide NextLine, WithoutReturns, OneLine;
    LineIsRead(line + "\r", '\n', rest, HTTP_MAX_LEN, "");
    assert "" + line == line;
  }

  lemma ReturnBehind(line: string)
    requires OneLine(line)
    ensures OneLine(line + "\r") && line + "\r" + ['\n'] == line + "\r\n"
  {
  }

  lemma {:induction false} NoReturns(s: string)
    requires '\r' !in s
    ensures WithoutReturns(s) == s
  {
    if s != "" {
      assert s[0] in s && s == [s[0]] + s[1..];
      NoReturns(s[1..]);
    }
  }

  lemma {:induction false} ReturnDropped(s: string)
    ensures WithoutReturns(s + "\r") == WithoutReturns(s)
  {
    if s != "" {
      assert (s + "\r")[1..] == s[1..] + "\r";
      ReturnDropped(s[1..]);
    } else {
      assert (s + "\r")[1..] == "";
    }
  }
}
