/** The authentication link: http_nodogsplash_make_authtarget and http_nodogsplash_decode_authtarget of
    src/http.c, and what becomes of a link between the two. */
module AuthLink {
  import opened Options
  import opened Letters
  import opened Sanitiser
  import opened SanitiserPaths
  import opened HttpText
  import opened HttpVars
  import opened HttpEncodings
  import opened HttpReader
  import opened HttpHeaders
  import opened HttpRequest
  import Base64

  // ---------- Queries ----------

  /** The fields as a link has them, each value encoded; `+` is read as a blank. */
  function Written(fields: seq<Pair>): (r: seq<Field>)
    ensures |r| == |fields|
  {
    seq(|fields|, i requires 0 <= i < |fields| =>
      Field(fields[i].name, Escape(fields[i].value), PlusToSpace(fields[i].value)))
  }

  function QueryOf(fields: seq<Pair>): (q: string) {
    QueryText(Written(fields))
  }

  ghost predicate NameAndText(f: Pair) {
    '=' !in f.name && '&' !in f.name && Bytes(f.value) && NoNul(f.value)
  }

  ghost predicate TextsOk(fields: seq<Pair>) {
    forall k | 0 <= k < |fields| :: NameAndText(fields[k])
  }

  /** The fields as they come back. */
  function ReadBack(fields: seq<Pair>): (r: seq<Pair>) {
    if fields == [] then [] else [Pair(fields[0].name, PlusToSpace(fields[0].value))] + ReadBack(fields[1..])
  }

  lemma EscapeHasNo(s: string)
    ensures var e := Escape(s); '=' !in e && '&' !in e && '/' !in e && '?' !in e && ' ' !in e && '\0' !in e
    ensures forall k | 0 <= k < |Escape(s)| :: 32 < Escape(s)[k] as int < 128
  {
    forall k | 0 <= k < |Escape(s)| ensures HttpText.Plain(Escape(s)[k]) {
      EscapeIsPlain(s, k);
    }
  }

  lemma {:induction false} ReadAsWritten(fields: seq<Pair>)
    requires TextsOk(fields)
    ensures FieldsOk(Written(fields)) && FieldsRead(Written(fields)) == ReadBack(fields)
    decreases |fields|
  {
    if fields != [] {
      var f, more := fields[0], fields[1..];
      assert NameAndText(f);
      EscapeHasNo(f.value);
      EncoderEncodes(f.value);
      CStringWhole(PlusToSpace(f.value));
      hide Escape, Encodes, CString, NoNul;
      assert Written(fields)[1..] == Written(more);
      ReadAsWritten(more);
      forall k | 0 <= k < |fields| ensures HttpEncodings.FieldOk(Written(fields)[k]) {
        if k > 0 {
          assert Written(fields)[k] == Written(more)[k - 1];
        }
      }
    }
  }

  /** Main result: an encoded query is read back field by field. */
  lemma QueryRoundTrip(fields: seq<Pair>, buf: seq<char>)
    requires TextsOk(fields)
    ensures Pairs(QueryOf(fields), buf) == ReadBack(fields)
  {
    ReadAsWritten(fields);
    AnyQueryRead(Written(fields), buf);
  }

  // ---------- The link ----------

  function LinkFields(redir: string, token: string): (f: seq<Pair>) {
    [Pair("redir", redir), Pair("tok", token)]
  }

  function LinkPath(authdir: string): (s: string) { "/" + authdir + "/" }

  /** The part of the link that a client sends. */
  function LinkTarget(authdir: string, redir: string, token: string): (s: string) {
    LinkPath(authdir) + "?" + QueryOf(LinkFields(redir, token))
  }

  /** A directory name that can stand in a request line as it is, and that the sanitiser leaves alone. */
  ghost predicate DirOk(authdir: string) {
    && (forall k | 0 <= k < |authdir| :: 32 < authdir[k] as int < 128 && authdir[k] != '?')
    && Clean(LinkPath(authdir))
  }

  /** The word of a method, in any letter case. */
  predicate Names(word: string, verb: Verb) {
    (verb.Get? && SameLetters(word, "GET")) || (verb.Post? && SameLetters(word, "POST"))
  }

  function LineText(word: string, target: string): (s: string) { word + " " + target + " HTTP/1.1" }

  /** The request a client sends for a target. */
  function RequestText(word: string, target: string, headers: string): (s: string) {
    LineText(word, target) + "\r\n" + headers
  }

  /** Text for the middle of a request line. */
  ghost predicate Printable(s: string) {
    forall k | 0 <= k < |s| :: 32 < s[k] as int < 128
  }

  lemma WordOf(word: string, verb: Verb)
    requires Names(word, verb)
    ensures 3 <= |word| <= 4 && VerbOf(word) == verb && forall k | 0 <= k < |word| :: Alpha(word[k])
  {
    SameLettersIs(word, if verb.Get? then "GET" else "POST");
    UppercaseWords();
    var w := if verb.Get? then "GET" else "POST";
    assert forall k | 0 <= k < |w| :: 'A' <= w[k] <= 'Z';
    hide Uppercase;
  }

  lemma UppercaseWords()
    ensures Uppercase("GET") == "GET" && Uppercase("POST") == "POST"
  {
    assert "GET"[1..] == "ET" && "ET"[1..] == "T" && "T"[1..] == "";
    assert "POST"[1..] == "OST" && "OST"[1..] == "ST" && "ST"[1..] == "T";
    assert Uppercase("T") == "T" && Uppercase("ET") == "ET" && Uppercase("ST") == "ST" && Uppercase("OST") == "OST";
  }

  lemma LineTextShape(word: string, verb: Verb, target: string)
    requires Names(word, verb) && Printable(target)
    ensures |LineText(word, target)| == |word| + |target| + 10
    ensures forall k | 0 <= k < |LineText(word, target)| :: 32 <= LineText(word, target)[k] as int < 128
  {
    WordOf(word, verb);
    hide VerbOf, Names;
    var line := LineText(word, target);
    forall k | 0 <= k < |line| ensures 32 <= line[k] as int < 128 {
      if k < |word| {
        assert line[k] == word[k];
      } else if |word| < k <= |word| + |target| {
        assert line[k] == target[k - |word| - 1];
      }
    }
  }

  /** The first line of the stream. */
  lemma RequestLineRead(word: string, verb: Verb, target: string, headers: string)
    requires Names(word, verb) && Printable(target) && |target| < HTTP_MAX_URL
    ensures var line := LineText(word, target);
      && |line| < HTTP_MAX_LEN && NextLine(RequestText(word, target, headers), HTTP_MAX_LEN, "") == Line(line, headers)
      && CString(line) == line
  {
    WordOf(word, verb);
    LineTextShape(word, verb, target);
    hide LineText, NextLine, CString, Names, VerbOf;
    var line := LineText(word, target);
    assert '\r' !in line && NoNul(line) && OneLine(line);
    PlainLineRead(line, headers);
    CStringWhole(line);
  }

  /** Its words. */
  lemma RequestLineSplit(word: string, verb: Verb, target: string, junk: string)
    requires Names(word, verb) && Printable(target) && target != "" && target[0] == '/'
    ensures var line := LineText(word, target);
      VerbOf(line[..Alphas(line)]) == verb && Target(line, junk) == target
  {
    var line := LineText(word, target);
    WordOf(word, verb);
    AlphasOf(word, [' '] + target + " HTTP/1.1");
    assert line == word + ([' '] + target + " HTTP/1.1");
    var n := |word|;
    assert Alphas(line) == n && line[..n] == word;
    hide VerbOf, Names;
    var rest := line[n + 1..];
    assert rest == target + " HTTP/1.1";
    assert rest[0] == '/';
    assert Spaces(rest) == 0;
    assert rest[0..] == rest;
    assert rest[..|target|] == target && rest[|target|] == ' ';
    UpToIs(rest, ' ', |target|);
  }

  lemma {:induction false} AlphasOf(w: string, rest: string)
    requires (forall k | 0 <= k < |w| :: Alpha(w[k])) && (rest == "" || !Alpha(rest[0]))
    ensures Alphas(w + rest) == |w|
  {
    if w != "" {
      assert (w + rest)[1..] == w[1..] + rest;
      AlphasOf(w[1..], rest);
    } else {
      assert w + rest == rest;
    }
  }

  /** A query without a slash behind a clean path. */
  lemma CleanWithQuery(p: string, q: string)
    requires Clean(p + "/") && '/' !in q && q != "" && q[0] != '.'
    ensures Clean(p + "/" + q)
  {
    var s, d := p + "/" + q, p + "/";
    assert forall k | 0 <= k < |d| :: d[k] == s[k];
    forall k | 0 <= k < |s| ensures !Dotted(s[k..]) {
      if k < |p| {
        assert !Dotted(d[k..]);
        NotDottedMore(d[k..], q);
        assert s[k..] == d[k..] + q;
      } else if k == |p| {
        assert s[k..][0] == '/' && s[k..][1] == q[0];
        assert q[0] in q;
      } else {
        assert s[k..][0] == q[k - |p| - 1];
        assert q[k - |p| - 1] in q;
      }
    }
  }

  /** Text that ends in a slash and is not dotted at its start stays so. */
  lemma NotDottedMore(d: string, q: string)
    requires |d| > 1 && d[|d| - 1] == '/' && !Dotted(d)
    ensures !Dotted(d + q)
  {
    var s := d + q;
    assert forall k | 0 <= k < |d| :: s[k] == d[k];
  }

  lemma LinkTargetShape(authdir: string, redir: string, token: string)
    requires DirOk(authdir)
    ensures var p, q := LinkPath(authdir), QueryOf(LinkFields(redir, token));
      && LinkTarget(authdir, redir, token) == p + "?" + q
      && Printable(LinkTarget(authdir, redir, token)) && Clean(LinkTarget(authdir, redir, token))
      && UpTo(LinkTarget(authdir, redir, token), '?') == p
      && '\0' !in q
  {
    var p, q, t := LinkPath(authdir), QueryOf(LinkFields(redir, token)), LinkTarget(authdir, redir, token);
    QueryShape(redir, token);
    hide QueryOf, Clean;
    DirParts(authdir);
    assert t == "/" + authdir + "/" + ("?" + q);
    CleanWithQuery("/" + authdir, "?" + q);
    assert t[..|p|] == p && t[|p|] == '?';
    UpToIs(t, '?', |p|);
    forall k | 0 <= k < |t| ensures 32 < t[k] as int < 128 {
      if k < |p| {
        assert t[k] == p[k];
      } else if k > |p| {
        assert t[k] == q[k - |p| - 1];
      }
    }
  }

  lemma DirParts(authdir: string)
    requires DirOk(authdir)
    ensures Printable(LinkPath(authdir)) && '?' !in LinkPath(authdir) && Clean("/" + authdir + "/")
  {
    var p := LinkPath(authdir);
    hide Clean;
    forall k | 0 <= k < |p| ensures 32 < p[k] as int < 128 && p[k] != '?' {
      if 0 < k < |p| - 1 {
        assert p[k] == authdir[k - 1];
      }
    }
  }

  /** Text that ends neither a path nor a request line. */
  ghost predicate Quiet(s: string) {
    forall k | 0 <= k < |s| :: 32 < s[k] as int < 128 && s[k] != '/'
  }

  lemma QuietJoin(s: string, t: string)
    requires Quiet(s) && Quiet(t)
    ensures Quiet(s + t)
  {
  }

  lemma QuietEscape(s: string)
    ensures Quiet(Escape(s))
  {
    EscapeHasNo(s);
  }

  lemma QuietNames()
    ensures Quiet("redir") && Quiet("tok") && Quiet("=") && Quiet("&")
  {
  }

  /** The query of a link has no character that would end it early. */
  lemma QueryShape(redir: string, token: string)
    ensures var q := QueryOf(LinkFields(redir, token));
      Printable(q) && '/' !in q && '\0' !in q
  {
    var e, e' := Escape(redir), Escape(token);
    var f := LinkFields(redir, token);
    var q := QueryOf(f);
    LinkQuery(redir, token);
    QuietEscape(redir);
    QuietEscape(token);
    QuietNames();
    hide QueryOf, Escape;
    assert Quiet(q) by {
      hide Quiet;
      QuietJoin("redir", "=");
      QuietJoin("redir" + "=", e);
      QuietJoin("redir" + "=" + e, "&");
      QuietJoin("tok", "=");
      QuietJoin("tok" + "=", e');
      QuietJoin("redir" + "=" + e + "&", "tok" + "=" + e');
    }
  }

  lemma LinkQuery(redir: string, token: string)
    ensures QueryOf(LinkFields(redir, token)) ==
            "redir" + "=" + Escape(redir) + "&" + ("tok" + "=" + Escape(token))
  {
    hide Escape;
    var f := LinkFields(redir, token);
    assert Written(f)[1..] == [Field("tok", Escape(token), PlusToSpace(token))];
    assert QueryText(Written(f)[1..]) == "tok" + "=" + Escape(token);
  }

  lemma LinkNamed(redir: string, token: string)
    ensures var r := ReadBack(LinkFields(redir, token));
      Named(r, "redir") == [PlusToSpace(redir)] && Named(r, "tok") == [PlusToSpace(token)]
  {
    var f := LinkFields(redir, token);
    assert f[1..] == [Pair("tok", token)] && f[1..][1..] == [];
    var r := [Pair("redir", PlusToSpace(redir)), Pair("tok", PlusToSpace(token))];
    assert ReadBack(f[1..]) == [Pair("tok", PlusToSpace(token))];
    assert ReadBack(f) == r;
    assert r[1..] == [Pair("tok", PlusToSpace(token))] && r[1..][1..] == [];
    assert "redir"[0] == 'r' && "tok"[0] == 't';
    assert TrimBlank("redir") == "redir" && TrimBlank("tok") == "tok" && "redir" != "tok";
    assert Named(r[1..], "redir") == [] && Named(r[1..], "tok") == [PlusToSpace(token)];
  }

  function FirstValue(vars: seq<Var>, name: string): (v: string) {
    if Values(vars, name) == [] then "" else Values(vars, name)[0]
  }

  /** What the request is read as, whatever stands in the line buffer before. */
  lemma LinkRead(word: string, verb: Verb, authdir: string, redir: string, token: string, headers: string,
      stack: seq<char>)
    requires Names(word, verb) && DirOk(authdir)
    requires |LinkTarget(authdir, redir, token)| < HTTP_MAX_URL && |stack| == HTTP_MAX_LEN
    ensures var q := QueryOf(LinkFields(redir, token));
      RequestOf(RequestText(word, LinkTarget(authdir, redir, token), headers), stack)
      == Parsed(verb, LinkPath(authdir), q, Store([], q))
  {
    var t, p, q := LinkTarget(authdir, redir, token), LinkPath(authdir), QueryOf(LinkFields(redir, token));
    LinkTargetShape(authdir, redir, token);
    assert p[0] == '/';
    hide LinkTarget, LinkPath, QueryOf, Clean, DirOk, UpTo, Store, LinkFields, Names;
    TargetRead(word, verb, t, p, q, headers, stack);
  }

  lemma TargetRead(word: string, verb: Verb, t: string, p: string, q: string, headers: string, stack: seq<char>)
    requires t == p + "?" + q && p != "" && p[0] == '/' && |t| < HTTP_MAX_URL && |stack| == HTTP_MAX_LEN
    requires Names(word, verb) && Printable(t) && Clean(t) && UpTo(t, '?') == p
    ensures RequestOf(RequestText(word, t, headers), stack) == Parsed(verb, p, q, Store([], q))
  {
    var line := LineText(word, t);
    StreamCases(RequestText(word, t, headers), stack);
    RequestLineRead(word, verb, t, headers);
    LineThere(line, stack);
    LineParsed(word, verb, t, p, q, Behind(LineOver(line, stack)));
    hide *;
  }

  lemma LineParsed(word: string, verb: Verb, t: string, p: string, q: string, junk: string)
    requires t == p + "?" + q && p != "" && p[0] == '/' && |t| < HTTP_MAX_URL
    requires Names(word, verb) && Printable(t) && Clean(t) && UpTo(t, '?') == p
    ensures RequestLineOf(LineText(word, t), junk) == Parsed(verb, p, q, Store([], q))
  {
    LineCases(LineText(word, t), junk);
    RequestLineSplit(word, verb, t, junk);
    CleanIsFixed(t);
    assert !verb.NoVerb?;
    hide Sanitise, Clean, Printable, UpTo, Store, Alphas, Target, VerbOf, RequestLineOf, LineText, Names;
    assert t[|p| + 1..] == q;
    assert Cut(t, HTTP_MAX_URL - 1) == t;
  }

  /** Any number of blanks before a word. */
  predicate WordBehind(t: string, blanks: string, w: string, rest: string) {
    && t == blanks + w + rest && w != "" && ' ' !in w && (rest == "" || rest[0] == ' ')
    && forall k | 0 <= k < |blanks| :: blanks[k] == ' '
  }

  lemma {:induction false} FirstWord(t: string, blanks: string, w: string, rest: string)
    requires WordBehind(t, blanks, w, rest)
    ensures UpTo(t[Spaces(t)..], ' ') == w
    decreases |blanks|
  {
    if blanks == "" {
      assert t == w + rest && t[0] == w[0] && Spaces(t) == 0 && t[0..] == t;
      assert t[..|w|] == w;
      UpToIs(t, ' ', |w|);
    } else {
      assert t[0] == ' ' && t[1..] == blanks[1..] + w + rest;
      FirstWord(t[1..], blanks[1..], w, rest);
      assert t[Spaces(t)..] == t[1..][Spaces(t[1..])..];
      hide UpTo;
    }
  }

  /** The path is the first word behind the method and one character after it, cut at 1023 characters. */
  lemma PathIsSecondWord(word: string, verb: Verb, sep: char, t: string, blanks: string, w: string, rest: string,
      junk: string)
    requires Names(word, verb) && !AllLetters([sep]) && WordBehind(t, blanks, w, rest)
    ensures RequestLineOf(word + [sep] + t, junk) ==
            SplitPath(verb, Sanitise(if |w| < 1024 then w else w[..1023]), [])
  {
    var line := word + [sep] + t;
    WordOf(word, verb);
    assert [sep][0] == sep && !Alpha(sep);
    assert !verb.NoVerb?;
    hide *;
    LineCases(line, junk);
    FirstOfLineIs(word, sep, t);
    FirstWord(t, blanks, w, rest);
    TargetOf(line, |word|, junk);
    CutIs(w);
  }

  lemma FirstOfLineIs(word: string, sep: char, t: string)
    requires (forall k | 0 <= k < |word| :: Alpha(word[k])) && !Alpha(sep)
    ensures var line := word + [sep] + t;
      Alphas(line) == |word| < |line| && line[..|word|] == word && line[|word| + 1..] == t
  {
    AlphasOf(word, [sep] + t);
    var line := word + [sep] + t;
    assert line == word + ([sep] + t);
    hide Alphas, Alpha;
  }

  lemma TargetOf(line: string, n: nat, junk: string)
    requires Alphas(line) == n
    ensures Target(line, junk) ==
      var rest := if n < |line| then line[n + 1..] else junk; UpTo(rest[Spaces(rest)..], ' ')
  {
    hide UpTo, Spaces, Alphas;
  }

  lemma CutIs(w: string)
    ensures Cut(w, HTTP_MAX_URL - 1) == if |w| < 1024 then w else w[..1023]
  {
  }

  /** Of a line that is only its method it is the first word behind the line in the buffer. */
  lemma PathFromBehind(word: string, verb: Verb, junk: string, blanks: string, w: string, rest: string)
    requires Names(word, verb) && WordBehind(junk, blanks, w, rest)
    ensures RequestLineOf(word, junk) == SplitPath(verb, Sanitise(if |w| < 1024 then w else w[..1023]), [])
  {
    LineCases(word, junk);
    WordOf(word, verb);
    AlphasOf(word, "");
    assert word + "" == word && word[..|word|] == word;
    FirstWord(junk, blanks, w, rest);
    TargetOf(word, |word|, junk);
    CutIs(w);
    assert !verb.NoVerb?;
    hide *;
  }

  predicate AllLetters(w: string) {
    forall k | 0 <= k < |w| :: 'a' <= w[k] <= 'z' || 'A' <= w[k] <= 'Z'
  }

  /** Any other word where the method should be is refused. */
  lemma OtherMethodRefused(word: string, rest: string, junk: string)
    requires AllLetters(word) && (rest == "" || !AllLetters([rest[0]]))
    requires !SameLetters(word, "GET") && !SameLetters(word, "POST")
    ensures RequestLineOf(word + rest, junk) == BadMethod
  {
    assert rest != "" ==> [rest[0]][0] == rest[0];
    AlphasOf(word, rest);
    assert (word + rest)[..|word|] == word;
    SameLettersIs(word, "GET");
    SameLettersIs(word, "POST");
    UppercaseWords();
    LineCases(word + rest, junk);
    hide Sanitise, Alphas, Target, RequestLineOf, SplitPath, Uppercase;
  }

  /** What is stored. */
  lemma LinkStored(redir: string, token: string)
    requires TextsOk(LinkFields(redir, token))
    ensures var vars := Store([], QueryOf(LinkFields(redir, token)));
      FirstValue(vars, "redir") == PlusToSpace(redir) && FirstValue(vars, "tok") == PlusToSpace(token)
  {
    var fields := LinkFields(redir, token);
    var q := QueryOf(fields);
    QueryShape(redir, token);
    StoreIsPairs([], q);
    QueryRoundTrip(fields, Zeros(|q|));
    var r := ReadBack(fields);
    VariablesAreAMap([], r, "redir");
    VariablesAreAMap([], r, "tok");
    LinkNamed(redir, token);
    assert Values([], "redir") == [] && Values([], "tok") == [];
    hide Store, QueryOf, Pairs, AddAll, ReadBack, Named, LinkFields, Values, PlusToSpace;
    var vars := Store([], q);
    assert Values(vars, "redir") == [] + [PlusToSpace(redir)] == [PlusToSpace(redir)];
    assert Values(vars, "tok") == [] + [PlusToSpace(token)] == [PlusToSpace(token)];
  }

  /** Main result: a client that follows the link, by GET or by POST in any letter case, hands back the token and
      the redirection it was built from, `+` read as a space, whatever headers follow; and exactly those when
      neither has a `+`. */
  lemma LinkRoundTrip(word: string, verb: Verb, authdir: string, redir: string, token: string, headers: string,
      stack: seq<char>)
    requires Names(word, verb) && DirOk(authdir) && TextsOk(LinkFields(redir, token))
    requires |LinkTarget(authdir, redir, token)| < HTTP_MAX_URL && |stack| == HTTP_MAX_LEN
    ensures var r := RequestOf(RequestText(word, LinkTarget(authdir, redir, token), headers), stack);
      && r.Parsed? && r.verb == verb && r.path == LinkPath(authdir)
      && FirstValue(r.variables, "redir") == PlusToSpace(redir)
      && FirstValue(r.variables, "tok") == PlusToSpace(token)
      && (FirstValue(r.variables, "redir") == redir && FirstValue(r.variables, "tok") == token
          <==> '+' !in redir && '+' !in token)
  {
    assert Bytes(redir) && Bytes(token) by {
      assert NameAndText(LinkFields(redir, token)[0]) && NameAndText(LinkFields(redir, token)[1]);
    }
    LinkRead(word, verb, authdir, redir, token, headers, stack);
    LinkStored(redir, token);
    CodecRoundTrip(redir);
    CodecRoundTrip(token);
    hide *;
  }

  /** A client that follows the link and sends credentials with it is known by exactly those. */
  lemma LinkWithCredentials(word: string, verb: Verb, authdir: string, redir: string, token: string, name: string,
      blanks: string, user: string, password: string, body: string, stack: seq<char>)
    requires Names(word, verb) && DirOk(authdir) && |LinkTarget(authdir, redir, token)| < HTTP_MAX_URL
    requires SameLetters(name, "Authorization: ") && BlankText(blanks) && |stack| == HTTP_MAX_LEN
    requires var x := user + (":" + password); Bytes(x) && NoNul(x) && ':' !in user
    requires |user| + 1 + |password| < Base64.AUTH_BUF_LEN
    requires var line := CredentialsLine(name, blanks, user, password);
      |line| < HTTP_MAX_LEN && OneLine(line) && '\r' !in line
    ensures var headers := CredentialsLine(name, blanks, user, password) + "\r\n" + ("\r\n" + body);
      FieldsOf(RequestText(word, LinkTarget(authdir, redir, token), headers), stack)
      == Fields("", user, password, false)
  {
    var line := CredentialsLine(name, blanks, user, password);
    NameLetters(name, "Authorization: ");
    FirstOfLine(name, blanks, user, password);
    assert NO_FIELDS.(user := user, password := password) == Fields("", user, password, false);
    hide *;
    LinkWithHeader(word, verb, authdir, redir, token, line, body, stack);
    var b := LineOver(LineText(word, LinkTarget(authdir, redir, token)), stack);
    CredentialsRoundTrip(name, blanks, user, password, b, NO_FIELDS);
  }

  /** A client that follows the link and names a host. */
  lemma LinkWithHost(word: string, verb: Verb, authdir: string, redir: string, token: string, name: string,
      host: string, body: string, stack: seq<char>)
    requires Names(word, verb) && DirOk(authdir) && |LinkTarget(authdir, redir, token)| < HTTP_MAX_URL
    requires SameLetters(name, "Host: ") && NoNul(host) && |stack| == HTTP_MAX_LEN
    requires |name + host| < HTTP_MAX_LEN && OneLine(name + host) && '\r' !in name + host
    ensures var headers := name + host + "\r\n" + ("\r\n" + body);
      FieldsOf(RequestText(word, LinkTarget(authdir, redir, token), headers), stack)
      == Fields(if |host| < 1024 then host else host[..1023], "", "", false)
  {
    var line := name + host;
    NameLetters(name, "Host: ");
    assert line[0] == name[0];
    hide *;
    LinkWithHeader(word, verb, authdir, redir, token, line, body, stack);
    HostRoundTrip(name, host, LineOver(LineText(word, LinkTarget(authdir, redir, token)), stack), NO_FIELDS);
  }

  /** One header behind the link. */
  lemma LinkWithHeader(word: string, verb: Verb, authdir: string, redir: string, token: string, line: string,
      body: string, stack: seq<char>)
    requires Names(word, verb) && DirOk(authdir) && |LinkTarget(authdir, redir, token)| < HTTP_MAX_URL
    requires |stack| == HTTP_MAX_LEN
    requires OneLine(line) && '\r' !in line && line != "" && line[0] != '\0' && |line| < HTTP_MAX_LEN
    ensures var t := LinkTarget(authdir, redir, token);
      var b := LineOver(LineText(word, t), stack);
      && |b| == HTTP_MAX_LEN
      && FieldsOf(RequestText(word, t, line + "\r\n" + ("\r\n" + body)), stack) == Header(LineOver(line, b), NO_FIELDS)
  {
    var headers := line + "\r\n" + ("\r\n" + body);
    var t := LinkTarget(authdir, redir, token);
    var b := LineOver(LineText(word, t), stack);
    LinkTargetShape(authdir, redir, token);
    LinkRead(word, verb, authdir, redir, token, headers, stack);
    RequestLineRead(word, verb, t, headers);
    assert |b| == HTTP_MAX_LEN;
    FieldCases(RequestText(word, t, headers), stack);
    hide *;
    OneHeader(line, body, b, NO_FIELDS);
  }

  lemma FirstOfLine(name: string, blanks: string, user: string, password: string)
    requires name != ""
    ensures var line := CredentialsLine(name, blanks, user, password); line != "" && line[0] == name[0]
  {
  }

  // ---------- The two ends of the link ----------

  datatype AuthTarget = AuthTarget(authaction: string, denyaction: string, token: string, redir: string,
                                   authtarget: string, username: Option<string>, password: Option<string>,
                                   info: Option<string>, voucher: Option<string>)

  /** The loop of httpdUrlEncode: blanks of a text that ends at `n` become `+`. */
  method BlanksToPlus(a: array<char>, ghost n: nat)
    requires n < a.Length && a[n] == '\0' && (forall k | 0 <= k < n :: a[k] != '\0')
    modifies a
    ensures a[n] == '\0'
    ensures forall k | 0 <= k < n :: a[k] == if old(a[k]) == ' ' then '+' else old(a[k])
  {
    var cp := 0;
    while a[cp] != '\0'
      invariant cp <= n && a[n] == '\0'
      invariant forall k | 0 <= k < cp :: a[k] == if old(a[k]) == ' ' then '+' else old(a[k])
      invariant forall k | cp <= k < n :: a[k] == old(a[k]) != '\0'
      decreases n - cp
    {
      if a[cp] == ' ' {
        a[cp] := '+';
      }
      cp := cp + 1;
    }
  }

  /** httpdUrlEncode: the loop over blanks finds none. */
  method UrlEncode(str: string) returns (s: string)
    requires Bytes(str) && NoNul(str)
    ensures s == Escape(str)
  {
    var a := HttpdEscape(str);
    EscapeHasNo(str);
    ghost var e := Escape(str);
    hide Escape;
    assert forall k | 0 <= k < |e| :: a[..][k] == a[k] == e[k];
    BlanksToPlus(a, |e|);
    assert a[..|e|] == e;
    s := a[..a.Length - 1];
  }

  function HostText(ip: string, port: string): (s: string) { "http://" + ip + ":" + port }

  /** http_nodogsplash_make_authtarget */
  method MakeAuthTarget(ip: string, port: string, authdir: string, denydir: string, token: string, redir: string)
    returns (t: AuthTarget)
    requires Bytes(token) && NoNul(token) && Bytes(redir) && NoNul(redir)
    ensures t == AuthTarget(HostText(ip, port) + LinkPath(authdir), HostText(ip, port) + LinkPath(denydir), token,
        redir,
                            HostText(ip, port) + LinkTarget(authdir, redir, token), None, None, None, None)
  {
    var host := HostText(ip, port);
    var authaction := host + LinkPath(authdir);
    var denyaction := host + LinkPath(denydir);
    var encodedredir := UrlEncode(redir);
    var encodedtok := UrlEncode(token);
    LinkQuery(redir, token);
    hide QueryOf, Escape, HostText;
    var query := "redir" + "=" + encodedredir + "&" + ("tok" + "=" + encodedtok);
    t := AuthTarget(authaction, denyaction, token, redir, authaction + "?" + query, None, None, None, None);
    assert host + LinkPath(authdir) + "?" + query == host + (LinkPath(authdir) + "?" + query);
  }

  /** The first value under a name, if there is one. */
  function ValueIfAny(vars: seq<Var>, name: string): (v: Option<string>) {
    if Values(vars, name) == [] then None else Some(Values(vars, name)[0])
  }

  method OptionalValue(r: Request, name: string) returns (v: Option<string>)
    ensures v == ValueIfAny(r.variables, name)
  {
    var found, value := r.GetVariableByName(name);
    v := if found then Some(value) else None;
  }

  /** http_nodogsplash_decode_authtarget.  Values are C strings of bytes. */
  method DecodeAuthTarget(r: Request, ip: string, port: string, authdir: string, denydir: string)
      returns (t: AuthTarget)
    requires Bytes(FirstValue(r.variables, "tok")) && NoNul(FirstValue(r.variables, "tok"))
    requires Bytes(FirstValue(r.variables, "redir")) && NoNul(FirstValue(r.variables, "redir"))
    ensures t.token == FirstValue(r.variables, "tok") && t.redir == FirstValue(r.variables, "redir")
    ensures t.authtarget == HostText(ip, port) + LinkTarget(authdir, t.redir, t.token)
    ensures t.username == ValueIfAny(r.variables, "nodoguser") && t.password == ValueIfAny(r.variables, "nodogpass")
    ensures t.info == ValueIfAny(r.variables, "info") && t.voucher == ValueIfAny(r.variables, "voucher")
  {
    hide Bytes, NoNul, Values, LinkTarget, HostText;
    var found, token := r.GetVariableByName("tok");
    var found', redir := r.GetVariableByName("redir");
    t := MakeAuthTarget(ip, port, authdir, denydir, token, redir);
    var username := OptionalValue(r, "nodoguser");
    var password := OptionalValue(r, "nodogpass");
    var info := OptionalValue(r, "info");
    var voucher := OptionalValue(r, "voucher");
    t := t.(username := username, password := password, info := info, voucher := voucher);
  }
}
