/** Firewall rules as text: _parse_firewall_rule and TO_NEXT_WORD of src/conf.c. */
module RuleText {
  import opened Options
  import opened Letters
  import opened FwRules

  /** t_firewall_rule with its texts. */
  datatype Rule = Rule(target: RuleTarget, protocol: Option<string>, port: Option<string>, mask: string)

  datatype Parse = Parsed(rule: Rule) | Bad(code: int)

  // ---------- Words ----------

  predicate Blank(c: char) { c == ' ' || c == '\t' }

  function LowerChar(c: char): (r: char) {
    if 'A' <= c <= 'Z' then (c as int + 32) as char else c
  }

  function Lower(s: string): (r: string)
    ensures |r| == |s|
  {
    if s == "" then "" else [LowerChar(s[0])] + Lower(s[1..])
  }

  function Word(s: string): (w: string)
    ensures w <= s
  {
    if s == "" || Blank(s[0]) then "" else [s[0]] + Word(s[1..])
  }

  function SkipBlank(s: string): (r: string)
    ensures |r| <= |s|
  {
    if s != "" && Blank(s[0]) then SkipBlank(s[1..]) else s
  }

  /** The first word ends the text. */
  predicate LastWord(s: string) { |Word(s)| == |s| }

  function NextWord(s: string): (r: string)
    ensures |r| <= |s|
  {
    if LastWord(s) then "" else SkipBlank(s[|Word(s)| + 1..])
  }

  // ---------- The parser ----------

  predicate PortText(s: string) {
    s == "" || (('0' <= s[0] <= '9' || s[0] == ':') && PortText(s[1..]))
  }

  predicate MaskText(s: string) {
    s == "" || (('0' <= s[0] <= '9' || s[0] == '.' || s[0] == '/') && MaskText(s[1..]))
  }

  predicate ProtocolAhead(s: string) {
    "tcp" <= s || "udp" <= s || "all" <= s || "icmp" <= s
  }

  predicate WithPorts(p: Option<string>) {
    p.Some? && ("tcp" <= p.value || "udp" <= p.value)
  }

  const ANY_MASK := "0.0.0.0/0"

  function ParseMask(t: RuleTarget, p: Option<string>, port: Option<string>, s: string, finished: bool): (r: Parse) {
    if finished then Parsed(Rule(t, p, port, ANY_MASK))
    else if Word(s) != "to" || LastWord(s) then Bad(-4)
    else
      var mask := Word(NextWord(s));
      if MaskText(mask) then Parsed(Rule(t, p, port, mask)) else Bad(-5)
  }

  function ParsePort(t: RuleTarget, p: Option<string>, s: string, finished: bool): (r: Parse) {
    if "port" <= s then
      if !WithPorts(p) then Bad(-3)
      else
        var s' := NextWord(s);
        var port := Word(s');
        if !PortText(port) then Bad(-3)
        else ParseMask(t, p, Some(port), NextWord(s'), finished || LastWord(s) || LastWord(s'))
    else ParseMask(t, p, None, s, finished)
  }

  function ParseProtocol(t: RuleTarget, s: string, finished: bool): (r: Parse) {
    if ProtocolAhead(s) then ParsePort(t, Some(Word(s)), NextWord(s), finished || LastWord(s))
    else ParsePort(t, None, s, finished)
  }

  function TargetNamed(w: string): (t: (bool, RuleTarget)) {
    if w == "block" then (true, TargetReject)
    else if w == "drop" then (true, TargetDrop)
    else if w == "allow" then (true, TargetAccept)
    else if w == "log" then (true, TargetLog)
    else if w == "ulog" then (true, TargetUlog)
    else (false, TargetReject)
  }

  /** _parse_firewall_rule */
  function ParseRule(line: string): (r: Parse) {
    var s := Lower(line);
    var (ok, t) := TargetNamed(Word(s));
    if ok then ParseProtocol(t, NextWord(s), LastWord(s)) else Bad(-1)
  }

  // ---------- Lines as words ----------

  predicate OfCharacters(w: string, set0: string) {
    forall k | 0 <= k < |w| :: w[k] in set0
  }

  ghost predicate Gap(g: string) {
    g != "" && OfCharacters(g, " \t")
  }

  ghost predicate Gaps(gaps: nat -> string) {
    forall k: nat :: Gap(gaps(k))
  }

  /** Words with gaps between them. */
  function Join(words: seq<string>, gaps: nat -> string): (s: string) {
    if words == [] then ""
    else if |words| == 1 then words[0]
    else words[0] + (gaps(|words|) + Join(words[1..], gaps))
  }

  /** A word in small letters. */
  ghost predicate Small(w: string) {
    forall k | 0 <= k < |w| :: w[k] !in " \t" && !('A' <= w[k] <= 'Z')
  }

  /** No word is empty but perhaps the last one, behind blanks that end a line. */
  ghost predicate WordsOk(words: seq<string>) {
    forall k | 0 <= k < |words| :: Small(words[k]) && (k < |words| - 1 ==> words[k] != "")
  }

  /** The line has these words, in any letter case, with these gaps. */
  ghost predicate HasWords(line: string, words: seq<string>, gaps: nat -> string) {
    words != [] && WordsOk(words) && Gaps(gaps) && SameLetters(line, Join(words, gaps))
  }

  /** What the words of a line say. */
  function ReadWords(words: seq<string>): (r: Parse)
    requires words != []
  {
    var targets := map["block" := TargetReject, "drop" := TargetDrop, "allow" := TargetAccept, "log" := TargetLog,
                       "ulog" := TargetUlog];
    if words[0] in targets then ReadProtocol(targets[words[0]], words[1..]) else Bad(-1)
  }

  predicate BeginsPorts(w: string) {
    "tcp" <= w || "udp" <= w
  }

  function ReadProtocol(t: RuleTarget, words: seq<string>): (r: Parse) {
    if words != [] && (BeginsPorts(words[0]) || "all" <= words[0] || "icmp" <= words[0])
    then ReadPort(t, Some(words[0]), words[1..])
    else ReadPort(t, None, words)
  }

  function ReadPort(t: RuleTarget, protocol: Option<string>, words: seq<string>): (r: Parse) {
    if words == [] || !("port" <= words[0]) then ReadMask(t, protocol, None, words)
    else
      var port := if |words| > 1 then words[1] else "";
      if protocol.None? || !BeginsPorts(protocol.value) || !OfCharacters(port, "0123456789:") then Bad(-3)
      else ReadMask(t, protocol, Some(port), if |words| > 1 then words[2..] else [])
  }

  function ReadMask(t: RuleTarget, protocol: Option<string>, port: Option<string>, words: seq<string>): (r: Parse) {
    if words == [] then Parsed(Rule(t, protocol, port, "0.0.0.0/0"))
    else if words[0] != "to" || |words| == 1 then Bad(-4)
    else if OfCharacters(words[1], "0123456789./") then Parsed(Rule(t, protocol, port, words[1]))
    else Bad(-5)
  }

  // ---------- The parser reads words ----------

  lemma BlankIs(c: char)
    ensures Blank(c) <==> c in " \t"
  {
    assert " \t"[0] == ' ' && " \t"[1] == '\t';
  }

  lemma {:induction false} LowerIs(line: string, s: string)
    requires SameLetters(line, s) && forall k | 0 <= k < |s| :: !('A' <= s[k] <= 'Z')
    ensures Lower(line) == s
  {
    if line != "" {
      LowerIs(line[1..], s[1..]);
      assert s == [s[0]] + s[1..];
    }
  }

  lemma {:induction false} JoinSmall(words: seq<string>, gaps: nat -> string)
    requires WordsOk(words) && Gaps(gaps)
    ensures forall k | 0 <= k < |Join(words, gaps)| :: !('A' <= Join(words, gaps)[k] <= 'Z')
    decreases |words|
  {
    if words != [] {
      assert Small(words[0]);
      if |words| > 1 {
        JoinSmall(words[1..], gaps);
        var g := gaps(|words|);
        assert Gap(g);
        forall k | 0 <= k < |g| ensures !('A' <= g[k] <= 'Z') {
          BlankIs(g[k]);
        }
      }
    }
  }

  lemma {:induction false} WordOf(w: string, rest: string)
    requires (forall k | 0 <= k < |w| :: !Blank(w[k])) && (rest == "" || Blank(rest[0]))
    ensures Word(w + rest) == w
  {
    if w != "" {
      assert (w + rest)[1..] == w[1..] + rest;
      WordOf(w[1..], rest);
    } else {
      assert w + rest == rest;
    }
  }

  lemma {:induction false} SkipGap(g: string, rest: string)
    requires (forall k | 0 <= k < |g| :: Blank(g[k])) && (rest == "" || !Blank(rest[0]))
    ensures SkipBlank(g + rest) == rest
  {
    if g != "" {
      assert (g + rest)[1..] == g[1..] + rest;
      SkipGap(g[1..], rest);
    } else {
      assert g + rest == rest;
    }
  }

  lemma FirstOfMore(w: string, g: string, rest: string)
    requires Small(w) && Gap(g) && (rest == "" || !Blank(rest[0]))
    ensures var s := w + (g + rest); Word(s) == w && !LastWord(s) && NextWord(s) == rest
  {
    var s := w + (g + rest);
    assert (g + rest)[0] == g[0];
    forall c: char ensures Blank(c) <==> c in " \t" {
      BlankIs(c);
    }
    WordOf(w, g + rest);
    hide Word;
    assert s[|w| + 1..] == g[1..] + rest;
    SkipGap(g[1..], rest);
  }

  lemma OneWord(w: string)
    requires Small(w)
    ensures Word(w) == w && LastWord(w) && NextWord(w) == ""
  {
    forall c: char ensures Blank(c) <==> c in " \t" {
      BlankIs(c);
    }
    WordOf(w, "");
    assert w + "" == w;
  }

  lemma JoinStarts(words: seq<string>, gaps: nat -> string)
    requires WordsOk(words)
    ensures var s := Join(words, gaps); s == "" || !Blank(s[0])
  {
    if words != [] && words[0] != "" {
      assert Small(words[0]);
      BlankIs(words[0][0]);
    }
  }

  lemma JoinWords(words: seq<string>, gaps: nat -> string)
    requires words != [] && WordsOk(words) && Gaps(gaps)
    ensures var s := Join(words, gaps);
      Word(s) == words[0] && (LastWord(s) <==> |words| == 1) && NextWord(s) == Join(words[1..], gaps)
    ensures WordsOk(words[1..])
  {
    var w, more := words[0], words[1..];
    RestOk(words);
    if |words| == 1 {
      hide Small, Word, LastWord, NextWord, WordsOk;
      OneWord(w);
      assert more == [];
    } else {
      assert Gap(gaps(|words|));
      hide Small, Word, LastWord, NextWord, WordsOk, Gap;
      JoinStarts(more, gaps);
      FirstOfMore(w, gaps(|words|), Join(more, gaps));
    }
  }

  lemma RestOk(words: seq<string>)
    requires words != [] && WordsOk(words)
    ensures Small(words[0]) && WordsOk(words[1..])
  {
  }

  /** A keyword begins the line if and only if it begins the first word. */
  lemma KeywordAhead(p: string, words: seq<string>, gaps: nat -> string)
    requires p != "" && Small(p) && WordsOk(words) && Gaps(gaps)
    ensures p <= Join(words, gaps) <==> words != [] && p <= words[0]
  {
    if |words| > 1 {
      var s, w, g := Join(words, gaps), words[0], gaps(|words|);
      assert Gap(g);
      assert s[..|w|] == w && s[|w|] == g[0];
    }
  }

  lemma {:induction false} PortTextIs(w: string)
    ensures PortText(w) <==> OfCharacters(w, "0123456789:")
  {
    if w != "" {
      PortTextIs(w[1..]);
      PortCharacter(w[0]);
      assert w == [w[0]] + w[1..];
    }
  }

  lemma {:induction false} MaskTextIs(w: string)
    ensures MaskText(w) <==> OfCharacters(w, "0123456789./")
  {
    if w != "" {
      MaskTextIs(w[1..]);
      MaskCharacter(w[0]);
      assert w == [w[0]] + w[1..];
    }
  }

  lemma PortCharacter(c: char)
    ensures '0' <= c <= '9' || c == ':' <==> c in "0123456789:"
  {
    var d := "0123456789:";
    assert d[0] == '0' && d[1] == '1' && d[2] == '2' && d[3] == '3' && d[4] == '4' && d[5] == '5' && d[6] == '6'
        && d[7] == '7' && d[8] == '8' && d[9] == '9' && d[10] == ':';
  }

  lemma MaskCharacter(c: char)
    ensures '0' <= c <= '9' || c == '.' || c == '/' <==> c in "0123456789./"
  {
    var d := "0123456789./";
    assert d[0] == '0' && d[1] == '1' && d[2] == '2' && d[3] == '3' && d[4] == '4' && d[5] == '5' && d[6] == '6'
        && d[7] == '7' && d[8] == '8' && d[9] == '9' && d[10] == '.' && d[11] == '/';
  }

  lemma MaskRead(t: RuleTarget, p: Option<string>, port: Option<string>, words: seq<string>, gaps: nat -> string)
    requires WordsOk(words) && Gaps(gaps)
    ensures ParseMask(t, p, port, Join(words, gaps), words == []) == ReadMask(t, p, port, words)
  {
    if words != [] {
      JoinWords(words, gaps);
      if |words| > 1 {
        JoinWords(words[1..], gaps);
        MaskTextIs(words[1]);
      }
    }
    hide Word, NextWord, LastWord, Join, MaskText, WordsOk, Gaps;
  }

  /** The port behind its keyword. */
  lemma PortBehind(t: RuleTarget, p: Option<string>, words: seq<string>, gaps: nat -> string)
    requires words != [] && WordsOk(words) && Gaps(gaps)
    ensures var s := NextWord(Join(words, gaps));
      var port := if |words| > 1 then words[1] else "";
      var more := if |words| > 1 then words[2..] else [];
      && Word(s) == port && (PortText(port) <==> OfCharacters(port, "0123456789:"))
      && ParseMask(t, p, Some(port), NextWord(s), LastWord(Join(words, gaps)) || LastWord(s))
      == ReadMask(t, p, Some(port), more)
  {
    JoinWords(words, gaps);
    if |words| > 1 {
      JoinWords(words[1..], gaps);
      PortTextIs(words[1]);
      MaskRead(t, p, Some(words[1]), words[2..], gaps);
      assert words[1..][1..] == words[2..];
    } else {
      OneWord("");
      PortTextIs("");
      MaskRead(t, p, Some(""), [], gaps);
    }
    hide Word, NextWord, LastWord, PortText, ParseMask, WordsOk, Gaps, ReadMask, OfCharacters;
  }

  lemma PortUnfolds(t: RuleTarget, p: Option<string>, s: string, finished: bool)
    ensures var s' := NextWord(s);
      ParsePort(t, p, s, finished) ==
      if !("port" <= s) then ParseMask(t, p, None, s, finished)
      else if !(p.Some? && BeginsPorts(p.value)) || !PortText(Word(s')) then Bad(-3)
      else ParseMask(t, p, Some(Word(s')), NextWord(s'), finished || LastWord(s) || LastWord(s'))
  {
    hide NextWord, LastWord, Word, PortText, ParseMask;
  }

  lemma ReadPortUnfolds(t: RuleTarget, p: Option<string>, words: seq<string>)
    ensures var port := if |words| > 1 then words[1] else "";
      ReadPort(t, p, words) ==
      if words == [] || !("port" <= words[0]) then ReadMask(t, p, None, words)
      else if !(p.Some? && BeginsPorts(p.value)) || !OfCharacters(port, "0123456789:") then Bad(-3)
      else ReadMask(t, p, Some(port), if |words| > 1 then words[2..] else [])
  {
    hide ReadMask, OfCharacters, BeginsPorts;
  }

  lemma PortRead(t: RuleTarget, p: Option<string>, words: seq<string>, gaps: nat -> string)
    requires WordsOk(words) && Gaps(gaps)
    ensures ParsePort(t, p, Join(words, gaps), words == []) == ReadPort(t, p, words)
  {
    PortIsSmall();
    hide *;
    PortUnfolds(t, p, Join(words, gaps), words == []);
    ReadPortUnfolds(t, p, words);
    KeywordAhead("port", words, gaps);
    MaskRead(t, p, None, words, gaps);
    if words != [] {
      PortBehind(t, p, words, gaps);
    }
  }

  lemma PortIsSmall()
    ensures Small("port") && Small("tcp") && Small("udp") && Small("all") && Small("icmp")
  {
  }

  lemma ProtocolUnfolds(t: RuleTarget, s: string, finished: bool)
    ensures ParseProtocol(t, s, finished) ==
      if "tcp" <= s || "udp" <= s || "all" <= s || "icmp" <= s
      then ParsePort(t, Some(Word(s)), NextWord(s), finished || LastWord(s))
      else ParsePort(t, None, s, finished)
  {
    hide NextWord, LastWord, Word, ParsePort;
  }

  lemma ReadProtocolUnfolds(t: RuleTarget, words: seq<string>)
    ensures ReadProtocol(t, words) ==
      if words != [] && ("tcp" <= words[0] || "udp" <= words[0] || "all" <= words[0] || "icmp" <= words[0])
      then ReadPort(t, Some(words[0]), words[1..])
      else ReadPort(t, None, words)
  {
    hide ReadPort;
  }

  lemma ProtocolRead(t: RuleTarget, words: seq<string>, gaps: nat -> string)
    requires WordsOk(words) && Gaps(gaps)
    ensures ParseProtocol(t, Join(words, gaps), words == []) == ReadProtocol(t, words)
  {
    PortIsSmall();
    hide *;
    ProtocolUnfolds(t, Join(words, gaps), words == []);
    ReadProtocolUnfolds(t, words);
    KeywordAhead("tcp", words, gaps);
    KeywordAhead("udp", words, gaps);
    KeywordAhead("all", words, gaps);
    KeywordAhead("icmp", words, gaps);
    PortRead(t, None, words, gaps);
    if words != [] {
      JoinWords(words, gaps);
      PortRead(t, Some(words[0]), words[1..], gaps);
    }
  }

  lemma ParseUnfolds(line: string, s: string)
    requires Lower(line) == s
    ensures var (ok, t) := TargetNamed(Word(s));
      ParseRule(line) == if ok then ParseProtocol(t, NextWord(s), LastWord(s)) else Bad(-1)
  {
    hide Lower, TargetNamed, Word, NextWord, LastWord, ParseProtocol;
  }

  lemma TargetRead(words: seq<string>)
    requires words != []
    ensures var (ok, t) := TargetNamed(words[0]);
      ReadWords(words) == if ok then ReadProtocol(t, words[1..]) else Bad(-1)
  {
    hide ReadProtocol;
  }

  lemma WordsOfLine(line: string, words: seq<string>, gaps: nat -> string)
    requires HasWords(line, words, gaps)
    ensures words != [] && WordsOk(words) && Gaps(gaps) && SameLetters(line, Join(words, gaps))
  {
    hide WordsOk, Gaps, Join;
  }

  /** Main result: a line is parsed as its words read, refusals and their codes included, in any mixture of upper and
      lower case and with any blanks between the words and behind them. */
  lemma ParsedByWords(line: string, words: seq<string>, gaps: nat -> string)
    requires HasWords(line, words, gaps)
    ensures ParseRule(line) == ReadWords(words)
  {
    hide *;
    WordsOfLine(line, words, gaps);
    var s := Join(words, gaps);
    JoinSmall(words, gaps);
    LowerIs(line, s);
    JoinWords(words, gaps);
    ParseUnfolds(line, s);
    TargetRead(words);
    ProtocolRead(TargetNamed(words[0]).1, words[1..], gaps);
  }

  // ---------- Printed rules ----------

  predicate WellFormed(r: Rule) {
    && (r.protocol.Some? ==> r.protocol.value in {"tcp", "udp", "all", "icmp"})
    && (r.port.Some? ==> r.port.value != "" && OfCharacters(r.port.value, "0123456789:")
                         && r.protocol in {Some("tcp"), Some("udp")})
    && r.mask != "" && OfCharacters(r.mask, "0123456789./")
  }

  function OptWord(o: Option<string>, before: seq<string>): (w: seq<string>) {
    if o.Some? then before + [o.value] else []
  }

  /** The word of a target; block stands for reject. */
  function TargetWord(t: RuleTarget): (w: string) {
    match t
    case TargetDrop => "drop"
    case TargetReject => "block"
    case TargetAccept => "allow"
    case TargetLog => "log"
    case TargetUlog => "ulog"
  }

  /** The words of a rule; the mask may be left out when it takes every address. */
  function Words(r: Rule, withMask: bool): (w: seq<string>) {
    [TargetWord(r.target)] + (OptWord(r.protocol, []) + (OptWord(r.port, ["port"]) + MaskWords(r, withMask)))
  }

  function MaskWords(r: Rule, withMask: bool): (w: seq<string>) {
    if withMask then ["to", r.mask] else []
  }

  lemma KeywordsSmall(t: RuleTarget)
    ensures Small("to") && Small("port") && Small(TargetWord(t))
    ensures Small("tcp") && Small("udp") && Small("all") && Small("icmp")
  {
  }

  lemma NumbersSmall(w: string)
    ensures OfCharacters(w, "0123456789:") ==> Small(w)
    ensures OfCharacters(w, "0123456789./") ==> Small(w)
  {
    forall k | 0 <= k < |w|
      ensures w[k] in "0123456789:" || w[k] in "0123456789./" ==> w[k] !in " \t" && !('A' <= w[k] <= 'Z')
    {
      PortCharacter(w[k]);
      MaskCharacter(w[k]);
      BlankIs(w[k]);
    }
  }

  /** A word that may stand anywhere. */
  ghost predicate Solid(w: string) {
    w != "" && Small(w)
  }

  ghost predicate AllSolid(words: seq<string>) {
    forall k | 0 <= k < |words| :: Solid(words[k])
  }

  lemma SolidJoin(a: seq<string>, b: seq<string>)
    requires AllSolid(a) && AllSolid(b)
    ensures AllSolid(a + b)
  {
  }

  lemma SolidOne(w: string)
    requires Solid(w)
    ensures AllSolid([w])
  {
  }

  lemma WordsSolid(r: Rule, withMask: bool)
    requires WellFormed(r)
    ensures AllSolid(Words(r, withMask)) && WordsOk(Words(r, withMask))
  {
    KeywordsSmall(r.target);
    if r.port.Some? {
      NumbersSmall(r.port.value);
      assert AllSolid(["port", r.port.value]);
    }
    NumbersSmall(r.mask);
    var protocol, port, mask := OptWord(r.protocol, []), OptWord(r.port, ["port"]), MaskWords(r, withMask);
    assert AllSolid(mask) && AllSolid(port);
    assert AllSolid(protocol) by {
      if r.protocol.Some? {
        SolidOne(r.protocol.value);
        assert protocol == [r.protocol.value];
      }
    }
    assert Solid(TargetWord(r.target));
    hide Small, TargetWord, OptWord, MaskWords;
    SolidOne(TargetWord(r.target));
    SolidJoin(port, mask);
    SolidJoin(protocol, port + mask);
    SolidJoin([TargetWord(r.target)], protocol + (port + mask));
  }

  /** The words of a rule read as that rule. */
  lemma WordsRead(r: Rule, withMask: bool)
    requires WellFormed(r) && (withMask || r.mask == "0.0.0.0/0")
    ensures ReadWords(Words(r, withMask)) == Parsed(r)
  {
    var mask := MaskWords(r, withMask);
    var ports := OptWord(r.port, ["port"]) + mask;
    var words := OptWord(r.protocol, []) + ports;
    assert Words(r, withMask)[0] == TargetWord(r.target) && Words(r, withMask)[1..] == words;
    MaskWordsRead(r, withMask);
    PortWordsRead(r, mask);
    ProtocolWordsRead(r, ports);
    hide ReadProtocol, ReadPort, ReadMask, OptWord, MaskWords;
  }

  lemma MaskWordsRead(r: Rule, withMask: bool)
    requires WellFormed(r) && (withMask || r.mask == "0.0.0.0/0")
    ensures ReadMask(r.target, r.protocol, r.port, MaskWords(r, withMask)) == Parsed(r)
  {
  }

  lemma PortWordsRead(r: Rule, mask: seq<string>)
    requires WellFormed(r) && (mask == [] || mask[0] == "to")
    ensures var words := OptWord(r.port, ["port"]) + mask;
      ReadPort(r.target, r.protocol, words) == ReadMask(r.target, r.protocol, r.port, mask)
  {
    var words := OptWord(r.port, ["port"]) + mask;
    if r.port.Some? {
      assert words[0] == "port" && words[1] == r.port.value && words[2..] == mask;
    } else {
      assert words == mask;
      assert "to"[0] != "port"[0];
    }
    hide ReadMask;
  }

  lemma ProtocolWordsRead(r: Rule, ports: seq<string>)
    requires WellFormed(r) && (ports == [] || ports[0] == "to" || (ports[0] == "port" && r.protocol.Some?))
    ensures ReadProtocol(r.target, OptWord(r.protocol, []) + ports) == ReadPort(r.target, r.protocol, ports)
  {
    var words := OptWord(r.protocol, []) + ports;
    if r.protocol.Some? {
      assert words[0] == r.protocol.value && words[1..] == ports;
    } else {
      assert words == ports;
      assert "to"[1] == 'o' && "tcp"[1] == 'c' && "udp"[0] == 'u' && "all"[0] == 'a' && "icmp"[0] == 'i';
    }
    hide ReadPort;
  }

  /** Main result: a printed rule is read back, in any mixture of upper and lower case and with any blanks
      between its words; a mask that is left out is read as every address. */
  lemma RuleRoundTrip(r: Rule, withMask: bool, gaps: nat -> string, line: string)
    requires WellFormed(r) && Gaps(gaps) && (withMask || r.mask == "0.0.0.0/0")
    requires SameLetters(line, Join(Words(r, withMask), gaps))
    ensures ParseRule(line) == Parsed(r)
  {
    WordsSolid(r, withMask);
    WordsRead(r, withMask);
    ParsedByWords(line, Words(r, withMask), gaps);
  }

  /** Rule lines in turn, each accepted one at the tail. */
  function ReadRules(lines: seq<string>, rules: seq<Rule>): (r: seq<Rule>)
    decreases |lines|
  {
    if lines == [] then rules
    else match ParseRule(lines[0])
         case Parsed(rule) => ReadRules(lines[1..], rules + [rule])
         case Bad(_) => ReadRules(lines[1..], rules)
  }

  /** `line` is a printing of `r`. */
  ghost predicate Prints(line: string, r: Rule) {
    exists withMask: bool, gaps: nat -> string ::
      Gaps(gaps) && (withMask || r.mask == "0.0.0.0/0") && SameLetters(line, Join(Words(r, withMask), gaps))
  }

  lemma PrintingRead(line: string, r: Rule)
    requires WellFormed(r) && Prints(line, r)
    ensures ParseRule(line) == Parsed(r)
  {
    var withMask: bool, gaps: nat -> string :|
      Gaps(gaps) && (withMask || r.mask == "0.0.0.0/0") && SameLetters(line, Join(Words(r, withMask), gaps));
    RuleRoundTrip(r, withMask, gaps, line);
  }

  /** Main result: the lines of a ruleset rebuild its rules in their order, behind those already there. */
  lemma {:induction false} RulesRoundTrip(lines: seq<string>, rs: seq<Rule>, rules: seq<Rule>)
    requires |lines| == |rs|
    requires forall k | 0 <= k < |rs| :: WellFormed(rs[k]) && Prints(lines[k], rs[k])
    ensures ReadRules(lines, rules) == rules + rs
    decreases |rs|
  {
    hide WellFormed, Prints, ParseRule;
    if rs != [] {
      PrintingRead(lines[0], rs[0]);
      RulesRoundTrip(lines[1..], rs[1..], rules + [rs[0]]);
      assert rules + [rs[0]] + rs[1..] == rules + rs;
    }
  }

  /** A port stands only under tcp or udp, and is of digits and colons. */
  predicate PortOk(protocol: Option<string>, port: Option<string>) {
    port.Some? ==> protocol.Some? && BeginsPorts(protocol.value) && OfCharacters(port.value, "0123456789:")
  }

  /** What is accepted, besides the target: such a port, and a mask of digits, dots and slashes. */
  predicate Acceptable(p: Parse) {
    match p
    case Parsed(r) => PortOk(r.protocol, r.port) && OfCharacters(r.mask, "0123456789./")
    case Bad(code) => code in {-1, -3, -4, -5}
  }

  lemma MaskAccepted(t: RuleTarget, p: Option<string>, port: Option<string>, s: string, finished: bool)
    requires PortOk(p, port)
    ensures Acceptable(ParseMask(t, p, port, s, finished))
  {
    MaskTextIs(Word(NextWord(s)));
    AnyMaskCharacters();
    hide OfCharacters, MaskText, Word, NextWord, PortOk;
  }

  lemma PortAccepted(t: RuleTarget, p: Option<string>, s: string, finished: bool)
    ensures Acceptable(ParsePort(t, p, s, finished))
  {
    var s' := NextWord(s);
    var port := Word(s');
    PortTextIs(port);
    if p.Some? && BeginsPorts(p.value) && OfCharacters(port, "0123456789:") {
      MaskAccepted(t, p, Some(port), NextWord(s'), finished || LastWord(s) || LastWord(s'));
    }
    MaskAccepted(t, p, None, s, finished);
    hide OfCharacters, PortText, Word, NextWord, LastWord, ParseMask;
  }

  lemma AcceptedRule(line: string)
    ensures Acceptable(ParseRule(line))
  {
    var s := Lower(line);
    var (ok, t) := TargetNamed(Word(s));
    var s' := NextWord(s);
    PortAccepted(t, Some(Word(s')), NextWord(s'), LastWord(s) || LastWord(s'));
    PortAccepted(t, None, s', LastWord(s));
    hide Lower, Word, NextWord, LastWord, ParsePort, ProtocolAhead, TargetNamed;
  }

  lemma AnyMaskCharacters()
    ensures OfCharacters(ANY_MASK, "0123456789./")
  {
    forall k | 0 <= k < |ANY_MASK| ensures ANY_MASK[k] in "0123456789./" {
      MaskCharacter(ANY_MASK[k]);
    }
  }

  // ---------- The procedure ----------

  lemma {:induction false} WordAt(s: string, k: nat)
    requires k <= |Word(s)|
    ensures k < |Word(s)| <==> k < |s| && !Blank(s[k])
    decreases |s|
  {
    if k > 0 {
      WordAt(s[1..], k - 1);
    }
  }

  /** TO_NEXT_WORD, with the word it leaves behind. */
  method ToNextWord(s: string) returns (word: string, rest: string, end: bool)
    ensures word == Word(s) && rest == NextWord(s) && end == LastWord(s)
  {
    var k := 0;
    while k < |s| && !Blank(s[k])
      invariant k <= |Word(s)|
    {
      WordAt(s, k);
      k := k + 1;
    }
    WordAt(s, k);
    word := s[..k];
    end := k == |s|;
    rest := "";
    if !end {
      rest := s[k + 1..];
      while rest != "" && Blank(rest[0])
        invariant SkipBlank(rest) == SkipBlank(s[k + 1..])
        decreases |rest|
      {
        rest := rest[1..];
      }
    }
  }

  /** A ruleset; its rules from the head of the list on. */
  class RuleSet {
    var rules: seq<Rule>

    /** _parse_firewall_rule: an accepted rule goes to the tail, otherwise nothing changes. */
    method ParseFirewallRule(line: string) returns (code: int)
      modifies this
      ensures match ParseRule(line)
              case Parsed(r) => code == 1 && rules == old(rules) + [r]
              case Bad(c) => code == c && rules == old(rules)
    {
      hide Word, NextWord, LastWord, PortText, MaskText, ProtocolAhead, WithPorts, TargetNamed, Lower, ParseMask,
          ParsePort, ParseProtocol;
      var leftover := Lower(line);
      var token, finished;
      token, leftover, finished := ToNextWord(leftover);
      var (ok, target) := TargetNamed(token);
      if !ok {
        return -1;
      }
      code := AfterTarget(target, leftover, finished);
    }

    /** The rest of the line: protocol, port. */
    method AfterTarget(target: RuleTarget, s: string, finished: bool) returns (code: int)
      modifies this
      ensures match ParseProtocol(target, s, finished)
              case Parsed(r) => code == 1 && rules == old(rules) + [r]
              case Bad(c) => code == c && rules == old(rules)
    {
      hide Word, NextWord, LastWord, PortText, MaskText, ProtocolAhead, WithPorts, ParseMask;
      var leftover, end := s, finished;
      var protocol, port := None, None;
      var word, last;
      if ProtocolAhead(leftover) {
        word, leftover, last := ToNextWord(leftover);
        end := end || last;
        protocol := Some(word);
      }
      if "port" <= leftover {
        if !WithPorts(protocol) {
          return -3;
        }
        word, leftover, last := ToNextWord(leftover);
        end := end || last;
        word, leftover, last := ToNextWord(leftover);
        end := end || last;
        if !PortText(word) {
          return -3;
        }
        port := Some(word);
      }
      code := AfterPort(target, protocol, port, leftover, end);
    }

    /** The mask, and the new record. */
    method AfterPort(target: RuleTarget, protocol: Option<string>, port: Option<string>, s: string, finished: bool)
        returns (code: int)
      modifies this
      ensures match ParseMask(target, protocol, port, s, finished)
              case Parsed(r) => code == 1 && rules == old(rules) + [r]
              case Bad(c) => code == c && rules == old(rules)
    {
      hide Word, NextWord, LastWord, MaskText;
      var mask := ANY_MASK;
      if !finished {
        var word, leftover, last := ToNextWord(s);
        if word != "to" || last {
          return -4;
        }
        mask, leftover, last := ToNextWord(leftover);
        if !MaskText(mask) {
          return -5;
        }
      }
      rules := rules + [Rule(target, protocol, port, mask)];
      code := 1;
    }
  }
}
