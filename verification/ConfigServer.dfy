/** The configuration walk of src/conf.c: config_from_server steps through the tokens of a JSON object and
    sets one field of the configuration for each key. */
module ConfigServer {
  import opened Jsmn
  import opened JsmnSizing
  import opened JsmnRoundTrip
  import opened Sanitiser

  // ---------- The configuration ----------

  datatype TextField = AuthPath | ConfigPath | NetTrafficPath | GatewayName | RedirectURL
  datatype NumberField = MaxClients | ClientTimeout | ClientForceOut | TrafficControl | DownloadLimit | UploadLimit
  datatype ListField = FreeIPs | FreeDomains | BlockedMACs | TrustedMACs

  /** The part of the configuration a server may set, and the scratch buffer of the walk, which is not cleared
      as a whole between its uses.  A list holds the texts handed to its add function, in order. */
  datatype Config = Config(texts: map<TextField, string>, numbers: map<NumberField, int>,
                           lists: map<ListField, seq<string>>, scratch: seq<char>)

  datatype Key = TextKey(t: TextField) | NumberKey(n: NumberField) | ListKey(l: ListField) | UnknownKey

  function KeyNamed(s: string): (k: Key) {
    if s == "authPath" then TextKey(AuthPath)
    else if s == "configPath" then TextKey(ConfigPath)
    else if s == "netTrafficPath" then TextKey(NetTrafficPath)
    else if s == "gatewayName" then TextKey(GatewayName)
    else if s == "redirectURL" then TextKey(RedirectURL)
    else if s == "maxClients" then NumberKey(MaxClients)
    else if s == "clientIdleTimeout" then NumberKey(ClientTimeout)
    else if s == "clientForceTimeout" then NumberKey(ClientForceOut)
    else if s == "trafficControl" then NumberKey(TrafficControl)
    else if s == "downloadLimit" then NumberKey(DownloadLimit)
    else if s == "uploadLimit" then NumberKey(UploadLimit)
    else if s == "freeIPList" then ListKey(FreeIPs)
    else if s == "freeDomainList" then ListKey(FreeDomains)
    else if s == "blockedMACList" then ListKey(BlockedMACs)
    else if s == "trustedMACList" then ListKey(TrustedMACs)
    else UnknownKey
  }

  function SetText(c: Config, f: TextField, s: string): (r: Config) { c.(texts := c.texts[f := s]) }
  function Listed(c: Config, f: ListField): (s: seq<string>) { if f in c.lists then c.lists[f] else [] }

  const SCRATCH_LEN: nat := 128

  /** The scratch buffer after `text` was copied over its start, the first `clear` characters having been
      cleared before. */
  function Copied(scratch: seq<char>, clear: nat, text: string): (b: seq<char>) {
    var z := if clear <= |scratch| then seq(clear, _ => '\0') + scratch[clear..] else scratch;
    if |text| <= |z| then text + z[|text|..] else z
  }

  /** Loaded: the whole object; Rejected: stopped with an error, the configuration as it was left; Stray: the
      code would read a token the parser did not set, or go past the scratch buffer. */
  datatype Outcome = Loaded(config: Config) | Rejected(config: Config) | Stray

  /** How much of the scratch buffer is cleared for a number or a list element. */
  function Clear(k: Key): (n: nat) { if k == ListKey(FreeDomains) then 128 else 32 }

  /** A number is read from the scratch buffer. */
  function SetNumber(c: Config, f: NumberField, text: string): (r: Outcome) {
    var b := Copied(c.scratch, Clear(NumberKey(f)), text);
    if |text| <= |c.scratch| && Terminated(b) then
      Loaded(c.(numbers := c.numbers[f := Atoi(CString(b))], scratch := b))
    else Stray
  }

  /** So is a list element. */
  function AddText(c: Config, f: ListField, text: string): (r: Outcome) {
    var b := Copied(c.scratch, Clear(ListKey(f)), text);
    if |text| <= |c.scratch| && Terminated(b) then
      Loaded(c.(lists := c.lists[f := Listed(c, f) + [CString(b)]], scratch := b))
    else Stray
  }

  function AddTexts(c: Config, f: ListField, s: seq<string>): (r: Outcome)
    ensures !r.Rejected?
    decreases |s|
  {
    if s == [] then Loaded(c)
    else
      var o := AddText(c, f, s[0]);
      if o.Loaded? then AddTexts(o.config, f, s[1..]) else o
  }

  lemma {:induction false} AddTextsMore(c: Config, f: ListField, s: seq<string>, text: string)
    ensures AddTexts(c, f, s + [text]) ==
            var o := AddTexts(c, f, s);
            if o.Loaded? then AddText(o.config, f, text) else o
    decreases |s|
  {
    hide AddText;
    if s == [] {
      assert s + [text] == [text] && [text][1..] == [];
    } else {
      assert (s + [text])[0] == s[0] && (s + [text])[1..] == s[1..] + [text];
      var o := AddText(c, f, s[0]);
      if o.Loaded? {
        AddTextsMore(o.config, f, s[1..], text);
      }
    }
  }

  // ---------- The walk ----------

  /** The C library's atoi: blanks, a sign, digits. */
  function Atoi(s: string): (n: int) {
    if s == "" then 0
    else if s[0] == ' ' || '\t' <= s[0] <= '\r' then Atoi(s[1..])
    else if s[0] == '-' then 0 - Digits10(s[1..], 0)
    else if s[0] == '+' then Digits10(s[1..], 0)
    else Digits10(s, 0)
  }

  function Digits10(s: string, n: nat): (r: nat) {
    if s != "" && '0' <= s[0] <= '9' then Digits10(s[1..], 10 * n + (s[0] as int - 48)) else n
  }

  /** The text a token spans. */
  function TextOf(js: string, t: Token): (s: string) {
    if 0 <= t.start <= t.end <= |js| then js[t.start..t.end] else ""
  }

  function KeyOf(js: string, t: Token): (k: Key) {
    if t.kind.String? then KeyNamed(TextOf(js, t)) else UnknownKey
  }

  function Texts(js: string, toks: seq<Token>): (s: seq<string>)
    ensures |s| == |toks|
  {
    if toks == [] then [] else [TextOf(js, toks[0])] + Texts(js, toks[1..])
  }

  /** One round: the key at `i` and its value. Loaded: go on at the place that comes with it. */
  function KeyStep(js: string, toks: seq<Token>, i: nat, c: Config): (r: (Outcome, nat))
    requires i < |toks|
    ensures r.0.Loaded? ==> i + 2 <= r.1 <= |toks|
  {
    var k := KeyOf(js, toks[i]);
    if k.UnknownKey? then (Rejected(c), i)
    else if i + 1 >= |toks| then (Stray, i)
    else
      var v := toks[i + 1];
      match k
      case TextKey(f) => (Loaded(SetText(c, f, TextOf(js, v))), i + 2)
      case NumberKey(f) => (SetNumber(c, f, TextOf(js, v)), i + 2)
      case ListKey(f) =>
        if !v.kind.Array? then (Rejected(c), i)
        else if i + 2 + v.size > |toks| then (Stray, i)
        else (AddTexts(c, f, Texts(js, toks[i + 2..i + 2 + v.size])), i + 2 + v.size)
  }

  /** The fields set from the key at `i` on. */
  function Walk(js: string, toks: seq<Token>, i: nat, c: Config): (r: Outcome)
    decreases |toks| - i
  {
    if i >= |toks| then Loaded(c)
    else
      var (o, j) := KeyStep(js, toks, i, c);
      if o.Loaded? then Walk(js, toks, j, o.config) else o
  }

  const MAX_TOKENS: nat := 256

  /** config_from_server on the text of the answer's body. */
  function Load(js: string, c: Config): (r: Outcome) {
    var (res, st) := Run(js, MAX_TOKENS, INITIAL, 0);
    match res
    case Fail(_) => Rejected(c)
    case Done(n) =>
      if n < 1 || |st.toks| < 1 || !st.toks[0].kind.Object? then Rejected(c) else Walk(js, st.toks, 1, c)
  }

  // ---------- What an object means ----------

  predicate Scalar(v: Value) {
    v.Literal? || v.Number? || v.Str?
  }

  /** The text of a scalar, a string without its quotes. */
  function ValueText(v: Value): (s: string) {
    if v.Str? then v.text else Print(v)
  }

  function ItemTexts(items: Items): (s: seq<string>) {
    if items.NoItems? then [] else [ValueText(items.value)] + ItemTexts(items.rest)
  }

  predicate ScalarItems(items: Items) {
    items.NoItems? || (Scalar(items.value) && ScalarItems(items.rest))
  }

  /** The walk stops here with an error: the key is not known, or it is a list key without a list. */
  predicate Stops(key: string, value: Value) {
    KeyNamed(key).UnknownKey? || (KeyNamed(key).ListKey? && !value.Arr?)
  }

  /** A scalar under a scalar key, an array of scalars under a list key. */
  predicate FlatMember(key: string, value: Value) {
    if KeyNamed(key).ListKey? then value.Arr? && ScalarItems(value.items) else Scalar(value)
  }

  /** Flat members up to one that stops the walk; that one and those behind it are of any kind. */
  predicate FlatUntil(members: Members) {
    members.NoMembers? || Stops(members.key, members.value)
    || (FlatMember(members.key, members.value) && FlatUntil(members.rest))
  }

  /** What one member does to the configuration. */
  function Update(key: string, value: Value, c: Config): (r: Outcome) {
    var k := KeyNamed(key);
    match k
    case UnknownKey => Rejected(c)
    case TextKey(f) => Loaded(SetText(c, f, ValueText(value)))
    case NumberKey(f) => SetNumber(c, f, ValueText(value))
    case ListKey(f) => if value.Arr? then AddTexts(c, f, ItemTexts(value.items)) else Rejected(c)
  }

  /** The left fold of the updates over the members of an object: it stops at the first key that is not
      known or does not have its kind of value. */
  function Fold(members: Members, c: Config): (r: Outcome) {
    match members
    case NoMembers => Loaded(c)
    case Member(_, key, _, _, value, _, rest) =>
      var o := Update(key, value, c);
      if o.Loaded? then Fold(rest, o.config) else o
  }

  // ---------- The walk computes the fold ----------

  lemma ScalarToken(js: string, v: Value, p: nat)
    requires Scalar(v) && At(js, p, Print(v))
    ensures |Tokens(v, p)| == 1 && TextOf(js, Tokens(v, p)[0]) == ValueText(v)
    ensures !Tokens(v, p)[0].kind.Array? && Tokens(v, p)[0].size == 0
  {
    if v.Str? {
      QuotedToken(js, v.text, p);
      hide TextOf, Tokens, Print, At;
    } else {
      hide Print;
    }
  }

  lemma QuotedToken(js: string, text: string, p: nat)
    requires At(js, p, Print(Str(text)))
    ensures Tokens(Str(text), p) == [Token(String, p + 1, p + 1 + |text|, 0)]
    ensures TextOf(js, Token(String, p + 1, p + 1 + |text|, 0)) == text
  {
    assert Print(Str(text)) == "\"" + text + "\"";
    KeyBetweenQuotes(js, p, text, 0);
  }

  lemma {:induction false} ItemTokenTexts(js: string, items: Items, p: nat)
    requires ScalarItems(items) && ValidItems(items) && (items.Item? ==> At(js, p, PrintItems(items)))
    ensures |ItemTokens(items, p)| == ItemCount(items) && Texts(js, ItemTokens(items, p)) == ItemTexts(items)
    decreases items
  {
    hide Print, PrintItems, TextOf, At, ItemTokens, ValueText, ValidItems;
    if items.Item? {
      var q := p + |items.before|;
      var r := q + |Print(items.value)| + |items.after| + 1;
      ItemParts(js, items, p);
      ItemTokensSplit(items, p);
      ScalarToken(js, items.value, q);
      ItemTokenTexts(js, items.rest, r);
      OneMoreText(js, Tokens(items.value, q), ItemTokens(items.rest, r));
    } else {
      NoItemTokens(p);
    }
  }

  lemma NoItemTokens(p: nat)
    ensures ItemTokens(NoItems, p) == []
  {
  }

  lemma OneMoreText(js: string, t: seq<Token>, rest: seq<Token>)
    requires |t| == 1
    ensures Texts(js, t + rest) == [TextOf(js, t[0])] + Texts(js, rest) && |t + rest| == 1 + |rest|
  {
    hide TextOf;
    assert (t + rest)[1..] == rest;
  }

  lemma ItemParts(js: string, items: Items, p: nat)
    requires items.Item? && ValidItems(items) && At(js, p, PrintItems(items))
    ensures At(js, p + |items.before|, Print(items.value)) && Valid(items.value) && ValidItems(items.rest)
    ensures items.rest.Item?
        ==> At(js, p + |items.before| + |Print(items.value)| + |items.after| + 1, PrintItems(items.rest))
  {
    hide Print, PrintItems, At, Valid, ValidItems, ItemTail, Delimited;
    ItemSplit(js, p, items);
    ItemTailSplit(js, p + |items.before| + |Print(items.value)| + |items.after|, items);
  }

  function Next(members: Members, p: nat): (q: nat)
    requires members.Member?
  {
    ValueAt(members, p) + |Print(members.value)| + |members.after| + 1
  }

  lemma MemberParts(js: string, m: Members, p: nat)
    requires m.Member? && ValidMembers(m) && At(js, p, PrintMembers(m))
    ensures At(js, p + |m.before|, "\"" + m.key + "\"")
    ensures Valid(m.value) && At(js, ValueAt(m, p), Print(m.value))
    ensures ValidMembers(m.rest) && (m.rest.Member? ==> At(js, Next(m, p), PrintMembers(m.rest)))
  {
    hide Print, PrintMembers, At, Valid, ValidMembers, ColonTail, MemberTail, StringText, Delimited;
    KeySplit(js, p, m);
    var q := ValueAt(m, p);
    ValueSplit(js, q, m);
    MemberTailSplit(js, q + |Print(m.value)| + |m.after|, m);
  }

  lemma KeyBetweenQuotes(js: string, k: nat, key: string, size: nat)
    requires At(js, k, "\"" + key + "\"")
    ensures TextOf(js, Token(String, k + 1, k + 1 + |key|, size)) == key
  {
    AtSplit(js, k, "\"" + key, "\"");
    AtSplit(js, k, "\"", key);
  }

  function KeyToken(m: Members, p: nat): (t: Token)
    requires m.Member?
  {
    var k := p + |m.before| + 1;
    Token(String, k, k + |m.key|, 1)
  }

  /** The tokens of one member. */
  lemma MemberTokensAre(m: Members, p: nat)
    requires m.Member?
    ensures MemberTokens(m, p) == [KeyToken(m, p)] + (Tokens(m.value, ValueAt(m, p)) + MemberTokens(m.rest, Next(m, p)))
    ensures |Tokens(m.value, ValueAt(m, p))| >= 1
  {
    hide *;
    HeadAndRest(m, p);
    HeadTokensAre(m, p);
    Associates(KeyToken(m, p), Tokens(m.value, ValueAt(m, p)), MemberTokens(m.rest, Next(m, p)));
    SomeTokens(m.value, ValueAt(m, p));
  }

  lemma HeadAndRest(m: Members, p: nat)
    requires m.Member?
    ensures MemberTokens(m, p) == HeadTokens(m, p) + MemberTokens(m.rest, Next(m, p))
  {
    MemberTokensSplit(m, p);
    hide Print, MemberTokens, HeadTokens, ValueAt;
  }

  lemma SomeTokens(v: Value, p: nat)
    ensures |Tokens(v, p)| >= 1
  {
    TokensClosed(v, p);
  }

  lemma Associates(k: Token, vt: seq<Token>, rest: seq<Token>)
    ensures [k] + vt + rest == [k] + (vt + rest)
  {
  }

  lemma HeadTokensAre(m: Members, p: nat)
    requires m.Member?
    ensures HeadTokens(m, p) == [KeyToken(m, p)] + Tokens(m.value, ValueAt(m, p))
  {
    hide Tokens, ValueAt;
  }

  lemma Shape(toks: seq<Token>, i: nat, k: Token, vt: seq<Token>, rest: seq<Token>)
    requires i <= |toks| && toks[i..] == [k] + (vt + rest)
    ensures i + 1 + |vt| <= |toks|
    ensures toks[i] == k && toks[i + 1..i + 1 + |vt|] == vt && toks[i + 1 + |vt|..] == rest
  {
    var t := toks[i..];
    assert t[0] == k && t[1..][..|vt|] == vt && t[1..][|vt|..] == rest;
  }

  lemma ArrayTokens(js: string, v: Value, p: nat)
    requires v.Arr? && Valid(v) && ScalarItems(v.items) && At(js, p, Print(v))
    ensures var t := Tokens(v, p);
      && |t| >= 1 && |t| == 1 + t[0].size && t[0].kind.Array? && Texts(js, t[1..]) == ItemTexts(v.items)
  {
    var t := Tokens(v, p);
    if v.items.Item? {
      AtSplit(js, p, "[", PrintItems(v.items));
    }
    hide Print, PrintItems, At;
    ItemTokenTexts(js, v.items, p + 1);
    assert t[1..] == ItemTokens(v.items, p + 1);
  }

  /** The tokens of a member's value, as the walk reads them. */
  ghost predicate ReadsAs(js: string, vt: seq<Token>, v: Value) {
    && |vt| >= 1 && (vt[0].kind.Array? <==> v.Arr?)
    && (Scalar(v) ==> |vt| == 1 && TextOf(js, vt[0]) == ValueText(v) && !vt[0].kind.Array?)
    && (v.Arr? && ScalarItems(v.items) ==>
          |vt| == 1 + vt[0].size && vt[0].kind.Array? && Texts(js, vt[1..]) == ItemTexts(v.items))
  }

  lemma ValueReadsAs(js: string, v: Value, p: nat)
    requires Valid(v) && At(js, p, Print(v))
    ensures ReadsAs(js, Tokens(v, p), v)
  {
    if Scalar(v) {
      ScalarToken(js, v, p);
    } else if v.Arr? && ScalarItems(v.items) {
      ArrayTokens(js, v, p);
    }
    FirstToken(v, p);
  }

  lemma FirstToken(v: Value, p: nat)
    ensures |Tokens(v, p)| >= 1 && (Tokens(v, p)[0].kind.Array? <==> v.Arr?)
  {
    hide Print, ItemTokens, MemberTokens;
  }

  /** One round of the walk makes one update, and goes on behind the value. */
  lemma StepIsUpdate(js: string, toks: seq<Token>, i: nat, key: string, v: Value, vt: seq<Token>, c: Config)
    requires i + 1 + |vt| <= |toks| && toks[i + 1..i + 1 + |vt|] == vt && ReadsAs(js, vt, v)
    requires KeyOf(js, toks[i]) == KeyNamed(key)
    requires Stops(key, v) || FlatMember(key, v)
    ensures KeyStep(js, toks, i, c).0 == Update(key, v, c)
    ensures Update(key, v, c).Loaded? ==> KeyStep(js, toks, i, c).1 == i + 1 + |vt|
  {
    hide KeyNamed, KeyOf, TextOf, Texts, ItemTexts, ValueText, SetNumber, AddTexts;
    assert toks[i + 1] == vt[0];
    if v.Arr? && ScalarItems(v.items) {
      assert toks[i + 2..i + 2 + vt[0].size] == vt[1..];
    }
  }

  lemma StopsMeans(key: string, v: Value, c: Config)
    ensures Stops(key, v) ==> Update(key, v, c) == Rejected(c)
  {
    hide KeyNamed;
  }

  /** Main lemma: from the tokens of the members on, the walk is the fold. */
  lemma {:induction false} WalkIsFold(js: string, toks: seq<Token>, i: nat, m: Members, p: nat, c: Config)
    requires i <= |toks| && toks[i..] == MemberTokens(m, p)
    requires FlatUntil(m) && ValidMembers(m) && (m.Member? ==> At(js, p, PrintMembers(m)))
    ensures Walk(js, toks, i, c) == Fold(m, c)
    decreases m
  {
    hide Print, PrintMembers, Tokens, MemberTokens, At, KeyNamed, KeyOf, KeyStep, Update, ReadsAs, Valid,
        ValidMembers, ScalarItems, KeyToken, Stops, FlatMember, ValueAt, Next;
    if m.Member? {
      var q, rest := ValueAt(m, p), MemberTokens(m.rest, Next(m, p));
      var vt, j := Tokens(m.value, q), i + 1 + |Tokens(m.value, q)|;
      MemberTokensAre(m, p);
      MemberParts(js, m, p);
      ValueReadsAs(js, m.value, q);
      KeyReads(js, m, p);
      Shape(toks, i, KeyToken(m, p), vt, rest);
      StepIsUpdate(js, toks, i, m.key, m.value, vt, c);
      StopsMeans(m.key, m.value, c);
      var o := Update(m.key, m.value, c);
      if o.Loaded? {
        WalkIsFold(js, toks, j, m.rest, Next(m, p), o.config);
      }
    } else {
      NoMemberTokens(p);
    }
  }

  lemma NoMemberTokens(p: nat)
    ensures MemberTokens(NoMembers, p) == []
  {
  }

  lemma KeyReads(js: string, m: Members, p: nat)
    requires m.Member? && At(js, p + |m.before|, "\"" + m.key + "\"")
    ensures KeyOf(js, KeyToken(m, p)) == KeyNamed(m.key)
  {
    hide KeyNamed, TextOf, At;
    KeyBetweenQuotes(js, p + |m.before|, m.key, 1);
  }

  /** Main result: the text of an object that is flat as far as the walk goes, printed with any white
      space, sets the fields that the left fold of its members sets, when its tokens fit into the
      array; with more tokens it sets nothing. */
  lemma LoadIsFold(v: Value, before: string, after: string, c: Config)
    requires v.Obj? && Valid(v) && FlatUntil(v.members) && Blank(before) && Blank(after)
    ensures Load(before + Print(v) + after, c) ==
            if |Tokens(v, |before|)| <= MAX_TOKENS then Fold(v.members, c) else Rejected(c)
  {
    hide Print, Tokens, FlatUntil, Blank, Valid, Run, Walk;
    var js, p, n := before + Print(v) + after, |before|, |Tokens(v, |before|)|;
    if n <= MAX_TOKENS {
      TokenizePrinted(v, before, after, MAX_TOKENS);
      TextSplit(v, before, after);
      ObjectWalk(js, v, p, c);
    } else {
      TokenizePrinted(v, before, after, n);
      CapacityIsExact(js, MAX_TOKENS, n, INITIAL, 0);
    }
  }

  /** The walk over the tokens of an object. */
  lemma ObjectWalk(js: string, v: Value, p: nat, c: Config)
    requires v.Obj? && Valid(v) && FlatUntil(v.members) && At(js, p, Print(v))
    ensures |Tokens(v, p)| >= 1 && Tokens(v, p)[0].kind.Object?
    ensures Walk(js, Tokens(v, p), 1, c) == Fold(v.members, c)
  {
    if v.members.Member? {
      AtSplit(js, p, "{", PrintMembers(v.members));
    }
    hide Print, PrintMembers, MemberTokens, FlatUntil, At, ValidMembers;
    assert Tokens(v, p)[1..] == MemberTokens(v.members, p + 1);
    WalkIsFold(js, Tokens(v, p), 1, v.members, p + 1, c);
  }

  // ---------- Where the walk stops ----------

  function Append(m: Members, rest: Members): (r: Members) {
    if m.NoMembers? then rest else m.(rest := Append(m.rest, rest))
  }

  /** A fold over members that go on is the fold over the first and then over the others. */
  lemma {:induction false} FoldAppend(m: Members, rest: Members, c: Config)
    ensures Fold(Append(m, rest), c) == match Fold(m, c)
                                        case Loaded(c') => Fold(rest, c')
                                        case Rejected(c') => Rejected(c')
                                        case Stray => Stray
    decreases m
  {
    hide Update;
    if m.Member? {
      var o := Update(m.key, m.value, c);
      if o.Loaded? {
        FoldAppend(m.rest, rest, o.config);
      }
    }
  }

  /** Every member is flat. */
  predicate Flat(members: Members) {
    members.NoMembers? || (FlatMember(members.key, members.value) && Flat(members.rest))
  }

  lemma {:induction false} FlatThenStop(pre: Members, bad: Members)
    requires Flat(pre) && bad.Member? && Stops(bad.key, bad.value)
    ensures FlatUntil(Append(pre, bad))
    decreases pre
  {
    hide Stops, FlatMember;
    if pre.Member? {
      FlatThenStop(pre.rest, bad);
    }
  }

  /** Main result: on the text of an object in which flat members come before a key that is not known, or
      a list key without a list, the walk ends with an error after exactly the pairs before that key were
      applied, whatever stands under the key and behind it. */
  lemma StopsAfterThePairsBefore(v: Value, before: string, after: string, pre: Members, bad: Members, c: Config)
    requires v.Obj? && Valid(v) && v.members == Append(pre, bad) && Blank(before) && Blank(after)
    requires |Tokens(v, |before|)| <= MAX_TOKENS
    requires Flat(pre) && Fold(pre, c).Loaded? && bad.Member? && Stops(bad.key, bad.value)
    ensures Load(before + Print(v) + after, c) == Rejected(Fold(pre, c).config)
  {
    FlatThenStop(pre, bad);
    hide Print, Tokens, Load, Stops, Blank, Valid, Flat, FlatUntil;
    LoadIsFold(v, before, after, c);
    FoldAppend(pre, bad, c);
    StopsMeans(bad.key, bad.value, Fold(pre, c).config);
    hide Update;
  }

  // ---------- Which tokens are taken for keys ----------

  /** The places at which the walk looks for a key. */
  function Visited(js: string, toks: seq<Token>, i: nat, c: Config): (r: seq<nat>)
    decreases |toks| - i
  {
    if i >= |toks| then []
    else
      var (o, j) := KeyStep(js, toks, i, c);
      [i] + if o.Loaded? then Visited(js, toks, j, o.config) else []
  }

  predicate IsKey(t: Token) {
    t.kind.String? && t.size == 1
  }

  ghost predicate Ascending(s: seq<nat>) {
    forall i, j | 0 <= i < j < |s| :: s[i] < s[j]
  }

  lemma {:induction false} ItemTokensNoKey(items: Items, p: nat)
    requires ScalarItems(items)
    ensures forall k | 0 <= k < |ItemTokens(items, p)| :: !IsKey(ItemTokens(items, p)[k])
    decreases items
  {
    if items.Item? {
      var q := p + |items.before|;
      var r := q + |Print(items.value)| + |items.after| + 1;
      ItemTokensSplit(items, p);
      ItemTokensNoKey(items.rest, r);
      hide Print, ItemTokens;
      assert |Tokens(items.value, q)| == 1 && !IsKey(Tokens(items.value, q)[0]);
    }
  }

  lemma ValueTokensNoKey(v: Value, p: nat)
    requires Scalar(v) || (v.Arr? && ScalarItems(v.items))
    ensures forall k | 0 <= k < |Tokens(v, p)| :: !IsKey(Tokens(v, p)[k])
  {
    if v.Arr? {
      ItemTokensNoKey(v.items, p + 1);
    }
    hide Print, ItemTokens;
  }

  /** Main result: a walk that is not stopped looks at every key once, in order, and never at a value. */
  lemma {:induction false} KeysAreVisited(js: string, toks: seq<Token>, i: nat, m: Members, p: nat, c: Config)
    requires i <= |toks| && toks[i..] == MemberTokens(m, p)
    requires FlatUntil(m) && ValidMembers(m) && (m.Member? ==> At(js, p, PrintMembers(m)))
    requires Fold(m, c).Loaded?
    ensures var r := Visited(js, toks, i, c);
      && Ascending(r) && (forall k: nat :: k in r <==> i <= k < |toks| && IsKey(toks[k]))
    decreases m
  {
    hide Print, PrintMembers, Tokens, MemberTokens, At, KeyNamed, KeyOf, KeyStep, Update, ReadsAs, Valid,
        ValidMembers, ScalarItems, ValueAt, Next, Visited, Ascending, KeyToken, Stops, FlatMember, Scalar;
    if m.Member? {
      var q, rest := ValueAt(m, p), MemberTokens(m.rest, Next(m, p));
      var vt, j := Tokens(m.value, q), i + 1 + |Tokens(m.value, q)|;
      MemberTokensAre(m, p);
      MemberParts(js, m, p);
      ValueReadsAs(js, m.value, q);
      KeyReads(js, m, p);
      Shape(toks, i, KeyToken(m, p), vt, rest);
      StepIsUpdate(js, toks, i, m.key, m.value, vt, c);
      StopsMeans(m.key, m.value, c);
      FlatValue(m.key, m.value);
      ValueTokensNoKey(m.value, q);
      var o := Update(m.key, m.value, c);
      KeysAreVisited(js, toks, j, m.rest, Next(m, p), o.config);
      VisitedOnce(js, toks, i, c);
      KeyTokenIsKey(m, p);
      VisitedMore(toks, i, j, Visited(js, toks, j, o.config), vt);
    } else {
      NoMemberTokens(p);
      VisitedNone(js, toks, c);
    }
  }

  lemma VisitedOnce(js: string, toks: seq<Token>, i: nat, c: Config)
    requires i < |toks| && KeyStep(js, toks, i, c).0.Loaded?
    ensures var (o, j) := KeyStep(js, toks, i, c); Visited(js, toks, i, c) == [i] + Visited(js, toks, j, o.config)
  {
    hide KeyStep;
  }

  lemma VisitedNone(js: string, toks: seq<Token>, c: Config)
    ensures Visited(js, toks, |toks|, c) == [] && Ascending([])
  {
  }

  lemma KeyTokenIsKey(m: Members, p: nat)
    requires m.Member?
    ensures IsKey(KeyToken(m, p))
  {
  }

  lemma FlatValue(key: string, v: Value)
    ensures FlatMember(key, v) ==> Scalar(v) || (v.Arr? && ScalarItems(v.items))
  {
    hide KeyNamed;
  }

  lemma VisitedMore(toks: seq<Token>, i: nat, j: nat, r: seq<nat>, vt: seq<Token>)
    requires i < j <= |toks| && IsKey(toks[i]) && toks[i + 1..j] == vt
    requires forall k | 0 <= k < |vt| :: !IsKey(vt[k])
    requires Ascending(r) && (forall k: nat :: k in r <==> j <= k < |toks| && IsKey(toks[k]))
    ensures var s := [i] + r;
      Ascending(s) && (forall k: nat :: k in s <==> i <= k < |toks| && IsKey(toks[k]))
  {
    forall k | i < k < j ensures !IsKey(toks[k]) {
      assert toks[k] == vt[k - i - 1];
    }
    assert forall k | 0 <= k < |r| :: r[k] in r;
  }

  // ---------- The procedure ----------

  class Loader {
    var config: Config

    /** Elements of a list, one after the other; false when one goes past the scratch buffer. */
    method AddElements(js: string, t: array<Token>, from: nat, n: nat, f: ListField) returns (ok: bool)
      requires from + n <= t.Length
      modifies this
      ensures AddTexts(old(config), f, Texts(js, t[from..from + n])) == if ok then Loaded(config) else Stray
    {
      hide TextOf, AddTexts, AddText;
      ghost var c, s := config, Texts(js, t[from..from + n]);
      assert t[from..from] == [];
      NothingAdded(js, c, f);
      for j := 0 to n
        invariant AddTexts(c, f, Texts(js, t[from..from + j])) == Loaded(config)
      {
        var tmp := TextOf(js, t[from + j]);
        TextsMore(js, t[from..from + j], t[from + j]);
        assert t[from..from + j + 1] == t[from..from + j] + [t[from + j]];
        AddTextsMore(c, f, Texts(js, t[from..from + j]), tmp);
        var o := AddText(config, f, tmp);
        if !o.Loaded? {
          AddTextsStops(c, f, Texts(js, t[from..from + j + 1]), Texts(js, t[from + j + 1..from + n]));
          TextsConcat(js, t[from..from + j + 1], t[from + j + 1..from + n]);
          assert t[from..from + j + 1] + t[from + j + 1..from + n] == t[from..from + n];
          return false;
        }
        config := o.config;
      }
      ok := true;
    }

    /** One round of the loop. */
    method Key(js: string, t: array<Token>, res: nat, i: nat) returns (signal: Signal, next: nat)
      requires i < res <= t.Length
      modifies this
      ensures Signals(KeyStep(js, t[..res], i, old(config)), signal, config, next)
    {
      hide KeyOf, KeyStep;
      ghost var toks := t[..res];
      assert toks[i] == t[i];
      StepFails(js, toks, i, config);
      var k := KeyOf(js, t[i]);
      if k.UnknownKey? {
        return Error, i;
      }
      if i + 1 >= res {
        return Astray, i;
      }
      if k.ListKey? {
        signal, next := KeyList(js, t, res, i, k.l);
      } else {
        signal := KeyScalar(js, t, res, i, k);
        next := i + 2;
      }
    }

    /** A text key or a number key. */
    method KeyScalar(js: string, t: array<Token>, res: nat, i: nat, k: Key) returns (signal: Signal)
      requires i + 1 < res <= t.Length && KeyOf(js, t[i]) == k && (k.TextKey? || k.NumberKey?)
      modifies this
      ensures Signals(KeyStep(js, t[..res], i, old(config)), signal, config, i + 2)
    {
      hide KeyOf, KeyStep, SetText, SetNumber, TextOf;
      ghost var toks := t[..res];
      var text := TextOf(js, t[i + 1]);
      assert toks[i] == t[i] && toks[i + 1] == t[i + 1];
      StepScalarCase(js, toks, i, k, config, text);
      if k.TextKey? {
        config := SetText(config, k.t, text);
        signal := GoOn;
      } else {
        signal := KeyNumber(k.n, text);
      }
    }

    /** A number. */
    method KeyNumber(f: NumberField, text: string) returns (signal: Signal)
      modifies this
      ensures SetNumber(old(config), f, text) == if signal.GoOn? then Loaded(config) else Stray
      ensures !signal.Error?
    {
      NumberOutcome(config, f, text);
      hide SetNumber;
      var o := SetNumber(config, f, text);
      if !o.Loaded? {
        return Astray;
      }
      config := o.config;
      signal := GoOn;
    }

    /** A list key. */
    method KeyList(js: string, t: array<Token>, res: nat, i: nat, f: ListField) returns (signal: Signal, next: nat)
      requires i + 1 < res <= t.Length && KeyOf(js, t[i]) == ListKey(f)
      modifies this
      ensures Signals(KeyStep(js, t[..res], i, old(config)), signal, config, next)
    {
      hide KeyNamed, KeyOf, AddTexts, Texts, KeyStep;
      var v := t[i + 1];
      next := i + 2 + v.size;
      ghost var toks := t[..res];
      ghost var s := if next <= res then t[i + 2..next] else [];
      assert toks[i] == t[i] && toks[i + 1] == v && (next <= res ==> s == toks[i + 2..next]);
      StepListCase(js, toks, i, f, config, v, s);
      if !v.kind.Array? {
        return Error, i;
      }
      if next > res {
        return Astray, i;
      }
      var ok := AddElements(js, t, i + 2, v.size, f);
      signal := if ok then GoOn else Astray;
    }

    /** config_from_server, from the body of the answer on.  The code 0 is not the program's: there it would
        read what this run did not write. */
    method ConfigFromServer(js: string) returns (code: int)
      modifies this
      ensures match Load(js, old(config))
              case Loaded(c) => code == 1 && config == c
              case Rejected(c) => code == -4 && config == c
              case Stray => code == 0
    {
      hide KeyStep, Run, Walk;
      var parser := new Parser();
      var t := new Token[MAX_TOKENS](_ => Token(Primitive, -1, -1, 0));
      assert parser.Abs(t) == INITIAL;
      StartOk();
      var r := parser.Parse(js, t);
      ghost var toks := t[..parser.toknext];
      CountsItsTokens(js, MAX_TOKENS, INITIAL, 0);
      assert (r, State(parser.pos, toks, parser.toksuper)) == Run(js, MAX_TOKENS, INITIAL, 0);
      if r.Fail? || r.count < 1 || t[0].kind != Object {
        return -4;
      }
      assert toks == t[..r.count];
      code := WalkTokens(js, t, r.count);
    }

    /** The loop over the keys. */
    method WalkTokens(js: string, t: array<Token>, res: nat) returns (code: int)
      requires 1 <= res <= t.Length
      modifies this
      ensures match Walk(js, t[..res], 1, old(config))
              case Loaded(c) => code == 1 && config == c
              case Rejected(c) => code == -4 && config == c
              case Stray => code == 0
    {
      hide KeyStep;
      var i := 1;
      ghost var toks := t[..res];
      while i < res
        invariant Walk(js, toks, i, config) == Walk(js, toks, 1, old(config))
        decreases res - i
      {
        var signal;
        var next;
        signal, next := Key(js, t, res, i);
        if signal.Error? {
          return -4;
        }
        if signal.Astray? {
          return 0;
        }
        i := next;
      }
      code := 1;
    }
  }

  /** How a round ends. */
  datatype Signal = GoOn | Error | Astray

  /** The round came to this. */
  ghost predicate Signals(r: (Outcome, nat), signal: Signal, c: Config, next: nat) {
    match signal
    case GoOn => r == (Loaded(c), next)
    case Error => r.0 == Rejected(c)
    case Astray => r.0 == Stray
  }

  lemma NumberOutcome(c: Config, f: NumberField, text: string)
    ensures !SetNumber(c, f, text).Rejected?
  {
  }

  lemma {:induction false} AddTextsStops(c: Config, f: ListField, s: seq<string>, more: seq<string>)
    requires AddTexts(c, f, s).Stray?
    ensures AddTexts(c, f, s + more) == Stray
    decreases |s|
  {
    hide AddText;
    if s != [] {
      assert (s + more)[0] == s[0] && (s + more)[1..] == s[1..] + more;
      var o := AddText(c, f, s[0]);
      if o.Loaded? {
        AddTextsStops(o.config, f, s[1..], more);
      }
    }
  }

  lemma {:induction false} TextsConcat(js: string, a: seq<Token>, b: seq<Token>)
    ensures Texts(js, a + b) == Texts(js, a) + Texts(js, b)
    decreases |a|
  {
    hide TextOf;
    if a == [] {
      assert a + b == b;
    } else {
      assert (a + b)[0] == a[0] && (a + b)[1..] == a[1..] + b;
      TextsConcat(js, a[1..], b);
    }
  }

  lemma StepFails(js: string, toks: seq<Token>, i: nat, c: Config)
    requires i < |toks|
    ensures var k, o := KeyOf(js, toks[i]), KeyStep(js, toks, i, c);
      && (k.UnknownKey? ==> o == (Rejected(c), i))
      && (!k.UnknownKey? && i + 1 >= |toks| ==> o == (Stray, i))
  {
    hide TextOf, KeyOf, AddTexts, Texts, SetText, SetNumber;
  }

  lemma StepScalarCase(js: string, toks: seq<Token>, i: nat, k: Key, c: Config, text: string)
    requires i + 1 < |toks| && KeyOf(js, toks[i]) == k && TextOf(js, toks[i + 1]) == text
    ensures k.TextKey? ==> KeyStep(js, toks, i, c) == (Loaded(SetText(c, k.t, text)), i + 2)
    ensures k.NumberKey? ==> KeyStep(js, toks, i, c) == (SetNumber(c, k.n, text), i + 2)
  {
    hide TextOf, KeyOf, AddTexts, Texts, SetText, SetNumber;
  }

  lemma StepListCase(js: string, toks: seq<Token>, i: nat, f: ListField, c: Config, v: Token, s: seq<Token>)
    requires i + 1 < |toks| && KeyOf(js, toks[i]) == ListKey(f) && toks[i + 1] == v
    requires i + 2 + v.size <= |toks| ==> s == toks[i + 2..i + 2 + v.size]
    ensures KeyStep(js, toks, i, c) ==
            if !v.kind.Array? then (Rejected(c), i)
            else if i + 2 + v.size > |toks| then (Stray, i)
            else (AddTexts(c, f, Texts(js, s)), i + 2 + v.size)
  {
    hide TextOf, KeyOf, AddTexts, Texts, SetText, SetNumber;
  }

  lemma StartOk()
    ensures Ok(INITIAL)
  {
  }

  lemma NothingAdded(js: string, c: Config, f: ListField)
    ensures AddTexts(c, f, Texts(js, [])) == Loaded(c)
  {
  }

  lemma TextsMore(js: string, toks: seq<Token>, t: Token)
    ensures Texts(js, toks + [t]) == Texts(js, toks) + [TextOf(js, t)]
  {
    hide TextOf;
    if toks == [] {
      assert [t][1..] == [] && toks + [t] == [t];
    } else {
      TextsMore(js, toks[1..], t);
      assert (toks + [t])[1..] == toks[1..] + [t];
    }
  }

  // ---------- The scratch buffer ----------

  /** The last character of the buffer is a NUL. */
  predicate Closed(scratch: seq<char>) {
    |scratch| == SCRATCH_LEN && scratch[SCRATCH_LEN - 1] == '\0'
  }

  ghost predicate NoNul(s: string) {
    forall k | 0 <= k < |s| :: s[k] != '\0'
  }

  /** What is read from the buffer is the text copied there if and only if it is shorter than what was
      cleared, or an older NUL happens to stand behind it. */
  lemma ReadAsCopied(scratch: seq<char>, clear: nat, text: string)
    requires |scratch| == SCRATCH_LEN && clear <= SCRATCH_LEN && NoNul(text) && |text| <= SCRATCH_LEN
    ensures var b := Copied(scratch, clear, text);
      Terminated(b) && CString(b) == text <==>
      |text| < clear || (|text| < SCRATCH_LEN && scratch[|text|] == '\0')
  {
    var b, n := Copied(scratch, clear, text), |text|;
    assert b[..n] == text;
    if n < SCRATCH_LEN {
      assert b[n] == if n < clear then '\0' else scratch[n];
      if b[n] == '\0' {
        assert text + ['\0'] <= b;
        assert '\0' !in text;
        CStringOf(text, b);
      } else if CString(b) == text {
        CStringAt(b, n);
      }
    } else {
      assert b == text;
      assert '\0' !in text;
    }
  }

  /** With a NUL at its end a copy stays inside the buffer, and so does the reading of it, if and only if
      the text has fewer characters than the buffer; and the NUL at the end stays. */
  lemma CopyStaysInside(scratch: seq<char>, clear: nat, text: string)
    requires Closed(scratch) && clear <= SCRATCH_LEN && NoNul(text)
    ensures var b := Copied(scratch, clear, text);
      && (|text| <= SCRATCH_LEN && Terminated(b) <==> |text| < SCRATCH_LEN)
      && (|text| < SCRATCH_LEN ==> Closed(b))
  {
    var b := Copied(scratch, clear, text);
    if |text| < SCRATCH_LEN {
      assert b[SCRATCH_LEN - 1] == '\0';
    } else if |text| == SCRATCH_LEN {
      assert b == text;
    }
  }

  predicate AllShorter(s: seq<string>, n: nat) {
    s == [] || (|s[0]| < n && AllShorter(s[1..], n))
  }

  ghost predicate NoNuls(s: seq<string>) {
    forall k | 0 <= k < |s| :: NoNul(s[k])
  }

  lemma {:induction false} ElementsStayInside(c: Config, f: ListField, s: seq<string>)
    requires Closed(c.scratch) && NoNuls(s)
    ensures var o := AddTexts(c, f, s);
      (o.Loaded? <==> AllShorter(s, SCRATCH_LEN)) && (o.Loaded? ==> Closed(o.config.scratch))
    decreases |s|
  {
    if s != [] {
      CopyStaysInside(c.scratch, Clear(ListKey(f)), s[0]);
      var o := AddText(c, f, s[0]);
      hide Copied, Terminated, CString, NoNul;
      if o.Loaded? {
        ElementsStayInside(o.config, f, s[1..]);
      }
    }
  }

  /** The texts that are copied for one member. */
  function MemberCopies(key: string, value: Value): (s: seq<string>) {
    match KeyNamed(key)
    case NumberKey(_) => [ValueText(value)]
    case ListKey(_) => if value.Arr? then ItemTexts(value.items) else []
    case _ => []
  }

  /** Every text copied for the members up to the one that stops the walk has fewer than `n` characters. */
  predicate CopiesShorter(m: Members, n: nat) {
    m.NoMembers? || Stops(m.key, m.value) || (AllShorter(MemberCopies(m.key, m.value), n) && CopiesShorter(m.rest, n))
  }

  ghost predicate CopiesNoNul(m: Members) {
    m.NoMembers? || Stops(m.key, m.value) || (NoNuls(MemberCopies(m.key, m.value)) && CopiesNoNul(m.rest))
  }

  lemma OneShorter(x: string, n: nat)
    ensures AllShorter([x], n) <==> |x| < n
  {
    assert [x][1..] == [];
  }

  lemma UpdateStaysInside(key: string, v: Value, c: Config)
    requires Closed(c.scratch) && (Stops(key, v) || NoNuls(MemberCopies(key, v)))
    ensures var o := Update(key, v, c);
      && (Stops(key, v) ==> o == Rejected(c))
      && (!Stops(key, v) ==> (if AllShorter(MemberCopies(key, v), SCRATCH_LEN) then o.Loaded? else o.Stray?))
      && (o.Loaded? ==> Closed(o.config.scratch))
  {
    hide KeyNamed, ItemTexts, ValueText;
    match KeyNamed(key)
    case NumberKey(f) =>
      assert MemberCopies(key, v) == [ValueText(v)];
      OneShorter(ValueText(v), SCRATCH_LEN);
      assert NoNul(MemberCopies(key, v)[0]);
      CopyStaysInside(c.scratch, Clear(NumberKey(f)), ValueText(v));
      hide Copied, CString, NoNul;
    case ListKey(f) =>
      if v.Arr? {
        ElementsStayInside(c, f, ItemTexts(v.items));
        hide AddTexts, AllShorter;
      }
    case _ =>
  }

  /** Main result: when the buffer ends in a NUL before, a walk goes past it if and only if some number or
      list element up to the key that stops it has as many characters as the buffer, or more. */
  lemma {:induction false} WalkStaysInside(m: Members, c: Config)
    requires Closed(c.scratch) && CopiesNoNul(m)
    ensures Fold(m, c).Stray? <==> !CopiesShorter(m, SCRATCH_LEN)
    decreases m
  {
    if m.Member? {
      UpdateStaysInside(m.key, m.value, c);
      hide Stops, Update, MemberCopies, AllShorter, Closed;
      var o := Update(m.key, m.value, c);
      if o.Loaded? {
        WalkStaysInside(m.rest, o.config);
      }
    }
  }

  // ---------- Texts of JSON have no NUL ----------

  lemma {:induction false} StringNoNul(s: string)
    requires StringText(s)
    ensures NoNul(s)
    decreases |s|
  {
    if s != "" {
      var n := UnitLength(s);
      StringNoNul(s[n..]);
      FirstNoNul(s, n);
    }
  }

  lemma FirstNoNul(s: string, n: nat)
    requires n <= |s| && NoNul(s[n..]) && forall k | 0 <= k < n :: s[k] != '\0'
    ensures NoNul(s)
  {
    assert forall k | n <= k < |s| :: s[k] == s[n..][k - n];
  }

  lemma ValueNoNul(v: Value)
    requires Valid(v) && Scalar(v)
    ensures NoNul(ValueText(v))
  {
    if v.Str? {
      StringNoNul(v.text);
    } else {
      ScalarIsPlain(v);
      hide Print, Valid;
    }
  }

  lemma {:induction false} ItemsNoNul(items: Items)
    requires ValidItems(items) && ScalarItems(items)
    ensures NoNuls(ItemTexts(items))
    decreases items
  {
    if items.Item? {
      ValueNoNul(items.value);
      ItemsNoNul(items.rest);
      hide Valid, NoNul, ValueText;
      var t := ItemTexts(items);
      assert forall k | 1 <= k < |t| :: t[k] == ItemTexts(items.rest)[k - 1];
    }
  }

  lemma {:induction false} FlatNoNul(m: Members)
    requires FlatUntil(m) && ValidMembers(m)
    ensures CopiesNoNul(m)
    decreases m
  {
    if m.Member? && !Stops(m.key, m.value) {
      FlatNoNul(m.rest);
      hide KeyNamed, NoNul, Valid;
      match KeyNamed(m.key)
      case ListKey(_) =>
        ItemsOfArray(m.value);
        ItemsNoNul(m.value.items);
      case NumberKey(_) => ValueNoNul(m.value);
      case _ =>
    }
  }

  lemma ItemsOfArray(v: Value)
    requires v.Arr? && Valid(v)
    ensures ValidItems(v.items)
  {
  }

  /** Main result: on the text of an object that is flat up to its stop, with a buffer that ends in a NUL
      before, loading goes past the scratch buffer if and only if some number or list element up to there
      has as many characters as the buffer, or more. */
  lemma LoadStaysInside(v: Value, before: string, after: string, c: Config)
    requires v.Obj? && Valid(v) && FlatUntil(v.members) && Blank(before) && Blank(after)
    requires |Tokens(v, |before|)| <= MAX_TOKENS && Closed(c.scratch)
    ensures Load(before + Print(v) + after, c).Stray? <==> !CopiesShorter(v.members, SCRATCH_LEN)
  {
    LoadIsFold(v, before, after, c);
    MembersOfObject(v);
    FlatNoNul(v.members);
    hide Load, Print, Tokens, Blank, Valid;
    WalkStaysInside(v.members, c);
  }

  lemma MembersOfObject(v: Value)
    requires v.Obj? && Valid(v)
    ensures ValidMembers(v.members)
  {
  }

  // ---------- Short texts are read as they stand ----------

  function WithTexts(c: Config, f: ListField, s: seq<string>): (r: Config) {
    if s == [] then c else c.(lists := c.lists[f := Listed(c, f) + s])
  }

  /** What one member means, with no scratch buffer between its text and the field. */
  function Meant(key: string, value: Value, c: Config): (r: Outcome) {
    match KeyNamed(key)
    case UnknownKey => Rejected(c)
    case TextKey(f) => Loaded(SetText(c, f, ValueText(value)))
    case NumberKey(f) => Loaded(c.(numbers := c.numbers[f := Atoi(ValueText(value))]))
    case ListKey(f) => if value.Arr? then Loaded(WithTexts(c, f, ItemTexts(value.items))) else Rejected(c)
  }

  function MeantFold(members: Members, c: Config): (r: Outcome) {
    match members
    case NoMembers => Loaded(c)
    case Member(_, key, _, _, value, _, rest) =>
      var o := Meant(key, value, c);
      if o.Loaded? then MeantFold(rest, o.config) else o
  }

  predicate SameFields(c: Config, d: Config) {
    c.texts == d.texts && c.numbers == d.numbers && c.lists == d.lists
  }

  predicate SameOutcome(o: Outcome, p: Outcome) {
    !o.Stray? && !p.Stray? && o.Loaded? == p.Loaded? && SameFields(o.config, p.config)
  }

  /** Every text copied for the members up to the one that stops the walk is shorter than what is cleared. */
  predicate CopiesCleared(m: Members) {
    m.NoMembers? || Stops(m.key, m.value)
    || (AllShorter(MemberCopies(m.key, m.value), Clear(KeyNamed(m.key))) && CopiesCleared(m.rest))
  }

  lemma ShortNumber(c: Config, n: NumberField, text: string)
    requires |c.scratch| == SCRATCH_LEN && NoNul(text) && |text| < Clear(NumberKey(n))
    ensures var o := SetNumber(c, n, text);
      o.Loaded? && o.config == c.(numbers := c.numbers[n := Atoi(text)], scratch := o.config.scratch)
      && |o.config.scratch| == SCRATCH_LEN
  {
    ReadAsCopied(c.scratch, Clear(NumberKey(n)), text);
    assert |Copied(c.scratch, Clear(NumberKey(n)), text)| == SCRATCH_LEN;
    hide CString, Terminated, Copied, Atoi, NoNul;
  }

  lemma ShortElement(c: Config, f: ListField, text: string)
    requires |c.scratch| == SCRATCH_LEN && NoNul(text) && |text| < Clear(ListKey(f))
    ensures var o := AddText(c, f, text);
      o.Loaded? && o.config == c.(lists := c.lists[f := Listed(c, f) + [text]], scratch := o.config.scratch)
      && |o.config.scratch| == SCRATCH_LEN
  {
    ReadAsCopied(c.scratch, Clear(ListKey(f)), text);
    assert |Copied(c.scratch, Clear(ListKey(f)), text)| == SCRATCH_LEN;
    hide CString, Terminated, Copied, NoNul;
  }

  lemma {:induction false} ElementsAreMeant(c: Config, d: Config, f: ListField, s: seq<string>)
    requires |c.scratch| == SCRATCH_LEN && NoNuls(s) && AllShorter(s, Clear(ListKey(f))) && SameFields(c, d)
    ensures var o := AddTexts(c, f, s);
      o.Loaded? && SameFields(o.config, WithTexts(d, f, s)) && |o.config.scratch| == SCRATCH_LEN
    decreases |s|
  {
    if s != [] {
      ShortElement(c, f, s[0]);
      OneTextFirst(d, f, s);
      hide AddText, NoNul, Clear;
      var c', d' := AddText(c, f, s[0]).config, WithTexts(d, f, [s[0]]);
      assert SameFields(c', d');
      ElementsAreMeant(c', d', f, s[1..]);
      hide WithTexts;
    }
  }

  lemma OneTextFirst(d: Config, f: ListField, s: seq<string>)
    requires s != []
    ensures WithTexts(WithTexts(d, f, [s[0]]), f, s[1..]) == WithTexts(d, f, s)
  {
    var one, all := Listed(d, f) + [s[0]], Listed(d, f) + s;
    assert s == [s[0]] + s[1..] && one + s[1..] == all;
    var d' := WithTexts(d, f, [s[0]]);
    assert d'.lists == d.lists[f := one] && Listed(d', f) == one;
    if s[1..] != [] {
      assert d'.lists[f := all] == d.lists[f := all];
    } else {
      assert one == all;
    }
  }

  lemma UpdateIsMeant(key: string, v: Value, c: Config, d: Config)
    requires |c.scratch| == SCRATCH_LEN && SameFields(c, d)
    requires Stops(key, v) || (NoNuls(MemberCopies(key, v)) && AllShorter(MemberCopies(key, v), Clear(KeyNamed(key))))
    ensures var o := Update(key, v, c);
      SameOutcome(o, Meant(key, v, d)) && |o.config.scratch| == SCRATCH_LEN
      && (Stops(key, v) ==> o.Rejected?)
  {
    hide KeyNamed, ItemTexts, ValueText;
    match KeyNamed(key)
    case NumberKey(f) =>
      var text := ValueText(v);
      assert MemberCopies(key, v) == [text];
      OneShorter(text, Clear(NumberKey(f)));
      assert NoNul(MemberCopies(key, v)[0]);
      ShortNumber(c, f, text);
      hide SetNumber, NoNul;
    case ListKey(f) =>
      if v.Arr? {
        ElementsAreMeant(c, d, f, ItemTexts(v.items));
        hide AddTexts, AllShorter, WithTexts;
      }
    case _ =>
  }

  lemma {:induction false} FoldIsMeant(m: Members, c: Config, d: Config)
    requires |c.scratch| == SCRATCH_LEN && SameFields(c, d) && CopiesNoNul(m) && CopiesCleared(m)
    ensures SameOutcome(Fold(m, c), MeantFold(m, d))
    decreases m
  {
    if m.Member? {
      UpdateIsMeant(m.key, m.value, c, d);
      hide Stops, Update, Meant, MemberCopies, AllShorter, SameFields;
      var o := Update(m.key, m.value, c);
      if o.Loaded? {
        FoldIsMeant(m.rest, o.config, Meant(m.key, m.value, d).config);
      }
    }
  }

  /** Main result: on the text of an object that is flat up to its stop, with numbers and elements of fewer
      than 32 characters and domains of fewer than 128, loading sets the fields as the members say,
      whatever the scratch buffer holds before. */
  lemma LoadIsMeant(v: Value, before: string, after: string, c: Config)
    requires v.Obj? && Valid(v) && FlatUntil(v.members) && Blank(before) && Blank(after)
    requires |Tokens(v, |before|)| <= MAX_TOKENS && |c.scratch| == SCRATCH_LEN && CopiesCleared(v.members)
    ensures SameOutcome(Load(before + Print(v) + after, c), MeantFold(v.members, c))
  {
    LoadIsFold(v, before, after, c);
    MembersOfObject(v);
    FlatNoNul(v.members);
    hide Load, Print, Tokens, Blank, Valid;
    FoldIsMeant(v.members, c, c);
  }
}
