/** Printing a JSON value (sections 2 to 7 of RFC 8259) with any white space and tokenizing
    the text gives back the tree: the tokens in preorder with exact spans and sizes. */
module JsmnRoundTrip {
  import opened Jsmn
  import R = JsmnRefusal

  // ---------- Values and their text ----------

  datatype Exponent = NoExponent | Exponent(mark: char, sign: string, digits: string)

  datatype Value =
    | Literal(name: string)
    | Number(minus: bool, whole: string, fraction: string, exponent: Exponent)
    | Str(text: string)
    | Arr(blank: string, items: Items)
    | Obj(blank: string, members: Members)

  /** `before`, `after` and the like are the white space printed at that place. */
  datatype Items = NoItems | Item(before: string, value: Value, after: string, rest: Items)

  datatype Members =
    | NoMembers
    | Member(before: string, key: string, colon1: string, colon2: string, value: Value, after: string, rest: Members)

  predicate Blank(s: string) {
    forall k :: 0 <= k < |s| ==> s[k] in " \t\r\n"
  }

  predicate Digits(s: string) {
    forall k :: 0 <= k < |s| ==> '0' <= s[k] <= '9'
  }

  /** Section 7: characters from U+0020 on except the quote and the backslash, and escapes. */
  predicate StringText(s: string) {
    if s == "" then true
    else if s[0] != '\\' then s[0] >= ' ' && s[0] != '\"' && StringText(s[1..])
    else if |s| >= 2 && s[1] in "\"\\/bfnrt" then StringText(s[2..])
    else |s| >= 6 && s[1] == 'u' && R.HexDigits(s, 2, 6) && StringText(s[6..])
  }

  predicate Valid(v: Value) {
    match v
    case Literal(name) => name == "true" || name == "false" || name == "null"
    case Number(_, whole, fraction, exponent) =>
      && Digits(whole) && |whole| > 0 && (|whole| > 1 ==> whole[0] != '0')
      && (fraction == "" || (|fraction| > 1 && fraction[0] == '.' && Digits(fraction[1..])))
      && match exponent {
           case NoExponent => true
           case Exponent(mark, sign, digits) =>
             mark in "eE" && sign in {"", "+", "-"} && |digits| > 0 && Digits(digits)
         }
    case Str(text) => StringText(text)
    case Arr(blank, items) => Blank(blank) && ValidItems(items)
    case Obj(blank, members) => Blank(blank) && ValidMembers(members)
  }

  predicate ValidItems(items: Items) {
    match items
    case NoItems => true
    case Item(before, value, after, rest) => Blank(before) && Valid(value) && Blank(after) && ValidItems(rest)
  }

  predicate ValidMembers(members: Members) {
    match members
    case NoMembers => true
    case Member(before, key, colon1, colon2, value, after, rest) =>
      && Blank(before) && StringText(key) && Blank(colon1) && Blank(colon2)
      && Valid(value) && Blank(after) && ValidMembers(rest)
  }

  function ExponentText(e: Exponent): string {
    match e
    case NoExponent => ""
    case Exponent(mark, sign, digits) => [mark] + sign + digits
  }

  function Print(v: Value): string {
    match v
    case Literal(name) => name
    case Number(minus, whole, fraction, exponent) => (if minus then "-" else "") + whole + fraction
        + ExponentText(exponent)
    case Str(text) => "\"" + text + "\""
    case Arr(blank, items) => "[" + (if items.NoItems? then blank + "]" else PrintItems(items))
    case Obj(blank, members) => "{" + (if members.NoMembers? then blank + "}" else PrintMembers(members))
  }

  /** The items up to and with the closing bracket. */
  function PrintItems(items: Items): string
    requires items.Item?
  {
    items.before + (Print(items.value) + (items.after +
      (if items.rest.NoItems? then "]" else "," + PrintItems(items.rest))))
  }

  function PrintMembers(members: Members): string
    requires members.Member?
  {
    members.before + (("\"" + members.key + "\"") + (members.colon1 + (":" + (members.colon2 +
      (Print(members.value) + (members.after +
        (if members.rest.NoMembers? then "}" else "," + PrintMembers(members.rest))))))))
  }

  // ---------- The tokens the tree stands for ----------

  function ItemCount(items: Items): nat {
    if items.NoItems? then 0 else 1 + ItemCount(items.rest)
  }

  function MemberCount(members: Members): nat {
    if members.NoMembers? then 0 else 1 + MemberCount(members.rest)
  }

  /** Preorder, for the value printed at offset `p`. */
  function Tokens(v: Value, p: nat): seq<Token> {
    var end := p + |Print(v)|;
    match v
    case Literal(_) => [Token(Primitive, p, end, 0)]
    case Number(_, _, _, _) => [Token(Primitive, p, end, 0)]
    case Str(_) => [Token(String, p + 1, end - 1, 0)]
    case Arr(_, items) => [Token(Array, p, end, ItemCount(items))] + ItemTokens(items, p + 1)
    case Obj(_, members) => [Token(Object, p, end, MemberCount(members))] + MemberTokens(members, p + 1)
  }

  function ItemTokens(items: Items, p: nat): seq<Token> {
    match items
    case NoItems => []
    case Item(before, value, after, rest) =>
      var q := p + |before|;
      Tokens(value, q) + ItemTokens(rest, q + |Print(value)| + |after| + 1)
  }

  /** Where the value of the first member starts. */
  function ValueAt(members: Members, p: nat): nat
    requires members.Member?
  {
    p + |members.before| + |members.key| + 2 + |members.colon1| + 1 + |members.colon2|
  }

  function MemberTokens(members: Members, p: nat): seq<Token> {
    match members
    case NoMembers => []
    case Member(before, key, colon1, colon2, value, after, rest) =>
      var k, q := p + |before| + 1, ValueAt(members, p);
      [Token(String, k, k + |key|, 1)] + Tokens(value, q) + MemberTokens(rest, q + |Print(value)| + |after| + 1)
  }

  // ---------- Reading one lexical element ----------

  /** `x` stands in the text at offset `p`. */
  predicate At(js: string, p: nat, x: string) {
    p + |x| <= |js| && js[p..p + |x|] == x
  }

  lemma AtSplit(js: string, p: nat, x: string, y: string)
    requires At(js, p, x + y)
    ensures At(js, p, x) && At(js, p + |x|, y)
  {
    assert js[p..p + |x|] == js[p..p + |x + y|][..|x|];
    assert js[p + |x|..p + |x| + |y|] == js[p..p + |x + y|][|x|..];
  }

  lemma AtFirst(js: string, p: nat, x: string)
    requires At(js, p, x) && x != ""
    ensures p < |js| && js[p] == x[0]
  {
    assert js[p] == js[p..p + |x|][0];
  }

  /** What may follow a value: white space, a comma, a closing bracket or the end. */
  predicate Delimited(js: string, p: nat) {
    p <= |js| && (AtEnd(js, p) || IsDelimiter(js[p]))
  }

  lemma BlankStep(js: string, cap: nat, st: State)
    requires st.pos < |js| && js[st.pos] in " \t\r\n"
    ensures !AtEnd(js, st.pos) && Step(js, cap, st) == Next(st.(pos := st.pos + 1), 0)
  {
    R.DelimiterIs(js[st.pos]);
  }

  lemma {:induction false} BlankRun(js: string, cap: nat, st: State, count: nat, w: string)
    requires Blank(w) && At(js, st.pos, w)
    ensures Run(js, cap, st, count) == Run(js, cap, st.(pos := st.pos + |w|), count)
    decreases |w|
  {
    if w != "" {
      AtFirst(js, st.pos, w);
      RunUnfolds(js, cap, st, count);
      assert w == w[..1] + w[1..];
      AtSplit(js, st.pos, w[..1], w[1..]);
      BlankStep(js, cap, st);
      hide Run, Step, At;
      BlankRun(js, cap, st.(pos := st.pos + 1), count, w[1..]);
    }
  }

  lemma DelimitedAfter(js: string, p: nat, w: string)
    requires Blank(w) && At(js, p, w) && Delimited(js, p + |w|)
    ensures Delimited(js, p)
  {
    if w != "" {
      AtFirst(js, p, w);
      R.DelimiterIs(w[0]);
    }
  }

  predicate OpensToken(c: char) {
    c == '{' || c == '[' || c == '\"'
  }

  predicate Plain(s: string) {
    forall k :: 0 <= k < |s| ==> IsPrintable(s[k]) && !IsDelimiter(s[k])
  }

  lemma {:induction false} PlainEnd(js: string, p: nat, s: string)
    requires Plain(s) && At(js, p, s) && Delimited(js, p + |s|)
    ensures PrimitiveEnd(js, p) == p + |s|
    decreases |s|
  {
    if s != "" {
      AtFirst(js, p, s);
      assert s == s[..1] + s[1..];
      AtSplit(js, p, s[..1], s[1..]);
      PlainEnd(js, p + 1, s[1..]);
    }
  }

  lemma PlainConcat(a: string, b: string)
    requires Plain(a) && Plain(b)
    ensures Plain(a + b)
  {
  }

  /** Literals and numbers hold only characters a primitive may hold. */
  lemma ScalarIsPlain(v: Value)
    requires Valid(v) && (v.Literal? || v.Number?)
    ensures Plain(Print(v)) && Print(v) != "" && !OpensToken(Print(v)[0])
  {
    match v
    case Literal(_) =>
    case Number(minus, whole, fraction, exponent) =>
      var m, e := if minus then "-" else "", ExponentText(exponent);
      assert fraction != "" ==> fraction == ['.'] + fraction[1..];
      ExponentIsPlain(exponent);
      PlainConcat(m, whole);
      PlainConcat(m + whole, fraction);
      PlainConcat(m + whole + fraction, e);
      assert (m + whole + fraction + e)[0] == (m + whole)[0];
  }

  lemma ExponentIsPlain(e: Exponent)
    requires e.NoExponent? || (e.mark in "eE" && e.sign in {"", "+", "-"} && Digits(e.digits))
    ensures Plain(ExponentText(e))
  {
    if e.Exponent? {
      PlainConcat([e.mark], e.sign);
      PlainConcat([e.mark] + e.sign, e.digits);
    }
  }

  /** One character or escape of a string's text. */
  function UnitLength(s: string): (n: nat)
    requires StringText(s) && s != ""
    ensures 1 <= n <= |s| && StringText(s[n..])
  {
    if s[0] != '\\' then 1 else if s[1] in "\"\\/bfnrt" then 2 else 6
  }

  lemma {:induction false} TextIsQuoted(js: string, p: nat, s: string)
    requires StringText(s) && At(js, p, s)
    ensures R.Quoted(js, p, p + |s|)
    decreases |s|
  {
    if s != "" {
      var u, n := js[p..p + |s|], UnitLength(s);
      assert s == s[..n] + s[n..];
      AtSplit(js, p, s[..n], s[n..]);
      TextIsQuoted(js, p + n, s[n..]);
      assert js[p] == u[0];
      if s[0] == '\\' {
        assert js[p + 1] == u[1];
        if n == 6 {
          assert forall i :: 2 <= i < 6 ==> js[p + i] == u[i];
        }
      }
    }
  }

  lemma StringTextEnd(js: string, p: nat, s: string)
    requires StringText(s) && At(js, p, s) && p + |s| < |js| && js[p + |s|] == '\"'
    ensures StringEnd(js, p) == Closed(p + |s|)
  {
    TextIsQuoted(js, p, s);
    R.StringEndIs(js, p, p + |s|);
  }

  // ---------- The token sequence while reading ----------

  predicate AllClosed(toks: seq<Token>) {
    forall i :: 0 <= i < |toks| ==> !toks[i].Open()
  }

  lemma TokensClosed(v: Value, p: nat)
    ensures AllClosed(Tokens(v, p)) && |Tokens(v, p)| > 0
  {
    match v
    case Arr(_, items) => ItemTokensClosed(items, p + 1);
    case Obj(_, members) => MemberTokensClosed(members, p + 1);
    case _ =>
  }

  lemma ItemTokensClosed(items: Items, p: nat)
    ensures AllClosed(ItemTokens(items, p))
  {
    match items
    case NoItems =>
    case Item(before, value, after, rest) =>
      var q := p + |before|;
      TokensClosed(value, q);
      ItemTokensClosed(rest, q + |Print(value)| + |after| + 1);
  }

  lemma MemberTokensClosed(members: Members, p: nat)
    ensures AllClosed(MemberTokens(members, p))
  {
    match members
    case NoMembers =>
    case Member(before, key, colon1, colon2, value, after, rest) =>
      var q := ValueAt(members, p);
      TokensClosed(value, q);
      MemberTokensClosed(rest, q + |Print(value)| + |after| + 1);
  }

  lemma LastOpenIs(toks: seq<Token>, o: nat, closed: seq<Token>)
    requires o < |toks| && LastOpen(toks) == o && AllClosed(closed)
    ensures LastOpen(toks + closed) == o
  {
    LastOpenIsLast(toks);
    LastOpenUnique(toks + closed, o);
  }

  // ---------- Reading one bracket, comma, colon or leaf ----------

  lemma OpenRun(js: string, cap: nat, st: State, count: nat)
    requires st.pos < |js| && (js[st.pos] == '{' || js[st.pos] == '[') && |st.toks| < cap
    ensures var kind := if js[st.pos] == '{' then Object else Array;
            var st' := State(st.pos + 1, Bump(st.toks, st.super) + [Token(kind, st.pos, -1, 0)], |st.toks|);
            LastOpen(st'.toks) == |st.toks| && Run(js, cap, st, count) == Run(js, cap, st', count + 1)
  {
    RunUnfolds(js, cap, st, count);
    hide Run;
    assert Step(js, cap, st).Next?;
  }

  /** The state after the closing bracket of the open token `o`, with `n` more children, which
      left the closed tokens `inner`. */
  function ClosedBy(st: State, o: nat, n: nat, end: nat, inner: seq<Token>): State
    requires o < |st.toks|
  {
    State(end, st.toks[o := st.toks[o].(size := st.toks[o].size + n, end := end)] + inner, LastOpen(st.toks[..o]))
  }

  lemma CloseRun(js: string, cap: nat, st: State, count: nat)
    requires st.pos < |js| && LastOpen(st.toks) >= 0
    requires var kind := st.toks[LastOpen(st.toks)].kind;
             (kind.Object? && js[st.pos] == '}') || (kind.Array? && js[st.pos] == ']')
    ensures var st' := ClosedBy(st, LastOpen(st.toks), 0, st.pos + 1, []);
            Run(js, cap, st, count) == Run(js, cap, st', count)
  {
    RunUnfolds(js, cap, st, count);
    hide Run, LastOpen;
    var st' := ClosedBy(st, LastOpen(st.toks), 0, st.pos + 1, []);
    assert Step(js, cap, st) == Next(st', 0);
  }

  lemma CommaRun(js: string, cap: nat, st: State, count: nat)
    requires st.pos < |js| && js[st.pos] == ','
    requires LastOpen(st.toks) >= 0 && 0 <= st.super < |st.toks|
    requires st.super != LastOpen(st.toks) ==> !st.toks[st.super].Container()
    ensures var st' := State(st.pos + 1, st.toks, LastOpen(st.toks));
            Run(js, cap, st, count) == Run(js, cap, st', count)
  {
    RunUnfolds(js, cap, st, count);
    hide Run, LastOpen;
    assert Step(js, cap, st) == Next(State(st.pos + 1, st.toks, LastOpen(st.toks)), 0);
  }

  lemma ColonRun(js: string, cap: nat, st: State, count: nat)
    requires st.pos < |js| && js[st.pos] == ':'
    ensures var st' := State(st.pos + 1, st.toks, |st.toks| - 1);
            Run(js, cap, st, count) == Run(js, cap, st', count)
  {
    RunUnfolds(js, cap, st, count);
    hide Run;
    assert Step(js, cap, st) == Next(State(st.pos + 1, st.toks, |st.toks| - 1), 0);
  }

  /** The state after a leaf token. */
  function AfterLeaf(st: State, t: Token, next: nat): State
  {
    State(next, Bump(st.toks, st.super) + [t], st.super)
  }

  lemma StringRun(js: string, cap: nat, st: State, count: nat, text: string)
    requires StringText(text) && At(js, st.pos, "\"" + text + "\"") && |st.toks| < cap
    ensures var st' := AfterLeaf(st, Token(String, st.pos + 1, st.pos + 1 + |text|, 0), st.pos + |text| + 2);
            Run(js, cap, st, count) == Run(js, cap, st', count + 1)
  {
    AtFirst(js, st.pos, "\"" + text + "\"");
    AtSplit(js, st.pos, "\"" + text, "\"");
    AtSplit(js, st.pos, "\"", text);
    AtFirst(js, st.pos + 1 + |text|, "\"");
    StringTextEnd(js, st.pos + 1, text);
    RunUnfolds(js, cap, st, count);
    hide Run, StringEnd;
    assert Step(js, cap, st)
        == Next(AfterLeaf(st, Token(String, st.pos + 1, st.pos + 1 + |text|, 0), st.pos + |text| + 2), 1);
  }

  lemma ScalarRun(js: string, cap: nat, st: State, count: nat, text: string)
    requires Plain(text) && text != "" && !OpensToken(text[0])
    requires At(js, st.pos, text) && Delimited(js, st.pos + |text|) && |st.toks| < cap
    ensures var st' := AfterLeaf(st, Token(Primitive, st.pos, st.pos + |text|, 0), st.pos + |text|);
            Run(js, cap, st, count) == Run(js, cap, st', count + 1)
  {
    AtFirst(js, st.pos, text);
    PlainEnd(js, st.pos, text);
    RunUnfolds(js, cap, st, count);
    hide Run, PrimitiveEnd;
    assert Step(js, cap, st) == Next(AfterLeaf(st, Token(Primitive, st.pos, st.pos + |text|, 0), st.pos + |text|), 1);
  }

  // ---------- Reading a value ----------

  /** The state after a value read at `st`: its tokens are there, its superior counts one more
      child, and a container leaves the innermost open one as the superior. */
  function AfterValue(st: State, v: Value): State
  {
    State(st.pos + |Print(v)|, Bump(st.toks, st.super) + Tokens(v, st.pos),
          if v.Arr? || v.Obj? then LastOpen(st.toks) else st.super)
  }

  lemma AfterValueOpen(st: State, v: Value)
    ensures LastOpen(st.toks) >= 0 ==> LastOpen(AfterValue(st, v).toks) == LastOpen(st.toks)
  {
    TokensClosed(v, st.pos);
    LastOpenBump(st.toks, st.super);
    if LastOpen(st.toks) >= 0 {
      LastOpenIs(Bump(st.toks, st.super), LastOpen(st.toks), Tokens(v, st.pos));
    }
  }

  /** Children counted before the closing bracket is read. */
  lemma ClosedByMerges(st: State, st': State, o: nat, n: nat, end: nat, head: seq<Token>, rest: seq<Token>)
    requires o < |st.toks| && st'.toks == Bump(st.toks, o) + head
    ensures ClosedBy(st', o, n, end, rest) == ClosedBy(st, o, n + 1, end, head + rest)
  {
    assert st'.toks[..o] == st.toks[..o];
    assert ClosedBy(st', o, n, end, rest).toks == ClosedBy(st, o, n + 1, end, head + rest).toks;
  }

  /** The closing bracket of a container opened at `st`. */
  lemma ClosedByOpens(st: State, st': State, kind: Kind, n: nat, end: nat, inner: seq<Token>)
    requires st'.toks == Bump(st.toks, st.super) + [Token(kind, st.pos, -1, 0)]
    ensures ClosedBy(st', |st.toks|, n, end, inner)
         == State(end, Bump(st.toks, st.super) + ([Token(kind, st.pos, end, n)] + inner), LastOpen(st.toks))
  {
    LastOpenBump(st.toks, st.super);
    assert st'.toks[..|st.toks|] == Bump(st.toks, st.super);
  }

  lemma LeafRun(js: string, cap: nat, st: State, count: nat, v: Value)
    requires Valid(v) && At(js, st.pos, Print(v)) && Delimited(js, st.pos + |Print(v)|)
    requires !v.Arr? && !v.Obj? && |st.toks| + |Tokens(v, st.pos)| <= cap
    ensures Run(js, cap, st, count) == Run(js, cap, AfterValue(st, v), count + |Tokens(v, st.pos)|)
  {
    hide Run, LastOpen, Delimited, At, Bump;
    match v
    case Str(text) => StringRun(js, cap, st, count, text);
    case _ =>
      ScalarIsPlain(v);
      ScalarRun(js, cap, st, count, Print(v));
      hide Print, Valid;
  }

  lemma {:induction false} ValueRun(js: string, cap: nat, st: State, count: nat, v: Value)
    requires Valid(v) && At(js, st.pos, Print(v)) && Delimited(js, st.pos + |Print(v)|)
    requires LastOpen(st.toks) <= st.super && |st.toks| + |Tokens(v, st.pos)| <= cap
    ensures Run(js, cap, st, count) == Run(js, cap, AfterValue(st, v), count + |Tokens(v, st.pos)|)
    decreases v, 1
  {
    hide Run, LastOpen, Delimited, Print, Tokens, At, Valid, AfterValue;
    match v
    case Arr(_, _) => ArrayRun(js, cap, st, count, v);
    case Obj(_, _) => ObjectRun(js, cap, st, count, v);
    case _ => LeafRun(js, cap, st, count, v);
  }

  /** An empty container, from just after its opening bracket. */
  lemma EmptyRun(js: string, cap: nat, st: State, count: nat, blank: string, close: string)
    requires Blank(blank) && |close| == 1 && At(js, st.pos, blank + close)
    requires LastOpen(st.toks) >= 0
    requires var kind := st.toks[LastOpen(st.toks)].kind;
             (kind.Object? && close[0] == '}') || (kind.Array? && close[0] == ']')
    ensures var st' := ClosedBy(st, LastOpen(st.toks), 0, st.pos + |blank| + 1, []);
            Run(js, cap, st, count) == Run(js, cap, st', count)
  {
    hide Run, LastOpen;
    AtSplit(js, st.pos, blank, close);
    AtFirst(js, st.pos + |blank|, close);
    BlankRun(js, cap, st, count, blank);
    CloseRun(js, cap, st.(pos := st.pos + |blank|), count);
  }

  function ArrBody(v: Value): string
    requires v.Arr?
  {
    if v.items.NoItems? then v.blank + "]" else PrintItems(v.items)
  }

  lemma ArrSplit(js: string, p: nat, v: Value)
    requires v.Arr? && Valid(v) && At(js, p, Print(v))
    ensures p < |js| && js[p] == '[' && At(js, p + 1, ArrBody(v)) && |Print(v)| == 1 + |ArrBody(v)|
    ensures Blank(v.blank) && ValidItems(v.items)
    ensures Tokens(v, p) == [Token(Array, p, p + |Print(v)|, ItemCount(v.items))] + ItemTokens(v.items, p + 1)
    ensures v.items.NoItems? ==> ItemTokens(v.items, p + 1) == [] && |Print(v)| == |v.blank| + 2
    ensures v.items.NoItems? ==> ArrBody(v) == v.blank + "]" && ItemCount(v.items) == 0
    ensures !v.items.NoItems? ==> ArrBody(v) == PrintItems(v.items)
  {
    assert Print(v) == "[" + ArrBody(v);
    hide At, Print, ArrBody;
    AtFirst(js, p, Print(v));
    AtSplit(js, p, "[", ArrBody(v));
  }

  lemma {:induction false} ArrayRun(js: string, cap: nat, st: State, count: nat, v: Value)
    requires v.Arr? && Valid(v) && At(js, st.pos, Print(v))
    requires LastOpen(st.toks) <= st.super && |st.toks| + |Tokens(v, st.pos)| <= cap
    ensures Run(js, cap, st, count) == Run(js, cap, AfterValue(st, v), count + |Tokens(v, st.pos)|)
    decreases v, 0
  {
    hide Run, LastOpen, Print, PrintItems, Tokens, ItemTokens, At, Valid, ValidItems, Blank, Bump;
    AfterValueOpen(st, v);
    ArrSplit(js, st.pos, v);
    var o, end := |st.toks|, st.pos + |Print(v)|;
    OpenRun(js, cap, st, count);
    var st1 := State(st.pos + 1, Bump(st.toks, st.super) + [Token(Array, st.pos, -1, 0)], o);
    ClosedByOpens(st, st1, Array, ItemCount(v.items), end, ItemTokens(v.items, st.pos + 1));
    assert AfterValue(st, v) == ClosedBy(st1, o, ItemCount(v.items), end, ItemTokens(v.items, st.pos + 1));
    hide AfterValue, ClosedBy, ArrBody;
    if v.items.NoItems? {
      EmptyRun(js, cap, st1, count + 1, v.blank, "]");
    } else {
      ItemsRun(js, cap, st1, count + 1, v.items, o);
    }
  }

  /** The white space, the value and the white space of one item, up to the comma or bracket. */
  function AfterItem(st: State, item: Items): State
    requires item.Item?
  {
    var st' := AfterValue(st.(pos := st.pos + |item.before|), item.value);
    State(st'.pos + |item.after|, st'.toks, st.super)
  }

  function ItemTail(items: Items): (t: string)
    requires items.Item?
    ensures |t| > 0 && IsDelimiter(t[0])
  {
    if items.rest.NoItems? then "]" else "," + PrintItems(items.rest)
  }

  lemma PrintItemsUnfolds(items: Items)
    requires items.Item?
    ensures PrintItems(items) == items.before + (Print(items.value) + (items.after + ItemTail(items)))
    ensures ValidItems(items) <==>
      Blank(items.before) && Valid(items.value) && Blank(items.after) && ValidItems(items.rest)
  {
    hide Print, Valid, Blank;
  }

  lemma SplitFour(js: string, p: nat, a: string, b: string, c: string, d: string)
    requires At(js, p, a + (b + (c + d)))
    ensures At(js, p, a) && At(js, p + |a|, b) && At(js, p + |a| + |b|, c) && At(js, p + |a| + |b| + |c|, d)
  {
    hide At;
    AtSplit(js, p, a, b + (c + d));
    AtSplit(js, p + |a|, b, c + d);
    AtSplit(js, p + |a| + |b|, c, d);
  }

  lemma ItemSplit(js: string, p: nat, items: Items)
    requires items.Item? && ValidItems(items) && At(js, p, PrintItems(items))
    ensures var q := p + |items.before|;
            var e := q + |Print(items.value)|;
            var f := e + |items.after|;
            && Blank(items.before) && At(js, p, items.before)
            && Valid(items.value) && At(js, q, Print(items.value)) && Delimited(js, e)
            && Blank(items.after) && At(js, e, items.after)
            && At(js, f, ItemTail(items)) && f < |js| && js[f] == ItemTail(items)[0]
            && |PrintItems(items)| == f + |ItemTail(items)| - p
  {
    hide At, Print, Valid, Blank, ItemTail;
    PrintItemsUnfolds(items);
    hide PrintItems, ValidItems;
    var x, tail := Print(items.value), ItemTail(items);
    var e := p + |items.before| + |x|;
    SplitFour(js, p, items.before, x, items.after, tail);
    AtFirst(js, e + |items.after|, tail);
    DelimitedAfter(js, e, items.after);
  }

  lemma ItemTailSplit(js: string, p: nat, items: Items)
    requires items.Item? && ValidItems(items) && At(js, p, ItemTail(items))
    ensures p < |js| && ValidItems(items.rest)
    ensures items.rest.NoItems? ==> js[p] == ']' && |ItemTail(items)| == 1 && ItemCount(items) == 1
    ensures items.rest.Item? ==>
              && js[p] == ',' && At(js, p + 1, PrintItems(items.rest))
              && |ItemTail(items)| == 1 + |PrintItems(items.rest)|
              && ItemCount(items) == ItemCount(items.rest) + 1
  {
    hide At, Print, PrintItems, Valid, ValidItems, Blank;
    PrintItemsUnfolds(items);
    AtFirst(js, p, ItemTail(items));
    if items.rest.Item? {
      AtSplit(js, p, ",", PrintItems(items.rest));
    }
  }

  lemma ItemTokensSplit(items: Items, p: nat)
    requires items.Item?
    ensures var q := p + |items.before|;
            var r := q + |Print(items.value)| + |items.after| + 1;
            ItemTokens(items, p) == Tokens(items.value, q) + ItemTokens(items.rest, r)
    ensures items.rest.NoItems? ==> ItemTokens(items, p) == Tokens(items.value, p + |items.before|)
  {
  }

  lemma {:induction false} ItemRun(js: string, cap: nat, st: State, count: nat, items: Items, o: nat)
    requires items.Item? && ValidItems(items) && At(js, st.pos, PrintItems(items))
    requires o < |st.toks| && st.super == o == LastOpen(st.toks) && st.toks[o].kind.Array?
    requires |st.toks| + |ItemTokens(items, st.pos)| <= cap
    ensures var st' := AfterItem(st, items);
            && LastOpen(st'.toks) == o
            && At(js, st'.pos, ItemTail(items))
            && Run(js, cap, st, count) == Run(js, cap, st', count + |Tokens(items.value, st.pos + |items.before|)|)
    decreases items, 0
  {
    hide Run, LastOpen, At, Print, PrintItems, Tokens, ItemTokens, Valid, ValidItems, Delimited, Bump;
    var v := items.value;
    var q := st.pos + |items.before|;
    ItemSplit(js, st.pos, items);
    ItemTokensSplit(items, st.pos);
    BlankRun(js, cap, st, count, items.before);
    var st1 := st.(pos := q);
    ValueRun(js, cap, st1, count, v);
    AfterValueOpen(st1, v);
    BlankRun(js, cap, AfterValue(st1, v), count + |Tokens(v, q)|, items.after);
  }

  lemma {:induction false} ItemsRun(js: string, cap: nat, st: State, count: nat, items: Items, o: nat)
    requires items.Item? && ValidItems(items) && At(js, st.pos, PrintItems(items))
    requires o < |st.toks| && st.super == o == LastOpen(st.toks) && st.toks[o].kind.Array?
    requires |st.toks| + |ItemTokens(items, st.pos)| <= cap
    ensures var st' := ClosedBy(st, o, ItemCount(items), st.pos + |PrintItems(items)|, ItemTokens(items, st.pos));
            Run(js, cap, st, count) == Run(js, cap, st', count + |ItemTokens(items, st.pos)|)
    decreases items, 1
  {
    hide Run, LastOpen, Print, PrintItems, Tokens, ItemTokens, ItemCount, At, Valid, ValidItems, Blank, Delimited;
    var q := st.pos + |items.before|;
    var head := Tokens(items.value, q);
    var st3, count' := AfterItem(st, items), count + |head|;
    ItemTokensClosed(items, st.pos);
    ItemTokensSplit(items, st.pos);
    ItemSplit(js, st.pos, items);
    ItemTailSplit(js, st3.pos, items);
    ItemRun(js, cap, st, count, items, o);
    assert st3.toks == Bump(st.toks, o) + head && st3.toks[o].kind == st.toks[o].kind;
    assert st3.super == o && st3.pos == q + |Print(items.value)| + |items.after|;
    hide Bump, AfterItem, ItemTail, ClosedBy, AllClosed;
    if items.rest.NoItems? {
      CloseRun(js, cap, st3, count');
      ClosedByMerges(st, st3, o, 0, st3.pos + 1, head, []);
      assert head + [] == head;
    } else {
      CommaRun(js, cap, st3, count');
      var st4 := State(st3.pos + 1, st3.toks, o);
      ItemsRun(js, cap, st4, count', items.rest, o);
      ClosedByMerges(st, st4, o, ItemCount(items.rest), st4.pos + |PrintItems(items.rest)|, head,
                     ItemTokens(items.rest, st4.pos));
    }
  }

  function ObjBody(v: Value): string
    requires v.Obj?
  {
    if v.members.NoMembers? then v.blank + "}" else PrintMembers(v.members)
  }

  lemma ObjSplit(js: string, p: nat, v: Value)
    requires v.Obj? && Valid(v) && At(js, p, Print(v))
    ensures p < |js| && js[p] == '{' && At(js, p + 1, ObjBody(v)) && |Print(v)| == 1 + |ObjBody(v)|
    ensures Blank(v.blank) && ValidMembers(v.members)
    ensures Tokens(v, p) == [Token(Object, p, p + |Print(v)|, MemberCount(v.members))] + MemberTokens(v.members, p + 1)
    ensures v.members.NoMembers? ==> MemberTokens(v.members, p + 1) == [] && |Print(v)| == |v.blank| + 2
    ensures v.members.NoMembers? ==> ObjBody(v) == v.blank + "}" && MemberCount(v.members) == 0
    ensures !v.members.NoMembers? ==> ObjBody(v) == PrintMembers(v.members)
  {
    assert Print(v) == "{" + ObjBody(v);
    hide At, Print, ObjBody;
    AtFirst(js, p, Print(v));
    AtSplit(js, p, "{", ObjBody(v));
  }

  lemma {:induction false} ObjectRun(js: string, cap: nat, st: State, count: nat, v: Value)
    requires v.Obj? && Valid(v) && At(js, st.pos, Print(v))
    requires LastOpen(st.toks) <= st.super && |st.toks| + |Tokens(v, st.pos)| <= cap
    ensures Run(js, cap, st, count) == Run(js, cap, AfterValue(st, v), count + |Tokens(v, st.pos)|)
    decreases v, 0
  {
    hide Run, LastOpen, Print, PrintMembers, Tokens, MemberTokens, At, Valid, ValidMembers, Blank, Bump;
    AfterValueOpen(st, v);
    ObjSplit(js, st.pos, v);
    var o, end := |st.toks|, st.pos + |Print(v)|;
    OpenRun(js, cap, st, count);
    var st1 := State(st.pos + 1, Bump(st.toks, st.super) + [Token(Object, st.pos, -1, 0)], o);
    ClosedByOpens(st, st1, Object, MemberCount(v.members), end, MemberTokens(v.members, st.pos + 1));
    assert AfterValue(st, v) == ClosedBy(st1, o, MemberCount(v.members), end, MemberTokens(v.members, st.pos + 1));
    hide AfterValue, ClosedBy, ObjBody;
    if v.members.NoMembers? {
      EmptyRun(js, cap, st1, count + 1, v.blank, "}");
    } else {
      MembersRun(js, cap, st1, count + 1, v.members, o);
    }
  }

  function ColonTail(members: Members): string
    requires members.Member?
  {
    Print(members.value) + (members.after + MemberTail(members))
  }

  function MemberTail(members: Members): (t: string)
    requires members.Member?
    ensures |t| > 0 && IsDelimiter(t[0])
  {
    if members.rest.NoMembers? then "}" else "," + PrintMembers(members.rest)
  }

  /** The state just before a member's value: the key is the superior token. */
  function AfterKey(st: State, members: Members): State
    requires members.Member?
  {
    var k := st.pos + |members.before| + 1;
    State(ValueAt(members, st.pos), Bump(st.toks, st.super) + [Token(String, k, k + |members.key|, 0)], |st.toks|)
  }

  lemma PrintMembersUnfolds(members: Members)
    requires members.Member?
    ensures PrintMembers(members) ==
              members.before + (("\"" + members.key + "\"")
                  + (members.colon1 + (":" + (members.colon2 + ColonTail(members)))))
    ensures ColonTail(members) == Print(members.value) + (members.after + MemberTail(members))
    ensures ValidMembers(members) <==>
              && Blank(members.before) && StringText(members.key) && Blank(members.colon1) && Blank(members.colon2)
              && Valid(members.value) && Blank(members.after) && ValidMembers(members.rest)
  {
    hide Print, Valid, Blank, StringText;
  }

  lemma SplitSix(js: string, p: nat, a: string, b: string, c: string, d: string, e: string, f: string)
    requires At(js, p, a + (b + (c + (d + (e + f)))))
    ensures At(js, p, a) && At(js, p + |a|, b) && At(js, p + |a| + |b|, c) && At(js, p + |a| + |b| + |c|, d)
    ensures At(js, p + |a| + |b| + |c| + |d|, e) && At(js, p + |a| + |b| + |c| + |d| + |e|, f)
  {
    hide At;
    AtSplit(js, p, a, b + (c + (d + (e + f))));
    AtSplit(js, p + |a|, b, c + (d + (e + f)));
    AtSplit(js, p + |a| + |b|, c, d + (e + f));
    AtSplit(js, p + |a| + |b| + |c|, d, e + f);
    AtSplit(js, p + |a| + |b| + |c| + |d|, e, f);
  }

  lemma KeySplit(js: string, p: nat, members: Members)
    requires members.Member? && ValidMembers(members) && At(js, p, PrintMembers(members))
    ensures var q := p + |members.before|;
            var e := q + |members.key| + 2;
            var c := e + |members.colon1|;
            && Blank(members.before) && At(js, p, members.before)
            && StringText(members.key) && At(js, q, "\"" + members.key + "\"")
            && Blank(members.colon1) && At(js, e, members.colon1)
            && c < |js| && js[c] == ':'
            && Blank(members.colon2) && At(js, c + 1, members.colon2)
            && At(js, ValueAt(members, p), ColonTail(members))
            && |PrintMembers(members)| == ValueAt(members, p) + |ColonTail(members)| - p
  {
    hide At, Print, Valid, Blank, StringText, ColonTail;
    PrintMembersUnfolds(members);
    hide PrintMembers, ValidMembers;
    var m := members;
    var quoted := "\"" + m.key + "\"";
    SplitSix(js, p, m.before, quoted, m.colon1, ":", m.colon2, ColonTail(m));
    AtFirst(js, p + |m.before| + |quoted| + |m.colon1|, ":");
  }

  lemma ValueSplit(js: string, p: nat, members: Members)
    requires members.Member? && ValidMembers(members) && At(js, p, ColonTail(members))
    ensures var e := p + |Print(members.value)|;
            var f := e + |members.after|;
            && Valid(members.value) && At(js, p, Print(members.value)) && Delimited(js, e)
            && Blank(members.after) && At(js, e, members.after)
            && At(js, f, MemberTail(members)) && f < |js| && js[f] == MemberTail(members)[0]
            && |ColonTail(members)| == f + |MemberTail(members)| - p
  {
    hide At, Print, PrintMembers, MemberTail, Valid, ValidMembers, ColonTail, Blank, StringText;
    PrintMembersUnfolds(members);
    var e := p + |Print(members.value)|;
    AtSplit(js, p, Print(members.value), members.after + MemberTail(members));
    AtSplit(js, e, members.after, MemberTail(members));
    AtFirst(js, e + |members.after|, MemberTail(members));
    DelimitedAfter(js, e, members.after);
  }

  lemma KeyRun(js: string, cap: nat, st: State, count: nat, members: Members, o: nat)
    requires members.Member? && ValidMembers(members) && At(js, st.pos, PrintMembers(members))
    requires o < |st.toks| && st.super == o == LastOpen(st.toks) && |st.toks| < cap
    ensures var st' := AfterKey(st, members);
            && LastOpen(st'.toks) == o
            && Run(js, cap, st, count) == Run(js, cap, st', count + 1)
  {
    hide Run, LastOpen, At, Print, PrintMembers, Valid, ValidMembers, ColonTail, StringText;
    var key := members.key;
    var q := st.pos + |members.before|;
    var e := q + |key| + 2;
    KeySplit(js, st.pos, members);
    BlankRun(js, cap, st, count, members.before);
    StringRun(js, cap, st.(pos := q), count, key);
    var t := Token(String, q + 1, q + 1 + |key|, 0);
    var st1 := AfterLeaf(st.(pos := q), t, e);
    BlankRun(js, cap, st1, count + 1, members.colon1);
    ColonRun(js, cap, st1.(pos := e + |members.colon1|), count + 1);
    BlankRun(js, cap, State(e + |members.colon1| + 1, st1.toks, |st1.toks| - 1), count + 1, members.colon2);
    LastOpenBump(st.toks, o);
    LastOpenIs(Bump(st.toks, o), o, [t]);
  }

  /** One member up to the comma or bracket; its tokens are the key and the value. */
  function AfterMember(st: State, members: Members): State
    requires members.Member?
  {
    var st' := AfterValue(AfterKey(st, members), members.value);
    State(st'.pos + |members.after|, st'.toks, st'.super)
  }

  /** The tokens of the first member. */
  function HeadTokens(members: Members, p: nat): seq<Token>
    requires members.Member?
  {
    var k := p + |members.before| + 1;
    [Token(String, k, k + |members.key|, 1)] + Tokens(members.value, ValueAt(members, p))
  }

  lemma MemberTailSplit(js: string, p: nat, members: Members)
    requires members.Member? && ValidMembers(members) && At(js, p, MemberTail(members))
    ensures p < |js| && ValidMembers(members.rest)
    ensures members.rest.NoMembers? ==> js[p] == '}' && |MemberTail(members)| == 1 && MemberCount(members) == 1
    ensures members.rest.Member? ==>
              && js[p] == ',' && At(js, p + 1, PrintMembers(members.rest))
              && |MemberTail(members)| == 1 + |PrintMembers(members.rest)|
              && MemberCount(members) == MemberCount(members.rest) + 1
  {
    hide At, Print, PrintMembers, Valid, ValidMembers, Blank, StringText, ColonTail;
    PrintMembersUnfolds(members);
    AtFirst(js, p, MemberTail(members));
    if members.rest.Member? {
      AtSplit(js, p, ",", PrintMembers(members.rest));
    }
  }

  lemma MemberTokensSplit(members: Members, p: nat)
    requires members.Member?
    ensures var r := ValueAt(members, p) + |Print(members.value)| + |members.after| + 1;
            MemberTokens(members, p) == HeadTokens(members, p) + MemberTokens(members.rest, r)
    ensures members.rest.NoMembers? ==> MemberTokens(members, p) == HeadTokens(members, p)
  {
  }

  /** The key and the value of a member: two more tokens sequences, one more child of `o`. */
  lemma AfterMemberTokens(st: State, members: Members, o: nat)
    requires members.Member? && st.super == o < |st.toks|
    ensures AfterMember(st, members).toks == Bump(st.toks, o) + HeadTokens(members, st.pos)
    ensures |AfterMember(st, members).toks| > |st.toks|
    ensures AfterMember(st, members).toks[|st.toks|].kind.String?
    ensures AfterMember(st, members).toks[o].kind == st.toks[o].kind
  {
    var st1 := AfterKey(st, members);
    var inner := Tokens(members.value, st1.pos);
    assert Bump(st1.toks, |st.toks|) == Bump(st.toks, o) + [HeadTokens(members, st.pos)[0]];
  }

  lemma {:induction false} MemberRun(js: string, cap: nat, st: State, count: nat, members: Members, o: nat)
    requires members.Member? && ValidMembers(members) && At(js, st.pos, PrintMembers(members))
    requires o < |st.toks| && st.super == o == LastOpen(st.toks)
    requires |st.toks| + |MemberTokens(members, st.pos)| <= cap
    ensures var st' := AfterMember(st, members);
            && LastOpen(st'.toks) == o && (st'.super == o || st'.super == |st.toks|)
            && Run(js, cap, st, count) == Run(js, cap, st', count + |HeadTokens(members, st.pos)|)
    decreases members, 0
  {
    hide Run, LastOpen, At, Print, PrintMembers, Tokens, MemberTokens, Valid, ValidMembers, Delimited, Bump, ColonTail;
    MemberTokensSplit(members, st.pos);
    KeyRun(js, cap, st, count, members, o);
    KeySplit(js, st.pos, members);
    var st1, v := AfterKey(st, members), members.value;
    ValueSplit(js, st1.pos, members);
    ValueRun(js, cap, st1, count + 1, v);
    AfterValueOpen(st1, v);
    BlankRun(js, cap, AfterValue(st1, v), count + 1 + |Tokens(v, st1.pos)|, members.after);
  }

  lemma {:induction false} MembersRun(js: string, cap: nat, st: State, count: nat, members: Members, o: nat)
    requires members.Member? && ValidMembers(members) && At(js, st.pos, PrintMembers(members))
    requires o < |st.toks| && st.super == o == LastOpen(st.toks) && st.toks[o].kind.Object?
    requires |st.toks| + |MemberTokens(members, st.pos)| <= cap
    ensures var st' := ClosedBy(st, o, MemberCount(members), st.pos + |PrintMembers(members)|,
        MemberTokens(members, st.pos));
            Run(js, cap, st, count) == Run(js, cap, st', count + |MemberTokens(members, st.pos)|)
    decreases members, 1
  {
    hide Run, LastOpen, Print, PrintMembers, Tokens, MemberTokens, HeadTokens, MemberCount, At, Valid, ValidMembers;
    hide Blank, Delimited, StringText, ColonTail, MemberTail, ValueAt;
    var head := HeadTokens(members, st.pos);
    var st3, count' := AfterMember(st, members), count + |head|;
    MemberTokensClosed(members, st.pos);
    MemberTokensSplit(members, st.pos);
    KeySplit(js, st.pos, members);
    ValueSplit(js, ValueAt(members, st.pos), members);
    MemberTailSplit(js, st3.pos, members);
    MemberRun(js, cap, st, count, members, o);
    AfterMemberTokens(st, members, o);
    assert |st3.toks| == |st.toks| + |head|;
    assert st3.pos == ValueAt(members, st.pos) + |Print(members.value)| + |members.after|;
    hide Bump, AfterMember, ClosedBy, AllClosed;
    if members.rest.NoMembers? {
      CloseRun(js, cap, st3, count');
      ClosedByMerges(st, st3, o, 0, st3.pos + 1, head, []);
      assert head + [] == head;
    } else {
      CommaRun(js, cap, st3, count');
      var st4 := State(st3.pos + 1, st3.toks, o);
      MembersRun(js, cap, st4, count', members.rest, o);
      ClosedByMerges(st, st4, o, MemberCount(members.rest), st4.pos + |PrintMembers(members.rest)|, head,
                     MemberTokens(members.rest, st4.pos));
    }
  }

  // ---------- The theorem ----------

  lemma TextSplit(v: Value, before: string, after: string)
    requires Blank(before) && Blank(after)
    ensures var js := before + Print(v) + after;
            var p, e := |before|, |before| + |Print(v)|;
            && At(js, 0, before) && At(js, p, Print(v)) && At(js, e, after) && Delimited(js, e)
            && |js| == e + |after| && AtEnd(js, |js|)
  {
    var js := before + Print(v) + after;
    hide Print, Delimited;
    assert js[0..|before|] == before;
    assert js[|before|..|before| + |Print(v)|] == Print(v);
    assert js[|before| + |Print(v)|..|js|] == after;
    assert Delimited(js, |js|) by { DelimitedAtEnd(js); }
    DelimitedAfter(js, |before| + |Print(v)|, after);
  }

  lemma DelimitedAtEnd(js: string)
    ensures Delimited(js, |js|)
  {
  }

  /** At the start and at the end of the text, no token is the superior one. */
  lemma AfterWhole(v: Value, p: nat)
    ensures LastOpen([]) == -1
    ensures AfterValue(State(p, [], -1), v) == State(p + |Print(v)|, Tokens(v, p), -1)
    ensures LastOpen(Tokens(v, p)) == -1
  {
    TokensClosed(v, p);
    LastOpenUnique(Tokens(v, p), -1);
    assert [] + Tokens(v, p) == Tokens(v, p);
  }

  /** Tokenizing a printed value, with any white space around it, gives the number of its nodes
      and its tokens in preorder, with their exact spans and sizes. */
  lemma TokenizePrinted(v: Value, before: string, after: string, cap: nat)
    requires Valid(v) && Blank(before) && Blank(after) && |Tokens(v, |before|)| <= cap
    ensures Run(before + Print(v) + after, cap, INITIAL, 0)
         == (Done(|Tokens(v, |before|)|), State(|before + Print(v) + after|, Tokens(v, |before|), -1))
  {
    hide Print, Tokens, At, Valid, Run, AfterValue, LastOpen, Blank, Delimited;
    var js := before + Print(v) + after;
    var p, e := |before|, |before| + |Print(v)|;
    var toks := Tokens(v, p);
    var st, st' := State(p, [], -1), State(e, toks, -1);
    TextSplit(v, before, after);
    AfterWhole(v, 0);
    AfterWhole(v, p);
    AtStart(js, before);
    BlankRun(js, cap, INITIAL, 0, before);
    ValueRun(js, cap, st, 0, v);
    BlankRun(js, cap, st', |toks|, after);
    RunUnfolds(js, cap, State(|js|, toks, -1), |toks|);
  }

  lemma AtStart(js: string, before: string)
    requires At(js, 0, before)
    ensures At(js, INITIAL.pos, before)
  {
  }
}
