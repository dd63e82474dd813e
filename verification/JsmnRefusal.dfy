/** Which texts the tokenizer accepts: a reader that keeps nothing but the brackets still to be closed gives
    the same answer, and no character that is read goes unaccounted for. */
module JsmnRefusal {
  import opened Jsmn
  import opened JsmnStructure

  // ---------- Strings and primitives ----------

  predicate Hexadecimal(c: char) {
    '0' <= c <= '9' || 'a' <= c <= 'f' || 'A' <= c <= 'F'
  }

  predicate HexDigits(js: string, p: nat, e: nat) {
    p <= e <= |js| && forall i :: p <= i < e ==> Hexadecimal(js[i])
  }

  /** The text from `p` up to `q` may stand between quotes: it has no bare quote and no NUL, and every
      backslash begins an escape. */
  predicate Quoted(js: string, p: nat, q: nat)
    decreases q - p
  {
    p <= q <= |js| &&
    (p < q ==>
       if js[p] != '\\' then js[p] != '\"' && js[p] != '\0' && Quoted(js, p + 1, q)
       else p + 1 < q &&
            if js[p + 1] in "\"\\/bfnrt" then Quoted(js, p + 2, q)
            else js[p + 1] == 'u' && p + 6 <= q && HexDigits(js, p + 2, p + 6) && Quoted(js, p + 6, q))
  }

  /** The text goes on `m` hexadecimal digits behind `p` with a character that is none. */
  predicate NoDigitAt(js: string, p: nat, m: nat) {
    p + m < |js| && HexDigits(js, p, p + m) && !Hexadecimal(js[p + m]) && js[p + m] != '\0'
  }

  predicate FewDigits(js: string, p: nat) {
    exists m :: 0 <= m < 4 && NoDigitAt(js, p, m)
  }

  /** A backslash with no escape behind it, though the text goes on. */
  predicate BadEscape(js: string, q: nat) {
    && q + 1 < |js| && js[q] == '\\' && js[q + 1] !in "\"\\/bfnrt"
    && (js[q + 1] == 'u' ==> FewDigits(js, q + 2))
  }

  lemma EscapeIs(c: char)
    ensures IsEscape(c) <==> c in "\"\\/bfnrt"
  {
    var e := "\"\\/bfnrt";
    assert e[0] == '\"' && e[1] == '\\' && e[2] == '/' && e[3] == 'b' && e[4] == 'f' && e[5] == 'n' && e[6] == 'r'
        && e[7] == 't';
  }

  /** How far the digits of an escape go. */
  lemma {:induction false} HexRunIs(js: string, p: nat, n: nat)
    requires p <= |js|
    ensures var k := HexRun(js, p, n);
      && (k >= 0 ==> HexDigits(js, p, p + k) && (k < n ==> AtEnd(js, p + k)))
      && (k == -1 ==> exists m :: 0 <= m < n && NoDigitAt(js, p, m))
    decreases n
  {
    if n > 0 && !AtEnd(js, p) {
      if IsHex(js[p]) {
        HexRunIs(js, p + 1, n - 1);
        if HexRun(js, p + 1, n - 1) == -1 {
          var m :| 0 <= m < n - 1 && NoDigitAt(js, p + 1, m);
          assert NoDigitAt(js, p, m + 1);
        }
      } else {
        assert NoDigitAt(js, p, 0);
      }
    }
  }

  lemma FewDigitsMeans(js: string, p: nat)
    requires p <= |js|
    ensures HexRun(js, p, 4) == -1 <==> FewDigits(js, p)
    ensures HexRun(js, p, 4) == 4 <==> HexDigits(js, p, p + 4)
    ensures 0 <= HexRun(js, p, 4) < 4 ==> AtEnd(js, p + HexRun(js, p, 4))
  {
    HexRunIs(js, p, 4);
    hide HexRun;
    var k := HexRun(js, p, 4);
    if m :| 0 <= m < 4 && NoDigitAt(js, p, m) {
      assert k != 4;
    }
  }

  /** Where a string ends: at the first quote with text between quotes before it. */
  lemma {:induction false} StringEndIs(js: string, p: nat, q: nat)
    requires p <= |js|
    ensures StringEnd(js, p) == Closed(q) <==> Quoted(js, p, q) && q < |js| && js[q] == '\"'
    decreases |js| - p
  {
    if !AtEnd(js, p) && js[p] == '\\' && p + 1 < |js| {
      EscapeIs(js[p + 1]);
      if IsEscape(js[p + 1]) {
        StringEndIs(js, p + 2, q);
      } else if js[p + 1] == 'u' {
        FewDigitsMeans(js, p + 2);
        var k := HexRun(js, p + 2, 4);
        if k >= 0 {
          StringEndIs(js, p + 2 + k, q);
        }
      }
    } else if !AtEnd(js, p) {
      StringEndIs(js, p + 1, q);
    }
  }

  predicate BrokenAt(js: string, p: nat, q: nat) {
    Quoted(js, p, q) && BadEscape(js, q)
  }

  /** A string is invalid exactly when its first fault is a bad escape; it is cut short when the text ends
      before its quote. */
  lemma {:induction false} StringBrokenIs(js: string, p: nat)
    requires p <= |js|
    ensures StringEnd(js, p) == Broken(Inval) <==> exists q :: BrokenAt(js, p, q)
    decreases |js| - p
  {
    if !AtEnd(js, p) && js[p] == '\\' && p + 1 < |js| {
      EscapeIs(js[p + 1]);
      if IsEscape(js[p + 1]) {
        StringBrokenIs(js, p + 2);
        BrokenLater(js, p, p + 2);
      } else if js[p + 1] == 'u' {
        FewDigitsMeans(js, p + 2);
        var k := HexRun(js, p + 2, 4);
        if k == -1 {
          assert BrokenAt(js, p, p);
        } else if k == 4 {
          StringBrokenIs(js, p + 6);
          BrokenLater(js, p, p + 6);
        } else {
          NotQuotedOn(js, p);
        }
      } else {
        assert BrokenAt(js, p, p);
      }
    } else if !AtEnd(js, p) && js[p] != '\"' {
      StringBrokenIs(js, p + 1);
      if js[p] != '\\' {
        BrokenLater(js, p, p + 1);
      } else {
        assert StringEnd(js, p + 1) == Broken(Part);
        NotQuotedOn(js, p);
      }
    } else {
      NotQuotedOn(js, p);
    }
  }

  /** A fault behind the first character or escape. */
  lemma BrokenLater(js: string, p: nat, p': nat)
    requires p < p' <= |js| && !BadEscape(js, p)
    requires forall q :: Quoted(js, p, q) <==> q == p || Quoted(js, p', q)
    ensures (exists q :: BrokenAt(js, p, q)) <==> exists q :: BrokenAt(js, p', q)
  {
    hide Quoted, BadEscape;
    if q :| BrokenAt(js, p, q) {
      assert BrokenAt(js, p', q);
    }
    if q :| BrokenAt(js, p', q) {
      assert BrokenAt(js, p, q);
    }
  }

  lemma NotQuotedOn(js: string, p: nat)
    requires p <= |js| && !BadEscape(js, p) && forall q :: Quoted(js, p, q) ==> q == p
    ensures !exists q :: BrokenAt(js, p, q)
  {
    hide Quoted, BadEscape;
  }

  /** A primitive runs up to the next white space, colon, comma or closing bracket, or to the end of the
      text; it is invalid when a character before that is not printable ASCII. */
  lemma {:induction false} PrimitiveEndIs(js: string, p: nat, e: nat)
    requires p <= e <= |js| && (e == |js| || js[e] in " \t\r\n:,]}\0")
    requires forall k :: p <= k < e ==> js[k] !in " \t\r\n:,]}\0"
    ensures PrimitiveEnd(js, p) == if forall k :: p <= k < e ==> ' ' <= js[k] <= '~' then e else -1
    decreases e - p
  {
    if p < e {
      DelimiterIs(js[p]);
      PrimitiveEndIs(js, p + 1, e);
    } else if e < |js| {
      DelimiterIs(js[e]);
    }
  }

  lemma DelimiterIs(c: char)
    ensures IsDelimiter(c) || c == '\0' <==> c in " \t\r\n:,]}\0"
    ensures IsSpace(c) <==> c in " \t\r\n"
    ensures IsSpace(c) || c == ':' || c == ',' <==> c in " \t\r\n:,"
  {
    var d := " \t\r\n:,]}\0";
    assert d[0] == ' ' && d[1] == '\t' && d[2] == '\r' && d[3] == '\n' && d[4] == ':' && d[5] == ',' && d[6] == ']'
        && d[7] == '}' && d[8] == '\0';
    assert forall k :: 0 <= k < 6 ==> " \t\r\n:,"[k] == d[k];
    assert forall k :: 0 <= k < 4 ==> " \t\r\n"[k] == d[k];
  }

  // ---------- Brackets ----------

  datatype Verdict = Fine | Refused(error: Error)

  /** The closing bracket that a bracket needs. */
  function Closer(c: char): (d: char) {
    if c == '{' then '}' else ']'
  }

  /** Reads the text from `p` on; `open` has the closing brackets still needed, the next one first. */
  function Read(js: string, p: nat, open: string): (v: Verdict)
    decreases |js| - p
  {
    if AtEnd(js, p) then if open == "" then Fine else Refused(Part)
    else if js[p] in "{[" then Read(js, p + 1, [Closer(js[p])] + open)
    else if js[p] in "}]" then
      if open != "" && open[0] == js[p] then Read(js, p + 1, open[1..]) else Refused(Inval)
    else if js[p] in " \t\r\n:," then Read(js, p + 1, open)
    else if js[p] == '\"' then
      var e := StringEnd(js, p + 1);
      if e.Closed? then Read(js, e.at + 1, open) else Refused(e.error)
    else
      var e := PrimitiveEnd(js, p);
      if p < e then Read(js, e, open) else Refused(Inval)
  }

  function CloserOf(kind: Kind): (d: char) {
    if kind.Object? then '}' else ']'
  }

  /** The closing brackets that the open tokens need, the last token's first. */
  function Needed(toks: seq<Token>): (open: string) {
    if toks == [] then ""
    else
      var n := |toks| - 1;
      (if toks[n].Open() then [CloserOf(toks[n].kind)] else "") + Needed(toks[..n])
  }

  lemma {:induction false} NeededIgnoresSize(toks: seq<Token>, toks': seq<Token>)
    requires |toks| == |toks'| && forall i :: 0 <= i < |toks| ==> toks'[i] == toks[i].(size := toks'[i].size)
    ensures Needed(toks') == Needed(toks)
    decreases |toks|
  {
    if toks != [] {
      var n := |toks| - 1;
      NeededIgnoresSize(toks[..n], toks'[..n]);
    }
  }

  lemma NeededMore(toks: seq<Token>, t: Token)
    ensures Needed(toks + [t]) == (if t.Open() then [CloserOf(t.kind)] else "") + Needed(toks)
  {
    assert (toks + [t])[..|toks|] == toks;
  }

  /** The bracket needed next is that of the last open token, and closing it leaves the others. */
  lemma {:induction false} NeededFirst(toks: seq<Token>)
    ensures var i := LastOpen(toks);
      if i == -1 then Needed(toks) == ""
      else Needed(toks) == [CloserOf(toks[i].kind)] + Needed(toks[..i])
    decreases |toks|
  {
    if toks != [] && !toks[|toks| - 1].Open() {
      var n := |toks| - 1;
      NeededFirst(toks[..n]);
      assert LastOpen(toks) >= 0 ==> toks[..n][..LastOpen(toks)] == toks[..LastOpen(toks)];
      assert "" + Needed(toks[..n]) == Needed(toks[..n]);
    }
  }

  lemma {:induction false} NeededSkips(toks: seq<Token>, i: nat)
    requires i <= |toks| && forall k :: i <= k < |toks| ==> !toks[k].Open()
    ensures Needed(toks) == Needed(toks[..i])
    decreases |toks|
  {
    if i < |toks| {
      var n := |toks| - 1;
      NeededSkips(toks[..n], i);
      assert toks[..n][..i] == toks[..i];
      assert "" + Needed(toks[..n]) == Needed(toks[..n]);
    } else {
      assert toks[..i] == toks;
    }
  }

  lemma BracketIs(c: char)
    ensures c in "{[" <==> c == '{' || c == '['
    ensures c in "}]" <==> c == '}' || c == ']'
  {
    assert "{["[0] == '{' && "{["[1] == '[' && "}]"[0] == '}' && "}]"[1] == ']';
  }

  lemma OpenReads(js: string, st: State, kind: Kind)
    requires Structured(js, st) && !AtEnd(js, st.pos)
    requires (kind == Object && js[st.pos] == '{') || (kind == Array && js[st.pos] == '[')
    ensures var toks := Bump(st.toks, st.super) + [Token(kind, st.pos, -1, 0)];
      Read(js, st.pos, Needed(st.toks)) == Read(js, st.pos + 1, Needed(toks))
  {
    BracketIs(js[st.pos]);
    NeededMore(Bump(st.toks, st.super), Token(kind, st.pos, -1, 0));
    BumpNeeds(st.toks, st.super);
    hide Needed, Structured;
  }

  lemma BumpNeeds(toks: seq<Token>, super: int)
    ensures Needed(Bump(toks, super)) == Needed(toks)
  {
    NeededIgnoresSize(toks, Bump(toks, super));
  }

  /** The last open token is closed. */
  lemma ClosedNeeds(toks: seq<Token>, i: nat, end: nat)
    requires i < |toks| && LastOpen(toks) == i
    ensures Needed(toks) != "" && Needed(toks)[0] == CloserOf(toks[i].kind)
    ensures Needed(toks[i := toks[i].(end := end)]) == Needed(toks)[1..]
  {
    LastOpenIsLast(toks);
    NeededFirst(toks);
    hide Needed, LastOpen;
    var toks' := toks[i := toks[i].(end := end)];
    NeededSkips(toks', i);
    assert toks'[..i] == toks[..i];
  }

  lemma ReadClosing(js: string, p: nat, open: string)
    requires !AtEnd(js, p) && (js[p] == '}' || js[p] == ']')
    ensures Read(js, p, open) ==
            if open != "" && open[0] == js[p] then Read(js, p + 1, open[1..]) else Refused(Inval)
  {
    BracketIs(js[p]);
  }

  lemma CloseReads(js: string, st: State, kind: Kind)
    requires Structured(js, st) && !AtEnd(js, st.pos)
    requires (kind == Object && js[st.pos] == '}') || (kind == Array && js[st.pos] == ']')
    ensures var o := CloseStep(st, kind);
      if o.Next? then Read(js, st.pos, Needed(st.toks)) == Read(js, o.st.pos, Needed(o.st.toks))
      else o.error == Inval && Read(js, st.pos, Needed(st.toks)) == Refused(Inval)
  {
    var i := LastOpen(st.toks);
    ContainerOpen(js, st);
    CloserSays(js[st.pos], kind);
    CloseIs(st, kind);
    hide *;
    ReadClosing(js, st.pos, Needed(st.toks));
    if i >= 0 {
      ClosedNeeds(st.toks, i, st.pos + 1);
    } else {
      NeededFirst(st.toks);
    }
  }

  /** Brackets and kinds. */
  lemma CloserSays(c: char, kind: Kind)
    requires (kind == Object && c == '}') || (kind == Array && c == ']')
    ensures forall k: Kind :: k.Object? || k.Array? ==> (CloserOf(k) == c <==> k == kind)
  {
  }

  lemma CloseIs(st: State, kind: Kind)
    ensures var i := LastOpen(st.toks);
      var o := CloseStep(st, kind);
      if i == -1 || st.toks[i].kind != kind then o == Stop(Inval)
      else o.Next? && o.st.pos == st.pos + 1 && o.st.toks == st.toks[i := st.toks[i].(end := st.pos + 1)]
  {
    hide LastOpen;
  }

  lemma ContainerOpen(js: string, st: State)
    requires Structured(js, st)
    ensures LastOpen(st.toks) >= 0 ==>
            st.toks[LastOpen(st.toks)].kind.Object? || st.toks[LastOpen(st.toks)].kind.Array?
  {
    StructuredIsOk(js, st);
    LastOpenIsLast(st.toks);
    hide Structured, LastOpen;
  }

  lemma LeafReads(js: string, st: State, t: Token)
    requires !t.Open()
    ensures Needed(Bump(st.toks, st.super) + [t]) == Needed(st.toks)
  {
    NeededMore(Bump(st.toks, st.super), t);
    BumpNeeds(st.toks, st.super);
    hide Needed;
    assert "" + Needed(st.toks) == Needed(st.toks);
  }

  /** A step of the tokenizer and a step of the reader. */
  lemma StepReads(js: string, cap: nat, st: State)
    requires Structured(js, st) && !AtEnd(js, st.pos)
    ensures var o := Step(js, cap, st);
      if o.Next? then Read(js, st.pos, Needed(st.toks)) == Read(js, o.st.pos, Needed(o.st.toks))
      else o.error == NoMem || Read(js, st.pos, Needed(st.toks)) == Refused(o.error)
  {
    hide Structured, Needed, LastOpen, CloseStep;
    var c := js[st.pos];
    BracketIs(c);
    DelimiterIs(c);
    if c == '{' || c == '[' {
      OpenReads(js, st, if c == '{' then Object else Array);
    } else if c == '}' || c == ']' {
      CloseReads(js, st, if c == '}' then Object else Array);
    } else if c == '\"' {
      var e := StringEnd(js, st.pos + 1);
      if e.Closed? {
        LeafReads(js, st, Token(String, st.pos + 1, e.at, 0));
      }
    } else if c !in " \t\r\n:," {
      var e := PrimitiveEnd(js, st.pos);
      if e != -1 {
        LeafReads(js, st, Token(Primitive, st.pos, e, 0));
      }
    }
  }

  /** Main result: on any text the tokenizer succeeds, or fails with an error that is not want of room, exactly
      as the reader of brackets does. */
  lemma {:induction false} RunReads(js: string, cap: nat, st: State, count: nat)
    requires Structured(js, st)
    ensures var r, v := Run(js, cap, st, count).0, Read(js, st.pos, Needed(st.toks));
      if r.Done? then v == Fine else r.error == NoMem || v == Refused(r.error)
    decreases |js| - st.pos
  {
    RunUnfolds(js, cap, st, count);
    NeededFirst(st.toks);
    hide Step, Needed, LastOpen;
    if !AtEnd(js, st.pos) {
      StepReads(js, cap, st);
      StepKeeps(js, cap, st);
      hide Structured, Run;
      match Step(js, cap, st)
      case Stop(_) =>
      case Next(st', made) => RunReads(js, cap, st', count + made);
    }
  }

  // ---------- No character goes unaccounted for ----------

  /** The character at `k` is one of the token's brackets, or lies within it (a string with its quotes). */
  predicate Holds(t: Token, k: nat) {
    match t.kind
    case String => t.start - 1 <= k <= t.end
    case Primitive => t.start <= k < t.end
    case _ => k == t.start || (t.end != -1 && k == t.end - 1)
  }

  predicate Held(toks: seq<Token>, k: nat) {
    exists i :: 0 <= i < |toks| && Holds(toks[i], k)
  }

  /** Every character before `pos` belongs to a token or is white space, a colon or a comma. */
  predicate Accounted(js: string, pos: nat, toks: seq<Token>) {
    pos <= |js| && forall k :: 0 <= k < pos && js[k] !in " \t\r\n:," ==> Held(toks, k)
  }

  lemma StillHeld(toks: seq<Token>, toks': seq<Token>, k: nat)
    requires |toks| <= |toks'| && Held(toks, k)
    requires forall i :: 0 <= i < |toks| && Holds(toks[i], k) ==> Holds(toks'[i], k)
    ensures Held(toks', k)
  {
    var i :| 0 <= i < |toks| && Holds(toks[i], k);
    assert Holds(toks'[i], k);
  }

  lemma AppendAccounts(js: string, st: State, t: Token, next: nat)
    requires Accounted(js, st.pos, st.toks) && st.pos <= next <= |js|
    requires forall k :: st.pos <= k < next ==> Holds(t, k)
    ensures Accounted(js, next, Bump(st.toks, st.super) + [t])
  {
    var toks := Bump(st.toks, st.super) + [t];
    forall k | 0 <= k < next && js[k] !in " \t\r\n:,"
      ensures Held(toks, k)
    {
      if k < st.pos {
        StillHeld(st.toks, toks, k);
      } else {
        assert Holds(toks[|st.toks|], k);
      }
    }
  }

  lemma CloseAccounts(js: string, st: State, kind: Kind)
    requires Structured(js, st) && Accounted(js, st.pos, st.toks) && st.pos < |js|
    requires CloseStep(st, kind).Next?
    ensures var st' := CloseStep(st, kind).st; Accounted(js, st'.pos, st'.toks)
  {
    StructuredIsOk(js, st);
    LastOpenIsLast(st.toks);
    hide LastOpen, Structured;
    var i := LastOpen(st.toks);
    var toks := CloseStep(st, kind).st.toks;
    forall k | 0 <= k < st.pos + 1 && js[k] !in " \t\r\n:,"
      ensures Held(toks, k)
    {
      if k < st.pos {
        StillHeld(st.toks, toks, k);
      } else {
        assert Holds(toks[i], k);
      }
    }
  }

  lemma OpenAccounts(js: string, st: State, kind: Kind)
    requires Accounted(js, st.pos, st.toks) && !AtEnd(js, st.pos) && (kind == Object || kind == Array)
    ensures Accounted(js, st.pos + 1, Bump(st.toks, st.super) + [Token(kind, st.pos, -1, 0)])
  {
    hide Bump, Accounted;
    AppendAccounts(js, st, Token(kind, st.pos, -1, 0), st.pos + 1);
  }

  lemma LeafAccounts(js: string, st: State, kind: Kind, from: nat, to: nat, next: nat)
    requires Accounted(js, st.pos, st.toks) && st.pos < next <= |js|
    requires (kind == String && from == st.pos + 1 && next == to + 1)
          || (kind == Primitive && from == st.pos && next == to)
    ensures Accounted(js, next, Bump(st.toks, st.super) + [Token(kind, from, to, 0)])
  {
    hide Bump, Accounted;
    AppendAccounts(js, st, Token(kind, from, to, 0), next);
  }

  lemma StepAccounts(js: string, cap: nat, st: State)
    requires Structured(js, st) && Accounted(js, st.pos, st.toks) && !AtEnd(js, st.pos)
    ensures var o := Step(js, cap, st); o.Next? ==> Accounted(js, o.st.pos, o.st.toks)
  {
    var c, o := js[st.pos], Step(js, cap, st);
    DelimiterIs(c);
    hide Structured, LastOpen, CloseStep, Accounted, Bump, IsSpace;
    if o.Next? {
      if c == '{' || c == '[' {
        OpenAccounts(js, st, if c == '{' then Object else Array);
      } else if c == '}' || c == ']' {
        CloseAccounts(js, st, if c == '}' then Object else Array);
      } else if c == '\"' {
        var q := StringEnd(js, st.pos + 1).at;
        LeafAccounts(js, st, String, st.pos + 1, q, q + 1);
      } else if IsSpace(c) || c == ':' || c == ',' {
        MoveAccounts(js, st.pos, st.toks);
      } else {
        var e := PrimitiveEnd(js, st.pos);
        LeafAccounts(js, st, Primitive, st.pos, e, e);
      }
    }
  }

  lemma MoveAccounts(js: string, pos: nat, toks: seq<Token>)
    requires Accounted(js, pos, toks) && pos < |js| && js[pos] in " \t\r\n:,"
    ensures Accounted(js, pos + 1, toks)
  {
  }

  lemma {:induction false} RunAccounts(js: string, cap: nat, st: State, count: nat)
    requires Structured(js, st) && Accounted(js, st.pos, st.toks)
    ensures var st' := Run(js, cap, st, count).1; Accounted(js, st'.pos, st'.toks)
    decreases |js| - st.pos
  {
    RunUnfolds(js, cap, st, count);
    hide Step, LastOpen;
    if !AtEnd(js, st.pos) {
      StepAccounts(js, cap, st);
      StepKeeps(js, cap, st);
      hide Structured, Run, Accounted;
      match Step(js, cap, st)
      case Stop(_) =>
      case Next(st', made) => RunAccounts(js, cap, st', count + made);
    }
  }

  /** The character at `k` lies in a string token, its quotes included. */
  predicate InString(toks: seq<Token>, k: nat) {
    exists i :: 0 <= i < |toks| && toks[i].kind.String? && toks[i].start - 1 <= k <= toks[i].end
  }

  /** The character at `k` ends a closed container, which begins with a bracket of its kind. */
  predicate Closes(js: string, t: Token, k: nat) {
    t.Container() && t.end == k + 1 && 0 <= t.start < k < |js|
    && ((js[t.start] == '{' && js[k] == '}') || (js[t.start] == '[' && js[k] == ']'))
  }

  lemma HolderCloses(js: string, pos: nat, t: Token, k: nat)
    requires pos <= |js| && SpanMatches(js, pos, t) && Holds(t, k) && k < pos && (js[k] == '}' || js[k] == ']')
    requires t.kind.String? ==> !(t.start - 1 <= k <= t.end)
    ensures Closes(js, t, k)
  {
  }

  /** Main result, at every return: each closing bracket read outside a string is the last character of a
      closed container, which begins with a bracket of the same kind before it. */
  lemma ClosingBracketsClose(js: string, cap: nat, k: nat)
    requires var st := Run(js, cap, INITIAL, 0).1;
      k < st.pos && k < |js| && (js[k] == '}' || js[k] == ']') && !InString(st.toks, k)
    ensures var toks := Run(js, cap, INITIAL, 0).1.toks;
      exists i :: 0 <= i < |toks| && Closes(js, toks[i], k)
  {
    InitialIsStructured(js);
    RunKeeps(js, cap, INITIAL, 0);
    RunAccounts(js, cap, INITIAL, 0);
    var st := Run(js, cap, INITIAL, 0).1;
    DelimiterIs(js[k]);
    hide Run, Holds, Closes, SpanMatches, LastOpen, NestedOrDisjoint;
    assert Held(st.toks, k);
    var i :| 0 <= i < |st.toks| && Holds(st.toks[i], k);
    HolderCloses(js, st.pos, st.toks[i], k);
  }

  // ---------- Refusal ----------

  /** Main result: the tokenizer accepts a text, or refuses it for anything but want of room, exactly as the
      reader of brackets does. */
  lemma Accepts(js: string, cap: nat)
    ensures var r := Run(js, cap, INITIAL, 0).0;
      r == Fail(NoMem) || (if r.Done? then Read(js, 0, "") == Fine else Read(js, 0, "") == Refused(r.error))
  {
    InitialIsStructured(js);
    RunReads(js, cap, INITIAL, 0);
    hide Run, Read, Structured;
  }

  lemma EndsLater(js: string, more: string, p: nat)
    requires p <= |js| && more != "" && more[0] in " \t\r\n:,]}"
    requires forall k :: 0 <= k < |js| ==> js[k] != '\0'
    ensures PrimitiveEnd(js + more, p) == PrimitiveEnd(js, p)
    ensures StringEnd(js, p).Closed? ==> StringEnd(js + more, p) == StringEnd(js, p)
  {
    var all := js + more;
    assert forall k :: 0 <= k < |js| ==> all[k] == js[k];
    assert all[|js|] == more[0];
    PrimitiveLater(js, more, p);
    if StringEnd(js, p).Closed? {
      var q := StringEnd(js, p).at;
      StringEndIs(js, p, q);
      QuotedLater(js, more, p, q);
      StringEndIs(all, p, q);
    }
  }

  lemma {:induction false} QuotedLater(js: string, more: string, p: nat, q: nat)
    requires Quoted(js, p, q)
    ensures Quoted(js + more, p, q)
    decreases q - p
  {
    var all := js + more;
    assert forall k :: 0 <= k < |js| ==> all[k] == js[k];
    if p < q {
      var n := if js[p] != '\\' then 1 else if js[p + 1] in "\"\\/bfnrt" then 2 else 6;
      QuotedLater(js, more, p + n, q);
    }
  }

  lemma {:induction false} PrimitiveLater(js: string, more: string, p: nat)
    requires p <= |js| && more != "" && more[0] in " \t\r\n:,]}"
    ensures PrimitiveEnd(js + more, p) == PrimitiveEnd(js, p)
    decreases |js| - p
  {
    var all := js + more;
    if p == |js| {
      assert all[p] == more[0];
      DelimiterIs(more[0]);
      var d := " \t\r\n:,]}";
      assert forall k :: 0 <= k < 8 ==> " \t\r\n:,]}\0"[k] == d[k];
    } else {
      assert all[p] == js[p];
      PrimitiveLater(js, more, p + 1);
    }
  }

  /** Text that can go on behind another one: it begins with a character that ends a primitive. */
  predicate GoesOn(js: string, more: string) {
    more != "" && more[0] in " \t\r\n:,]}" && forall k :: 0 <= k < |js| ==> js[k] != '\0'
  }

  lemma StepLater(js: string, more: string, cap: nat, st: State)
    requires st.pos < |js| && GoesOn(js, more) && Step(js, cap, st).Next?
    ensures Step(js + more, cap, st) == Step(js, cap, st)
  {
    var all := js + more;
    assert all[st.pos] == js[st.pos];
    if js[st.pos] == '\"' {
      EndsLater(js, more, st.pos + 1);
    } else {
      EndsLater(js, more, st.pos);
    }
    hide StringEnd, PrimitiveEnd, OpenStep, CloseStep, LeafStep, CommaSuper;
  }

  /** A text that is accepted, and then goes on. */
  lemma {:induction false} RunLater(js: string, more: string, cap: nat, st: State, count: nat)
    requires st.pos <= |js| && GoesOn(js, more) && Run(js, cap, st, count).0.Done?
    ensures var (r, st') := Run(js, cap, st, count);
      st'.pos == |js| && LastOpen(st'.toks) == -1
      && Run(js + more, cap, st, count) == Run(js + more, cap, st', r.count)
    decreases |js| - st.pos
  {
    hide *;
    if st.pos < |js| {
      var o := NextLater(js, more, cap, st, count);
      RunLater(js, more, cap, o.st, count + o.made);
    } else {
      RunEnded(js, cap, st, count);
    }
  }

  lemma RunEnded(js: string, cap: nat, st: State, count: nat)
    requires st.pos == |js| && Run(js, cap, st, count).0.Done?
    ensures Run(js, cap, st, count) == (Done(count), st) && LastOpen(st.toks) == -1
  {
    hide LastOpen;
  }

  lemma NextLater(js: string, more: string, cap: nat, st: State, count: nat) returns (o: Outcome)
    requires st.pos < |js| && GoesOn(js, more) && Run(js, cap, st, count).0.Done?
    ensures o.Next? && st.pos < o.st.pos <= |js|
    ensures Run(js, cap, st, count) == Run(js, cap, o.st, count + o.made)
    ensures Run(js + more, cap, st, count) == Run(js + more, cap, o.st, count + o.made)
  {
    o := Step(js, cap, st);
    NotEnded(js, more, st.pos);
    RunUnfolds(js, cap, st, count);
    RunUnfolds(js + more, cap, st, count);
    hide *;
    assert o.Next?;
    StepLater(js, more, cap, st);
  }

  lemma NotEnded(js: string, more: string, p: nat)
    requires p < |js| && GoesOn(js, more)
    ensures !AtEnd(js, p) && !AtEnd(js + more, p)
  {
    assert (js + more)[p] == js[p];
  }

  /** Text that closes more than it opens is refused, whatever follows. */
  lemma ClosesTooMuch(js: string, cap: nat, bracket: char, rest: string)
    requires Run(js, cap, INITIAL, 0).0.Done? && (bracket == '}' || bracket == ']')
    requires forall k :: 0 <= k < |js| ==> js[k] != '\0'
    ensures Run(js + ([bracket] + rest), cap, INITIAL, 0).0 == Fail(Inval)
  {
    var more := [bracket] + rest;
    assert more[0] == bracket;
    assert " \t\r\n:,]}"[6] == ']' && " \t\r\n:,]}"[7] == '}';
    assert GoesOn(js, more);
    RunLater(js, more, cap, INITIAL, 0);
    var (r, st) := Run(js, cap, INITIAL, 0);
    assert (js + more)[|js|] == bracket;
    RunUnfolds(js + more, cap, st, r.count);
    hide Run;
  }
}
