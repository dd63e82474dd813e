/** What the tokenizer keeps on arbitrary text, at every return, errors included. */
module JsmnStructure {
  import opened Jsmn

  /** A token lies within the text read so far and its brackets or quotes match its kind;
      only containers can be open. */
  predicate SpanMatches(js: string, pos: nat, t: Token)
    requires pos <= |js|
  {
    match t.kind
    case Object => BracketsMatch(js, pos, t, '{', '}')
    case Array => BracketsMatch(js, pos, t, '[', ']')
    case String => 1 <= t.start <= t.end < pos && js[t.start - 1] == '\"' && js[t.end] == '\"'
    case Primitive =>
      0 <= t.start < t.end <= pos && forall k :: t.start <= k < t.end ==> !IsDelimiter(js[k]) && IsPrintable(js[k])
  }

  predicate BracketsMatch(js: string, pos: nat, t: Token, opening: char, closing: char)
    requires pos <= |js|
  {
    && 0 <= t.start < pos && js[t.start] == opening
    && (t.end == -1 || (t.start + 2 <= t.end <= pos && js[t.end - 1] == closing))
  }

  /** Of two tokens, the later one starts later; if the earlier one is closed, the later
      one is closed inside it or starts after it. */
  predicate NestedOrDisjoint(a: Token, b: Token) {
    a.start < b.start && (a.end == -1 || a.end <= b.start || (b.end != -1 && b.end <= a.end))
  }

  /** The superior token is never left of the innermost open container. */
  predicate Structured(js: string, st: State) {
    && st.pos <= |js|
    && LastOpen(st.toks) <= st.super < |st.toks|
    && (forall i :: 0 <= i < |st.toks| ==> SpanMatches(js, st.pos, st.toks[i]))
    && (forall i, j :: 0 <= i < j < |st.toks| ==> NestedOrDisjoint(st.toks[i], st.toks[j]))
  }

  lemma StructuredIsOk(js: string, st: State)
    requires Structured(js, st)
    ensures Ok(st)
  {
    forall i | 0 <= i < |st.toks| && st.toks[i].Open()
      ensures st.toks[i].Container()
    {
      assert SpanMatches(js, st.pos, st.toks[i]);
    }
  }

  // ---------- Each kind of step ----------

  lemma PrimitiveEndSpans(js: string, p: nat)
    requires p <= |js|
    ensures forall k :: p <= k < PrimitiveEnd(js, p) ==> !IsDelimiter(js[k]) && IsPrintable(js[k])
    decreases |js| - p
  {
    if !AtEnd(js, p) && !IsDelimiter(js[p]) && IsPrintable(js[p]) {
      PrimitiveEndSpans(js, p + 1);
    }
  }

  lemma BumpAt(toks: seq<Token>, super: int, i: nat)
    requires i < |toks|
    ensures Bump(toks, super)[i] == toks[i].(size := Bump(toks, super)[i].size)
  {
  }

  /** A token that was there, its size apart, against one that starts no earlier than the text read. */
  lemma StaysBefore(js: string, pos: nat, next: nat, x: Token, y: Token, t: Token)
    requires pos <= next <= |js| && SpanMatches(js, pos, x) && y == x.(size := y.size)
    requires SpanMatches(js, next, t) && pos <= t.start
    ensures SpanMatches(js, next, y) && NestedOrDisjoint(y, t)
  {
  }

  lemma SameNesting(a: Token, b: Token, a': Token, b': Token)
    requires NestedOrDisjoint(a, b) && a' == a.(size := a'.size) && b' == b.(size := b'.size)
    ensures NestedOrDisjoint(a', b')
  {
  }

  lemma AppendLast(toks: seq<Token>, t: Token)
    ensures LastOpen(toks + [t]) == if t.end == -1 && t.start != -1 then |toks| else LastOpen(toks)
  {
    assert (toks + [t])[..|toks|] == toks;
  }

  /** Appending one token keeps the structure, whatever sizes change. */
  lemma AppendKeeps(js: string, st: State, t: Token, next: nat, super: int)
    requires Structured(js, st) && st.pos <= next <= |js|
    requires SpanMatches(js, next, t) && st.pos <= t.start
    requires super == (if t.end == -1 then |st.toks| else st.super)
    ensures Structured(js, State(next, Bump(st.toks, st.super) + [t], super))
  {
    var bumped := Bump(st.toks, st.super);
    var toks := bumped + [t];
    var n := |st.toks|;
    LastOpenBump(st.toks, st.super);
    AppendLast(bumped, t);
    hide Bump, LastOpen, SpanMatches, NestedOrDisjoint;
    assert toks[n] == t;
    forall i | 0 <= i < n
      ensures toks[i] == bumped[i] && SpanMatches(js, next, toks[i]) && NestedOrDisjoint(toks[i], t)
    {
      BumpAt(st.toks, st.super, i);
      StaysBefore(js, st.pos, next, st.toks[i], bumped[i], t);
    }
    forall i, j | 0 <= i < j < |toks|
      ensures NestedOrDisjoint(toks[i], toks[j])
    {
      if j < n {
        BumpAt(st.toks, st.super, i);
        BumpAt(st.toks, st.super, j);
        SameNesting(st.toks[i], st.toks[j], toks[i], toks[j]);
      }
    }
  }

  lemma CloseKeeps(js: string, st: State, kind: Kind)
    requires Structured(js, st) && st.pos < |js|
    requires kind.Object? ==> js[st.pos] == '}'
    requires kind.Array? ==> js[st.pos] == ']'
    requires CloseStep(st, kind).Next?
    ensures Structured(js, CloseStep(st, kind).st)
  {
    var i := LastOpen(st.toks);
    var st' := CloseStep(st, kind).st;
    LastOpenIsLast(st.toks);
    assert SpanMatches(js, st.pos, st.toks[i]);
    forall k | 0 <= k < |st.toks|
      ensures SpanMatches(js, st'.pos, st'.toks[k])
    {
      assert SpanMatches(js, st.pos, st.toks[k]);
    }
    forall a, b | 0 <= a < b < |st.toks|
      ensures NestedOrDisjoint(st'.toks[a], st'.toks[b])
    {
      assert NestedOrDisjoint(st.toks[a], st.toks[b]);
      assert SpanMatches(js, st.pos, st.toks[b]);
      assert b > i ==> !st.toks[b].Open();
    }
    LastOpenIsLast(st.toks[..i]);
    assert forall k :: 0 <= k < i ==> st.toks[..i][k] == st'.toks[k];
    LastOpenUnique(st'.toks, st'.super);
  }

  lemma OpenKeeps(js: string, st: State, kind: Kind, c: char)
    requires Structured(js, st) && st.pos < |js| && js[st.pos] == c
    requires (kind == Object && c == '{') || (kind == Array && c == '[')
    ensures Structured(js, State(st.pos + 1, Bump(st.toks, st.super) + [Token(kind, st.pos, -1, 0)], |st.toks|))
  {
    AppendKeeps(js, st, Token(kind, st.pos, -1, 0), st.pos + 1, |st.toks|);
  }

  /** Moving on, and moving the superior index right of the innermost open container. */
  lemma MoveKeeps(js: string, st: State, super: int)
    requires Structured(js, st) && st.pos < |js| && LastOpen(st.toks) <= super < |st.toks|
    ensures Structured(js, State(st.pos + 1, st.toks, super))
  {
    forall i | 0 <= i < |st.toks|
      ensures SpanMatches(js, st.pos + 1, st.toks[i])
    {
      assert SpanMatches(js, st.pos, st.toks[i]);
    }
  }

  lemma StringKeeps(js: string, st: State, q: nat)
    requires Structured(js, st) && st.pos < q < |js| && js[st.pos] == '\"' && js[q] == '\"'
    ensures Structured(js, State(q + 1, Bump(st.toks, st.super) + [Token(String, st.pos + 1, q, 0)], st.super))
  {
    AppendKeeps(js, st, Token(String, st.pos + 1, q, 0), q + 1, st.super);
  }

  lemma PrimitiveKeeps(js: string, st: State)
    requires Structured(js, st) && st.pos < |js| && !AtEnd(js, st.pos) && !IsDelimiter(js[st.pos])
    ensures var e := PrimitiveEnd(js, st.pos);
            e == -1 || Structured(js, State(e, Bump(st.toks, st.super) + [Token(Primitive, st.pos, e, 0)], st.super))
  {
    var e := PrimitiveEnd(js, st.pos);
    if e != -1 {
      PrimitiveEndSpans(js, st.pos);
      hide Structured;
      AppendKeeps(js, st, Token(Primitive, st.pos, e, 0), e, st.super);
    }
  }

  lemma StepKeeps(js: string, cap: nat, st: State)
    requires Structured(js, st) && !AtEnd(js, st.pos)
    ensures Step(js, cap, st).Next? ==> Structured(js, Step(js, cap, st).st)
  {
    hide Structured, LastOpen;
    assert st.pos < |js|;
    var c := js[st.pos];
    if Step(js, cap, st).Next? {
      if c == '{' || c == '[' {
        OpenKeeps(js, st, if c == '{' then Object else Array, c);
      } else if c == '}' || c == ']' {
        CloseKeeps(js, st, if c == '}' then Object else Array);
      } else if IsSpace(c) || c == ':' || c == ',' {
        SuperIsRight(js, st);
        MoveKeeps(js, st, Step(js, cap, st).st.super);
      } else if c == '\"' {
        StringKeeps(js, st, StringEnd(js, st.pos + 1).at);
      } else {
        PrimitiveKeeps(js, st);
      }
    }
  }

  lemma SuperIsRight(js: string, st: State)
    requires Structured(js, st)
    ensures LastOpen(st.toks) <= st.super < |st.toks|
  {
  }

  // ---------- Whole runs ----------

  /** At every return the structure holds; on success nothing is left open. */
  lemma {:induction false} RunKeeps(js: string, cap: nat, st: State, count: nat)
    requires Structured(js, st)
    ensures Structured(js, Run(js, cap, st, count).1)
    ensures Run(js, cap, st, count).0.Done? ==>
              forall i :: 0 <= i < |Run(js, cap, st, count).1.toks| ==> !Run(js, cap, st, count).1.toks[i].Open()
    decreases |js| - st.pos
  {
    hide Step;
    LastOpenIsLast(st.toks);
    if !AtEnd(js, st.pos) {
      StepKeeps(js, cap, st);
      match Step(js, cap, st)
      case Stop(_) =>
      case Next(st', made) => RunKeeps(js, cap, st', count + made);
    }
  }

  lemma InitialIsStructured(js: string)
    ensures Structured(js, INITIAL)
  {
  }

  // ---------- The unguarded read of the comma case ----------

  /** The comma case as the source writes it: with `toksuper == -1` the kind tested is whatever
      lies before the array, `stray`. */
  function CommaAsWritten(st: State, stray: Kind): int
    requires -1 <= st.super < |st.toks|
  {
    var kind := if st.super == -1 then stray else st.toks[st.super].kind;
    if kind != Array && kind != Object && LastOpen(st.toks) != -1 then LastOpen(st.toks) else st.super
  }

  /** The main loop with the comma as written; `stray(p)` is what the read finds at offset `p`. */
  function RunAsWritten(js: string, cap: nat, st: State, count: nat, stray: nat -> Kind): (Result, State)
    decreases |js| - st.pos
  {
    if AtEnd(js, st.pos) then Run(js, cap, st, count)
    else if js[st.pos] == ',' && Ok(st) then
      var super := CommaAsWritten(st, stray(st.pos));
      RunAsWritten(js, cap, State(st.pos + 1, st.toks, super), count, stray)
    else
      match Step(js, cap, st)
      case Stop(e) => (Fail(e), st)
      case Next(st', made) => RunAsWritten(js, cap, st', count + made, stray)
  }

  /** The unguarded read happens only while nothing is open, so no value found there can change
      the result: the source and the guarded model agree on every text. */
  lemma {:induction false} StrayReadIsHarmless(js: string, cap: nat, st: State, count: nat, stray: nat -> Kind)
    requires Structured(js, st)
    ensures RunAsWritten(js, cap, st, count, stray) == Run(js, cap, st, count)
    decreases |js| - st.pos
  {
    hide LastOpen, Run;
    StructuredIsOk(js, st);
    SuperIsRight(js, st);
    if !AtEnd(js, st.pos) {
      RunUnfolds(js, cap, st, count);
      StepKeeps(js, cap, st);
      hide Structured;
      if js[st.pos] == ',' {
        assert Step(js, cap, st) == Next(State(st.pos + 1, st.toks, CommaAsWritten(st, stray(st.pos))), 0);
        StrayReadIsHarmless(js, cap, Step(js, cap, st).st, count, stray);
      } else {
        hide Step;
        match Step(js, cap, st)
        case Stop(_) =>
        case Next(st', made) => StrayReadIsHarmless(js, cap, st', count + made, stray);
      }
    }
  }

  // ---------- Sizes ----------

  function SizeSum(toks: seq<Token>): nat {
    if |toks| == 0 then 0 else SizeSum(toks[..|toks| - 1]) + toks[|toks| - 1].size
  }

  lemma SizeSumUpdate(toks: seq<Token>, i: nat, t: Token)
    requires i < |toks|
    ensures SizeSum(toks[i := t]) == SizeSum(toks) - toks[i].size + t.size
  {
    if i < |toks| - 1 {
      SizeSumUpdate(toks[..|toks| - 1], i, t);
      assert toks[i := t][..|toks| - 1] == toks[..|toks| - 1][i := t];
    } else {
      assert toks[i := t][..|toks| - 1] == toks[..|toks| - 1];
    }
  }

  /** How many tokens the run creates while there is no superior token. */
  function TopLevel(js: string, cap: nat, st: State): nat
    decreases |js| - st.pos
  {
    if AtEnd(js, st.pos) then 0
    else
      match Step(js, cap, st)
      case Stop(_) => 0
      case Next(st', made) => (if st.super == -1 then made else 0) + TopLevel(js, cap, st')
  }

  lemma StepCountsSizes(js: string, cap: nat, st: State)
    requires Ok(st) && !AtEnd(js, st.pos)
    ensures match Step(js, cap, st)
            case Stop(_) => true
            case Next(st', made) => SizeSum(st'.toks) == SizeSum(st.toks) + if st.super == -1 then 0 else made
  {
    match Step(js, cap, st)
    case Stop(_) =>
    case Next(st', made) =>
      if made == 1 {
        assert st'.toks[..|st.toks|] == Bump(st.toks, st.super);
        if st.super != -1 {
          SizeSumUpdate(st.toks, st.super, Bump(st.toks, st.super)[st.super]);
        }
      } else if js[st.pos] == '}' || js[st.pos] == ']' {
        var i := LastOpen(st.toks);
        SizeSumUpdate(st.toks, i, st'.toks[i]);
      }
  }

  /** Every token is counted in the size of its superior exactly once, except those at top level. */
  lemma {:induction false} SizesCountTokens(js: string, cap: nat, st: State, count: nat)
    requires Ok(st)
    ensures SizeSum(Run(js, cap, st, count).1.toks) - SizeSum(st.toks)
         == |Run(js, cap, st, count).1.toks| - |st.toks| - TopLevel(js, cap, st)
    decreases |js| - st.pos
  {
    hide Step;
    if !AtEnd(js, st.pos) {
      StepCountsSizes(js, cap, st);
      StepOk(js, cap, st);
      match Step(js, cap, st)
      case Stop(_) =>
      case Next(st', made) => SizesCountTokens(js, cap, st', count + made);
    }
  }

  /** The tokenizer on arbitrary text, from a fresh parser. */
  lemma TokenizerStructure(js: string, cap: nat, r: Result, st: State)
    requires (r, st) == Run(js, cap, INITIAL, 0)
    ensures Structured(js, st) && |st.toks| <= cap
    ensures r.Done? ==> forall i :: 0 <= i < |st.toks| ==> !st.toks[i].Open()
    ensures SizeSum(st.toks) == |st.toks| - TopLevel(js, cap, INITIAL)
  {
    InitialIsStructured(js);
    RunKeeps(js, cap, INITIAL, 0);
    SizesCountTokens(js, cap, INITIAL, 0);
  }
}
