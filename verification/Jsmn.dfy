/** The JSON tokenizer of src/jsmn.c, as it is compiled (no JSMN_STRICT, no
    JSMN_PARENT_LINKS).

    The first half is a specification on values: a parser state is the offset,
    the tokens allocated so far and the index of the superior token; `Step`
    consumes one lexical element and `Run` iterates it.  The second half is the
    parser object itself, working in place on a token array, proved equal to `Run`.
  */
module Jsmn {
  import opened Options

  datatype Kind = Primitive | Object | Array | String

  datatype Token = Token(kind: Kind, start: int, end: int, size: nat) {
    predicate Open() {
      start != -1 && end == -1
    }

    predicate Container() {
      kind.Object? || kind.Array?
    }
  }

  datatype Error = NoMem | Inval | Part

  datatype Result = Done(count: nat) | Fail(error: Error)

  datatype State = State(pos: nat, toks: seq<Token>, super: int)

  const INITIAL := State(0, [], -1)

  // ---------- Characters ----------

  predicate AtEnd(js: string, p: nat) {
    p >= |js| || js[p] == '\0'
  }

  predicate IsSpace(c: char) {
    c == '\t' || c == '\r' || c == '\n' || c == ' '
  }

  /** The characters that end a primitive. */
  predicate IsDelimiter(c: char) {
    IsSpace(c) || c == ':' || c == ',' || c == ']' || c == '}'
  }

  predicate IsHex(c: char) {
    '0' <= c <= '9' || 'A' <= c <= 'F' || 'a' <= c <= 'f'
  }

  predicate IsEscape(c: char) {
    c == '\"' || c == '/' || c == '\\' || c == 'b' || c == 'f' || c == 'r' || c == 'n' || c == 't'
  }

  /** Printable ASCII; every other character makes a primitive invalid. */
  predicate IsPrintable(c: char) {
    32 <= c as int < 127
  }

  // ---------- Lexical scans ----------

  /** Where the primitive that continues at `p` stops, or -1 when it holds an invalid character. */
  function PrimitiveEnd(js: string, p: nat): (e: int)
    ensures e == -1 || p <= e
    ensures p <= |js| ==> e <= |js|
    ensures e != -1 && !AtEnd(js, p) && !IsDelimiter(js[p]) ==> p < e
    decreases |js| - p
  {
    if AtEnd(js, p) || IsDelimiter(js[p]) then p
    else if !IsPrintable(js[p]) then -1
    else PrimitiveEnd(js, p + 1)
  }

  /** The number of hex digits consumed of a \u escape, or -1 on a character that is no hex digit. */
  function HexRun(js: string, p: nat, n: nat): (k: int)
    ensures k == -1 || 0 <= k <= n
    ensures p <= |js| ==> p + k <= |js|
    decreases n
  {
    if n == 0 || AtEnd(js, p) then 0
    else if !IsHex(js[p]) then -1
    else
      var k := HexRun(js, p + 1, n - 1);
      if k == -1 then -1 else k + 1
  }

  datatype Scan = Closed(at: nat) | Broken(error: Error)

  /** The closing quote of the string whose contents continue at `p`. */
  function StringEnd(js: string, p: nat): (r: Scan)
    ensures r.Closed? ==> p <= r.at < |js| && js[r.at] == '\"'
    ensures r.Broken? ==> r.error != NoMem
    decreases |js| - p
  {
    if AtEnd(js, p) then Broken(Part)
    else if js[p] == '\"' then Closed(p)
    else if js[p] == '\\' && p + 1 < |js| then
      if IsEscape(js[p + 1]) then StringEnd(js, p + 2)
      else if js[p + 1] == 'u' then
        var k := HexRun(js, p + 2, 4);
        if k == -1 then Broken(Inval) else StringEnd(js, p + 2 + k)
      else Broken(Inval)
    else StringEnd(js, p + 1)
  }

  // ---------- One step of the automaton ----------

  /** The index of the last token that is still open, or -1. */
  function LastOpen(toks: seq<Token>): (i: int)
    ensures -1 <= i < |toks|
  {
    if |toks| == 0 then -1
    else if toks[|toks| - 1].Open() then |toks| - 1
    else LastOpen(toks[..|toks| - 1])
  }

  lemma LastOpenIsLast(toks: seq<Token>)
    ensures LastOpen(toks) >= 0 ==> toks[LastOpen(toks)].Open()
    ensures forall k :: LastOpen(toks) < k < |toks| ==> !toks[k].Open()
  {
    if |toks| > 0 && !toks[|toks| - 1].Open() {
      LastOpenIsLast(toks[..|toks| - 1]);
    }
  }

  lemma LastOpenUnique(toks: seq<Token>, i: int)
    requires -1 <= i < |toks|
    requires i >= 0 ==> toks[i].Open()
    requires forall k :: i < k < |toks| ==> !toks[k].Open()
    ensures LastOpen(toks) == i
  {
    LastOpenIsLast(toks);
  }

  /** What the array accesses of the source need of a state: the superior index is
      in range and only containers are open. */
  predicate Ok(st: State) {
    && -1 <= st.super < |st.toks|
    && forall i :: 0 <= i < |st.toks| && st.toks[i].Open() ==> st.toks[i].Container()
  }

  /** `tokens[toksuper].size++`, unless there is no superior token. */
  function Bump(toks: seq<Token>, super: int): (r: seq<Token>)
    ensures |r| == |toks|
  {
    if 0 <= super < |toks| then toks[super := toks[super].(size := toks[super].size + 1)] else toks
  }

  lemma LastOpenBump(toks: seq<Token>, super: int)
    ensures LastOpen(Bump(toks, super)) == LastOpen(toks)
  {
    LastOpenIsLast(toks);
    LastOpenUnique(Bump(toks, super), LastOpen(toks));
  }

  datatype Outcome = Next(st: State, made: nat) | Stop(error: Error)

  function OpenStep(cap: nat, st: State, kind: Kind): Outcome {
    if |st.toks| >= cap then Stop(NoMem)
    else Next(State(st.pos + 1, Bump(st.toks, st.super) + [Token(kind, st.pos, -1, 0)], |st.toks|), 1)
  }

  function CloseStep(st: State, kind: Kind): Outcome
  {
    var i := LastOpen(st.toks);
    if i == -1 || st.toks[i].kind != kind then Stop(Inval)
    else Next(State(st.pos + 1, st.toks[i := st.toks[i].(end := st.pos + 1)], LastOpen(st.toks[..i])), 0)
  }

  /** Allocates the leaf token `[from, to)`; the scan goes on at `next`. */
  function LeafStep(cap: nat, st: State, kind: Kind, from: nat, to: nat, next: nat): Outcome {
    if |st.toks| >= cap then Stop(NoMem)
    else Next(State(next, Bump(st.toks, st.super) + [Token(kind, from, to, 0)], st.super), 1)
  }

  /** A comma pops back from a key (or a closed value) to the container that is open.
      The source reads `tokens[toksuper]` without testing for -1 here; the test is added,
      and `StrayReadIsHarmless` shows that no value read there could matter. */
  function CommaSuper(st: State): int {
    if 0 <= st.super < |st.toks| && !st.toks[st.super].Container() && LastOpen(st.toks) != -1
    then LastOpen(st.toks)
    else st.super
  }

  function Step(js: string, cap: nat, st: State): (o: Outcome)
    requires !AtEnd(js, st.pos)
    ensures o.Next? ==> st.pos < o.st.pos <= |js|
    ensures o.Next? ==> |o.st.toks| == |st.toks| + o.made
    ensures o.Next? && |st.toks| <= cap ==> |o.st.toks| <= cap
  {
    var c := js[st.pos];
    if c == '{' || c == '[' then OpenStep(cap, st, if c == '{' then Object else Array)
    else if c == '}' || c == ']' then CloseStep(st, if c == '}' then Object else Array)
    else if c == '\"' then
      match StringEnd(js, st.pos + 1)
      case Broken(e) => Stop(e)
      case Closed(q) => LeafStep(cap, st, String, st.pos + 1, q, q + 1)
    else if IsSpace(c) then Next(st.(pos := st.pos + 1), 0)
    else if c == ':' then Next(State(st.pos + 1, st.toks, |st.toks| - 1), 0)
    else if c == ',' then Next(State(st.pos + 1, st.toks, CommaSuper(st)), 0)
    else
      var e := PrimitiveEnd(js, st.pos);
      if e == -1 then Stop(Inval) else LeafStep(cap, st, Primitive, st.pos, e, e)
  }

  /** The whole of jsmn_parse: steps until the text ends or a step fails.  A failing
      step leaves the state as it was before that step. */
  function Run(js: string, cap: nat, st: State, count: nat): (r: (Result, State))
    ensures |st.toks| <= |r.1.toks| && (|st.toks| <= cap ==> |r.1.toks| <= cap)
    decreases |js| - st.pos
  {
    if AtEnd(js, st.pos) then
      (if LastOpen(st.toks) == -1 then Done(count) else Fail(Part), st)
    else
      match Step(js, cap, st)
      case Stop(e) => (Fail(e), st)
      case Next(st', made) => Run(js, cap, st', count + made)
  }

  /** `Run` unfolded once. */
  lemma RunUnfolds(js: string, cap: nat, st: State, count: nat)
    ensures AtEnd(js, st.pos) ==>
              Run(js, cap, st, count) == (if LastOpen(st.toks) == -1 then Done(count) else Fail(Part), st)
    ensures !AtEnd(js, st.pos) ==>
              match Step(js, cap, st)
              case Stop(e) => Run(js, cap, st, count) == (Fail(e), st)
              case Next(st', made) => Run(js, cap, st, count) == Run(js, cap, st', count + made)
  {
    hide Step;
  }

  /** The indices the source uses stay in range, and the array is never overrun. */
  lemma StepOk(js: string, cap: nat, st: State)
    requires Ok(st) && !AtEnd(js, st.pos)
    ensures match Step(js, cap, st)
            case Stop(_) => true
            case Next(st', _) => Ok(st')
  {
    if js[st.pos] == '}' || js[st.pos] == ']' {
      LastOpenIsLast(st.toks);
    }
  }

  datatype Tally = Go(next: nat, made: nat) | Halt(error: Error)

  /** A step of the counting mode (`tokens == NULL`): no token is stored, brackets are not matched. */
  function CountStep(js: string, p: nat): (t: Tally)
    requires !AtEnd(js, p)
    ensures t.Go? ==> p < t.next <= |js|
    ensures t.Halt? ==> t.error != NoMem
  {
    var c := js[p];
    if c == '{' || c == '[' then Go(p + 1, 1)
    else if c == '\"' then
      match StringEnd(js, p + 1)
      case Broken(e) => Halt(e)
      case Closed(q) => Go(q + 1, 1)
    else if c == '}' || c == ']' || IsSpace(c) || c == ':' || c == ',' then Go(p + 1, 0)
    else
      var e := PrimitiveEnd(js, p);
      if e == -1 then Halt(Inval) else Go(e, 1)
  }

  function CountRun(js: string, p: nat, count: nat): (r: (Result, nat))
    ensures r.0.Done? ==> count <= r.0.count
    decreases |js| - p
  {
    if AtEnd(js, p) then (Done(count), p)
    else
      match CountStep(js, p)
      case Halt(e) => (Fail(e), p)
      case Go(q, made) => CountRun(js, q, count + made)
  }

  // ---------- The parser object ----------

  class Parser {
    var pos: nat
    var toknext: nat
    var toksuper: int

    /** jsmn_init */
    constructor ()
      ensures pos == 0 && toknext == 0 && toksuper == -1
    {
      pos, toknext, toksuper := 0, 0, -1;
    }

    /** The state the specification speaks of. */
    function Abs(tokens: array<Token>): State
      requires toknext <= tokens.Length
      reads this, tokens
    {
      State(pos, tokens[..toknext], toksuper)
    }

    ghost predicate Valid(js: string, tokens: array?<Token>)
      reads this, tokens
    {
      && pos <= |js|
      && (tokens == null ==> toknext == 0 && toksuper == -1)
      && (tokens != null ==> toknext <= tokens.Length && Ok(Abs(tokens)))
    }

    /** jsmn_alloc_token: the new token's index, or -1 when the array is full. */
    method AllocToken(tokens: array<Token>) returns (i: int)
      requires toknext <= tokens.Length
      modifies this`toknext, tokens
      ensures old(toknext) == tokens.Length ==> i == -1 && toknext == old(toknext) && tokens[..] == old(tokens[..])
      ensures old(toknext) < tokens.Length ==>
                i == old(toknext) && toknext == i + 1 && tokens[i].start == -1 == tokens[i].end && tokens[i].size == 0
                && forall k :: 0 <= k < tokens.Length && k != i ==> tokens[k] == old(tokens[k])
    {
      if toknext >= tokens.Length {
        return -1;
      }
      i := toknext;
      toknext := toknext + 1;
      tokens[i] := tokens[i].(start := -1, end := -1);
      tokens[i] := tokens[i].(size := 0);
    }

    /** jsmn_parse_primitive.  On success `pos` is left on the last character of the primitive. */
    method ParsePrimitive(js: string, tokens: array?<Token>) returns (r: Option<Error>)
      requires Valid(js, tokens) && !AtEnd(js, pos) && !IsDelimiter(js[pos])
      modifies this`pos, this`toknext, tokens
      ensures r.Some? ==> pos == old(pos) && toknext == old(toknext)
      ensures r.Some? && tokens != null ==> tokens[..] == old(tokens[..])
      ensures r.None? ==> 0 <= pos && pos + 1 == PrimitiveEnd(js, old(pos))
      ensures r.None? && tokens == null ==> toknext == old(toknext)
      ensures r.None? && tokens != null ==>
                old(toknext) < tokens.Length && toknext == old(toknext) + 1
                && tokens[..toknext] == old(tokens[..toknext]) + [Token(Primitive, old(pos), pos + 1, 0)]
                && tokens[toknext..] == old(tokens[toknext + 1..])
      ensures r.Some? ==> r.value == if PrimitiveEnd(js, pos) == -1 then Inval else NoMem
      ensures r.Some? && PrimitiveEnd(js, pos) != -1 ==> tokens != null && toknext == tokens.Length
    {
      var start := pos;
      while pos < |js| && js[pos] != '\0'
        invariant start <= pos <= |js|
        invariant PrimitiveEnd(js, start) == PrimitiveEnd(js, pos)
        invariant toknext == old(toknext)
        invariant tokens != null ==> tokens[..] == old(tokens[..])
        decreases |js| - pos
      {
        if IsDelimiter(js[pos]) {
          break;
        }
        if !IsPrintable(js[pos]) {
          pos := start;
          return Some(Inval);
        }
        pos := pos + 1;
      }
      if tokens == null {
        pos := pos - 1;
        return None;
      }
      var t := AllocToken(tokens);
      if t == -1 {
        pos := start;
        return Some(NoMem);
      }
      tokens[t] := Token(Primitive, start, pos, 0);
      pos := pos - 1;
      return None;
    }

    /** jsmn_parse_string.  On success `pos` is left on the closing quote. */
    method ParseString(js: string, tokens: array?<Token>) returns (r: Option<Error>)
      requires Valid(js, tokens) && pos < |js|
      modifies this`pos, this`toknext, tokens
      ensures r.Some? ==> pos == old(pos) && toknext == old(toknext)
      ensures r.Some? && tokens != null ==> tokens[..] == old(tokens[..])
      ensures r.None? ==> StringEnd(js, old(pos) + 1) == Closed(pos)
      ensures r.None? && tokens == null ==> toknext == old(toknext)
      ensures r.None? && tokens != null ==>
                old(toknext) < tokens.Length && toknext == old(toknext) + 1
                && tokens[..toknext] == old(tokens[..toknext]) + [Token(String, old(pos) + 1, pos, 0)]
                && tokens[toknext..] == old(tokens[toknext + 1..])
      ensures r.Some? ==>
                match StringEnd(js, pos + 1)
                case Broken(e) => r.value == e
                case Closed(_) => r.value == NoMem && tokens != null && toknext == tokens.Length
    {
      var start := pos;
      pos := pos + 1;
      while pos < |js| && js[pos] != '\0'
        invariant start < pos <= |js|
        invariant StringEnd(js, start + 1) == StringEnd(js, pos)
        invariant toknext == old(toknext)
        invariant tokens != null ==> tokens[..] == old(tokens[..])
        decreases |js| - pos
      {
        if js[pos] == '\"' {
          if tokens == null {
            return None;
          }
          var t := AllocToken(tokens);
          if t == -1 {
            pos := start;
            return Some(NoMem);
          }
          tokens[t] := Token(String, start + 1, pos, 0);
          return None;
        }
        if js[pos] == '\\' && pos + 1 < |js| {
          var ok := SkipEscape(js);
          if !ok {
            pos := start;
            return Some(Inval);
          }
        }
        pos := pos + 1;
      }
      pos := start;
      return Some(Part);
    }

    /** The backslash case of a string; `pos` is left on the last character of the escape. */
    method SkipEscape(js: string) returns (ok: bool)
      requires pos + 1 < |js| && js[pos] == '\\'
      modifies this`pos
      ensures !ok ==> StringEnd(js, old(pos)) == Broken(Inval)
      ensures ok ==> old(pos) < pos < |js| && StringEnd(js, old(pos)) == StringEnd(js, pos + 1)
    {
      pos := pos + 1;
      if IsEscape(js[pos]) {
        return true;
      }
      if js[pos] != 'u' {
        return false;
      }
      pos := pos + 1;
      ok := SkipHex(js);
      pos := pos - 1;
    }

    /** The loop over the four digits of a \u escape. */
    method SkipHex(js: string) returns (ok: bool)
      requires pos <= |js|
      modifies this`pos
      ensures ok <==> HexRun(js, old(pos), 4) != -1
      ensures old(pos) <= pos
      ensures ok ==> pos == old(pos) + HexRun(js, old(pos), 4) <= |js|
    {
      var i := 0;
      while i < 4 && pos < |js| && js[pos] != '\0'
        invariant 0 <= i <= 4 && old(pos) <= pos <= |js|
        invariant (HexRun(js, old(pos), 4) == -1) == (HexRun(js, pos, 4 - i) == -1)
        invariant HexRun(js, pos, 4 - i) != -1 ==>
                    old(pos) + HexRun(js, old(pos), 4) == pos + HexRun(js, pos, 4 - i)
        decreases 4 - i
      {
        if !IsHex(js[pos]) {
          return false;
        }
        pos := pos + 1;
        i := i + 1;
      }
      return true;
    }

    /** The backward scan for an open token, from index `from - 1` down; -1 when there is none. */
    method FindOpen(tokens: array<Token>, from: nat) returns (i: int)
      requires from <= tokens.Length
      ensures i == LastOpen(tokens[..from])
    {
      i := from - 1;
      while i >= 0
        invariant -1 <= i < from
        invariant LastOpen(tokens[..from]) == LastOpen(tokens[..i + 1])
      {
        assert tokens[..i + 1][..i] == tokens[..i];
        if tokens[i].start != -1 && tokens[i].end == -1 {
          return;
        }
        i := i - 1;
      }
    }

    /** The same scan as the comma case writes it, testing the kind first. */
    method FindOpenContainer(tokens: array<Token>) returns (i: int)
      requires toknext <= tokens.Length && Ok(Abs(tokens))
      ensures i == LastOpen(tokens[..toknext])
    {
      i := toknext - 1;
      while i >= 0
        invariant -1 <= i < toknext
        invariant LastOpen(tokens[..toknext]) == LastOpen(tokens[..i + 1])
      {
        assert tokens[..i + 1][..i] == tokens[..i];
        assert tokens[..toknext][i] == tokens[i];
        if tokens[i].kind.Array? || tokens[i].kind.Object? {
          if tokens[i].start != -1 && tokens[i].end == -1 {
            return;
          }
        }
        i := i - 1;
      }
    }

    /** How one case of the main loop relates to the step it implements: `pos` is still
        to be advanced by the loop. */
    static ghost predicate Did(o: Outcome, r: Option<Error>, before: State, after: State) {
      match o
      case Stop(e) => r == Some(e) && after == before
      case Next(st, _) => r == None && after.toks == st.toks && after.super == st.super && after.pos + 1 == st.pos
    }

    /** `tokens[toksuper].size++`, over the tokens below index `n`. */
    method CountInSuper(tokens: array<Token>, ghost n: nat)
      requires -1 <= toksuper < n <= tokens.Length
      modifies tokens
      ensures tokens[..n] == Bump(old(tokens[..n]), toksuper)
      ensures forall k :: n <= k < tokens.Length ==> tokens[k] == old(tokens[k])
    {
      if toksuper != -1 {
        tokens[toksuper] := tokens[toksuper].(size := tokens[toksuper].size + 1);
      }
    }

    /** The opening bracket. */
    method OpenBracket(js: string, tokens: array<Token>, c: char) returns (r: Option<Error>)
      requires Valid(js, tokens)
      modifies this`toknext, this`toksuper, tokens
      ensures toknext <= tokens.Length
      ensures Did(OpenStep(tokens.Length, old(Abs(tokens)), if c == '{' then Object else Array), r, old(Abs(tokens)),
          Abs(tokens))
    {
      var t := AllocToken(tokens);
      if t == -1 {
        return Some(NoMem);
      }
      assert tokens[..t] == old(tokens[..toknext]);
      CountInSuper(tokens, t);
      tokens[t] := tokens[t].(kind := if c == '{' then Object else Array, start := pos);
      toksuper := toknext - 1;
      assert tokens[..toknext] == tokens[..t] + [tokens[t]];
      return None;
    }

    /** The closing bracket: closes the last open token, if it is of the same kind. */
    method CloseBracket(js: string, tokens: array<Token>, c: char) returns (r: Option<Error>)
      requires Valid(js, tokens)
      modifies this`toksuper, tokens
      ensures Did(CloseStep(old(Abs(tokens)), if c == '}' then Object else Array), r, old(Abs(tokens)), Abs(tokens))
    {
      var kind := if c == '}' then Object else Array;
      var i := FindOpen(tokens, toknext);
      if i >= 0 && tokens[i].kind != kind {
        return Some(Inval);
      }
      if i == -1 {
        return Some(Inval);
      }
      toksuper := -1;
      tokens[i] := tokens[i].(end := pos + 1);
      assert tokens[..i + 1][..i] == tokens[..i] == old(tokens[..toknext])[..i];
      var j := FindOpen(tokens, i + 1);
      if j >= 0 {
        toksuper := j;
      }
      return None;
    }

    /** The comma. */
    method Comma(js: string, tokens: array<Token>)
      requires Valid(js, tokens)
      modifies this`toksuper
      ensures toksuper == CommaSuper(old(Abs(tokens)))
    {
      if toksuper != -1 && tokens[toksuper].kind != Array && tokens[toksuper].kind != Object {
        var i := FindOpenContainer(tokens);
        if i >= 0 {
          toksuper := i;
        }
      }
    }

    /** A string or a primitive, with the count kept in the superior token. */
    method Leaf(js: string, tokens: array<Token>) returns (r: Option<Error>)
      requires Valid(js, tokens) && !AtEnd(js, pos) && !IsDelimiter(js[pos]) && js[pos] !in "[{"
      modifies this`pos, this`toknext, tokens
      ensures toknext <= tokens.Length
      ensures Did(Step(js, tokens.Length, old(Abs(tokens))), r, old(Abs(tokens)), Abs(tokens))
    {
      if js[pos] == '\"' {
        r := ParseString(js, tokens);
      } else {
        r := ParsePrimitive(js, tokens);
      }
      if r == None {
        ghost var n := toknext - 1;
        ghost var t := tokens[n];
        assert tokens[..n] == tokens[..toknext][..n] == old(tokens[..toknext]);
        CountInSuper(tokens, n);
        assert tokens[..toknext] == tokens[..n] + [t];
      }
    }

    /** The switch of the main loop: one step, but for the `pos++` of the loop. */
    method Dispatch(js: string, tokens: array<Token>) returns (r: Option<Error>, made: nat)
      requires Valid(js, tokens) && !AtEnd(js, pos)
      modifies this, tokens
      ensures toknext <= tokens.Length
      ensures Did(Step(js, tokens.Length, old(Abs(tokens))), r, old(Abs(tokens)), Abs(tokens))
      ensures r == None ==> made == Step(js, tokens.Length, old(Abs(tokens))).made
    {
      var c := js[pos];
      made := 0;
      r := None;
      if c == '{' || c == '[' {
        made := 1;
        r := OpenBracket(js, tokens, c);
      } else if c == '}' || c == ']' {
        r := CloseBracket(js, tokens, c);
      } else if IsSpace(c) {
      } else if c == ':' {
        toksuper := toknext - 1;
      } else if c == ',' {
        Comma(js, tokens);
      } else {
        made := 1;
        r := Leaf(js, tokens);
      }
    }

    /** One round of the main loop. */
    method Round(js: string, tokens: array<Token>) returns (r: Option<Error>, made: nat)
      requires Valid(js, tokens) && !AtEnd(js, pos)
      modifies this, tokens
      ensures Valid(js, tokens)
      ensures match Step(js, tokens.Length, old(Abs(tokens)))
              case Stop(e) => r == Some(e) && Abs(tokens) == old(Abs(tokens))
              case Next(st, n) => r == None && made == n && Abs(tokens) == st
    {
      ghost var st := Abs(tokens);
      ghost var o := Step(js, tokens.Length, st);
      r, made := Dispatch(js, tokens);
      StepOk(js, tokens.Length, st);
      hide Step, LastOpen;
      if r == None {
        pos := pos + 1;
        assert Abs(tokens) == o.st;
      } else {
        assert Abs(tokens) == st;
      }
    }

    /** jsmn_parse over a token array. */
    method Parse(js: string, tokens: array<Token>) returns (r: Result)
      requires Valid(js, tokens)
      modifies this, tokens
      ensures Valid(js, tokens)
      ensures (r, Abs(tokens)) == Run(js, tokens.Length, old(Abs(tokens)), 0)
    {
      hide Step, Run, LastOpen;
      var count := 0;
      ghost var whole := Run(js, tokens.Length, Abs(tokens), 0);
      while pos < |js| && js[pos] != '\0'
        invariant Valid(js, tokens)
        invariant whole == Run(js, tokens.Length, Abs(tokens), count)
        decreases |js| - pos
      {
        RunUnfolds(js, tokens.Length, Abs(tokens), count);
        var e, made := Round(js, tokens);
        if e.Some? {
          return Fail(e.value);
        }
        count := count + made;
      }
      RunUnfolds(js, tokens.Length, Abs(tokens), count);
      var i := FindOpen(tokens, toknext);
      if i >= 0 {
        return Fail(Part);
      }
      return Done(count);
    }

    /** jsmn_parse with `tokens == NULL`: only counts. */
    method Count(js: string) returns (r: Result)
      requires Valid(js, null)
      modifies this
      ensures Valid(js, null)
      ensures (r, pos) == CountRun(js, old(pos), 0)
    {
      var count := 0;
      while pos < |js| && js[pos] != '\0'
        invariant Valid(js, null)
        invariant CountRun(js, old(pos), 0) == CountRun(js, pos, count)
        decreases |js| - pos
      {
        var c := js[pos];
        if c == '{' || c == '[' {
          count := count + 1;
        } else if c == '}' || c == ']' || IsSpace(c) || c == ',' {
        } else if c == ':' {
          toksuper := toknext - 1;
        } else {
          var e: Option<Error>;
          if c == '\"' {
            e := ParseString(js, null);
          } else {
            e := ParsePrimitive(js, null);
          }
          if e.Some? {
            return Fail(e.value);
          }
          count := count + 1;
        }
        pos := pos + 1;
      }
      return Done(count);
    }
  }
}
