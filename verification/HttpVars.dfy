/** The request variables: the list of lists of libhttpd/api.c and the query parser of libhttpd/protocol.c,
    on values. */
module HttpVars {
  import opened Sanitiser
  import opened HttpText

  /** A name and its values, oldest first. */
  datatype Var = Var(name: string, values: seq<string>)

  function TrimBlank(s: string): (r: string) {
    if s != "" && (s[0] == ' ' || s[0] == '\t') then TrimBlank(s[1..]) else s
  }

  function AddTrimmed(vars: seq<Var>, name: string, value: string): (r: seq<Var>) {
    if vars == [] then [Var(name, [value])]
    else if vars[0].name == name then [Var(name, vars[0].values + [value])] + vars[1..]
    else [vars[0]] + AddTrimmed(vars[1..], name, value)
  }

  /** httpdAddVariable */
  function Add(vars: seq<Var>, name: string, value: string): (r: seq<Var>) {
    AddTrimmed(vars, TrimBlank(name), value)
  }

  /** The values kept under a name; none when it is not there. */
  function Values(vars: seq<Var>, name: string): (r: seq<string>) {
    if vars == [] then [] else if vars[0].name == name then vars[0].values else Values(vars[1..], name)
  }

  ghost predicate Distinct(vars: seq<Var>) {
    forall i, j | 0 <= i < j < |vars| :: vars[i].name != vars[j].name
  }

  datatype Pair = Pair(name: string, value: string)

  function AddAll(vars: seq<Var>, pairs: seq<Pair>): (r: seq<Var>)
    decreases |pairs|
  {
    if pairs == [] then vars else AddAll(Add(vars, pairs[0].name, pairs[0].value), pairs[1..])
  }

  /** The values of the pairs whose name, without leading blanks, is `name`. */
  function Named(pairs: seq<Pair>, name: string): (r: seq<string>) {
    if pairs == [] then []
    else (if TrimBlank(pairs[0].name) == name then [pairs[0].value] else []) + Named(pairs[1..], name)
  }

  /** Blanks before a name are dropped. */
  lemma {:induction false} BlanksDropped(w: string, name: string)
    requires (forall k | 0 <= k < |w| :: w[k] in " \t") && (name == "" || name[0] !in " \t")
    ensures TrimBlank(w + name) == name
    decreases |w|
  {
    assert " \t"[0] == ' ' && " \t"[1] == '\t';
    if w == "" {
      assert w + name == name;
    } else {
      assert (w + name)[1..] == w[1..] + name;
      BlanksDropped(w[1..], name);
    }
  }

  lemma {:induction false} AddTrimmedValues(vars: seq<Var>, name: string, value: string, m: string)
    ensures Values(AddTrimmed(vars, name, value), m) == Values(vars, m) + (if m == name then [value] else [])
  {
    if vars != [] && vars[0].name != name {
      AddTrimmedValues(vars[1..], name, value, m);
      assert AddTrimmed(vars, name, value)[1..] == AddTrimmed(vars[1..], name, value);
    } else if vars == [] {
      assert [] + [value] == [value];
      assert AddTrimmed(vars, name, value)[1..] == [];
    } else {
      assert AddTrimmed(vars, name, value)[1..] == vars[1..];
    }
  }

  lemma {:induction false} AddTrimmedNames(vars: seq<Var>, name: string, value: string)
    ensures |vars| <= |AddTrimmed(vars, name, value)|
    ensures forall i | 0 <= i < |AddTrimmed(vars, name, value)| ::
      AddTrimmed(vars, name, value)[i].name == if i < |vars| then vars[i].name else name
    ensures |AddTrimmed(vars, name, value)| > |vars| ==>
      |AddTrimmed(vars, name, value)| == |vars| + 1 && (forall i | 0 <= i < |vars| :: vars[i].name != name)
  {
    if vars != [] && vars[0].name != name {
      AddTrimmedNames(vars[1..], name, value);
      var r, s := AddTrimmed(vars, name, value), AddTrimmed(vars[1..], name, value);
      assert r == [vars[0]] + s;
      hide AddTrimmed;
      forall i | 0 <= i < |r| ensures r[i].name == if i < |vars| then vars[i].name else name {
        if i > 0 {
          assert r[i] == s[i - 1];
        }
      }
      if |r| > |vars| {
        forall i | 0 <= i < |vars| ensures vars[i].name != name {
          if i > 0 {
            assert vars[i] == vars[1..][i - 1];
          }
        }
      }
    }
  }

  lemma AddDistinct(vars: seq<Var>, name: string, value: string)
    requires Distinct(vars)
    ensures Distinct(Add(vars, name, value))
  {
    AddTrimmedNames(vars, TrimBlank(name), value);
    hide AddTrimmed;
  }

  /** Main result: the list of lists is a map from names to their values in the order they came. */
  lemma {:induction false} VariablesAreAMap(vars: seq<Var>, pairs: seq<Pair>, name: string)
    requires Distinct(vars)
    ensures Values(AddAll(vars, pairs), name) == Values(vars, name) + Named(pairs, name)
    ensures Distinct(AddAll(vars, pairs))
    decreases |pairs|
  {
    hide Distinct, AddTrimmed, Values;
    if pairs != [] {
      var n, v := TrimBlank(pairs[0].name), pairs[0].value;
      AddTrimmedValues(vars, n, v, name);
      AddDistinct(vars, pairs[0].name, v);
      VariablesAreAMap(Add(vars, pairs[0].name, v), pairs[1..], name);
      assert Named(pairs, name) == (if n == name then [v] else []) + Named(pairs[1..], name);
    }
  }

  // ---------- The query parser, character by character ----------

  /** What _httpd_storeData holds between two characters: the name buffer, how much of it is written, and
      where the value begins (-1: not yet). */
  datatype Scan = Scan(vars: seq<Var>, buf: seq<char>, n: nat, val: int)

  /** The value a stretch of query text stands for. */
  function Value(v: string): (r: string) {
    CString(Unescape(v))
  }

  function Put(buf: seq<char>, n: nat, c: char): (r: seq<char>)
    ensures |r| == |buf|
  {
    if n < |buf| then buf[n := c] else buf
  }

  function Feed(q: string, i: nat, st: Scan): (r: Scan)
    requires i < |q|
    ensures |r.buf| == |st.buf|
  {
    if q[i] == '=' then st.(buf := Put(st.buf, st.n, '\0'), val := i + 1)
    else if q[i] == '&' then
      Scan(Add(st.vars, CString(st.buf), if 0 <= st.val <= i then Value(q[st.val..i]) else ""), st.buf, 0, -1)
    else if st.val >= 0 then st
    else st.(buf := Put(st.buf, st.n, q[i]), n := st.n + 1)
  }

  function FeedAll(q: string, i: nat, st: Scan): (r: seq<Var>)
    decreases |q| - i
  {
    if i < |q| then FeedAll(q, i + 1, Feed(q, i, st))
    else if 0 <= st.val <= |q| then Add(st.vars, CString(st.buf), Value(q[st.val..]))
    else st.vars
  }

  function Zeros(n: nat): (s: seq<char>)
    ensures |s| == n
  {
    seq(n, _ => '\0')
  }

  /** _httpd_storeData */
  function Store(vars: seq<Var>, q: string): (r: seq<Var>) {
    FeedAll(q, 0, Scan(vars, Zeros(|q|), 0, -1))
  }

  // ---------- The same by pieces ----------

  /** The text up to the first `c`. */
  function UpTo(s: string, c: char): (r: string)
    ensures |r| <= |s|
  {
    if s == "" || s[0] == c then "" else [s[0]] + UpTo(s[1..], c)
  }

  lemma {:induction false} UpToSays(s: string, c: char)
    ensures var r := UpTo(s, c); r == s[..|r|] && c !in r && (|r| < |s| ==> s[|r|] == c)
  {
    if s != "" && s[0] != c {
      UpToSays(s[1..], c);
      assert s == [s[0]] + s[1..];
    }
  }

  lemma {:induction false} UpToIs(s: string, c: char, k: nat)
    requires k <= |s| && c !in s[..k] && (k < |s| ==> s[k] == c)
    ensures UpTo(s, c) == s[..k]
  {
    if k > 0 {
      assert s[..k][0] == s[0] && s[..k][1..] == s[1..][..k - 1];
      UpToIs(s[1..], c, k - 1);
      assert s[..k] == [s[0]] + s[1..][..k - 1];
    }
  }

  /** The text after the last `=`, all of it when there is none. */
  function AfterLast(s: string): (r: string)
    ensures |r| <= |s|
  {
    var n := UpTo(s, '=');
    if |n| < |s| then AfterLast(s[|n| + 1..]) else s
  }

  lemma {:induction false} AfterLastSays(s: string)
    ensures var r := AfterLast(s); r == s[|s| - |r|..]
    decreases |s|
  {
    var n := UpTo(s, '=');
    if |n| < |s| {
      AfterLastSays(s[|n| + 1..]);
    }
  }

  function Over(buf: seq<char>, s: string): (r: seq<char>)
    ensures |r| == |buf|
  {
    if |s| <= |buf| then s + buf[|s|..] else buf
  }

  /** The pairs of a query.  A piece without `=` that is not the last leaves the rest of an older name
      in the buffer. */
  function Pairs(q: string, buf: seq<char>): (r: seq<Pair>)
    decreases |q|
  {
    var p := UpTo(q, '&');
    var n := UpTo(p, '=');
    if |p| == |q| then
      (if |n| == |p| then [] else [Pair(n, Value(AfterLast(p)))])
    else if |n| == |p| then
      [Pair(CString(Over(buf, p)), "")] + Pairs(q[|p| + 1..], Over(buf, p))
    else
      [Pair(n, Value(AfterLast(p)))] + Pairs(q[|p| + 1..], Over(buf, n + ['\0']))
  }

  /** Characters of a name. */
  lemma {:induction false} FeedName(q: string, i: nat, j: nat, st: Scan)
    requires i <= j <= |q| && st.val < 0 && st.n + j - i <= |st.buf|
    requires '=' !in q[i..j] && '&' !in q[i..j]
    ensures FeedAll(q, i, st) ==
      FeedAll(q, j, st.(buf := st.buf[..st.n] + q[i..j] + st.buf[st.n + j - i..], n := st.n + j - i))
    decreases j - i
  {
    hide FeedAll;
    if i == j {
      assert st.buf[..st.n] + q[i..j] + st.buf[st.n..] == st.buf;
    } else {
      assert q[i..j][0] == q[i] && q[i..j][1..] == q[i + 1..j];
      FeedOnce(q, i, st);
      var st' := Feed(q, i, st);
      FeedName(q, i + 1, j, st');
      assert st'.buf[..st'.n] == st.buf[..st.n] + [q[i]];
      assert [q[i]] + q[i + 1..j] == q[i..j];
      assert st'.buf[st'.n + j - i - 1..] == st.buf[st.n + j - i..];
      assert st.buf[..st.n] + [q[i]] + q[i + 1..j] == st.buf[..st.n] + q[i..j];
    }
  }

  /** Characters of a value: the last `=` counts. */
  lemma {:induction false} FeedValue(q: string, i: nat, j: nat, st: Scan)
    requires 0 <= st.val <= i <= j <= |q| && st.n < |st.buf| && st.buf[st.n] == '\0'
    requires '=' !in q[st.val..i] && '&' !in q[i..j]
    ensures FeedAll(q, i, st) == FeedAll(q, j, st.(val := j - |AfterLast(q[st.val..j])|))
    decreases j - i
  {
    hide FeedAll, AfterLast, UpTo, Feed;
    var v := q[st.val..j];
    if i == j {
      NoEquals(v);
      assert st.val == j - |v|;
    } else {
      assert q[i..j][0] == q[i] && q[i..j][1..] == q[i + 1..j];
      FeedOnce(q, i, st);
      FedValue(q, i, st);
      var st' := Feed(q, i, st);
      if q[i] == '=' {
        assert q[i + 1..i + 1] == "";
        FeedValue(q, i + 1, j, st');
        assert v[i - st.val] == '=' && v[..i - st.val] == q[st.val..i];
        AfterEquals(v, i - st.val);
        assert v[i - st.val + 1..] == q[i + 1..j];
      } else {
        assert q[st.val..i + 1] == q[st.val..i] + [q[i]];
        FeedValue(q, i + 1, j, st');
      }
    }
  }

  lemma FeedOnce(q: string, i: nat, st: Scan)
    requires i < |q|
    ensures FeedAll(q, i, st) == FeedAll(q, i + 1, Feed(q, i, st))
  {
  }

  lemma FedValue(q: string, i: nat, st: Scan)
    requires i < |q| && 0 <= st.val && st.n < |st.buf| && st.buf[st.n] == '\0' && q[i] != '&'
    ensures Feed(q, i, st) == if q[i] == '=' then st.(val := i + 1) else st
  {
    assert st.buf[st.n := '\0'] == st.buf;
  }

  lemma NoEquals(v: string)
    requires '=' !in v
    ensures AfterLast(v) == v
  {
    UpToIs(v, '=', |v|);
    assert v[..|v|] == v;
  }

  lemma AfterEquals(v: string, k: nat)
    requires k < |v| && v[k] == '=' && '=' !in v[..k]
    ensures AfterLast(v) == AfterLast(v[k + 1..])
  {
    UpToIs(v, '=', k);
  }

  lemma InPart(s: string, i: nat, j: nat, c: char)
    requires i <= j <= |s| && c !in s
    ensures c !in s[i..j]
  {
  }

  lemma NameFed(q: string, i: nat, k: nat, vars: seq<Var>, buf: seq<char>)
    requires i <= k <= |q| && k - i <= |buf| && '=' !in q[i..k] && '&' !in q[i..k]
    ensures FeedAll(q, i, Scan(vars, buf, 0, -1)) == FeedAll(q, k, Scan(vars, Over(buf, q[i..k]), k - i, -1))
  {
    hide FeedAll;
    FeedName(q, i, k, Scan(vars, buf, 0, -1));
    assert buf[..0] + q[i..k] + buf[k - i..] == Over(buf, q[i..k]);
  }

  lemma ValueFed(q: string, k: nat, j: nat, vars: seq<Var>, buf: seq<char>, n: string)
    requires k < j <= |q| && q[k] == '=' && '&' !in q[k + 1..j] && |n| < |buf|
    ensures FeedAll(q, k, Scan(vars, Over(buf, n), |n|, -1)) ==
      FeedAll(q, j, Scan(vars, Over(buf, n + ['\0']), |n|, j - |AfterLast(q[k + 1..j])|))
  {
    hide FeedAll, AfterLast, Feed;
    FeedOnce(q, k, Scan(vars, Over(buf, n), |n|, -1));
    EqualsFed(q, k, vars, buf, n);
    assert q[k + 1..k + 1] == "";
    FeedValue(q, k + 1, j, Scan(vars, Over(buf, n + ['\0']), |n|, k + 1));
  }

  /** Where a piece, its name and its value lie in the query. */
  lemma PieceShape(q: string, i: nat, p: string, n: string)
    requires i <= |q| && p == UpTo(q[i..], '&') && n == UpTo(p, '=')
    ensures |n| <= |p| && i + |p| <= |q| && (i + |p| < |q| ==> q[i + |p|] == '&')
    ensures p == q[i..i + |p|] && n == q[i..i + |n|] && '=' !in n && '&' !in n
    ensures '\0' !in q ==> '\0' !in n
    ensures |n| < |p| ==> q[i + |n|] == '=' && '&' !in q[i + |n| + 1..i + |p|]
    ensures |n| < |p| ==> AfterLast(p) == AfterLast(q[i + |n| + 1..i + |p|])
    ensures q[i + |p| - |AfterLast(p)|..i + |p|] == AfterLast(p)
  {
    hide UpTo, AfterLast;
    UpToSays(q[i..], '&');
    UpToSays(p, '=');
    AfterLastSays(p);
    var j, k := i + |p|, i + |n|;
    assert p == q[i..j] && n == q[i..k] == p[0..|n|];
    InPart(p, 0, |n|, '&');
    if '\0' !in q {
      InPart(q, i, k, '\0');
    }
    if |n| < |p| {
      assert q[k] == p[|n|] && q[k + 1..j] == p[|n| + 1..|p|] == p[|n| + 1..];
      InPart(p, |n| + 1, |p|, '&');
      AfterEquals(p, |n|);
    }
  }

  /** One piece is read. */
  lemma PieceFed(q: string, i: nat, vars: seq<Var>, buf: seq<char>, p: string, n: string)
    requires i <= |q| && |q| - i <= |buf| && p == UpTo(q[i..], '&') && n == UpTo(p, '=')
    ensures FeedAll(q, i, Scan(vars, buf, 0, -1)) == FeedAll(q, i + |p|,
      if |n| < |p| then Scan(vars, Over(buf, n + ['\0']), |n|, i + |p| - |AfterLast(p)|)
      else Scan(vars, Over(buf, p), |p|, -1))
  {
    hide FeedAll, AfterLast, UpTo, Feed, Over;
    PieceShape(q, i, p, n);
    NameFed(q, i, i + |n|, vars, buf);
    if |n| < |p| {
      ValueFed(q, i + |n|, i + |p|, vars, buf, n);
    } else {
      assert n == p;
    }
  }

  lemma EqualsFed(q: string, k: nat, vars: seq<Var>, buf: seq<char>, n: string)
    requires k < |q| && q[k] == '=' && |n| < |buf|
    ensures Feed(q, k, Scan(vars, Over(buf, n), |n|, -1)) == Scan(vars, Over(buf, n + ['\0']), |n|, k + 1)
    ensures Over(buf, n + ['\0'])[|n|] == '\0'
  {
    assert Over(buf, n)[|n| := '\0'] == n + ['\0'] + buf[|n| + 1..];
  }

  lemma FeedEnd(q: string, st: Scan)
    ensures FeedAll(q, |q|, st) ==
      if 0 <= st.val <= |q| then Add(st.vars, CString(st.buf), Value(q[st.val..])) else st.vars
  {
  }

  lemma FeedAmp(q: string, j: nat, st: Scan)
    requires j < |q| && q[j] == '&'
    ensures FeedAll(q, j, st) == FeedAll(q, j + 1,
      Scan(Add(st.vars, CString(st.buf), if 0 <= st.val <= j then Value(q[st.val..j]) else ""), st.buf, 0, -1))
  {
  }

  lemma AddFirst(vars: seq<Var>, p: Pair, pairs: seq<Pair>)
    ensures AddAll(vars, [p] + pairs) == AddAll(Add(vars, p.name, p.value), pairs)
    ensures AddAll(vars, []) == vars
    ensures AddAll(vars, [p]) == Add(vars, p.name, p.value)
  {
    assert ([p] + pairs)[1..] == pairs;
    assert [p][1..] == [];
  }

  /** A name that was terminated is read back. */
  lemma NameRead(buf: seq<char>, n: string)
    requires |n| < |buf| && '\0' !in n
    ensures CString(Over(buf, n + ['\0'])) == n
  {
    CStringOf(n, Over(buf, n + ['\0']));
  }

  /** What is left to read after the piece that ends at `j`. */
  function Onward(q: string, j: nat, vars: seq<Var>, buf: seq<char>): (r: seq<Var>) {
    if j < |q| then FeedAll(q, j + 1, Scan(vars, buf, 0, -1)) else vars
  }

  lemma FeedCloses(q: string, j: nat, vars: seq<Var>, buf: seq<char>, n: nat, val: nat, v: string)
    requires val <= j <= |q| && (j < |q| ==> q[j] == '&') && q[val..j] == v
    ensures FeedAll(q, j, Scan(vars, buf, n, val)) == Onward(q, j, Add(vars, CString(buf), Value(v)), buf)
  {
    hide FeedAll, Add, CString, Value;
    if j == |q| {
      assert q[val..j] == q[val..];
      FeedEnd(q, Scan(vars, buf, n, val));
    } else {
      FeedAmp(q, j, Scan(vars, buf, n, val));
    }
  }

  lemma FeedClosesBare(q: string, j: nat, vars: seq<Var>, buf: seq<char>, n: nat)
    requires j <= |q| && (j < |q| ==> q[j] == '&')
    ensures FeedAll(q, j, Scan(vars, buf, n, -1)) ==
      if j < |q| then Onward(q, j, Add(vars, CString(buf), ""), buf) else vars
  {
    hide FeedAll, Add, CString;
    if j == |q| {
      FeedEnd(q, Scan(vars, buf, n, -1));
    } else {
      FeedAmp(q, j, Scan(vars, buf, n, -1));
    }
  }

  /** The end of a piece with a value. */
  lemma ValuePieceEnds(q: string, i: nat, vars: seq<Var>, buf: seq<char>, p: string, n: string)
    requires i <= |q| && |q| - i <= |buf| && '\0' !in q && p == UpTo(q[i..], '&') && n == UpTo(p, '=') && |n| < |p|
    ensures FeedAll(q, i, Scan(vars, buf, 0, -1)) ==
            Onward(q, i + |p|, Add(vars, n, Value(AfterLast(p))), Over(buf, n + ['\0']))
  {
    hide *;
    PieceFed(q, i, vars, buf, p, n);
    PieceShape(q, i, p, n);
    NameRead(buf, n);
    FeedCloses(q, i + |p|, vars, Over(buf, n + ['\0']), |n|, i + |p| - |AfterLast(p)|, AfterLast(p));
  }

  /** The end of a piece without one. */
  lemma BarePieceEnds(q: string, i: nat, vars: seq<Var>, buf: seq<char>, p: string)
    requires i <= |q| && |q| - i <= |buf| && p == UpTo(q[i..], '&') && |UpTo(p, '=')| == |p|
    ensures FeedAll(q, i, Scan(vars, buf, 0, -1)) ==
            if i + |p| < |q| then Onward(q, i + |p|, Add(vars, CString(Over(buf, p)), ""), Over(buf, p)) else vars
  {
    hide *;
    PieceFed(q, i, vars, buf, p, UpTo(p, '='));
    PieceShape(q, i, p, UpTo(p, '='));
    FeedClosesBare(q, i + |p|, vars, Over(buf, p), |p|);
  }

  /** Main result: character by character or piece by piece, the query stores the same pairs. */
  lemma {:induction false} FeedIsPairs(q: string, i: nat, vars: seq<Var>, buf: seq<char>)
    requires i <= |q| && |q| - i <= |buf| && '\0' !in q
    ensures FeedAll(q, i, Scan(vars, buf, 0, -1)) == AddAll(vars, Pairs(q[i..], buf))
    decreases |q| - i
  {
    hide FeedAll, AfterLast, UpTo, Feed, AddAll, Add, CString, Value, Over;
    var s := q[i..];
    var p := UpTo(s, '&');
    var n := UpTo(p, '=');
    if |n| < |p| {
      ValuePieceEnds(q, i, vars, buf, p, n);
    } else {
      BarePieceEnds(q, i, vars, buf, p);
    }
    PieceShape(q, i, p, n);
    var pair := if |n| < |p| then Pair(n, Value(AfterLast(p))) else Pair(CString(Over(buf, p)), "");
    var b := if |n| < |p| then Over(buf, n + ['\0']) else Over(buf, p);
    if |p| == |s| {
      AddFirst(vars, pair, []);
    } else {
      var j := i + |p| + 1;
      FeedIsPairs(q, j, Add(vars, pair.name, pair.value), b);
      assert s[|p| + 1..] == q[j..];
      AddFirst(vars, pair, Pairs(q[j..], b));
    }
  }

  lemma StoreIsPairs(vars: seq<Var>, q: string)
    requires '\0' !in q
    ensures Store(vars, q) == AddAll(vars, Pairs(q, Zeros(|q|)))
  {
    FeedIsPairs(q, 0, vars, Zeros(|q|));
    assert q[0..] == q;
  }

  /** One field, up to the next or to the end. */
  lemma FieldShape(name: string, e: string, rest: string)
    requires '=' !in name && '&' !in name && '=' !in e && '&' !in e && (rest == "" || rest[0] == '&')
    ensures var p := name + "=" + e;
      UpTo(p + rest, '&') == p && UpTo(p, '=') == name && AfterLast(p) == e
  {
    var p := name + "=" + e;
    assert (p + rest)[..|p|] == p;
    UpToIs(p + rest, '&', |p|);
    assert p[..|name|] == name && p[|name|] == '=';
    UpToIs(p, '=', |name|);
    AfterEquals(p, |name|);
    assert p[|name| + 1..] == e;
    NoEquals(e);
  }

  lemma PairsFirst(q: string, buf: seq<char>, p: string, n: string)
    requires p == UpTo(q, '&') && n == UpTo(p, '=') && |n| < |p|
    ensures |p| == |q| ==> Pairs(q, buf) == [Pair(n, Value(AfterLast(p)))]
    ensures |p| < |q| ==>
      Pairs(q, buf) == [Pair(n, Value(AfterLast(p)))] + Pairs(q[|p| + 1..], Over(buf, n + ['\0']))
  {
    hide UpTo, AfterLast, Value, Over;
  }

  // ---------- Names without `=` ----------

  /** The pieces between `&`. */
  function Pieces(q: string): (r: seq<string>)
    ensures |r| >= 1
    decreases |q|
  {
    var p := UpTo(q, '&');
    if |p| == |q| then [p] else [p] + Pieces(q[|p| + 1..])
  }

  predicate Bare(p: string) { |UpTo(p, '=')| == |p| }

  /** What a piece writes into the name buffer. */
  function Written(p: string): (w: string) {
    if Bare(p) then p else UpTo(p, '=') + ['\0']
  }

  /** The name buffer after some pieces. */
  function BufferAfter(pieces: seq<string>, buf: seq<char>): (r: seq<char>)
    ensures |r| == |buf|
  {
    if pieces == [] then buf
    else Over(BufferAfter(pieces[..|pieces| - 1], buf), Written(pieces[|pieces| - 1]))
  }

  /** Nothing of an older name stands behind `n` characters: no piece wrote more than that, or the last
      one that did has a name of exactly `n` characters, with its NUL there. */
  predicate NothingBehind(pieces: seq<string>, n: nat) {
    if pieces == [] then true
    else
      var p := pieces[|pieces| - 1];
      if |Written(p)| > n then !Bare(p) && |UpTo(p, '=')| == n
      else NothingBehind(pieces[..|pieces| - 1], n)
  }

  lemma {:induction false} BufferAfterFirst(p: string, pieces: seq<string>, buf: seq<char>)
    ensures BufferAfter([p] + pieces, buf) == BufferAfter(pieces, Over(buf, Written(p)))
    decreases |pieces|
  {
    var all := [p] + pieces;
    hide Over, Written;
    if pieces == [] {
      assert all[..0] == [] && all[0] == p;
    } else {
      var init := pieces[..|pieces| - 1];
      assert all[..|all| - 1] == [p] + init && all[|all| - 1] == pieces[|pieces| - 1];
      BufferAfterFirst(p, init, buf);
    }
  }

  /** Each piece gives one pair, a last one without `=` none; the name of a bare piece is read from the
      buffer of that moment. */
  lemma {:induction false} PairOfPiece(q: string, buf: seq<char>, j: nat)
    requires j < |Pieces(q)| - 1
    ensures j < |Pairs(q, buf)|
    ensures Bare(Pieces(q)[j]) ==>
      Pairs(q, buf)[j] == Pair(CString(Over(BufferAfter(Pieces(q)[..j], buf), Pieces(q)[j])), "")
    decreases j
  {
    hide *;
    FirstPiece(q, buf);
    var p := UpTo(q, '&');
    var rest := q[|p| + 1..];
    var pieces, more, buf' := Pieces(q), Pieces(rest), Over(buf, Written(p));
    if j == 0 {
      assert pieces[..0] == [];
      NothingWritten(buf);
    } else {
      PairOfPiece(rest, buf', j - 1);
      BufferAfterFirst(p, more[..j - 1], buf);
      PieceAt(p, more, j);
      PairAt(Pairs(q, buf)[0], Pairs(rest, buf'), j);
    }
  }

  lemma NothingWritten(buf: seq<char>)
    ensures BufferAfter([], buf) == buf
  {
  }

  lemma PieceAt(p: string, more: seq<string>, j: nat)
    requires 0 < j <= |more|
    ensures ([p] + more)[j] == more[j - 1] && ([p] + more)[..j] == [p] + more[..j - 1]
  {
  }

  lemma PairAt(p: Pair, more: seq<Pair>, j: nat)
    requires 0 < j <= |more|
    ensures ([p] + more)[j] == more[j - 1]
  {
  }

  /** The first piece, its pair, and what is left. */
  lemma FirstPiece(q: string, buf: seq<char>)
    requires |Pieces(q)| > 1
    ensures var p := UpTo(q, '&');
      && |p| < |q| && Pieces(q) == [p] + Pieces(q[|p| + 1..])
      && Pairs(q, buf) != [] && Pairs(q, buf) == [Pairs(q, buf)[0]] + Pairs(q[|p| + 1..], Over(buf, Written(p)))
      && (Bare(p) ==> Pairs(q, buf)[0] == Pair(CString(Over(buf, p)), ""))
  {
    hide CString, Over, AfterLast, Value, UpTo;
  }

  /** The pieces are made of characters of the query. */
  lemma {:induction false} PieceFits(q: string, j: nat)
    requires j < |Pieces(q)| && '\0' !in q
    ensures '\0' !in Pieces(q)[j] && |Pieces(q)[j]| <= |q| && |Written(Pieces(q)[j])| <= |q|
    decreases |q|
  {
    var p := UpTo(q, '&');
    UpToSays(q, '&');
    UpToSays(p, '=');
    hide UpTo;
    if j == 0 {
      InPart(q, 0, |p|, '\0');
      assert q[0..|p|] == p;
    } else {
      InPart(q, |p| + 1, |q|, '\0');
      PieceFits(q[|p| + 1..], j - 1);
    }
  }

  lemma OverAt(buf: seq<char>, w: string, n: nat)
    requires |w| <= |buf| && n < |buf|
    ensures Over(buf, w)[n] == if n < |w| then w[n] else buf[n]
  {
  }

  /** The character behind `n` in the buffer. */
  lemma {:induction false} BehindName(pieces: seq<string>, buf: seq<char>, n: nat)
    requires n < |buf| && buf[n] == '\0'
    requires forall k | 0 <= k < |pieces| :: '\0' !in pieces[k] && |Written(pieces[k])| <= |buf|
    ensures BufferAfter(pieces, buf)[n] == '\0' <==> NothingBehind(pieces, n)
    decreases |pieces|
  {
    if pieces != [] {
      var init, p := pieces[..|pieces| - 1], pieces[|pieces| - 1];
      forall k | 0 <= k < |init| ensures '\0' !in init[k] && |Written(init[k])| <= |buf| {
        assert init[k] == pieces[k];
      }
      BehindName(init, buf, n);
      OverAt(BufferAfter(init, buf), Written(p), n);
      UpToSays(p, '=');
      hide UpTo, Over, BufferAfter;
      WrittenAt(p, n);
    }
  }

  lemma WrittenAt(p: string, n: nat)
    requires '\0' !in p
    ensures n < |Written(p)| ==> (Written(p)[n] == '\0' <==> !Bare(p) && |UpTo(p, '=')| == n)
  {
    UpToSays(p, '=');
    hide UpTo;
  }

  /** The name of a piece without `=` is read with what an older name left behind it. */
  lemma {:induction false} BareName(buf: seq<char>, p: string)
    requires |p| <= |buf| && '\0' !in p
    ensures CString(Over(buf, p)) == p + CString(buf[|p|..])
    ensures CString(Over(buf, p)) == p <==> |p| == |buf| || buf[|p|] == '\0'
    decreases |p|
  {
    if p == "" {
      assert Over(buf, p) == buf == buf[0..];
      assert "" + CString(buf) == CString(buf);
    } else {
      assert p[0] in p && '\0' !in p[1..];
      var b := Over(buf, p);
      BareName(buf[1..], p[1..]);
      assert b[1..] == Over(buf[1..], p[1..]);
      assert buf[1..][|p| - 1..] == buf[|p|..];
      assert [p[0]] + (p[1..] + CString(buf[|p|..])) == p + CString(buf[|p|..]);
      assert p == [p[0]] + p[1..];
    }
  }

  /** Main result: a piece without `=` that is not the last of its query is stored under its own text if
      and only if no earlier piece left anything behind that many characters. */
  lemma BarePieceStored(q: string, j: nat)
    requires '\0' !in q && j < |Pieces(q)| - 1 && Bare(Pieces(q)[j])
    ensures Store([], q) == AddAll([], Pairs(q, Zeros(|q|))) && j < |Pairs(q, Zeros(|q|))|
    ensures Pairs(q, Zeros(|q|))[j].name == Pieces(q)[j] <==> NothingBehind(Pieces(q)[..j], |Pieces(q)[j]|)
  {
    var zeros, pieces := Zeros(|q|), Pieces(q);
    var p, before := pieces[j], pieces[..j];
    StoreIsPairs([], q);
    PairOfPiece(q, zeros, j);
    forall k | 0 <= k < |pieces|
      ensures '\0' !in pieces[k] && |Written(pieces[k])| <= |q| && |pieces[k]| <= |q|
    {
      PieceFits(q, k);
    }
    forall k | 0 <= k < |before| ensures '\0' !in before[k] && |Written(before[k])| <= |zeros| {
      assert before[k] == pieces[k];
    }
    BarePieceIsShort(q, j);
    assert |p| < |zeros|;
    BareName(BufferAfter(before, zeros), p);
    BehindName(before, zeros, |p|);
  }

  /** A piece that is not the last leaves room for its `&`. */
  lemma {:induction false} BarePieceIsShort(q: string, j: nat)
    requires j < |Pieces(q)| - 1
    ensures |Pieces(q)[j]| < |q|
    decreases j
  {
    var p := UpTo(q, '&');
    hide UpTo;
    if j > 0 {
      BarePieceIsShort(q[|p| + 1..], j - 1);
    }
  }

  /** A field and then a bare piece. */
  lemma PairsOfTwo(n: string, v: string, p: string, buf: seq<char>)
    requires '=' !in n && '&' !in n && '=' !in v && '&' !in v && '=' !in p && '&' !in p
    ensures Pairs(n + "=" + v + ("&" + (p + "&")), buf) ==
            [Pair(n, Value(v)), Pair(CString(Over(Over(buf, n + ['\0']), p)), "")]
  {
    var f, rest := n + "=" + v, p + "&";
    var b := Over(buf, n + ['\0']);
    FieldShape(n, v, "&" + rest);
    PairsFirst(f + ("&" + rest), buf, f, n);
    assert (f + ("&" + rest))[|f| + 1..] == rest;
    assert rest[..|p|] == p && rest[|p| + 1..] == "" && p[..|p|] == p;
    UpToIs(rest, '&', |p|);
    UpToIs(p, '=', |p|);
    NoPairs(Over(b, p));
    hide Value, CString, Over, UpTo;
    assert Pairs(rest, b) == [Pair(CString(Over(b, p)), "")] + [];
  }

  lemma NoPairs(buf: seq<char>)
    ensures Pairs("", buf) == []
  {
  }

  /** A query that goes wrong: its second name is read as `xbc`. */
  lemma StaleName()
    ensures var vars := Store([], "abc=1&x&"); Values(vars, "xbc") == [""] && Values(vars, "x") == []
  {
    var q, zeros := "abc=1&x&", Zeros(8);
    assert q == "abc" + "=" + "1" + ("&" + ("x" + "&"));
    PairsOfTwo("abc", "1", "x", zeros);
    StaleBuffer(Over(zeros, "abc" + ['\0']));
    StoreIsPairs([], q);
    var pairs := Pairs(q, zeros);
    VariablesAreAMap([], pairs, "xbc");
    VariablesAreAMap([], pairs, "x");
    StaleNamed(Pair("abc", Value("1")), "xbc", "x");
    assert Values([], "xbc") == [] && Values([], "x") == [];
    hide Pairs, Store, Named, Values, AddAll;
  }

  lemma StaleBuffer(b: seq<char>)
    requires b == Over(Zeros(8), "abc" + ['\0'])
    ensures CString(Over(b, "x")) == "xbc"
  {
    var c := Over(b, "x");
    assert c[0] == 'x' && c[1] == 'b' && c[2] == 'c' && c[3] == '\0';
    assert "xbc" + ['\0'] <= c;
    CStringOf("xbc", c);
  }

  lemma StaleNamed(first: Pair, n: string, m: string)
    requires first.name == "abc" && n == "xbc" && m == "x"
    ensures Named([first, Pair(n, "")], n) == [""] && Named([first, Pair(n, "")], m) == []
  {
    var pairs := [first, Pair(n, "")];
    assert pairs[1..] == [Pair(n, "")] && pairs[1..][1..] == [];
    assert TrimBlank("abc") == "abc" && TrimBlank("xbc") == "xbc";
    assert "abc"[0] == 'a' && "xbc"[0] == 'x' && |m| == 1;
    assert Named(pairs[1..], n) == [""] && Named(pairs[1..], m) == [];
  }
}
