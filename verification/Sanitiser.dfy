/** _httpd_sanitiseUrl of libhttpd/protocol.c: three passes over a buffer, each in place. */
module Sanitiser {

  // ---------- The passes on strings ----------

  /** Pass 1 drops a slash before a slash. */
  function Collapse(s: string): (r: string)
    ensures |r| <= |s|
  {
    if s == "" then ""
    else if s[0] == '/' && |s| > 1 && s[1] == '/' then Collapse(s[1..])
    else [s[0]] + Collapse(s[1..])
  }

  /** Pass 2 drops `/.` before a slash. */
  function DropDots(s: string): (r: string)
    ensures |r| <= |s|
  {
    if s == "" then ""
    else if s[0] == '/' && |s| > 2 && s[1] == '.' && s[2] == '/' then DropDots(s[2..])
    else [s[0]] + DropDots(s[1..])
  }

  predicate StartsUp(s: string) {
    |s| > 3 && s[0] == '/' && s[1] == '.' && s[2] == '.' && s[3] == '/'
  }

  /** Pass 3: `out` is what has been written, `last` the place of the last slash written.  At `/../`
      the output is cut back to `last`. */
  function GoUp(s: string, out: string, last: nat): (r: string)
    requires last <= |out|
    ensures |r| <= |out| + |s|
    decreases |s|
  {
    if s == "" then out
    else if StartsUp(s) then GoUp(s[3..], out[..last], last)
    else GoUp(s[1..], out + [s[0]], if s[0] == '/' then |out| else last)
  }

  function Sanitise(s: string): (r: string)
    ensures |r| <= |s|
  {
    GoUp(DropDots(Collapse(s)), "", 0)
  }

  // ---------- The passes in place ----------

  /** The string a buffer holds: its characters up to the first NUL. */
  function CString(b: seq<char>): (s: string)
    ensures |s| <= |b|
  {
    if b == [] || b[0] == '\0' then "" else [b[0]] + CString(b[1..])
  }

  predicate Terminated(b: seq<char>) {
    '\0' in b
  }

  lemma {:induction false} CStringAt(b: seq<char>, k: nat)
    requires k <= |CString(b)|
    ensures k < |b| && b[k] != '\0' ==> k < |CString(b)|
    ensures k < |CString(b)| ==> k < |b| && CString(b)[k] == b[k] != '\0'
    ensures k == |CString(b)| < |b| ==> b[k] == '\0'
    ensures Terminated(b) ==> |CString(b)| < |b|
    ensures CString(b[k..]) == CString(b)[k..]
    decreases |b|
  {
    if b != [] {
      assert b == [b[0]] + b[1..];
      if b[0] == '\0' {
        assert b[k..] == b;
      } else if k > 0 {
        CStringAt(b[1..], k - 1);
        assert b[k..] == b[1..][k - 1..];
      } else {
        CStringAt(b[1..], 0);
        assert b[0..] == b;
      }
    }
  }

  /** Text without NUL followed by NUL is read back. */
  lemma {:induction false} CStringOf(s: string, b: seq<char>)
    requires '\0' !in s && s + ['\0'] <= b
    ensures CString(b) == s
    decreases |s|
  {
    if s != "" {
      assert b[0] == s[0] && s[0] in s;
      assert s == [s[0]] + s[1..];
      CStringOf(s[1..], b[1..]);
    } else {
      assert b[0] == '\0';
    }
  }

  /** The state of a pass: `kept` has been written, `rest` is still to be read, both in the buffer. */
  predicate Mid(b: seq<char>, to: nat, from: nat, kept: string, rest: string) {
    && to <= from < |b| && b[..to] == kept && '\0' !in kept
    && Terminated(b[from..]) && CString(b[from..]) == rest
  }

  /** Reading `k` characters ahead. */
  lemma Ahead(b: seq<char>, to: nat, from: nat, kept: string, rest: string, k: nat)
    requires Mid(b, to, from, kept, rest) && k <= |rest|
    ensures from + k < |b| && (if k < |rest| then b[from + k] == rest[k] != '\0' else b[from + k] == '\0')
    ensures Mid(b, to, from + k, kept, rest[k..])
  {
    CStringAt(b[from..], k);
    CStringAt(b[from..], |rest|);
    assert b[from..][k..] == b[from + k..];
    assert b[from..][|rest|] == '\0' == b[from + k..][|rest| - k];
  }

  /** What the loop test sees. */
  lemma Here(b: seq<char>, to: nat, from: nat, kept: string, rest: string)
    requires Mid(b, to, from, kept, rest)
    ensures to <= from < |b| && (b[from] != '\0' <==> rest != "")
    ensures rest != "" ==> b[from] == rest[0]
  {
    Ahead(b, to, from, kept, rest, 0);
  }

  /** Copying one character. */
  lemma Copied(b: seq<char>, to: nat, from: nat, kept: string, rest: string)
    requires Mid(b, to, from, kept, rest) && rest != ""
    ensures to < |b| && Mid(b[to := rest[0]], to + 1, from + 1, kept + [rest[0]], rest[1..])
  {
    Ahead(b, to, from, kept, rest, 0);
    Ahead(b, to, from, kept, rest, 1);
    var b' := b[to := rest[0]];
    assert b'[from + 1..] == b[from + 1..];
    assert b'[..to + 1] == kept + [rest[0]];
  }

  /** Cutting the output back. */
  lemma CutBack(b: seq<char>, to: nat, from: nat, kept: string, rest: string, last: nat)
    requires Mid(b, to, from, kept, rest) && last <= to
    ensures last <= |kept| && Mid(b, last, from, kept[..last], rest)
  {
    assert b[..last] == kept[..last];
  }

  lemma Finished(b: seq<char>, to: nat, from: nat, kept: string)
    requires Mid(b, to, from, kept, "")
    ensures to < |b| && CString(b[to := '\0']) == kept && Terminated(b[to := '\0'])
  {
    var b' := b[to := '\0'];
    assert b'[to] == '\0';
    assert kept + ['\0'] <= b';
    CStringOf(kept, b');
  }

  lemma Begin(b: seq<char>)
    requires Terminated(b)
    ensures |b| > 0 && Mid(b, 0, 0, "", CString(b))
    ensures Collapse("") == DropDots("") == ""
  {
    assert b[0..] == b && b[..0] == [];
  }

  lemma CollapseOnce(kept: string, rest: string)
    requires rest != ""
    ensures rest[0] == '/' && |rest| > 1 && rest[1] == '/' ==> Collapse(rest) == Collapse(rest[1..])
    ensures !(rest[0] == '/' && |rest| > 1 && rest[1] == '/') ==>
      kept + Collapse(rest) == kept + [rest[0]] + Collapse(rest[1..])
  {
    assert kept + ([rest[0]] + Collapse(rest[1..])) == kept + [rest[0]] + Collapse(rest[1..]);
  }

  lemma DropDotsOnce(kept: string, rest: string)
    requires rest != ""
    ensures rest[0] == '/' && |rest| > 2 && rest[1] == '.' && rest[2] == '/' ==> DropDots(rest) == DropDots(rest[2..])
    ensures !(rest[0] == '/' && |rest| > 2 && rest[1] == '.' && rest[2] == '/') ==>
      kept + DropDots(rest) == kept + [rest[0]] + DropDots(rest[1..])
  {
    assert kept + ([rest[0]] + DropDots(rest[1..])) == kept + [rest[0]] + DropDots(rest[1..]);
  }

  lemma GoUpOnce(kept: string, rest: string, last: nat)
    requires rest != "" && last <= |kept|
    ensures GoUp(rest, kept, last) ==
      if StartsUp(rest) then GoUp(rest[3..], kept[..last], last)
      else GoUp(rest[1..], kept + [rest[0]], if rest[0] == '/' then |kept| else last)
  {
  }

  lemma GoUpDone(kept: string, last: nat)
    requires last <= |kept|
    ensures GoUp("", kept, last) == kept
  {
  }

  method CollapsePass(url: array<char>)
    requires Terminated(url[..])
    modifies url
    ensures Terminated(url[..]) && CString(url[..]) == Collapse(old(CString(url[..])))
  {
    hide Mid, Terminated, CString, Collapse;
    Begin(url[..]);
    ghost var kept, rest := "", CString(url[..]);
    var from, to := 0, 0;
    Here(url[..], to, from, kept, rest);
    while url[from] != '\0'
      invariant to <= from < url.Length && Mid(url[..], to, from, kept, rest)
      invariant url[from] != '\0' <==> rest != ""
      invariant kept + Collapse(rest) == old(Collapse(CString(url[..])))
      decreases |rest|
    {
      CollapseOnce(kept, rest);
      Here(url[..], to, from, kept, rest);
      Ahead(url[..], to, from, kept, rest, 1);
      if url[from] == '/' && url[from + 1] == '/' {
        from := from + 1;
      } else {
        Copied(url[..], to, from, kept, rest);
        url[to] := url[from];
        to := to + 1;
        from := from + 1;
        kept := kept + [rest[0]];
      }
      rest := rest[1..];
      Here(url[..], to, from, kept, rest);
    }
    Finished(url[..], to, from, kept);
    url[to] := '\0';
  }

  method DropDotsPass(url: array<char>)
    requires Terminated(url[..])
    modifies url
    ensures Terminated(url[..]) && CString(url[..]) == DropDots(old(CString(url[..])))
  {
    hide Mid, Terminated, CString, DropDots;
    Begin(url[..]);
    ghost var kept, rest := "", CString(url[..]);
    var from, to := 0, 0;
    Here(url[..], to, from, kept, rest);
    while url[from] != '\0'
      invariant to <= from < url.Length && Mid(url[..], to, from, kept, rest)
      invariant url[from] != '\0' <==> rest != ""
      invariant kept + DropDots(rest) == old(DropDots(CString(url[..])))
      decreases |rest|
    {
      DropDotsOnce(kept, rest);
      Here(url[..], to, from, kept, rest);
      Ahead(url[..], to, from, kept, rest, 1);
      if |rest| > 1 { Ahead(url[..], to, from, kept, rest, 2); }
      if url[from] == '/' && url[from + 1] == '.' && url[from + 2] == '/' {
        from := from + 2;
        rest := rest[2..];
      } else {
        Copied(url[..], to, from, kept, rest);
        url[to] := url[from];
        to := to + 1;
        from := from + 1;
        kept, rest := kept + [rest[0]], rest[1..];
      }
      Here(url[..], to, from, kept, rest);
    }
    Finished(url[..], to, from, kept);
    url[to] := '\0';
  }

  method GoUpPass(url: array<char>)
    requires Terminated(url[..])
    modifies url
    ensures Terminated(url[..]) && CString(url[..]) == GoUp(old(CString(url[..])), "", 0)
  {
    hide Mid, Terminated, CString, GoUp;
    Begin(url[..]);
    ghost var kept, rest := "", CString(url[..]);
    var from, to, last := 0, 0, 0;
    Here(url[..], to, from, kept, rest);
    while url[from] != '\0'
      invariant last <= to <= from < url.Length && to == |kept| && Mid(url[..], to, from, kept, rest)
      invariant url[from] != '\0' <==> rest != ""
      invariant GoUp(rest, kept, last) == old(GoUp(CString(url[..]), "", 0))
      decreases |rest|
    {
      GoUpOnce(kept, rest, last);
      Here(url[..], to, from, kept, rest);
      Ahead(url[..], to, from, kept, rest, 1);
      if |rest| > 1 { Ahead(url[..], to, from, kept, rest, 2); }
      if |rest| > 2 { Ahead(url[..], to, from, kept, rest, 3); }
      if url[from] == '/' && url[from + 1] == '.' && url[from + 2] == '.' && url[from + 3] == '/' {
        CutBack(url[..], to, from + 3, kept, rest[3..], last);
        to := last;
        from := from + 3;
        kept, rest := kept[..last], rest[3..];
      } else {
        Copied(url[..], to, from, kept, rest);
        if url[from] == '/' {
          last := to;
        }
        url[to] := url[from];
        to := to + 1;
        from := from + 1;
        kept, rest := kept + [rest[0]], rest[1..];
      }
      Here(url[..], to, from, kept, rest);
    }
    GoUpDone(kept, last);
    Finished(url[..], to, from, kept);
    url[to] := '\0';
  }

  /** _httpd_sanitiseUrl */
  method SanitiseUrl(url: array<char>)
    requires Terminated(url[..])
    modifies url
    ensures Terminated(url[..]) && CString(url[..]) == Sanitise(old(CString(url[..])))
  {
    CollapsePass(url);
    DropDotsPass(url);
    GoUpPass(url);
  }
}
