/** What the URL sanitiser computes, segment by segment, and how that compares with the
    remove_dot_segments routine of section 5.2.4 of RFC 3986. */
module SanitiserPaths {
  import opened Sanitiser

  // ---------- Segments ----------

  /** The text before the first slash. */
  function Head(s: string): (r: string)
    ensures '/' !in r
  {
    if s == "" || s[0] == '/' then "" else [s[0]] + Head(s[1..])
  }

  /** The texts after each slash, up to the next. */
  function Parts(s: string): (r: seq<string>) {
    if s == "" then []
    else if s[0] == '/' then [Head(s[1..])] + Parts(s[1..])
    else Parts(s[1..])
  }

  function PathOf(t: seq<string>): (s: string) {
    if t == [] then "" else "/" + t[0] + PathOf(t[1..])
  }

  ghost predicate SlashFree(t: seq<string>) {
    forall k | 0 <= k < |t| :: '/' !in t[k]
  }

  lemma {:induction false} PartsOf(s: string)
    ensures s == Head(s) + PathOf(Parts(s)) && SlashFree(Parts(s))
    ensures s != "" && s[0] == '/' ==> Head(s) == "" && Parts(s) != []
  {
    if s != "" {
      var s' := s[1..];
      var h, t := Head(s'), Parts(s');
      PartsOf(s');
      if s[0] == '/' {
        PathOfMore(h, t);
        assert s == "/" + s';
        assert Head(s) == "" && Parts(s) == [h] + t;
      } else {
        assert s == [s[0]] + s';
        assert Head(s) == [s[0]] + h && Parts(s) == t;
        assert [s[0]] + (h + PathOf(t)) == [s[0]] + h + PathOf(t);
      }
    }
  }

  lemma {:induction false} PathParts(w: string, t: seq<string>)
    requires '/' !in w && SlashFree(t)
    ensures Head(w + PathOf(t)) == w && Parts(w + PathOf(t)) == t
    decreases |t|, |w|
  {
    var s := w + PathOf(t);
    if w != "" {
      assert w[0] in w && s[1..] == w[1..] + PathOf(t);
      PathParts(w[1..], t);
    } else if t != [] {
      assert s[1..] == t[0] + PathOf(t[1..]);
      PathParts(t[0], t[1..]);
    }
  }

  lemma PathOfDistinct(t: seq<string>, u: seq<string>)
    requires SlashFree(t) && SlashFree(u) && PathOf(t) == PathOf(u)
    ensures t == u
  {
    PathParts("", t);
    PathParts("", u);
    assert "" + PathOf(t) == "" + PathOf(u);
  }

  /** A slash-free text `w` and then a slash begin `x + r` exactly when `x` is `w` and `r` goes on. */
  lemma Front(x: string, r: string, w: string)
    requires '/' !in x && '/' !in w && (r == "" || r[0] == '/')
    ensures w + "/" <= x + r <==> x == w && r != ""
  {
    var s := x + r;
    if w + "/" <= s {
      assert s[|w|] == '/' && s[..|w|] == w;
      assert x == s[..|x|] == w;
    }
  }

  lemma PathBegins(t: seq<string>)
    ensures PathOf(t) == "" <==> t == []
    ensures t != [] ==> PathOf(t)[0] == '/' && PathOf(t)[1..] == t[0] + PathOf(t[1..])
  {
  }

  // ---------- The passes on segments ----------

  /** Every `x` but a last one is dropped. */
  function Without(x: string, t: seq<string>): (r: seq<string>)
    ensures t != [] ==> r != [] && r[|r| - 1] == t[|t| - 1]
  {
    if |t| <= 1 then t
    else if t[0] == x then Without(x, t[1..])
    else [t[0]] + Without(x, t[1..])
  }

  lemma {:induction false} WithoutKeeps(x: string, t: seq<string>, k: nat)
    requires k < |Without(x, t)|
    ensures Without(x, t)[k] in t && (k < |Without(x, t)| - 1 ==> Without(x, t)[k] != x)
  {
    if |t| > 1 {
      if t[0] == x {
        WithoutKeeps(x, t[1..], k);
      } else if k > 0 {
        WithoutKeeps(x, t[1..], k - 1);
      }
    }
  }

  lemma WithoutSlashFree(x: string, t: seq<string>)
    requires SlashFree(t)
    ensures SlashFree(Without(x, t))
  {
    forall k | 0 <= k < |Without(x, t)| ensures '/' !in Without(x, t)[k] {
      WithoutKeeps(x, t, k);
    }
  }

  lemma {:induction false} CollapseCopies(w: string, r: string)
    requires '/' !in w
    ensures Collapse(w + r) == w + Collapse(r)
  {
    if w == "" {
      assert w + r == r;
    } else {
      assert w[0] in w && (w + r)[1..] == w[1..] + r && (w + r)[0] == w[0];
      CollapseCopies(w[1..], r);
      assert w == [w[0]] + w[1..];
    }
  }

  lemma {:induction false} DropDotsCopies(w: string, r: string)
    requires '/' !in w
    ensures DropDots(w + r) == w + DropDots(r)
  {
    if w == "" {
      assert w + r == r;
    } else {
      assert w[0] in w && (w + r)[1..] == w[1..] + r && (w + r)[0] == w[0];
      DropDotsCopies(w[1..], r);
      assert w == [w[0]] + w[1..];
    }
  }

  lemma PathOfMore(x: string, t: seq<string>)
    ensures PathOf([x] + t) == "/" + (x + PathOf(t))
  {
    assert ([x] + t)[1..] == t;
  }

  lemma {:induction false} CollapsePath(t: seq<string>)
    requires SlashFree(t)
    ensures Collapse(PathOf(t)) == PathOf(Without("", t))
  {
    if t != [] {
      var s, x, t' := PathOf(t), t[0], t[1..];
      PathBegins(t);
      PathBegins(t');
      CollapsePath(t');
      CollapseCopies(x, PathOf(t'));
      Front(x, PathOf(t'), "");
      assert |s| > 1 && s[1] == '/' <==> "/" <= s[1..];
      PathOfMore(x, Without("", t'));
      if x == "" && |t| > 1 {
        assert x + PathOf(t') == PathOf(t');
      } else {
        hide PathOf;
        assert Collapse(s) == "/" + Collapse(s[1..]);
        if |t| == 1 { assert t == [x] + t'; }
        assert Without("", t) == [x] + Without("", t');
      }
    }
  }

  lemma {:induction false} DropDotsPath(t: seq<string>)
    requires SlashFree(t)
    ensures DropDots(PathOf(t)) == PathOf(Without(".", t))
  {
    if t != [] {
      var s, x, t' := PathOf(t), t[0], t[1..];
      PathBegins(t);
      PathBegins(t');
      DropDotsPath(t');
      DropDotsCopies(x, PathOf(t'));
      Front(x, PathOf(t'), ".");
      assert |s| > 2 && s[1] == '.' && s[2] == '/' <==> "./" <= s[1..];
      PathOfMore(x, Without(".", t'));
      if x == "." && |t| > 1 {
        assert s[2..] == s[1..][1..] == PathOf(t');
      } else {
        hide PathOf;
        assert DropDots(s) == "/" + DropDots(s[1..]);
        if |t| == 1 { assert t == [x] + t'; }
        assert Without(".", t) == [x] + Without(".", t');
      }
    }
  }

  function Flat(c: seq<string>): (s: string) {
    if c == [] then "" else Flat(c[..|c| - 1]) + c[|c| - 1]
  }

  /** Pass 3 on segments.  `c` is the output in chunks, the text before the first slash and then a slash
      and a segment each; `can` says that the last chunk may still be taken back.  Only one can: a second
      `..` in a row finds the mark where the first one cut. */
  function Climb(t: seq<string>, c: seq<string>, can: bool): (r: seq<string>)
    decreases t
  {
    if t == [] then c
    else if t[0] == ".." && |t| > 1 then
      Climb(t[1..], if can && c != [] then c[..|c| - 1] else c, false)
    else Climb(t[1..], c + ["/" + t[0]], true)
  }

  lemma {:induction false} GoUpCopies(w: string, r: string, out: string, last: nat)
    requires '/' !in w && last <= |out|
    ensures GoUp(w + r, out, last) == GoUp(r, out + w, last)
    decreases |w|
  {
    if w == "" {
      assert w + r == r && out + w == out;
    } else {
      assert w[0] in w && (w + r)[1..] == w[1..] + r && (w + r)[0] == w[0];
      GoUpCopies(w[1..], r, out + [w[0]], last);
      assert out + [w[0]] + w[1..] == out + w;
    }
  }

  /** The output after taking one chunk back. */
  function Back(c: seq<string>, can: bool): (s: string) {
    if can && c != [] then Flat(c[..|c| - 1]) else Flat(c)
  }

  lemma FlatBack(c: seq<string>, can: bool, x: string)
    ensures Back(c, can) <= Flat(c)
    ensures Back(c, can) == Flat(if can && c != [] then c[..|c| - 1] else c)
    ensures Flat(c + [x]) == Flat(c) + x && Back(c + [x], true) == Flat(c) && Back(c, false) == Flat(c)
  {
    assert (c + [x])[..|c|] == c;
  }

  lemma {:induction false} GoUpText(t: seq<string>, c: seq<string>, can: bool)
    requires SlashFree(t)
    ensures |Back(c, can)| <= |Flat(c)| && GoUp(PathOf(t), Flat(c), |Back(c, can)|) == Flat(Climb(t, c, can))
    decreases |t|
  {
    hide GoUp, Flat, Back, PathOf;
    FlatBack(c, can, "");
    if t == [] {
      GoUpEnd(Flat(c), |Back(c, can)|);
    } else {
      var x := "/" + t[0];
      FlatBack(c, can, x);
      GoUpFirst(t, Flat(c), |Back(c, can)|);
      if t[0] == ".." && |t| > 1 {
        var c' := if can && c != [] then c[..|c| - 1] else c;
        FlatBack(c', false, "");
        assert Flat(c)[..|Back(c, can)|] == Flat(c');
        GoUpText(t[1..], c', false);
      } else {
        FlatBack(c + [x], true, "");
        GoUpText(t[1..], c + [x], true);
      }
    }
  }

  lemma GoUpEnd(out: string, last: nat)
    requires last <= |out|
    ensures GoUp(PathOf([]), out, last) == out
  {
  }

  /** One segment of the third pass. */
  lemma GoUpFirst(t: seq<string>, out: string, last: nat)
    requires SlashFree(t) && t != [] && last <= |out|
    ensures t[0] == ".." && |t| > 1 ==> GoUp(PathOf(t), out, last) == GoUp(PathOf(t[1..]), out[..last], last)
    ensures !(t[0] == ".." && |t| > 1) ==>
      GoUp(PathOf(t), out, last) == GoUp(PathOf(t[1..]), out + ("/" + t[0]), |out|)
  {
    var s, x, p := PathOf(t), t[0], PathOf(t[1..]);
    PathBegins(t);
    PathBegins(t[1..]);
    hide PathOf;
    Front(x, p, "..");
    assert s == "/" + (x + p);
    GoUpRound(x, p, out, last);
  }

  lemma GoUpRound(x: string, p: string, out: string, last: nat)
    requires '/' !in x && last <= |out| && (p == "" || p[0] == '/')
    ensures x == ".." && p != "" ==> GoUp("/" + (x + p), out, last) == GoUp(p, out[..last], last)
    ensures !(x == ".." && p != "") ==> GoUp("/" + (x + p), out, last) == GoUp(p, out + ("/" + x), |out|)
  {
    hide GoUp;
    var s := "/" + (x + p);
    Front(x, p, "..");
    assert s[1..] == x + p;
    assert StartsUp(s) <==> "../" <= s[1..];
    GoUpOnce(out, s, last);
    assert out + [s[0]] == out + "/";
    if x == ".." && p != "" {
      assert s[3..] == p;
    } else {
      GoUpCopies(x, p, out + "/", |out|);
      assert out + "/" + x == out + ("/" + x);
    }
  }

  /** The segments the third pass sees. */
  function Plain(s: string): (t: seq<string>) {
    Without(".", Without("", Parts(s)))
  }

  /** The three passes compute one walk over the segments. */
  lemma SanitiseIsClimb(s: string)
    ensures Sanitise(s) == Flat(Climb(Plain(s), [Head(s)], true))
  {
    PartsOf(s);
    var w, t := Head(s), Parts(s);
    CollapseCopies(w, PathOf(t));
    CollapsePath(t);
    WithoutSlashFree("", t);
    DropDotsCopies(w, PathOf(Without("", t)));
    DropDotsPath(Without("", t));
    WithoutSlashFree(".", Without("", t));
    var u := Plain(s);
    GoUpCopies(w, PathOf(u), "", 0);
    assert "" + w == w == Flat([w]) by { assert [w][..0] == []; assert Flat([]) == ""; }
    GoUpText(u, [w], true);
    assert [w][..0] == [];
  }

  // ---------- What comes out ----------

  predicate Ordinary(x: string) {
    x != "" && x != "." && x != ".."
  }

  ghost predicate AllOrdinary(t: seq<string>) {
    forall k | 0 <= k < |t| :: Ordinary(t[k])
  }

  /** `//`, `/./` or `/../` begins here. */
  predicate Dotted(s: string) {
    "//" <= s || "/./" <= s || "/../" <= s
  }

  /** No `//`, no `/./` and no `/../` anywhere. */
  ghost predicate Clean(s: string) {
    forall k | 0 <= k < |s| :: !Dotted(s[k..])
  }

  function Init(t: seq<string>): (r: seq<string>) {
    if t == [] then [] else t[..|t| - 1]
  }

  function Chunks(t: seq<string>): (c: seq<string>)
    ensures |c| == |t|
  {
    seq(|t|, i requires 0 <= i < |t| => "/" + t[i])
  }

  lemma {:induction false} FlatChunks(h: string, t: seq<string>)
    ensures Flat([h] + Chunks(t)) == h + Flat(Chunks(t))
    ensures t != [] ==> Flat(Chunks(t)) == Flat(Chunks(Init(t))) + ("/" + t[|t| - 1])
  {
    var c := Chunks(t);
    if t == [] {
      assert [h] + c == [h] && [h][..0] == [];
    } else {
      var d := Init(t);
      FlatChunks(h, d);
      assert c[..|c| - 1] == Chunks(d);
      assert ([h] + c)[..|c|] == [h] + Chunks(d);
      assert [h] + c == [h] + Chunks(d) + ["/" + t[|t| - 1]];
      assert Flat([h] + c) == Flat([h] + Chunks(d)) + ("/" + t[|t| - 1]);
      assert h + Flat(Chunks(d)) + ("/" + t[|t| - 1]) == h + (Flat(Chunks(d)) + ("/" + t[|t| - 1]));
    }
  }

  lemma {:induction false} PathOfLast(t: seq<string>, x: string)
    ensures PathOf(t + [x]) == PathOf(t) + ("/" + x)
  {
    if t == [] {
      assert [x][1..] == [] && [] + [x] == [x];
    } else {
      var p := PathOf(t[1..]);
      PathOfLast(t[1..], x);
      PathOfMore(t[0], t[1..] + [x]);
      assert t + [x] == [t[0]] + (t[1..] + [x]);
      assert PathOf(t) == "/" + t[0] + p;
      assert "/" + (t[0] + (p + ("/" + x))) == "/" + t[0] + p + ("/" + x);
    }
  }

  lemma {:induction false} FlatIsPath(t: seq<string>)
    ensures Flat(Chunks(t)) == PathOf(t)
  {
    if t != [] {
      FlatIsPath(Init(t));
      FlatChunks("", t);
      PathOfLast(Init(t), t[|t| - 1]);
      assert Init(t) + [t[|t| - 1]] == t;
    }
  }

  lemma OrdinaryEnds(d: seq<string>)
    requires AllOrdinary(d)
    ensures AllOrdinary(Init(d))
  {
  }

  lemma OrdinaryMore(d: seq<string>, x: string)
    requires AllOrdinary(d)
    ensures Ordinary(x) ==> AllOrdinary(d + [x])
  {
  }

  /** Where the third pass ends: under some head, ordinary segments and one last one. */
  lemma {:induction false} ClimbLeaves(u: seq<string>, h: seq<string>, d: seq<string>, can: bool)
    returns (h': seq<string>, d': seq<string>)
    requires |h| <= 1 && (forall k | 0 <= k < |u| - 1 :: u[k] != "" && u[k] != ".")
    requires AllOrdinary(d)
    ensures Climb(u, h + Chunks(d), can) == h' + Chunks(d') && (h' == h || h' == [])
    ensures forall x | x in d' :: x in u || x in d
    ensures if u == [] then d' == d else d' != [] && d'[|d'| - 1] == u[|u| - 1] && AllOrdinary(Init(d'))
    decreases |u|
  {
    hide AllOrdinary;
    OrdinaryEnds(d);
    var c := h + Chunks(d);
    if u == [] {
      h', d' := h, d;
    } else if u[0] == ".." && |u| > 1 {
      var h1, d1 := h, d;
      if can && d != [] {
        d1 := Init(d);
        assert c[..|c| - 1] == h + Chunks(d1);
      } else if can && h != [] {
        h1 := [];
        assert c[..|c| - 1] == [] + Chunks(d1);
      }
      h', d' := ClimbLeaves(u[1..], h1, d1, false);
    } else if |u| == 1 {
      h', d' := h, d + [u[0]];
      assert c + ["/" + u[0]] == h + Chunks(d');
      assert Init(d') == d;
      assert u[1..] == [];
    } else {
      OrdinaryMore(d, u[0]);
      assert c + ["/" + u[0]] == h + Chunks(d + [u[0]]);
      h', d' := ClimbLeaves(u[1..], h, d + [u[0]], true);
    }
  }

  lemma CleanStep(s: string)
    requires s != ""
    ensures Clean(s) <==> !Dotted(s) && Clean(s[1..])
  {
    hide Dotted;
    assert s[0..] == s;
    assert forall k | 0 <= k < |s| - 1 :: s[1..][k..] == s[k + 1..];
    assert forall k | 1 <= k < |s| :: s[k..] == s[1..][k - 1..];
  }

  lemma DottedPath(x: string, t: seq<string>)
    requires '/' !in x && SlashFree(t)
    ensures Dotted(PathOf([x] + t)) <==> !Ordinary(x) && t != []
  {
    PathOfMore(x, t);
    PathBegins(t);
    hide PathOf;
    var p := PathOf(t);
    var s := "/" + (x + p);
    Front(x, p, "");
    Front(x, p, ".");
    Front(x, p, "..");
    assert s[1..] == x + p;
    assert "//" <= s <==> "/" <= s[1..];
    assert "/./" <= s <==> "./" <= s[1..];
    assert "/../" <= s <==> "../" <= s[1..];
  }

  lemma AllOrdinaryStep(x: string, t: seq<string>)
    ensures AllOrdinary(Init([x] + t)) <==> t == [] || (Ordinary(x) && AllOrdinary(Init(t)))
  {
    var i, i' := Init([x] + t), Init(t);
    if t != [] {
      assert i == [x] + i';
      assert i[0] == x;
      assert forall k | 0 <= k < |i'| :: i'[k] == i[k + 1];
      assert forall k | 0 < k < |i| :: i[k] == i'[k - 1];
    }
  }

  lemma NothingThere()
    ensures Clean(PathOf([])) && AllOrdinary(Init([])) && Chunks([]) == []
  {
  }

  /** Clean text, told by its segments. */
  lemma {:induction false} CleanParts(w: string, t: seq<string>)
    requires '/' !in w && SlashFree(t)
    ensures Clean(w + PathOf(t)) <==> AllOrdinary(Init(t))
    decreases |t|
  {
    hide Clean, Dotted, Ordinary, AllOrdinary;
    var p := PathOf(t);
    CleanAfter(w, p);
    if t == [] {
      NothingThere();
    } else {
      var t' := t[1..];
      assert t == [t[0]] + t';
      PathBegins(t);
      CleanParts(t[0], t');
      DottedPath(t[0], t');
      CleanStep(p);
      AllOrdinaryStep(t[0], t');
      NothingThere();
    }
  }

  lemma CleanAfter(w: string, p: string)
    requires '/' !in w
    ensures Clean(w + p) <==> Clean(p)
  {
    var s := w + p;
    assert forall k | 0 <= k < |p| :: p[k..] == s[|w| + k..];
    forall k | 0 <= k < |w| ensures !Dotted(s[k..]) {
      assert s[k..][0] == w[k] && w[k] in w;
    }
    assert forall k | |w| <= k < |s| :: s[k..] == p[k - |w|..];
  }

  /** The segments the third pass sees have no empty one and no `.` before the last. */
  lemma PlainSegments(s: string)
    ensures SlashFree(Plain(s))
    ensures forall k | 0 <= k < |Plain(s)| - 1 :: Plain(s)[k] != "" && Plain(s)[k] != "."
  {
    hide Parts, Head, Without;
    PartsOf(s);
    var t := Without("", Parts(s));
    WithoutSlashFree("", Parts(s));
    WithoutSlashFree(".", t);
    hide SlashFree;
    forall k | 0 <= k < |Plain(s)| - 1 ensures Plain(s)[k] != "" && Plain(s)[k] != "." {
      WithoutKeeps(".", t, k);
      WithoutMiddle("", ".", Parts(s), k);
    }
  }

  lemma SlashFreeAmong(d: seq<string>, u: seq<string>)
    requires SlashFree(u) && forall x | x in d :: x in u
    ensures SlashFree(d)
  {
    assert forall k | 0 <= k < |d| :: d[k] in d;
  }

  /** The text of a head, or of none, and segments. */
  lemma HeadAndChunks(h: seq<string>, w: string, d: seq<string>)
    requires (h == [] && w == "") || h == [w]
    ensures Flat(h + Chunks(d)) == w + PathOf(d)
  {
    hide Flat, Chunks, PathOf;
    FlatIsPath(d);
    if h == [] {
      assert h + Chunks(d) == Chunks(d) && w + PathOf(d) == PathOf(d);
    } else {
      FlatChunks(w, d);
    }
  }

  /** Main result: what comes out holds no `//`, no `/./` and no `/../`. */
  lemma SanitisedIsClean(s: string)
    ensures Clean(Sanitise(s))
  {
    hide *;
    NothingThere();
    SanitiseIsClimb(s);
    PlainSegments(s);
    assert [Head(s)] + Chunks([]) == [Head(s)];
    NoneIsOrdinary();
    var h, d := ClimbLeaves(Plain(s), [Head(s)], [], true);
    var w := if h == [] then "" else Head(s);
    HeadAndChunks(h, w, d);
    SlashFreeAmong(d, Plain(s));
    assert Plain(s) == [] ==> Init(d) == [] by { InitOfNone(); }
    CleanParts(w, d);
  }

  lemma NoneIsOrdinary()
    ensures AllOrdinary([]) && AllOrdinary(Init([]))
  {
  }

  lemma InitOfNone()
    ensures Init([]) == []
  {
  }

  lemma WithoutCons(x: string, t: seq<string>)
    requires |t| > 1
    ensures Without(x, t) == if t[0] == x then Without(x, t[1..]) else [t[0]] + Without(x, t[1..])
    ensures |Without(x, t[1..])| >= 1
  {
  }

  /** What was dropped first does not come back. */
  lemma {:induction false} WithoutMiddle(x: string, y: string, t: seq<string>, k: nat)
    requires k < |Without(y, Without(x, t))| - 1
    ensures Without(y, Without(x, t))[k] != x
    decreases |t|
  {
    if |t| > 1 {
      WithoutCons(x, t);
      if t[0] == x {
        WithoutMiddle(x, y, t[1..], k);
      } else {
        var w := Without(x, t[1..]);
        WithoutCons(y, [t[0]] + w);
        hide Without;
        assert ([t[0]] + w)[1..] == w;
        if t[0] == y {
          WithoutMiddle(x, y, t[1..], k);
        } else if k > 0 {
          WithoutMiddle(x, y, t[1..], k - 1);
        }
      }
    }
  }

  lemma {:induction false} WithoutNone(x: string, t: seq<string>)
    requires x !in Init(t)
    ensures Without(x, t) == t
  {
    if |t| > 1 {
      assert Init(t)[0] == t[0];
      assert Init(t)[1..] == Init(t[1..]);
      WithoutNone(x, t[1..]);
    }
  }

  lemma {:induction false} ClimbPushes(u: seq<string>, c: seq<string>, can: bool)
    requires ".." !in Init(u)
    ensures Climb(u, c, can) == c + Chunks(u)
    decreases |u|
  {
    if u == [] {
    } else {
      if |u| > 1 {
        assert Init(u)[0] == u[0];
        assert Init(u)[1..] == Init(u[1..]);
      }
      ClimbPushes(u[1..], c + ["/" + u[0]], true);
      assert Chunks(u) == ["/" + u[0]] + Chunks(u[1..]);
    }
  }

  /** Main result: the sanitiser leaves exactly the clean texts alone; so a second time changes nothing. */
  lemma FixedExactlyWhenClean(s: string)
    ensures Sanitise(s) == s <==> Clean(s)
    ensures Sanitise(Sanitise(s)) == Sanitise(s)
  {
    SanitisedIsClean(s);
    CleanIsFixed(Sanitise(s));
    if Clean(s) {
      CleanIsFixed(s);
    }
  }

  lemma CleanIsFixed(s: string)
    requires Clean(s)
    ensures Sanitise(s) == s
  {
    PartsOf(s);
    var w, t := Head(s), Parts(s);
    CleanParts(w, t);
    assert "" !in Init(t) && "." !in Init(t) && ".." !in Init(t);
    WithoutNone("", t);
    WithoutNone(".", t);
    ClimbPushes(t, [w], true);
    FlatChunks(w, t);
    FlatIsPath(t);
    SanitiseIsClimb(s);
  }

  // ---------- Against section 5.2.4 of RFC 3986 ----------

  /** Remove the last segment and its preceding slash, if any, from the output buffer. */
  function CutLast(out: string): (r: string) {
    if out == "" then ""
    else if out[|out| - 1] == '/' then out[..|out| - 1]
    else CutLast(out[..|out| - 1])
  }

  /** The first path segment with its initial slash, if any. */
  function FirstSegment(s: string): (r: string) {
    if s == "" then "" else if s[0] == '/' then "/" + Head(s[1..]) else Head(s)
  }

  lemma {:induction false} HeadIsPrefix(s: string)
    ensures Head(s) <= s
  {
    if s != "" && s[0] != '/' {
      HeadIsPrefix(s[1..]);
    }
  }

  /** remove_dot_segments, rules A to E in turn. */
  function RemoveDotSegments(s: string, out: string): (r: string)
    decreases |s|
  {
    if s == "" then out
    else if "../" <= s then RemoveDotSegments(s[3..], out)
    else if "./" <= s then RemoveDotSegments(s[2..], out)
    else if "/./" <= s then RemoveDotSegments(s[2..], out)
    else if s == "/." then RemoveDotSegments("/", out)
    else if "/../" <= s then RemoveDotSegments(s[3..], CutLast(out))
    else if s == "/.." then RemoveDotSegments("/", CutLast(out))
    else if s == "." || s == ".." then out
    else
      HeadIsPrefix(s);
      HeadIsPrefix(s[1..]);
      RemoveDotSegments(s[|FirstSegment(s)|..], out + FirstSegment(s))
  }

  /** The same by segments: push and pop. */
  function PushPop(t: seq<string>, d: seq<string>): (r: seq<string>)
    decreases |t|
  {
    if t == [] then d
    else if |t| == 1 then (if t[0] == ".." then Init(d) + [""] else if t[0] == "." then d + [""] else d + [t[0]])
    else if t[0] == "." then PushPop(t[1..], d)
    else if t[0] == ".." then PushPop(t[1..], Init(d))
    else PushPop(t[1..], d + [t[0]])
  }

  lemma {:induction false} CutLastSegment(p: string, x: string)
    requires '/' !in x
    ensures CutLast(p + ("/" + x)) == p
  {
    var s := p + ("/" + x);
    if x == "" {
      assert s[..|s| - 1] == p;
    } else {
      var y := x[..|x| - 1];
      assert s[|s| - 1] == x[|x| - 1] && x[|x| - 1] in x;
      assert s[..|s| - 1] == p + ("/" + y);
      CutLastSegment(p, y);
    }
  }

  lemma CutLastPath(d: seq<string>)
    requires SlashFree(d)
    ensures CutLast(PathOf(d)) == PathOf(Init(d))
  {
    if d != [] {
      var x := d[|d| - 1];
      PathOfLast(Init(d), x);
      assert Init(d) + [x] == d;
      CutLastSegment(PathOf(Init(d)), x);
    }
  }

  /** One round of the text routine, by what the first segment is. */
  lemma RemoveRound(x: string, p: string, out: string)
    requires '/' !in x && (p == "" || p[0] == '/')
    ensures var s := "/" + (x + p);
      && (x == "." && p != "" ==> RemoveDotSegments(s, out) == RemoveDotSegments(p, out))
      && (x == ".." && p != "" ==> RemoveDotSegments(s, out) == RemoveDotSegments(p, CutLast(out)))
      && (x == "." && p == "" ==> RemoveDotSegments(s, out) == RemoveDotSegments("/", out))
      && (x == ".." && p == "" ==> RemoveDotSegments(s, out) == RemoveDotSegments("/", CutLast(out)))
      && (x != "." && x != ".." ==> RemoveDotSegments(s, out) == RemoveDotSegments(p, out + ("/" + x)))
  {
    var s := "/" + (x + p);
    hide RemoveDotSegments, CutLast, Head;
    RemoveOnce(s, out);
    Front(x, p, ".");
    Front(x, p, "..");
    assert s[1..] == x + p;
    if x == "." || x == ".." {
      if p == "" {
        assert s == "/" + x;
      } else {
        assert s[|x| + 1..] == p;
      }
    } else {
      DotOnly(x, p);
      HeadOf(x, p);
      assert s[|x| + 1..] == p;
    }
  }

  /** The rules B to E, for input that begins with a slash. */
  lemma RemoveOnce(s: string, out: string)
    requires s != "" && s[0] == '/'
    ensures |Head(s[1..])| < |s|
    ensures RemoveDotSegments(s, out) ==
      if "./" <= s[1..] then RemoveDotSegments(s[2..], out)
      else if s == "/." then RemoveDotSegments("/", out)
      else if "../" <= s[1..] then RemoveDotSegments(s[3..], CutLast(out))
      else if s == "/.." then RemoveDotSegments("/", CutLast(out))
      else RemoveDotSegments(s[|Head(s[1..])| + 1..], out + ("/" + Head(s[1..])))
  {
    hide CutLast, Head;
    HeadIsPrefix(s[1..]);
    assert "/./" <= s <==> "./" <= s[1..];
    assert "/../" <= s <==> "../" <= s[1..];
    assert "../"[0] == '.' && "./"[0] == '.' && "."[0] == '.' && ".."[0] == '.';
    assert !("../" <= s) && !("./" <= s) && s != "." && s != "..";
    assert FirstSegment(s) == "/" + Head(s[1..]);
  }

  lemma {:induction false} HeadOf(x: string, p: string)
    requires '/' !in x && (p == "" || p[0] == '/')
    ensures Head(x + p) == x
  {
    if x != "" {
      assert x[0] in x && (x + p)[1..] == x[1..] + p;
      HeadOf(x[1..], p);
    }
  }

  lemma DotOnly(x: string, p: string)
    requires '/' !in x && x != "." && x != ".." && (p == "" || p[0] == '/')
    ensures "/" + (x + p) != "/." && "/" + (x + p) != "/.."
  {
    if p == "" {
      assert x + p == x;
      assert ("/" + x)[1..] == x;
    } else {
      var s := "/" + (x + p);
      assert s[|x| + 1] == '/';
    }
  }

  lemma RemoveSlash(out: string)
    ensures RemoveDotSegments("/", out) == out + "/"
  {
    assert "/"[1..] == "";
    assert FirstSegment("/") == "/";
    assert RemoveDotSegments("", out + "/") == out + "/";
  }

  lemma {:induction false} RemoveIsPushPop(t: seq<string>, d: seq<string>)
    requires SlashFree(t) && SlashFree(d)
    ensures RemoveDotSegments(PathOf(t), PathOf(d)) == PathOf(PushPop(t, d))
    ensures SlashFree(PushPop(t, d))
    decreases |t|
  {
    hide PathOf, RemoveDotSegments;
    if t == [] {
      RemoveEnd(PathOf(d));
    } else {
      var x := t[0];
      PathBegins(t);
      PathBegins(t[1..]);
      assert PathOf(t) == "/" + (x + PathOf(t[1..]));
      RemoveRound(x, PathOf(t[1..]), PathOf(d));
      CutLastPath(d);
      PathOfLast(d, x);
      if |t| == 1 {
        PathOfLast(Init(d), "");
        PathOfLast(d, "");
        RemoveSlash(PathOf(d));
        RemoveSlash(PathOf(Init(d)));
        RemoveEnd(PathOf(d + [x]));
      } else if x == "." {
        RemoveIsPushPop(t[1..], d);
      } else if x == ".." {
        RemoveIsPushPop(t[1..], Init(d));
      } else {
        RemoveIsPushPop(t[1..], d + [x]);
      }
    }
  }

  lemma RemoveEnd(out: string)
    ensures PathOf([]) == "" && RemoveDotSegments("", out) == out
  {
  }

  /** `t` never goes up twice in a row while that is still below the root: `depth` segments are kept
      so far, `again` says that the one before was `..`.  A last segment does not count. */
  predicate UpOnce(t: seq<string>, depth: nat, again: bool) {
    if |t| <= 1 then true
    else if t[0] == ".." then
      !(again && depth > 0) && UpOnce(t[1..], if depth == 0 then 0 else depth - 1, true)
    else UpOnce(t[1..], depth + 1, false)
  }

  /** `.` does not matter to push and pop. */
  lemma {:induction false} PushPopSkips(t: seq<string>, d: seq<string>)
    ensures PushPop(t, d) == PushPop(Without(".", t), d)
    decreases |t|
  {
    if |t| > 1 {
      if t[0] == "." {
        PushPopSkips(t[1..], d);
      } else {
        var w := Without(".", t);
        assert w[0] == t[0] && w[1..] == Without(".", t[1..]);
        PushPopSkips(t[1..], if t[0] == ".." then Init(d) else d + [t[0]]);
      }
    }
  }

  lemma ChunksMore(d: seq<string>, x: string)
    ensures Chunks(d) + ["/" + x] == Chunks(d + [x])
    ensures d != [] ==> Chunks(d)[..|d| - 1] == Chunks(Init(d))
  {
  }

  /** The third pass with nothing before the first slash. */
  function Climbed(t: seq<string>, d: seq<string>, can: bool): (r: seq<string>)
    decreases |t|
  {
    if t == [] then d
    else if t[0] == ".." && |t| > 1 then Climbed(t[1..], if can then Init(d) else d, false)
    else Climbed(t[1..], d + [t[0]], true)
  }

  lemma {:induction false} ClimbIsClimbed(t: seq<string>, d: seq<string>, can: bool)
    requires SlashFree(t) && SlashFree(d)
    ensures Climb(t, Chunks(d), can) == Chunks(Climbed(t, d, can)) && SlashFree(Climbed(t, d, can))
    decreases |t|
  {
    if t != [] {
      ChunksMore(d, t[0]);
      if t[0] == ".." && |t| > 1 {
        assert d == [] ==> Init(d) == d;
        ClimbIsClimbed(t[1..], if can then Init(d) else d, false);
      } else {
        ClimbIsClimbed(t[1..], d + [t[0]], true);
      }
    }
  }

  lemma {:induction false} ClimbFromRoot(u: seq<string>, d: seq<string>, can: bool)
    requires SlashFree(u) && SlashFree(d)
    ensures Flat(Climb(u, [""] + Chunks(d), can)) == PathOf(Climbed(u, d, can))
    decreases |u|
  {
    var c := [""] + Chunks(d);
    if u == [] {
      FlatChunks("", d);
      FlatIsPath(d);
    } else {
      ChunksMore(d, u[0]);
      if u[0] == ".." && |u| > 1 {
        if can && d == [] {
          assert c[..0] == [] == Chunks([]);
          ClimbIsClimbed(u[1..], [], false);
          FlatIsPath(Climbed(u[1..], [], false));
        } else if can {
          assert c[..|c| - 1] == [""] + Chunks(Init(d));
          ClimbFromRoot(u[1..], Init(d), false);
        } else {
          ClimbFromRoot(u[1..], d, false);
        }
      } else {
        assert c + ["/" + u[0]] == [""] + Chunks(d + [u[0]]);
        ClimbFromRoot(u[1..], d + [u[0]], true);
      }
    }
  }

  /** While no `..` is lost the third pass pushes and pops. */
  lemma {:induction false} ClimbedIsPushPop(u: seq<string>, d: seq<string>, can: bool)
    requires UpOnce(u, |d|, !can) && "." !in Init(u)
    requires u != [] ==> u[|u| - 1] != "." && u[|u| - 1] != ".."
    ensures Climbed(u, d, can) == PushPop(u, d)
    decreases |u|
  {
    if |u| == 1 {
      assert Climbed(u[1..], d + [u[0]], true) == d + [u[0]];
    } else if |u| > 1 {
      assert Init(u)[0] == u[0];
      assert Init(u)[1..] == Init(u[1..]);
      if u[0] == ".." {
        assert d == [] ==> Init(d) == d;
        ClimbedIsPushPop(u[1..], Init(d), false);
      } else {
        ClimbedIsPushPop(u[1..], d + [u[0]], true);
      }
    }
  }

  /** Once one `..` is lost the two never have the same depth again. */
  lemma {:induction false} ClimbedStaysBelow(u: seq<string>, c: seq<string>, can: bool, d: seq<string>)
    requires |c| > |d| && (can ==> d != []) && "." !in Init(u)
    ensures |Climbed(u, c, can)| > |PushPop(u, d)|
    decreases |u|
  {
    if |u| == 1 {
      assert Climbed(u[1..], c + [u[0]], true) == c + [u[0]];
    } else if |u| > 1 {
      assert Init(u)[0] == u[0];
      assert Init(u)[1..] == Init(u[1..]);
      if u[0] == ".." {
        ClimbedStaysBelow(u[1..], if can then Init(c) else c, false, Init(d));
      } else {
        ClimbedStaysBelow(u[1..], c + [u[0]], true, d + [u[0]]);
      }
    }
  }

  lemma {:induction false} ClimbedLosesOne(u: seq<string>, d: seq<string>, can: bool)
    requires !UpOnce(u, |d|, !can) && "." !in Init(u)
    ensures |Climbed(u, d, can)| > |PushPop(u, d)|
    decreases |u|
  {
    assert Init(u)[0] == u[0];
    assert Init(u)[1..] == Init(u[1..]);
    if u[0] == ".." {
      if !can && d != [] {
        ClimbedStaysBelow(u[1..], d, false, Init(d));
      } else {
        assert d == [] ==> Init(d) == d;
        ClimbedLosesOne(u[1..], Init(d), false);
      }
    } else {
      ClimbedLosesOne(u[1..], d + [u[0]], true);
    }
  }

  lemma {:induction false} ClimbedLast(u: seq<string>, d: seq<string>, can: bool)
    requires u != []
    ensures Climbed(u, d, can) != [] && Climbed(u, d, can)[|Climbed(u, d, can)| - 1] == u[|u| - 1]
    decreases |u|
  {
    if |u| == 1 {
      assert Climbed(u[1..], d + [u[0]], true) == d + [u[0]];
    } else if u[0] == ".." {
      ClimbedLast(u[1..], if can then Init(d) else d, false);
    } else {
      ClimbedLast(u[1..], d + [u[0]], true);
    }
  }

  lemma {:induction false} PushPopLast(u: seq<string>, d: seq<string>)
    requires u != [] && (u[|u| - 1] == "." || u[|u| - 1] == "..")
    ensures PushPop(u, d) != [] && PushPop(u, d)[|PushPop(u, d)| - 1] == ""
    decreases |u|
  {
    if |u| > 1 {
      PushPopLast(u[1..], if u[0] == "." then d else if u[0] == ".." then Init(d) else d + [u[0]]);
    }
  }

  /** The two results of an absolute path, by segments. */
  lemma RootTexts(s: string)
    requires s != "" && s[0] == '/'
    ensures var u := Plain(s);
      && Sanitise(s) == PathOf(Climbed(u, [], true)) && SlashFree(Climbed(u, [], true))
      && RemoveDotSegments(Collapse(s), "") == PathOf(PushPop(u, [])) && SlashFree(PushPop(u, []))
      && Parts(s) != [] && u != [] && u[|u| - 1] == Parts(s)[|Parts(s)| - 1] && "." !in Init(u)
  {
    hide Parts, Head, PathOf, Collapse, Without, Sanitise, RemoveDotSegments, Flat, Climb, Chunks, Climbed, PushPop;
    PartsOf(s);
    var t := Without("", Parts(s));
    var u := Plain(s);
    WithoutSlashFree("", Parts(s));
    WithoutSlashFree(".", t);
    assert "" + PathOf(Parts(s)) == PathOf(Parts(s));
    CollapsePath(Parts(s));
    PathBegins([]);
    RemoveIsPushPop(t, []);
    PushPopSkips(t, []);
    SanitiseIsClimb(s);
    assert [""] + Chunks([]) == [""];
    ClimbFromRoot(u, [], true);
    ClimbIsClimbed(u, [], true);
    forall k | 0 <= k < |Init(u)| ensures Init(u)[k] != "." {
      WithoutKeeps(".", t, k);
    }
  }

  lemma ClimbedAgainstPushPop(u: seq<string>)
    requires u != [] && "." !in Init(u)
    ensures Climbed(u, [], true) == PushPop(u, []) <==>
      UpOnce(u, 0, false) && u[|u| - 1] != "." && u[|u| - 1] != ".."
  {
    hide Climbed, PushPop, UpOnce;
    ClimbedLast(u, [], true);
    if !UpOnce(u, 0, false) {
      ClimbedLosesOne(u, [], true);
    } else if u[|u| - 1] == "." || u[|u| - 1] == ".." {
      PushPopLast(u, []);
    } else {
      ClimbedIsPushPop(u, [], true);
    }
  }

  /** Main result: on an absolute path the sanitiser does what section 5.2.4 of RFC 3986 does, empty segments
      aside, exactly when the path does not end in a dot segment and never goes up twice in a row
      below the root. */
  lemma SanitiseAgainstRfc(s: string)
    requires s != "" && s[0] == '/'
    ensures Parts(s) != []
    ensures var x := Parts(s)[|Parts(s)| - 1];
            Sanitise(s) == RemoveDotSegments(Collapse(s), "")
            <==> UpOnce(Plain(s), 0, false) && x != "." && x != ".."
  {
    hide *;
    RootTexts(s);
    var u := Plain(s);
    ClimbedAgainstPushPop(u);
    if PathOf(Climbed(u, [], true)) == PathOf(PushPop(u, [])) {
      PathOfDistinct(Climbed(u, [], true), PushPop(u, []));
    }
  }

  lemma UpTwiceSegments(a: string, b: string, c: string)
    requires Ordinary(a) && Ordinary(b) && Ordinary(c)
    ensures Climbed([a, b, "..", "..", c], [], true) == [a, c]
    ensures PushPop([a, b, "..", "..", c], []) == [c]
  {
    var t := [a, b, "..", "..", c];
    var t1, t2, t3, t4 := [b, "..", "..", c], ["..", "..", c], ["..", c], [c];
    assert t[1..] == t1 && t1[1..] == t2 && t2[1..] == t3 && t3[1..] == t4 && t4[1..] == [];
    assert [] + [a] == [a] && [a] + [b] == [a, b] && Init([a, b]) == [a] && Init([a]) == [];
    assert [a] + [c] == [a, c] && [] + [c] == [c];
    assert Climbed(t, [], true) == Climbed(t1, [a], true) == Climbed(t2, [a, b], true);
    assert Climbed(t2, [a, b], true) == Climbed(t3, [a], false) == Climbed(t4, [a], false) == Climbed([], [a, c], true);
    assert PushPop(t, []) == PushPop(t1, [a]) == PushPop(t2, [a, b]) == PushPop(t3, [a]) == PushPop(t4, []);
  }

  /** Where the two part: of `/a/b/../../c` the second `..` takes nothing back. */
  lemma SecondUpIsLost(a: string, b: string, c: string)
    requires SlashFree([a, b, c]) && Ordinary(a) && Ordinary(b) && Ordinary(c)
    ensures var s := PathOf([a, b, "..", "..", c]);
      && Sanitise(s) == PathOf([a, c])
      && RemoveDotSegments(Collapse(s), "") == PathOf([c])
      && PathOf([a, c]) != PathOf([c])
  {
    var t := [a, b, "..", "..", c];
    var s := PathOf(t);
    assert [a, b, c][0] == a && [a, b, c][1] == b && [a, b, c][2] == c;
    assert SlashFree(t) && SlashFree([a, c]) && SlashFree([c]);
    assert Init(t) == [a, b, "..", ".."];
    hide PathOf, SlashFree, Climbed, PushPop, RemoveDotSegments, Collapse, Sanitise, Plain;
    PlainOfPath(t);
    RootTexts(s);
    UpTwiceSegments(a, b, c);
    if PathOf([a, c]) == PathOf([c]) {
      PathOfDistinct([a, c], [c]);
    }
  }

  /** A path without empty segments and `.` before the last. */
  lemma PlainOfPath(t: seq<string>)
    requires SlashFree(t) && t != [] && "" !in Init(t) && "." !in Init(t)
    ensures var s := PathOf(t); s != "" && s[0] == '/' && Plain(s) == t
  {
    PathBegins(t);
    PathParts("", t);
    hide PathOf, Parts, Head, SlashFree, Without;
    assert "" + PathOf(t) == PathOf(t);
    WithoutNone("", t);
    WithoutNone(".", t);
  }
}
