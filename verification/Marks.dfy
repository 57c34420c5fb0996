/** Texts cut at a mark: where a second way to cut the same text can come from. */
module Marks {
  import opened Text

  lemma ContainsIff(s: string, pat: string)
    ensures Contains(s, pat) <==> exists i | 0 <= i <= |s| :: pat <= s[i..]
  {
    IndexOfFinds(s, pat);
  }

  lemma ContainsAt(s: string, pat: string, i: nat)
    requires i <= |s| && pat <= s[i..]
    ensures Contains(s, pat)
  {
    ContainsIff(s, pat);
  }

  /** A text that holds a mark, cut at the first one. */
  lemma SplitAtMark(s: string, m: string)
    requires Contains(s, m)
    ensures var i := IndexOf(s, m); i + |m| <= |s| && s == s[..i] + m + s[i + |m|..]
  {
    var i := IndexOf(s, m);
    assert s[i..] == m + s[i..][|m|..];
  }

  /** Laid `k` characters into `m`, `n` agrees with it as far as both reach. */
  ghost predicate Overlaps(m: string, n: string, k: nat) {
    forall j | 0 <= j < |n| && k + j < |m| :: m[k + j] == n[j]
  }

  /** No occurrence of `n` begins inside `m`. */
  ghost predicate Apart(m: string, n: string) { forall k: nat | 0 < k < |m| :: !Overlaps(m, n, k) }

  /** Marks are told apart by their lines: `n` opens a line, and every line that begins inside `m`
      differs from that one at its `o`th character. */
  lemma ApartByLines(m: string, n: string, o: nat)
    requires o < |n| && n[0] == '\n'
    requires forall k | 0 < k < |m| && m[k] == '\n' :: k + o < |m| && m[k + o] != n[o]
    ensures Apart(m, n)
  {
    forall k: nat | 0 < k < |m| ensures !Overlaps(m, n, k) {
      var j := if m[k] == '\n' then o else 0;
      assert j < |n| && k + j < |m| && m[k + j] != n[j];
    }
  }

  /** A second mark that begins before the first one ends overlaps it. */
  lemma NearCutsOverlap(p: string, m: string, a: string, q: string, n: string, b: string)
    requires p + m + a == q + n + b && |p| < |q|
    ensures |q| < |p| + |m| ==> Overlaps(m, n, |q| - |p|)
  {
    var t, k := p + m + a, |q| - |p|;
    if k < |m| {
      forall j | 0 <= j < |n| && k + j < |m| ensures m[k + j] == n[j] {
        assert t[|p| + (k + j)] == m[k + j];
        assert (q + n + b)[|q| + j] == n[j];
      }
    }
  }

  lemma Dropped(p: string, s: string)
    ensures (p + s)[|p|..] == s
  {
  }

  lemma MarkInFront(p: string, m: string, a: string, q: string, n: string, b: string)
    requires p + m + a == q + n + b && |p| + |m| <= |q|
    ensures m <= q[|p|..]
  {
    var t := p + m + a;
    assert q == t[..|q|];
    assert q[|p|..|p| + |m|] == t[|p|..|p| + |m|] == m;
  }

  /** When one text is cut in two places, the later mark lies in the rest of the first cut, and the
      earlier mark in the front of the second. */
  lemma CutMoves(p: string, m: string, a: string, q: string, n: string, b: string)
    requires p + m + a == q + n + b && |p| < |q| && Apart(m, n)
    ensures var k := |q| - |p| - |m|; 0 <= k <= |a| && a[k..] == n + b
    ensures m <= q[|p|..] && Contains(a, n) && Contains(q, m)
  {
    var t := p + m + a;
    var k: nat := |q| - |p|;
    NearCutsOverlap(p, m, a, q, n, b);
    Dropped(p + m, a);
    Dropped(q, n + b);
    assert t == q + (n + b) && a[k - |m|..] == t[|q|..];
    ContainsAt(a, n, k - |m|);
    MarkInFront(p, m, a, q, n, b);
    ContainsAt(q, m, |p|);
  }

  /** Cutting in the same place at marks of one length gives the same parts. */
  lemma SameCut(p: string, m: string, a: string, q: string, n: string, b: string)
    requires p + m + a == q + n + b && |p| == |q| && |m| == |n|
    ensures p == q && m == n && a == b
  {
    var t := p + m + a;
    assert p == t[..|p|] && q == t[..|p|];
    assert m == t[|p|..|p| + |m|] && n == t[|p|..|p| + |m|];
    assert a == t[|p| + |m|..] && b == t[|p| + |m|..];
  }

  /** An occurrence of `n` in `h + m + t` lies in `h` or in `t`. */
  lemma OccurrenceFalls(h: string, m: string, t: string, n: string, k: nat)
    requires k <= |h + m + t| && n <= (h + m + t)[k..]
    requires Apart(m, n) && Apart(n, m) && !Overlaps(m, n, 0) && m != ""
    ensures Contains(h, n) || |h| + |m| <= k
  {
    var s := h + m + t;
    assert forall j | 0 <= j < |m| :: s[|h| + j] == m[j];
    assert forall j | 0 <= j < |n| :: s[k + j] == n[j];
    assert |h| <= k < |h| + |m| ==> Overlaps(m, n, k - |h|);
    if k < |h| {
      if |h| < k + |n| {
        var off := |h| - k;
        assert Overlaps(n, m, off) by {
          forall j | 0 <= j < |m| && off + j < |n| ensures n[off + j] == m[j] {
            assert s[k + (off + j)] == s[|h| + j];
          }
        }
      }
      assert h[k..k + |n|] == s[k..k + |n|] == n;
      assert n <= h[k..];
      ContainsAt(h, n, k);
    }
  }

  /** The mark begins after the text's first character. */
  predicate HoldsLate(s: string, m: string) { s != "" && Contains(s[1..], m) }

  /** The mark ends before the text's last character does. */
  predicate HoldsEarly(s: string, m: string) { s != "" && Contains(s[..|s| - 1], m) }

  lemma LateAt(s: string, m: string, i: nat)
    requires 0 < i <= |s| && m <= s[i..]
    ensures HoldsLate(s, m)
  {
    assert s[1..][i - 1..] == s[i..];
    ContainsAt(s[1..], m, i - 1);
  }

  lemma EarlyAt(s: string, m: string, i: nat)
    requires i + |m| < |s| && m <= s[i..]
    ensures HoldsEarly(s, m)
  {
    assert s[..|s| - 1][i..] == s[i..][..|s| - 1 - i];
    ContainsAt(s[..|s| - 1], m, i);
  }

  lemma EarlyIsHeld(s: string, m: string)
    requires HoldsEarly(s, m)
    ensures Contains(s, m)
  {
    var i := IndexOf(s[..|s| - 1], m);
    SplitAtMark(s[..|s| - 1], m);
    assert m <= s[i..];
    ContainsAt(s, m, i);
  }

  /** A pair of non-empty texts joined by a mark reads one way when the front does not hold the mark
      late nor the back early. */
  lemma PairReadsOneWay(p: string, a: string, q: string, b: string, m: string)
    requires p + m + a == q + m + b && Apart(m, m) && q != "" && b != ""
    requires !HoldsLate(p, m) && !HoldsEarly(a, m)
    ensures p == q && a == b
  {
    if |p| < |q| {
      CutMoves(p, m, a, q, m, b);
      EarlyAt(a, m, |q| - |p| - |m|);
    } else if |q| < |p| {
      CutMoves(q, m, b, p, m, a);
      LateAt(p, m, |q|);
    } else {
      SameCut(p, m, a, q, m, b);
    }
  }

  lemma CutsRegroup(q: string, m: string, b: string, n: string, a: string)
    ensures q + m + (b + n + a) == (q + m + b) + n + a
  {
  }

  /** A mark held late in the front gives a second way to cut. */
  lemma FrontCollision(p: string, n: string, a: string, m: string) returns (q: string, b: string)
    requires HoldsLate(p, m) && m != ""
    ensures p + n + a == q + m + b && 0 < |q| < |p| && |a| <= |b|
  {
    var i := IndexOf(p[1..], m);
    SplitAtMark(p[1..], m);
    q := p[..1 + i];
    var rest := p[1 + i + |m|..];
    assert p == q + m + rest;
    b := rest + n + a;
    CutsRegroup(q, m, rest, n, a);
  }

  lemma CutAt(s: string, m: string, i: nat)
    requires i <= |s| && m <= s[i..]
    ensures i + |m| <= |s| && s == s[..i] + m + s[i + |m|..]
  {
    assert s[i..] == m + s[i + |m|..];
  }

  lemma LongerHolds(s: string, end: nat, m: string, i: nat)
    requires i <= end <= |s| && m <= s[..end][i..]
    ensures m <= s[i..]
  {
    assert s[..end][i..] <= s[i..];
  }

  lemma BackMark(a: string, m: string) returns (i: nat)
    requires Contains(a, m)
    ensures i + |m| <= |a| && a == a[..i] + m + a[i + |m|..]
    ensures HoldsEarly(a, m) ==> i + |m| < |a|
  {
    if HoldsEarly(a, m) {
      i := IndexOf(a[..|a| - 1], m);
      LongerHolds(a, |a| - 1, m, i);
    } else {
      i := IndexOf(a, m);
    }
    CutAt(a, m, i);
  }

  /** So does a mark in the back; held early there, it leaves something behind it. */
  lemma BackCollision(p: string, n: string, a: string, m: string) returns (q: string, b: string)
    requires Contains(a, m) && n != ""
    ensures p + n + a == q + m + b && |p| < |q|
    ensures HoldsEarly(a, m) ==> b != ""
  {
    var i := BackMark(a, m);
    q, b := p + n + a[..i], a[i + |m|..];
    CutsRegroup(p, n, a[..i], m, b);
  }

  /** A pair of non-empty texts has a second reading when the front holds the mark late or the back
      holds it early. */
  lemma PairCollision(p: string, a: string, m: string) returns (q: string, b: string)
    requires m != "" && a != "" && (HoldsLate(p, m) || HoldsEarly(a, m))
    ensures p + m + a == q + m + b && |q| != |p| && q != "" && b != ""
  {
    if HoldsLate(p, m) {
      q, b := FrontCollision(p, m, a, m);
    } else {
      EarlyIsHeld(a, m);
      q, b := BackCollision(p, m, a, m);
    }
  }

  /** Texts cut at two marks: the fronts agree when neither outer part holds the second mark. */
  lemma FrontsAgree(h: string, m: string, x: string, g: string, n: string, y: string)
    requires h + m + x == g + n + y && Apart(m, n) && Apart(n, m)
    requires !Contains(h, n) && !Contains(x, n)
    ensures h == g && m + x == n + y
  {
    if |h| < |g| {
      CutMoves(h, m, x, g, n, y);
    } else if |g| < |h| {
      CutMoves(g, n, y, h, m, x);
    }
    var t := h + m + x;
    assert h == t[..|h|] && g == t[..|h|];
    assert m + x == t[|h|..] && n + y == t[|h|..];
  }

  lemma HeldFurtherOn(s: string, i: nat, u: string, n: string, y: string)
    requires i <= |s| && s[i..] == u + n + y
    ensures Contains(s, n)
  {
    assert s[i + |u|..] == s[i..][|u|..] == n + y;
    ContainsAt(s, n, i + |u|);
  }

  /** Texts cut at `f` and then at a second mark: the second text is not cut at `f` later than the
      first, when what follows there holds neither `f` nor, further on, the second mark. */
  lemma CutsNoLater(a: string, f: string, h: string, m: string, x: string, b: string, g: string, n: string, y: string)
    requires a + f + (h + m + x) == b + f + (g + n + y)
    requires Apart(f, f) && Apart(m, f) && Apart(f, m) && !Overlaps(m, f, 0) && m != ""
    requires !Contains(h, f) && !Contains(x, n)
    ensures |b| <= |a|
  {
    var t := h + m + x;
    if |a| < |b| {
      CutMoves(a, f, t, b, f, g + n + y);
      var k := |b| - |a| - |f|;
      assert t[k..] == f + (g + n + y) == (f + g) + n + y;
      OccurrenceFalls(h, m, x, f, k);
      assert x[k - |h| - |m|..] == t[k..];
      HeldFurtherOn(x, k - |h| - |m|, f + g, n, y);
    }
  }

  /** A label, a one-line text and a second label: the text between reads one way. */
  lemma LabelledReadsOneWay(k: string, c: string, i: string, x: string, j: string, y: string)
    requires OneLine(i) && OneLine(j)
    requires (k + (i + (['\n'] + c))) + x == (k + (j + (['\n'] + c))) + y
    ensures i == j && x == y
  {
    assert (k + (i + (['\n'] + c))) + x == k + (i + ['\n'] + (c + x));
    assert (k + (j + (['\n'] + c))) + y == k + (j + ['\n'] + (c + y));
    Cancel(k, i + ['\n'] + (c + x), j + ['\n'] + (c + y));
    CutFirst(i, c + x, j, c + y, '\n');
    Cancel(c, x, y);
  }

  /** Parts written one after another with a mark between. */
  function JoinBy(parts: seq<string>, m: string): string
    requires parts != []
  {
    if |parts| == 1 then parts[0] else parts[0] + m + JoinBy(parts[1..], m)
  }

  /** Parts that do not hold the mark are the only ones, of so many or more, that join to their text. */
  lemma {:induction false} JoinByReadsOneWay(xs: seq<string>, ys: seq<string>, m: string)
    requires 0 < |xs| <= |ys| && JoinBy(xs, m) == JoinBy(ys, m) && Apart(m, m)
    requires forall i | 0 <= i < |xs| :: !Contains(xs[i], m)
    ensures xs == ys
    decreases |xs|
  {
    if |ys| == 1 {
    } else if |xs| == 1 {
      var y, rest := ys[0], JoinBy(ys[1..], m);
      assert xs[0] == y + m + rest;
      assert (y + m + rest)[|y|..] == m + rest;
      ContainsAt(xs[0], m, |y|);
    } else {
      var x, a, y, b := xs[0], JoinBy(xs[1..], m), ys[0], JoinBy(ys[1..], m);
      if |y| < |x| {
        CutMoves(y, m, b, x, m, a);
      } else if |x| < |y| {
        CutMoves(x, m, a, y, m, b);
        var c := a[..|y| - |x| - |m|];
        assert a == c + m + b;
        assert ([c] + ys[1..])[1..] == ys[1..];
        JoinByReadsOneWay(xs[1..], [c] + ys[1..], m);
      } else {
        SameCut(x, m, a, y, m, b);
        JoinByReadsOneWay(xs[1..], ys[1..], m);
        assert xs == [xs[0]] + xs[1..] && ys == [ys[0]] + ys[1..];
      }
    }
  }

  // ----- groupings of pieces -----

  /** The text cut at every mark. */
  function Pieces(s: string, m: string): (ps: seq<string>)
    requires m != ""
    ensures ps != []
    decreases |s|
  {
    if !Contains(s, m) then [s] else var i := IndexOf(s, m); [s[..i]] + Pieces(s[i + |m|..], m)
  }

  lemma FrontOfFirstLacks(s: string, m: string)
    requires Contains(s, m) && m != ""
    ensures !Contains(s[..IndexOf(s, m)], m)
  {
    var i := IndexOf(s, m);
    IndexOfFinds(s, m);
    ContainsIff(s[..i], m);
    forall j | 0 <= j <= |s[..i]| ensures !(m <= s[..i][j..]) {
      if m <= s[..i][j..] {
        LongerHolds(s, i, m, j);
      }
    }
  }

  ghost predicate AllLack(ps: seq<string>, m: string) { forall i | 0 <= i < |ps| :: !Contains(ps[i], m) }

  lemma {:induction false} PiecesJoin(s: string, m: string)
    requires m != ""
    ensures JoinBy(Pieces(s, m), m) == s && AllLack(Pieces(s, m), m)
    decreases |s|
  {
    if Contains(s, m) {
      var i := IndexOf(s, m);
      SplitAtMark(s, m);
      FrontOfFirstLacks(s, m);
      PiecesJoin(s[i + |m|..], m);
      assert Pieces(s, m)[1..] == Pieces(s[i + |m|..], m);
    }
  }

  /** The parts are the pieces, joined in groups of one or more without changing their order. */
  ghost predicate Groups(ps: seq<string>, ys: seq<string>, m: string)
    decreases |ys|, 1
  {
    if ys == [] then ps == []
    else exists k | 0 < k <= |ps| :: GroupsFrom(ps, ys, m, k)
  }

  /** The first part joins the first `k` pieces. */
  ghost predicate GroupsFrom(ps: seq<string>, ys: seq<string>, m: string, k: nat)
    requires ys != [] && 0 < k <= |ps|
    decreases |ys|, 0
  {
    ys[0] == JoinBy(ps[..k], m) && Groups(ps[k..], ys[1..], m)
  }

  lemma {:induction false} JoinByConcat(a: seq<string>, b: seq<string>, m: string)
    requires a != [] && b != []
    ensures JoinBy(a + b, m) == JoinBy(a, m) + m + JoinBy(b, m)
  {
    if |a| == 1 {
      assert (a + b)[1..] == b;
    } else {
      JoinByConcat(a[1..], b, m);
      assert (a + b)[1..] == a[1..] + b;
      CutsRegroup(a[0], m, JoinBy(a[1..], m), m, JoinBy(b, m));
    }
  }

  lemma NoParts(ps: seq<string>, m: string)
    ensures Groups(ps, [], m) <==> ps == []
  {
  }

  /** Grouping the pieces keeps the text. */
  lemma {:induction false} GroupsJoin(ps: seq<string>, ys: seq<string>, m: string)
    requires ys != [] && Groups(ps, ys, m)
    ensures ps != [] && JoinBy(ys, m) == JoinBy(ps, m)
    decreases |ys|
  {
    var k: nat :| 0 < k <= |ps| && GroupsFrom(ps, ys, m, k);
    if |ys| == 1 {
      assert ys[1..] == [];
      NoParts(ps[k..], m);
      assert ps[..k] == ps;
    } else {
      GroupsJoin(ps[k..], ys[1..], m);
      JoinByConcat(ps[..k], ps[k..], m);
      assert ps == ps[..k] + ps[k..];
    }
  }

  lemma SameEnd(x: string, y: string, m: string, b: string)
    requires x + m + b == y + m + b
    ensures x == y
  {
    assert |x + m + b| == |y + m + b| && |x| == |y|;
    assert x == (x + m + b)[..|x|] && y == (y + m + b)[..|y|];
  }

  lemma NextCut(ps: seq<string>, y: string, c: string, b: string, m: string, l: nat)
    requires 0 < l < |ps| - 1 && ps[0] + m + (c + m + b) == y + m + b
    requires c == JoinBy(ps[1..][..l], m) && b == JoinBy(ps[1..][l..], m)
    ensures y == JoinBy(ps[..l + 1], m) && b == JoinBy(ps[l + 1..], m)
  {
    assert ps[1..][l..] == ps[l + 1..] && ps[..l + 1][1..] == ps[1..][..l];
    CutsRegroup(ps[0], m, c, m, b);
    SameEnd(ps[0] + m + c, y, m, b);
  }

  /** A cut at a mark falls between two pieces. */
  lemma {:induction false} CutFalls(ps: seq<string>, y: string, b: string, m: string) returns (k: nat)
    requires ps != [] && AllLack(ps, m) && JoinBy(ps, m) == y + m + b && Apart(m, m)
    ensures 0 < k < |ps| && y == JoinBy(ps[..k], m) && b == JoinBy(ps[k..], m)
    decreases |ps|
  {
    if |ps| == 1 {
      Dropped(y, m + b);
      assert y + m + b == y + (m + b);
      ContainsAt(ps[0], m, |y|);
    }
    var x, a := ps[0], JoinBy(ps[1..], m);
    if |y| < |x| {
      CutMoves(y, m, b, x, m, a);
    } else if |x| < |y| {
      CutMoves(x, m, a, y, m, b);
      var c := a[..|y| - |x| - |m|];
      assert a == c + m + b;
      var l := CutFalls(ps[1..], c, b, m);
      k := l + 1;
      NextCut(ps, y, c, b, m, l);
    } else {
      SameCut(x, m, a, y, m, b);
      k := 1;
      assert ps[..1] == [x];
    }
  }

  /** Whatever joins to the text of the pieces is a grouping of them. */
  lemma {:induction false} JoinGroups(ps: seq<string>, ys: seq<string>, m: string)
    requires ps != [] && ys != [] && AllLack(ps, m) && Apart(m, m) && JoinBy(ps, m) == JoinBy(ys, m)
    ensures Groups(ps, ys, m)
    decreases |ys|
  {
    if |ys| == 1 {
      assert ps[..|ps|] == ps && ps[|ps|..] == [] && ys[1..] == [];
      NoParts([], m);
      assert GroupsFrom(ps, ys, m, |ps|);
    } else {
      var k := CutFalls(ps, ys[0], JoinBy(ys[1..], m), m);
      JoinGroups(ps[k..], ys[1..], m);
      assert GroupsFrom(ps, ys, m, k);
    }
  }
}
