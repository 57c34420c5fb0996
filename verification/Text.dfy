/** Character classes, searching, joining and numerals: the string operations the
    scope language and the canonical messages are built from. */
module Text {
  datatype Option<+T> = None | Some(value: T)

  /** `head` in front of what was found, if anything was. */
  function Prepend<T>(head: seq<T>, tail: Option<seq<T>>): Option<seq<T>> {
    if tail.None? then None else Some(head + tail.value)
  }

  lemma PrependTwice<T>(a: seq<T>, b: seq<T>, tail: Option<seq<T>>)
    ensures Prepend(a, Prepend(b, tail)) == Prepend(a + b, tail)
    ensures Prepend([], tail) == tail
  {
    if tail.Some? {
      assert a + (b + tail.value) == (a + b) + tail.value;
      assert [] + tail.value == tail.value;
    }
  }

  // ----- character classes -----

  /** The characters JavaScript's `\s` and `trim` treat as white space. */
  predicate IsSpace(c: char) {
    || '\t' <= c <= '\r' || c == ' ' || c == '\U{A0}' || c == '\U{1680}'
    || '\U{2000}' <= c <= '\U{200A}' || c == '\U{2028}' || c == '\U{2029}'
    || c == '\U{202F}' || c == '\U{205F}' || c == '\U{3000}' || c == '\U{FEFF}'
  }

  predicate IsDigit(c: char) { '0' <= c <= '9' }

  predicate IsLowerHex(c: char) { IsDigit(c) || 'a' <= c <= 'f' }

  predicate IsUpper(c: char) { 'A' <= c <= 'Z' }

  predicate NoSpaces(s: string) { forall i | 0 <= i < |s| :: !IsSpace(s[i]) }

  predicate OneLine(s: string) { '\n' !in s }

  predicate AllDigits(s: string) { forall i | 0 <= i < |s| :: IsDigit(s[i]) }

  predicate AllHex(s: string) { forall i | 0 <= i < |s| :: IsLowerHex(s[i]) }

  predicate IsHex(s: string, length: nat) { |s| == length && AllHex(s) }

  lemma NoSpacesSlice(s: string, lo: nat, hi: nat)
    requires NoSpaces(s) && lo <= hi <= |s|
    ensures NoSpaces(s[lo..hi])
  {
  }

  lemma NoSpacesConcat(a: string, b: string)
    requires NoSpaces(a) && NoSpaces(b)
    ensures NoSpaces(a + b)
  {
  }

  // ----- searching -----

  function IndexFrom(s: string, pat: string, from: nat): (i: int)
    ensures i == -1 || (from <= i && i + |pat| <= |s| && pat <= s[i..])
    decreases |s| - from
  {
    if |s| < from + |pat| then -1
    else if pat <= s[from..] then from
    else IndexFrom(s, pat, from + 1)
  }

  /** The first position where `pat` occurs, or -1. */
  function IndexOf(s: string, pat: string): (i: int)
    ensures i == -1 || (0 <= i && i + |pat| <= |s| && pat <= s[i..])
  {
    IndexFrom(s, pat, 0)
  }

  lemma {:induction false} IndexFromFinds(s: string, pat: string, from: nat)
    ensures var i := IndexFrom(s, pat, from);
            forall j | from <= j <= |s| && (i == -1 || j < i) :: !(pat <= s[j..])
    decreases |s| - from
  {
    if from + |pat| <= |s| && !(pat <= s[from..]) {
      IndexFromFinds(s, pat, from + 1);
    }
  }

  /** `IndexOf` is the first occurrence, and -1 only when there is none. */
  lemma IndexOfFinds(s: string, pat: string)
    ensures var i := IndexOf(s, pat);
            forall j | 0 <= j <= |s| && (i == -1 || j < i) :: !(pat <= s[j..])
  {
    IndexFromFinds(s, pat, 0);
  }

  predicate Contains(s: string, pat: string) { IndexOf(s, pat) != -1 }

  predicate EndsWith(s: string, pat: string) { |pat| <= |s| && s[|s| - |pat|..] == pat }

  /** The first position at or after `from` whose character is in `stops`, or the length. */
  function FirstOf(s: string, stops: string, from: nat): (i: nat)
    requires from <= |s|
    ensures from <= i <= |s| && (i < |s| ==> s[i] in stops)
    ensures forall k | from <= k < i :: s[k] !in stops
    decreases |s| - from
  {
    if from == |s| || s[from] in stops then from else FirstOf(s, stops, from + 1)
  }

  function TrimStart(s: string): string {
    if s != "" && IsSpace(s[0]) then TrimStart(s[1..]) else s
  }

  function TrimEnd(s: string): string {
    if s != "" && IsSpace(s[|s| - 1]) then TrimEnd(s[..|s| - 1]) else s
  }

  function Trim(s: string): string { TrimEnd(TrimStart(s)) }

  predicate AllSpaces(s: string) { forall i | 0 <= i < |s| :: IsSpace(s[i]) }

  /** `core` is `s` without the white space at its ends, and has none left there. */
  ghost predicate Trimmed(s: string, core: string) {
    && (exists pre, post :: AllSpaces(pre) && AllSpaces(post) && s == pre + core + post)
    && (core != "" ==> !IsSpace(core[0]) && !IsSpace(core[|core| - 1]))
  }

  lemma {:induction false} TrimStartDrops(s: string)
    ensures exists pre :: AllSpaces(pre) && s == pre + TrimStart(s)
    ensures TrimStart(s) != "" ==> !IsSpace(TrimStart(s)[0])
  {
    if s != "" && IsSpace(s[0]) {
      TrimStartDrops(s[1..]);
      var pre :| AllSpaces(pre) && s[1..] == pre + TrimStart(s[1..]);
      assert AllSpaces([s[0]] + pre) && s == ([s[0]] + pre) + TrimStart(s);
    } else {
      assert AllSpaces("") && s == "" + s;
    }
  }

  lemma {:induction false} TrimEndDrops(s: string)
    ensures TrimEnd(s) <= s && AllSpaces(s[|TrimEnd(s)|..])
    ensures TrimEnd(s) != "" ==> !IsSpace(TrimEnd(s)[|TrimEnd(s)| - 1])
  {
    if s != "" && IsSpace(s[|s| - 1]) {
      var n := |s| - 1;
      var k := |TrimEnd(s[..n])|;
      TrimEndDrops(s[..n]);
      forall i | 0 <= i < |s[k..]| ensures IsSpace(s[k..][i]) {
        assert i < n - k ==> s[k..][i] == s[..n][k..][i];
      }
    }
  }

  lemma TrimmedStart(s: string, pre: string, core: string, post: string, i: nat)
    requires s == pre + core + post && AllSpaces(pre) && i < |s| && !IsSpace(s[i])
    ensures |pre| <= i
  {
    forall k | 0 <= k < |pre| ensures IsSpace(s[k]) {
      assert s[k] == pre[k];
    }
  }

  lemma TrimmedEnd(s: string, pre: string, core: string, post: string, i: nat)
    requires s == pre + core + post && AllSpaces(post) && i < |s| && !IsSpace(s[i])
    ensures i < |pre| + |core|
  {
    forall k | |pre| + |core| <= k < |s| ensures IsSpace(s[k]) {
      assert s[k] == post[k - |pre| - |core|];
    }
  }

  lemma TrimmedHolds(s: string, core: string, other: string)
    requires Trimmed(s, core) && Trimmed(s, other) && core != ""
    ensures |core| <= |other|
    ensures exists pre, post, u, v ::
              s == pre + core + post && s == u + other + v && |u| <= |pre| && |pre| + |core| <= |u| + |other|
  {
    var pre, post :| AllSpaces(pre) && AllSpaces(post) && s == pre + core + post;
    var u, v :| AllSpaces(u) && AllSpaces(v) && s == u + other + v;
    assert s[|pre|] == core[0] && s[|pre| + |core| - 1] == core[|core| - 1];
    TrimmedStart(s, u, other, v, |pre|);
    TrimmedEnd(s, u, other, v, |pre| + |core| - 1);
  }

  lemma TrimmedIsOne(s: string, core: string, other: string)
    requires Trimmed(s, core) && Trimmed(s, other)
    ensures core == other
  {
    if core != "" {
      TrimmedHolds(s, core, other);
      TrimmedHolds(s, other, core);
      var pre, post, u, v :|
        s == pre + core + post && s == u + other + v && |u| <= |pre| && |pre| + |core| <= |u| + |other|;
      assert core == s[|pre|..|pre| + |core|] && other == s[|u|..|u| + |other|];
    } else if other != "" {
      TrimmedHolds(s, other, core);
    }
  }

  /** Trimming takes away the white space at both ends and nothing else. */
  lemma TrimIsExact(s: string)
    ensures Trimmed(s, Trim(s)) && forall core :: Trimmed(s, core) ==> core == Trim(s)
  {
    TrimStartDrops(s);
    var t := TrimStart(s);
    TrimEndDrops(t);
    var pre :| AllSpaces(pre) && s == pre + t;
    var post := t[|TrimEnd(t)|..];
    assert t == TrimEnd(t) + post && s == pre + Trim(s) + post;
    forall core | Trimmed(s, core) ensures core == Trim(s) { TrimmedIsOne(s, core, Trim(s)); }
  }

  /** Where a separator absent from the head occurs. */
  lemma FirstOccurrence(head: string, c: char, tail: string)
    requires c !in head
    ensures IndexOf(head + [c] + tail, [c]) == |head|
  {
    var s := head + [c] + tail;
    IndexOfFinds(s, [c]);
    assert [c] <= s[|head|..];
    forall j | 0 <= j < |head| ensures !([c] <= s[j..]) {
      assert s[j..][0] == head[j];
    }
  }

  /** Where a pattern occurs whose first character is absent from the head. */
  lemma FirstPattern(head: string, pat: string, tail: string)
    requires pat != "" && pat[0] !in head
    ensures IndexOf(head + pat + tail, pat) == |head|
  {
    var s := head + pat + tail;
    IndexOfFinds(s, pat);
    assert s[|head|..] == pat + tail;
    forall j | 0 <= j < |head| ensures !(pat <= s[j..]) {
      assert s[j..][0] == head[j];
    }
  }

  lemma OccurrenceHoldsFirst(s: string, pat: string)
    requires pat != "" && Contains(s, pat)
    ensures pat[0] in s
  {
    var i := IndexOf(s, pat);
    assert s[i] == s[i..][0];
  }

  lemma NoOccurrence(s: string, c: char)
    requires c !in s
    ensures IndexOf(s, [c]) == -1
  {
    IndexOfFinds(s, [c]);
    forall j | 0 <= j <= |s| ensures !([c] <= s[j..]) {
      assert j < |s| ==> s[j..][0] == s[j];
    }
  }

  // ----- joining -----

  function Join(parts: seq<string>, sep: char): string {
    if parts == [] then ""
    else if |parts| == 1 then parts[0]
    else parts[0] + [sep] + Join(parts[1..], sep)
  }

  /** Cutting at the first separator is unambiguous when the heads do not hold it. */
  lemma CutFirst(a: string, x: string, b: string, y: string, c: char)
    requires c !in a && c !in b
    requires a + [c] + x == b + [c] + y
    ensures a == b && x == y
  {
    FirstOccurrence(a, c, x);
    FirstOccurrence(b, c, y);
    var s := a + [c] + x;
    assert a == s[..|a|] && x == s[|a| + 1..];
    assert b == s[..|b|] && y == s[|b| + 1..];
  }

  /** Cutting at the last separator is unambiguous when the tails do not hold it. */
  lemma CutLast(x: string, a: string, y: string, b: string, c: char)
    requires c !in a && c !in b
    requires x + [c] + a == y + [c] + b
    ensures x == y && a == b
  {
    var s := x + [c] + a;
    assert s == y + [c] + b;
    assert s[|x|] == c && s[|y|] == c;
    assert forall k | |x| < k < |s| :: s[k] == a[k - |x| - 1];
    assert forall k | |y| < k < |s| :: s[k] == b[k - |y| - 1];
    assert |x| == |y|;
    assert x == s[..|x|] && y == s[..|y|];
    assert a == s[|x| + 1..] && b == s[|y| + 1..];
  }

  lemma OneLineConcat(a: string, b: string)
    requires OneLine(a) && OneLine(b)
    ensures OneLine(a + b)
  {
  }

  lemma Cancel(p: string, a: string, b: string)
    requires p + a == p + b
    ensures a == b
  {
    assert a == (p + a)[|p|..];
    assert b == (p + b)[|p|..];
  }

  lemma {:induction false} JoinLacks(parts: seq<string>, sep: char, c: char)
    requires c != sep && forall p | p in parts :: c !in p
    ensures c !in Join(parts, sep)
  {
    if |parts| > 1 {
      JoinLacks(parts[1..], sep, c);
    }
  }

  // ----- numerals -----

  function DigitValue(c: char): nat
    requires IsLowerHex(c)
  {
    if IsDigit(c) then c as int - '0' as int else c as int - 'a' as int + 10
  }

  function DigitChar(d: nat): (c: char)
    requires d < 16
    ensures IsLowerHex(c) && (d < 10 ==> IsDigit(c)) && DigitValue(c) == d
  {
    if d < 10 then ('0' as int + d) as char else ('a' as int + d - 10) as char
  }

  /** `n` written in decimal (`base` 10) or lower-case hex (16), without leading zeros. */
  function Numeral(n: nat, base: nat): (s: string)
    requires base == 10 || base == 16
    ensures s != "" && AllHex(s)
  {
    if n < base then [DigitChar(n)]
    else if base == 10 then Numeral(n / 10, 10) + [DigitChar(n % 10)]
    else Numeral(n / 16, 16) + [DigitChar(n % 16)]
  }

  function NumeralValue(s: string, base: nat): nat
    requires base == 10 || base == 16
    requires AllHex(s)
  {
    if s == "" then 0
    else
      var high := NumeralValue(s[..|s| - 1], base);
      (if base == 10 then 10 * high else 16 * high) + DigitValue(s[|s| - 1])
  }

  lemma {:induction false} NumeralReadsBack(n: nat, base: nat)
    requires base == 10 || base == 16
    ensures NumeralValue(Numeral(n, base), base) == n
    ensures base == 10 ==> AllDigits(Numeral(n, base))
  {
    var s := Numeral(n, base);
    if n < base {
      assert s[..0] == "";
    } else {
      var high := if base == 10 then n / 10 else n / 16;
      NumeralReadsBack(high, base);
      assert s[..|s| - 1] == Numeral(high, base);
    }
  }

  /** `/^-?\d+$/`: the text is a decimal integer of any size. */
  predicate IsInteger(s: string) {
    if s != "" && s[0] == '-' then s[1..] != "" && AllDigits(s[1..]) else s != "" && AllDigits(s)
  }

  function IntegerValue(s: string): int
    requires IsInteger(s)
  {
    if s[0] == '-' then (var n: int := NumeralValue(s[1..], 10); -n) else NumeralValue(s, 10)
  }

  function IntegerText(n: int): (s: string)
    ensures IsInteger(s) && IntegerValue(s) == n
  {
    if n < 0 then
      NumeralReadsBack(-n, 10);
      assert ("-" + Numeral(-n, 10))[1..] == Numeral(-n, 10);
      "-" + Numeral(-n, 10)
    else
      NumeralReadsBack(n, 10);
      Numeral(n, 10)
  }
}
