/** The order JavaScript's `<` puts on strings, and a stable sort by a text key. */
module Sorting {
  /** Orders characters as their UTF-16 code units are ordered: a character beyond
      U+FFFF is written with surrogates, which sort below U+E000. */
  function Rank(c: char): nat {
    if '\U{E000}' <= c <= '\U{FFFF}' then c as nat + 0x110000 else c as nat
  }

  predicate Less(a: string, b: string) {
    if b == "" then false
    else if a == "" then true
    else if a[0] == b[0] then Less(a[1..], b[1..])
    else Rank(a[0]) < Rank(b[0])
  }

  lemma {:induction false} LessIsTotal(a: string, b: string)
    ensures !(Less(a, b) && Less(b, a))
    ensures a == b || Less(a, b) || Less(b, a)
  {
    if a != "" && b != "" && a[0] == b[0] {
      LessIsTotal(a[1..], b[1..]);
      assert a == [a[0]] + a[1..] && b == [b[0]] + b[1..];
    }
  }

  lemma {:induction false} LessIsTransitive(a: string, b: string, c: string)
    requires !Less(b, a) && !Less(c, b)
    ensures !Less(c, a)
  {
    if a != "" && b != "" && c != "" && a[0] == b[0] == c[0] {
      LessIsTransitive(a[1..], b[1..], c[1..]);
    }
  }

  function Self(s: string): string { s }

  ghost predicate Sorted<T(!new)>(xs: seq<T>, key: T -> string) {
    forall i, j | 0 <= i < j < |xs| :: !Less(key(xs[j]), key(xs[i]))
  }

  ghost predicate KeyDecides<T(!new)>(xs: seq<T>, key: T -> string) {
    forall x, y | x in xs && y in xs && key(x) == key(y) :: x == y
  }

  function Insert<T>(x: T, xs: seq<T>, key: T -> string): seq<T> {
    if xs == [] || !Less(key(xs[0]), key(x)) then [x] + xs
    else [xs[0]] + Insert(x, xs[1..], key)
  }

  /** Stable: equal keys keep their order. */
  function Sort<T>(xs: seq<T>, key: T -> string): seq<T> {
    if xs == [] then [] else Insert(xs[0], Sort(xs[1..], key), key)
  }

  lemma {:induction false} InsertAdds<T(!new)>(x: T, xs: seq<T>, key: T -> string)
    ensures multiset(Insert(x, xs, key)) == multiset{x} + multiset(xs)
    ensures |Insert(x, xs, key)| == 1 + |xs|
  {
    if xs != [] {
      InsertAdds(x, xs[1..], key);
      assert xs == [xs[0]] + xs[1..];
    }
  }

  lemma {:induction false} InsertSorts<T(!new)>(x: T, xs: seq<T>, key: T -> string)
    requires Sorted(xs, key)
    ensures Sorted(Insert(x, xs, key), key)
  {
    if xs == [] {
    } else if !Less(key(xs[0]), key(x)) {
      forall j | 0 <= j < |xs| ensures !Less(key(xs[j]), key(x)) {
        LessIsTotal(key(xs[0]), key(xs[0]));
        LessIsTransitive(key(x), key(xs[0]), key(xs[j]));
      }
    } else {
      var rest := Insert(x, xs[1..], key);
      InsertSorts(x, xs[1..], key);
      InsertAdds(x, xs[1..], key);
      forall j | 0 <= j < |rest| ensures !Less(key(rest[j]), key(xs[0])) {
        assert rest[j] in multiset(rest);
        LessIsTotal(key(xs[0]), key(x));
        assert rest[j] == x || rest[j] in xs[1..];
      }
    }
  }

  lemma {:induction false} SortPermutes<T(!new)>(xs: seq<T>, key: T -> string)
    ensures multiset(Sort(xs, key)) == multiset(xs) && |Sort(xs, key)| == |xs|
    ensures Sorted(Sort(xs, key), key)
  {
    if xs != [] {
      SortPermutes(xs[1..], key);
      InsertAdds(xs[0], Sort(xs[1..], key), key);
      InsertSorts(xs[0], Sort(xs[1..], key), key);
      assert xs == [xs[0]] + xs[1..];
    }
  }

  lemma SortedHeadsAgree<T(!new)>(xs: seq<T>, ys: seq<T>, key: T -> string)
    requires Sorted(xs, key) && Sorted(ys, key) && multiset(xs) == multiset(ys)
    requires KeyDecides(xs, key) && xs != [] && ys != []
    ensures xs[0] == ys[0]
  {
    assert xs[0] in multiset(ys) && ys[0] in multiset(xs);
    LessIsTotal(key(xs[0]), key(ys[0]));
  }

  lemma TailsAgree<T>(xs: seq<T>, ys: seq<T>)
    requires xs != [] && ys != [] && xs[0] == ys[0] && multiset(xs) == multiset(ys)
    ensures multiset(xs[1..]) == multiset(ys[1..])
  {
    assert xs == [xs[0]] + xs[1..] && ys == [ys[0]] + ys[1..];
    assert multiset(xs[1..]) == multiset(xs) - multiset{xs[0]};
    assert multiset(ys[1..]) == multiset(ys) - multiset{ys[0]};
  }

  /** A sorted list is the only sorted arrangement of its elements when the key decides. */
  lemma {:induction false} SortedIsUnique<T(!new)>(xs: seq<T>, ys: seq<T>, key: T -> string)
    requires Sorted(xs, key) && Sorted(ys, key) && multiset(xs) == multiset(ys)
    requires KeyDecides(xs, key)
    ensures xs == ys
  {
    if xs == [] {
      assert |multiset(ys)| == |ys|;
    } else {
      assert xs[0] in multiset(ys) && ys != [];
      SortedHeadsAgree(xs, ys, key);
      TailsAgree(xs, ys);
      SortedIsUnique(xs[1..], ys[1..], key);
      assert xs == [xs[0]] + xs[1..] && ys == [ys[0]] + ys[1..];
    }
  }

  lemma SortKeepsMembers<T(!new)>(xs: seq<T>, key: T -> string)
    ensures forall x :: x in Sort(xs, key) <==> x in xs
  {
    SortPermutes(xs, key);
    forall x ensures x in Sort(xs, key) <==> x in xs {
      assert x in Sort(xs, key) <==> x in multiset(Sort(xs, key));
      assert x in xs <==> x in multiset(xs);
    }
  }

  lemma SortIgnoresOrder<T(!new)>(xs: seq<T>, ys: seq<T>, key: T -> string)
    requires multiset(xs) == multiset(ys) && KeyDecides(xs, key)
    ensures Sort(xs, key) == Sort(ys, key)
  {
    SortPermutes(xs, key);
    SortPermutes(ys, key);
    SortKeepsMembers(xs, key);
    SortedIsUnique(Sort(xs, key), Sort(ys, key), key);
  }

  lemma {:induction false} SortOfSorted<T(!new)>(xs: seq<T>, key: T -> string)
    requires Sorted(xs, key)
    ensures Sort(xs, key) == xs
  {
    if xs != [] {
      SortOfSorted(xs[1..], key);
    }
  }

  // ----- lists mapped element by element -----

  function Mapped<S, T>(xs: seq<S>, f: S -> T): (ys: seq<T>)
    ensures |ys| == |xs| && forall i | 0 <= i < |xs| :: ys[i] == f(xs[i])
  {
    if xs == [] then [] else [f(xs[0])] + Mapped(xs[1..], f)
  }

  function Without<T>(xs: seq<T>, j: nat): (r: seq<T>)
    requires j < |xs|
    ensures |r| == |xs| - 1 && forall i | 0 <= i < |r| :: r[i] == if i < j then xs[i] else xs[i + 1]
  {
    xs[..j] + xs[j + 1..]
  }

  lemma MultisetWithout<T>(xs: seq<T>, j: nat)
    requires j < |xs|
    ensures multiset(xs) == multiset(Without(xs, j)) + multiset{xs[j]}
    ensures multiset(Without(xs, j)) == multiset(xs) - multiset{xs[j]}
  {
    assert xs == xs[..j] + [xs[j]] + xs[j + 1..];
  }

  lemma MappedWithout<S, T>(xs: seq<S>, j: nat, f: S -> T)
    requires j < |xs|
    ensures Without(Mapped(xs, f), j) == Mapped(Without(xs, j), f)
  {
    var a, b := Without(Mapped(xs, f), j), Mapped(Without(xs, j), f);
    forall i | 0 <= i < |a| ensures a[i] == b[i] {
      assert b[i] == f(Without(xs, j)[i]);
    }
  }

  /** Rearranging a list rearranges its image. */
  lemma {:induction false} MappedIgnoresOrder<S(!new), T(!new)>(xs: seq<S>, ys: seq<S>, f: S -> T)
    requires multiset(xs) == multiset(ys)
    ensures multiset(Mapped(xs, f)) == multiset(Mapped(ys, f))
    decreases |xs|
  {
    if xs == [] {
      assert |multiset(ys)| == |ys|;
    } else {
      assert xs[0] in multiset(ys);
      var j :| 0 <= j < |ys| && ys[j] == xs[0];
      MultisetWithout(xs, 0);
      MultisetWithout(ys, j);
      MappedIgnoresOrder(Without(xs, 0), Without(ys, j), f);
      MultisetWithout(Mapped(xs, f), 0);
      MultisetWithout(Mapped(ys, f), j);
      MappedWithout(xs, 0, f);
      MappedWithout(ys, j, f);
    }
  }

  // ----- the order of code units -----

  /** A character's UTF-16 code units. */
  function Units(c: char): seq<nat> {
    var n := c as nat;
    if n < 0x10000 then [n] else [0xD800 + (n - 0x10000) / 0x400, 0xDC00 + (n - 0x10000) % 0x400]
  }

  function Utf16(s: string): seq<nat> { if s == "" then [] else Units(s[0]) + Utf16(s[1..]) }

  /** Lexicographic order: a proper prefix first, otherwise the smaller unit where they first differ. */
  predicate UnitsLess(a: seq<nat>, b: seq<nat>) {
    if b == [] then false
    else if a == [] then true
    else if a[0] == b[0] then UnitsLess(a[1..], b[1..])
    else a[0] < b[0]
  }

  lemma {:induction false} SamePrefixSameOrder(p: seq<nat>, a: seq<nat>, b: seq<nat>)
    ensures UnitsLess(p + a, p + b) <==> UnitsLess(a, b)
  {
    if p == [] {
      assert p + a == a && p + b == b;
    } else {
      SamePrefixSameOrder(p[1..], a, b);
      assert (p + a)[1..] == p[1..] + a && (p + b)[1..] == p[1..] + b;
    }
  }

  lemma UnitsOrder(c: char, d: char, a: seq<nat>, b: seq<nat>)
    requires c != d
    ensures UnitsLess(Units(c) + a, Units(d) + b) <==> Rank(c) < Rank(d)
  {
    var x, y := Units(c), Units(d);
    assert (x + a)[0] == x[0] && (y + b)[0] == y[0];
    if x[0] == y[0] {
      assert (x + a)[1..] == [x[1]] + a && (y + b)[1..] == [y[1]] + b;
      assert ([x[1]] + a)[0] == x[1] && ([y[1]] + b)[0] == y[1];
    }
  }

  /** `Less` is what comparing strings by UTF-16 code units gives. */
  lemma {:induction false} LessComparesUnits(a: string, b: string)
    ensures Less(a, b) <==> UnitsLess(Utf16(a), Utf16(b))
  {
    if a != "" && b != "" {
      if a[0] == b[0] {
        LessComparesUnits(a[1..], b[1..]);
        SamePrefixSameOrder(Units(a[0]), Utf16(a[1..]), Utf16(b[1..]));
      } else {
        UnitsOrder(a[0], b[0], Utf16(a[1..]), Utf16(b[1..]));
      }
    }
  }
}
