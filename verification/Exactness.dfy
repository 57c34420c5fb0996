/** How much of the inclusion between scopes the sub-scope relation decides: all of it,
    except an exercised range under a granted `!=`, which it always refuses. */
module Exactness {
  import opened Text
  import opened Scope
  import opened Registry
  import opened SubScope
  import RoundTrip

  // ----- other spellings and other values -----

  lemma {:induction false} LeadingZero(s: string)
    requires AllDigits(s)
    ensures NumeralValue("0" + s, 10) == NumeralValue(s, 10)
  {
    var t := "0" + s;
    if s == "" {
      assert t[..0] == "";
    } else {
      assert t[..|t| - 1] == "0" + s[..|s| - 1];
      LeadingZero(s[..|s| - 1]);
    }
  }

  /** Another text of the same integer. */
  function Padded(v: string): string
    requires IsInteger(v)
  {
    if v[0] == '-' then "-" + ("0" + v[1..]) else "0" + v
  }

  lemma PaddedIsSameInteger(v: string)
    requires IsInteger(v)
    ensures IsInteger(Padded(v)) && IntegerValue(Padded(v)) == IntegerValue(v) && Padded(v) != v
  {
    if v[0] == '-' {
      LeadingZero(v[1..]);
      assert Padded(v)[1..] == "0" + v[1..];
      assert |Padded(v)| == |v| + 1;
    } else {
      LeadingZero(v);
      assert |Padded(v)| == |v| + 1;
    }
  }

  /** A value the key can take, one for each letter. */
  function Sample(key: string, c: char): string
    requires c in "abc"
  {
    if key == "mime" then [c] + "/a" else if key == "method" then [(c as int - 32) as char] else [c]
  }

  lemma MimeSampleFits(c: char)
    requires c in "abc"
    ensures IsMimeText([c] + "/a")
  {
    var v := [c] + "/a";
    FirstOccurrence([c], '/', "a");
    assert v == [c] + ['/'] + "a";
    assert v[..1] == [c] && v[2..] == "a";
  }

  lemma LetterFits(key: string, c: char)
    requires c in "abc" && !IsNumericKey(key) && key != "mime" && key != "method"
    ensures ValueFits(key, [c])
  {
    var v := [c];
    assert IsLowerHex(v[0]) && !IsUpper(v[0]) && v[0] != '\\';
    assert !IsBech32(v);
    assert !HasUpper(v) && !HasUpper(UrlHead(v));
  }

  lemma SampleFits(key: string, c: char)
    requires c in "abc" && !IsNumericKey(key)
    ensures ValueFits(key, Sample(key, c))
  {
    if key == "mime" {
      MimeSampleFits(c);
    } else if key != "method" {
      LetterFits(key, c);
    }
  }

  // ----- requests -----

  ghost predicate Included(e: Scope, g: Scope) { forall r :: Admits(e, r) ==> Admits(g, r) }

  /** The constraint of `s` on its `i`th key, seen through a request that differs only there. */
  lemma OtherKeysStand(s: Scope, i: nat, r: Request, r': Request)
    requires DistinctKeys(s.constraints) && i < |s.constraints| && Admits(s, r)
    requires var key := s.constraints[i].key; r' - {key} == r - {key}
    requires Holds(RuleOf(s.product, s.verb, s.constraints[i].key), s.constraints[i], r')
    ensures Admits(s, r')
  {
    var key := s.constraints[i].key;
    forall j | 0 <= j < |s.constraints|
      ensures Holds(RuleOf(s.product, s.verb, s.constraints[j].key), s.constraints[j], r')
    {
      var c := s.constraints[j];
      if j != i && c.op != Any {
        assert c.key in (r - {key}) && (r - {key})[c.key] == r[c.key];
        assert c.key in (r' - {key}) && (r' - {key})[c.key] == r'[c.key];
      }
    }
  }

  lemma DroppedKey(s: Scope, key: string, r: Request)
    requires DistinctKeys(s.constraints) && Admits(s, r)
    requires Lookup(s.constraints, key).None? || Lookup(s.constraints, key).value.op == Any
    ensures Admits(s, r - {key})
  {
    forall j | 0 <= j < |s.constraints|
      ensures Holds(RuleOf(s.product, s.verb, s.constraints[j].key), s.constraints[j], r - {key})
    {
      LookupDistinct(s.constraints, j);
    }
  }

  /** A request that changes one constrained key to a value its constraint takes. */
  lemma Changed(e: Scope, g: Scope, i: nat, k: nat, w: Request, v: string)
    requires DistinctKeys(e.constraints) && Admits(e, w) && Included(e, g)
    requires i < |e.constraints| && k < |g.constraints| && e.constraints[i].key == g.constraints[k].key
    requires e.product == g.product && e.verb == g.verb
    requires var c := e.constraints[i]; Holds(RuleOf(e.product, e.verb, c.key), c, w[c.key := v])
    ensures var c := g.constraints[k]; Holds(RuleOf(e.product, e.verb, c.key), c, w[c.key := v])
  {
    var key := e.constraints[i].key;
    assert w[key := v] - {key} == w - {key};
    OtherKeysStand(e, i, w, w[key := v]);
  }

  // ----- one pair of constraints -----

  /** What strict validation and the parser say of a constraint on a registered key. */
  ghost predicate Proper(rule: KeyRule, c: Constraint) {
    && (c.op != Any ==> c.value.Some? && rule.fits(c.value.value))
    && !(rule.prefix && c.op == Ne)
  }

  lemma ProperConstraint(s: Scope, i: nat)
    requires RoundTrip.WellFormed(s) && Valid(s, Strict) && i < |s.constraints|
    ensures Proper(RuleOf(s.product, s.verb, s.constraints[i].key), s.constraints[i])
  {
    assert ConstraintValid(Registered(s.product, s.verb).value, Strict, s.constraints[i]);
  }

  /** `g` holds whenever `e` does, the value of their key being the only unknown. */
  ghost predicate Follows(rule: KeyRule, e: Constraint, g: Constraint) {
    forall v :: Holds(rule, e, map[e.key := v]) ==> Holds(rule, g, map[e.key := v])
  }

  lemma EqualIsExact(rule: KeyRule, e: Constraint, g: Constraint)
    requires Sensible(rule) && Proper(rule, e) && Proper(rule, g) && e.key == g.key
    requires Follows(rule, e, g) && e.op == Eq
    ensures Met(rule, Some(e), g)
  {
    var v := e.value.value;
    assert Holds(rule, e, map[e.key := v]);
    assert Holds(rule, g, map[e.key := v]);
  }

  lemma OrderedIsExact(rule: KeyRule, e: Constraint, g: Constraint, v: string)
    requires Sensible(rule) && Proper(rule, e) && Proper(rule, g) && e.key == g.key
    requires Follows(rule, e, g) && Ordered(e) && g.op != Ne && Holds(rule, e, map[e.key := v])
    ensures Met(rule, Some(e), g)
  {
    assert Holds(rule, g, map[e.key := v]);
    if g.op == Eq {
      PaddedIsSameInteger(v);
      assert Holds(rule, e, map[e.key := Padded(v)]);
    } else if Ordered(g) {
      var n, m := DecimalInteger(e.value.value).value, DecimalInteger(g.value.value).value;
      forall k | Compares(k, e.op, n) ensures Compares(k, g.op, m) {
        assert Holds(rule, e, map[e.key := IntegerText(k)]);
        assert Holds(rule, g, map[e.key := IntegerText(k)]);
      }
      RangeSubsetIsExact(e, g, n, m);
    }
  }

  /** A number the `!=` takes and the range does not. */
  lemma UnequalEscapesRange(rule: KeyRule, e: Constraint, g: Constraint) returns (v: string)
    requires rule.numeric && e.key == g.key && e.op == Ne && e.value.Some? && !rule.prefix
    requires Ordered(g) && g.value.Some? && DecimalInteger(g.value.value).Some?
    ensures Holds(rule, e, map[e.key := v]) && !Holds(rule, g, map[e.key := v])
  {
    var bound, below := DecimalInteger(g.value.value).value, g.op == Gt || g.op == Ge;
    var n := if below then bound - 1 else bound + 1;
    var m := if below then n - 1 else n + 1;
    v := IntegerText(if AnyInteger(e.value.value) == Some(n) then m else n);
  }

  lemma UnequalIsExact(rule: KeyRule, e: Constraint, g: Constraint, v: string)
    requires Sensible(rule) && Proper(rule, e) && Proper(rule, g) && e.key == g.key
    requires Follows(rule, e, g) && e.op == Ne && Holds(rule, e, map[e.key := v])
    requires !rule.numeric ==> forall c | c in "abc" :: rule.fits(Sample(e.key, c))
    ensures Met(rule, Some(e), g)
  {
    var out := e.value.value;
    assert Holds(rule, g, map[e.key := v]);
    if g.op == Ne {
      var w := g.value.value;
      assert Holds(rule, e, map[e.key := w]) ==> Holds(rule, g, map[e.key := w]);
    } else if g.op == Eq && rule.numeric {
      PaddedIsSameInteger(v);
      assert Holds(rule, e, map[e.key := Padded(v)]);
    } else if g.op == Eq {
      var a, b, c := Sample(e.key, 'a'), Sample(e.key, 'b'), Sample(e.key, 'c');
      assert a[0] != b[0] && b[0] != c[0] && a[0] != c[0];
      var other := if a != out && a != g.value.value then a else if b != out && b != g.value.value then b else c;
      assert Holds(rule, e, map[e.key := other]);
    } else if Ordered(g) {
      var _ := UnequalEscapesRange(rule, e, g);
    }
  }

  // ----- whole scopes -----

  /** The granted scope withholds a value with `!=` where the exercised one states a range. */
  ghost predicate RangeUnderUnequal(e: Scope, g: Scope) {
    exists i, k | 0 <= i < |e.constraints| && 0 <= k < |g.constraints| ::
      e.constraints[i].key == g.constraints[k].key && Ordered(e.constraints[i]) && g.constraints[k].op == Ne
  }

  lemma InclusionFollows(e: Scope, g: Scope, i: nat, k: nat, w: Request)
    requires DistinctKeys(e.constraints) && Admits(e, w) && Included(e, g)
    requires e.product == g.product && e.verb == g.verb
    requires i < |e.constraints| && k < |g.constraints| && e.constraints[i].key == g.constraints[k].key
    ensures Follows(RuleOf(e.product, e.verb, e.constraints[i].key), e.constraints[i], g.constraints[k])
  {
    var c := e.constraints[i];
    var rule := RuleOf(e.product, e.verb, c.key);
    forall v | Holds(rule, c, map[c.key := v]) ensures Holds(rule, g.constraints[k], map[c.key := v]) {
      assert w[c.key := v][c.key] == map[c.key := v][c.key];
      Changed(e, g, i, k, w, v);
    }
  }

  lemma InclusionMeets(e: Scope, g: Scope, k: nat, w: Request)
    requires e.product == g.product && e.verb == g.verb && k < |g.constraints|
    requires RoundTrip.WellFormed(e) && RoundTrip.WellFormed(g) && Valid(e, Strict) && Valid(g, Strict)
    requires Admits(e, w) && Included(e, g) && !RangeUnderUnequal(e, g)
    ensures MetBy(e, g.constraints[k])
  {
    var c := g.constraints[k];
    var x := Lookup(e.constraints, c.key);
    if c.op == Any {
    } else if x.None? || x.value.op == Any {
      DroppedKey(e, c.key, w);
    } else {
      var i :| 0 <= i < |e.constraints| && e.constraints[i] == x.value;
      var rule := RuleOf(e.product, e.verb, c.key);
      RulesAreSensible(e.product, e.verb, c.key);
      ProperConstraint(e, i);
      ProperConstraint(g, k);
      InclusionFollows(e, g, i, k, w);
      assert Holds(rule, x.value, map[c.key := w[c.key]]);
      if x.value.op == Eq {
        EqualIsExact(rule, x.value, c);
      } else if x.value.op == Ne {
        if !rule.numeric {
          forall letter | letter in "abc" ensures rule.fits(Sample(c.key, letter)) { SampleFits(c.key, letter); }
        }
        UnequalIsExact(rule, x.value, c, w[c.key]);
      } else {
        OrderedIsExact(rule, x.value, c, w[c.key]);
      }
    }
  }

  lemma RangeUnderUnequalIsRefused(e: Scope, g: Scope)
    requires RoundTrip.WellFormed(e) && RangeUnderUnequal(e, g)
    ensures !IsSubScope(e, g)
  {
    var i, k :| 0 <= i < |e.constraints| && 0 <= k < |g.constraints| &&
      e.constraints[i].key == g.constraints[k].key && Ordered(e.constraints[i]) && g.constraints[k].op == Ne;
    LookupDistinct(e.constraints, i);
    assert !MetBy(e, g.constraints[k]);
  }

  // ----- which scopes admit something -----

  /** A value the constraint takes. */
  function TakenValue(c: Constraint): string
    requires c.op != Any && c.value.Some? && ValueFits(c.key, c.value.value) && (Ordered(c) ==> IsNumericKey(c.key))
  {
    var w := c.value.value;
    if c.op == Eq then w
    else if Ordered(c) then
      var n := DecimalInteger(w).value;
      IntegerText(if c.op == Lt then n - 1 else if c.op == Gt then n + 1 else n)
    else if IsNumericKey(c.key) then IntegerText(IntegerValue(w) + 1)
    else if w != Sample(c.key, 'a') then Sample(c.key, 'a')
    else Sample(c.key, 'b')
  }

  lemma TakenValueHolds(rule: KeyRule, c: Constraint)
    requires Proper(rule, c) && Sensible(rule) && c.op != Any && (Ordered(c) ==> IsNumericKey(c.key))
    requires rule.numeric == IsNumericKey(c.key) && (forall v :: rule.fits(v) <==> ValueFits(c.key, v))
    ensures ValueFits(c.key, c.value.value) && Holds(rule, c, map[c.key := TakenValue(c)])
  {
    if c.op == Ne && !rule.numeric {
      SampleFits(c.key, 'a');
      SampleFits(c.key, 'b');
      assert Sample(c.key, 'a')[0] != Sample(c.key, 'b')[0];
    }
  }

  lemma ConstraintTakesSomething(s: Scope, i: nat) returns (v: string)
    requires RoundTrip.WellFormed(s) && Valid(s, Strict) && OrdersOnlyNumbers(s) && i < |s.constraints|
    ensures var c := s.constraints[i];
            c.op != Any ==> Holds(RuleOf(s.product, s.verb, c.key), c, map[c.key := v])
  {
    var c := s.constraints[i];
    v := "";
    if c.op != Any {
      ProperConstraint(s, i);
      RulesAreSensible(s.product, s.verb, c.key);
      TakenValueHolds(RuleOf(s.product, s.verb, c.key), c);
      v := TakenValue(c);
    }
  }

  /** Only the value of its own key matters to a constraint. */
  lemma HoldsByKey(rule: KeyRule, c: Constraint, r: Request, other: Request)
    requires Holds(rule, c, r) && (c.key in r ==> c.key in other && other[c.key] == r[c.key])
    ensures Holds(rule, c, other)
  {
  }

  /** A request with one value for each of the first `n` constraints. */
  lemma {:induction false} TakenTogether(s: Scope, n: nat) returns (r: Request)
    requires RoundTrip.WellFormed(s) && Valid(s, Strict) && OrdersOnlyNumbers(s) && n <= |s.constraints|
    ensures forall i | 0 <= i < n :: Holds(RuleOf(s.product, s.verb, s.constraints[i].key), s.constraints[i], r)
  {
    if n == 0 {
      r := map[];
    } else {
      var before := TakenTogether(s, n - 1);
      var v := ConstraintTakesSomething(s, n - 1);
      var key := s.constraints[n - 1].key;
      r := before[key := v];
      forall i | 0 <= i < n ensures Holds(RuleOf(s.product, s.verb, s.constraints[i].key), s.constraints[i], r) {
        var c := s.constraints[i];
        HoldsByKey(RuleOf(s.product, s.verb, c.key), c, if i < n - 1 then before else map[key := v], r);
      }
    }
  }

  /** A strictly valid scope admits some request exactly when it orders only numbers. */
  lemma AdmitsSomething(s: Scope)
    requires RoundTrip.WellFormed(s) && Valid(s, Strict)
    ensures (exists r :: Admits(s, r)) <==> OrdersOnlyNumbers(s)
  {
    if OrdersOnlyNumbers(s) {
      var r := TakenTogether(s, |s.constraints|);
      assert Admits(s, r);
    }
  }

  // ----- exactness -----

  ghost predicate SameVerb(e: Scope, g: Scope) { e.product == g.product && e.verb == g.verb }

  /** Inclusion of what the scopes admit, less the ranges under `!=`. */
  ghost predicate IncludedButRanges(e: Scope, g: Scope) {
    SameVerb(e, g) && Included(e, g) && !RangeUnderUnequal(e, g)
  }

  /** For strictly valid scopes, the exercised one ordering only numbers: the relation is inclusion,
      less the ranges under `!=`. */
  lemma SubScopeIsExact(e: Scope, g: Scope)
    requires RoundTrip.WellFormed(e) && RoundTrip.WellFormed(g) && Valid(e, Strict) && Valid(g, Strict)
    requires OrdersOnlyNumbers(e)
    ensures IsSubScope(e, g) <==> IncludedButRanges(e, g)
  {
    if IsSubScope(e, g) {
      forall r | Admits(e, r) ensures Admits(g, r) { SubScopeIsSound(e, g, r); }
      if RangeUnderUnequal(e, g) {
        RangeUnderUnequalIsRefused(e, g);
      }
    } else if IncludedButRanges(e, g) {
      AdmitsSomething(e);
      var w :| Admits(e, w);
      forall k | 0 <= k < |g.constraints| ensures MetBy(e, g.constraints[k]) { InclusionMeets(e, g, k, w); }
    }
  }

  lemma OneKeyOneOp(e: Scope)
    requires DistinctKeys(e.constraints)
    ensures !RangeUnderUnequal(e, e)
  {
  }

  /** And only for those: a strictly valid scope that orders text admits nothing, so it is included
      even in itself, and it is not its own sub-scope. */
  lemma ExactJustForThose(e: Scope)
    requires RoundTrip.WellFormed(e) && Valid(e, Strict)
    ensures (forall g | RoundTrip.WellFormed(g) && Valid(g, Strict) :: IsSubScope(e, g) <==> IncludedButRanges(e, g))
       <==> OrdersOnlyNumbers(e)
  {
    if OrdersOnlyNumbers(e) {
      forall g | RoundTrip.WellFormed(g) && Valid(g, Strict) ensures IsSubScope(e, g) <==> IncludedButRanges(e, g) {
        SubScopeIsExact(e, g);
      }
    } else {
      SubScopeReflexive(e);
      OneKeyOneOp(e);
      assert IncludedButRanges(e, e);
    }
  }

  function OneConstraint(c: Constraint): Scope { Scope("nostr", "publish", [c]) }

  lemma PublishIsRegistered()
    ensures Registered("nostr", "publish") == Some(Registration({"kind", "relay", "max_bytes"}, {}, []))
  {
    assert "nostr" + ":" + "publish" == "nostr:publish";
  }

  lemma KindIsANumber(value: string)
    requires value == "0" || value == "1"
    ensures IsNumericKey("kind") && ValueFits("kind", value) && AnyInteger(value) == Some(if value == "0" then 0 else 1)
  {
    NumbersNeedNothingElse("kind");
    assert value[..0] == "" && |value| == 1 && IsDigit(value[0]);
    assert IsInteger(value) && NumeralValue(value[..0], 10) == 0;
    assert IntegerValue(value) == DigitValue(value[0]);
  }

  /** `nostr:publish(kind>=1)` asks for nothing outside `nostr:publish(kind!=0)` and is refused under it. */
  lemma PositiveKindIsRefused()
    ensures var e := OneConstraint(Constraint("kind", Ge, Some("1"), false));
            var g := OneConstraint(Constraint("kind", Ne, Some("0"), false));
            Valid(e, Strict) && Valid(g, Strict) && Included(e, g) && !IsSubScope(e, g)
  {
    var e := OneConstraint(Constraint("kind", Ge, Some("1"), false));
    var g := OneConstraint(Constraint("kind", Ne, Some("0"), false));
    PublishIsRegistered();
    KindIsANumber("0");
    KindIsANumber("1");
    assert e.constraints[0].key == g.constraints[0].key;
    assert Lookup(e.constraints, "kind") == Some(e.constraints[0]);
    assert !MetBy(e, g.constraints[0]);
    forall r | Admits(e, r) ensures Admits(g, r) {
      assert Holds(RuleOf("nostr", "publish", "kind"), e.constraints[0], r);
      assert Compares(IntegerValue(r["kind"]), Ge, 1);
    }
  }
}
