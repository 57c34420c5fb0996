/** The sub-scope relation, which decides every authorization, and what it means:
    soundness over the requests a scope admits, transitivity and reflexivity
    (agent-core/src/scope.ts, sub-scope part). */
module SubScope {
  import opened Text
  import opened Scope
  import opened Registry
  import RoundTrip

  /** What the registry says of one key of one product and verb. */
  datatype KeyRule = KeyRule(numeric: bool, prefix: bool, fits: string -> bool)

  function RuleOf(product: string, verb: string, key: string): KeyRule {
    KeyRule(IsNumericKey(key), IsPrefixKey(product, verb, key), value => ValueFits(key, value))
  }

  // ----- integer ranges -----

  /** Integers between the bounds; an absent bound is infinite. */
  datatype Range = Range(lo: Option<int>, hi: Option<int>)

  predicate InRange(n: int, r: Range) {
    (r.lo.Some? ==> r.lo.value <= n) && (r.hi.Some? ==> n <= r.hi.value)
  }

  function OpToRange(c: Constraint): Option<Range> {
    if c.value.None? then None
    else
      match DecimalInteger(c.value.value)
      case None => None
      case Some(n) =>
        match c.op
        case Eq => Some(Range(Some(n), Some(n)))
        case Lt => Some(Range(None, Some(n - 1)))
        case Le => Some(Range(None, Some(n)))
        case Gt => Some(Range(Some(n + 1), None))
        case Ge => Some(Range(Some(n), None))
        case _ => None
  }

  predicate RangeSubset(ex: Constraint, g: Constraint) {
    var e, r := OpToRange(ex), OpToRange(g);
    && e.Some? && r.Some?
    && (r.value.lo.Some? ==> e.value.lo.Some? && r.value.lo.value <= e.value.lo.value)
    && (r.value.hi.Some? ==> e.value.hi.Some? && e.value.hi.value <= r.value.hi.value)
  }

  /** What the operators mean of integers. */
  predicate Compares(k: int, op: Op, n: int) {
    match op
    case Eq => k == n
    case Ne => k != n
    case Lt => k < n
    case Le => k <= n
    case Gt => k > n
    case Ge => k >= n
    case Any => true
  }

  /** The range of a constraint is the integers that compare with its bound as its operator says. */
  lemma RangeIsComparison(c: Constraint, k: int)
    requires c.value.Some? && DecimalInteger(c.value.value).Some? && c.op != Any && c.op != Ne
    ensures OpToRange(c).Some?
    ensures InRange(k, OpToRange(c).value) <==> Compares(k, c.op, DecimalInteger(c.value.value).value)
  {
  }

  lemma RangesCover(ex: Constraint, g: Constraint)
    requires OpToRange(ex).Some? && OpToRange(g).Some?
    ensures RangeSubset(ex, g)
       <==> forall n :: InRange(n, OpToRange(ex).value) ==> InRange(n, OpToRange(g).value)
  {
    var e, r := OpToRange(ex).value, OpToRange(g).value;
    if forall n :: InRange(n, e) ==> InRange(n, r) {
      var some := if e.lo.Some? then e.lo.value else e.hi.value;
      assert InRange(some, e);
      if r.lo.Some? && e.lo.None? {
        assert InRange(if some < r.lo.value then some else r.lo.value - 1, e);
      }
      if r.hi.Some? && e.hi.None? {
        assert InRange(if some > r.hi.value then some else r.hi.value + 1, e);
      }
      assert e.lo.Some? ==> InRange(e.lo.value, e);
      assert e.hi.Some? ==> InRange(e.hi.value, e);
    }
  }

  /** The bound comparison is exact: for two bounds that are decimal integers it holds just when every
      integer that compares as the one operator says also compares as the other does. */
  lemma RangeSubsetIsExact(ex: Constraint, g: Constraint, n: int, m: int)
    requires ex.value.Some? && DecimalInteger(ex.value.value) == Some(n) && ex.op != Any && ex.op != Ne
    requires g.value.Some? && DecimalInteger(g.value.value) == Some(m) && g.op != Any && g.op != Ne
    ensures RangeSubset(ex, g) <==> forall k :: Compares(k, ex.op, n) ==> Compares(k, g.op, m)
  {
    forall k ensures InRange(k, OpToRange(ex).value) <==> Compares(k, ex.op, n) { RangeIsComparison(ex, k); }
    forall k ensures InRange(k, OpToRange(g).value) <==> Compares(k, g.op, m) { RangeIsComparison(g, k); }
    RangesCover(ex, g);
  }

  // ----- the relation -----

  predicate Same(rule: KeyRule, v: string, w: string) {
    if rule.numeric then DecimalInteger(v) == DecimalInteger(w) else v == w
  }

  /** The granted constraint `g` admits the exercised one on its key, `ex`. */
  predicate Met(rule: KeyRule, ex: Option<Constraint>, g: Constraint) {
    g.op == Any ||
    (ex.Some? && ex.value.value.Some? && g.value.Some? &&
     var e, ev, gv := ex.value, ex.value.value.value, g.value.value;
     match g.op
     case Eq => e.op == Eq && if rule.prefix then rule.fits(ev) && gv <= ev else ev == gv
     case Ne =>
       && rule.fits(ev) && rule.fits(gv) && !rule.prefix
       && ((e.op == Eq && !Same(rule, ev, gv)) || (e.op == Ne && Same(rule, ev, gv)))
     case _ => rule.numeric && e.op != Any && RangeSubset(e, g))
  }

  /** The last constraint on a key, as a map built in order keeps it. */
  function Lookup(cs: seq<Constraint>, key: string): (r: Option<Constraint>)
    ensures r.Some? ==> r.value in cs && r.value.key == key
  {
    if cs == [] then None
    else if cs[|cs| - 1].key == key then Some(cs[|cs| - 1])
    else Lookup(cs[..|cs| - 1], key)
  }

  predicate MetBy(e: Scope, g: Constraint) {
    Met(RuleOf(e.product, e.verb, g.key), Lookup(e.constraints, g.key), g)
  }

  predicate IsSubScope(e: Scope, g: Scope) {
    && e.product == g.product && e.verb == g.verb
    && forall i | 0 <= i < |g.constraints| :: MetBy(e, g.constraints[i])
  }

  method IndexByKey(cs: seq<Constraint>) returns (index: map<string, Constraint>)
    ensures forall key :: Lookup(cs, key) == if key in index then Some(index[key]) else None
  {
    index := map[];
    for i := 0 to |cs|
      invariant forall key :: Lookup(cs[..i], key) == if key in index then Some(index[key]) else None
    {
      assert cs[..i + 1][..i] == cs[..i];
      index := index[cs[i].key := cs[i]];
    }
    assert cs[..|cs|] == cs;
  }

  method CheckConstraint(rule: KeyRule, ex: Option<Constraint>, g: Constraint) returns (met: bool)
    ensures met == Met(rule, ex, g)
  {
    if g.op == Any {
      return true;
    }
    if g.op == Eq {
      if ex.None? || ex.value.op != Eq || ex.value.value.None? || g.value.None? {
        return false;
      }
      if rule.prefix {
        return rule.fits(ex.value.value.value) && g.value.value <= ex.value.value.value;
      }
      return ex.value.value.value == g.value.value;
    }
    if g.op == Ne {
      if ex.None? || ex.value.value.None? || g.value.None? {
        return false;
      }
      if !rule.fits(ex.value.value.value) || !rule.fits(g.value.value) || rule.prefix {
        return false;
      }
      var same := Same(rule, ex.value.value.value, g.value.value);
      return (ex.value.op == Eq && !same) || (ex.value.op == Ne && same);
    }
    if ex.None? || !rule.numeric || ex.value.op == Any || ex.value.value.None? || g.value.None? {
      return false;
    }
    return RangeSubset(ex.value, g);
  }

  /** The loop over the granted constraints, with its early refusals. */
  method CheckSubScope(exercised: Scope, granted: Scope) returns (r: bool)
    ensures r == IsSubScope(exercised, granted)
  {
    if exercised.product != granted.product || exercised.verb != granted.verb {
      return false;
    }
    var exIndex := IndexByKey(exercised.constraints);
    for i := 0 to |granted.constraints|
      invariant forall j | 0 <= j < i :: MetBy(exercised, granted.constraints[j])
    {
      var g := granted.constraints[i];
      var rule := RuleOf(granted.product, granted.verb, g.key);
      var met := CheckConstraint(rule, if g.key in exIndex then Some(exIndex[g.key]) else None, g);
      if !met {
        return false;
      }
    }
    return true;
  }

  // ----- transitivity -----

  lemma MetTransitive(rule: KeyRule, a: Option<Constraint>, b: Constraint, c: Constraint)
    requires Met(rule, a, b) && Met(rule, Some(b), c) && (rule.prefix ==> !rule.numeric)
    ensures Met(rule, a, c)
  {
  }

  /** Narrowing composes, for every pair of scopes and every mix of operators. */
  lemma SubScopeTransitive(a: Scope, b: Scope, c: Scope)
    requires IsSubScope(a, b) && IsSubScope(b, c)
    ensures IsSubScope(a, c)
  {
    forall i | 0 <= i < |c.constraints| ensures MetBy(a, c.constraints[i]) {
      var g := c.constraints[i];
      var rule := RuleOf(a.product, a.verb, g.key);
      assert MetBy(b, g);
      if g.op != Any {
        var m := Lookup(b.constraints, g.key).value;
        var k :| 0 <= k < |b.constraints| && b.constraints[k] == m;
        assert MetBy(a, b.constraints[k]);
        if rule.prefix {
          PrefixKeysAreNotNumeric(a.product, a.verb, g.key);
        }
        MetTransitive(rule, Lookup(a.constraints, g.key), m, g);
      }
    }
  }

  // ----- reflexivity -----

  predicate Ordered(c: Constraint) { c.op == Lt || c.op == Le || c.op == Gt || c.op == Ge }

  /** Every ordered constraint is on a key whose values are numbers. */
  predicate OrdersOnlyNumbers(s: Scope) {
    forall i | 0 <= i < |s.constraints| :: Ordered(s.constraints[i]) ==> IsNumericKey(s.constraints[i].key)
  }

  lemma {:induction false} LookupDistinct(cs: seq<Constraint>, i: nat)
    requires DistinctKeys(cs) && i < |cs|
    ensures Lookup(cs, cs[i].key) == Some(cs[i])
  {
    if i < |cs| - 1 {
      LookupDistinct(cs[..|cs| - 1], i);
    }
  }

  lemma StrictConstraintMeetsItself(s: Scope, i: nat)
    requires Valid(s, Strict) && i < |s.constraints| && RoundTrip.WellFormedConstraint(s.constraints[i])
    ensures var c := s.constraints[i];
            Met(RuleOf(s.product, s.verb, c.key), Some(c), c) <==> (Ordered(c) ==> IsNumericKey(c.key))
  {
    var c := s.constraints[i];
    var reg := Registered(s.product, s.verb).value;
    assert ConstraintValid(reg, Strict, c);
    if c.op != Any {
      assert ValueFits(c.key, c.value.value);
    }
  }

  /** A strictly valid scope covers itself exactly when it orders only numeric keys. */
  lemma SubScopeReflexive(s: Scope)
    requires RoundTrip.WellFormed(s) && Valid(s, Strict)
    ensures IsSubScope(s, s) <==> OrdersOnlyNumbers(s)
  {
    forall i | 0 <= i < |s.constraints|
      ensures MetBy(s, s.constraints[i])
         <==> (Ordered(s.constraints[i]) ==> IsNumericKey(s.constraints[i].key))
    {
      LookupDistinct(s.constraints, i);
      StrictConstraintMeetsItself(s, i);
    }
  }

  // ----- what a scope admits -----

  /** A request: the value it gives each key it names. */
  type Request = map<string, string>

  /** The integer a text of any size denotes. */
  function AnyInteger(v: string): Option<int> { if IsInteger(v) then Some(IntegerValue(v)) else None }

  /** `v` is a value other than `w`: numbers are compared as numbers, of any size. */
  predicate Differs(rule: KeyRule, v: string, w: string) {
    if rule.numeric then IsInteger(v) && AnyInteger(v) != AnyInteger(w) else rule.fits(v) && v != w
  }

  predicate Holds(rule: KeyRule, c: Constraint, r: Request) {
    c.op == Any ||
    (c.key in r && c.value.Some? &&
     var v, w := r[c.key], c.value.value;
     if c.op == Eq then if rule.prefix then rule.fits(v) && w <= v else v == w
     else if c.op == Ne then Differs(rule, v, w) && !(rule.prefix && w <= v)
     else
       && rule.numeric && IsInteger(v) && DecimalInteger(w).Some?
       && Compares(IntegerValue(v), c.op, DecimalInteger(w).value))
  }

  predicate Admits(s: Scope, r: Request) {
    forall i | 0 <= i < |s.constraints| :: Holds(RuleOf(s.product, s.verb, s.constraints[i].key), s.constraints[i], r)
  }

  /** What the registry guarantees of every key: a number fits when it is a decimal integer. */
  ghost predicate Sensible(rule: KeyRule) {
    && (rule.prefix ==> !rule.numeric)
    && (rule.numeric ==> forall v :: rule.fits(v) <==> DecimalInteger(v).Some?)
  }

  lemma NumbersNeedNothingElse(key: string)
    requires IsNumericKey(key)
    ensures key !in {"method", "content_hash_prefix", "poll_id", "node", "mime"}
    ensures key !in {"recipient", "counterparty", "origin", "server", "relay"}
  {
    assert key == "kind" || (key[..4] == "max_" && key[0] == 'm' && key[3] == '_');
  }

  lemma RulesAreSensible(product: string, verb: string, key: string)
    ensures Sensible(RuleOf(product, verb, key))
  {
    if IsPrefixKey(product, verb, key) {
      PrefixKeysAreNotNumeric(product, verb, key);
    }
    if IsNumericKey(key) {
      NumbersNeedNothingElse(key);
    }
  }

  lemma MetIsSound(rule: KeyRule, e: Constraint, g: Constraint, r: Request)
    requires e.key == g.key && Met(rule, Some(e), g) && Holds(rule, e, r) && Sensible(rule)
    ensures Holds(rule, g, r)
  {
    if Ordered(g) {
      RangeSubsetIsExact(e, g, DecimalInteger(e.value.value).value, DecimalInteger(g.value.value).value);
    }
  }

  /** Every request a sub-scope admits is admitted by the scope above it. */
  lemma SubScopeIsSound(e: Scope, g: Scope, r: Request)
    requires IsSubScope(e, g) && Admits(e, r)
    ensures Admits(g, r)
  {
    forall i | 0 <= i < |g.constraints|
      ensures Holds(RuleOf(g.product, g.verb, g.constraints[i].key), g.constraints[i], r)
    {
      var c := g.constraints[i];
      var rule := RuleOf(g.product, g.verb, c.key);
      assert MetBy(e, c);
      if c.op != Any {
        var x := Lookup(e.constraints, c.key).value;
        var k :| 0 <= k < |e.constraints| && e.constraints[k] == x;
        RulesAreSensible(g.product, g.verb, c.key);
        MetIsSound(rule, x, c, r);
      }
    }
  }

  // ----- one less than, or less than or equal -----

  function OneBound(product: string, verb: string, key: string, op: Op, n: int): Scope {
    Scope(product, verb, [Constraint(key, op, Some(IntegerText(n)), false)])
  }

  lemma OneBoundUnderOne(product: string, verb: string, key: string, op: Op, n: int, other: Op, m: int)
    requires IsNumericKey(key) && -MAX_SAFE <= n <= MAX_SAFE && -MAX_SAFE <= m <= MAX_SAFE
    requires op in {Lt, Le, Gt, Ge, Eq} && other in {Lt, Le, Gt, Ge}
    ensures IsSubScope(OneBound(product, verb, key, op, n), OneBound(product, verb, key, other, m))
       <==> forall k :: Compares(k, op, n) ==> Compares(k, other, m)
  {
    var e, g := OneBound(product, verb, key, op, n), OneBound(product, verb, key, other, m);
    var c := e.constraints[0];
    assert Lookup(e.constraints, key) == Some(c);
    RangeSubsetIsExact(c, g.constraints[0], n, m);
    assert MetBy(e, g.constraints[0]) <==> RangeSubset(c, g.constraints[0]);
  }

  /** Less than `n` and at most `n - 1` cover each other, and so do more than `n` and at least `n + 1`. */
  lemma StrictAndWeakBoundsCoincide(product: string, verb: string, key: string, n: int)
    requires IsNumericKey(key) && -MAX_SAFE < n < MAX_SAFE
    ensures IsSubScope(OneBound(product, verb, key, Lt, n), OneBound(product, verb, key, Le, n - 1))
    ensures IsSubScope(OneBound(product, verb, key, Le, n - 1), OneBound(product, verb, key, Lt, n))
    ensures IsSubScope(OneBound(product, verb, key, Gt, n), OneBound(product, verb, key, Ge, n + 1))
    ensures IsSubScope(OneBound(product, verb, key, Ge, n + 1), OneBound(product, verb, key, Gt, n))
  {
    OneBoundUnderOne(product, verb, key, Lt, n, Le, n - 1);
    OneBoundUnderOne(product, verb, key, Le, n - 1, Lt, n);
    OneBoundUnderOne(product, verb, key, Gt, n, Ge, n + 1);
    OneBoundUnderOne(product, verb, key, Ge, n + 1, Gt, n);
  }
}
