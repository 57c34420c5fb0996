/** The parser and the canonical printer undo each other, and a comma-joined list of
    canonical scopes splits back into exactly that list. */
module RoundTrip {
  import opened Text
  import opened Scope
  import opened Sorting

  // ----- what the parser builds -----

  predicate WellFormedConstraint(c: Constraint) {
    && IsIdent(c.key)
    && if c.op == Any then c.value.None? && !c.quoted
       else c.value.Some? && if c.quoted then NoSpaces(c.value.value) else IsBareToken(c.value.value)
  }

  predicate WellFormed(s: Scope) {
    && IsIdent(s.product) && IsIdent(s.verb)
    && DistinctKeys(s.constraints)
    && forall i | 0 <= i < |s.constraints| :: WellFormedConstraint(s.constraints[i])
  }

  lemma {:induction false} UnescapeKeepsNoSpaces(inner: string)
    requires NoSpaces(inner) && Unescape(inner).Some?
    ensures NoSpaces(Unescape(inner).value)
  {
    if inner == "" {
    } else if inner[0] == '\\' && |inner| > 1 {
      UnescapeKeepsNoSpaces(inner[2..]);
    } else {
      UnescapeKeepsNoSpaces(inner[1..]);
    }
  }

  lemma TakeAtIsWellFormed(piece: string, idx: nat, op: Op)
    requires NoSpaces(piece) && op != Any && idx + |OpText(op)| <= |piece| && IsIdent(piece[..idx])
    requires TakeAt(piece, idx, op).Some?
    ensures WellFormedConstraint(TakeAt(piece, idx, op).value)
  {
    var raw := piece[idx + |OpText(op)|..];
    if raw[0] == '"' {
      UnescapeKeepsNoSpaces(raw[1..|raw| - 1]);
    }
  }

  lemma ParseConstraintIsWellFormed(piece: string)
    requires NoSpaces(piece) && ParseConstraint(piece).Some?
    ensures WellFormedConstraint(ParseConstraint(piece).value)
  {
    if WildcardKey(piece).None? {
      var op := ChooseOp(piece).value;
      TakeAtIsWellFormed(piece, IndexOf(piece, OpText(op)), op);
    }
  }

  lemma {:induction false} SplitKeepsNoSpaces(text: string, st: Scan)
    requires NoSpaces(text)
    ensures forall i | 0 <= i < |Split(text, st)| :: NoSpaces(Split(text, st)[i])
  {
    if text != "" {
      if Cuts(st, text[0]) {
        SplitKeepsNoSpaces(text[1..], st);
      } else {
        SplitKeepsNoSpaces(text[1..], Next(st, text[0]));
      }
    }
  }

  lemma {:induction false} ParsePiecesIsWellFormed(pieces: seq<string>)
    requires ParsePieces(pieces).Some? && forall i | 0 <= i < |pieces| :: NoSpaces(pieces[i])
    ensures var cs := ParsePieces(pieces).value; forall i | 0 <= i < |cs| :: WellFormedConstraint(cs[i])
  {
    if pieces != [] {
      ParseConstraintIsWellFormed(pieces[0]);
      ParsePiecesIsWellFormed(pieces[1..]);
      assert ParsePieces(pieces).value == [ParseConstraint(pieces[0]).value] + ParsePieces(pieces[1..]).value;
    }
  }

  lemma TailHasNoSpaces(rest: string)
    requires NoSpaces(rest) && ParseTail(rest).Some?
    ensures NoSpaces(ParseTail(rest).value.1)
  {
    var paren := IndexOf(rest, "(");
    if paren >= 0 {
      assert rest[paren] == rest[paren..][0];
      NoSpacesSlice(rest, paren + 1, |rest| - 1);
    }
  }

  lemma HeadIsWellFormed(input: string)
    requires ParseHead(input).Some?
    ensures var (product, verb, list) := ParseHead(input).value;
            IsIdent(product) && IsIdent(verb) && NoSpaces(list)
  {
    var colon := IndexOf(input, ":");
    NoSpacesSlice(input, colon + 1, |input|);
    TailHasNoSpaces(input[colon + 1..]);
  }

  lemma ParseIsWellFormed(input: string)
    requires Parse(input).Some?
    ensures WellFormed(Parse(input).value)
  {
    var (_, _, list) := ParseHead(input).value;
    HeadIsWellFormed(input);
    if list != "" {
      SplitKeepsNoSpaces(list, TOP);
      ParsePiecesIsWellFormed(Split(list, TOP));
    }
  }

  // ----- reading back one constraint -----

  lemma {:induction false} UnescapeEscape(v: string)
    ensures Unescape(Escape(v)) == Some(v)
  {
    if v != "" {
      UnescapeEscape(v[1..]);
      var rest := Escape(v[1..]);
      if v[0] == '"' || v[0] == '\\' {
        assert Escape(v)[2..] == rest;
      } else {
        assert Escape(v)[1..] == rest;
      }
      assert v == [v[0]] + v[1..];
    }
  }

  lemma ValueReadsBack(c: Constraint)
    requires WellFormedConstraint(c) && c.op != Any
    ensures ParseValue(ValueText(c)) == Some(Value(c.value.value, c.quoted))
    ensures ValueText(c)[0] != '=' && ValueText(c)[|ValueText(c)| - 1] != '*'
  {
    var raw := ValueText(c);
    if c.quoted {
      UnescapeEscape(c.value.value);
      assert raw[1..|raw| - 1] == Escape(c.value.value);
    } else {
      assert IsBareChar(raw[0]) && IsBareChar(raw[|raw| - 1]);
    }
  }

  predicate Begins(rest: string, op: Op) { OpText(op) <= rest }

  /** An operator splits a piece after its leading identifier exactly when it comes next. */
  lemma OperatorAfterKey(key: string, rest: string, op: Op)
    requires IsIdent(key) && rest != "" && !IsIdentChar(rest[0])
    ensures SplitsAt(key + rest, op) <==> Begins(rest, op)
    ensures Begins(rest, op) ==> IndexOf(key + rest, OpText(op)) == |key|
  {
    var piece := key + rest;
    var text := OpText(op);
    var idx := IndexOf(piece, text);
    IndexOfFinds(piece, text);
    assert piece[|key|..] == rest && piece[|key|] == rest[0];
    forall j | 0 <= j < |key| ensures !(text <= piece[j..]) {
      assert piece[j..][0] == key[j] && IsIdentChar(key[j]);
    }
    if idx > |key| {
      assert piece[..idx][|key|] == rest[0];
    }
  }

  lemma OperatorIsChosen(key: string, op: Op, raw: string)
    requires IsIdent(key) && op != Any && raw != "" && raw[0] != '='
    ensures var piece := key + (OpText(op) + raw);
            ChooseOp(piece) == Some(op) && IndexOf(piece, OpText(op)) == |key|
  {
    var rest := OpText(op) + raw;
    assert rest[0] == OpText(op)[0];
    assert |OpText(op)| == 1 ==> rest[1] == raw[0];
    OperatorAfterKey(key, rest, Ge);
    OperatorAfterKey(key, rest, Le);
    OperatorAfterKey(key, rest, Ne);
    OperatorAfterKey(key, rest, Eq);
    OperatorAfterKey(key, rest, Gt);
    OperatorAfterKey(key, rest, Lt);
  }

  lemma OperatorReadsBack(c: Constraint)
    requires WellFormedConstraint(c) && c.op != Any
    ensures TakeAt(c.key + (OpText(c.op) + ValueText(c)), |c.key|, c.op) == Some(c)
  {
    var piece := c.key + (OpText(c.op) + ValueText(c));
    ValueReadsBack(c);
    assert piece[|c.key| + |OpText(c.op)|..] == ValueText(c);
    assert piece[..|c.key|] == c.key;
  }

  lemma WildcardReadsBack(key: string)
    requires IsIdent(key)
    ensures ParseConstraint(key + "=*") == Some(Constraint(key, Any, None, false))
  {
    var piece := key + "=*";
    assert piece[|piece| - 2..] == "=*" && piece[..|piece| - 2] == key;
  }

  lemma NotAWildcard(piece: string)
    requires piece != "" && piece[|piece| - 1] != '*'
    ensures WildcardKey(piece).None?
  {
  }

  lemma ComparisonReadsBack(c: Constraint)
    requires WellFormedConstraint(c) && c.op != Any
    ensures ParseConstraint(c.key + (OpText(c.op) + ValueText(c))) == Some(c)
  {
    var raw := ValueText(c);
    var piece := c.key + (OpText(c.op) + raw);
    ValueReadsBack(c);
    assert piece[|piece| - 1] == raw[|raw| - 1];
    NotAWildcard(piece);
    OperatorIsChosen(c.key, c.op, raw);
    OperatorReadsBack(c);
  }

  lemma ConstraintReadsBack(c: Constraint)
    requires WellFormedConstraint(c)
    ensures ParseConstraint(PrintConstraint(c)) == Some(c)
  {
    if c.op == Any {
      WildcardReadsBack(c.key);
    } else {
      ComparisonReadsBack(c);
    }
  }

  lemma PiecesStep(piece: string, rest: seq<string>, c: Constraint, cs: seq<Constraint>)
    requires ParseConstraint(piece) == Some(c) && ParsePieces(rest) == Some(cs)
    ensures ParsePieces([piece] + rest) == Some([c] + cs)
  {
    assert ([piece] + rest)[1..] == rest;
  }

  lemma {:induction false} PiecesReadBack(cs: seq<Constraint>)
    requires forall i | 0 <= i < |cs| :: WellFormedConstraint(cs[i])
    ensures ParsePieces(PrintAll(cs)) == Some(cs)
  {
    if cs != [] {
      ConstraintReadsBack(cs[0]);
      PiecesReadBack(cs[1..]);
      PiecesStep(PrintConstraint(cs[0]), PrintAll(cs[1..]), cs[0], cs[1..]);
      assert cs == [cs[0]] + cs[1..];
    }
  }

  // ----- the scanner over printed text -----

  function Reach(p: string, st: Scan): Scan {
    if p == "" then st else Reach(p[1..], Next(st, p[0]))
  }

  predicate Uncut(p: string, st: Scan) {
    p == "" || (!Cuts(st, p[0]) && Uncut(p[1..], Next(st, p[0])))
  }

  lemma {:induction false} ReachConcat(a: string, b: string, st: Scan)
    ensures Reach(a + b, st) == Reach(b, Reach(a, st))
    ensures Uncut(a + b, st) <==> Uncut(a, st) && Uncut(b, Reach(a, st))
  {
    if a == "" {
      assert a + b == b;
    } else {
      ReachConcat(a[1..], b, Next(st, a[0]));
      assert (a + b)[1..] == a[1..] + b;
    }
  }

  /** Reading `p` at this depth ends where it began and meets no cutting comma. */
  predicate Balanced(p: string, depth: int) {
    Reach(p, Scan(depth, Plain)) == Scan(depth, Plain) && Uncut(p, Scan(depth, Plain))
  }

  lemma BalancedConcat(a: string, b: string, depth: int)
    requires Balanced(a, depth) && Balanced(b, depth)
    ensures Balanced(a + b, depth)
  {
    ReachConcat(a, b, Scan(depth, Plain));
  }

  lemma {:induction false} NeutralIsBalanced(p: string, depth: int)
    requires forall i | 0 <= i < |p| :: p[i] !in "\"()" && (p[i] != ',' || depth != 0)
    ensures Balanced(p, depth)
  {
    if p != "" {
      NeutralIsBalanced(p[1..], depth);
    }
  }

  lemma EscapedCharStaysQuoted(c: char, depth: int)
    ensures var st := Scan(depth, Quoted); Reach(['\\', c], st) == st && Uncut(['\\', c], st)
  {
    var st := Scan(depth, Quoted);
    ReachConcat(['\\'], [c], st);
    assert ['\\'] + [c] == ['\\', c];
    assert Reach(['\\'], st) == Reach("", Scan(depth, Escaped));
    assert Reach([c], Scan(depth, Escaped)) == Reach("", st);
  }

  lemma {:induction false} EscapeStaysQuoted(v: string, depth: int)
    ensures var st := Scan(depth, Quoted); Reach(Escape(v), st) == st && Uncut(Escape(v), st)
  {
    if v != "" {
      EscapeStaysQuoted(v[1..], depth);
      if v[0] == '"' || v[0] == '\\' {
        EscapedCharStaysQuoted(v[0], depth);
        ReachConcat(['\\', v[0]], Escape(v[1..]), Scan(depth, Quoted));
      } else {
        assert Escape(v)[1..] == Escape(v[1..]);
      }
    }
  }

  lemma QuoteIsBalanced(v: string, depth: int)
    ensures Balanced(QuoteValue(v), depth)
  {
    var st := Scan(depth, Plain);
    EscapeStaysQuoted(v, depth);
    ReachConcat("\"" + Escape(v), "\"", st);
    ReachConcat("\"", Escape(v), st);
    assert Reach("\"", st) == Reach("", Scan(depth, Quoted));
    assert Reach("\"", Scan(depth, Quoted)) == Reach("", st);
  }

  lemma ConstraintIsBalanced(c: Constraint, depth: int)
    requires WellFormedConstraint(c)
    ensures Balanced(PrintConstraint(c), depth)
  {
    if c.op == Any {
      NeutralIsBalanced(c.key + "=*", depth);
    } else {
      NeutralIsBalanced(c.key, depth);
      NeutralIsBalanced(OpText(c.op), depth);
      if c.quoted {
        QuoteIsBalanced(c.value.value, depth);
      } else {
        NeutralIsBalanced(ValueText(c), depth);
      }
      BalancedConcat(OpText(c.op), ValueText(c), depth);
      BalancedConcat(c.key, OpText(c.op) + ValueText(c), depth);
    }
  }

  lemma {:induction false} JoinIsBalanced(parts: seq<string>, depth: int)
    requires depth != 0 && forall i | 0 <= i < |parts| :: Balanced(parts[i], depth)
    ensures Balanced(Join(parts, ','), depth)
  {
    if |parts| > 1 {
      JoinIsBalanced(parts[1..], depth);
      NeutralIsBalanced(",", depth);
      BalancedConcat(parts[0], ",", depth);
      BalancedConcat(parts[0] + ",", Join(parts[1..], ','), depth);
    }
  }

  lemma {:induction false} SplitUncut(p: string, st: Scan)
    requires Uncut(p, st)
    ensures Split(p, st) == [p]
  {
    if p != "" {
      SplitUncut(p[1..], Next(st, p[0]));
      assert p == [p[0]] + p[1..];
    }
  }

  lemma {:induction false} SplitAtComma(p: string, rest: string, st: Scan)
    requires Uncut(p, st) && Reach(p, st) == TOP
    ensures Split(p + [','] + rest, st) == [p] + Split(rest, TOP)
  {
    var text := p + [','] + rest;
    if p == "" {
      assert text[1..] == rest;
    } else {
      assert text[1..] == p[1..] + [','] + rest;
      SplitAtComma(p[1..], rest, Next(st, p[0]));
      assert p == [p[0]] + p[1..];
    }
  }

  /** Pieces balanced at the top level survive being joined by commas and split again. */
  lemma {:induction false} SplitJoin(parts: seq<string>)
    requires parts != [] && forall i | 0 <= i < |parts| :: Balanced(parts[i], 0)
    ensures Split(Join(parts, ','), TOP) == parts
  {
    if |parts| == 1 {
      SplitUncut(parts[0], TOP);
    } else {
      SplitAtComma(parts[0], Join(parts[1..], ','), TOP);
      SplitJoin(parts[1..]);
      assert parts == [parts[0]] + parts[1..];
    }
  }

  // ----- reading back a whole scope -----

  lemma {:induction false} InsertKeepsDistinct(c: Constraint, cs: seq<Constraint>)
    requires DistinctKeys(cs) && forall i | 0 <= i < |cs| :: cs[i].key != c.key
    ensures DistinctKeys(Insert(c, cs, KeyOf))
  {
    if cs != [] && Less(KeyOf(cs[0]), KeyOf(c)) {
      InsertKeepsDistinct(c, cs[1..]);
      var rest := Insert(c, cs[1..], KeyOf);
      InsertAdds(c, cs[1..], KeyOf);
      forall j | 0 <= j < |rest| ensures rest[j].key != cs[0].key {
        assert rest[j] in multiset(rest);
        assert rest[j] == c || rest[j] in cs[1..];
      }
    }
  }

  lemma {:induction false} SortKeepsDistinct(cs: seq<Constraint>)
    requires DistinctKeys(cs)
    ensures DistinctKeys(Sort(cs, KeyOf))
  {
    if cs != [] {
      var rest := Sort(cs[1..], KeyOf);
      SortKeepsDistinct(cs[1..]);
      SortKeepsMembers(cs[1..], KeyOf);
      forall i | 0 <= i < |rest| ensures rest[i].key != cs[0].key {
        assert rest[i] in rest;
      }
      InsertKeepsDistinct(cs[0], rest);
    }
  }

  lemma ArrangedKeepsMembers(s: Scope)
    ensures multiset(Arranged(s).constraints) == multiset(s.constraints)
    ensures forall c :: c in Arranged(s).constraints <==> c in s.constraints
    ensures Arranged(Arranged(s)) == Arranged(s)
  {
    SortKeepsMembers(s.constraints, KeyOf);
    SortPermutes(s.constraints, KeyOf);
    SortOfSorted(Sort(s.constraints, KeyOf), KeyOf);
  }

  lemma ArrangedIsWellFormed(s: Scope)
    requires WellFormed(s)
    ensures WellFormed(Arranged(s))
  {
    SortKeepsDistinct(s.constraints);
    ArrangedKeepsMembers(s);
    var cs := Arranged(s).constraints;
    forall i | 0 <= i < |cs| ensures WellFormedConstraint(cs[i]) {
      assert cs[i] in cs;
    }
  }

  lemma {:induction false} JoinHasNoSpaces(parts: seq<string>)
    requires forall i | 0 <= i < |parts| :: NoSpaces(parts[i])
    ensures NoSpaces(Join(parts, ','))
  {
    if |parts| > 1 {
      JoinHasNoSpaces(parts[1..]);
    }
  }

  lemma {:induction false} EscapeKeepsNoSpaces(v: string)
    requires NoSpaces(v)
    ensures NoSpaces(Escape(v))
  {
    if v != "" {
      EscapeKeepsNoSpaces(v[1..]);
    }
  }

  lemma ConstraintHasNoSpaces(c: Constraint)
    requires WellFormedConstraint(c)
    ensures NoSpaces(PrintConstraint(c))
  {
    if c.op == Any {
      NoSpacesConcat(c.key, "=*");
    } else {
      if c.quoted {
        EscapeKeepsNoSpaces(c.value.value);
        NoSpacesConcat("\"", Escape(c.value.value));
        NoSpacesConcat("\"" + Escape(c.value.value), "\"");
      }
      NoSpacesConcat(OpText(c.op), ValueText(c));
      NoSpacesConcat(c.key, OpText(c.op) + ValueText(c));
    }
  }

  lemma TailReadsBack(verb: string, inner: string)
    requires IsIdent(verb)
    ensures ParseTail(verb) == Some((verb, ""))
    ensures ParseTail(verb + ("(" + inner + ")")) == Some((verb, inner))
  {
    NoOccurrence(verb, '(');
    var tail := inner + ")";
    var rest := verb + ['('] + tail;
    assert rest == verb + ("(" + inner + ")");
    FirstOccurrence(verb, '(', tail);
    assert rest[..|verb|] == verb && rest[|verb| + 1..|rest| - 1] == inner;
  }

  lemma HeadReadsBack(product: string, rest: string)
    requires IsIdent(product) && NoSpaces(rest)
    ensures ParseHead(product + ":" + rest)
         == match ParseTail(rest) case None => None case Some((verb, list)) => Some((product, verb, list))
  {
    var text := product + ":" + rest;
    NoSpacesConcat(product, ":");
    NoSpacesConcat(product + ":", rest);
    FirstOccurrence(product, ':', rest);
    assert text[..|product|] == product && text[|product| + 1..] == rest;
  }

  lemma ListReadsBack(cs: seq<Constraint>)
    requires forall i | 0 <= i < |cs| :: WellFormedConstraint(cs[i])
    ensures NoSpaces(Join(PrintAll(cs), ',')) && ParseConstraints(Join(PrintAll(cs), ',')) == Some(cs)
  {
    var parts := PrintAll(cs);
    forall i | 0 <= i < |parts| ensures NoSpaces(parts[i]) && Balanced(parts[i], 0) {
      ConstraintHasNoSpaces(cs[i]);
      ConstraintIsBalanced(cs[i], 0);
    }
    JoinHasNoSpaces(parts);
    if cs != [] {
      SplitJoin(parts);
      PiecesReadBack(cs);
      assert parts[0] != "";
    }
  }

  lemma BodyReadsBack(verb: string, cs: seq<Constraint>)
    requires IsIdent(verb)
    ensures ParseTail(verb + PrintList(cs)) == Some((verb, Join(PrintAll(cs), ',')))
  {
    TailReadsBack(verb, Join(PrintAll(cs), ','));
    assert verb + "" == verb;
  }

  lemma BodyHasNoSpaces(verb: string, cs: seq<Constraint>)
    requires IsIdent(verb) && NoSpaces(Join(PrintAll(cs), ','))
    ensures NoSpaces(verb + PrintList(cs))
  {
    var inner := Join(PrintAll(cs), ',');
    NoSpacesConcat("(", inner);
    NoSpacesConcat("(" + inner, ")");
    NoSpacesConcat(verb, PrintList(cs));
  }

  /** Printing and parsing again gives the scope with its constraints in key order. */
  lemma PrintReadsBack(s: Scope)
    requires WellFormed(s)
    ensures Parse(Print(s)) == Some(Arranged(s))
  {
    ArrangedIsWellFormed(s);
    var cs := Arranged(s).constraints;
    BodyReadsBack(s.verb, cs);
    ListReadsBack(cs);
    BodyHasNoSpaces(s.verb, cs);
    HeadReadsBack(s.product, s.verb + PrintList(cs));
  }

  /** Every accepted text: its canonical form is accepted and means the same scope. */
  lemma RoundTrip(input: string)
    requires Parse(input).Some?
    ensures Parse(Print(Parse(input).value)) == Some(Arranged(Parse(input).value))
  {
    ParseIsWellFormed(input);
    PrintReadsBack(Parse(input).value);
  }

  /** Canonical texts are the fixed points, and canonicalizing reaches one in one step. */
  lemma CanonicalIsIdempotent(input: string)
    requires Parse(input).Some?
    ensures var text := Print(Parse(input).value);
            Parse(text).Some? && Print(Parse(text).value) == text
  {
    RoundTrip(input);
    ArrangedKeepsMembers(Parse(input).value);
  }

  lemma DistinctKeysDecide(cs: seq<Constraint>)
    requires DistinctKeys(cs)
    ensures KeyDecides(cs, KeyOf)
  {
  }

  /** Two scopes print alike exactly when they differ at most in the order of constraints. */
  lemma PrintInjective(s: Scope, t: Scope)
    requires WellFormed(s) && WellFormed(t)
    ensures Print(s) == Print(t)
       <==> s.product == t.product && s.verb == t.verb && multiset(s.constraints) == multiset(t.constraints)
  {
    ArrangedKeepsMembers(s);
    ArrangedKeepsMembers(t);
    PrintReadsBack(s);
    PrintReadsBack(t);
    if multiset(s.constraints) == multiset(t.constraints) {
      DistinctKeysDecide(s.constraints);
      SortIgnoresOrder(s.constraints, t.constraints, KeyOf);
    }
  }

  // ----- canonical texts in a list -----

  predicate IsCanonical(text: string) { Parse(text).Some? && Print(Parse(text).value) == text }

  lemma ParenthesesBalance(inner: string)
    requires Balanced(inner, 1)
    ensures Balanced("(" + inner + ")", 0)
  {
    ReachConcat("(" + inner, ")", TOP);
    ReachConcat("(", inner, TOP);
    assert Reach("(", TOP) == Reach("", Scan(1, Plain));
    assert Reach(")", Scan(1, Plain)) == Reach("", TOP);
  }

  lemma PrintListIsBalanced(cs: seq<Constraint>)
    requires forall i | 0 <= i < |cs| :: WellFormedConstraint(cs[i])
    ensures Balanced(PrintList(cs), 0)
  {
    var parts := PrintAll(cs);
    forall i | 0 <= i < |parts| ensures Balanced(parts[i], 1) {
      ConstraintIsBalanced(cs[i], 1);
    }
    JoinIsBalanced(parts, 1);
    ParenthesesBalance(Join(parts, ','));
  }

  lemma PrintIsBalanced(s: Scope)
    requires WellFormed(s)
    ensures Balanced(Print(s), 0)
  {
    ArrangedIsWellFormed(s);
    var cs := Arranged(s).constraints;
    PrintListIsBalanced(cs);
    NeutralIsBalanced(s.product + ":", 0);
    NeutralIsBalanced(s.verb, 0);
    BalancedConcat(s.verb, PrintList(cs), 0);
    BalancedConcat(s.product + ":", s.verb + PrintList(cs), 0);
  }

  /** A canonical text holds no white space, so no newline. */
  lemma CanonicalIsOneLine(text: string)
    requires IsCanonical(text)
    ensures OneLine(text) && text != ""
  {
  }

  /** The comma-joined list of canonical scopes is uniquely decodable. */
  lemma ScopeListReadsBack(scopes: seq<string>)
    requires scopes != [] && forall i | 0 <= i < |scopes| :: IsCanonical(scopes[i])
    ensures Split(Join(scopes, ','), TOP) == scopes
  {
    forall i | 0 <= i < |scopes| ensures Balanced(scopes[i], 0) {
      ParseIsWellFormed(scopes[i]);
      PrintIsBalanced(Parse(scopes[i]).value);
    }
    SplitJoin(scopes);
  }

  // ----- what else the parser reads -----

  /** The older spelling of a wildcard means the same. */
  lemma LegacyWildcardReads(key: string)
    requires IsIdent(key)
    ensures ParseConstraint(key + "*") == Some(Constraint(key, Any, None, false))
  {
    var piece := key + "*";
    assert piece[..|piece| - 1] == key && piece[|piece| - 1..] == "*";
    assert piece[|piece| - 2] == key[|key| - 1];
  }

  /** A backslash in a quoted value stands for the character after it, whatever that is; a quote without
      one is refused. */
  lemma EscapesRead(c: char, rest: string)
    ensures Unescape(['\\', c] + rest) == Prepend([c], Unescape(rest))
    ensures Unescape(['"'] + rest).None?
  {
    assert (['\\', c] + rest)[2..] == rest;
  }

  /** ECMAScript's white space and line terminators, by code point. */
  const SPACES := [0x09, 0x0A, 0x0B, 0x0C, 0x0D, 0x20, 0xA0, 0x1680, 0x2000, 0x2001, 0x2002, 0x2003, 0x2004, 0x2005,
                   0x2006, 0x2007, 0x2008, 0x2009, 0x200A, 0x2028, 0x2029, 0x202F, 0x205F, 0x3000, 0xFEFF]

  /** No text with white space in it is a scope. */
  lemma ParsedHasNoSpaces(input: string)
    requires Parse(input).Some?
    ensures input != "" && forall i | 0 <= i < |input| :: input[i] as int !in SPACES
  {
    assert NoSpaces(input);
  }

  /** A lower-case letter, then lower-case letters, digits and underscores. */
  ghost predicate Spelled(name: string) {
    && name != "" && 'a' <= name[0] <= 'z'
    && forall i | 0 <= i < |name| :: 'a' <= name[i] <= 'z' || '0' <= name[i] <= '9' || name[i] == '_'
  }

  /** Letters, digits and seven signs. */
  ghost predicate Unadorned(value: string) {
    && value != ""
    && forall c | c in value ::
         || 'a' <= c <= 'z' || 'A' <= c <= 'Z' || '0' <= c <= '9'
         || c == '_' || c == '.' || c == ':' || c == '/' || c == '@' || c == '+' || c == '-'
  }

  lemma BareIsUnadorned(value: string)
    ensures Unadorned(value) <==> IsBareToken(value)
  {
    assert forall i | 0 <= i < |value| :: value[i] in value;
  }

  /** What an accepted text is spelled with. */
  lemma ParsedIsSpelled(input: string)
    requires Parse(input).Some?
    ensures var s := Parse(input).value;
            && Spelled(s.product) && Spelled(s.verb)
            && forall i | 0 <= i < |s.constraints| :: var c := s.constraints[i];
                 Spelled(c.key) && (c.value.Some? && !c.quoted ==> Unadorned(c.value.value))
  {
    ParseIsWellFormed(input);
    var s := Parse(input).value;
    forall i | 0 <= i < |s.constraints| && s.constraints[i].value.Some? && !s.constraints[i].quoted
      ensures Unadorned(s.constraints[i].value.value) {
      assert WellFormedConstraint(s.constraints[i]);
      BareIsUnadorned(s.constraints[i].value.value);
    }
  }

  lemma OneConstraintParses(product: string, verb: string, c: Constraint)
    requires Spelled(product) && Spelled(verb) && WellFormedConstraint(c)
    ensures Parse(product + ":" + (verb + ("(" + PrintConstraint(c) + ")"))) == Some(Scope(product, verb, [c]))
  {
    assert Sorting.Sort([c], KeyOf) == [c];
    assert PrintAll([c]) == [PrintConstraint(c)];
    PrintReadsBack(Scope(product, verb, [c]));
  }

  lemma NoConstraintParses(product: string, verb: string)
    requires Spelled(product) && Spelled(verb)
    ensures Parse(product + ":" + verb) == Some(Scope(product, verb, []))
  {
    PrintReadsBack(Scope(product, verb, []));
    assert product + ":" + (verb + "") == product + ":" + verb;
  }

  lemma Flattened(product: string, verb: string, key: string, tail: string)
    ensures product + ":" + (verb + ("(" + (key + tail) + ")")) == product + ":" + verb + "(" + key + tail + ")"
  {
  }

  /** Everything spelled so is accepted: no constraint, any value, */
  lemma SpelledParses(product: string, verb: string, key: string)
    requires Spelled(product) && Spelled(verb) && Spelled(key)
    ensures Parse(product + ":" + verb) == Some(Scope(product, verb, []))
    ensures Parse(product + ":" + verb + "(" + key + "=*" + ")")
         == Some(Scope(product, verb, [Constraint(key, Any, None, false)]))
  {
    NoConstraintParses(product, verb);
    OneConstraintParses(product, verb, Constraint(key, Any, None, false));
    Flattened(product, verb, key, "=*");
  }

  ghost predicate Sign(sign: string, op: Op) {
    || (sign == "=" && op == Eq) || (sign == "!=" && op == Ne) || (sign == "<" && op == Lt)
    || (sign == "<=" && op == Le) || (sign == ">" && op == Gt) || (sign == ">=" && op == Ge)
  }

  /** or one value, each sign read as the comparison it looks like. */
  lemma SignedParses(product: string, verb: string, key: string, sign: string, op: Op, value: string)
    requires Spelled(product) && Spelled(verb) && Spelled(key) && Unadorned(value) && Sign(sign, op)
    ensures Parse(product + ":" + verb + "(" + key + (sign + value) + ")")
         == Some(Scope(product, verb, [Constraint(key, op, Some(value), false)]))
  {
    BareIsUnadorned(value);
    OneConstraintParses(product, verb, Constraint(key, op, Some(value), false));
    Flattened(product, verb, key, sign + value);
  }

  /** And other characters are no obstacle: any of them may stand in a quoted value. */
  lemma QuotedParses(product: string, verb: string, key: string, value: string)
    requires Spelled(product) && Spelled(verb) && Spelled(key)
    requires forall i | 0 <= i < |value| :: value[i] as int !in SPACES
    ensures Parse(product + ":" + verb + "(" + key + ("=" + QuoteValue(value)) + ")")
         == Some(Scope(product, verb, [Constraint(key, Eq, Some(value), true)]))
  {
    assert NoSpaces(value);
    OneConstraintParses(product, verb, Constraint(key, Eq, Some(value), true));
    Flattened(product, verb, key, "=" + QuoteValue(value));
  }
}
