/** The scope language: `product:verb(key op value, ...)`. Its syntax tree, its parser and
    its canonical printer (agent-core/src/scope.ts, first half). */
module Scope {
  import opened Text
  import Sorting

  datatype Op = Eq | Ne | Lt | Le | Gt | Ge | Any

  /** `value` is absent exactly for the wildcard `Any` in whatever the parser builds. */
  datatype Constraint = Constraint(key: string, op: Op, value: Option<string>, quoted: bool)

  datatype Scope = Scope(product: string, verb: string, constraints: seq<Constraint>)

  // ----- tokens -----

  predicate IsIdentChar(c: char) { 'a' <= c <= 'z' || IsDigit(c) || c == '_' }

  predicate IsIdent(s: string) {
    s != "" && 'a' <= s[0] <= 'z' && forall i | 0 <= i < |s| :: IsIdentChar(s[i])
  }

  predicate IsBareChar(c: char) {
    'A' <= c <= 'Z' || 'a' <= c <= 'z' || IsDigit(c) || c in "_.:/@+-"
  }

  predicate IsBareToken(s: string) { s != "" && forall i | 0 <= i < |s| :: IsBareChar(s[i]) }

  function OpText(op: Op): (s: string)
    ensures s != "" && s[0] in "=!<>*" && NoSpaces(s)
  {
    match op
    case Eq => "=" case Ne => "!=" case Lt => "<" case Le => "<=" case Gt => ">" case Ge => ">=" case Any => "*"
  }

  // ----- top-level commas -----

  datatype Mode = Plain | Quoted | Escaped

  datatype Scan = Scan(depth: int, mode: Mode)

  const TOP := Scan(0, Plain)

  /** Where the scanner stands after reading `c`. */
  function Next(st: Scan, c: char): Scan {
    match st.mode
    case Escaped => Scan(st.depth, Quoted)
    case Quoted => Scan(st.depth, if c == '\\' then Escaped else if c == '"' then Plain else Quoted)
    case Plain =>
      if c == '"' then Scan(st.depth, Quoted)
      else if c == '(' then Scan(st.depth + 1, Plain)
      else if c == ')' then Scan(st.depth - 1, Plain)
      else st
  }

  predicate Cuts(st: Scan, c: char) { st == TOP && c == ',' }

  /** Puts `p` in front of the first piece. */
  function Prefix(p: string, pieces: seq<string>): seq<string>
    requires pieces != []
  {
    [p + pieces[0]] + pieces[1..]
  }

  lemma PrefixNothing(pieces: seq<string>)
    requires pieces != []
    ensures Prefix("", pieces) == pieces
  {
    assert "" + pieces[0] == pieces[0];
  }

  /** The pieces of `text` between the commas outside quotes and at parenthesis depth 0,
      reading from scanner state `st`. */
  function Split(text: string, st: Scan): (pieces: seq<string>)
    ensures pieces != []
  {
    if text == "" then [""]
    else if Cuts(st, text[0]) then [""] + Split(text[1..], st)
    else Prefix([text[0]], Split(text[1..], Next(st, text[0])))
  }

  /** One character read while `head` is the piece collected so far. */
  lemma SplitStep(head: string, text: string, st: Scan)
    requires text != ""
    ensures Prefix(head, Split(text, st))
         == if Cuts(st, text[0]) then [head] + Split(text[1..], st)
            else Prefix(head + [text[0]], Split(text[1..], Next(st, text[0])))
  {
    if Cuts(st, text[0]) {
      assert head + "" == head;
    } else {
      var rest := Split(text[1..], Next(st, text[0]));
      assert head + ([text[0]] + rest[0]) == (head + [text[0]]) + rest[0];
    }
  }

  /** What is left to cut when the piece being read began at `start` and the scan stands at `i`. */
  function Pending(text: string, start: nat, i: nat, st: Scan): seq<string>
    requires start <= i <= |text|
    decreases |text| - i
  {
    if i == |text| then [text[start..]]
    else if Cuts(st, text[i]) then [text[start..i]] + Pending(text, i + 1, i + 1, st)
    else Pending(text, start, i + 1, Next(st, text[i]))
  }

  lemma {:induction false} PendingIsSplit(text: string, start: nat, i: nat, st: Scan)
    requires start <= i <= |text|
    ensures Pending(text, start, i, st) == Prefix(text[start..i], Split(text[i..], st))
    decreases |text| - i
  {
    if i == |text| {
      assert text[i..] == "" && text[start..i] + "" == text[start..];
    } else {
      SplitStep(text[start..i], text[i..], st);
      assert text[i..][1..] == text[i + 1..];
      if Cuts(st, text[i]) {
        assert text[i + 1..i + 1] == "";
        PrefixNothing(Split(text[i + 1..], st));
        PendingIsSplit(text, i + 1, i + 1, st);
      } else {
        assert text[start..i] + [text[i]] == text[start..i + 1];
        PendingIsSplit(text, start, i + 1, Next(st, text[i]));
      }
    }
  }

  lemma PendingAtStart(text: string)
    ensures Pending(text, 0, 0, TOP) == Split(text, TOP)
  {
    assert text[0..] == text && text[0..0] == "";
    PendingIsSplit(text, 0, 0, TOP);
    PrefixNothing(Split(text, TOP));
  }

  lemma MovePiece(out: seq<string>, piece: string, rest: seq<string>)
    ensures out + ([piece] + rest) == (out + [piece]) + rest
  {
  }

  method SplitTopLevelCommas(text: string) returns (out: seq<string>)
    ensures out == Split(text, TOP)
  {
    out := [];
    var depth := 0;
    var inQuotes := false;
    var start := 0;
    var i := 0;
    PendingAtStart(text);
    ghost var left := Split(text, TOP);
    while i < |text|
      invariant 0 <= start <= i <= |text|
      invariant Split(text, TOP) == out + left
      invariant left == Pending(text, start, i, Scan(depth, if inQuotes then Quoted else Plain))
    {
      var ch := text[i];
      ghost var st := Scan(depth, if inQuotes then Quoted else Plain);
      if inQuotes {
        if ch == '\\' && i + 1 < |text| {
          assert Next(Next(st, ch), text[i + 1]) == st;
          i := i + 1;
        } else if ch == '"' {
          inQuotes := false;
        }
      } else if ch == '"' {
        inQuotes := true;
      } else if ch == '(' {
        depth := depth + 1;
      } else if ch == ')' {
        depth := depth - 1;
      } else if ch == ',' && depth == 0 {
        left := Pending(text, i + 1, i + 1, TOP);
        MovePiece(out, text[start..i], left);
        out := out + [text[start..i]];
        start := i + 1;
      }
      i := i + 1;
    }
    out := out + [text[start..]];
  }

  // ----- values -----

  /** Removes the escapes of a quoted value's inner text; a bare quote in it is refused.
      A backslash that ends the inner text stands for itself. */
  function Unescape(inner: string): Option<string> {
    if inner == "" then Some("")
    else if inner[0] == '\\' && |inner| > 1 then
      Prepend([inner[1]], Unescape(inner[2..]))
    else if inner[0] == '"' then None
    else Prepend([inner[0]], Unescape(inner[1..]))
  }

  datatype Value = Value(text: string, quoted: bool)

  function ParseValue(raw: string): Option<Value> {
    if raw == "" then None
    else if raw[0] == '"' then
      if raw[|raw| - 1] != '"' || |raw| < 2 then None
      else match Unescape(raw[1..|raw| - 1]) case None => None case Some(v) => Some(Value(v, true))
    else if IsBareToken(raw) then Some(Value(raw, false))
    else None
  }

  /** The loop over a quoted value, character by character. */
  method ReadValue(raw: string) returns (r: Option<Value>)
    ensures r == ParseValue(raw)
  {
    if raw == "" {
      return None;
    }
    if raw[0] == '"' {
      if raw[|raw| - 1] != '"' || |raw| < 2 {
        return None;
      }
      var v := "";
      var i := 1;
      var end := |raw| - 1;
      ghost var inner := raw[1..end];
      PrependTwice(v, v, Unescape(inner));
      while i < end
        invariant 1 <= i <= end
        invariant Unescape(inner) == Prepend(v, Unescape(raw[i..end]))
      {
        var ch := raw[i];
        ghost var tail := raw[i..end];
        assert tail[1..] == raw[i + 1..end];
        if ch == '\\' && i + 1 < end {
          assert tail[2..] == raw[i + 2..end];
          PrependTwice(v, [tail[1]], Unescape(tail[2..]));
          i := i + 1;
          v := v + [raw[i]];
        } else if ch == '"' {
          return None;
        } else {
          PrependTwice(v, [ch], Unescape(tail[1..]));
          v := v + [ch];
        }
        i := i + 1;
      }
      assert raw[i..end] == "" && v + "" == v;
      return Some(Value(v, true));
    }
    return if IsBareToken(raw) then Some(Value(raw, false)) else None;
  }

  // ----- constraints -----

  /** `key=*`, or the older spelling `key*`. */
  function WildcardKey(piece: string): Option<string> {
    if EndsWith(piece, "=*") && IsIdent(piece[..|piece| - 2]) then Some(piece[..|piece| - 2])
    else if EndsWith(piece, "*") && IsIdent(piece[..|piece| - 1]) then Some(piece[..|piece| - 1])
    else None
  }

  /** The constraint when `op` stands at `idx`. */
  function TakeAt(piece: string, idx: nat, op: Op): Option<Constraint>
    requires idx + |OpText(op)| <= |piece|
  {
    match ParseValue(piece[idx + |OpText(op)|..])
    case None => None
    case Some(v) => Some(Constraint(piece[..idx], op, Some(v.text), v.quoted))
  }

  /** `op` splits `piece`: its first occurrence follows an identifier. */
  predicate SplitsAt(piece: string, op: Op) {
    var idx := IndexOf(piece, OpText(op));
    idx > 0 && IsIdent(piece[..idx])
  }

  /** The first operator that splits the piece, the longer ones tried first. */
  function ChooseOp(piece: string): (r: Option<Op>)
    ensures r.Some? ==> r.value != Any && SplitsAt(piece, r.value)
  {
    if SplitsAt(piece, Ge) then Some(Ge)
    else if SplitsAt(piece, Le) then Some(Le)
    else if SplitsAt(piece, Ne) then Some(Ne)
    else if SplitsAt(piece, Eq) then Some(Eq)
    else if SplitsAt(piece, Gt) then Some(Gt)
    else if SplitsAt(piece, Lt) then Some(Lt)
    else None
  }

  function ParseConstraint(piece: string): Option<Constraint> {
    if piece == "" then None
    else
      match WildcardKey(piece)
      case Some(key) => Some(Constraint(key, Any, None, false))
      case None =>
        match ChooseOp(piece)
        case None => None
        case Some(op) => TakeAt(piece, IndexOf(piece, OpText(op)), op)
  }

  function ParsePieces(pieces: seq<string>): (r: Option<seq<Constraint>>)
    ensures r.Some? ==> |r.value| == |pieces|
  {
    if pieces == [] then Some([])
    else
      match ParseConstraint(pieces[0])
      case None => None
      case Some(c) =>
        Prepend([c], ParsePieces(pieces[1..]))
  }

  // ----- scopes -----

  predicate DistinctKeys(cs: seq<Constraint>) {
    forall i, j | 0 <= i < j < |cs| :: cs[i].key != cs[j].key
  }

  /** The verb and the constraint list's text; a scope without a list has an empty one. */
  function ParseTail(rest: string): Option<(string, string)> {
    var paren := IndexOf(rest, "(");
    if paren < 0 then
      if IsIdent(rest) then Some((rest, "")) else None
    else if rest[|rest| - 1] != ')' || !IsIdent(rest[..paren]) then None
    else
      assert rest[paren] == rest[paren..][0] == '(';
      Some((rest[..paren], rest[paren + 1..|rest| - 1]))
  }

  function ParseHead(input: string): Option<(string, string, string)> {
    if input == "" || !NoSpaces(input) then None
    else
      var colon := IndexOf(input, ":");
      if colon < 0 || !IsIdent(input[..colon]) then None
      else
        match ParseTail(input[colon + 1..])
        case None => None
        case Some((verb, list)) => Some((input[..colon], verb, list))
  }

  function ParseConstraints(list: string): Option<seq<Constraint>> {
    if list == "" then Some([]) else ParsePieces(Split(list, TOP))
  }

  function Parse(input: string): Option<Scope> {
    match ParseHead(input)
    case None => None
    case Some((product, verb, list)) =>
      match ParseConstraints(list)
      case None => None
      case Some(cs) => if DistinctKeys(cs) then Some(Scope(product, verb, cs)) else None
  }

  method ParseList(pieces: seq<string>) returns (r: Option<seq<Constraint>>)
    ensures r == ParsePieces(pieces)
  {
    var constraints: seq<Constraint> := [];
    assert pieces[0..] == pieces;
    PrependTwice(constraints, constraints, ParsePieces(pieces));
    for i := 0 to |pieces|
      invariant ParsePieces(pieces) == Prepend(constraints, ParsePieces(pieces[i..]))
    {
      assert pieces[i..][1..] == pieces[i + 1..];
      var c := ParseConstraint(pieces[i]);
      if c.None? {
        return None;
      }
      PrependTwice(constraints, [c.value], ParsePieces(pieces[i + 1..]));
      constraints := constraints + [c.value];
    }
    assert pieces[|pieces|..] == [] && constraints + [] == constraints;
    return Some(constraints);
  }

  method HasDistinctKeys(constraints: seq<Constraint>) returns (distinct: bool)
    ensures distinct == DistinctKeys(constraints)
  {
    var seen: set<string> := {};
    for i := 0 to |constraints|
      invariant seen == set j | 0 <= j < i :: constraints[j].key
      invariant DistinctKeys(constraints[..i])
    {
      if constraints[i].key in seen {
        return false;
      }
      seen := seen + {constraints[i].key};
    }
    assert constraints[..|constraints|] == constraints;
    return true;
  }

  method ParseScope(input: string) returns (r: Option<Scope>)
    ensures r == Parse(input)
  {
    var head := ParseHead(input);
    if head.None? {
      return None;
    }
    var (product, verb, list) := head.value;
    var constraints: Option<seq<Constraint>> := Some([]);
    if list != "" {
      var pieces := SplitTopLevelCommas(list);
      constraints := ParseList(pieces);
      if constraints.None? {
        return None;
      }
    }
    var distinct := HasDistinctKeys(constraints.value);
    return if distinct then Some(Scope(product, verb, constraints.value)) else None;
  }

  // ----- printing -----

  function Escape(v: string): string {
    if v == "" then ""
    else (if v[0] == '"' || v[0] == '\\' then ['\\', v[0]] else [v[0]]) + Escape(v[1..])
  }

  function QuoteValue(v: string): string { "\"" + Escape(v) + "\"" }

  method WriteQuoted(v: string) returns (out: string)
    ensures out == QuoteValue(v)
  {
    out := "\"";
    for i := 0 to |v|
      invariant QuoteValue(v) == out + Escape(v[i..]) + "\""
    {
      assert v[i..][1..] == v[i + 1..];
      if v[i] == '"' || v[i] == '\\' {
        out := out + ['\\', v[i]];
      } else {
        out := out + [v[i]];
      }
    }
    assert v[|v|..] == "";
    out := out + "\"";
  }

  function ValueText(c: Constraint): string {
    var v := if c.value.Some? then c.value.value else "";
    if c.quoted then QuoteValue(v) else v
  }

  function PrintConstraint(c: Constraint): string {
    if c.op == Any then c.key + "=*" else c.key + (OpText(c.op) + ValueText(c))
  }

  function PrintAll(cs: seq<Constraint>): (parts: seq<string>)
    ensures |parts| == |cs| && forall i | 0 <= i < |cs| :: parts[i] == PrintConstraint(cs[i])
  {
    if cs == [] then [] else [PrintConstraint(cs[0])] + PrintAll(cs[1..])
  }

  function KeyOf(c: Constraint): string { c.key }

  /** The scope with its constraints in key order. */
  function Arranged(s: Scope): Scope { s.(constraints := Sorting.Sort(s.constraints, KeyOf)) }

  function PrintList(cs: seq<Constraint>): string {
    if cs == [] then "" else "(" + Join(PrintAll(cs), ',') + ")"
  }

  /** The canonical text of a scope: constraints in key order, no white space. */
  function Print(s: Scope): string { s.product + ":" + (s.verb + PrintList(Arranged(s).constraints)) }
}
