/** Canonical scope lists and the canonical messages that ids and signatures commit to
    (agent-core/src/canonical.ts). */
module Canonical {
  import opened Text
  import opened Scope
  import opened Sorting
  import opened RoundTrip

  // ----- scope lists -----

  predicate AllParse(scopes: seq<string>) { forall i | 0 <= i < |scopes| :: Parse(scopes[i]).Some? }

  function ParseEach(scopes: seq<string>): (parsed: seq<Scope>)
    requires AllParse(scopes)
    ensures |parsed| == |scopes| && forall i | 0 <= i < |scopes| :: parsed[i] == Parse(scopes[i]).value
  {
    if scopes == [] then [] else [Parse(scopes[0]).value] + ParseEach(scopes[1..])
  }

  /** The canonical form of one scope text, "" for a text that does not parse. */
  function CanonicalText(input: string): string {
    match Parse(input) case None => "" case Some(s) => Print(s)
  }

  /** Each scope in canonical form, the list in text order; nothing when a scope does not parse. */
  function CanonicalizeScopes(scopes: seq<string>): (r: Option<seq<string>>)
    ensures r.Some? <==> AllParse(scopes)
  {
    if AllParse(scopes) then Some(Sort(Mapped(scopes, CanonicalText), Self)) else None
  }

  lemma PrintedIsCanonical(input: string)
    requires Parse(input).Some?
    ensures IsCanonical(Print(Parse(input).value))
  {
    CanonicalIsIdempotent(input);
  }

  predicate AllCanonical(scopes: seq<string>) { forall i | 0 <= i < |scopes| :: IsCanonical(scopes[i]) }

  lemma CanonicalizedIsCanonical(scopes: seq<string>)
    requires AllParse(scopes)
    ensures var c := CanonicalizeScopes(scopes).value;
            |c| == |scopes| && AllCanonical(c) && Sorted(c, Self)
  {
    var texts := Mapped(scopes, CanonicalText);
    var c := Sort(texts, Self);
    SortPermutes(texts, Self);
    SortKeepsMembers(texts, Self);
    forall i | 0 <= i < |c| ensures IsCanonical(c[i]) {
      assert c[i] in c;
      var j :| 0 <= j < |texts| && texts[j] == c[i];
      PrintedIsCanonical(scopes[j]);
    }
  }

  /** A sorted list of canonical scopes is left as it is. */
  lemma CanonicalListStands(scopes: seq<string>)
    requires AllCanonical(scopes) && Sorted(scopes, Self)
    ensures CanonicalizeScopes(scopes) == Some(scopes)
  {
    assert Mapped(scopes, CanonicalText) == scopes;
    SortOfSorted(scopes, Self);
  }

  /** Canonicalizing a list twice is canonicalizing it once. */
  lemma CanonicalizeScopesIdempotent(scopes: seq<string>)
    requires AllParse(scopes)
    ensures CanonicalizeScopes(CanonicalizeScopes(scopes).value) == CanonicalizeScopes(scopes)
  {
    CanonicalizedIsCanonical(scopes);
    CanonicalListStands(CanonicalizeScopes(scopes).value);
  }

  /** The order in which scopes are granted never shows. */
  lemma CanonicalizeScopesIgnoresOrder(xs: seq<string>, ys: seq<string>)
    requires AllParse(xs) && AllParse(ys) && multiset(xs) == multiset(ys)
    ensures CanonicalizeScopes(xs) == CanonicalizeScopes(ys)
  {
    MappedIgnoresOrder(xs, ys, CanonicalText);
    SortIgnoresOrder(Mapped(xs, CanonicalText), Mapped(ys, CanonicalText), Self);
  }

  /** A scope beside its canonical text. */
  datatype Indexed = Indexed(text: string, scope: Scope)

  function TextOf(x: Indexed): string { x.text }

  function ScopeOf(x: Indexed): Scope { x.scope }

  function Index(s: Scope): Indexed { Indexed(Print(s), s) }

  datatype ScopeLists = ScopeLists(canonical: seq<string>, parsed: seq<Scope>)

  /** The canonical texts in order and the scopes behind them, in the same order. */
  function ParseAndCanonicalizeScopes(scopes: seq<string>): Option<ScopeLists> {
    if !AllParse(scopes) then None
    else
      var sorted := Sort(Mapped(ParseEach(scopes), Index), TextOf);
      Some(ScopeLists(Mapped(sorted, TextOf), Mapped(sorted, ScopeOf)))
  }

  lemma {:induction false} InsertMapped(x: Indexed, xs: seq<Indexed>)
    ensures Mapped(Insert(x, xs, TextOf), TextOf) == Insert(x.text, Mapped(xs, TextOf), Self)
  {
    if xs != [] {
      InsertMapped(x, xs[1..]);
    }
  }

  lemma {:induction false} SortMapped(xs: seq<Indexed>)
    ensures Mapped(Sort(xs, TextOf), TextOf) == Sort(Mapped(xs, TextOf), Self)
  {
    if xs != [] {
      SortMapped(xs[1..]);
      InsertMapped(xs[0], Sort(xs[1..], TextOf));
    }
  }

  lemma AllIndexed(xs: seq<Indexed>, parsed: seq<Scope>, i: nat)
    requires multiset(xs) == multiset(Mapped(parsed, Index)) && i < |xs|
    ensures xs[i].text == Print(xs[i].scope)
  {
    assert xs[i] in multiset(Mapped(parsed, Index));
    var j :| 0 <= j < |parsed| && Mapped(parsed, Index)[j] == xs[i];
  }

  lemma ScopesOfIndexed(parsed: seq<Scope>)
    ensures Mapped(Mapped(parsed, Index), ScopeOf) == parsed
  {
    var m := Mapped(parsed, Index);
    assert forall i | 0 <= i < |m| :: m[i].scope == parsed[i];
  }

  /** The texts are those of `CanonicalizeScopes`; each scope stands beside its own text; and the
      scopes are the ones granted, none lost or repeated. */
  lemma ParsedStandBesideTexts(scopes: seq<string>)
    requires AllParse(scopes)
    ensures var r := ParseAndCanonicalizeScopes(scopes).value;
            && CanonicalizeScopes(scopes) == Some(r.canonical)
            && |r.parsed| == |r.canonical|
            && (forall i | 0 <= i < |r.parsed| :: Print(r.parsed[i]) == r.canonical[i])
            && multiset(r.parsed) == multiset(ParseEach(scopes))
  {
    var parsed := ParseEach(scopes);
    var all := Mapped(parsed, Index);
    var sorted := Sort(all, TextOf);
    SortPermutes(all, TextOf);
    SortMapped(all);
    assert Mapped(all, TextOf) == Mapped(scopes, CanonicalText);
    forall i | 0 <= i < |sorted| ensures sorted[i].text == Print(sorted[i].scope) {
      AllIndexed(sorted, parsed, i);
    }
    MappedIgnoresOrder(sorted, all, ScopeOf);
    ScopesOfIndexed(parsed);
  }

  // ----- times and messages -----

  /** `YYYY-MM-DDThh:mm:ssZ`, with or without a fraction of a second. */
  predicate IsIsoUtc(s: string) {
    && |s| >= 20
    && AllDigits(s[..4]) && s[4] == '-' && AllDigits(s[5..7]) && s[7] == '-' && AllDigits(s[8..10])
    && s[10] == 'T'
    && AllDigits(s[11..13]) && s[13] == ':' && AllDigits(s[14..16]) && s[16] == ':' && AllDigits(s[17..19])
    && (s[19..] == "Z" || (|s| >= 22 && s[19] == '.' && AllDigits(s[20..|s| - 1]) && s[|s| - 1] == 'Z'))
  }

  ghost predicate Digits(s: string, n: nat) { |s| == n && forall i | 0 <= i < n :: '0' <= s[i] <= '9' }

  /** Nineteen characters, `YYYY-MM-DDThh:mm:ss`. */
  ghost predicate ToTheSecond(y: string, mo: string, d: string, h: string, mi: string, s: string) {
    Digits(y, 4) && Digits(mo, 2) && Digits(d, 2) && Digits(h, 2) && Digits(mi, 2) && Digits(s, 2)
  }

  /** A text is a time to the second or to a fraction of one, the fraction having a digit at least. */
  lemma IsoUtcReads(y: string, mo: string, d: string, h: string, mi: string, s: string, fraction: string)
    requires ToTheSecond(y, mo, d, h, mi, s)
    ensures var t := y + "-" + mo + "-" + d + "T" + h + ":" + mi + ":" + s;
            && IsIsoUtc(t + "Z")
            && (IsIsoUtc(t + "." + fraction + "Z") <==> fraction != "" && Digits(fraction, |fraction|))
  {
    var t := y + "-" + mo + "-" + d + "T" + h + ":" + mi + ":" + s;
    assert |t| == 19;
    var u := t + "." + fraction + "Z";
    assert u[20..|u| - 1] == fraction && u[..4] == y && u[5..7] == mo && u[8..10] == d;
    assert u[11..13] == h && u[14..16] == mi && u[17..19] == s;
    assert (t + "Z")[..4] == y && (t + "Z")[5..7] == mo && (t + "Z")[8..10] == d;
    assert (t + "Z")[11..13] == h && (t + "Z")[14..16] == mi && (t + "Z")[17..19] == s;
  }

  lemma IsoUtcIsSpelled(t: string)
    returns (y: string, mo: string, d: string, h: string, mi: string, s: string, rest: string)
    requires IsIsoUtc(t)
    ensures ToTheSecond(y, mo, d, h, mi, s) && t == y + "-" + mo + "-" + d + "T" + h + ":" + mi + ":" + s + rest
    ensures || rest == "Z"
            || (2 < |rest| && rest[0] == '.' && Digits(rest[1..|rest| - 1], |rest| - 2) && rest[|rest| - 1] == 'Z')
  {
    y, mo, d, h, mi, s, rest := t[..4], t[5..7], t[8..10], t[11..13], t[14..16], t[17..19], t[19..];
    if rest != "Z" {
      assert rest[1..|rest| - 1] == t[20..|t| - 1];
    }
  }

  lemma IsoIsOneLine(s: string)
    requires IsIsoUtc(s)
    ensures OneLine(s)
  {
    var digits := [s[..4], s[5..7], s[8..10], s[11..13], s[14..16], s[17..19]];
    assert s[..19] == digits[0] + "-" + digits[1] + "-" + digits[2] + "T"
                      + digits[3] + ":" + digits[4] + ":" + digits[5];
    assert forall d | d in digits :: OneLine(d);
    assert s == s[..19] + s[19..];
    if s[19..] != "Z" {
      assert s[19..] == "." + s[20..|s| - 1] + "Z";
    }
  }

  lemma HexIsOneLine(s: string)
    requires AllHex(s)
    ensures OneLine(s)
  {
  }

  datatype DelegationInput = DelegationInput(
    principal: string, agent: string, scopes: seq<string>, bondSats: int, bondAttestation: string,
    issuedAt: string, expiresAt: string, nonce: string)

  datatype SubdelegationInput = SubdelegationInput(
    parentId: string, principal: string, agent: string, scopes: seq<string>,
    issuedAt: string, expiresAt: string, nonce: string)

  datatype ActionInput = ActionInput(
    address: string, contentHash: string, contentLength: int, contentMime: string,
    signedAt: string, delegationId: string, scopeExercised: string)

  datatype RevocationInput = RevocationInput(address: string, delegationId: string, reason: string, signedAt: string)

  function DelegationTail(d: DelegationInput): seq<string> {
    ["scopes: " + Join(d.scopes, ','), "bond_sats: " + IntegerText(d.bondSats),
     "bond_attestation: " + d.bondAttestation, "issued_at: " + d.issuedAt,
     "expires_at: " + d.expiresAt, "nonce: " + d.nonce]
  }

  function DelegationMessage(d: DelegationInput): string {
    Join(["oc-agent:delegation:v1", "principal: " + d.principal, "agent: " + d.agent] + DelegationTail(d), '\n')
  }

  function SubdelegationMessage(d: SubdelegationInput): string {
    Join(["oc-agent:subdelegation:v1", "parent_id: " + d.parentId, "principal: " + d.principal,
          "agent: " + d.agent, "scopes: " + Join(d.scopes, ','), "issued_at: " + d.issuedAt,
          "expires_at: " + d.expiresAt, "nonce: " + d.nonce], '\n')
  }

  function ActionMessage(a: ActionInput): string {
    Join(["oc-agent:action:v1", "address: " + a.address, "content_hash: " + a.contentHash,
          "content_length: " + IntegerText(a.contentLength), "content_mime: " + a.contentMime]
         + ["signed_at: " + a.signedAt, "delegation_id: " + a.delegationId,
            "scope_exercised: " + a.scopeExercised], '\n')
  }

  function RevocationMessage(r: RevocationInput): string {
    Join(["oc-agent:revocation:v1", "address: " + r.address, "delegation_id: " + r.delegationId,
          "reason: " + r.reason, "signed_at: " + r.signedAt], '\n')
  }

  // ----- decoding lines -----

  lemma {:induction false} JoinConcat(a: seq<string>, b: seq<string>, sep: char)
    requires a != [] && b != []
    ensures Join(a + b, sep) == Join(a, sep) + [sep] + Join(b, sep)
    decreases |a|
  {
    if |a| == 1 {
      assert (a + b)[1..] == b;
    } else {
      JoinConcat(a[1..], b, sep);
      assert (a + b)[1..] == a[1..] + b;
      assert a[0] + [sep] + (Join(a[1..], sep) + [sep] + Join(b, sep))
          == (a[0] + [sep] + Join(a[1..], sep)) + [sep] + Join(b, sep);
    }
  }

  ghost predicate AllOneLine(lines: seq<string>) { forall i | 0 <= i < |lines| :: OneLine(lines[i]) }

  /** The last lines of a text can be told apart from whatever stands before them. */
  lemma {:induction false} TailDecodes(x: string, xs: seq<string>, y: string, ys: seq<string>)
    requires |xs| == |ys| && xs != [] && AllOneLine(xs) && AllOneLine(ys)
    requires x + ['\n'] + Join(xs, '\n') == y + ['\n'] + Join(ys, '\n')
    ensures x == y && xs == ys
    decreases |xs|
  {
    if |xs| == 1 {
      CutLast(x, xs[0], y, ys[0], '\n');
    } else {
      var a, b := x + ['\n'] + xs[0], y + ['\n'] + ys[0];
      assert x + ['\n'] + Join(xs, '\n') == a + ['\n'] + Join(xs[1..], '\n');
      assert y + ['\n'] + Join(ys, '\n') == b + ['\n'] + Join(ys[1..], '\n');
      TailDecodes(a, xs[1..], b, ys[1..]);
      CutLast(x, xs[0], y, ys[0], '\n');
      assert xs == [xs[0]] + xs[1..] && ys == [ys[0]] + ys[1..];
    }
  }

  lemma ScopesLineDecodes(xs: seq<string>, ys: seq<string>)
    requires xs != [] && ys != [] && AllCanonical(xs) && AllCanonical(ys)
    requires "scopes: " + Join(xs, ',') == "scopes: " + Join(ys, ',')
    ensures xs == ys
  {
    Cancel("scopes: ", Join(xs, ','), Join(ys, ','));
    ScopeListReadsBack(xs);
    ScopeListReadsBack(ys);
  }

  lemma ScopesLineIsOneLine(scopes: seq<string>)
    requires AllCanonical(scopes)
    ensures OneLine("scopes: " + Join(scopes, ','))
  {
    forall s | s in scopes ensures '\n' !in s {
      CanonicalIsOneLine(s);
    }
    JoinLacks(scopes, ',', '\n');
  }
}
