/** The producer side: creating a delegation, the pre-flight scope check and signing an action,
    and that what they produce is accepted (agent-signer/src/index.ts, agent-core/src/assert-scope.ts). */
module Signer {
  import opened Text
  import opened Scope
  import opened Registry
  import opened SubScope
  import opened RoundTrip
  import Sorting
  import opened Canonical
  import opened Envelopes
  import opened Verify
  import opened Authority

  // ----- creating a delegation -----

  const DEFAULT_TTL_MS := 7 * 24 * 60 * 60 * 1000

  /** Times are in milliseconds; `sign` is the wallet. */
  datatype CreateInput = CreateInput(
    principal: string, sign: string -> string, agent: string, scopes: seq<string>, bond: Option<Bond>,
    issuedAt: int, expiresAt: Option<int>, ttlMs: Option<int>, nonce: string)

  /** A duration that is not positive or exceeds 365 days; times that do not parse compare as neither. */
  predicate BadDuration(issued: Option<int>, expires: Option<int>) {
    issued.Some? && expires.Some?
    && (expires.value - issued.value <= 0 || expires.value - issued.value > MAX_DELEGATION_MS)
  }

  /** The fields the principal's wallet signs for. */
  function CreatedFields(c: CreateInput, scopes: seq<string>, issuedAt: string, expiresAt: string): DelegationInput {
    DelegationInput(c.principal, c.agent, scopes, if c.bond.Some? then c.bond.value.sats else 0,
      if c.bond.Some? then c.bond.value.attestationId else "none", issuedAt, expiresAt, c.nonce)
  }

  function Created(w: World, c: CreateInput, scopes: seq<string>, issuedAt: string, expiresAt: string): (d: Link)
    ensures d.Delegation?
  {
    var id := w.sha(DelegationMessage(CreatedFields(c, scopes, issuedAt, expiresAt)));
    Delegation(1, "agent-delegation", id, Actor(c.principal, "bip322"), Actor(c.agent, "bip322"), Some(scopes), c.bond,
      issuedAt, expiresAt, c.nonce, Signature("bip322", c.principal, c.sign(id)))
  }

  /** The end given, or the beginning as written plus the duration; nothing when that is no real time. */
  function ExpiryOf(w: World, iso: int -> string, c: CreateInput): Option<string> {
    if c.expiresAt.Some? then Some(iso(c.expiresAt.value))
    else
      match w.time(iso(c.issuedAt))
      case None => None
      case Some(issued) => Some(iso(issued + if c.ttlMs.Some? then c.ttlMs.value else DEFAULT_TTL_MS))
  }

  predicate MayCreate(w: World, iso: int -> string, c: CreateInput) {
    && c.scopes != [] && AllParse(c.scopes) && AllValid(c.scopes, Strict)
    && ExpiryOf(w, iso, c).Some?
    && !BadDuration(w.time(iso(c.issuedAt)), w.time(ExpiryOf(w, iso, c).value))
    && IsHex(c.nonce, 32) && BondShape(c.bond)
  }

  /** The public-scope envelope, or nothing where the source throws. `iso` writes a time in
      milliseconds as ISO 8601 UTC with whole seconds. */
  function CreateDelegation(w: World, iso: int -> string, c: CreateInput): (r: Option<Link>)
    ensures r.Some? ==> r.value.Delegation?
  {
    if !MayCreate(w, iso, c) then None
    else Some(Created(w, c, CanonicalizeScopes(c.scopes).value, iso(c.issuedAt), ExpiryOf(w, iso, c).value))
  }

  // ----- canonical scopes stay valid -----

  lemma StrictIsEnough(s: Scope, mode: Strictness)
    requires Valid(s, Strict)
    ensures Valid(s, mode)
  {
  }

  lemma ArrangedStaysValid(s: Scope, mode: Strictness)
    requires Valid(s, mode)
    ensures Valid(Arranged(s), mode)
  {
    ArrangedKeepsMembers(s);
    var reg := Registered(s.product, s.verb);
    var cs := Arranged(s).constraints;
    if reg.Some? {
      forall i | 0 <= i < |cs| ensures ConstraintValid(reg.value, mode, cs[i]) {
        assert cs[i] in cs;
        var j :| 0 <= j < |s.constraints| && s.constraints[j] == cs[i];
      }
    }
  }

  lemma CanonicalizedStaysValid(scopes: seq<string>, mode: Strictness)
    requires AllParse(scopes) && AllValid(scopes, Strict)
    ensures AllParse(CanonicalizeScopes(scopes).value) && AllValid(CanonicalizeScopes(scopes).value, mode)
  {
    var c := CanonicalizeScopes(scopes).value;
    var texts := Sorting.Mapped(scopes, CanonicalText);
    CanonicalizedIsCanonical(scopes);
    Sorting.SortKeepsMembers(texts, Sorting.Self);
    forall i | 0 <= i < |c| ensures Valid(Parse(c[i]).value, mode) {
      assert c[i] in c;
      var j :| 0 <= j < |texts| && texts[j] == c[i];
      RoundTrip.RoundTrip(scopes[j]);
      ArrangedStaysValid(Parse(scopes[j]).value, Strict);
      StrictIsEnough(Parse(c[i]).value, mode);
    }
  }

  lemma CreatedScopesStand(c: CreateInput, mode: Strictness)
    requires AllParse(c.scopes) && AllValid(c.scopes, Strict)
    ensures ScopesStand(CanonicalizeScopes(c.scopes).value, mode)
  {
    CanonicalizedStaysValid(c.scopes, mode);
    CanonicalizeScopesIdempotent(c.scopes);
  }

  // ----- a created delegation verifies -----

  /** What the environment provides: addresses are present, both times print with four-digit
      years and parse, ids are 64 hex digits, and the wallet's signature verifies. */
  ghost predicate SoundlyCreated(w: World, o: Options, d: Link)
    requires d.Delegation?
  {
    && d.principal.address != "" && d.agent.address != ""
    && IsIsoUtc(d.issuedAt) && IsIsoUtc(d.expiresAt)
    && w.time(d.issuedAt).Some? && w.time(d.expiresAt).Some?
    && IsHex64(d.id)
    && SignatureProblem(o, d.id, d.sig.value, d.principal.address, BadSig).None?
  }

  lemma CreatedHasShape(w: World, o: Options, iso: int -> string, c: CreateInput, d: Link)
    requires d.Delegation? && CreateDelegation(w, iso, c) == Some(d) && SoundlyCreated(w, o, d)
    ensures DelegationShape(w, d) && d.v == 1 && d.scopes == CanonicalizeScopes(c.scopes)
    ensures w.sha(DelegationMessage(DelegationFields(d))) == d.id
    ensures AllParse(c.scopes) && AllValid(c.scopes, Strict)
  {
    CanonicalizedIsCanonical(c.scopes);
  }

  lemma CreatedHasNoProblem(w: World, o: Options, iso: int -> string, c: CreateInput, d: Link)
    requires d.Delegation? && CreateDelegation(w, iso, c) == Some(d) && SoundlyCreated(w, o, d)
    ensures DelegationProblem(w, o, d).None?
  {
    CreatedHasShape(w, o, iso, c, d);
    CreatedScopesStand(c, o.mode);
  }

  lemma ClockIsWindow(w: World, d: Link, t: int)
    requires w.time(d.issuedAt).Some? && w.time(d.expiresAt).Some?
    ensures ClockProblem(w, d, t).None? <==> InWindow(w, d, t)
  {
  }

  lemma VerdictIsClock(w: World, o: Options, d: Link, t: int)
    requires d.Delegation? && DelegationProblem(w, o, d).None? && o.revocations == Some([])
    ensures DelegationVerdict(w, o, d, Some(t)).Ok? <==> ClockProblem(w, d, t).None?
  {
    assert Objects(FeedOf(o)) == [];
  }

  /** Everything `CreateDelegation` returns is accepted at exactly the times in its window, in
      either mode, when no revocation is known. */
  lemma CreatedDelegationVerifies(w: World, o: Options, iso: int -> string, c: CreateInput, d: Link, t: int)
    requires d.Delegation? && CreateDelegation(w, iso, c) == Some(d) && SoundlyCreated(w, o, d)
    requires o.revocations == Some([])
    ensures DelegationVerdict(w, o, d, Some(t)).Ok? <==> InWindow(w, d, t)
  {
    CreatedHasNoProblem(w, o, iso, c, d);
    VerdictIsClock(w, o, d, t);
    ClockIsWindow(w, d, t);
  }

  // ----- the pre-flight check -----

  /** `scopeExercised` is strictly valid and a sub-scope of something the delegation grants. */
  predicate AssertScopeGranted(scopes: Option<seq<string>>, scopeExercised: string) {
    && scopes.Some? && scopes.value != []
    && Parse(scopeExercised).Some? && Valid(Parse(scopeExercised).value, Strict)
    && AllParse(scopes.value)
    && SomeGrants(ParseEach(scopes.value), Parse(scopeExercised).value)
  }

  // ----- signing an action -----

  datatype Payload = Raw(bytes: seq<Byte>) | Hashed(hash: string, length: int)

  datatype SignInput = SignInput(
    agent: string, sign: string -> string, delegation: Link, payload: Payload, mime: string,
    scopeExercised: string, signedAt: int, ots: Option<Ots>)

  predicate PayloadAccepted(p: Payload) {
    p.Hashed? ==> "sha256:" <= p.hash && |p.hash| == 71 && 0 <= p.length
  }

  function ContentOf(w: World, s: SignInput): Content {
    match s.payload
    case Raw(bytes) => Content("sha256:" + w.digest(bytes), |bytes|, s.mime)
    case Hashed(hash, length) => Content(hash, length, s.mime)
  }

  function UnsignedAction(w: World, iso: int -> string, s: SignInput): Action {
    Action(1, "agent-action", "", ContentOf(w, s), Actor(s.agent, "bip322"), iso(s.signedAt),
      s.delegation.id, s.scopeExercised, s.ots, Signature("bip322", s.agent, ""))
  }

  /** The signed action, or nothing where the source throws: another agent's delegation, a bad
      payload, a scope that does not parse, or content outside the scope claimed. */
  function SignAsAgent(w: World, iso: int -> string, s: SignInput): Option<Action> {
    var claim := Parse(s.scopeExercised);
    if s.agent != s.delegation.agent.address || !PayloadAccepted(s.payload) || claim.None? then None
    else if !IsSubScope(ContentBound(claim.value, ContentOf(w, s), w.lower), claim.value) then None
    else
      var a := UnsignedAction(w, iso, s);
      var id := ActionId(w, a);
      Some(a.(id := id, sig := a.sig.(value := s.sign(id))))
  }

  /** The content check follows from the signer's own: content under claim under grant. */
  lemma ContentFollowsClaim(granted: seq<Scope>, claim: Scope, fromContent: Scope)
    requires SomeGrants(granted, claim) && IsSubScope(fromContent, claim)
    ensures GrantsWithContent(granted, claim, fromContent)
  {
    var i :| 0 <= i < |granted| && IsSubScope(claim, granted[i]);
    SubScopeTransitive(fromContent, claim, granted[i]);
  }

  /** What the environment provides for the action. */
  ghost predicate SoundlySigned(w: World, o: Options, a: Action) {
    && IsHex64(a.id) && IsIsoUtc(a.signedAt) && w.time(a.signedAt).Some?
    && SignatureProblem(o, a.id, a.sig.value, a.signer.address, BadActionStamp).None?
  }

  lemma SignedScopePasses(w: World, o: Options, iso: int -> string, s: SignInput, a: Action)
    requires SignAsAgent(w, iso, s) == Some(a) && AssertScopeGranted(s.delegation.scopes, s.scopeExercised)
    ensures ScopeProblem(w, o, a, s.delegation).None?
  {
    var claim := Parse(s.scopeExercised).value;
    var granted := ParseEach(s.delegation.scopes.value);
    StrictIsEnough(claim, o.mode);
    ContentFollowsClaim(granted, claim, ContentBound(claim, a.content, w.lower));
  }

  lemma SignedActionShape(w: World, o: Options, iso: int -> string, s: SignInput, a: Action)
    requires SignAsAgent(w, iso, s) == Some(a) && SoundlySigned(w, o, a)
    requires IsHex64(s.delegation.id) && s.delegation.agent.address != ""
    ensures ActionShape(a) && ActionId(w, a) == a.id && a.v == 1
    ensures a.delegationId == s.delegation.id && a.signer.address == s.delegation.agent.address && a.ots == s.ots
  {
    assert ActionFields(a) == ActionFields(UnsignedAction(w, iso, s));
    assert Parse(a.scopeExercised).Some?;
  }

  lemma SignedActionBinds(w: World, o: Options, a: Action, leaf: Link)
    requires a.v == 1 && ActionShape(a) && ActionId(w, a) == a.id
    requires SignatureProblem(o, a.id, a.sig.value, a.signer.address, BadActionStamp).None?
    requires a.delegationId == leaf.id && a.signer.address == leaf.agent.address && w.time(a.signedAt).Some?
    ensures BindingProblem(w, o, a, leaf).None? <==> InWindow(w, leaf, w.time(a.signedAt).value)
  {
    var ps := BindingChecks(w, o, a, leaf);
    assert First(ps).None? <==> ps[6].None?;
  }

  lemma SignedBindingIsWindow(w: World, o: Options, iso: int -> string, s: SignInput, a: Action)
    requires SignAsAgent(w, iso, s) == Some(a) && SoundlySigned(w, o, a)
    requires IsHex64(s.delegation.id) && s.delegation.agent.address != ""
    ensures BindingProblem(w, o, a, s.delegation).None?
       <==> InWindow(w, s.delegation, w.time(a.signedAt).value)
  {
    SignedActionShape(w, o, iso, s, a);
    SignedActionBinds(w, o, a, s.delegation);
  }

  predicate OtsComplete(ots: Option<Ots>) {
    ots.Some? && ots.value.status == Confirmed ==> ots.value.blockHeight.Some? && ots.value.blockHash.Some?
  }

  /** The caller verifies without revocations, and either gives no content or gives what was signed. */
  ghost predicate PlainAudit(w: World, o: Options, a: Action) {
    && o.revocations == Some([]) && 0 <= o.maxDepth
    && (o.content.Some? ==> "sha256:" + w.digest(o.content.value) == a.content.hash)
  }

  lemma RootAuthorityIsBinding(w: World, o: Options, a: Action, d: Link)
    requires d.Delegation? && DelegationProblem(w, o, d).None? && ScopeProblem(w, o, a, d).None? && 0 <= o.maxDepth
    ensures AuthorityProblem(w, o, a, d, [], None).None? <==> BindingProblem(w, o, a, d).None?
  {
  }

  lemma {:induction false} NoEntriesNoRevocation(w: World, o: Options, a: Action, links: seq<Link>)
    ensures !AnyRevoked(w, o, a, None, links, [])
  {
    if links != [] {
      NoEntriesNoRevocation(w, o, a, links[1..]);
    }
  }

  lemma PlainAuditFinishes(w: World, o: Options, a: Action, links: seq<Link>)
    requires PlainAudit(w, o, a)
    ensures FeedProblem(w, o, a, links, None).None?
    ensures FinishProblem(w, o, a, None).None? <==> OtsComplete(a.ots)
  {
    assert Objects(FeedOf(o)) == [];
    NoEntriesNoRevocation(w, o, a, links);
  }

  lemma AuditIsBindingAndAnchor(w: World, o: Options, a: Action, d: Link)
    requires d.Delegation? && DelegationProblem(w, o, d).None? && ScopeProblem(w, o, a, d).None?
    requires PlainAudit(w, o, a)
    ensures ActionVerdict(w, o, a, d, [], None).Ok? <==> BindingProblem(w, o, a, d).None? && OtsComplete(a.ots)
  {
    RootAuthorityIsBinding(w, o, a, d);
    PlainAuditFinishes(w, o, a, Links(d, []));
  }

  /** A signer that passes the pre-flight check and returns has made an action the audit accepts:
      for exactly the signing times in the delegation's window, an anchor it attached being complete. */
  lemma SignedActionVerifies(w: World, o: Options, iso: int -> string, s: SignInput, a: Action)
    requires s.delegation.Delegation? && DelegationProblem(w, o, s.delegation).None?
    requires AssertScopeGranted(s.delegation.scopes, s.scopeExercised)
    requires SignAsAgent(w, iso, s) == Some(a) && SoundlySigned(w, o, a) && PlainAudit(w, o, a)
    ensures ActionVerdict(w, o, a, s.delegation, [], None).Ok?
       <==> InWindow(w, s.delegation, w.time(a.signedAt).value) && OtsComplete(s.ots)
  {
    SignedScopePasses(w, o, iso, s, a);
    SignedBindingIsWindow(w, o, iso, s, a);
    AuditIsBindingAndAnchor(w, o, a, s.delegation);
  }

  // ----- what the envelopes say -----

  lemma CreatedUntil(w: World, iso: int -> string, c: CreateInput)
    requires ExpiryOf(w, iso, c).Some?
    ensures c.expiresAt.Some? ==> ExpiryOf(w, iso, c).value == iso(c.expiresAt.value)
    ensures c.expiresAt.None? ==>
              && w.time(iso(c.issuedAt)).Some?
              && ExpiryOf(w, iso, c).value
              == iso(w.time(iso(c.issuedAt)).value + if c.ttlMs.Some? then c.ttlMs.value else 604_800_000)
  {
  }

  /** The delegation says what was asked for, under the hash of its message and the wallet's signature. */
  ghost predicate Says(w: World, c: CreateInput, d: Link, scopes: seq<string>, issuedAt: string, expiresAt: string) {
    && d.Delegation? && d.scopes == Some(scopes) && d.bond == c.bond && d.nonce == c.nonce
    && d.principal.address == c.principal && d.agent.address == c.agent
    && d.issuedAt == issuedAt && d.expiresAt == expiresAt
    && d.id == w.sha(DelegationMessage(DelegationFields(d))) && d.sig.value == c.sign(d.id)
  }

  lemma CreatedFieldsAre(w: World, c: CreateInput, scopes: seq<string>, issuedAt: string, expiresAt: string)
    ensures Says(w, c, Created(w, c, scopes, issuedAt, expiresAt), scopes, issuedAt, expiresAt)
  {
    var d := Created(w, c, scopes, issuedAt, expiresAt);
    assert DelegationFields(d) == CreatedFields(c, scopes, issuedAt, expiresAt);
  }

  /** What a created delegation says: the fields given, the scopes in canonical form, and an end that is
      the one given or, seven days on unless a duration is given, follows the beginning as written. */
  lemma CreatedSays(w: World, iso: int -> string, c: CreateInput, d: Link) returns (expiresAt: string)
    requires CreateDelegation(w, iso, c) == Some(d)
    ensures AllParse(c.scopes) && Says(w, c, d, CanonicalizeScopes(c.scopes).value, iso(c.issuedAt), expiresAt)
    ensures c.expiresAt.Some? ==> expiresAt == iso(c.expiresAt.value)
    ensures c.expiresAt.None? ==>
              && w.time(iso(c.issuedAt)).Some?
              && expiresAt == iso(w.time(iso(c.issuedAt)).value + if c.ttlMs.Some? then c.ttlMs.value else 604_800_000)
  {
    CreatedUntil(w, iso, c);
    expiresAt := ExpiryOf(w, iso, c).value;
    CreatedFieldsAre(w, c, CanonicalizeScopes(c.scopes).value, iso(c.issuedAt), expiresAt);
  }

  /** When it is created: at least one scope, all strictly valid, a real window of at most 365 days, a
      nonce of 32 hex digits and a well-formed bond. */
  lemma CreatedWhen(w: World, iso: int -> string, c: CreateInput)
    requires c.expiresAt.Some? && w.time(iso(c.issuedAt)).Some? && w.time(iso(c.expiresAt.value)).Some?
    ensures CreateDelegation(w, iso, c).Some?
       <==> && c.scopes != []
            && (forall i | 0 <= i < |c.scopes| ::
                  Parse(c.scopes[i]).Some? && Valid(Parse(c.scopes[i]).value, Strict))
            && 0 < w.time(iso(c.expiresAt.value)).value - w.time(iso(c.issuedAt)).value <= 31_536_000_000
            && IsHex(c.nonce, 32)
            && (c.bond.Some? ==> 0 <= c.bond.value.sats && IsHex(c.bond.value.attestationId, 64))
  {
  }

  /** What a signed action says: the content's own hash and length, or those given for it, and the
      wallet's signature over the id. */
  lemma SignedSays(w: World, iso: int -> string, s: SignInput, a: Action)
    requires SignAsAgent(w, iso, s) == Some(a)
    ensures match s.payload
            case Raw(bytes) => a.content == Content("sha256:" + w.digest(bytes), |bytes|, s.mime)
            case Hashed(hash, length) =>
              a.content == Content(hash, length, s.mime) && "sha256:" <= hash && |hash| == 71 && 0 <= length
    ensures a.signer.address == s.agent == s.delegation.agent.address && a.delegationId == s.delegation.id
    ensures a.signedAt == iso(s.signedAt) && a.scopeExercised == s.scopeExercised && a.ots == s.ots
    ensures a.id == w.sha(ActionMessage(ActionFields(a))) && a.sig.value == s.sign(a.id)
  {
    assert ActionFields(a) == ActionFields(UnsignedAction(w, iso, s));
  }

  /** The verifier given the very bytes that were signed accepts as it would without them. */
  lemma SignedContentVerifies(w: World, o: Options, iso: int -> string, s: SignInput, a: Action)
    requires s.delegation.Delegation? && DelegationProblem(w, o, s.delegation).None? && s.payload.Raw?
    requires AssertScopeGranted(s.delegation.scopes, s.scopeExercised)
    requires SignAsAgent(w, iso, s) == Some(a) && SoundlySigned(w, o, a)
    requires o.revocations == Some([]) && 0 <= o.maxDepth && o.content == Some(s.payload.bytes)
    ensures ActionVerdict(w, o, a, s.delegation, [], None).Ok?
       <==> InWindow(w, s.delegation, w.time(a.signedAt).value) && OtsComplete(s.ots)
  {
    SignedSays(w, iso, s, a);
    SignedActionVerifies(w, o, iso, s, a);
  }

  /** The pre-flight check asks no more of the claim than a strict verifier does. */
  lemma PreflightIsTheVerifiers(w: World, o: Options, a: Action, leaf: Link)
    requires o.mode == Strict && ScopeProblem(w, o, a, leaf).None?
    ensures AssertScopeGranted(leaf.scopes, a.scopeExercised)
  {
    AcceptedScopes(w, o, a, leaf);
    var claim := Parse(a.scopeExercised).value;
    var granted := ParseEach(leaf.scopes.value);
    var i :| 0 <= i < |granted| && IsSubScope(claim, granted[i])
             && IsSubScope(ContentBound(claim, a.content, w.lower), granted[i]);
    assert SomeGrants(granted, claim);
  }
}
