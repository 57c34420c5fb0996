/** The verifier: delegations, sub-delegation links, revocations, and actions, live or as an
    audit (agent-core/src/verify.ts). Each check answers nothing, or why it refuses. */
module Verify {
  import opened Text
  import opened Scope
  import opened Registry
  import opened SubScope
  import opened Canonical
  import opened Envelopes

  // ----- shapes -----

  predicate IsHex64(s: string) { IsHex(s, 64) }

  predicate ActorShape(a: Actor) { a.address != "" && a.alg == "bip322" }

  predicate SignatureShape(sig: Signature, signer: Actor) { sig.alg == "bip322" && sig.pubkey == signer.address }

  /** A non-empty window of at most 365 days between two real times. */
  predicate WindowShape(w: World, issuedAt: string, expiresAt: string) {
    var issued, expires := w.time(issuedAt), w.time(expiresAt);
    issued.Some? && expires.Some? && 0 < expires.value - issued.value <= MAX_DELEGATION_MS
  }

  predicate BondShape(bond: Option<Bond>) {
    bond.Some? ==> 0 <= bond.value.sats && IsHex64(bond.value.attestationId)
  }

  predicate ScopesShape(scopes: Option<seq<string>>) { scopes.Some? ==> scopes.value != [] }

  predicate DelegationShape(w: World, d: Link)
    requires d.Delegation?
  {
    && d.kind == "agent-delegation" && IsHex64(d.id)
    && ActorShape(d.principal) && ActorShape(d.agent)
    && ScopesShape(d.scopes) && BondShape(d.bond)
    && IsIsoUtc(d.issuedAt) && IsIsoUtc(d.expiresAt) && WindowShape(w, d.issuedAt, d.expiresAt)
    && IsHex(d.nonce, 32)
    && SignatureShape(d.sig, d.principal)
  }

  predicate SubdelegationShape(s: Link)
    requires s.Subdelegation?
  {
    && s.kind == "agent-subdelegation" && IsHex64(s.id) && IsHex64(s.parentId)
    && ActorShape(s.principal) && ActorShape(s.agent)
    && ScopesShape(s.scopes) && !s.carriesBond
    && IsIsoUtc(s.issuedAt) && IsIsoUtc(s.expiresAt)
    && IsHex(s.nonce, 32)
    && SignatureShape(s.sig, s.principal)
  }

  /** A link handed in beside the envelope being checked. */
  predicate LinkShape(w: World, link: Link) {
    && (if link.Delegation? then DelegationShape(w, link) else SubdelegationShape(link))
    && (link.scopes.Some? ==> forall i | 0 <= i < |link.scopes.value| :: link.scopes.value[i] != "")
  }

  predicate ActionShape(a: Action) {
    && a.kind == "agent-action" && IsHex64(a.id)
    && "sha256:" <= a.content.hash && 0 <= a.content.length
    && ActorShape(a.signer)
    && IsIsoUtc(a.signedAt) && IsHex64(a.delegationId) && a.scopeExercised != ""
    && SignatureShape(a.sig, a.signer)
  }

  predicate RevocationShape(r: Revocation) {
    IsHex64(r.delegationId) && r.signer.address != "" && IsIsoUtc(r.signedAt)
  }

  // ----- signatures -----

  function SignatureProblem(o: Options, id: string, signature: string, address: string, code: Code): Option<Code> {
    if o.skipSignatures then None
    else if o.bip322.None? then Some(BadSig)
    else Require(o.bip322.value(id, signature, address), code)
  }

  // ----- delegation -----

  predicate AllValid(scopes: seq<string>, mode: Strictness)
    requires AllParse(scopes)
  {
    forall i | 0 <= i < |scopes| :: Valid(Parse(scopes[i]).value, mode)
  }

  /** The scopes parse, are valid, and stand in canonical form and order. */
  predicate ScopesStand(scopes: seq<string>, mode: Strictness) {
    AllParse(scopes) && AllValid(scopes, mode) && CanonicalizeScopes(scopes) == Some(scopes)
  }

  /** Everything but revocation and the clock. */
  function DelegationProblem(w: World, o: Options, d: Link): Option<Code>
    requires d.Delegation?
  {
    if d.v != 1 then Some(UnsupportedVersion)
    else if !DelegationShape(w, d) then Some(Malformed)
    else if d.scopes.None? then Some(NeitherScopes)
    else if !ScopesStand(d.scopes.value, o.mode) then Some(BadScopeGrammar)
    else if w.sha(DelegationMessage(DelegationFields(d))) != d.id then Some(BadId)
    else SignatureProblem(o, d.id, d.sig.value, d.principal.address, BadSig)
  }

  // ----- revocation of one link -----

  /** The id of the signed fields; the envelope's own `id` is a copy. */
  function RevocationId(w: World, r: Revocation): string { w.sha(RevocationMessage(RevocationFields(r))) }

  function RevocationProblem(w: World, o: Options, r: Revocation, link: Link): Option<Code> {
    if !RevocationShape(r) || !LinkShape(w, link) then Some(Malformed)
    else if r.delegationId != link.id then Some(DelegationMismatch)
    else if r.signer.address != link.principal.address && r.signer.address != link.agent.address then
      Some(RevokerUnauthorized)
    else SignatureProblem(o, RevocationId(w, r), r.sig.value, r.signer.address, BadSig)
  }

  predicate Authentic(w: World, o: Options, r: Revocation, link: Link) { RevocationProblem(w, o, r, link).None? }

  function FeedOf(o: Options): seq<FeedEntry> { if o.revocations.Some? then o.revocations.value else [] }

  /** The entries of a feed that are objects. */
  function Objects(feed: seq<FeedEntry>): (revs: seq<Revocation>)
    ensures |revs| <= |feed|
  {
    if feed == [] then []
    else (if feed[0].Entry? then [feed[0].rev] else []) + Objects(feed[1..])
  }

  function SkipOf(w: World, o: Options, link: Link, r: Revocation): nat {
    if r.delegationId == link.id && !Authentic(w, o, r, link) then 1 else 0
  }

  /** Entries that cite the link and fail their own check. */
  function SkippedFor(w: World, o: Options, link: Link, revs: seq<Revocation>): nat {
    if revs == [] then 0
    else SkippedFor(w, o, link, revs[..|revs| - 1]) + SkipOf(w, o, link, revs[|revs| - 1])
  }

  // ----- a delegation on its own -----

  function ClockProblem(w: World, link: Link, t: int): Option<Code> {
    var issued, expires := w.time(link.issuedAt), w.time(link.expiresAt);
    if issued.Some? && t < issued.value then Some(NotYetValid)
    else if expires.Some? && expires.value <= t then Some(Expired)
    else None
  }

  /** Some entry is a genuine revocation of the delegation. */
  predicate DelegationRevoked(w: World, o: Options, d: Link, revs: seq<Revocation>) {
    exists j | 0 <= j < |revs| :: Authentic(w, o, revs[j], d)
  }

  /** What the feed and the clock have against a delegation. */
  function DelegationTimeProblem(w: World, o: Options, d: Link, now: Option<int>): Option<Code> {
    Or(Require(o.skipRevocation || o.revocations.Some?, Malformed),
    Or(Require(!DelegationRevoked(w, o, d, Objects(FeedOf(o))), Revoked),
       if now.Some? then ClockProblem(w, d, now.value) else None))
  }

  function DelegationSkipped(w: World, o: Options, d: Link): nat {
    |FeedOf(o)| - |Objects(FeedOf(o))| + SkippedFor(w, o, d, Objects(FeedOf(o)))
  }

  /** The verdict on a delegation; `now` absent skips the clock. Accepted with the number of
      feed entries that were skipped. */
  function DelegationVerdict(w: World, o: Options, d: Link, now: Option<int>): Result<nat>
    requires d.Delegation?
  {
    match Or(DelegationProblem(w, o, d), DelegationTimeProblem(w, o, d, now))
    case Some(code) => Err(code)
    case None => Ok(DelegationSkipped(w, o, d))
  }

  // ----- one link of a chain -----

  predicate SomeGrants(granted: seq<Scope>, s: Scope) {
    exists i | 0 <= i < |granted| :: IsSubScope(s, granted[i])
  }

  /** Every scope of the child lies under some scope of the parent. */
  predicate Narrows(child: seq<Scope>, parent: seq<Scope>) {
    forall i | 0 <= i < |child| :: SomeGrants(parent, child[i])
  }

  function WindowProblem(w: World, s: Link, parent: Link): Option<Code> {
    var si, se := w.time(s.issuedAt), w.time(s.expiresAt);
    var pi, pe := w.time(parent.issuedAt), w.time(parent.expiresAt);
    if si.None? || se.None? || pi.None? || pe.None? then Some(Malformed)
    else if se.value <= si.value then Some(Malformed)
    else Require(pi.value <= si.value && se.value <= pe.value, ExpiresExtended)
  }

  function ContainmentProblem(s: Link, parent: Link): Option<Code> {
    if parent.scopes.None? || s.scopes.None? then Some(NeitherScopes)
    else if !AllParse(parent.scopes.value) || !AllParse(s.scopes.value) then Some(BadScopeGrammar)
    else Require(Narrows(ParseEach(s.scopes.value), ParseEach(parent.scopes.value)), ScopeEscalated)
  }

  /** What is checked once the link itself stands: its signature, and what it owes its parent. */
  function ParentChecks(w: World, o: Options, s: Link, parent: Link): seq<Option<Code>>
    requires s.Subdelegation?
  {
    [SignatureProblem(o, s.id, s.sig.value, s.principal.address, BadSig),
     Require(s.parentId == parent.id && s.principal.address == parent.agent.address, PrincipalMismatch),
     WindowProblem(w, s, parent),
     ContainmentProblem(s, parent)]
  }

  function ChainLinkProblem(w: World, o: Options, s: Link, parent: Link): Option<Code>
    requires s.Subdelegation?
  {
    if s.scopes.None? then Some(NeitherScopes)
    else if s.v != 1 then Some(UnsupportedVersion)
    else if !SubdelegationShape(s) then Some(Malformed)
    else if !AllParse(s.scopes.value) then Some(BadScopeGrammar)
    else if w.sha(SubdelegationMessage(SubdelegationFields(s))) != s.id then Some(BadId)
    else if !AllValid(s.scopes.value, o.mode) then Some(BadScopeGrammar)
    else First(ParentChecks(w, o, s, parent))
  }

  predicate IsChain(chain: seq<Link>) { forall i | 0 <= i < |chain| :: chain[i].Subdelegation? }

  /** Walks a chain down from `parent`, each link checked against the one above it. */
  function Walk(check: (Link, Link) -> Option<Code>, parent: Link, chain: seq<Link>): Option<Code>
    decreases |chain|
  {
    if chain == [] then None else Or(check(chain[0], parent), Walk(check, chain[0], chain[1..]))
  }

  function LinkCheck(w: World, o: Options): (Link, Link) -> Option<Code> {
    (s: Link, parent: Link) => if s.Subdelegation? then ChainLinkProblem(w, o, s, parent) else Some(Malformed)
  }

  function WalkProblem(w: World, o: Options, parent: Link, chain: seq<Link>): Option<Code> {
    Walk(LinkCheck(w, o), parent, chain)
  }

  function Links(d: Link, chain: seq<Link>): seq<Link> { [d] + chain }

  function Leaf(d: Link, chain: seq<Link>): Link { if chain == [] then d else chain[|chain| - 1] }

  // ----- the action against the leaf -----

  function ActionId(w: World, a: Action): string { w.sha(ActionMessage(ActionFields(a))) }

  function SignedProblem(w: World, a: Action, leaf: Link): Option<Code> {
    var issued, expires, signed := w.time(leaf.issuedAt), w.time(leaf.expiresAt), w.time(a.signedAt);
    if issued.None? || expires.None? || signed.None? then Some(Malformed)
    else Require(issued.value <= signed.value < expires.value, OutOfWindow)
  }

  function BindingChecks(w: World, o: Options, a: Action, leaf: Link): seq<Option<Code>> {
    [Require(a.v == 1, UnsupportedVersion),
     Require(ActionShape(a), Malformed),
     Require(ActionId(w, a) == a.id, BadId),
     SignatureProblem(o, a.id, a.sig.value, a.signer.address, BadActionStamp),
     Require(a.delegationId == leaf.id, DelegationMismatch),
     Require(a.signer.address == leaf.agent.address, AgentMismatch),
     SignedProblem(w, a, leaf)]
  }

  function BindingProblem(w: World, o: Options, a: Action, leaf: Link): Option<Code> {
    First(BindingChecks(w, o, a, leaf))
  }

  /** Live: the first link, from the root down, that is not in force at `t`. */
  function ForceProblem(w: World, links: seq<Link>, t: int): (r: Option<Code>)
    ensures r.None? <==> forall i | 0 <= i < |links| :: ClockProblem(w, links[i], t).None?
  {
    if links == [] then None
    else
      var p := ClockProblem(w, links[0], t);
      if p.Some? then p else ForceProblem(w, links[1..], t)
  }

  /** Some granted scope admits both the claim and what the content itself says. */
  predicate GrantsWithContent(granted: seq<Scope>, claim: Scope, fromContent: Scope) {
    exists i | 0 <= i < |granted| :: IsSubScope(claim, granted[i]) && IsSubScope(fromContent, granted[i])
  }

  function ScopeProblem(w: World, o: Options, a: Action, leaf: Link): Option<Code> {
    if leaf.scopes.None? then Some(NeitherScopes)
    else
      var claim := Parse(a.scopeExercised);
      if claim.None? || !AllParse(leaf.scopes.value) || !Valid(claim.value, o.mode) then Some(BadScopeGrammar)
      else
        var granted := ParseEach(leaf.scopes.value);
        First([
          Require(SomeGrants(granted, claim.value), ScopeDenied),
          Require(GrantsWithContent(granted, claim.value, ContentBound(claim.value, a.content, w.lower)), ScopeDenied)])
  }

  // ----- anchors and revocation priority -----

  /** The height an anchor proves for `id`, when the caller's verifier confirms it. */
  function AnchorHeight(o: Options, ots: Option<Ots>, id: string, envelope: Anchored): Option<int> {
    if ots.None? || ots.value.status != Confirmed || o.verifyAnchor.None? then None
    else
      var h := if o.resolveHeight.Some? then o.resolveHeight.value(envelope) else ots.value.blockHeight;
      var hash := ots.value.blockHash;
      if h.None? || hash.None? || hash.value == "" then None
      else if o.verifyAnchor.value(ots.value.proof, h.value, hash.value, id) then h
      else None
  }

  function ActionAnchor(o: Options, a: Action): Option<int> { AnchorHeight(o, a.ots, a.id, OfAction(a)) }

  function RevocationAnchor(w: World, o: Options, r: Revocation): Option<int> {
    AnchorHeight(o, r.ots, RevocationId(w, r), OfRevocation(r))
  }

  predicate NotAfter(w: World, earlier: string, later: string) {
    w.time(earlier).Some? && w.time(later).Some? && w.time(earlier).value <= w.time(later).value
  }

  /** The revocation takes effect at or before the action. */
  predicate Precedes(w: World, o: Options, r: Revocation, a: Action) {
    var ra, aa := RevocationAnchor(w, o, r), ActionAnchor(o, a);
    if ra.Some? && aa.Some? then ra.value <= aa.value
    else if aa.None? && r.ots.Some? && r.ots.value.status == Confirmed then true
    else NotAfter(w, r.signedAt, a.signedAt)
  }

  /** Live: already in effect at `t`, whatever time the action claims. */
  predicate InEffect(w: World, o: Options, r: Revocation, t: int) {
    RevocationAnchor(w, o, r).Some? || (w.time(r.signedAt).Some? && w.time(r.signedAt).value <= t)
  }

  predicate Strikes(w: World, o: Options, a: Action, now: Option<int>, r: Revocation) {
    Precedes(w, o, r, a) || (now.Some? && InEffect(w, o, r, now.value))
  }

  predicate Effective(w: World, o: Options, a: Action, now: Option<int>, link: Link, r: Revocation) {
    r.delegationId == link.id && Authentic(w, o, r, link) && Strikes(w, o, a, now, r)
  }

  /** Some entry of the feed revokes the link. */
  predicate LinkRevoked(w: World, o: Options, a: Action, now: Option<int>, link: Link, revs: seq<Revocation>) {
    revs != [] && (Effective(w, o, a, now, link, revs[0]) || LinkRevoked(w, o, a, now, link, revs[1..]))
  }

  predicate AnyRevoked(w: World, o: Options, a: Action, now: Option<int>, links: seq<Link>, revs: seq<Revocation>) {
    links != [] && (LinkRevoked(w, o, a, now, links[0], revs) || AnyRevoked(w, o, a, now, links[1..], revs))
  }

  function SkippedAll(w: World, o: Options, links: seq<Link>, revs: seq<Revocation>): nat {
    if links == [] then 0
    else SkippedAll(w, o, links[..|links| - 1], revs) + SkippedFor(w, o, links[|links| - 1], revs)
  }

  // ----- the rest of an action's checks -----

  function StaleProblem(w: World, o: Options, a: Action, now: Option<int>): Option<Code> {
    var signed := w.time(a.signedAt);
    if now.None? || signed.None? then None
    else Require(-o.maxSkewMs <= now.value - signed.value <= o.maxSkewMs, Stale)
  }

  function ContentProblem(w: World, o: Options, a: Action): Option<Code> {
    if o.content.None? then None
    else Require("sha256:" + w.digest(o.content.value) == a.content.hash, BadActionStamp)
  }

  datatype Anchor = NoAnchor | PendingAnchor | Claimed(height: int, hash: string) | Proven(height: int, hash: string)

  function AnchorOf(o: Options, a: Action): Option<Anchor> {
    if a.ots.None? then Some(NoAnchor)
    else if a.ots.value.status == Pending then Some(PendingAnchor)
    else if a.ots.value.blockHeight.None? || a.ots.value.blockHash.None? then None
    else if ActionAnchor(o, a).Some? then Some(Proven(a.ots.value.blockHeight.value, a.ots.value.blockHash.value))
    else Some(Claimed(a.ots.value.blockHeight.value, a.ots.value.blockHash.value))
  }

  datatype AsOf = AtNow(t: int) | AtSigned(signedAt: string, anchored: bool)

  datatype Accepted = Accepted(
    id: string, root: Link, chain: seq<Link>, scopeExercised: string, anchor: Anchor, asOf: AsOf,
    revocationsSkipped: nat)

  /** The chain, the action's binding to its leaf, the clock and the scope: everything but the
      feed and the anchor. `now` absent is an audit as of `signed_at`. */
  function AuthorityProblem(w: World, o: Options, a: Action, d: Link, chain: seq<Link>, now: Option<int>): Option<Code>
    requires d.Delegation? && IsChain(chain)
  {
    Or(Require(|chain| <= o.maxDepth, DepthExceeded),
    Or(DelegationProblem(w, o, d),
    Or(WalkProblem(w, o, d, chain),
    Or(BindingProblem(w, o, a, Leaf(d, chain)),
    Or(if now.Some? then ForceProblem(w, Links(d, chain), now.value) else None,
       ScopeProblem(w, o, a, Leaf(d, chain)))))))
  }

  function FeedProblem(w: World, o: Options, a: Action, links: seq<Link>, now: Option<int>): Option<Code> {
    Or(Require(o.skipRevocation || o.revocations.Some?, Malformed),
       Require(!AnyRevoked(w, o, a, now, links, Objects(FeedOf(o))), Revoked))
  }

  function FinishProblem(w: World, o: Options, a: Action, now: Option<int>): Option<Code> {
    Or(StaleProblem(w, o, a, now), Or(ContentProblem(w, o, a), Require(AnchorOf(o, a).Some?, Malformed)))
  }

  /** Feed entries that revoke nothing: not objects, or citing a link and failing their own check. */
  function Skipped(w: World, o: Options, links: seq<Link>): nat {
    |FeedOf(o)| - |Objects(FeedOf(o))| + SkippedAll(w, o, links, Objects(FeedOf(o)))
  }

  function ActionReport(w: World, o: Options, a: Action, d: Link, chain: seq<Link>, now: Option<int>): Accepted
    requires Parse(a.scopeExercised).Some? && AnchorOf(o, a).Some?
  {
    Accepted(a.id, d, chain, Print(Parse(a.scopeExercised).value), AnchorOf(o, a).value,
      if now.Some? then AtNow(now.value) else AtSigned(a.signedAt, ActionAnchor(o, a).Some?),
      Skipped(w, o, Links(d, chain)))
  }

  lemma AuthorityParses(w: World, o: Options, a: Action, d: Link, chain: seq<Link>, now: Option<int>)
    requires d.Delegation? && IsChain(chain) && AuthorityProblem(w, o, a, d, chain, now).None?
    ensures Parse(a.scopeExercised).Some?
  {
    assert ScopeProblem(w, o, a, Leaf(d, chain)).None?;
  }

  /** All of the checks, in the order they are made. */
  function ActionVerdict(w: World, o: Options, a: Action, d: Link, chain: seq<Link>, now: Option<int>): Result<Accepted>
    requires d.Delegation? && IsChain(chain)
  {
    var authority := AuthorityProblem(w, o, a, d, chain, now);
    var feed := FeedProblem(w, o, a, Links(d, chain), now);
    var finish := FinishProblem(w, o, a, now);
    if authority.Some? then Err(authority.value)
    else if feed.Some? then Err(feed.value)
    else if finish.Some? then Err(finish.value)
    else
      AuthorityParses(w, o, a, d, chain, now);
      Ok(ActionReport(w, o, a, d, chain, now))
  }
}
