/** What acceptance says in plain terms: which wallet checks were made, what form the envelopes have,
    what the reported anchor rests on, and which dates and heights revoke. */
module Acceptance {
  import opened Text
  import opened Scope
  import opened Registry
  import opened SubScope
  import opened Canonical
  import opened Messages
  import opened Envelopes
  import opened Verify
  import opened Authority
  import opened Revocations

  // ----- signatures -----

  /** The caller's BIP-322 check was supplied and says yes to these three. */
  ghost predicate WalletSays(o: Options, id: string, signature: string, address: string) {
    o.bip322.Some? && o.bip322.value(id, signature, address)
  }

  lemma SignatureIsChecked(o: Options, id: string, signature: string, address: string, code: Code)
    ensures SignatureProblem(o, id, signature, address, code)
         == if o.skipSignatures || WalletSays(o, id, signature, address) then None
            else if o.bip322.None? then Some(BadSig) else Some(code)
  {
  }

  /** The wallet's answer is the last thing asked about a delegation, and a no refuses it. */
  lemma DelegationSignatureDecides(w: World, o: Options, d: Link)
    requires d.Delegation?
    ensures DelegationProblem(w, o, d)
         == Or(DelegationProblem(w, o.(skipSignatures := true), d),
               Require(o.skipSignatures || WalletSays(o, d.id, d.sig.value, d.principal.address), BadSig))
  {
    SignatureIsChecked(o, d.id, d.sig.value, d.principal.address, BadSig);
  }

  lemma LinkIsSigned(w: World, o: Options, s: Link, parent: Link)
    requires s.Subdelegation? && ChainLinkProblem(w, o, s, parent).None? && !o.skipSignatures
    ensures WalletSays(o, s.id, s.sig.value, s.principal.address)
  {
    var ps := ParentChecks(w, o, s, parent);
    assert First(ps).None? && ps[0].None?;
    SignatureIsChecked(o, s.id, s.sig.value, s.principal.address, BadSig);
  }

  lemma BoundIsSigned(w: World, o: Options, a: Action, leaf: Link)
    requires BindingProblem(w, o, a, leaf).None? && !o.skipSignatures
    ensures WalletSays(o, a.id, a.sig.value, a.signer.address)
  {
    var ps := BindingChecks(w, o, a, leaf);
    assert First(ps).None? && ps[3].None?;
    SignatureIsChecked(o, a.id, a.sig.value, a.signer.address, BadActionStamp);
  }

  lemma RootIsSigned(w: World, o: Options, d: Link)
    requires d.Delegation? && DelegationProblem(w, o, d).None? && !o.skipSignatures
    ensures WalletSays(o, d.id, d.sig.value, d.principal.address)
  {
    DelegationSignatureDecides(w, o, d);
  }

  lemma WalkedAreSigned(w: World, o: Options, d: Link, chain: seq<Link>)
    requires IsChain(chain) && WalkProblem(w, o, d, chain).None? && !o.skipSignatures
    ensures forall i | 0 <= i < |chain| :: WalletSays(o, chain[i].id, chain[i].sig.value, chain[i].principal.address)
  {
    forall i | 0 <= i < |chain| ensures WalletSays(o, chain[i].id, chain[i].sig.value, chain[i].principal.address) {
      WalkedLink(w, o, d, chain, i);
      LinkIsSigned(w, o, chain[i], Links(d, chain)[i]);
    }
  }

  /** Unless told to skip signatures, the caller's BIP-322 check said yes to an accepted delegation's
      id, signature and principal. */
  lemma AcceptedDelegationIsSigned(w: World, o: Options, d: Link, now: Option<int>)
    returns (bip322: (string, string, string) -> bool)
    requires d.Delegation? && DelegationVerdict(w, o, d, now).Ok? && !o.skipSignatures
    ensures o.bip322 == Some(bip322) && bip322(d.id, d.sig.value, d.principal.address)
  {
    DelegationVerdictParts(w, o, d, now);
    RootIsSigned(w, o, d);
    bip322 := o.bip322.value;
  }

  /** And for an accepted action to its own id, signature and signer, and to those of the root and of
      every link. */
  lemma AcceptedIsSigned(w: World, o: Options, a: Action, d: Link, chain: seq<Link>, now: Option<int>)
    returns (bip322: (string, string, string) -> bool)
    requires d.Delegation? && IsChain(chain) && IsAccepted(w, o, a, d, chain, now) && !o.skipSignatures
    ensures o.bip322 == Some(bip322)
    ensures bip322(d.id, d.sig.value, d.principal.address)
    ensures forall i | 0 <= i < |chain| :: bip322(chain[i].id, chain[i].sig.value, chain[i].principal.address)
    ensures bip322(a.id, a.sig.value, a.signer.address)
  {
    RootIsSigned(w, o, d);
    WalkedAreSigned(w, o, d, chain);
    BoundIsSigned(w, o, a, Leaf(d, chain));
    bip322 := o.bip322.value;
    forall i | 0 <= i < |chain| ensures bip322(chain[i].id, chain[i].sig.value, chain[i].principal.address) {
      assert WalletSays(o, chain[i].id, chain[i].sig.value, chain[i].principal.address);
    }
  }

  /** A revocation is authentic for a well-formed link exactly when it is genuine: it has the form of
      one, cites the link, and the principal or the agent signed the hash of its signed fields. */
  lemma AuthenticIsGenuine(w: World, o: Options, r: Revocation, link: Link)
    ensures Authentic(w, o, r, link) <==> LinkShape(w, link) && Genuine(w, o, r, link)
  {
    SignatureIsChecked(o, RevocationId(w, r), r.sig.value, r.signer.address, BadSig);
  }

  lemma {:induction false} FirstIsAt(ps: seq<Option<Code>>, k: nat)
    requires k < |ps| && ps[k].Some? && forall i | 0 <= i < k :: ps[i].None?
    ensures First(ps) == ps[k]
  {
    if k > 0 {
      FirstIsAt(ps[1..], k - 1);
    }
  }

  /** What an authentic revocation's own form is. */
  lemma AuthenticForm(w: World, o: Options, r: Revocation, link: Link)
    requires Authentic(w, o, r, link)
    ensures IsHex(r.delegationId, 64) && r.signer.address != "" && IsIsoUtc(r.signedAt) && r.delegationId == link.id
    ensures link.Delegation? ==> DelegationShape(w, link)
    ensures link.Subdelegation? ==> SubdelegationShape(link)
  {
  }

  /** Which code a signature that does not verify is refused with. */
  lemma ForgedActionCode(w: World, o: Options, a: Action, leaf: Link)
    requires a.v == 1 && ActionShape(a) && w.sha(ActionMessage(ActionFields(a))) == a.id && !o.skipSignatures
    requires !WalletSays(o, a.id, a.sig.value, a.signer.address)
    ensures BindingProblem(w, o, a, leaf) == Some(if o.bip322.None? then BadSig else BadActionStamp)
  {
    var ps := BindingChecks(w, o, a, leaf);
    FirstIsAt(ps, 3);
  }

  // ----- the text that is hashed and signed -----

  /** Line by line, what the id of each kind of envelope is the hash of. */
  lemma DelegationText(d: Link)
    requires d.Delegation? && d.scopes.Some?
    ensures DelegationMessage(DelegationFields(d)) == Join([
      "oc-agent:delegation:v1",
      "principal: " + d.principal.address,
      "agent: " + d.agent.address,
      "scopes: " + Join(d.scopes.value, ','),
      "bond_sats: " + IntegerText(if d.bond == None then 0 else d.bond.value.sats),
      "bond_attestation: " + if d.bond == None then "none" else d.bond.value.attestationId,
      "issued_at: " + d.issuedAt,
      "expires_at: " + d.expiresAt,
      "nonce: " + d.nonce], '\n')
  {
    var i := DelegationFields(d);
    assert ["oc-agent:delegation:v1", "principal: " + i.principal, "agent: " + i.agent] + DelegationTail(i) == [
      "oc-agent:delegation:v1", "principal: " + i.principal, "agent: " + i.agent, "scopes: " + Join(i.scopes, ','),
      "bond_sats: " + IntegerText(i.bondSats), "bond_attestation: " + i.bondAttestation,
      "issued_at: " + i.issuedAt, "expires_at: " + i.expiresAt, "nonce: " + i.nonce];
  }

  lemma SubdelegationText(s: Link, scopes: seq<string>)
    requires s.Subdelegation? && s.scopes.Some? && CanonicalizeScopes(s.scopes.value) == Some(scopes)
    ensures SubdelegationMessage(SubdelegationFields(s)) == Join([
      "oc-agent:subdelegation:v1",
      "parent_id: " + s.parentId,
      "principal: " + s.principal.address,
      "agent: " + s.agent.address,
      "scopes: " + Join(scopes, ','),
      "issued_at: " + s.issuedAt,
      "expires_at: " + s.expiresAt,
      "nonce: " + s.nonce], '\n')
  {
  }

  lemma ActionText(a: Action)
    ensures ActionMessage(ActionFields(a)) == Join([
      "oc-agent:action:v1",
      "address: " + a.signer.address,
      "content_hash: " + a.content.hash,
      "content_length: " + IntegerText(a.content.length),
      "content_mime: " + a.content.mime,
      "signed_at: " + a.signedAt,
      "delegation_id: " + a.delegationId,
      "scope_exercised: " + a.scopeExercised], '\n')
  {
    assert ["oc-agent:action:v1", "address: " + a.signer.address, "content_hash: " + a.content.hash,
            "content_length: " + IntegerText(a.content.length), "content_mime: " + a.content.mime]
           + ["signed_at: " + a.signedAt, "delegation_id: " + a.delegationId, "scope_exercised: " + a.scopeExercised]
        == ["oc-agent:action:v1", "address: " + a.signer.address, "content_hash: " + a.content.hash,
            "content_length: " + IntegerText(a.content.length), "content_mime: " + a.content.mime,
            "signed_at: " + a.signedAt, "delegation_id: " + a.delegationId, "scope_exercised: " + a.scopeExercised];
  }

  lemma RevocationText(r: Revocation)
    ensures RevocationMessage(RevocationFields(r)) == Join([
      "oc-agent:revocation:v1",
      "address: " + r.signer.address,
      "delegation_id: " + r.delegationId,
      "reason: " + r.reason,
      "signed_at: " + r.signedAt], '\n')
  {
  }

  // ----- forms -----

  const YEAR_MS := 31_536_000_000

  /** What the principal and the agent of an accepted delegation can rely on. */
  lemma AcceptedDelegationForm(w: World, o: Options, d: Link)
    requires d.Delegation? && DelegationProblem(w, o, d).None?
    ensures d.v == 1 && d.kind == "agent-delegation" && d.sig.pubkey == d.principal.address
    ensures d.principal.address != "" && d.agent.address != "" && d.principal.alg == d.agent.alg == "bip322"
    ensures w.sha(DelegationMessage(DelegationFields(d))) == d.id
    ensures w.time(d.issuedAt).Some? && w.time(d.expiresAt).Some?
    ensures 0 < w.time(d.expiresAt).value - w.time(d.issuedAt).value <= YEAR_MS
    ensures d.scopes.Some? && d.scopes.value != [] && CanonicalizeScopes(d.scopes.value) == d.scopes
    ensures forall i | 0 <= i < |d.scopes.value| ::
              Parse(d.scopes.value[i]).Some? && Valid(Parse(d.scopes.value[i]).value, o.mode)
    ensures d.bond.Some? ==> 0 <= d.bond.value.sats && IsHex(d.bond.value.attestationId, 64)
  {
  }

  lemma AcceptedLinkForm(w: World, o: Options, s: Link, parent: Link)
    requires s.Subdelegation? && ChainLinkProblem(w, o, s, parent).None?
    ensures s.v == 1 && s.kind == "agent-subdelegation" && s.sig.pubkey == s.principal.address && !s.carriesBond
    ensures s.principal.address != "" && s.agent.address != "" && s.principal.alg == s.agent.alg == "bip322"
    ensures s.scopes.Some? && s.scopes.value != [] && AllParse(s.scopes.value)
    ensures w.sha(SubdelegationMessage(SubdelegationFields(s))) == s.id
    ensures forall i | 0 <= i < |s.scopes.value| :: Valid(Parse(s.scopes.value[i]).value, o.mode)
  {
  }

  lemma BoundForm(w: World, o: Options, a: Action, leaf: Link)
    requires BindingProblem(w, o, a, leaf).None?
    ensures a.v == 1 && a.kind == "agent-action" && a.sig.pubkey == a.signer.address
    ensures a.signer.address != "" && a.signer.alg == "bip322"
    ensures w.sha(ActionMessage(ActionFields(a))) == a.id && "sha256:" <= a.content.hash && 0 <= a.content.length
  {
    AcceptedBinds(w, o, a, leaf);
    var ps := BindingChecks(w, o, a, leaf);
    assert First(ps).None? && ps[0].None?;
  }

  lemma FinishForm(w: World, o: Options, a: Action, now: Option<int>)
    requires FinishProblem(w, o, a, now).None?
    ensures o.content.Some? ==> "sha256:" + w.digest(o.content.value) == a.content.hash
  {
  }

  lemma FeedForm(w: World, o: Options, a: Action, links: seq<Link>, now: Option<int>)
    requires FeedProblem(w, o, a, links, now).None?
    ensures o.skipRevocation || o.revocations.Some?
  {
  }

  /** An accepted action's own form; content the caller gives hashes to what was signed; and no feed
      means the caller said so. */
  lemma AcceptedActionForm(w: World, o: Options, a: Action, d: Link, chain: seq<Link>, now: Option<int>)
    requires d.Delegation? && IsChain(chain) && IsAccepted(w, o, a, d, chain, now)
    ensures a.v == 1 && a.kind == "agent-action" && a.sig.pubkey == a.signer.address
    ensures a.signer.address != "" && a.signer.alg == "bip322"
    ensures w.sha(ActionMessage(ActionFields(a))) == a.id && "sha256:" <= a.content.hash && 0 <= a.content.length
    ensures o.content.Some? ==> "sha256:" + w.digest(o.content.value) == a.content.hash
    ensures o.skipRevocation || o.revocations.Some?
  {
    AcceptedParts(w, o, a, d, chain, now);
    BoundForm(w, o, a, Leaf(d, chain));
    FinishForm(w, o, a, now);
    FeedForm(w, o, a, Links(d, chain), now);
  }

  // ----- anchors -----

  /** The caller's verifier was supplied and confirms the proof for this id at this height. */
  ghost predicate Confirms(o: Options, ots: Option<Ots>, id: string, envelope: Anchored, h: int) {
    && ots.Some? && ots.value.status == Confirmed && o.verifyAnchor.Some?
    && (if o.resolveHeight.Some? then o.resolveHeight.value(envelope) else ots.value.blockHeight) == Some(h)
    && ots.value.blockHash.Some? && ots.value.blockHash.value != ""
    && o.verifyAnchor.value(ots.value.proof, h, ots.value.blockHash.value, id)
  }

  /** An anchor counts at a height exactly when the caller's verifier confirms it for the id of the
      signed fields. */
  lemma AnchorIsConfirmed(w: World, o: Options, a: Action, r: Revocation, h: int)
    ensures ActionAnchor(o, a) == Some(h) <==> Confirms(o, a.ots, a.id, OfAction(a), h)
    ensures RevocationAnchor(w, o, r) == Some(h)
       <==> Confirms(o, r.ots, w.sha(RevocationMessage(RevocationFields(r))), OfRevocation(r), h)
  {
  }

  /** What the caller is told of an action's anchor. */
  ghost predicate AnchorSays(o: Options, a: Action, anchor: Anchor) {
    match anchor
    case NoAnchor => a.ots.None?
    case PendingAnchor => a.ots.Some? && a.ots.value.status == Pending
    case Claimed(height, hash) =>
      && a.ots.Some? && a.ots.value.status == Confirmed
      && a.ots.value.blockHeight == Some(height) && a.ots.value.blockHash == Some(hash)
      && forall h :: !Confirms(o, a.ots, a.id, OfAction(a), h)
    case Proven(height, hash) =>
      && a.ots.Some? && a.ots.value.status == Confirmed
      && a.ots.value.blockHeight == Some(height) && a.ots.value.blockHash == Some(hash)
      && exists h :: Confirms(o, a.ots, a.id, OfAction(a), h)
  }

  ghost predicate AsOfSays(o: Options, a: Action, now: Option<int>, asOf: AsOf) {
    match asOf
    case AtNow(t) => now == Some(t)
    case AtSigned(signedAt, anchored) =>
      && now.None? && signedAt == a.signedAt
      && (anchored <==> exists h :: Confirms(o, a.ots, a.id, OfAction(a), h))
  }

  lemma AnchorOfIsConfirmed(o: Options, a: Action)
    ensures ActionAnchor(o, a).Some? <==> exists h :: Confirms(o, a.ots, a.id, OfAction(a), h)
  {
    if ActionAnchor(o, a).Some? {
      assert Confirms(o, a.ots, a.id, OfAction(a), ActionAnchor(o, a).value);
    }
  }

  lemma AnchorOfSays(o: Options, a: Action)
    requires AnchorOf(o, a).Some?
    ensures AnchorSays(o, a, AnchorOf(o, a).value)
  {
    AnchorOfIsConfirmed(o, a);
  }

  lemma ReportSays(w: World, o: Options, a: Action, d: Link, chain: seq<Link>, now: Option<int>)
    requires Parse(a.scopeExercised).Some? && AnchorOf(o, a).Some?
    ensures var r := ActionReport(w, o, a, d, chain, now);
            && r.id == a.id && r.root == d && r.chain == chain
            && r.scopeExercised == Print(Parse(a.scopeExercised).value)
            && AnchorSays(o, a, r.anchor) && AsOfSays(o, a, now, r.asOf)
  {
    AnchorOfSays(o, a);
    AnchorOfIsConfirmed(o, a);
  }

  lemma FinishKnowsAnchor(w: World, o: Options, a: Action, now: Option<int>)
    requires FinishProblem(w, o, a, now).None?
    ensures AnchorOf(o, a).Some?
  {
  }

  lemma AcceptedReport(w: World, o: Options, a: Action, d: Link, chain: seq<Link>, now: Option<int>)
    returns (r: Accepted)
    requires d.Delegation? && IsChain(chain) && IsAccepted(w, o, a, d, chain, now)
    ensures Parse(a.scopeExercised).Some? && AnchorOf(o, a).Some? && r == ActionReport(w, o, a, d, chain, now)
    ensures r == ActionVerdict(w, o, a, d, chain, now).value
  {
    AcceptedParts(w, o, a, d, chain, now);
    AuthorityParses(w, o, a, d, chain, now);
    FinishKnowsAnchor(w, o, a, now);
    r := ActionReport(w, o, a, d, chain, now);
  }

  /** The report of an accepted action: who, under what, the canonical scope, as of when, and an anchor
      called proven exactly when the caller's verifier confirmed it for this id. */
  lemma ReportIsTrue(w: World, o: Options, a: Action, d: Link, chain: seq<Link>, now: Option<int>) returns (r: Accepted)
    requires d.Delegation? && IsChain(chain) && IsAccepted(w, o, a, d, chain, now)
    ensures r == ActionVerdict(w, o, a, d, chain, now).value
    ensures r.id == a.id && r.root == d && r.chain == chain
    ensures Parse(a.scopeExercised).Some? && r.scopeExercised == Print(Parse(a.scopeExercised).value)
    ensures AnchorSays(o, a, r.anchor) && AsOfSays(o, a, now, r.asOf)
  {
    r := AcceptedReport(w, o, a, d, chain, now);
    ReportSays(w, o, a, d, chain, now);
  }

  // ----- dates and heights -----

  lemma StrikingGenuineStrikes(w: World, o: Options, a: Action, links: seq<Link>, now: Option<int>, i: nat,
                               r: Revocation)
    requires i < |links| && LinkShape(w, links[i]) && Genuine(w, o, r, links[i]) && Strikes(w, o, a, now, r)
    ensures Struck(w, o, a, now, links, Entry(r))
  {
    AuthenticIsGenuine(w, o, r, links[i]);
    assert Effective(w, o, a, now, links[i], r);
  }

  lemma StrikingGenuineRefuses(w: World, o: Options, a: Action, d: Link, chain: seq<Link>, now: Option<int>, i: nat,
                               r: Revocation)
    requires d.Delegation? && IsChain(chain) && i <= |chain|
    requires Entry(r) in FeedOf(o) && Genuine(w, o, r, Links(d, chain)[i]) && Strikes(w, o, a, now, r)
    ensures !IsAccepted(w, o, a, d, chain, now)
  {
    if IsAccepted(w, o, a, d, chain, now) {
      AcceptedLinkShape(w, o, a, d, chain, now, i);
      StrikingGenuineStrikes(w, o, a, Links(d, chain), now, i, r);
      AcceptedHasNoStrike(w, o, a, d, chain, now, Entry(r));
    }
  }

  lemma SparingIsEmpty(w: World, o: Options, a: Action, d: Link, chain: seq<Link>, now: Option<int>, r: Revocation)
    requires d.Delegation? && IsChain(chain) && !Strikes(w, o, a, now, r)
    ensures IsAccepted(w, WithFeed(o, [Entry(r)]), a, d, chain, now) == IsAccepted(w, WithFeed(o, []), a, d, chain, now)
  {
    RevocationIsExact(w, o, a, d, chain, now, [Entry(r)]);
  }

  /** The signed times decide between this revocation and this action: they do not both have proven
      anchors, and the revocation claims none against an action that has none. */
  ghost predicate ByDate(w: World, o: Options, a: Action, r: Revocation) {
    && !(ActionAnchor(o, a).Some? && RevocationAnchor(w, o, r).Some?)
    && (ActionAnchor(o, a).None? ==> r.ots.None? || r.ots.value.status != Confirmed)
    && w.time(a.signedAt).Some? && w.time(r.signedAt).Some?
  }

  lemma DatesDecide(w: World, o: Options, a: Action, r: Revocation)
    requires ByDate(w, o, a, r)
    ensures Strikes(w, o, a, None, r) <==> w.time(r.signedAt).value <= w.time(a.signedAt).value
  {
  }

  lemma HeightsDecide(w: World, o: Options, a: Action, r: Revocation)
    requires ActionAnchor(o, a).Some? && RevocationAnchor(w, o, r).Some?
    ensures Strikes(w, o, a, None, r) <==> RevocationAnchor(w, o, r).value <= ActionAnchor(o, a).value
  {
  }

  lemma StrikesIgnoresFeed(w: World, o: Options, a: Action, now: Option<int>, r: Revocation)
    ensures Strikes(w, o, a, now, r) == Strikes(w, WithFeed(o, [Entry(r)]), a, now, r)
  {
  }

  lemma OneGenuineEntry(w: World, o: Options, a: Action, d: Link, chain: seq<Link>, now: Option<int>, i: nat,
                        r: Revocation)
    requires d.Delegation? && IsChain(chain) && i <= |chain| && Genuine(w, o, r, Links(d, chain)[i])
    ensures IsAccepted(w, WithFeed(o, [Entry(r)]), a, d, chain, now)
       <==> IsAccepted(w, WithFeed(o, []), a, d, chain, now) && !Strikes(w, o, a, now, r)
  {
    if Strikes(w, o, a, now, r) {
      StrikesIgnoresFeed(w, o, a, now, r);
      StrikingGenuineRefuses(w, WithFeed(o, [Entry(r)]), a, d, chain, now, i, r);
    } else {
      SparingIsEmpty(w, o, a, d, chain, now, r);
    }
  }

  /** In the audit, where the dates decide: a genuine revocation of any link refuses the action when it
      is dated no later than the action, and otherwise leaves its acceptance as it was. */
  lemma AuditDates(w: World, o: Options, a: Action, d: Link, chain: seq<Link>, i: nat, r: Revocation)
    requires d.Delegation? && IsChain(chain) && i <= |chain| && Genuine(w, o, r, Links(d, chain)[i])
    requires ByDate(w, o, a, r)
    ensures IsAccepted(w, WithFeed(o, [Entry(r)]), a, d, chain, None)
       <==> && IsAccepted(w, WithFeed(o, []), a, d, chain, None)
            && w.time(a.signedAt).value < w.time(r.signedAt).value
  {
    DatesDecide(w, o, a, r);
    OneGenuineEntry(w, o, a, d, chain, None, i, r);
  }

  /** And where both anchors are proven, by height: the same block refuses. */
  lemma AuditHeights(w: World, o: Options, a: Action, d: Link, chain: seq<Link>, i: nat, r: Revocation)
    requires d.Delegation? && IsChain(chain) && i <= |chain| && Genuine(w, o, r, Links(d, chain)[i])
    requires ActionAnchor(o, a).Some? && RevocationAnchor(w, o, r).Some?
    ensures IsAccepted(w, WithFeed(o, [Entry(r)]), a, d, chain, None)
       <==> && IsAccepted(w, WithFeed(o, []), a, d, chain, None)
            && ActionAnchor(o, a).value < RevocationAnchor(w, o, r).value
  {
    HeightsDecide(w, o, a, r);
    OneGenuineEntry(w, o, a, d, chain, None, i, r);
  }

  /** Among whatever else the feed holds: a genuine revocation dated no later than the action refuses it
      in the audit. */
  lemma EarlierRevocationRefuses(w: World, o: Options, a: Action, d: Link, chain: seq<Link>, i: nat, r: Revocation)
    requires d.Delegation? && IsChain(chain) && i <= |chain|
    requires Entry(r) in FeedOf(o) && Genuine(w, o, r, Links(d, chain)[i])
    requires w.time(a.signedAt).Some? && w.time(r.signedAt).Some?
    requires !(ActionAnchor(o, a).Some? && RevocationAnchor(w, o, r).Some?)
    requires w.time(r.signedAt).value <= w.time(a.signedAt).value
    ensures !IsAccepted(w, o, a, d, chain, None)
  {
    StrikingGenuineRefuses(w, o, a, d, chain, None, i, r);
  }

  // ----- the content of a stamp -----

  /** `type` is the media type up to its first `;`, trimmed and in lower case. */
  ghost predicate TypeOf(mime: string, lower: string -> string, text: string) {
    exists head, core ::
      && head <= mime && ';' !in head && (|head| < |mime| ==> mime[|head|] == ';')
      && Trimmed(head, core) && text == lower(core)
  }

  /** `hex` is the 64 digits of a `sha256:` hash, in either case. */
  predicate DigitsOf(hash: string, hex: string) {
    hash == "sha256:" + hex && |hex| == 64
    && forall i | 0 <= i < 64 :: IsLowerHex(hex[i]) || 'A' <= hex[i] <= 'F'
  }

  /** What a constraint on a stamp's length, media type or hash asks of the content's own fields. */
  ghost predicate StampObeys(c: Constraint, content: Content, lower: string -> string) {
    c.op == Any || c.key !in {"max_bytes", "mime", "content_hash_prefix"} ||
    (c.value.Some? &&
     var text := c.value.value;
     && (c.key == "max_bytes" ==> IsInteger(text) && Compares(content.length, c.op, IntegerValue(text)))
     && (c.key == "mime" ==> if c.op == Ne then !TypeOf(content.mime, lower, text)
                             else c.op == Eq && TypeOf(content.mime, lower, text))
     && (c.key == "content_hash_prefix" ==>
           c.op == Eq && exists hex :: DigitsOf(content.hash, hex) && text <= lower(hex)))
  }

  lemma StampKeys(s: Scope)
    requires s.product == "stamp" && s.verb == "sign"
    ensures ContentKeys(s) == ["mime", "max_bytes", "content_hash_prefix"]
    ensures IsPrefixKey("stamp", "sign", "content_hash_prefix")
    ensures !IsPrefixKey("stamp", "sign", "max_bytes") && !IsPrefixKey("stamp", "sign", "mime")
  {
    assert "stamp" + ":" + "sign" == "stamp:sign";
  }

  lemma LengthObeys(rule: KeyRule, c: Constraint, content: Content)
    requires rule.numeric && !rule.prefix && Sensible(rule)
    requires c.op != Any && Met(rule, Some(Constraint(c.key, Eq, Some(IntegerText(content.length)), true)), c)
    ensures c.value.Some? && IsInteger(c.value.value) && Compares(content.length, c.op, IntegerValue(c.value.value))
  {
    if Ordered(c) {
      var e := Constraint(c.key, Eq, Some(IntegerText(content.length)), true);
      RangeSubsetIsExact(e, c, content.length, DecimalInteger(c.value.value).value);
      assert Compares(content.length, Eq, content.length);
    }
  }

  lemma TypeIsOne(mime: string, lower: string -> string, text: string)
    ensures TypeOf(mime, lower, text) <==> text == lower(Trim(mime[..FirstOf(mime, ";", 0)]))
  {
    var i := FirstOf(mime, ";", 0);
    TrimIsExact(mime[..i]);
    assert ";" == [';'] && forall k | 0 <= k < i :: mime[k] != ';';
    assert forall k | 0 <= k < |mime[..i]| :: mime[..i][k] == mime[k];
    if TypeOf(mime, lower, text) {
      var head, core :| head <= mime && ';' !in head && (|head| < |mime| ==> mime[|head|] == ';')
                        && Trimmed(head, core) && text == lower(core);
      assert |head| == i by {
        assert forall k | 0 <= k < |head| :: mime[k] == head[k];
      }
      assert head == mime[..i];
    } else {
      assert |mime[..i]| < |mime| ==> mime[|mime[..i]|] == ';';
      assert ';' !in mime[..i] && mime[..i] <= mime;
    }
  }

  lemma MimeObeys(rule: KeyRule, c: Constraint, content: Content, lower: string -> string)
    requires !rule.numeric && !rule.prefix && c.key == "mime" && c.op != Any
    requires Met(rule, Some(Constraint("mime", Eq, Derived("mime", content, lower), true)), c)
    ensures StampObeys(c, content, lower)
  {
    TypeIsOne(content.mime, lower, c.value.value);
  }

  lemma HexOfHash(hash: string, lower: string -> string, text: string)
    requires "sha256:" <= hash && text == HashHex(hash, lower) && AllHex(text)
    ensures exists hex :: DigitsOf(hash, hex) && text == lower(hex)
  {
    var hex := hash[7..];
    assert hash == "sha256:" + hex;
    assert !AllHex(hash) by { assert hash[0] == 's'; }
    assert |hex| == 64 && HexOfEitherCase(hex) ==> DigitsOf(hash, hex);
  }

  lemma HashObeys(c: Constraint, content: Content, lower: string -> string)
    requires c.key == "content_hash_prefix" && c.op != Any && "sha256:" <= content.hash
    requires Met(RuleOf("stamp", "sign", c.key), Some(Constraint(c.key, Eq, Derived(c.key, content, lower), true)), c)
    ensures StampObeys(c, content, lower)
  {
    StampKeys(Scope("stamp", "sign", []));
    assert c.op == Eq && ValueFits(c.key, HashHex(content.hash, lower));
    HexOfHash(content.hash, lower, HashHex(content.hash, lower));
  }

  lemma StampConstraintObeys(claim: Scope, content: Content, lower: string -> string, g: Scope, i: nat)
    requires claim.product == "stamp" && claim.verb == "sign" && "sha256:" <= content.hash
    requires IsSubScope(ContentBound(claim, content, lower), g) && i < |g.constraints|
    ensures StampObeys(g.constraints[i], content, lower)
  {
    var c, e := g.constraints[i], ContentBound(claim, content, lower);
    if c.op != Any && c.key in {"max_bytes", "mime", "content_hash_prefix"} {
      StampKeys(claim);
      ContentIsBound(claim, content, lower, c.key);
      RulesAreSensible("stamp", "sign", c.key);
      assert MetBy(e, c);
      if c.key == "max_bytes" {
        LengthObeys(RuleOf("stamp", "sign", c.key), c, content);
      } else if c.key == "mime" {
        MimeObeys(RuleOf("stamp", "sign", c.key), c, content, lower);
      } else {
        HashObeys(c, content, lower);
      }
    }
  }

  lemma SomeStampGrant(granted: seq<Scope>, claim: Scope, content: Content, lower: string -> string) returns (g: Scope)
    requires claim.product == "stamp" && claim.verb == "sign" && "sha256:" <= content.hash
    requires GrantsWithContent(granted, claim, ContentBound(claim, content, lower))
    ensures g in granted && IsSubScope(claim, g)
    ensures forall i | 0 <= i < |g.constraints| :: StampObeys(g.constraints[i], content, lower)
  {
    var k :| 0 <= k < |granted| && IsSubScope(claim, granted[k])
             && IsSubScope(ContentBound(claim, content, lower), granted[k]);
    g := granted[k];
    forall i | 0 <= i < |g.constraints| ensures StampObeys(g.constraints[i], content, lower) {
      StampConstraintObeys(claim, content, lower, g, i);
    }
  }

  /** Some root scope covers an accepted stamp's claim, and the action's own length, media type and hash
      obey each of that scope's constraints on them: the length as an integer against the bound, the
      type in lower case, the digits of the hash from the prefix on. */
  lemma AcceptedStampObeysRoot(w: World, o: Options, a: Action, d: Link, chain: seq<Link>, now: Option<int>)
    returns (g: Scope)
    requires d.Delegation? && IsChain(chain) && IsAccepted(w, o, a, d, chain, now)
    requires Parse(a.scopeExercised).Some?
    requires var claim := Parse(a.scopeExercised).value; claim.product == "stamp" && claim.verb == "sign"
    ensures Readable(d) && g in ScopesOf(d) && IsSubScope(Parse(a.scopeExercised).value, g)
    ensures forall i | 0 <= i < |g.constraints| :: StampObeys(g.constraints[i], a.content, w.lower)
  {
    AcceptedIsWithinRoot(w, o, a, d, chain, now);
    BoundForm(w, o, a, Leaf(d, chain));
    g := SomeStampGrant(ScopesOf(d), Parse(a.scopeExercised).value, a.content, w.lower);
  }
}
