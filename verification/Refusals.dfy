/** Every refusal tells the truth and every reason refuses: the verdicts of the verifier against the
    reasons a reader of the envelopes can check alone, code by code. */
module Refusals {
  import opened Text
  import opened Scope
  import opened Registry
  import opened SubScope
  import opened Canonical
  import opened Envelopes
  import opened Verify
  import opened Authority
  import opened Revocations
  import opened Acceptance

  // ----- forms -----

  ghost predicate Named(actor: Actor) { actor.address != "" && actor.alg == "bip322" }

  ghost predicate SignedBy(sig: Signature, signer: Actor) { sig.alg == signer.alg && sig.pubkey == signer.address }

  ghost predicate RealWindow(w: World, link: Link) {
    && w.time(link.issuedAt).Some? && w.time(link.expiresAt).Some?
    && w.time(link.issuedAt).value < w.time(link.expiresAt).value
  }

  ghost predicate RootForm(w: World, d: Link)
    requires d.Delegation?
  {
    && d.kind == "agent-delegation" && IsHex(d.id, 64) && IsHex(d.nonce, 32)
    && Named(d.principal) && Named(d.agent) && SignedBy(d.sig, d.principal) && d.scopes != Some([])
    && (d.bond.Some? ==> d.bond.value.sats >= 0 && IsHex(d.bond.value.attestationId, 64))
    && IsIsoUtc(d.issuedAt) && IsIsoUtc(d.expiresAt)
    && RealWindow(w, d) && w.time(d.expiresAt).value <= w.time(d.issuedAt).value + YEAR_MS
  }

  ghost predicate SubForm(s: Link)
    requires s.Subdelegation?
  {
    && s.kind == "agent-subdelegation" && IsHex(s.id, 64) && IsHex(s.parentId, 64) && IsHex(s.nonce, 32)
    && Named(s.principal) && Named(s.agent) && SignedBy(s.sig, s.principal) && s.scopes != Some([])
    && !s.carriesBond && IsIsoUtc(s.issuedAt) && IsIsoUtc(s.expiresAt)
  }

  ghost predicate ActionForm(a: Action) {
    && a.kind == "agent-action" && IsHex(a.id, 64) && IsHex(a.delegationId, 64)
    && Named(a.signer) && SignedBy(a.sig, a.signer) && a.scopeExercised != ""
    && "sha256:" <= a.content.hash && a.content.length >= 0 && IsIsoUtc(a.signedAt)
  }

  lemma RootFormIsItsShape(w: World, d: Link)
    requires d.Delegation?
    ensures RootForm(w, d) <==> DelegationShape(w, d)
  {
  }

  lemma SubFormIsItsShape(s: Link)
    requires s.Subdelegation?
    ensures SubForm(s) <==> SubdelegationShape(s)
  {
  }

  lemma ActionFormIsItsShape(a: Action)
    ensures ActionForm(a) <==> ActionShape(a)
  {
  }

  /** A scope does not parse, or breaks its registration. */
  ghost predicate Unfit(scopes: seq<string>, mode: Strictness) {
    exists i | 0 <= i < |scopes| :: Parse(scopes[i]).None? || !Valid(Parse(scopes[i]).value, mode)
  }

  lemma UnfitScopes(scopes: seq<string>, mode: Strictness)
    ensures Unfit(scopes, mode) <==> !(AllParse(scopes) && AllValid(scopes, mode))
  {
  }

  /** The wallet check was wanted and did not say yes. */
  ghost predicate Unsigned(o: Options, id: string, signature: string, address: string) {
    !o.skipSignatures && !WalletSays(o, id, signature, address)
  }

  // ----- the root -----

  ghost predicate RootReason(w: World, o: Options, d: Link, code: Code)
    requires d.Delegation?
  {
    match code
    case UnsupportedVersion => d.v != 1
    case Malformed => !RootForm(w, d)
    case NeitherScopes => d.scopes.None?
    case BadScopeGrammar =>
      d.scopes.Some? && (Unfit(d.scopes.value, o.mode) || CanonicalizeScopes(d.scopes.value) != d.scopes)
    case BadId => d.scopes.Some? && w.sha(DelegationMessage(DelegationFields(d))) != d.id
    case BadSig => Unsigned(o, d.id, d.sig.value, d.principal.address)
    case _ => false
  }

  lemma RootIsExplained(w: World, o: Options, d: Link)
    requires d.Delegation?
    ensures match DelegationProblem(w, o, d)
            case Some(code) => RootReason(w, o, d, code)
            case None => forall code :: !RootReason(w, o, d, code)
  {
    RootFormIsItsShape(w, d);
    SignatureIsChecked(o, d.id, d.sig.value, d.principal.address, BadSig);
    if d.scopes.Some? { UnfitScopes(d.scopes.value, o.mode); }
  }

  // ----- one link -----

  ghost predicate Outside(w: World, s: Link, parent: Link) {
    && RealWindow(w, s) && w.time(parent.issuedAt).Some? && w.time(parent.expiresAt).Some?
    && (w.time(s.issuedAt).value < w.time(parent.issuedAt).value
        || w.time(parent.expiresAt).value < w.time(s.expiresAt).value)
  }

  ghost predicate NoneGrants(granted: seq<Scope>, s: Scope) {
    forall j | 0 <= j < |granted| :: !IsSubScope(s, granted[j])
  }

  /** Some scope of the child lies under no scope of the parent. */
  ghost predicate Escalates(child: seq<Scope>, parent: seq<Scope>) {
    exists i | 0 <= i < |child| :: NoneGrants(parent, child[i])
  }

  lemma EscalatesUnlessNarrower(child: seq<Scope>, parent: seq<Scope>)
    ensures Escalates(child, parent) <==> !Narrows(child, parent)
  {
    assert forall i | 0 <= i < |child| :: NoneGrants(parent, child[i]) <==> !SomeGrants(parent, child[i]);
  }

  ghost predicate LinkReason(w: World, o: Options, s: Link, parent: Link, code: Code)
    requires s.Subdelegation?
  {
    match code
    case UnsupportedVersion => s.v != 1
    case Malformed =>
      !SubForm(s) || !RealWindow(w, s) || w.time(parent.issuedAt).None? || w.time(parent.expiresAt).None?
    case NeitherScopes => s.scopes.None? || parent.scopes.None?
    case BadScopeGrammar =>
      || (s.scopes.Some? && Unfit(s.scopes.value, o.mode))
      || (parent.scopes.Some? && !AllParse(parent.scopes.value))
    case BadId => Readable(s) && w.sha(SubdelegationMessage(SubdelegationFields(s))) != s.id
    case BadSig => Unsigned(o, s.id, s.sig.value, s.principal.address)
    case PrincipalMismatch => s.parentId != parent.id || s.principal.address != parent.agent.address
    case ExpiresExtended => Outside(w, s, parent)
    case ScopeEscalated => Readable(s) && Readable(parent) && Escalates(ScopesOf(s), ScopesOf(parent))
    case _ => false
  }

  lemma WindowIsExplained(w: World, o: Options, s: Link, parent: Link)
    requires s.Subdelegation?
    ensures match WindowProblem(w, s, parent)
            case Some(code) => LinkReason(w, o, s, parent, code)
            case None => RealWindow(w, s) && !LinkReason(w, o, s, parent, ExpiresExtended)
                         && w.time(parent.issuedAt).Some? && w.time(parent.expiresAt).Some?
  {
  }

  lemma ContainmentIsExplained(s: Link, parent: Link)
    ensures ContainmentProblem(s, parent)
         == if s.scopes.None? || parent.scopes.None? then Some(NeitherScopes)
            else if !Readable(s) || !Readable(parent) then Some(BadScopeGrammar)
            else if Escalates(ScopesOf(s), ScopesOf(parent)) then Some(ScopeEscalated) else None
  {
    if Readable(s) && Readable(parent) { EscalatesUnlessNarrower(ScopesOf(s), ScopesOf(parent)); }
  }

  lemma UnreadableIsUnfit(s: Link, mode: Strictness)
    requires s.scopes.Some? && !Readable(s)
    ensures Unfit(s.scopes.value, mode)
  {
    UnfitScopes(s.scopes.value, mode);
  }

  lemma {:induction false} FirstIsThere(ps: seq<Option<Code>>)
    ensures First(ps).Some? ==> exists i | 0 <= i < |ps| :: ps[i] == First(ps)
  {
    if ps != [] && ps[0].None? {
      FirstIsThere(ps[1..]);
      if First(ps).Some? {
        var i :| 0 <= i < |ps[1..]| && ps[1..][i] == First(ps);
        assert ps[i + 1] == First(ps);
      }
    }
  }

  /** What is settled before the signature and the parent are looked at. */
  ghost predicate OwnFine(w: World, o: Options, s: Link)
    requires s.Subdelegation?
  {
    && s.v == 1 && SubForm(s) && s.scopes.Some? && !Unfit(s.scopes.value, o.mode) && AllParse(s.scopes.value)
    && w.sha(SubdelegationMessage(SubdelegationFields(s))) == s.id
  }

  lemma OwnIsExplained(w: World, o: Options, s: Link, parent: Link)
    requires s.Subdelegation?
    ensures if OwnFine(w, o, s) then ChainLinkProblem(w, o, s, parent) == First(ParentChecks(w, o, s, parent))
            else ChainLinkProblem(w, o, s, parent).Some?
                 && LinkReason(w, o, s, parent, ChainLinkProblem(w, o, s, parent).value)
  {
    SubFormIsItsShape(s);
    if s.scopes.Some? { UnfitScopes(s.scopes.value, o.mode); }
  }

  ghost predicate ParentFine(w: World, o: Options, s: Link, parent: Link)
    requires s.Subdelegation?
  {
    && !Unsigned(o, s.id, s.sig.value, s.principal.address)
    && s.parentId == parent.id && s.principal.address == parent.agent.address
    && RealWindow(w, s) && w.time(parent.issuedAt).Some? && w.time(parent.expiresAt).Some? && !Outside(w, s, parent)
    && Readable(parent) && Readable(s) && !Escalates(ScopesOf(s), ScopesOf(parent))
  }

  lemma ParentIsExplained(w: World, o: Options, s: Link, parent: Link)
    requires s.Subdelegation?
    ensures match First(ParentChecks(w, o, s, parent))
            case Some(code) => LinkReason(w, o, s, parent, code)
            case None => ParentFine(w, o, s, parent)
  {
    var ps := ParentChecks(w, o, s, parent);
    SignatureIsChecked(o, s.id, s.sig.value, s.principal.address, BadSig);
    WindowIsExplained(w, o, s, parent);
    ContainmentIsExplained(s, parent);
    if s.scopes.Some? && !Readable(s) { UnreadableIsUnfit(s, o.mode); }
    FirstIsThere(ps);
    assert First(ps).None? ==> ps[0].None? && ps[1].None? && ps[2].None? && ps[3].None?;
  }

  lemma FineHasNoReason(w: World, o: Options, s: Link, parent: Link, code: Code)
    requires s.Subdelegation? && OwnFine(w, o, s) && ParentFine(w, o, s, parent)
    ensures !LinkReason(w, o, s, parent, code)
  {
  }

  lemma LinkIsExplained(w: World, o: Options, s: Link, parent: Link)
    requires s.Subdelegation?
    ensures match ChainLinkProblem(w, o, s, parent)
            case Some(code) => LinkReason(w, o, s, parent, code)
            case None => forall code :: !LinkReason(w, o, s, parent, code)
  {
    OwnIsExplained(w, o, s, parent);
    ParentIsExplained(w, o, s, parent);
    if OwnFine(w, o, s) && ParentFine(w, o, s, parent) {
      forall code ensures !LinkReason(w, o, s, parent, code) {
        FineHasNoReason(w, o, s, parent, code);
      }
    }
  }

  // ----- the chain -----

  lemma {:induction false} WalkFailsSomewhere(check: (Link, Link) -> Option<Code>, parent: Link, chain: seq<Link>)
    returns (i: nat)
    requires Walk(check, parent, chain).Some?
    ensures i < |chain| && check(chain[i], if i == 0 then parent else chain[i - 1]) == Walk(check, parent, chain)
    decreases |chain|
  {
    if check(chain[0], parent).Some? {
      i := 0;
    } else {
      var j := WalkFailsSomewhere(check, chain[0], chain[1..]);
      i := j + 1;
    }
  }

  ghost predicate ChainReason(w: World, o: Options, d: Link, chain: seq<Link>, code: Code)
    requires IsChain(chain)
  {
    exists i | 0 <= i < |chain| :: LinkReason(w, o, chain[i], Links(d, chain)[i], code)
  }

  lemma RefusedHasReason(w: World, o: Options, d: Link, chain: seq<Link>)
    requires IsChain(chain) && WalkProblem(w, o, d, chain).Some?
    ensures ChainReason(w, o, d, chain, WalkProblem(w, o, d, chain).value)
  {
    var i := WalkFailsSomewhere(LinkCheck(w, o), d, chain);
    LinkIsExplained(w, o, chain[i], Links(d, chain)[i]);
  }

  lemma WalkedHasNoReason(w: World, o: Options, d: Link, chain: seq<Link>, i: nat, code: Code)
    requires IsChain(chain) && WalkProblem(w, o, d, chain).None? && i < |chain|
    ensures !LinkReason(w, o, chain[i], Links(d, chain)[i], code)
  {
    WalkedLink(w, o, d, chain, i);
    LinkIsExplained(w, o, chain[i], Links(d, chain)[i]);
  }

  lemma ChainIsExplained(w: World, o: Options, d: Link, chain: seq<Link>)
    requires IsChain(chain)
    ensures match WalkProblem(w, o, d, chain)
            case Some(code) => ChainReason(w, o, d, chain, code)
            case None => forall code :: !ChainReason(w, o, d, chain, code)
  {
    if WalkProblem(w, o, d, chain).Some? {
      RefusedHasReason(w, o, d, chain);
    } else {
      forall code, i | 0 <= i < |chain| ensures !LinkReason(w, o, chain[i], Links(d, chain)[i], code) {
        WalkedHasNoReason(w, o, d, chain, i, code);
      }
    }
  }

  // ----- the action against its leaf -----

  ghost predicate Timed(w: World, a: Action, leaf: Link) {
    w.time(leaf.issuedAt).Some? && w.time(leaf.expiresAt).Some? && w.time(a.signedAt).Some?
  }

  ghost predicate BindingReason(w: World, o: Options, a: Action, leaf: Link, code: Code) {
    match code
    case UnsupportedVersion => a.v != 1
    case Malformed => !ActionForm(a) || !Timed(w, a, leaf)
    case BadId => w.sha(ActionMessage(ActionFields(a))) != a.id
    case BadSig => !o.skipSignatures && o.bip322.None?
    case BadActionStamp => o.bip322.Some? && Unsigned(o, a.id, a.sig.value, a.signer.address)
    case DelegationMismatch => a.delegationId != leaf.id
    case AgentMismatch => a.signer.address != leaf.agent.address
    case OutOfWindow => Timed(w, a, leaf) && !InWindow(w, leaf, w.time(a.signedAt).value)
    case _ => false
  }

  lemma BindingCheckSays(w: World, o: Options, a: Action, leaf: Link, k: nat)
    requires k < |BindingChecks(w, o, a, leaf)| && BindingChecks(w, o, a, leaf)[k].Some?
    ensures BindingReason(w, o, a, leaf, BindingChecks(w, o, a, leaf)[k].value)
  {
    if k == 1 {
      ActionFormIsItsShape(a);
    } else if k == 3 {
      SignatureIsChecked(o, a.id, a.sig.value, a.signer.address, BadActionStamp);
    } else if k == 6 {
      assert SignedProblem(w, a, leaf).Some?;
    }
  }

  lemma BoundHasNoReason(w: World, o: Options, a: Action, leaf: Link, code: Code)
    requires BindingProblem(w, o, a, leaf).None?
    ensures !BindingReason(w, o, a, leaf, code)
  {
    var ps := BindingChecks(w, o, a, leaf);
    assert ps[0].None? && ps[1].None? && ps[2].None? && ps[3].None? && ps[4].None? && ps[5].None? && ps[6].None?;
    ActionFormIsItsShape(a);
    SignatureIsChecked(o, a.id, a.sig.value, a.signer.address, BadActionStamp);
  }

  lemma BindingIsExplained(w: World, o: Options, a: Action, leaf: Link)
    ensures match BindingProblem(w, o, a, leaf)
            case Some(code) => BindingReason(w, o, a, leaf, code)
            case None => forall code :: !BindingReason(w, o, a, leaf, code)
  {
    var ps := BindingChecks(w, o, a, leaf);
    FirstIsThere(ps);
    if First(ps).Some? {
      var k :| 0 <= k < |ps| && ps[k] == First(ps);
      BindingCheckSays(w, o, a, leaf, k);
    } else {
      forall code ensures !BindingReason(w, o, a, leaf, code) {
        BoundHasNoReason(w, o, a, leaf, code);
      }
    }
  }

  // ----- the clock -----

  ghost predicate Early(w: World, link: Link, t: int) {
    w.time(link.issuedAt).Some? && t < w.time(link.issuedAt).value
  }

  ghost predicate Late(w: World, link: Link, t: int) {
    w.time(link.expiresAt).Some? && w.time(link.expiresAt).value <= t
  }

  ghost predicate ClockReason(w: World, links: seq<Link>, now: Option<int>, code: Code) {
    && now.Some?
    && match code
       case NotYetValid => exists i | 0 <= i < |links| :: Early(w, links[i], now.value)
       case Expired => exists i | 0 <= i < |links| :: Late(w, links[i], now.value)
       case _ => false
  }

  lemma {:induction false} ForceIsExplained(w: World, links: seq<Link>, t: int)
    ensures match ForceProblem(w, links, t)
            case Some(code) => ClockReason(w, links, Some(t), code)
            case None => forall code :: !ClockReason(w, links, Some(t), code)
  {
    if links != [] {
      ForceIsExplained(w, links[1..], t);
      assert forall i | 1 <= i < |links| :: links[i] == links[1..][i - 1];
      assert forall i | 0 <= i < |links[1..]| :: links[1..][i] == links[i + 1];
    }
  }

  // ----- the scope claimed -----

  ghost predicate NoneGrantsBoth(granted: seq<Scope>, claim: Scope, fromContent: Scope) {
    forall j | 0 <= j < |granted| :: IsSubScope(claim, granted[j]) ==> !IsSubScope(fromContent, granted[j])
  }

  ghost predicate ClaimReason(w: World, o: Options, a: Action, leaf: Link, code: Code) {
    var claim := Parse(a.scopeExercised);
    match code
    case NeitherScopes => leaf.scopes.None?
    case BadScopeGrammar =>
      leaf.scopes.Some? && (claim.None? || !Valid(claim.value, o.mode) || !AllParse(leaf.scopes.value))
    case ScopeDenied =>
      claim.Some? && Readable(leaf)
      && NoneGrantsBoth(ScopesOf(leaf), claim.value, ContentBound(claim.value, a.content, w.lower))
    case _ => false
  }

  lemma GrantsUnlessNone(granted: seq<Scope>, claim: Scope, fromContent: Scope)
    ensures First([Require(SomeGrants(granted, claim), ScopeDenied),
                   Require(GrantsWithContent(granted, claim, fromContent), ScopeDenied)])
         == if NoneGrantsBoth(granted, claim, fromContent) then Some(ScopeDenied) else None
  {
    if GrantsWithContent(granted, claim, fromContent) {
      var i :| 0 <= i < |granted| && IsSubScope(claim, granted[i]) && IsSubScope(fromContent, granted[i]);
      assert SomeGrants(granted, claim);
    }
  }

  lemma ClaimIsExplained(w: World, o: Options, a: Action, leaf: Link)
    ensures match ScopeProblem(w, o, a, leaf)
            case Some(code) => ClaimReason(w, o, a, leaf, code)
            case None => forall code :: !ClaimReason(w, o, a, leaf, code)
  {
    var claim := Parse(a.scopeExercised);
    if leaf.scopes.Some? && claim.Some? && AllParse(leaf.scopes.value) {
      GrantsUnlessNone(ParseEach(leaf.scopes.value), claim.value, ContentBound(claim.value, a.content, w.lower));
    }
  }

  // ----- the feed -----

  ghost predicate ActionProven(o: Options, a: Action, h: int) { Confirms(o, a.ots, a.id, OfAction(a), h) }

  ghost predicate RevocationProven(w: World, o: Options, r: Revocation, h: int) {
    Confirms(o, r.ots, w.sha(RevocationMessage(RevocationFields(r))), OfRevocation(r), h)
  }

  ghost predicate Dated(w: World, time: string, t: int) { w.time(time).Some? && w.time(time).value <= t }

  /** The revocation counts against the action: two proven heights are compared; against an action with
      no proven height a claimed anchor is enough; else the signed times are compared. Live, one in
      effect by `now` counts too. */
  ghost predicate Due(w: World, o: Options, a: Action, now: Option<int>, r: Revocation) {
    || (exists h, k :: RevocationProven(w, o, r, h) && ActionProven(o, a, k) && h <= k)
    || ((forall k :: !ActionProven(o, a, k)) && r.ots.Some? && r.ots.value.status == Confirmed)
    || (!(exists h, k :: RevocationProven(w, o, r, h) && ActionProven(o, a, k))
        && w.time(a.signedAt).Some? && Dated(w, r.signedAt, w.time(a.signedAt).value))
    || (now.Some? && ((exists h :: RevocationProven(w, o, r, h)) || Dated(w, r.signedAt, now.value)))
  }

  lemma StrikesIsDue(w: World, o: Options, a: Action, now: Option<int>, r: Revocation)
    ensures Strikes(w, o, a, now, r) <==> Due(w, o, a, now, r)
  {
    forall h ensures ActionProven(o, a, h) <==> ActionAnchor(o, a) == Some(h)
             ensures RevocationProven(w, o, r, h) <==> RevocationAnchor(w, o, r) == Some(h) {
      AnchorIsConfirmed(w, o, a, r, h);
    }
    if ActionAnchor(o, a).Some? { assert ActionProven(o, a, ActionAnchor(o, a).value); }
    if RevocationAnchor(w, o, r).Some? { assert RevocationProven(w, o, r, RevocationAnchor(w, o, r).value); }
  }

  /** Some published entry is a genuine revocation of one of the links and counts against the action. */
  ghost predicate Recalled(w: World, o: Options, a: Action, links: seq<Link>, now: Option<int>) {
    exists e, i | e in FeedOf(o) && 0 <= i < |links| ::
      e.Entry? && Genuine(w, o, e.rev, links[i]) && Due(w, o, a, now, e.rev)
  }

  ghost predicate FeedReason(w: World, o: Options, a: Action, links: seq<Link>, now: Option<int>, code: Code) {
    match code
    case Malformed => !o.skipRevocation && o.revocations.None?
    case Revoked => Recalled(w, o, a, links, now)
    case _ => false
  }

  lemma EffectiveIsDue(w: World, o: Options, a: Action, now: Option<int>, link: Link, r: Revocation)
    ensures Effective(w, o, a, now, link, r) <==> LinkShape(w, link) && Genuine(w, o, r, link) && Due(w, o, a, now, r)
  {
    AuthenticIsGenuine(w, o, r, link);
    StrikesIsDue(w, o, a, now, r);
  }

  lemma FeedIsExplained(w: World, o: Options, a: Action, links: seq<Link>, now: Option<int>)
    requires forall i | 0 <= i < |links| :: LinkShape(w, links[i])
    ensures match FeedProblem(w, o, a, links, now)
            case Some(code) => FeedReason(w, o, a, links, now, code)
            case None => forall code :: !FeedReason(w, o, a, links, now, code)
  {
    FeedRevokesIff(w, o, a, now, links, FeedOf(o));
    forall e | e in FeedOf(o) && e.Entry?
      ensures Struck(w, o, a, now, links, e)
         <==> exists i | 0 <= i < |links| :: Genuine(w, o, e.rev, links[i]) && Due(w, o, a, now, e.rev) {
      forall i | 0 <= i < |links|
        ensures Effective(w, o, a, now, links[i], e.rev)
           <==> Genuine(w, o, e.rev, links[i]) && Due(w, o, a, now, e.rev) {
        EffectiveIsDue(w, o, a, now, links[i], e.rev);
      }
    }
  }

  // ----- what is left -----

  ghost predicate FinishReason(w: World, o: Options, a: Action, now: Option<int>, code: Code) {
    match code
    case Stale =>
      now.Some? && w.time(a.signedAt).Some?
      && (w.time(a.signedAt).value + o.maxSkewMs < now.value || now.value + o.maxSkewMs < w.time(a.signedAt).value)
    case BadActionStamp => o.content.Some? && "sha256:" + w.digest(o.content.value) != a.content.hash
    case Malformed =>
      a.ots.Some? && a.ots.value.status == Confirmed && (a.ots.value.blockHeight.None? || a.ots.value.blockHash.None?)
    case _ => false
  }

  lemma FinishIsExplained(w: World, o: Options, a: Action, now: Option<int>)
    ensures match FinishProblem(w, o, a, now)
            case Some(code) => FinishReason(w, o, a, now, code)
            case None => forall code :: !FinishReason(w, o, a, now, code)
  {
  }

  // ----- the verdicts -----

  ghost predicate ChainOrRootReason(w: World, o: Options, d: Link, chain: seq<Link>, code: Code)
    requires d.Delegation? && IsChain(chain)
  {
    || (code == DepthExceeded && o.maxDepth < |chain|)
    || RootReason(w, o, d, code)
    || ChainReason(w, o, d, chain, code)
  }

  ghost predicate LeafReason(w: World, o: Options, a: Action, links: seq<Link>, leaf: Link, now: Option<int>,
                             code: Code) {
    || BindingReason(w, o, a, leaf, code)
    || ClockReason(w, links, now, code)
    || ClaimReason(w, o, a, leaf, code)
  }

  function ChainOrRootProblem(w: World, o: Options, d: Link, chain: seq<Link>): Option<Code>
    requires d.Delegation? && IsChain(chain)
  {
    Or(Require(|chain| <= o.maxDepth, DepthExceeded), Or(DelegationProblem(w, o, d), WalkProblem(w, o, d, chain)))
  }

  function LeafProblem(w: World, o: Options, a: Action, links: seq<Link>, leaf: Link, now: Option<int>): Option<Code> {
    Or(BindingProblem(w, o, a, leaf),
    Or(if now.Some? then ForceProblem(w, links, now.value) else None, ScopeProblem(w, o, a, leaf)))
  }

  lemma ChainOrRootIsExplained(w: World, o: Options, d: Link, chain: seq<Link>)
    requires d.Delegation? && IsChain(chain)
    ensures match ChainOrRootProblem(w, o, d, chain)
            case Some(code) => ChainOrRootReason(w, o, d, chain, code)
            case None => forall code :: !ChainOrRootReason(w, o, d, chain, code)
  {
    RootIsExplained(w, o, d);
    ChainIsExplained(w, o, d, chain);
  }

  lemma LeafIsExplained(w: World, o: Options, a: Action, links: seq<Link>, leaf: Link, now: Option<int>)
    ensures match LeafProblem(w, o, a, links, leaf, now)
            case Some(code) => LeafReason(w, o, a, links, leaf, now, code)
            case None => forall code :: !LeafReason(w, o, a, links, leaf, now, code)
  {
    BindingIsExplained(w, o, a, leaf);
    if now.Some? { ForceIsExplained(w, links, now.value); }
    ClaimIsExplained(w, o, a, leaf);
  }

  ghost predicate AuthorityReason(w: World, o: Options, a: Action, d: Link, chain: seq<Link>, now: Option<int>,
                                  code: Code)
    requires d.Delegation? && IsChain(chain)
  {
    ChainOrRootReason(w, o, d, chain, code) || LeafReason(w, o, a, Links(d, chain), Leaf(d, chain), now, code)
  }

  lemma AuthorityIsExplained(w: World, o: Options, a: Action, d: Link, chain: seq<Link>, now: Option<int>)
    requires d.Delegation? && IsChain(chain)
    ensures match AuthorityProblem(w, o, a, d, chain, now)
            case Some(code) => AuthorityReason(w, o, a, d, chain, now, code)
            case None => forall code :: !AuthorityReason(w, o, a, d, chain, now, code)
  {
    ChainOrRootIsExplained(w, o, d, chain);
    LeafIsExplained(w, o, a, Links(d, chain), Leaf(d, chain), now);
    assert AuthorityProblem(w, o, a, d, chain, now)
        == Or(ChainOrRootProblem(w, o, d, chain), LeafProblem(w, o, a, Links(d, chain), Leaf(d, chain), now));
  }

  /** What can be held against an action: reasons read off the envelopes, the options and the clock. */
  ghost predicate Reason(w: World, o: Options, a: Action, d: Link, chain: seq<Link>, now: Option<int>, code: Code)
    requires d.Delegation? && IsChain(chain)
  {
    || AuthorityReason(w, o, a, d, chain, now, code)
    || FeedReason(w, o, a, Links(d, chain), now, code)
    || FinishReason(w, o, a, now, code)
  }

  lemma CheckedLinksShape(w: World, o: Options, a: Action, d: Link, chain: seq<Link>, now: Option<int>)
    requires d.Delegation? && IsChain(chain) && AuthorityProblem(w, o, a, d, chain, now).None?
    ensures forall i | 0 <= i < |Links(d, chain)| :: LinkShape(w, Links(d, chain)[i])
  {
    forall i | 0 <= i < |Links(d, chain)| ensures LinkShape(w, Links(d, chain)[i]) {
      WalkedLinksShape(w, o, d, chain, i);
    }
  }

  lemma VerdictParts(w: World, o: Options, a: Action, d: Link, chain: seq<Link>, now: Option<int>)
    requires d.Delegation? && IsChain(chain)
    ensures var refused := Or(AuthorityProblem(w, o, a, d, chain, now),
                           Or(FeedProblem(w, o, a, Links(d, chain), now), FinishProblem(w, o, a, now)));
            match ActionVerdict(w, o, a, d, chain, now)
            case Err(code) => refused == Some(code)
            case Ok(_) => refused.None?
  {
  }

  /** An action is accepted exactly when nothing can be held against it; and a refusal's code is a
      reason that really stands. */
  lemma VerdictIsExplained(w: World, o: Options, a: Action, d: Link, chain: seq<Link>, now: Option<int>)
    requires d.Delegation? && IsChain(chain)
    ensures match ActionVerdict(w, o, a, d, chain, now)
            case Err(code) => Reason(w, o, a, d, chain, now, code)
            case Ok(_) => forall code :: !Reason(w, o, a, d, chain, now, code)
  {
    VerdictParts(w, o, a, d, chain, now);
    AuthorityIsExplained(w, o, a, d, chain, now);
    FinishIsExplained(w, o, a, now);
    if AuthorityProblem(w, o, a, d, chain, now).None? {
      CheckedLinksShape(w, o, a, d, chain, now);
      FeedIsExplained(w, o, a, Links(d, chain), now);
    }
  }

  ghost predicate RecallReason(w: World, o: Options, d: Link, now: Option<int>, code: Code) {
    || ClockReason(w, [d], now, code)
    || (code == Malformed && !o.skipRevocation && o.revocations.None?)
    || (code == Revoked && exists e | e in FeedOf(o) :: e.Entry? && Genuine(w, o, e.rev, d))
  }

  lemma ClockIsForce(w: World, d: Link, t: int)
    ensures ClockProblem(w, d, t) == ForceProblem(w, [d], t)
  {
    assert ForceProblem(w, [], t).None?;
  }

  lemma RevokedIsGenuine(w: World, o: Options, d: Link)
    requires LinkShape(w, d)
    ensures DelegationRevoked(w, o, d, Objects(FeedOf(o)))
       <==> exists e | e in FeedOf(o) :: e.Entry? && Genuine(w, o, e.rev, d)
  {
    var revs := Objects(FeedOf(o));
    ObjectsAreEntries(FeedOf(o));
    forall r: Revocation ensures Authentic(w, o, r, d) <==> Genuine(w, o, r, d) {
      AuthenticIsGenuine(w, o, r, d);
    }
    if e :| e in FeedOf(o) && e.Entry? && Genuine(w, o, e.rev, d) {
      assert e.rev in revs;
    }
    if DelegationRevoked(w, o, d, revs) {
      var j :| 0 <= j < |revs| && Authentic(w, o, revs[j], d);
      assert Entry(revs[j]) in FeedOf(o);
    }
  }

  lemma RecallIsExplained(w: World, o: Options, d: Link, now: Option<int>)
    requires LinkShape(w, d)
    ensures match DelegationTimeProblem(w, o, d, now)
            case Some(code) => RecallReason(w, o, d, now, code)
            case None => forall code :: !RecallReason(w, o, d, now, code)
  {
    RevokedIsGenuine(w, o, d);
    if now.Some? {
      ClockIsForce(w, d, now.value);
      ForceIsExplained(w, [d], now.value);
    }
  }

  /** The same for a delegation on its own. */
  lemma DelegationVerdictIsExplained(w: World, o: Options, d: Link, now: Option<int>)
    requires d.Delegation?
    ensures match DelegationVerdict(w, o, d, now)
            case Err(code) => RootReason(w, o, d, code) || RecallReason(w, o, d, now, code)
            case Ok(_) => forall code :: !RootReason(w, o, d, code) && !RecallReason(w, o, d, now, code)
  {
    RootIsExplained(w, o, d);
    if DelegationProblem(w, o, d).None? {
      AcceptedRootShape(w, o, d);
      RecallIsExplained(w, o, d, now);
    }
  }

  // ----- entries that revoke nothing -----

  /** The links an entry cites without being a genuine revocation of them. */
  ghost function CitedInVain(w: World, o: Options, links: seq<Link>, r: Revocation): set<nat> {
    set i: nat | i < |links| && links[i].id == r.delegationId && !Genuine(w, o, r, links[i])
  }

  ghost function InVain(w: World, o: Options, link: Link, r: Revocation): nat {
    if link.id == r.delegationId && !Genuine(w, o, r, link) then 1 else 0
  }

  lemma OneLinkSkips(w: World, o: Options, link: Link, revs: seq<Revocation>, r: Revocation)
    requires LinkShape(w, link)
    ensures SkippedFor(w, o, link, revs + [r]) == SkippedFor(w, o, link, revs) + InVain(w, o, link, r)
  {
    AuthenticIsGenuine(w, o, r, link);
    assert (revs + [r])[..|revs|] == revs;
  }

  lemma CitedStep(w: World, o: Options, links: seq<Link>, r: Revocation)
    requires links != []
    ensures var last := |links| - 1;
            |CitedInVain(w, o, links, r)| == |CitedInVain(w, o, links[..last], r)| + InVain(w, o, links[last], r)
  {
    var last := |links| - 1;
    var front := CitedInVain(w, o, links[..last], r);
    assert CitedInVain(w, o, links, r) == front + if InVain(w, o, links[last], r) == 1 then {last} else {};
  }

  lemma {:induction false} AppendedSkips(w: World, o: Options, links: seq<Link>, revs: seq<Revocation>, r: Revocation)
    requires forall i | 0 <= i < |links| :: LinkShape(w, links[i])
    ensures SkippedAll(w, o, links, revs + [r]) == SkippedAll(w, o, links, revs) + |CitedInVain(w, o, links, r)|
  {
    if links == [] {
      assert CitedInVain(w, o, links, r) == {};
    } else {
      AppendedSkips(w, o, links[..|links| - 1], revs, r);
      OneLinkSkips(w, o, links[|links| - 1], revs, r);
      CitedStep(w, o, links, r);
    }
  }

  lemma {:induction false} ObjectsAppend(feed: seq<FeedEntry>, e: FeedEntry)
    ensures Objects(feed + [e]) == Objects(feed) + if e.Entry? then [e.rev] else []
  {
    if feed == [] {
      assert [e][1..] == [];
    } else {
      ObjectsAppend(feed[1..], e);
      assert (feed + [e])[1..] == feed[1..] + [e];
    }
  }

  lemma {:induction false} LinkSkipsIgnoreFeed(w: World, o: Options, feed: seq<FeedEntry>, link: Link,
                                               revs: seq<Revocation>)
    ensures SkippedFor(w, WithFeed(o, feed), link, revs) == SkippedFor(w, o, link, revs)
  {
    if revs != [] {
      LinkSkipsIgnoreFeed(w, o, feed, link, revs[..|revs| - 1]);
      assert Authentic(w, WithFeed(o, feed), revs[|revs| - 1], link) == Authentic(w, o, revs[|revs| - 1], link);
    }
  }

  lemma {:induction false} SkippedIgnoresFeed(w: World, o: Options, feed: seq<FeedEntry>, links: seq<Link>,
                                              revs: seq<Revocation>)
    ensures SkippedAll(w, WithFeed(o, feed), links, revs) == SkippedAll(w, o, links, revs)
  {
    if links != [] {
      SkippedIgnoresFeed(w, o, feed, links[..|links| - 1], revs);
      LinkSkipsIgnoreFeed(w, o, feed, links[|links| - 1], revs);
    }
  }

  lemma {:induction false} NoSkips(w: World, o: Options, links: seq<Link>)
    ensures SkippedAll(w, o, links, []) == 0
  {
    if links != [] {
      NoSkips(w, o, links[..|links| - 1]);
    }
  }

  /** What publishing `e` after `feed` adds to the number of entries skipped. */
  ghost function Adds(w: World, o: Options, links: seq<Link>, e: FeedEntry): nat {
    if e.NotAnObject? then 1 else |CitedInVain(w, o, links, e.rev)|
  }

  lemma PublishingAdds(w: World, o: Options, links: seq<Link>, feed: seq<FeedEntry>, e: FeedEntry)
    requires forall i | 0 <= i < |links| :: LinkShape(w, links[i])
    ensures Skipped(w, WithFeed(o, feed + [e]), links) == Skipped(w, WithFeed(o, feed), links) + Adds(w, o, links, e)
    ensures Skipped(w, WithFeed(o, []), links) == 0
  {
    SkippedIgnoresFeed(w, o, feed, links, Objects(feed));
    SkippedIgnoresFeed(w, o, feed + [e], links, Objects(feed + [e]));
    SkippedIgnoresFeed(w, o, [], links, []);
    ObjectsAppend(feed, e);
    NoSkips(w, o, links);
    if e.Entry? {
      AppendedSkips(w, o, links, Objects(feed), e.rev);
    } else {
      assert Objects(feed) + [] == Objects(feed);
    }
  }

  /** The number reported of entries that revoke nothing: none of an empty feed; and an entry published
      after `feed` adds one if it is no object, else one for each link it cites in vain. */
  lemma SkippedIsCounted(w: World, o: Options, a: Action, d: Link, chain: seq<Link>, now: Option<int>,
                         feed: seq<FeedEntry>, e: FeedEntry)
    requires d.Delegation? && IsChain(chain) && IsAccepted(w, WithFeed(o, feed), a, d, chain, now)
    requires IsAccepted(w, WithFeed(o, feed + [e]), a, d, chain, now)
    ensures var before := ActionVerdict(w, WithFeed(o, feed), a, d, chain, now).value.revocationsSkipped;
            var after := ActionVerdict(w, WithFeed(o, feed + [e]), a, d, chain, now).value.revocationsSkipped;
            (feed == [] ==> before == 0) && after == before + Adds(w, o, Links(d, chain), e)
  {
    var _ := AcceptedReport(w, WithFeed(o, feed), a, d, chain, now);
    var _ := AcceptedReport(w, WithFeed(o, feed + [e]), a, d, chain, now);
    AcceptedParts(w, WithFeed(o, feed), a, d, chain, now);
    CheckedLinksShape(w, WithFeed(o, feed), a, d, chain, now);
    PublishingAdds(w, o, Links(d, chain), feed, e);
  }

  lemma SkippedOfOne(w: World, o: Options, d: Link, revs: seq<Revocation>)
    ensures SkippedAll(w, o, [d], revs) == SkippedFor(w, o, d, revs)
  {
    assert [d][..0] == [] && SkippedAll(w, o, [], revs) == 0;
  }

  lemma OneLinkSkipped(w: World, o: Options, d: Link)
    ensures DelegationSkipped(w, o, d) == Skipped(w, o, [d])
  {
    SkippedOfOne(w, o, d, Objects(FeedOf(o)));
  }

  /** The same for a delegation on its own. */
  lemma DelegationSkippedIsCounted(w: World, o: Options, d: Link, now: Option<int>, feed: seq<FeedEntry>, e: FeedEntry)
    requires d.Delegation? && DelegationVerdict(w, WithFeed(o, feed), d, now).Ok?
    requires DelegationVerdict(w, WithFeed(o, feed + [e]), d, now).Ok?
    ensures var before := DelegationVerdict(w, WithFeed(o, feed), d, now).value;
            var after := DelegationVerdict(w, WithFeed(o, feed + [e]), d, now).value;
            (feed == [] ==> before == 0) && after == before + Adds(w, o, [d], e)
  {
    DelegationVerdictParts(w, WithFeed(o, feed), d, now);
    AcceptedRootShape(w, WithFeed(o, feed), d);
    OneLinkSkipped(w, WithFeed(o, feed), d);
    OneLinkSkipped(w, WithFeed(o, feed + [e]), d);
    PublishingAdds(w, o, [d], feed, e);
  }
}
