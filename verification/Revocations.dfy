/** Revocation evaluation is exact: which feeds refuse an action, and which parts of a
    revocation envelope can matter. */
module Revocations {
  import opened Text
  import opened Canonical
  import opened Messages
  import opened Envelopes
  import opened Verify
  import opened Authority

  // ----- the loops over links and entries as an existence claim -----

  /** The entry revokes some link of the chain as far as this action is concerned. */
  ghost predicate Struck(w: World, o: Options, a: Action, now: Option<int>, links: seq<Link>, e: FeedEntry) {
    e.Entry? && exists i | 0 <= i < |links| :: Effective(w, o, a, now, links[i], e.rev)
  }

  lemma {:induction false} LinkRevokedIff(w: World, o: Options, a: Action, now: Option<int>, link: Link,
                                          revs: seq<Revocation>)
    ensures LinkRevoked(w, o, a, now, link, revs) <==> exists r | r in revs :: Effective(w, o, a, now, link, r)
  {
    if revs != [] {
      LinkRevokedIff(w, o, a, now, link, revs[1..]);
      assert revs == [revs[0]] + revs[1..];
    }
  }

  lemma {:induction false} AnyRevokedIff(w: World, o: Options, a: Action, now: Option<int>, links: seq<Link>,
                                         revs: seq<Revocation>)
    ensures AnyRevoked(w, o, a, now, links, revs)
       <==> exists i | 0 <= i < |links| :: LinkRevoked(w, o, a, now, links[i], revs)
  {
    if links != [] {
      AnyRevokedIff(w, o, a, now, links[1..], revs);
      assert forall i | 1 <= i < |links| :: links[i] == links[1..][i - 1];
    }
  }

  lemma {:induction false} ObjectsAreEntries(feed: seq<FeedEntry>)
    ensures forall r :: r in Objects(feed) <==> Entry(r) in feed
  {
    if feed != [] {
      ObjectsAreEntries(feed[1..]);
      assert feed == [feed[0]] + feed[1..];
    }
  }

  lemma FeedRevokesIff(w: World, o: Options, a: Action, now: Option<int>, links: seq<Link>, feed: seq<FeedEntry>)
    ensures AnyRevoked(w, o, a, now, links, Objects(feed)) <==> exists e | e in feed :: Struck(w, o, a, now, links, e)
  {
    var revs := Objects(feed);
    ObjectsAreEntries(feed);
    AnyRevokedIff(w, o, a, now, links, revs);
    if AnyRevoked(w, o, a, now, links, revs) {
      var i :| 0 <= i < |links| && LinkRevoked(w, o, a, now, links[i], revs);
      LinkRevokedIff(w, o, a, now, links[i], revs);
      var r :| r in revs && Effective(w, o, a, now, links[i], r);
      assert Struck(w, o, a, now, links, Entry(r));
    } else {
      forall e | e in feed ensures !Struck(w, o, a, now, links, e) {
        if e.Entry? {
          forall i | 0 <= i < |links| ensures !Effective(w, o, a, now, links[i], e.rev) {
            LinkRevokedIff(w, o, a, now, links[i], revs);
          }
        }
      }
    }
  }

  // ----- nothing else reads the feed -----

  ghost predicate SameButFeed(o: Options, p: Options) { p == o.(revocations := p.revocations) }

  lemma {:induction false} WalkAgrees(check: (Link, Link) -> Option<Code>, other: (Link, Link) -> Option<Code>,
                                      parent: Link, chain: seq<Link>)
    requires forall s, p :: check(s, p) == other(s, p)
    ensures Walk(check, parent, chain) == Walk(other, parent, chain)
    decreases |chain|
  {
    if chain != [] {
      WalkAgrees(check, other, chain[0], chain[1..]);
    }
  }

  lemma LinkIgnoresFeed(w: World, o: Options, p: Options, s: Link, parent: Link)
    requires SameButFeed(o, p) && s.Subdelegation?
    ensures ChainLinkProblem(w, o, s, parent) == ChainLinkProblem(w, p, s, parent)
  {
  }

  lemma WalkIgnoresFeed(w: World, o: Options, p: Options, d: Link, chain: seq<Link>)
    requires SameButFeed(o, p)
    ensures WalkProblem(w, o, d, chain) == WalkProblem(w, p, d, chain)
  {
    var check, other := LinkCheck(w, o), LinkCheck(w, p);
    forall s: Link, parent: Link ensures check(s, parent) == other(s, parent) {
      if s.Subdelegation? {
        LinkIgnoresFeed(w, o, p, s, parent);
      }
    }
    WalkAgrees(check, other, d, chain);
  }

  lemma BindingIgnoresFeed(w: World, o: Options, p: Options, a: Action, leaf: Link)
    requires SameButFeed(o, p)
    ensures BindingProblem(w, o, a, leaf) == BindingProblem(w, p, a, leaf)
    ensures ScopeProblem(w, o, a, leaf) == ScopeProblem(w, p, a, leaf)
  {
  }

  lemma DelegationIgnoresFeed(w: World, o: Options, p: Options, d: Link)
    requires SameButFeed(o, p) && d.Delegation?
    ensures DelegationProblem(w, o, d) == DelegationProblem(w, p, d)
  {
  }

  lemma SamePartsSameAuthority(w: World, o: Options, p: Options, a: Action, d: Link, chain: seq<Link>, now: Option<int>)
    requires d.Delegation? && IsChain(chain) && o.maxDepth == p.maxDepth
    requires DelegationProblem(w, o, d) == DelegationProblem(w, p, d)
    requires WalkProblem(w, o, d, chain) == WalkProblem(w, p, d, chain)
    requires BindingProblem(w, o, a, Leaf(d, chain)) == BindingProblem(w, p, a, Leaf(d, chain))
    requires ScopeProblem(w, o, a, Leaf(d, chain)) == ScopeProblem(w, p, a, Leaf(d, chain))
    ensures AuthorityProblem(w, o, a, d, chain, now) == AuthorityProblem(w, p, a, d, chain, now)
  {
  }

  lemma AuthorityIgnoresFeed(w: World, o: Options, p: Options, a: Action, d: Link, chain: seq<Link>, now: Option<int>)
    requires SameButFeed(o, p) && d.Delegation? && IsChain(chain)
    ensures AuthorityProblem(w, o, a, d, chain, now) == AuthorityProblem(w, p, a, d, chain, now)
  {
    DelegationIgnoresFeed(w, o, p, d);
    WalkIgnoresFeed(w, o, p, d, chain);
    BindingIgnoresFeed(w, o, p, a, Leaf(d, chain));
    SamePartsSameAuthority(w, o, p, a, d, chain, now);
  }

  lemma FinishIgnoresFeed(w: World, o: Options, p: Options, a: Action, now: Option<int>)
    requires SameButFeed(o, p)
    ensures FinishProblem(w, o, a, now) == FinishProblem(w, p, a, now)
  {
  }

  lemma EffectIgnoresFeed(w: World, o: Options, p: Options, a: Action, now: Option<int>, link: Link, r: Revocation)
    requires SameButFeed(o, p)
    ensures Effective(w, o, a, now, link, r) == Effective(w, p, a, now, link, r)
  {
    assert Authentic(w, o, r, link) == Authentic(w, p, r, link);
    assert Strikes(w, o, a, now, r) == Strikes(w, p, a, now, r);
  }

  function WithFeed(o: Options, feed: seq<FeedEntry>): Options { o.(revocations := Some(feed)) }

  /** Acceptance with a feed is acceptance with the empty feed and no entry that strikes. */
  lemma RevocationIsExact(w: World, o: Options, a: Action, d: Link, chain: seq<Link>, now: Option<int>,
                          feed: seq<FeedEntry>)
    requires d.Delegation? && IsChain(chain)
    ensures IsAccepted(w, WithFeed(o, feed), a, d, chain, now)
       <==> && IsAccepted(w, WithFeed(o, []), a, d, chain, now)
            && !exists e | e in feed :: Struck(w, o, a, now, Links(d, chain), e)
  {
    var p, q, links := WithFeed(o, feed), WithFeed(o, []), Links(d, chain);
    AuthorityIgnoresFeed(w, p, q, a, d, chain, now);
    FinishIgnoresFeed(w, p, q, a, now);
    FeedRevokesIff(w, p, a, now, links, feed);
    FeedRevokesIff(w, q, a, now, links, []);
    forall e ensures Struck(w, o, a, now, links, e) <==> Struck(w, p, a, now, links, e) {
      if e.Entry? {
        forall i | 0 <= i < |links|
          ensures Effective(w, o, a, now, links[i], e.rev) == Effective(w, p, a, now, links[i], e.rev)
        {
          EffectIgnoresFeed(w, o, p, a, now, links[i], e.rev);
        }
      }
    }
  }

  /** Only the striking entries of a feed matter: reordering it, repeating entries, or adding
      entries that strike nothing leaves acceptance as it is. */
  lemma FeedsWithTheSameStrikes(w: World, o: Options, a: Action, d: Link, chain: seq<Link>, now: Option<int>,
                                feed: seq<FeedEntry>, other: seq<FeedEntry>)
    requires d.Delegation? && IsChain(chain)
    requires forall e | Struck(w, o, a, now, Links(d, chain), e) :: e in feed <==> e in other
    ensures IsAccepted(w, WithFeed(o, feed), a, d, chain, now) == IsAccepted(w, WithFeed(o, other), a, d, chain, now)
  {
    RevocationIsExact(w, o, a, d, chain, now, feed);
    RevocationIsExact(w, o, a, d, chain, now, other);
  }

  /** More entries never turn a refusal into an acceptance. */
  lemma MoreEntriesOnlyRefuse(w: World, o: Options, a: Action, d: Link, chain: seq<Link>, now: Option<int>,
                              feed: seq<FeedEntry>, more: seq<FeedEntry>)
    requires d.Delegation? && IsChain(chain) && forall e | e in feed :: e in more
    requires IsAccepted(w, WithFeed(o, more), a, d, chain, now)
    ensures IsAccepted(w, WithFeed(o, feed), a, d, chain, now)
  {
    RevocationIsExact(w, o, a, d, chain, now, feed);
    RevocationIsExact(w, o, a, d, chain, now, more);
  }

  // ----- live and audit -----

  /** An entry that revokes a link of the chain and is in effect at `t`, whatever it is compared with. */
  ghost predicate Standing(w: World, o: Options, links: seq<Link>, e: FeedEntry, t: int) {
    e.Entry? && InEffect(w, o, e.rev, t)
    && exists i | 0 <= i < |links| :: e.rev.delegationId == links[i].id && Authentic(w, o, e.rev, links[i])
  }

  lemma StrikesLive(w: World, o: Options, a: Action, links: seq<Link>, e: FeedEntry, t: int)
    ensures Struck(w, o, a, Some(t), links, e) <==> Struck(w, o, a, None, links, e) || Standing(w, o, links, e, t)
  {
    if e.Entry? {
      forall i | 0 <= i < |links|
        ensures Effective(w, o, a, Some(t), links[i], e.rev)
           <==> Effective(w, o, a, None, links[i], e.rev)
                || (e.rev.delegationId == links[i].id && Authentic(w, o, e.rev, links[i]) && InEffect(w, o, e.rev, t))
      {
      }
    }
  }

  lemma FeedLive(w: World, o: Options, a: Action, links: seq<Link>, t: int)
    ensures FeedProblem(w, o, a, links, Some(t)).None?
       <==> FeedProblem(w, o, a, links, None).None? && !exists e | e in FeedOf(o) :: Standing(w, o, links, e, t)
  {
    FeedRevokesIff(w, o, a, Some(t), links, FeedOf(o));
    FeedRevokesIff(w, o, a, None, links, FeedOf(o));
    forall e
      ensures Struck(w, o, a, Some(t), links, e) <==> Struck(w, o, a, None, links, e) || Standing(w, o, links, e, t)
    {
      StrikesLive(w, o, a, links, e, t);
    }
  }

  lemma RootWindowIsReal(w: World, o: Options, d: Link)
    requires d.Delegation? && DelegationProblem(w, o, d).None?
    ensures WindowWithin(w, d, d)
  {
  }

  lemma ForceIsLeaf(w: World, o: Options, d: Link, chain: seq<Link>, t: int)
    requires d.Delegation? && IsChain(chain) && DelegationProblem(w, o, d).None? && WalkProblem(w, o, d, chain).None?
    ensures ForceProblem(w, Links(d, chain), t).None? <==> InWindow(w, Leaf(d, chain), t)
  {
    RootWindowIsReal(w, o, d);
    WalkedChainHolds(w, o, d, chain);
    LeafIsLast(d, chain);
    LeafForceDecides(w, Links(d, chain), t);
  }

  lemma AuthorityLive(w: World, o: Options, a: Action, d: Link, chain: seq<Link>, t: int)
    requires d.Delegation? && IsChain(chain)
    ensures AuthorityProblem(w, o, a, d, chain, Some(t)).None?
       <==> AuthorityProblem(w, o, a, d, chain, None).None? && InWindow(w, Leaf(d, chain), t)
  {
    if AuthorityProblem(w, o, a, d, chain, None).None? {
      ForceIsLeaf(w, o, d, chain, t);
    }
  }

  lemma AuthorityKnowsTime(w: World, o: Options, a: Action, d: Link, chain: seq<Link>, now: Option<int>)
    requires d.Delegation? && IsChain(chain) && AuthorityProblem(w, o, a, d, chain, now).None?
    ensures w.time(a.signedAt).Some?
  {
    AcceptedBinds(w, o, a, Leaf(d, chain));
  }

  /** The claimed time lies within the verifier's bound of the clock. */
  predicate Recent(w: World, o: Options, a: Action, t: int) {
    w.time(a.signedAt).Some? && -o.maxSkewMs <= t - w.time(a.signedAt).value <= o.maxSkewMs
  }

  lemma FinishLive(w: World, o: Options, a: Action, t: int)
    requires w.time(a.signedAt).Some?
    ensures FinishProblem(w, o, a, Some(t)).None? <==> FinishProblem(w, o, a, None).None? && Recent(w, o, a, t)
  {
  }

  lemma AcceptedParts(w: World, o: Options, a: Action, d: Link, chain: seq<Link>, now: Option<int>)
    requires d.Delegation? && IsChain(chain)
    ensures IsAccepted(w, o, a, d, chain, now)
       <==> && AuthorityProblem(w, o, a, d, chain, now).None?
            && FeedProblem(w, o, a, Links(d, chain), now).None? && FinishProblem(w, o, a, now).None?
  {
  }

  /** An action passes live at `t` exactly when it passes the audit, its leaf is in force at `t`, its
      claimed time is recent, and no genuine revocation of any link is in effect at `t`. */
  lemma LiveIsExact(w: World, o: Options, a: Action, d: Link, chain: seq<Link>, t: int)
    requires d.Delegation? && IsChain(chain)
    ensures IsAccepted(w, o, a, d, chain, Some(t))
       <==> && IsAccepted(w, o, a, d, chain, None)
            && InWindow(w, Leaf(d, chain), t) && Recent(w, o, a, t)
            && !exists e | e in FeedOf(o) :: Standing(w, o, Links(d, chain), e, t)
  {
    AcceptedParts(w, o, a, d, chain, Some(t));
    AcceptedParts(w, o, a, d, chain, None);
    AuthorityLive(w, o, a, d, chain, t);
    FeedLive(w, o, a, Links(d, chain), t);
    if AuthorityProblem(w, o, a, d, chain, None).None? {
      AuthorityKnowsTime(w, o, a, d, chain, None);
      FinishLive(w, o, a, t);
    }
  }

  // ----- the delegation checked on its own -----

  lemma DelegationVerdictParts(w: World, o: Options, d: Link, now: Option<int>)
    requires d.Delegation?
    ensures DelegationVerdict(w, o, d, now).Ok?
       <==> && DelegationProblem(w, o, d).None? && (o.skipRevocation || o.revocations.Some?)
            && !DelegationRevoked(w, o, d, Objects(FeedOf(o)))
            && (now.None? || ClockProblem(w, d, now.value).None?)
  {
  }

  lemma AcceptedRootInForce(w: World, o: Options, a: Action, d: Link, chain: seq<Link>, t: int)
    requires d.Delegation? && IsChain(chain) && IsAccepted(w, o, a, d, chain, Some(t))
    ensures ClockProblem(w, d, t).None?
  {
    assert Links(d, chain)[0] == d;
  }

  /** The two entry points agree on the root of an accepted action, except that the delegation on
      its own is refused for a genuine revocation of ANY date, one that takes effect later included. */
  lemma AcceptedDelegationStands(w: World, o: Options, a: Action, d: Link, chain: seq<Link>, t: int)
    requires d.Delegation? && IsChain(chain) && IsAccepted(w, o, a, d, chain, Some(t))
    ensures DelegationVerdict(w, o, d, Some(t)).Ok? <==> !DelegationRevoked(w, o, d, Objects(FeedOf(o)))
  {
    AcceptedRootInForce(w, o, a, d, chain, t);
    DelegationVerdictParts(w, o, d, Some(t));
  }

  // ----- only signed bytes decide -----

  /** Two revocations with the same signed fields and signature are authentic alike and have one id,
      whatever their version, id, kind, public key, algorithm and anchor say. */
  lemma SignedBytesFixAuthenticity(w: World, o: Options, r: Revocation, s: Revocation, link: Link)
    requires RevocationFields(r) == RevocationFields(s) && r.sig.value == s.sig.value
    ensures RevocationProblem(w, o, r, link) == RevocationProblem(w, o, s, link)
    ensures RevocationId(w, r) == RevocationId(w, s)
  {
    assert r.delegationId == s.delegationId && r.signedAt == s.signedAt;
    assert r.signer.address == s.signer.address;
  }

  // ----- the one unsigned part that is read -----

  /** Live, the revocation is dated at or before the clock. */
  predicate Dated(w: World, r: Revocation, now: Option<int>) {
    now.Some? && w.time(r.signedAt).Some? && w.time(r.signedAt).value <= now.value
  }

  /** A claimed anchor with no proof behind it. */
  const CLAIM := Some(Ots(Confirmed, "", None, None))

  lemma CopyIsAuthentic(w: World, o: Options, link: Link, r: Revocation, ots: Option<Ots>)
    requires r.delegationId == link.id && Authentic(w, o, r, link)
    ensures var c := r.(ots := ots); c.delegationId == link.id && Authentic(w, o, c, link)
  {
    SignedBytesFixAuthenticity(w, o, r, r.(ots := ots), link);
  }

  /** What the anchor on a copy of an authentic revocation does to an action. */
  lemma CopyStrikes(w: World, o: Options, a: Action, now: Option<int>, r: Revocation, ots: Option<Ots>)
    ensures var c := r.(ots := ots);
            var proven, claimed := RevocationAnchor(w, o, c), ots.Some? && ots.value.status == Confirmed;
            var onTime := NotAfter(w, r.signedAt, a.signedAt) || Dated(w, r, now);
            && (ActionAnchor(o, a).None? ==> (Strikes(w, o, a, now, c) <==> onTime || claimed))
            && (ActionAnchor(o, a).Some? && proven.None? ==> (Strikes(w, o, a, now, c) <==> onTime))
            && (ActionAnchor(o, a).Some? && proven.Some? ==>
                  (Strikes(w, o, a, now, c) <==> now.Some? || proven.value <= ActionAnchor(o, a).value))
  {
  }

  /** The copy that flips it: unanchored the revocation does nothing, and with a claimed anchor, no
      proof needed, it refuses the action. */
  lemma ClaimFlips(w: World, o: Options, a: Action, now: Option<int>, link: Link, r: Revocation)
    requires r.delegationId == link.id && Authentic(w, o, r, link) && ActionAnchor(o, a).None?
    requires !NotAfter(w, r.signedAt, a.signedAt) && !Dated(w, r, now)
    ensures !Effective(w, o, a, now, link, r.(ots := None)) && Effective(w, o, a, now, link, r.(ots := CLAIM))
  {
    CopyStrikes(w, o, a, now, r, None);
    CopyIsAuthentic(w, o, link, r, CLAIM);
    CopyStrikes(w, o, a, now, r, CLAIM);
  }

  /** For an action with no proven anchor, the anchor on a copy of an authentic revocation cannot
      change the verdict exactly when the revocation is dated no later than the action or, live, than
      the clock. */
  lemma AnchorMattersUnlessOnTime(w: World, o: Options, a: Action, now: Option<int>, link: Link, r: Revocation)
    requires r.delegationId == link.id && Authentic(w, o, r, link) && ActionAnchor(o, a).None?
    ensures (forall ots :: Effective(w, o, a, now, link, r.(ots := ots)) == Effective(w, o, a, now, link, r))
       <==> NotAfter(w, r.signedAt, a.signedAt) || Dated(w, r, now)
  {
    var onTime := NotAfter(w, r.signedAt, a.signedAt) || Dated(w, r, now);
    assert r == r.(ots := r.ots);
    CopyStrikes(w, o, a, now, r, r.ots);
    if onTime {
      forall ots ensures Effective(w, o, a, now, link, r.(ots := ots)) == Effective(w, o, a, now, link, r) {
        CopyIsAuthentic(w, o, link, r, ots);
        CopyStrikes(w, o, a, now, r, ots);
      }
    } else {
      ClaimFlips(w, o, a, now, link, r);
    }
  }

  // ----- a genuine revocation -----

  /** A revocation the principal or the agent of `link` signed over its signed fields. */
  ghost predicate Genuine(w: World, o: Options, r: Revocation, link: Link) {
    && RevocationShape(r) && r.delegationId == link.id
    && (r.signer.address == link.principal.address || r.signer.address == link.agent.address)
    && (o.skipSignatures || (o.bip322.Some? && o.bip322.value(RevocationId(w, r), r.sig.value, r.signer.address)))
  }

  lemma CanonicalScopesAreText(scopes: seq<string>)
    requires AllParse(scopes)
    ensures forall i | 0 <= i < |scopes| :: scopes[i] != ""
  {
  }

  lemma AcceptedRootShape(w: World, o: Options, d: Link)
    requires d.Delegation? && DelegationProblem(w, o, d).None?
    ensures LinkShape(w, d)
  {
    CanonicalScopesAreText(d.scopes.value);
  }

  lemma AcceptedSubShape(w: World, o: Options, s: Link, parent: Link)
    requires s.Subdelegation? && ChainLinkProblem(w, o, s, parent).None?
    ensures LinkShape(w, s)
  {
    CanonicalScopesAreText(s.scopes.value);
  }

  lemma WalkedShape(w: World, o: Options, d: Link, chain: seq<Link>, i: nat)
    requires IsChain(chain) && WalkProblem(w, o, d, chain).None? && i < |chain|
    ensures LinkShape(w, chain[i])
  {
    WalkedLink(w, o, d, chain, i);
    AcceptedSubShape(w, o, chain[i], Links(d, chain)[i]);
  }

  lemma OneOfTheLinks(p: Link -> bool, d: Link, chain: seq<Link>, i: nat)
    requires i <= |chain| && p(d) && forall j | 0 <= j < |chain| :: p(chain[j])
    ensures p(Links(d, chain)[i])
  {
  }

  lemma WalkedShapes(w: World, o: Options, d: Link, chain: seq<Link>)
    requires IsChain(chain) && WalkProblem(w, o, d, chain).None?
    ensures forall i | 0 <= i < |chain| :: LinkShape(w, chain[i])
  {
    forall i | 0 <= i < |chain| ensures LinkShape(w, chain[i]) {
      WalkedShape(w, o, d, chain, i);
    }
  }

  lemma WalkedLinksShape(w: World, o: Options, d: Link, chain: seq<Link>, i: nat)
    requires d.Delegation? && IsChain(chain) && i <= |chain|
    requires DelegationProblem(w, o, d).None? && WalkProblem(w, o, d, chain).None?
    ensures LinkShape(w, Links(d, chain)[i])
  {
    var shaped := (link: Link) => LinkShape(w, link);
    AcceptedRootShape(w, o, d);
    WalkedShapes(w, o, d, chain);
    OneOfTheLinks(shaped, d, chain, i);
    assert shaped(Links(d, chain)[i]);
  }

  lemma AcceptedLinkShape(w: World, o: Options, a: Action, d: Link, chain: seq<Link>, now: Option<int>, i: nat)
    requires d.Delegation? && IsChain(chain) && IsAccepted(w, o, a, d, chain, now) && i <= |chain|
    ensures LinkShape(w, Links(d, chain)[i])
  {
    WalkedLinksShape(w, o, d, chain, i);
  }

  lemma GenuineIsEffective(w: World, o: Options, a: Action, t: int, link: Link, r: Revocation)
    requires LinkShape(w, link) && Genuine(w, o, r, link)
    requires w.time(r.signedAt).Some? && w.time(r.signedAt).value <= t
    ensures Effective(w, o, a, Some(t), link, r)
  {
    assert InEffect(w, o, r, t);
  }

  lemma GenuineStrikes(w: World, o: Options, a: Action, t: int, links: seq<Link>, i: nat, r: Revocation)
    requires i < |links| && LinkShape(w, links[i]) && Genuine(w, o, r, links[i])
    requires w.time(r.signedAt).Some? && w.time(r.signedAt).value <= t
    ensures Struck(w, o, a, Some(t), links, Entry(r))
  {
    GenuineIsEffective(w, o, a, t, links[i], r);
  }

  lemma AcceptedHasNoStrike(w: World, o: Options, a: Action, d: Link, chain: seq<Link>, now: Option<int>, e: FeedEntry)
    requires d.Delegation? && IsChain(chain) && IsAccepted(w, o, a, d, chain, now) && e in FeedOf(o)
    ensures !Struck(w, o, a, now, Links(d, chain), e)
  {
    FeedRevokesIff(w, o, a, now, Links(d, chain), FeedOf(o));
  }

  /** Live, a genuine revocation of any link dated at or before `t` refuses the action. */
  lemma GenuineRevocationRefuses(w: World, o: Options, a: Action, d: Link, chain: seq<Link>, t: int, i: nat,
                                 r: Revocation)
    requires d.Delegation? && IsChain(chain) && i <= |chain|
    requires Entry(r) in FeedOf(o) && Genuine(w, o, r, Links(d, chain)[i])
    requires w.time(r.signedAt).Some? && w.time(r.signedAt).value <= t
    ensures !IsAccepted(w, o, a, d, chain, Some(t))
  {
    if IsAccepted(w, o, a, d, chain, Some(t)) {
      AcceptedLinkShape(w, o, a, d, chain, Some(t), i);
      GenuineStrikes(w, o, a, t, Links(d, chain), i, r);
      AcceptedHasNoStrike(w, o, a, d, chain, Some(t), Entry(r));
    }
  }
}
