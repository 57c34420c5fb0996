/** What acceptance of an action guarantees: authority traced to the root, content that obeys it,
    windows that nest, and a live check that refines the audit. */
module Authority {
  import opened Text
  import opened Scope
  import opened Registry
  import opened SubScope
  import opened RoundTrip
  import opened Canonical
  import opened Messages
  import opened Envelopes
  import opened Verify

  // ----- one link under its parent -----

  /** The child's window lies in the parent's. */
  ghost predicate WindowWithin(w: World, child: Link, parent: Link) {
    var ci, ce := w.time(child.issuedAt), w.time(child.expiresAt);
    var pi, pe := w.time(parent.issuedAt), w.time(parent.expiresAt);
    ci.Some? && ce.Some? && pi.Some? && pe.Some? && pi.value <= ci.value && ce.value <= pe.value
  }

  ghost predicate Readable(link: Link) { link.scopes.Some? && AllParse(link.scopes.value) }

  function ScopesOf(link: Link): seq<Scope>
    requires Readable(link)
  {
    ParseEach(link.scopes.value)
  }

  ghost predicate Under(child: Link, parent: Link) {
    Readable(child) && Readable(parent) && Narrows(ScopesOf(child), ScopesOf(parent))
  }

  ghost predicate Linked(w: World, child: Link, parent: Link) {
    && child.Subdelegation? && child.parentId == parent.id
    && child.principal.address == parent.agent.address
    && WindowWithin(w, child, parent)
    && Under(child, parent)
  }

  lemma AcceptedLinkIsLinked(w: World, o: Options, s: Link, parent: Link)
    requires s.Subdelegation? && ChainLinkProblem(w, o, s, parent).None?
    ensures Linked(w, s, parent)
  {
    var ps := ParentChecks(w, o, s, parent);
    assert First(ps).None?;
    assert ps[1].None? && ps[2].None? && ps[3].None?;
  }

  lemma NarrowsTransitive(a: seq<Scope>, b: seq<Scope>, c: seq<Scope>)
    requires Narrows(a, b) && Narrows(b, c)
    ensures Narrows(a, c)
  {
    forall i | 0 <= i < |a| ensures SomeGrants(c, a[i]) {
      assert SomeGrants(b, a[i]);
      var j :| 0 <= j < |b| && IsSubScope(a[i], b[j]);
      assert SomeGrants(c, b[j]);
      var k :| 0 <= k < |c| && IsSubScope(b[j], c[k]);
      SubScopeTransitive(a[i], b[j], c[k]);
    }
  }

  lemma UnderTransitive(link: Link, s: Link, t: Link)
    requires Under(s, link) && Under(t, s)
    ensures Under(t, link)
  {
    NarrowsTransitive(ScopesOf(t), ScopesOf(s), ScopesOf(link));
  }

  // ----- the whole chain -----

  ghost predicate ChainHolds(w: World, links: seq<Link>) {
    && links != [] && links[0].Delegation?
    && forall i | 0 <= i < |links| - 1 :: Linked(w, links[i + 1], links[i])
  }

  lemma {:induction false} WalkStep(check: (Link, Link) -> Option<Code>, parent: Link, chain: seq<Link>, i: nat)
    requires Walk(check, parent, chain).None? && i < |chain|
    ensures check(chain[i], if i == 0 then parent else chain[i - 1]).None?
    decreases |chain|
  {
    if i > 0 {
      WalkStep(check, chain[0], chain[1..], i - 1);
    }
  }

  lemma WalkedLink(w: World, o: Options, d: Link, chain: seq<Link>, i: nat)
    requires IsChain(chain) && WalkProblem(w, o, d, chain).None? && i < |chain|
    ensures ChainLinkProblem(w, o, chain[i], Links(d, chain)[i]).None?
  {
    WalkStep(LinkCheck(w, o), d, chain, i);
  }

  lemma WalkedIsLinked(w: World, o: Options, d: Link, chain: seq<Link>, i: nat)
    requires IsChain(chain) && WalkProblem(w, o, d, chain).None? && i < |chain|
    ensures Linked(w, Links(d, chain)[i + 1], Links(d, chain)[i])
  {
    WalkedLink(w, o, d, chain, i);
    AcceptedLinkIsLinked(w, o, chain[i], Links(d, chain)[i]);
  }

  lemma WalkedChainHolds(w: World, o: Options, d: Link, chain: seq<Link>)
    requires d.Delegation? && IsChain(chain) && WalkProblem(w, o, d, chain).None?
    ensures ChainHolds(w, Links(d, chain))
  {
    forall i | 0 <= i < |chain| ensures Linked(w, Links(d, chain)[i + 1], Links(d, chain)[i]) {
      WalkedIsLinked(w, o, d, chain, i);
    }
  }

  lemma {:induction false} WindowsNest(w: World, links: seq<Link>, i: nat, j: nat)
    requires ChainHolds(w, links) && i < j < |links|
    ensures WindowWithin(w, links[j], links[i])
    decreases j - i
  {
    assert Linked(w, links[i + 1], links[i]);
    if i + 1 < j {
      WindowsNest(w, links, i + 1, j);
    }
  }

  lemma {:induction false} ScopesNarrow(w: World, links: seq<Link>, i: nat, j: nat)
    requires ChainHolds(w, links) && i < j < |links|
    ensures Under(links[j], links[i])
    decreases j - i
  {
    assert Linked(w, links[i + 1], links[i]);
    if i + 1 < j {
      ScopesNarrow(w, links, i + 1, j);
      UnderTransitive(links[i], links[i + 1], links[j]);
    }
  }

  /** Windows nest and scopes narrow from any link to any link below it. */
  lemma ChainNarrows(w: World, links: seq<Link>, i: nat, j: nat)
    requires ChainHolds(w, links) && i < j < |links|
    ensures WindowWithin(w, links[j], links[i]) && Under(links[j], links[i])
  {
    WindowsNest(w, links, i, j);
    ScopesNarrow(w, links, i, j);
  }

  // ----- acceptance -----

  predicate IsAccepted(w: World, o: Options, a: Action, d: Link, chain: seq<Link>, now: Option<int>)
    requires d.Delegation? && IsChain(chain)
  {
    ActionVerdict(w, o, a, d, chain, now).Ok?
  }

  /** What the leaf-side checks of an accepted action give. */
  lemma AcceptedBinds(w: World, o: Options, a: Action, leaf: Link)
    requires BindingProblem(w, o, a, leaf).None?
    ensures a.delegationId == leaf.id && a.signer.address == leaf.agent.address
    ensures ActionShape(a) && ActionId(w, a) == a.id && SignedProblem(w, a, leaf).None?
  {
    var ps := BindingChecks(w, o, a, leaf);
    assert First(ps).None?;
    assert ps[1].None? && ps[2].None? && ps[4].None? && ps[5].None? && ps[6].None?;
  }

  lemma BoundIsAdmitted(w: World, o: Options, a: Action, leaf: Link)
    requires BindingProblem(w, o, a, leaf).None? && Parse(a.scopeExercised).Some?
    ensures AdmittedAction(ActionFields(a)) && ProperAction(ActionFields(a)) && ActionId(w, a) == a.id
  {
    AcceptedBinds(w, o, a, leaf);
    AdmittedActionIsProper(ActionFields(a));
  }

  lemma AcceptedScopes(w: World, o: Options, a: Action, leaf: Link)
    requires ScopeProblem(w, o, a, leaf).None?
    ensures Readable(leaf) && Parse(a.scopeExercised).Some? && Valid(Parse(a.scopeExercised).value, o.mode)
    ensures var claim := Parse(a.scopeExercised).value;
            GrantsWithContent(ScopesOf(leaf), claim, ContentBound(claim, a.content, w.lower))
  {
    var claim := Parse(a.scopeExercised).value;
    var granted := ParseEach(leaf.scopes.value);
    var ps := [
      Require(SomeGrants(granted, claim), ScopeDenied),
      Require(GrantsWithContent(granted, claim, ContentBound(claim, a.content, w.lower)), ScopeDenied)];
    assert First(ps).None?;
    assert ps[1].None?;
  }

  lemma GrantsPassUp(granted: seq<Scope>, above: seq<Scope>, claim: Scope, fromContent: Scope)
    requires GrantsWithContent(granted, claim, fromContent) && Narrows(granted, above)
    ensures GrantsWithContent(above, claim, fromContent)
  {
    var i :| 0 <= i < |granted| && IsSubScope(claim, granted[i]) && IsSubScope(fromContent, granted[i]);
    assert SomeGrants(above, granted[i]);
    var k :| 0 <= k < |above| && IsSubScope(granted[i], above[k]);
    SubScopeTransitive(claim, granted[i], above[k]);
    SubScopeTransitive(fromContent, granted[i], above[k]);
  }

  lemma LeafIsLast(d: Link, chain: seq<Link>)
    ensures Leaf(d, chain) == Links(d, chain)[|chain|]
  {
  }

  /** Whatever the length of the chain, one scope on the ROOT covers both the scope the action
      claims and the scope its content amounts to. */
  lemma AcceptedIsWithinRoot(w: World, o: Options, a: Action, d: Link, chain: seq<Link>, now: Option<int>)
    requires d.Delegation? && IsChain(chain) && IsAccepted(w, o, a, d, chain, now)
    ensures Readable(d) && Parse(a.scopeExercised).Some?
    ensures var claim := Parse(a.scopeExercised).value;
            GrantsWithContent(ScopesOf(d), claim, ContentBound(claim, a.content, w.lower))
  {
    var leaf := Leaf(d, chain);
    AcceptedScopes(w, o, a, leaf);
    if chain != [] {
      WalkedChainHolds(w, o, d, chain);
      LeafIsLast(d, chain);
      ScopesNarrow(w, Links(d, chain), 0, |chain|);
      var claim := Parse(a.scopeExercised).value;
      GrantsPassUp(ScopesOf(leaf), ScopesOf(d), claim, ContentBound(claim, a.content, w.lower));
    }
  }

  // ----- the content itself -----

  lemma {:induction false} LookupAppended(rest: seq<Constraint>, bound: seq<Constraint>, key: string)
    requires exists i | 0 <= i < |bound| :: bound[i].key == key
    ensures Lookup(rest + bound, key).Some? && Lookup(rest + bound, key).value in bound
  {
    var n := |bound| - 1;
    assert (rest + bound)[|rest| + n] == bound[n];
    if bound[n].key != key {
      var i :| 0 <= i < |bound| && bound[i].key == key;
      assert bound[..n][i].key == key;
      assert (rest + bound)[..|rest| + n] == rest + bound[..n];
      LookupAppended(rest, bound[..n], key);
    }
  }

  lemma ContentKeysAreDerived(claim: Scope, key: string, content: Content, lower: string -> string)
    requires key in ContentKeys(claim)
    ensures Derived(key, content, lower).Some?
  {
  }

  /** What the content says of one of the claim's content-bound keys, as a constraint. */
  lemma ContentIsBound(claim: Scope, content: Content, lower: string -> string, key: string)
    requires key in ContentKeys(claim)
    ensures Derived(key, content, lower).Some?
    ensures Lookup(ContentBound(claim, content, lower).constraints, key)
         == Some(Constraint(key, Eq, Derived(key, content, lower), true))
  {
    var keys := ContentKeys(claim);
    var bound := BoundList(keys, content, lower);
    var i :| 0 <= i < |keys| && keys[i] == key;
    assert bound[i].key == key;
    ContentKeysAreDerived(claim, key, content, lower);
    LookupAppended(WithoutKeys(claim.constraints, keys), bound, key);
  }

  /** The content, taken alone, obeys a constraint: its own type, length or hash is admitted. */
  ghost predicate ContentObeys(g: Scope, c: Constraint, content: Content, lower: string -> string) {
    var v := Derived(c.key, content, lower);
    v.Some? && Holds(RuleOf(g.product, g.verb, c.key), c, map[c.key := v.value])
  }

  lemma BoundMeetsIsHeld(rule: KeyRule, key: string, v: string, g: Constraint)
    requires g.key == key && g.op != Any && Met(rule, Some(Constraint(key, Eq, Some(v), true)), g) && Sensible(rule)
    ensures Holds(rule, g, map[key := v])
  {
    var e := Constraint(key, Eq, Some(v), true);
    assert Holds(rule, e, map[key := v]);
    MetIsSound(rule, e, g, map[key := v]);
  }

  lemma ContentIsWithin(claim: Scope, content: Content, lower: string -> string, g: Scope, i: nat)
    requires IsSubScope(ContentBound(claim, content, lower), g) && i < |g.constraints|
    requires g.constraints[i].op != Any && g.constraints[i].key in ContentKeys(claim)
    ensures ContentObeys(g, g.constraints[i], content, lower)
  {
    var c, e := g.constraints[i], ContentBound(claim, content, lower);
    ContentIsBound(claim, content, lower, c.key);
    RulesAreSensible(g.product, g.verb, c.key);
    assert MetBy(e, c);
    BoundMeetsIsHeld(RuleOf(g.product, g.verb, c.key), c.key, Derived(c.key, content, lower).value, c);
  }

  /** The content obeys every constraint of the scope on a key that content decides. */
  ghost predicate ContentWithin(claim: Scope, content: Content, lower: string -> string, g: Scope) {
    forall i | 0 <= i < |g.constraints| && g.constraints[i].op != Any && g.constraints[i].key in ContentKeys(claim) ::
      ContentObeys(g, g.constraints[i], content, lower)
  }

  lemma ClaimIsAdmitted(claim: Scope, fromContent: Scope, g: Scope)
    requires IsSubScope(claim, g) && IsSubScope(fromContent, g)
    ensures forall r :: Admits(claim, r) || Admits(fromContent, r) ==> Admits(g, r)
  {
    forall r | Admits(claim, r) || Admits(fromContent, r) ensures Admits(g, r) {
      if Admits(claim, r) {
        SubScopeIsSound(claim, g, r);
      } else {
        SubScopeIsSound(fromContent, g, r);
      }
    }
  }

  /** The scope admits every request the claim admits and every request the content-bound scope
      admits, and the content alone obeys its constraints. */
  ghost predicate Covers(g: Scope, claim: Scope, content: Content, lower: string -> string) {
    && (forall r :: Admits(claim, r) || Admits(ContentBound(claim, content, lower), r) ==> Admits(g, r))
    && ContentWithin(claim, content, lower, g)
  }

  lemma GrantCovers(granted: seq<Scope>, claim: Scope, content: Content, lower: string -> string)
    requires GrantsWithContent(granted, claim, ContentBound(claim, content, lower))
    ensures exists g | g in granted :: Covers(g, claim, content, lower)
  {
    var fromContent := ContentBound(claim, content, lower);
    var k :| 0 <= k < |granted| && IsSubScope(claim, granted[k]) && IsSubScope(fromContent, granted[k]);
    var g := granted[k];
    ClaimIsAdmitted(claim, fromContent, g);
    forall i | 0 <= i < |g.constraints| && g.constraints[i].op != Any && g.constraints[i].key in ContentKeys(claim)
      ensures ContentObeys(g, g.constraints[i], content, lower)
    {
      ContentIsWithin(claim, content, lower, g, i);
    }
    assert Covers(g, claim, content, lower);
  }

  /** In terms of requests and of the content: some root scope admits everything the claim admits and
      everything the content-bound scope admits, and the action's own type, length and hash obey each
      of its constraints on them. */
  lemma AcceptedRequestsAreGranted(w: World, o: Options, a: Action, d: Link, chain: seq<Link>, now: Option<int>)
    requires d.Delegation? && IsChain(chain) && IsAccepted(w, o, a, d, chain, now)
    ensures Readable(d) && Parse(a.scopeExercised).Some?
    ensures exists g | g in ScopesOf(d) :: Covers(g, Parse(a.scopeExercised).value, a.content, w.lower)
  {
    AcceptedIsWithinRoot(w, o, a, d, chain, now);
    GrantCovers(ScopesOf(d), Parse(a.scopeExercised).value, a.content, w.lower);
  }

  ghost predicate InWindow(w: World, link: Link, t: int) {
    var issued, expires := w.time(link.issuedAt), w.time(link.expiresAt);
    issued.Some? && expires.Some? && issued.value <= t < expires.value
  }

  /** A time in the last window lies in all of them. */
  lemma InEveryWindow(w: World, links: seq<Link>, t: int)
    requires ChainHolds(w, links) && InWindow(w, links[|links| - 1], t)
    ensures forall i | 0 <= i < |links| :: InWindow(w, links[i], t)
  {
    forall i | 0 <= i < |links| ensures InWindow(w, links[i], t) {
      if i < |links| - 1 {
        WindowsNest(w, links, i, |links| - 1);
      }
    }
  }

  lemma AcceptedSigned(w: World, o: Options, a: Action, leaf: Link)
    requires BindingProblem(w, o, a, leaf).None?
    ensures a.delegationId == leaf.id && a.signer.address == leaf.agent.address
    ensures w.time(a.signedAt).Some? && InWindow(w, leaf, w.time(a.signedAt).value)
  {
    AcceptedBinds(w, o, a, leaf);
  }

  /** The chain of an accepted action: each link cites its parent and is held by the parent's
      agent, the last by the signer; and the signing time lies in every link's window. */
  lemma AcceptedChain(w: World, o: Options, a: Action, d: Link, chain: seq<Link>, now: Option<int>)
    requires d.Delegation? && IsChain(chain) && IsAccepted(w, o, a, d, chain, now)
    ensures |chain| <= o.maxDepth && ChainHolds(w, Links(d, chain))
    ensures a.delegationId == Leaf(d, chain).id && a.signer.address == Leaf(d, chain).agent.address
    ensures w.time(a.signedAt).Some?
    ensures forall i | 0 <= i <= |chain| :: InWindow(w, Links(d, chain)[i], w.time(a.signedAt).value)
  {
    WalkedChainHolds(w, o, d, chain);
    LeafIsLast(d, chain);
    AcceptedSigned(w, o, a, Leaf(d, chain));
    InEveryWindow(w, Links(d, chain), w.time(a.signedAt).value);
  }

  lemma LeafWindowIsReal(w: World, links: seq<Link>)
    requires ChainHolds(w, links) && WindowWithin(w, links[0], links[0])
    ensures WindowWithin(w, links[|links| - 1], links[0])
  {
    if |links| > 1 {
      WindowsNest(w, links, 0, |links| - 1);
    }
  }

  /** Being in force at the leaf is being in force at every link: the live loop refuses exactly
      when the leaf alone would be refused. */
  lemma LeafForceDecides(w: World, links: seq<Link>, t: int)
    requires ChainHolds(w, links) && WindowWithin(w, links[0], links[0])
    ensures ForceProblem(w, links, t).None? <==> InWindow(w, links[|links| - 1], t)
  {
    var leaf := links[|links| - 1];
    LeafWindowIsReal(w, links);
    if InWindow(w, leaf, t) {
      InEveryWindow(w, links, t);
    } else {
      assert ClockProblem(w, leaf, t).Some?;
    }
  }

  // ----- live and audit -----

  lemma StrikesLiveOnly(w: World, o: Options, a: Action, link: Link, revs: seq<Revocation>, t: int)
    requires LinkRevoked(w, o, a, None, link, revs)
    ensures LinkRevoked(w, o, a, Some(t), link, revs)
  {
  }

  lemma AuditRevokedIsLiveRevoked(w: World, o: Options, a: Action, links: seq<Link>, revs: seq<Revocation>, t: int)
    requires AnyRevoked(w, o, a, None, links, revs)
    ensures AnyRevoked(w, o, a, Some(t), links, revs)
  {
    if LinkRevoked(w, o, a, None, links[0], revs) {
      StrikesLiveOnly(w, o, a, links[0], revs, t);
    }
  }

  lemma LiveFeedRefines(w: World, o: Options, a: Action, links: seq<Link>, t: int)
    requires FeedProblem(w, o, a, links, Some(t)).None?
    ensures FeedProblem(w, o, a, links, None).None?
  {
    if AnyRevoked(w, o, a, None, links, Objects(FeedOf(o))) {
      AuditRevokedIsLiveRevoked(w, o, a, links, Objects(FeedOf(o)), t);
    }
  }

  lemma LiveAuthorityRefines(w: World, o: Options, a: Action, d: Link, chain: seq<Link>, t: int)
    requires d.Delegation? && IsChain(chain) && AuthorityProblem(w, o, a, d, chain, Some(t)).None?
    ensures AuthorityProblem(w, o, a, d, chain, None).None?
  {
  }

  /** Whatever passes live at some time passes the audit, with the same result but for `asOf`. */
  lemma LiveRefinesAudit(w: World, o: Options, a: Action, d: Link, chain: seq<Link>, t: int)
    requires d.Delegation? && IsChain(chain) && IsAccepted(w, o, a, d, chain, Some(t))
    ensures IsAccepted(w, o, a, d, chain, None)
    ensures var live := ActionVerdict(w, o, a, d, chain, Some(t)).value;
            var audit := ActionVerdict(w, o, a, d, chain, None).value;
            live == audit.(asOf := AtNow(t))
  {
    LiveAuthorityRefines(w, o, a, d, chain, t);
    LiveFeedRefines(w, o, a, Links(d, chain), t);
    assert FinishProblem(w, o, a, None).None?;
  }
}
