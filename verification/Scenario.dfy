/** One whole story on concrete envelopes: a principal delegates, the agent sub-delegates, the
    sub-agent acts and is accepted, live and as an audit; the principal revokes and it is refused. */
module Scenario {
  import opened Text
  import opened Scope
  import opened Registry
  import opened SubScope
  import opened RoundTrip
  import opened Sorting
  import opened Canonical
  import opened Messages
  import opened Envelopes
  import opened Verify
  import opened Authority
  import opened Revocations
  import opened Signer
  import opened ChainIds
  import opened ReplayGuard

  // ----- the setting -----

  /** Two times, the three ids, a nonce, the parties, and the scope granted. */
  datatype Setting = Setting(
    morning: string, evening: string, rootId: string, subId: string, deedId: string, nonce: string,
    alice: string, bot: string, helper: string, text: string, seal: Scope)

  const HALF_DAY_MS := 12 * 3_600_000

  ghost predicate RealTexts(g: Setting) {
    && IsIsoUtc(g.morning) && IsIsoUtc(g.evening) && g.morning != g.evening
    && IsHex64(g.rootId) && IsHex64(g.subId) && IsHex64(g.deedId) && IsHex(g.nonce, 32)
    && g.rootId != g.subId && g.subId != g.deedId && g.rootId != g.deedId
    && g.alice != "" && g.bot != "" && g.helper != "" && OneLine(g.alice) && OneLine(g.bot) && OneLine(g.helper)
  }

  ghost predicate RealGrant(g: Setting) {
    && g.text != "" && Parse(g.text) == Some(g.seal) && Valid(g.seal, Strict) && ContentKeys(g.seal) == []
    && ScopesStand([g.text], Strict) && ParseEach([g.text]) == [g.seal]
    && IsSubScope(g.seal, g.seal)
  }

  function Repeat(c: char, n: nat): (s: string)
    requires IsLowerHex(c)
    ensures IsHex(s, n) && (n > 0 ==> s[0] == c)
  {
    if n == 0 then "" else [c] + Repeat(c, n - 1)
  }

  lemma TimeIsIso(hour: string) returns (s: string)
    requires |hour| == 2 && AllDigits(hour)
    ensures IsIsoUtc(s) && |s| == 20 && s[11..13] == hour
  {
    s := "2026-01-01T" + hour + ":00:00Z";
    assert s[..4] == "2026" && s[5..7] == "01" && s[8..10] == "01" && s[11..13] == hour;
    assert s[14..16] == "00" && s[17..19] == "00" && s[19..] == "Z";
  }

  lemma TwoTimes() returns (morning: string, evening: string)
    ensures IsIsoUtc(morning) && IsIsoUtc(evening) && morning != evening
  {
    morning := TimeIsIso("08");
    evening := TimeIsIso("20");
    assert morning[11..13][0] == '0' && evening[11..13][0] == '2';
  }

  lemma ThreeIds() returns (x: string, y: string, z: string)
    ensures IsHex64(x) && IsHex64(y) && IsHex64(z) && x != y && y != z && x != z
  {
    x, y, z := Repeat('a', 64), Repeat('b', 64), Repeat('c', 64);
    assert x[0] == 'a' && y[0] == 'b' && z[0] == 'c';
  }

  lemma SomeTexts() returns (g: Setting)
    ensures RealTexts(g)
  {
    var morning, evening := TwoTimes();
    var x, y, z := ThreeIds();
    var nonce := Repeat('d', 32);
    g := Setting(morning, evening, x, y, z, nonce, "alice", "bot", "helper", "", Scope("lock", "seal", []));
  }

  lemma LockSealIsValid()
    ensures var s := Scope("lock", "seal", []); WellFormed(s) && Valid(s, Strict) && ContentKeys(s) == []
  {
    assert "lock" + ":" + "seal" == "lock:seal";
  }

  lemma PlainScopeReads(s: Scope)
    requires WellFormed(s) && s.constraints == []
    ensures Parse(Print(s)) == Some(s) && Print(s) != ""
  {
    PrintReadsBack(s);
    assert Arranged(s) == s;
  }

  lemma OneGrantStands(text: string, s: Scope)
    requires Parse(text) == Some(s) && Print(s) == text && Valid(s, Strict)
    ensures ScopesStand([text], Strict) && ParseEach([text]) == [s]
  {
    CanonicalListStands([text]);
  }

  lemma Set() returns (g: Setting)
    ensures RealTexts(g) && RealGrant(g)
  {
    var texts := SomeTexts();
    var seal := Scope("lock", "seal", []);
    LockSealIsValid();
    PlainScopeReads(seal);
    OneGrantStands(Print(seal), seal);
    g := texts.(text := Print(seal), seal := seal);
  }

  // ----- the host and the caller -----

  ghost predicate AcceptsAllSignatures(o: Options) {
    o.bip322.Some? && forall m, v, address :: o.bip322.value(m, v, address)
  }

  /** A hash that tells apart the kinds of message, a calendar that knows the two times, and a caller
      with the defaults who has found no revocation. */
  ghost predicate Hosts(g: Setting, w: World, o: Options) {
    && (forall d :: w.sha(DelegationMessage(d)) == g.rootId)
    && (forall d :: w.sha(SubdelegationMessage(d)) == g.subId)
    && (forall a :: w.sha(ActionMessage(a)) == g.deedId)
    && w.time(g.morning) == Some(0) && w.time(g.evening) == Some(HALF_DAY_MS)
    && AcceptsAllSignatures(o) && !o.skipSignatures && o.mode == Strict && o.revocations == Some([])
    && o.maxDepth == DEFAULT_MAX_CHAIN_DEPTH && o.maxSkewMs == DEFAULT_MAX_SKEW_MS && o.content.None?
  }

  /** The kinds of message differ in their tenth character. */
  function Hash(g: Setting, message: string): string {
    if |message| < 10 then ""
    else if message[9] == 'd' then g.rootId
    else if message[9] == 's' then g.subId
    else if message[9] == 'a' then g.deedId
    else ""
  }

  lemma HashOfDelegation(g: Setting, d: DelegationInput)
    ensures Hash(g, DelegationMessage(d)) == g.rootId
  {
    DelegationMessageParts(d);
    assert DelegationMessage(d)[9] == 'd';
  }

  lemma HashOfSubdelegation(g: Setting, d: SubdelegationInput)
    ensures Hash(g, SubdelegationMessage(d)) == g.subId
  {
    SubdelegationMessageParts(d);
    assert SubdelegationMessage(d)[9] == 's';
  }

  lemma HashOfAction(g: Setting, a: ActionInput)
    ensures Hash(g, ActionMessage(a)) == g.deedId
  {
    ActionMessageParts(a);
    assert ActionMessage(a)[9] == 'a';
  }

  lemma SomeHost(g: Setting) returns (w: World, o: Options)
    requires g.morning != g.evening
    ensures Hosts(g, w, o)
  {
    w := World(message => Hash(g, message), _ => g.rootId,
               t => if t == g.morning then Some(0) else if t == g.evening then Some(HALF_DAY_MS) else None, s => s);
    o := Options(Some((_, _, _) => true), false, Strict, false, Some([]), DEFAULT_MAX_CHAIN_DEPTH, None, None, None,
                 DEFAULT_MAX_SKEW_MS);
    forall d ensures w.sha(DelegationMessage(d)) == g.rootId { HashOfDelegation(g, d); }
    forall d ensures w.sha(SubdelegationMessage(d)) == g.subId { HashOfSubdelegation(g, d); }
    forall a ensures w.sha(ActionMessage(a)) == g.deedId { HashOfAction(g, a); }
  }

  // ----- the root -----

  function Party(address: string): Actor { Actor(address, "bip322") }

  function Signed(address: string): Signature { Signature("bip322", address, "") }

  /** In force from morning to evening. */
  ghost predicate AllDay(w: World, link: Link) {
    w.time(link.issuedAt) == Some(0) && w.time(link.expiresAt) == Some(HALF_DAY_MS)
  }

  /** All day, and granting the one scope. */
  ghost predicate Grants(g: Setting, w: World, link: Link) {
    AllDay(w, link) && link.issuedAt == g.morning && link.expiresAt == g.evening && link.scopes == Some([g.text])
  }

  lemma RootPasses(w: World, o: Options, d: Link)
    requires d.Delegation? && d.scopes.Some? && d.v == 1 && DelegationShape(w, d) && ScopesStand(d.scopes.value, o.mode)
    requires w.sha(DelegationMessage(DelegationFields(d))) == d.id
    requires SignatureProblem(o, d.id, d.sig.value, d.principal.address, BadSig).None?
    ensures DelegationProblem(w, o, d).None?
  {
  }

  lemma SomeRoot(g: Setting, w: World, o: Options) returns (d: Link)
    requires RealTexts(g) && RealGrant(g) && Hosts(g, w, o)
    ensures d.Delegation? && d.id == g.rootId && d.principal == Party(g.alice) && d.agent == Party(g.bot)
    ensures Grants(g, w, d) && DelegationShape(w, d) && DelegationProblem(w, o, d).None?
  {
    d := Delegation(1, "agent-delegation", g.rootId, Party(g.alice), Party(g.bot), Some([g.text]), None,
                    g.morning, g.evening, g.nonce, Signed(g.alice));
    RootPasses(w, o, d);
  }

  // ----- the link under it -----

  lemma OneNarrowsItself(x: Scope)
    requires IsSubScope(x, x)
    ensures Narrows([x], [x])
  {
    assert IsSubScope(x, [x][0]) && SomeGrants([x], x);
  }

  lemma OneUnderOne(s: Link, parent: Link, x: Scope)
    requires s.scopes.Some? && parent.scopes.Some? && AllParse(s.scopes.value) && AllParse(parent.scopes.value)
    requires ParseEach(s.scopes.value) == [x] && ParseEach(parent.scopes.value) == [x] && IsSubScope(x, x)
    ensures ContainmentProblem(s, parent).None?
  {
    OneNarrowsItself(x);
  }

  lemma LinkStands(w: World, o: Options, s: Link, parent: Link)
    requires s.Subdelegation? && s.scopes.Some? && s.v == 1 && SubdelegationShape(s)
    requires AllParse(s.scopes.value) && AllValid(s.scopes.value, o.mode)
    requires w.sha(SubdelegationMessage(SubdelegationFields(s))) == s.id
    requires SignatureProblem(o, s.id, s.sig.value, s.principal.address, BadSig).None?
    requires s.parentId == parent.id && s.principal.address == parent.agent.address
    requires WindowProblem(w, s, parent).None? && ContainmentProblem(s, parent).None?
    ensures ChainLinkProblem(w, o, s, parent).None?
  {
  }

  lemma SomeSub(g: Setting, w: World, o: Options, d: Link) returns (s: Link)
    requires RealTexts(g) && RealGrant(g) && Hosts(g, w, o)
    requires d.id == g.rootId && d.agent == Party(g.bot) && Grants(g, w, d)
    ensures s.Subdelegation? && s.id == g.subId && s.principal == Party(g.bot) && s.agent == Party(g.helper)
    ensures Grants(g, w, s) && ChainLinkProblem(w, o, s, d).None?
  {
    s := Subdelegation(1, "agent-subdelegation", g.subId, g.rootId, Party(g.bot), Party(g.helper), Some([g.text]),
                       false, g.morning, g.evening, g.nonce, Signed(g.bot));
    OneUnderOne(s, d, g.seal);
    LinkStands(w, o, s, d);
  }

  // ----- the deed -----

  lemma ClaimHolds(w: World, o: Options, a: Action, leaf: Link, claim: Scope)
    requires leaf.scopes.Some? && AllParse(leaf.scopes.value)
    requires Parse(a.scopeExercised) == Some(claim) && Valid(claim, o.mode)
    requires GrantsWithContent(ParseEach(leaf.scopes.value), claim, ContentBound(claim, a.content, w.lower))
    ensures ScopeProblem(w, o, a, leaf).None?
  {
  }

  /** Signed in the morning with the bound at its default, no content given and no anchor claimed. */
  ghost predicate Punctual(w: World, o: Options, a: Action) {
    && w.time(a.signedAt) == Some(0) && o.maxSkewMs == DEFAULT_MAX_SKEW_MS && o.content.None? && a.ots.None?
  }

  lemma SomeDeed(g: Setting, w: World, o: Options, s: Link) returns (a: Action)
    requires RealTexts(g) && RealGrant(g) && Hosts(g, w, o)
    requires s.id == g.subId && s.agent == Party(g.helper) && Grants(g, w, s)
    ensures BindingProblem(w, o, a, s).None? && ScopeProblem(w, o, a, s).None? && Punctual(w, o, a)
  {
    a := Action(1, "agent-action", g.deedId, Content("sha256:", 0, "text/plain"), Party(g.helper), g.morning, g.subId,
                g.text, None, Signed(g.helper));
    SignedActionBinds(w, o, a, s);
    assert ContentBound(g.seal, a.content, w.lower) == g.seal;
    assert GrantsWithContent([g.seal], g.seal, g.seal);
    ClaimHolds(w, o, a, s, g.seal);
  }

  /** As an audit, or live within two minutes of the morning. */
  predicate OnTime(now: Option<int>) { now.Some? ==> 0 <= now.value <= DEFAULT_MAX_SKEW_MS }

  lemma PunctualFinishes(w: World, o: Options, a: Action, now: Option<int>)
    requires Punctual(w, o, a) && OnTime(now)
    ensures FinishProblem(w, o, a, now).None?
  {
  }

  // ----- all of them together -----

  lemma TwoInForce(w: World, d: Link, s: Link, now: Option<int>)
    requires now.Some? ==> InWindow(w, d, now.value) && InWindow(w, s, now.value)
    ensures now.Some? ==> ForceProblem(w, Links(d, [s]), now.value).None?
  {
  }

  lemma OneLinkWalks(w: World, o: Options, d: Link, s: Link)
    requires s.Subdelegation? && ChainLinkProblem(w, o, s, d).None?
    ensures WalkProblem(w, o, d, [s]).None?
  {
    assert [s][1..] == [];
    assert Walk(LinkCheck(w, o), s, [s][1..]).None?;
  }

  lemma NothingFiled(w: World, o: Options, a: Action, links: seq<Link>, now: Option<int>)
    requires o.revocations == Some([])
    ensures FeedProblem(w, o, a, links, now).None?
  {
    FeedRevokesIff(w, o, a, now, links, []);
    assert FeedOf(o) == [];
  }

  /** A root and one link under it, each check passed. */
  lemma TwoLinksAccept(w: World, o: Options, a: Action, d: Link, s: Link, now: Option<int>)
    requires d.Delegation? && s.Subdelegation? && IsChain([s]) && 1 <= o.maxDepth && o.revocations == Some([])
    requires DelegationProblem(w, o, d).None? && ChainLinkProblem(w, o, s, d).None?
    requires BindingProblem(w, o, a, s).None? && ScopeProblem(w, o, a, s).None?
    requires now.Some? ==> InWindow(w, d, now.value) && InWindow(w, s, now.value)
    requires FinishProblem(w, o, a, now).None?
    ensures IsAccepted(w, o, a, d, [s], now)
  {
    OneLinkWalks(w, o, d, s);
    TwoInForce(w, d, s, now);
    NothingFiled(w, o, a, Links(d, [s]), now);
  }

  /** A recall by the root's principal; its unsigned parts are all wrong. */
  function Recall(d: Link): Revocation {
    Revocation(0, "", "", d.id, d.principal, "", d.issuedAt, None, Signature("", "", ""))
  }

  lemma RecallIsGenuine(w: World, o: Options, d: Link)
    requires d.Delegation? && DelegationShape(w, d) && AcceptsAllSignatures(o)
    ensures Genuine(w, o, Recall(d), d)
  {
  }

  ghost predicate ToldApart(d: Link, s: Link) { d.id != s.id && UnmarkedParties(d) && UnmarkedParties(s) }

  lemma PartiesAreToldApart(g: Setting, d: Link, s: Link)
    requires RealTexts(g) && d.id == g.rootId && s.id == g.subId
    requires d.principal == Party(g.alice) && d.agent == Party(g.bot)
    requires s.principal == Party(g.bot) && s.agent == Party(g.helper)
    ensures ToldApart(d, s)
  {
    OneLineIsUnmarked(g.alice, g.bot);
    OneLineIsUnmarked(g.bot, g.helper);
  }

  lemma TwoLinksAreUnmarked(d: Link, s: Link)
    requires ToldApart(d, s)
    ensures AllUnmarked(Links(d, [s]))
  {
  }

  lemma DistinctIdsDoNotCollide(links: seq<Link>)
    requires ChainShape(links)
    requires forall i, j | 0 <= i < |links| && 0 <= j < |links| && links[i].id == links[j].id :: i == j
    ensures NoCollision(links, links)
  {
    forall i, j | 0 <= i < |links| && 0 <= j < |links| && links[i].id == links[j].id
      ensures MessageOf(SignedFields(links[i])) == MessageOf(SignedFields(links[j]))
    {
      assert i == j;
    }
  }

  lemma TwoIdsDoNotCollide(d: Link, s: Link)
    requires ChainShape(Links(d, [s])) && ToldApart(d, s)
    ensures NoCollision(Links(d, [s]), Links(d, [s]))
  {
    DistinctIdsDoNotCollide(Links(d, [s]));
  }

  // ----- the story -----

  lemma CastChain() returns (g: Setting, w: World, o: Options, d: Link, s: Link)
    ensures RealTexts(g) && RealGrant(g) && Hosts(g, w, o)
    ensures d.Delegation? && Grants(g, w, d) && DelegationShape(w, d) && DelegationProblem(w, o, d).None?
    ensures s.Subdelegation? && Grants(g, w, s) && ChainLinkProblem(w, o, s, d).None?
    ensures s.id == g.subId && s.agent == Party(g.helper) && ToldApart(d, s)
  {
    g := Set();
    w, o := SomeHost(g);
    d := SomeRoot(g, w, o);
    s := SomeSub(g, w, o, d);
    PartiesAreToldApart(g, d, s);
  }

  /** A deed under its chain, with the recall beside it: every check on its own is passed. */
  lemma Cast() returns (w: World, o: Options, a: Action, d: Link, s: Link, r: Revocation)
    ensures d.Delegation? && s.Subdelegation? && IsChain([s]) && ToldApart(d, s)
    ensures 1 <= o.maxDepth && o.revocations == Some([])
    ensures DelegationProblem(w, o, d).None? && ChainLinkProblem(w, o, s, d).None?
    ensures BindingProblem(w, o, a, s).None? && ScopeProblem(w, o, a, s).None? && Punctual(w, o, a)
    ensures AllDay(w, d) && AllDay(w, s)
    ensures Genuine(w, WithFeed(o, [Entry(r)]), r, d) && w.time(r.signedAt) == Some(0)
  {
    var g;
    g, w, o, d, s := CastChain();
    a := SomeDeed(g, w, o, s);
    r := Recall(d);
    RecallIsGenuine(w, WithFeed(o, [Entry(r)]), d);
  }

  /** The deed is accepted on time. */
  lemma Story() returns (w: World, o: Options, a: Action, d: Link, s: Link, r: Revocation)
    ensures d.Delegation? && IsChain([s]) && forall now | OnTime(now) :: IsAccepted(w, o, a, d, [s], now)
    ensures Genuine(w, WithFeed(o, [Entry(r)]), r, d) && w.time(r.signedAt) == Some(0)
    ensures w.time(a.signedAt) == Some(0) && o.revocations == Some([]) && o.maxSkewMs == DEFAULT_MAX_SKEW_MS
    ensures s.Subdelegation? && ToldApart(d, s)
  {
    w, o, a, d, s, r := Cast();
    forall now | OnTime(now) ensures IsAccepted(w, o, a, d, [s], now) {
      PunctualFinishes(w, o, a, now);
      TwoLinksAccept(w, o, a, d, s, now);
    }
  }

  /** The two-link chain is accepted, at eight o'clock and as an audit, and refused at eight once
      the root's principal has revoked it. */
  lemma AcceptedUntilRevoked() returns (w: World, o: Options, a: Action, d: Link, s: Link, r: Revocation)
    ensures d.Delegation? && IsChain([s]) && o.revocations == Some([])
    ensures IsAccepted(w, o, a, d, [s], Some(0)) && IsAccepted(w, o, a, d, [s], None)
    ensures !IsAccepted(w, WithFeed(o, [Entry(r)]), a, d, [s], Some(0))
  {
    w, o, a, d, s, r := Story();
    assert OnTime(Some(0)) && OnTime(None);
    assert Links(d, [s])[0] == d;
    GenuineRevocationRefuses(w, WithFeed(o, [Entry(r)]), a, d, [s], 0, 0, r);
  }

  /** Beside a guard as long as the verifier's bound the deed is acted on at eight o'clock and once
      more two minutes later. */
  lemma ActedOnTwice() returns (w: World, o: Options, a: Action, d: Link, s: Link)
    ensures ActedOn(w, o, o.maxSkewMs, Twice(a, 0, o.maxSkewMs), 0, a, d, [s])
    ensures ActedOn(w, o, o.maxSkewMs, Twice(a, 0, o.maxSkewMs), 1, a, d, [s])
  {
    var r;
    w, o, a, d, s, r := Story();
    assert OnTime(Some(0)) && OnTime(Some(o.maxSkewMs));
    LastInstantIsForgotten(w, o, o.maxSkewMs, a, d, [s], 0, o.maxSkewMs);
  }

  /** What an action's id is said to fix can be relied on here: the chain was accepted, its addresses
      are unmarked, and the hash keeps its messages apart. */
  lemma ChainIsFixed() returns (w: World, o: Options, a: Action, d: Link, s: Link)
    ensures AcceptedAgainst(w, o, a, d, [s], None)
    ensures ChainShape(Links(d, [s])) && AllUnmarked(Links(d, [s])) && NoCollision(Links(d, [s]), Links(d, [s]))
  {
    var r;
    w, o, a, d, s, r := Story();
    assert OnTime(None);
    AcceptedAgainstGives(w, o, a, d, [s], None);
    TwoLinksAreUnmarked(d, s);
    TwoIdsDoNotCollide(d, s);
  }
}
