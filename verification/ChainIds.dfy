/** The id an action cites fixes the whole chain of authority above it, root included, as far
    as SHA-256 keeps the messages involved apart. */
module ChainIds {
  import opened Text
  import opened Scope
  import opened RoundTrip
  import opened Registry
  import opened Canonical
  import opened Messages
  import opened Envelopes
  import opened Verify
  import opened Authority

  /** The fields of a link that its id commits to. */
  datatype Signed = Root(root: DelegationInput) | Sub(sub: SubdelegationInput)

  function SignedFields(link: Link): Signed
    requires Readable(link)
  {
    if link.Delegation? then Root(DelegationFields(link)) else Sub(SubdelegationFields(link))
  }

  function MessageOf(s: Signed): string {
    match s case Root(d) => DelegationMessage(d) case Sub(d) => SubdelegationMessage(d)
  }

  /** The link passed the checks on its own text: shape, scopes and id. */
  ghost predicate Checked(w: World, link: Link) {
    && Readable(link) && link.scopes.value != [] && ActorShape(link.principal) && ActorShape(link.agent)
    && IsHex64(link.id) && IsHex(link.nonce, 32) && IsIsoUtc(link.issuedAt) && IsIsoUtc(link.expiresAt)
    && w.sha(MessageOf(SignedFields(link))) == link.id
    && match link
       case Delegation(_, _, _, _, _, _, _, _, _, _, _) =>
         BondShape(link.bond) && CanonicalizeScopes(link.scopes.value) == link.scopes
       case Subdelegation(_, _, _, _, _, _, _, _, _, _, _, _) => IsHex64(link.parentId)
  }

  lemma AcceptedRootIsChecked(w: World, o: Options, d: Link)
    requires d.Delegation? && DelegationProblem(w, o, d).None?
    ensures Checked(w, d)
  {
  }

  lemma AcceptedSubIsChecked(w: World, o: Options, s: Link, parent: Link)
    requires s.Subdelegation? && ChainLinkProblem(w, o, s, parent).None?
    ensures Checked(w, s)
  {
  }

  /** The agent line's mark stands nowhere in the parties' addresses where it would let them be cut
      another way. */
  predicate UnmarkedParties(link: Link) { Unmarked(link.principal.address, link.agent.address) }

  lemma CheckedRootIsAdmitted(w: World, d: Link)
    requires d.Delegation? && Checked(w, d)
    ensures AdmittedDelegation(DelegationFields(d))
  {
    CanonicalizedIsCanonical(d.scopes.value);
  }

  lemma CheckedSubIsAdmitted(w: World, s: Link)
    requires s.Subdelegation? && Checked(w, s)
    ensures AdmittedSubdelegation(SubdelegationFields(s))
  {
    CanonicalizedIsCanonical(s.scopes.value);
  }

  lemma SameRootMessage(w: World, d: Link, e: Link)
    requires d.Delegation? && e.Delegation? && Checked(w, d) && Checked(w, e) && UnmarkedParties(d)
    requires MessageOf(SignedFields(d)) == MessageOf(SignedFields(e))
    ensures SignedFields(d) == SignedFields(e)
  {
    CheckedRootIsAdmitted(w, d);
    CheckedRootIsAdmitted(w, e);
    DelegationMessageBinds(DelegationFields(d));
  }

  lemma SameSubMessage(w: World, d: Link, e: Link)
    requires d.Subdelegation? && e.Subdelegation? && Checked(w, d) && Checked(w, e) && UnmarkedParties(d)
    requires MessageOf(SignedFields(d)) == MessageOf(SignedFields(e))
    ensures SignedFields(d) == SignedFields(e)
  {
    CheckedSubIsAdmitted(w, d);
    CheckedSubIsAdmitted(w, e);
    SubdelegationMessageBinds(SubdelegationFields(d));
  }

  /** A checked link whose own addresses are unmarked: no other checked link whatever has its
      message but one with the same signed fields. */
  lemma SameMessageSameFields(w: World, d: Link, e: Link)
    requires Checked(w, d) && Checked(w, e) && UnmarkedParties(d)
    requires MessageOf(SignedFields(d)) == MessageOf(SignedFields(e))
    ensures SignedFields(d) == SignedFields(e)
  {
    match (SignedFields(d), SignedFields(e))
    case (Root(_), Root(_)) => SameRootMessage(w, d, e);
    case (Sub(_), Sub(_)) => SameSubMessage(w, d, e);
    case (Root(x), Sub(y)) => RootIsNotSub(x, y);
    case (Sub(x), Root(y)) => RootIsNotSub(y, x);
  }

  ghost predicate CitesAbove(links: seq<Link>, i: nat)
    requires 0 < i < |links|
  {
    links[i].Subdelegation? && links[i].parentId == links[i - 1].id
  }

  /** A chain from a root down, each link citing the one above. */
  ghost predicate ChainShape(links: seq<Link>) {
    && links != [] && links[0].Delegation? && (forall i | 0 <= i < |links| :: Readable(links[i]))
    && forall i: nat | 0 < i < |links| :: CitesAbove(links, i)
  }

  ghost predicate AllChecked(w: World, links: seq<Link>) {
    forall i | 0 <= i < |links| :: Checked(w, links[i])
  }

  ghost predicate AllUnmarked(links: seq<Link>) { forall i | 0 <= i < |links| :: UnmarkedParties(links[i]) }

  /** SHA-256 keeps apart the messages of these two chains. */
  ghost predicate NoCollision(links: seq<Link>, others: seq<Link>)
    requires ChainShape(links) && ChainShape(others)
  {
    forall i, j | 0 <= i < |links| && 0 <= j < |others| && links[i].id == others[j].id ::
      MessageOf(SignedFields(links[i])) == MessageOf(SignedFields(others[j]))
  }

  /** The two links agree on everything signed if they bear one id. */
  ghost predicate SameIdSameFields(x: Link, y: Link)
    requires Readable(x) && Readable(y)
  {
    x.id == y.id ==> SignedFields(x) == SignedFields(y)
  }

  ghost predicate IdsFixFields(links: seq<Link>, others: seq<Link>)
    requires ChainShape(links) && ChainShape(others)
  {
    forall i: nat, j: nat | i < |links| && j < |others| :: SameIdSameFields(links[i], others[j])
  }

  ghost predicate SameSigned(x: Link, y: Link) {
    Readable(x) && Readable(y) && SignedFields(x) == SignedFields(y)
  }

  /** Links signed over the same fields cite the same parent. */
  lemma SameSignedSameParent(x: Link, y: Link)
    requires SameSigned(x, y)
    ensures x.Subdelegation? == y.Subdelegation?
    ensures x.Subdelegation? ==> x.parentId == y.parentId
  {
  }

  lemma NoCollisionFixesFields(w: World, links: seq<Link>, others: seq<Link>)
    requires ChainShape(links) && ChainShape(others) && AllChecked(w, links) && AllChecked(w, others)
    requires AllUnmarked(links) && NoCollision(links, others)
    ensures IdsFixFields(links, others)
  {
    forall i: nat, j: nat | i < |links| && j < |others| ensures SameIdSameFields(links[i], others[j]) {
      if links[i].id == others[j].id {
        SameMessageSameFields(w, links[i], others[j]);
      }
    }
  }

  /** Two links of one id are both roots, or the links above them have one id. */
  lemma OneUp(links: seq<Link>, others: seq<Link>, i: nat, j: nat)
    requires ChainShape(links) && ChainShape(others) && IdsFixFields(links, others)
    requires i < |links| && j < |others| && links[i].id == others[j].id
    ensures SameSigned(links[i], others[j]) && (i == 0 <==> j == 0)
    ensures i > 0 && j > 0 ==> links[i - 1].id == others[j - 1].id
  {
    assert SameIdSameFields(links[i], others[j]);
    SameSignedSameParent(links[i], others[j]);
    assert i > 0 ==> CitesAbove(links, i);
    assert j > 0 ==> CitesAbove(others, j);
  }

  /** The relation passes from two positions to the two just above, and both lists start together. */
  ghost predicate StepsUp(rel: (nat, nat) -> bool, i: nat, j: nat) {
    rel(i, j) ==> (i == 0 <==> j == 0) && (i > 0 && j > 0 ==> rel(i - 1, j - 1))
  }

  lemma {:induction false} UpToTheStart(rel: (nat, nat) -> bool, i: nat, j: nat)
    requires rel(i, j) && forall x: nat, y: nat :: StepsUp(rel, x, y)
    ensures i == j && forall k: nat | k <= i :: rel(k, k)
    decreases i
  {
    assert StepsUp(rel, i, j);
    if i > 0 {
      UpToTheStart(rel, i - 1, j - 1);
    }
  }

  /** The ids alone of the links above. */
  lemma IdsStepUp(links: seq<Link>, others: seq<Link>, i: nat, j: nat)
    requires ChainShape(links) && ChainShape(others) && IdsFixFields(links, others)
    requires i < |links| && j < |others| && links[i].id == others[j].id
    ensures (i == 0 <==> j == 0) && (i > 0 && j > 0 ==> links[i - 1].id == others[j - 1].id)
  {
    OneUp(links, others, i, j);
  }

  /** The positions where the two lists have one id. */
  function SameIdAt(ids: seq<string>, others: seq<string>): (nat, nat) -> bool {
    (x: nat, y: nat) => x < |ids| && y < |others| && ids[x] == others[y]
  }

  function IdsOf(links: seq<Link>): (ids: seq<string>)
    ensures |ids| == |links| && forall i | 0 <= i < |links| :: ids[i] == links[i].id
  {
    seq(|links|, i requires 0 <= i < |links| => links[i].id)
  }

  lemma SameIdSameDepth(links: seq<Link>, others: seq<Link>, i: nat, j: nat)
    requires ChainShape(links) && ChainShape(others) && IdsFixFields(links, others)
    requires i < |links| && j < |others| && links[i].id == others[j].id
    ensures i == j && i < |others|
    ensures forall k | 0 <= k <= i :: links[k].id == others[k].id
  {
    var rel := SameIdAt(IdsOf(links), IdsOf(others));
    forall x: nat, y: nat ensures StepsUp(rel, x, y) {
      if rel(x, y) {
        IdsStepUp(links, others, x, y);
      }
    }
    UpToTheStart(rel, i, j);
    forall k | 0 <= k <= i ensures links[k].id == others[k].id {
      assert rel(k, k);
    }
  }

  lemma SameIdSameHistory(links: seq<Link>, others: seq<Link>, i: nat, j: nat)
    requires ChainShape(links) && ChainShape(others) && IdsFixFields(links, others)
    requires i < |links| && j < |others| && links[i].id == others[j].id
    ensures i == j
    ensures forall k | 0 <= k <= i :: SameSigned(links[k], others[k])
  {
    SameIdSameDepth(links, others, i, j);
    forall k | 0 <= k <= i ensures SameSigned(links[k], others[k]) {
      OneUp(links, others, k, k);
    }
  }

  lemma AcceptedShape(w: World, o: Options, d: Link, chain: seq<Link>)
    requires d.Delegation? && IsChain(chain) && DelegationProblem(w, o, d).None? && WalkProblem(w, o, d, chain).None?
    ensures ChainShape(Links(d, chain))
  {
    var links := Links(d, chain);
    WalkedChainHolds(w, o, d, chain);
    forall i: nat | 0 < i < |links| ensures CitesAbove(links, i) && Readable(links[i]) {
      assert Linked(w, links[(i - 1) + 1], links[i - 1]);
    }
  }

  lemma WalkedIsChecked(w: World, o: Options, d: Link, chain: seq<Link>, i: nat)
    requires IsChain(chain) && WalkProblem(w, o, d, chain).None? && i < |chain|
    ensures Checked(w, chain[i])
  {
    WalkedLink(w, o, d, chain, i);
    AcceptedSubIsChecked(w, o, chain[i], Links(d, chain)[i]);
  }

  lemma WalkedAreChecked(w: World, o: Options, d: Link, chain: seq<Link>)
    requires IsChain(chain) && WalkProblem(w, o, d, chain).None?
    ensures forall i | 0 <= i < |chain| :: Checked(w, chain[i])
  {
    forall i | 0 <= i < |chain| ensures Checked(w, chain[i]) {
      WalkedIsChecked(w, o, d, chain, i);
    }
  }

  lemma AllCheckedTogether(w: World, d: Link, chain: seq<Link>)
    requires Checked(w, d) && forall i | 0 <= i < |chain| :: Checked(w, chain[i])
    ensures AllChecked(w, Links(d, chain))
  {
  }

  /** The chain an action was accepted against. */
  ghost predicate AcceptedAgainst(w: World, o: Options, a: Action, d: Link, chain: seq<Link>, now: Option<int>) {
    && d.Delegation? && IsChain(chain) && IsAccepted(w, o, a, d, chain, now)
  }

  lemma AcceptedAgainstGives(w: World, o: Options, a: Action, d: Link, chain: seq<Link>, now: Option<int>)
    requires AcceptedAgainst(w, o, a, d, chain, now)
    ensures ChainShape(Links(d, chain)) && AllChecked(w, Links(d, chain))
    ensures Links(d, chain)[|chain|].id == a.delegationId
  {
    AcceptedShape(w, o, d, chain);
    AcceptedRootIsChecked(w, o, d);
    WalkedAreChecked(w, o, d, chain);
    AllCheckedTogether(w, d, chain);
    AcceptedBinds(w, o, a, Leaf(d, chain));
    LeafIsLast(d, chain);
  }

  /** One action, accepted against a chain of unmarked addresses and again against any chain
      whatever: unless two of the messages collide, the chains agree link by link on everything
      signed, whatever the options and clocks. */
  lemma ActionFixesItsAuthority(w: World, a: Action,
                                o: Options, d: Link, chain: seq<Link>, now: Option<int>,
                                p: Options, e: Link, other: seq<Link>, later: Option<int>)
    requires AcceptedAgainst(w, o, a, d, chain, now) && AcceptedAgainst(w, p, a, e, other, later)
    requires AllUnmarked(Links(d, chain))
    ensures ChainShape(Links(d, chain)) && ChainShape(Links(e, other))
    ensures NoCollision(Links(d, chain), Links(e, other)) ==>
              && |chain| == |other|
              && forall k | 0 <= k <= |chain| :: SameSigned(Links(d, chain)[k], Links(e, other)[k])
  {
    AcceptedAgainstGives(w, o, a, d, chain, now);
    AcceptedAgainstGives(w, p, a, e, other, later);
    if NoCollision(Links(d, chain), Links(e, other)) {
      NoCollisionFixesFields(w, Links(d, chain), Links(e, other));
      SameIdSameHistory(Links(d, chain), Links(e, other), |chain|, |other|);
    }
  }

  /** A root whose addresses do hold such a mark: another link with its id passes the same checks. */
  lemma RootReadsTwice(w: World, d: Link) returns (e: Link)
    requires d.Delegation? && DelegationShape(w, d) && Checked(w, d) && !UnmarkedParties(d)
    ensures e.Delegation? && DelegationShape(w, e) && Checked(w, e)
    ensures e.id == d.id && SignedFields(e) != SignedFields(d)
  {
    CheckedRootIsAdmitted(w, d);
    var f := DelegationCollision(DelegationFields(d));
    e := Delegation(d.v, d.kind, d.id, d.principal.(address := f.principal), d.agent.(address := f.agent), d.scopes,
                    d.bond, d.issuedAt, d.expiresAt, d.nonce, d.sig.(pubkey := f.principal));
    assert DelegationFields(e) == f;
  }

  /** And so for a sub-delegation. */
  lemma SubReadsTwice(w: World, s: Link) returns (e: Link)
    requires s.Subdelegation? && SubdelegationShape(s) && Checked(w, s) && !UnmarkedParties(s)
    ensures e.Subdelegation? && SubdelegationShape(e) && Checked(w, e)
    ensures e.id == s.id && SignedFields(e) != SignedFields(s)
  {
    CheckedSubIsAdmitted(w, s);
    var f := SubdelegationCollision(SubdelegationFields(s));
    e := Subdelegation(s.v, s.kind, s.id, s.parentId, s.principal.(address := f.principal),
                       s.agent.(address := f.agent), s.scopes, s.carriesBond, s.issuedAt, s.expiresAt, s.nonce,
                       s.sig.(pubkey := f.principal));
    assert SubdelegationFields(e) == f;
  }

  // ----- the action itself -----

  lemma AcceptedActionIsAdmitted(w: World, o: Options, a: Action, d: Link, chain: seq<Link>, now: Option<int>)
    requires AcceptedAgainst(w, o, a, d, chain, now)
    ensures AdmittedAction(ActionFields(a)) && ActionId(w, a) == a.id
  {
    AuthorityParses(w, o, a, d, chain, now);
    BoundIsAdmitted(w, o, a, Leaf(d, chain));
  }

  /** An accepted action whose own fields hold no label has no other accepted reading under its id,
      whatever the other's fields hold, unless the two messages collide. */
  lemma AcceptedActionHasOneReading(w: World,
                                    o: Options, a: Action, d: Link, chain: seq<Link>, now: Option<int>,
                                    p: Options, b: Action, e: Link, other: seq<Link>, later: Option<int>)
    requires AcceptedAgainst(w, o, a, d, chain, now) && AcceptedAgainst(w, p, b, e, other, later)
    requires a.id == b.id && PREFIX <= a.content.hash && PlainAction(ActionFields(a))
    requires ActionId(w, a) == ActionId(w, b) ==> ActionMessage(ActionFields(a)) == ActionMessage(ActionFields(b))
    ensures ActionFields(a) == ActionFields(b)
  {
    AcceptedActionIsAdmitted(w, o, a, d, chain, now);
    AcceptedActionIsAdmitted(w, p, b, e, other, later);
    ActionMessageBinds(ActionFields(a));
  }

  lemma ShapedActionIsAdmitted(a: Action)
    requires ActionShape(a) && Parse(a.scopeExercised).Some?
    ensures AdmittedAction(ActionFields(a))
  {
  }

  /** The envelope whose signed fields are `f`, its other parts those of `a`. */
  function Reread(a: Action, f: ActionInput): Action {
    a.(content := Content(f.contentHash, f.contentLength, f.contentMime), signer := a.signer.(address := f.address),
       signedAt := f.signedAt, delegationId := f.delegationId, scopeExercised := f.scopeExercised,
       sig := a.sig.(pubkey := f.address))
  }

  /** An action with a label where it matters: another with its id passes the same checks. */
  lemma ActionReadsTwice(w: World, a: Action) returns (b: Action)
    requires ActionShape(a) && Parse(a.scopeExercised).Some? && ActionId(w, a) == a.id
    requires !PlainAction(ActionFields(a))
    ensures ActionShape(b) && Parse(b.scopeExercised).Some? && ActionId(w, b) == b.id
    ensures b.id == a.id && ActionFields(b) != ActionFields(a)
  {
    ShapedActionIsAdmitted(a);
    var f := ActionCollision(ActionFields(a));
    TailFixesRest(ActionFields(a), f);
    b := Reread(a, f);
    assert ActionFields(b) == f;
  }
}
