/** The verifier as it runs: the chain walk, the in-force loop and the nested revocation loop,
    each proved to compute what the verdict's checks say. */
module Verifier {
  import opened Text
  import opened Envelopes
  import opened Scope
  import opened Verify

  method WalkChain(w: World, o: Options, root: Link, chain: seq<Link>) returns (problem: Option<Code>)
    requires IsChain(chain)
    ensures problem == WalkProblem(w, o, root, chain)
  {
    var parent := root;
    ghost var check := LinkCheck(w, o);
    assert chain[0..] == chain;
    for i := 0 to |chain|
      invariant Walk(check, root, chain) == Walk(check, parent, chain[i..])
    {
      assert chain[i..][0] == chain[i] && chain[i..][1..] == chain[i + 1..];
      problem := ChainLinkProblem(w, o, chain[i], parent);
      if problem.Some? {
        return problem;
      }
      parent := chain[i];
    }
    assert chain[|chain|..] == [];
    return None;
  }

  method CheckForce(w: World, links: seq<Link>, t: int) returns (problem: Option<Code>)
    ensures problem == ForceProblem(w, links, t)
  {
    assert links[0..] == links;
    for i := 0 to |links|
      invariant ForceProblem(w, links, t) == ForceProblem(w, links[i..], t)
    {
      assert links[i..][0] == links[i] && links[i..][1..] == links[i + 1..];
      problem := ClockProblem(w, links[i], t);
      if problem.Some? {
        return problem;
      }
    }
    assert links[|links|..] == [];
    return None;
  }

  /** One link against the whole feed. */
  method EvaluateLink(w: World, o: Options, a: Action, now: Option<int>, link: Link, revs: seq<Revocation>)
    returns (revoked: bool, skipped: nat)
    ensures revoked == LinkRevoked(w, o, a, now, link, revs)
    ensures !revoked ==> skipped == SkippedFor(w, o, link, revs)
  {
    skipped := 0;
    assert revs[0..] == revs;
    for j := 0 to |revs|
      invariant LinkRevoked(w, o, a, now, link, revs) == LinkRevoked(w, o, a, now, link, revs[j..])
      invariant skipped == SkippedFor(w, o, link, revs[..j])
    {
      assert revs[..j + 1][..j] == revs[..j] && revs[j..][1..] == revs[j + 1..];
      var rev := revs[j];
      if rev.delegationId == link.id {
        if !Authentic(w, o, rev, link) {
          skipped := skipped + 1;
        } else if Strikes(w, o, a, now, rev) {
          return true, skipped;
        }
      }
    }
    assert revs[..|revs|] == revs;
    return false, skipped;
  }

  method EvaluateRevocations(w: World, o: Options, a: Action, now: Option<int>, links: seq<Link>, revs: seq<Revocation>)
    returns (revoked: bool, skipped: nat)
    ensures revoked == AnyRevoked(w, o, a, now, links, revs)
    ensures !revoked ==> skipped == SkippedAll(w, o, links, revs)
  {
    skipped := 0;
    assert links[0..] == links;
    for i := 0 to |links|
      invariant AnyRevoked(w, o, a, now, links, revs) == AnyRevoked(w, o, a, now, links[i..], revs)
      invariant skipped == SkippedAll(w, o, links[..i], revs)
    {
      assert links[..i + 1][..i] == links[..i] && links[i..][1..] == links[i + 1..];
      var hit, more := EvaluateLink(w, o, a, now, links[i], revs);
      if hit {
        return true, skipped;
      }
      skipped := skipped + more;
    }
    assert links[..|links|] == links;
    return false, skipped;
  }

  method CheckAuthority(w: World, o: Options, a: Action, d: Link, chain: seq<Link>, now: Option<int>)
    returns (problem: Option<Code>)
    requires d.Delegation? && IsChain(chain)
    ensures problem == AuthorityProblem(w, o, a, d, chain, now)
  {
    if |chain| > o.maxDepth {
      return Some(DepthExceeded);
    }
    problem := DelegationProblem(w, o, d);
    if problem.Some? {
      return;
    }
    problem := WalkChain(w, o, d, chain);
    if problem.Some? {
      return;
    }
    problem := BindingProblem(w, o, a, Leaf(d, chain));
    if problem.Some? {
      return;
    }
    if now.Some? {
      problem := CheckForce(w, Links(d, chain), now.value);
      if problem.Some? {
        return;
      }
    }
    problem := ScopeProblem(w, o, a, Leaf(d, chain));
  }

  method CheckFeed(w: World, o: Options, a: Action, links: seq<Link>, now: Option<int>)
    returns (problem: Option<Code>, skipped: nat)
    ensures problem == FeedProblem(w, o, a, links, now)
    ensures problem.None? ==> skipped == Skipped(w, o, links)
  {
    if !o.skipRevocation && o.revocations.None? {
      return Some(Malformed), 0;
    }
    var revs := Objects(FeedOf(o));
    var revoked, failed := EvaluateRevocations(w, o, a, now, links, revs);
    return Require(!revoked, Revoked), |FeedOf(o)| - |revs| + failed;
  }

  /** `now` absent is the audit form, checked as of the action's own signed_at. */
  method VerifyActionAt(w: World, o: Options, a: Action, d: Link, chain: seq<Link>, now: Option<int>)
    returns (r: Result<Accepted>)
    requires d.Delegation? && IsChain(chain)
    ensures r == ActionVerdict(w, o, a, d, chain, now)
  {
    var authority := CheckAuthority(w, o, a, d, chain, now);
    if authority.Some? {
      return Err(authority.value);
    }
    AuthorityParses(w, o, a, d, chain, now);
    var feed, skipped := CheckFeed(w, o, a, Links(d, chain), now);
    if feed.Some? {
      return Err(feed.value);
    }
    var finish := FinishProblem(w, o, a, now);
    if finish.Some? {
      return Err(finish.value);
    }
    var asOf := if now.Some? then AtNow(now.value) else AtSigned(a.signedAt, ActionAnchor(o, a).Some?);
    return Ok(Accepted(a.id, d, chain, Print(Parse(a.scopeExercised).value), AnchorOf(o, a).value, asOf, skipped));
  }

  /** Up to the first genuine revocation; the entries that cite the delegation and fail are counted. */
  method FindRevocation(w: World, o: Options, d: Link, revs: seq<Revocation>) returns (revoked: bool, skipped: nat)
    ensures revoked == DelegationRevoked(w, o, d, revs)
    ensures !revoked ==> skipped == SkippedFor(w, o, d, revs)
  {
    skipped := 0;
    for j := 0 to |revs|
      invariant skipped == SkippedFor(w, o, d, revs[..j])
      invariant forall i | 0 <= i < j :: !Authentic(w, o, revs[i], d)
    {
      assert revs[..j + 1][..j] == revs[..j];
      if revs[j].delegationId == d.id {
        if Authentic(w, o, revs[j], d) {
          return true, skipped;
        }
        skipped := skipped + 1;
      }
    }
    assert revs[..|revs|] == revs;
    return false, skipped;
  }

  method CheckDelegationTime(w: World, o: Options, d: Link, now: Option<int>)
    returns (problem: Option<Code>, skipped: nat)
    ensures problem == DelegationTimeProblem(w, o, d, now)
    ensures problem.None? ==> skipped == DelegationSkipped(w, o, d)
  {
    if !o.skipRevocation && o.revocations.None? {
      return Some(Malformed), 0;
    }
    var revs := Objects(FeedOf(o));
    var revoked, failed := FindRevocation(w, o, d, revs);
    skipped := |FeedOf(o)| - |revs| + failed;
    if revoked {
      return Some(Revoked), skipped;
    }
    problem := if now.Some? then ClockProblem(w, d, now.value) else None;
  }

  method VerifyDelegation(w: World, o: Options, d: Link, now: Option<int>) returns (r: Result<nat>)
    requires d.Delegation?
    ensures r == DelegationVerdict(w, o, d, now)
  {
    var problem := DelegationProblem(w, o, d);
    if problem.Some? {
      return Err(problem.value);
    }
    var late, skipped := CheckDelegationTime(w, o, d, now);
    return if late.Some? then Err(late.value) else Ok(skipped);
  }
}
