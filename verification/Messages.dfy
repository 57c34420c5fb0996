/** What a canonical message determines: which fields an id or a signature over it commits to. */
module Messages {
  import opened Text
  import opened Scope
  import opened RoundTrip
  import opened Canonical
  import opened Marks

  // ----- delegations -----

  /** The fields other than the two addresses are in the form the verifier checks. */
  ghost predicate ProperDelegation(d: DelegationInput) {
    && d.scopes != [] && AllCanonical(d.scopes) && OneLine(d.bondAttestation)
    && OneLine(d.issuedAt) && OneLine(d.expiresAt) && OneLine(d.nonce)
  }

  const AGENT_MARK := "\nagent: "

  function DelegationHead(principal: string, agent: string): string {
    "oc-agent:delegation:v1" + ['\n'] + ("principal: " + principal + ['\n'] + ("agent: " + agent))
  }

  lemma DelegationMessageParts(d: DelegationInput)
    ensures DelegationMessage(d) == DelegationHead(d.principal, d.agent) + ['\n'] + Join(DelegationTail(d), '\n')
  {
    var p, a := "principal: " + d.principal, "agent: " + d.agent;
    var head := ["oc-agent:delegation:v1", p, a];
    JoinConcat(head, DelegationTail(d), '\n');
    JoinConcat(["oc-agent:delegation:v1"], [p, a], '\n');
    JoinConcat([p], [a], '\n');
    assert ["oc-agent:delegation:v1"] + [p, a] == head && [p] + [a] == [p, a];
  }

  lemma SixOneLine(a: string, b: string, c: string, d: string, e: string, f: string)
    requires OneLine(a) && OneLine(b) && OneLine(c) && OneLine(d) && OneLine(e) && OneLine(f)
    ensures AllOneLine([a, b, c, d, e, f])
  {
  }

  lemma IntegerIsOneLine(s: string)
    requires IsInteger(s)
    ensures OneLine(s)
  {
    assert s == [s[0]] + s[1..];
    assert forall i | 0 <= i < |s[1..]| :: IsDigit(s[1..][i]);
  }

  lemma BondIsOneLine(sats: int, attestation: string)
    requires OneLine(attestation)
    ensures OneLine("bond_sats: " + IntegerText(sats)) && OneLine("bond_attestation: " + attestation)
  {
    IntegerIsOneLine(IntegerText(sats));
    OneLineConcat("bond_sats: ", IntegerText(sats));
    OneLineConcat("bond_attestation: ", attestation);
  }

  lemma TimesAreOneLine(issuedAt: string, expiresAt: string, nonce: string)
    requires OneLine(issuedAt) && OneLine(expiresAt) && OneLine(nonce)
    ensures OneLine("issued_at: " + issuedAt) && OneLine("expires_at: " + expiresAt) && OneLine("nonce: " + nonce)
  {
    OneLineConcat("issued_at: ", issuedAt);
    OneLineConcat("expires_at: ", expiresAt);
    OneLineConcat("nonce: ", nonce);
  }

  lemma DelegationTailIsOneLine(d: DelegationInput)
    requires ProperDelegation(d)
    ensures AllOneLine(DelegationTail(d))
  {
    ScopesLineIsOneLine(d.scopes);
    BondIsOneLine(d.bondSats, d.bondAttestation);
    TimesAreOneLine(d.issuedAt, d.expiresAt, d.nonce);
    SixOneLine("scopes: " + Join(d.scopes, ','), "bond_sats: " + IntegerText(d.bondSats),
               "bond_attestation: " + d.bondAttestation, "issued_at: " + d.issuedAt,
               "expires_at: " + d.expiresAt, "nonce: " + d.nonce);
  }

  lemma DelegationTailDecodes(d: DelegationInput, e: DelegationInput)
    requires ProperDelegation(d) && ProperDelegation(e) && DelegationTail(d) == DelegationTail(e)
    ensures e == d.(principal := e.principal, agent := e.agent)
  {
    var x, y := DelegationTail(d), DelegationTail(e);
    assert x[0] == y[0] && x[1] == y[1] && x[2] == y[2] && x[3] == y[3] && x[4] == y[4] && x[5] == y[5];
    ScopesLineDecodes(d.scopes, e.scopes);
    Cancel("bond_sats: ", IntegerText(d.bondSats), IntegerText(e.bondSats));
    Cancel("bond_attestation: ", d.bondAttestation, e.bondAttestation);
    Cancel("issued_at: ", d.issuedAt, e.issuedAt);
    Cancel("expires_at: ", d.expiresAt, e.expiresAt);
    Cancel("nonce: ", d.nonce, e.nonce);
  }

  lemma DelegationHeadDecodes(p: string, a: string, q: string, b: string)
    ensures DelegationHead(p, a) == DelegationHead(q, b) <==> p + AGENT_MARK + a == q + AGENT_MARK + b
  {
    var x, y := p + ['\n'] + ("agent: " + a), q + ['\n'] + ("agent: " + b);
    assert x == p + AGENT_MARK + a && y == q + AGENT_MARK + b;
    assert "principal: " + p + ['\n'] + ("agent: " + a) == "principal: " + x;
    assert "principal: " + q + ['\n'] + ("agent: " + b) == "principal: " + y;
    if DelegationHead(p, a) == DelegationHead(q, b) {
      Cancel("oc-agent:delegation:v1" + ['\n'], "principal: " + x, "principal: " + y);
      Cancel("principal: ", x, y);
    }
  }

  /** Equal messages agree on every field but perhaps where the principal ends and the agent begins. */
  lemma DelegationMessageDecodes(d: DelegationInput, e: DelegationInput)
    requires ProperDelegation(d) && ProperDelegation(e) && DelegationMessage(d) == DelegationMessage(e)
    ensures d.principal + AGENT_MARK + d.agent == e.principal + AGENT_MARK + e.agent
    ensures e == d.(principal := e.principal, agent := e.agent)
  {
    DelegationMessageParts(d);
    DelegationMessageParts(e);
    DelegationTailIsOneLine(d);
    DelegationTailIsOneLine(e);
    TailDecodes(DelegationHead(d.principal, d.agent), DelegationTail(d),
                DelegationHead(e.principal, e.agent), DelegationTail(e));
    DelegationHeadDecodes(d.principal, d.agent, e.principal, e.agent);
    DelegationTailDecodes(d, e);
  }

  lemma AgentMarkIsApart()
    ensures Apart(AGENT_MARK, AGENT_MARK)
  {
    ApartByLines(AGENT_MARK, AGENT_MARK, 0);
  }

  lemma OneLineLacksMark(s: string, m: string)
    requires OneLine(s) && m != "" && m[0] == '\n'
    ensures !Contains(s, m)
  {
    if Contains(s, m) {
      OccurrenceHoldsFirst(s, m);
    }
  }

  /** The agent line's mark begins nowhere past the start of the principal and ends nowhere before
      the end of the agent. */
  predicate Unmarked(principal: string, agent: string) {
    !HoldsLate(principal, AGENT_MARK) && !HoldsEarly(agent, AGENT_MARK)
  }

  lemma OneLineIsUnmarked(principal: string, agent: string)
    requires OneLine(principal) && OneLine(agent)
    ensures Unmarked(principal, agent)
  {
    if principal != "" {
      OneLineLacksMark(principal[1..], AGENT_MARK);
    }
    if agent != "" {
      OneLineLacksMark(agent[..|agent| - 1], AGENT_MARK);
    }
  }

  /** The fields have the form a delegation's shape check asks for. */
  ghost predicate AdmittedDelegation(d: DelegationInput) {
    && d.principal != "" && d.agent != ""
    && d.scopes != [] && AllCanonical(d.scopes)
    && 0 <= d.bondSats && (d.bondAttestation == "none" || IsHex(d.bondAttestation, 64))
    && IsIsoUtc(d.issuedAt) && IsIsoUtc(d.expiresAt) && IsHex(d.nonce, 32)
  }

  lemma AdmittedDelegationIsProper(d: DelegationInput)
    requires AdmittedDelegation(d)
    ensures ProperDelegation(d)
  {
    IsoIsOneLine(d.issuedAt);
    IsoIsOneLine(d.expiresAt);
    HexIsOneLine(d.nonce);
  }

  /** Moving such a mark into the message's own line gives another reading, admitted like the first. */
  lemma DelegationCollision(d: DelegationInput) returns (e: DelegationInput)
    requires AdmittedDelegation(d) && !Unmarked(d.principal, d.agent)
    ensures AdmittedDelegation(e) && e != d && DelegationMessage(e) == DelegationMessage(d)
    ensures e == d.(principal := e.principal, agent := e.agent)
  {
    var q, b := PairCollision(d.principal, d.agent, AGENT_MARK);
    e := d.(principal := q, agent := b);
    DelegationHeadDecodes(d.principal, d.agent, q, b);
    DelegationMessageParts(d);
    DelegationMessageParts(e);
  }

  /** Among admitted delegations a message determines all of its fields, whatever the other addresses
      look like, exactly when its own addresses are unmarked. */
  lemma DelegationMessageBinds(d: DelegationInput)
    requires AdmittedDelegation(d)
    ensures (forall e | AdmittedDelegation(e) && DelegationMessage(e) == DelegationMessage(d) :: e == d)
       <==> Unmarked(d.principal, d.agent)
  {
    if Unmarked(d.principal, d.agent) {
      AgentMarkIsApart();
      AdmittedDelegationIsProper(d);
      forall e | AdmittedDelegation(e) && DelegationMessage(e) == DelegationMessage(d) ensures e == d {
        AdmittedDelegationIsProper(e);
        DelegationMessageDecodes(d, e);
        PairReadsOneWay(d.principal, d.agent, e.principal, e.agent, AGENT_MARK);
      }
    } else {
      var e := DelegationCollision(d);
      assert AdmittedDelegation(e) && DelegationMessage(e) == DelegationMessage(d) && e != d;
    }
  }

  // ----- sub-delegations -----

  /** The fields other than the two addresses are in the form the verifier checks. */
  ghost predicate ProperSubdelegation(d: SubdelegationInput) {
    && d.scopes != [] && AllCanonical(d.scopes) && OneLine(d.parentId)
    && OneLine(d.issuedAt) && OneLine(d.expiresAt) && OneLine(d.nonce)
  }

  lemma JoinStep(line: string, rest: seq<string>)
    requires rest != []
    ensures Join([line] + rest, '\n') == line + ['\n'] + Join(rest, '\n')
  {
    assert ([line] + rest)[1..] == rest;
  }

  function SubdelegationHead(parentId: string, principal: string, agent: string): string {
    "oc-agent:subdelegation:v1" + ['\n'] + ("parent_id: " + parentId) + ['\n'] + ("principal: " + principal) + ['\n']
    + ("agent: " + agent)
  }

  function SubdelegationTail(d: SubdelegationInput): seq<string> {
    ["scopes: " + Join(d.scopes, ','), "issued_at: " + d.issuedAt, "expires_at: " + d.expiresAt, "nonce: " + d.nonce]
  }

  lemma FiveJoined(v: string, x: string, y: string, z: string, last: string)
    ensures Join([v, x, y, z, last], '\n') == (v + ['\n'] + x + ['\n'] + y + ['\n'] + z) + ['\n'] + last
  {
    JoinStep(z, [last]);
    JoinStep(y, [z, last]);
    JoinStep(x, [y, z, last]);
    JoinStep(v, [x, y, z, last]);
    assert [v] + [x, y, z, last] == [v, x, y, z, last] && [x] + [y, z, last] == [x, y, z, last];
    assert [y] + [z, last] == [y, z, last] && [z] + [last] == [z, last];
  }

  lemma FourJoined(v: string, x: string, y: string, z: string)
    ensures Join([v, x, y, z], '\n') == v + ['\n'] + x + ['\n'] + y + ['\n'] + z
  {
    JoinStep(y, [z]);
    JoinStep(x, [y, z]);
    JoinStep(v, [x, y, z]);
    assert [v] + [x, y, z] == [v, x, y, z] && [x] + [y, z] == [x, y, z] && [y] + [z] == [y, z];
  }

  lemma SubdelegationMessageParts(d: SubdelegationInput)
    ensures SubdelegationMessage(d)
         == SubdelegationHead(d.parentId, d.principal, d.agent) + ['\n'] + Join(SubdelegationTail(d), '\n')
  {
    var i, p, a := "parent_id: " + d.parentId, "principal: " + d.principal, "agent: " + d.agent;
    var head := ["oc-agent:subdelegation:v1", i, p, a];
    FourJoined("oc-agent:subdelegation:v1", i, p, a);
    JoinConcat(head, SubdelegationTail(d), '\n');
    assert head + SubdelegationTail(d) == ["oc-agent:subdelegation:v1", i, p, a,
      "scopes: " + Join(d.scopes, ','), "issued_at: " + d.issuedAt, "expires_at: " + d.expiresAt, "nonce: " + d.nonce];
  }

  lemma SubdelegationTailIsOneLine(d: SubdelegationInput)
    requires ProperSubdelegation(d)
    ensures AllOneLine(SubdelegationTail(d))
  {
    ScopesLineIsOneLine(d.scopes);
    TimesAreOneLine(d.issuedAt, d.expiresAt, d.nonce);
  }

  lemma SubdelegationTailDecodes(d: SubdelegationInput, e: SubdelegationInput)
    requires ProperSubdelegation(d) && ProperSubdelegation(e) && SubdelegationTail(d) == SubdelegationTail(e)
    ensures e == d.(parentId := e.parentId, principal := e.principal, agent := e.agent)
  {
    var x, y := SubdelegationTail(d), SubdelegationTail(e);
    assert x[0] == y[0] && x[1] == y[1] && x[2] == y[2] && x[3] == y[3];
    ScopesLineDecodes(d.scopes, e.scopes);
    Cancel("issued_at: ", d.issuedAt, e.issuedAt);
    Cancel("expires_at: ", d.expiresAt, e.expiresAt);
    Cancel("nonce: ", d.nonce, e.nonce);
  }

  lemma HeadRegrouped(v: string, i: string, k: string, p: string, l: string, a: string)
    ensures v + ['\n'] + i + ['\n'] + (k + p) + ['\n'] + (l + a)
         == (v + ['\n']) + (i + ['\n'] + (k + (p + (['\n'] + l) + a)))
  {
  }

  lemma SubdelegationHeadParts(i: string, p: string, a: string)
    ensures SubdelegationHead(i, p, a)
         == ("oc-agent:subdelegation:v1" + ['\n'])
            + ("parent_id: " + i + ['\n'] + ("principal: " + (p + AGENT_MARK + a)))
  {
    HeadRegrouped("oc-agent:subdelegation:v1", "parent_id: " + i, "principal: ", p, "agent: ", a);
    assert ['\n'] + "agent: " == AGENT_MARK;
  }

  lemma SubdelegationHeadDecodes(i: string, p: string, a: string, j: string, q: string, b: string)
    requires OneLine(i) && OneLine(j) && SubdelegationHead(i, p, a) == SubdelegationHead(j, q, b)
    ensures i == j && p + AGENT_MARK + a == q + AGENT_MARK + b
  {
    var x, y := "principal: " + (p + AGENT_MARK + a), "principal: " + (q + AGENT_MARK + b);
    SubdelegationHeadParts(i, p, a);
    SubdelegationHeadParts(j, q, b);
    Cancel("oc-agent:subdelegation:v1" + ['\n'], "parent_id: " + i + ['\n'] + x, "parent_id: " + j + ['\n'] + y);
    OneLineConcat("parent_id: ", i);
    OneLineConcat("parent_id: ", j);
    CutFirst("parent_id: " + i, x, "parent_id: " + j, y, '\n');
    Cancel("parent_id: ", i, j);
    Cancel("principal: ", p + AGENT_MARK + a, q + AGENT_MARK + b);
  }

  /** Equal messages agree on every field but perhaps where the principal ends and the agent begins. */
  lemma SubdelegationMessageDecodes(d: SubdelegationInput, e: SubdelegationInput)
    requires ProperSubdelegation(d) && ProperSubdelegation(e) && SubdelegationMessage(d) == SubdelegationMessage(e)
    ensures d.principal + AGENT_MARK + d.agent == e.principal + AGENT_MARK + e.agent
    ensures e == d.(principal := e.principal, agent := e.agent)
  {
    SubdelegationMessageParts(d);
    SubdelegationMessageParts(e);
    SubdelegationTailIsOneLine(d);
    SubdelegationTailIsOneLine(e);
    TailDecodes(SubdelegationHead(d.parentId, d.principal, d.agent), SubdelegationTail(d),
                SubdelegationHead(e.parentId, e.principal, e.agent), SubdelegationTail(e));
    SubdelegationHeadDecodes(d.parentId, d.principal, d.agent, e.parentId, e.principal, e.agent);
    SubdelegationTailDecodes(d, e);
  }

  /** The fields have the form a sub-delegation's shape check asks for. */
  ghost predicate AdmittedSubdelegation(d: SubdelegationInput) {
    && d.principal != "" && d.agent != "" && IsHex(d.parentId, 64)
    && d.scopes != [] && AllCanonical(d.scopes)
    && IsIsoUtc(d.issuedAt) && IsIsoUtc(d.expiresAt) && IsHex(d.nonce, 32)
  }

  lemma AdmittedSubdelegationIsProper(d: SubdelegationInput)
    requires AdmittedSubdelegation(d)
    ensures ProperSubdelegation(d)
  {
    IsoIsOneLine(d.issuedAt);
    IsoIsOneLine(d.expiresAt);
    HexIsOneLine(d.nonce);
    HexIsOneLine(d.parentId);
  }

  /** Moving a mark into the message's own line gives another reading, admitted like the first. */
  lemma SubdelegationCollision(d: SubdelegationInput) returns (e: SubdelegationInput)
    requires AdmittedSubdelegation(d) && !Unmarked(d.principal, d.agent)
    ensures AdmittedSubdelegation(e) && e != d && SubdelegationMessage(e) == SubdelegationMessage(d)
    ensures e == d.(principal := e.principal, agent := e.agent)
  {
    var q, b := PairCollision(d.principal, d.agent, AGENT_MARK);
    e := d.(principal := q, agent := b);
    SubdelegationHeadParts(d.parentId, d.principal, d.agent);
    SubdelegationHeadParts(d.parentId, q, b);
    SubdelegationMessageParts(d);
    SubdelegationMessageParts(e);
  }

  /** Among admitted sub-delegations a message determines all of its fields, whatever the other
      addresses look like, exactly when its own addresses are unmarked. */
  lemma SubdelegationMessageBinds(d: SubdelegationInput)
    requires AdmittedSubdelegation(d)
    ensures (forall e | AdmittedSubdelegation(e) && SubdelegationMessage(e) == SubdelegationMessage(d) :: e == d)
       <==> Unmarked(d.principal, d.agent)
  {
    if Unmarked(d.principal, d.agent) {
      AgentMarkIsApart();
      AdmittedSubdelegationIsProper(d);
      forall e | AdmittedSubdelegation(e) && SubdelegationMessage(e) == SubdelegationMessage(d) ensures e == d {
        AdmittedSubdelegationIsProper(e);
        SubdelegationMessageDecodes(d, e);
        PairReadsOneWay(d.principal, d.agent, e.principal, e.agent, AGENT_MARK);
      }
    } else {
      var e := SubdelegationCollision(d);
      assert AdmittedSubdelegation(e) && SubdelegationMessage(e) == SubdelegationMessage(d) && e != d;
    }
  }

  /** A root and a sub-delegation never share a message. */
  lemma RootIsNotSub(d: DelegationInput, e: SubdelegationInput)
    ensures DelegationMessage(d) != SubdelegationMessage(e)
  {
    DelegationMessageParts(d);
    SubdelegationMessageParts(e);
    assert DelegationMessage(d)[9] == 'd' && SubdelegationMessage(e)[9] == 's';
  }

  // ----- actions -----

  function ActionHead(a: ActionInput): seq<string> {
    ["oc-agent:action:v1", "address: " + a.address, "content_hash: " + a.contentHash,
     "content_length: " + IntegerText(a.contentLength), "content_mime: " + a.contentMime]
  }

  function ActionTail(a: ActionInput): seq<string> {
    ["signed_at: " + a.signedAt, "delegation_id: " + a.delegationId, "scope_exercised: " + a.scopeExercised]
  }

  /** The last three fields are in the form the verifier checks. */
  ghost predicate ProperAction(a: ActionInput) {
    OneLine(a.signedAt) && OneLine(a.delegationId) && OneLine(a.scopeExercised)
  }

  lemma ActionTailIsOneLine(a: ActionInput)
    requires ProperAction(a)
    ensures AllOneLine(ActionTail(a))
  {
    OneLineConcat("signed_at: ", a.signedAt);
    OneLineConcat("delegation_id: ", a.delegationId);
    OneLineConcat("scope_exercised: ", a.scopeExercised);
  }

  predicate OneLineHead(a: ActionInput) { OneLine(a.address) && OneLine(a.contentHash) && OneLine(a.contentMime) }

  const HASH_MARK := "\ncontent_hash: "

  const PREFIX := "sha256:"

  /** The end of an address and the beginning of any content hash the verifier admits. */
  const SHA_MARK := HASH_MARK + PREFIX

  /** The end of a content hash, a length, and the beginning of a media type. */
  function LengthMark(n: int): string { "\ncontent_length: " + (IntegerText(n) + (['\n'] + "content_mime: ")) }

  /** The part of an action message between its heading and `signed_at`. */
  function ActionBody(a: ActionInput): string {
    a.address + HASH_MARK + (a.contentHash + LengthMark(a.contentLength) + a.contentMime)
  }

  lemma BodyRegrouped(v: string, ka: string, a: string, kb: string, b: string, kc: string, c: string,
                      kd: string, d: string)
    ensures v + ['\n'] + (ka + a) + ['\n'] + (kb + b) + ['\n'] + (kc + c) + ['\n'] + (kd + d)
         == (v + ['\n'] + ka) + (a + (['\n'] + kb) + (b + (['\n'] + kc + (c + (['\n'] + kd))) + d))
  {
  }

  lemma ActionHeadParts(a: ActionInput)
    ensures Join(ActionHead(a), '\n') == ("oc-agent:action:v1" + ['\n'] + "address: ") + ActionBody(a)
  {
    var length := IntegerText(a.contentLength);
    FiveJoined("oc-agent:action:v1", "address: " + a.address, "content_hash: " + a.contentHash,
               "content_length: " + length, "content_mime: " + a.contentMime);
    BodyRegrouped("oc-agent:action:v1", "address: ", a.address, "content_hash: ", a.contentHash,
                  "content_length: ", length, "content_mime: ", a.contentMime);
    assert ['\n'] + "content_hash: " == HASH_MARK;
    assert ['\n'] + "content_length: " == "\ncontent_length: ";
  }

  lemma ActionMessageParts(a: ActionInput)
    ensures ActionMessage(a)
         == ("oc-agent:action:v1" + ['\n'] + "address: ") + ActionBody(a) + ['\n'] + Join(ActionTail(a), '\n')
  {
    JoinConcat(ActionHead(a), ActionTail(a), '\n');
    ActionHeadParts(a);
  }

  lemma TailFixesRest(a: ActionInput, b: ActionInput)
    requires ActionTail(a) == ActionTail(b)
    ensures a.signedAt == b.signedAt && a.delegationId == b.delegationId && a.scopeExercised == b.scopeExercised
  {
    var x, y := ActionTail(a), ActionTail(b);
    assert x[0] == y[0] && x[1] == y[1] && x[2] == y[2];
    Cancel("signed_at: ", a.signedAt, b.signedAt);
    Cancel("delegation_id: ", a.delegationId, b.delegationId);
    Cancel("scope_exercised: ", a.scopeExercised, b.scopeExercised);
  }

  /** Equal messages have one body, and agree on when the action was signed, under which
      delegation, and the scope exercised. */
  lemma ActionMessageDecodes(a: ActionInput, b: ActionInput)
    requires ProperAction(a) && ProperAction(b) && ActionMessage(a) == ActionMessage(b)
    ensures a.signedAt == b.signedAt && a.delegationId == b.delegationId && a.scopeExercised == b.scopeExercised
    ensures ActionBody(a) == ActionBody(b)
  {
    var heading := "oc-agent:action:v1" + ['\n'] + "address: ";
    var x, y := ActionTail(a), ActionTail(b);
    ActionMessageParts(a);
    ActionMessageParts(b);
    ActionTailIsOneLine(a);
    ActionTailIsOneLine(b);
    TailDecodes(heading + ActionBody(a), x, heading + ActionBody(b), y);
    Cancel(heading, ActionBody(a), ActionBody(b));
    TailFixesRest(a, b);
  }

  lemma LengthMarkLines(n: int)
    ensures var m := LengthMark(n);
            && |m| > 17 && m[0] == '\n' && m[9] == 'l'
            && forall k | 0 < k < |m| && m[k] == '\n' :: k + 9 < |m| && m[k + 9] == 'm'
  {
    var digits, rest := IntegerText(n), ['\n'] + "content_mime: ";
    IntegerIsOneLine(digits);
    var m := LengthMark(n);
    assert forall k | 0 < k < 17 :: m[k] == "\ncontent_length: "[k] != '\n';
    assert forall k | 17 <= k < 17 + |digits| :: m[k] == digits[k - 17];
    assert forall k | 17 + |digits| <= k < |m| :: m[k] == rest[k - 17 - |digits|];
    assert forall k | 0 < k < |rest| :: rest[k] != '\n';
    assert rest[9] == 'm';
  }

  /** A label that opens with the end of one line and the name of a content hash's. */
  ghost predicate NamesHash(f: string) {
    && |f| > 9 && f[0] == '\n' && f[9] == 'h' && forall k | 0 < k < |f| :: f[k] != '\n'
  }

  lemma HashMarksNameHash()
    ensures NamesHash(HASH_MARK) && NamesHash(SHA_MARK)
  {
    assert SHA_MARK == "\ncontent_hash: sha256:";
  }

  lemma ActionMarksAreApart(f: string, n: int, l: int)
    requires NamesHash(f)
    ensures Apart(f, f) && Apart(f, LengthMark(n)) && Apart(LengthMark(n), f) && Apart(LengthMark(n), LengthMark(l))
    ensures !Overlaps(LengthMark(n), f, 0)
  {
    var m := LengthMark(n);
    LengthMarkLines(n);
    LengthMarkLines(l);
    ApartByLines(f, f, 0);
    ApartByLines(f, m, 0);
    ApartByLines(m, f, 9);
    ApartByLines(m, LengthMark(l), 9);
    assert m[0 + 9] != f[9];
  }

  lemma LengthReadsOneWay(l: int, x: string, n: int, y: string)
    requires LengthMark(l) + x == LengthMark(n) + y
    ensures l == n && x == y
  {
    IntegerIsOneLine(IntegerText(l));
    IntegerIsOneLine(IntegerText(n));
    LabelledReadsOneWay("\ncontent_length: ", "content_mime: ", IntegerText(l), x, IntegerText(n), y);
  }

  /** Cut at a hash's label `f` and at a length, a text gives one address and one rest. */
  lemma AddressReadsOneWay(f: string, a: string, h: string, l: int, x: string, b: string, g: string, n: int, y: string)
    requires a + f + (h + LengthMark(l) + x) == b + f + (g + LengthMark(n) + y) && NamesHash(f)
    requires !Contains(a, f) || (b != "" && !HoldsLate(a, f))
    requires !Contains(h, f) && !Contains(x, LengthMark(n))
    ensures a == b && h + LengthMark(l) + x == g + LengthMark(n) + y
  {
    var s, t := h + LengthMark(l) + x, g + LengthMark(n) + y;
    ActionMarksAreApart(f, l, n);
    CutsNoLater(a, f, h, LengthMark(l), x, b, g, LengthMark(n), y);
    if |b| < |a| {
      CutMoves(b, f, t, a, f, s);
      if b != "" {
        LateAt(a, f, |b|);
      }
    }
    SameCut(a, f, s, b, f, t);
  }

  lemma ContentReadsOneWay(h: string, l: int, x: string, g: string, n: int, y: string)
    requires h + LengthMark(l) + x == g + LengthMark(n) + y
    requires !Contains(h, LengthMark(n)) && !Contains(x, LengthMark(n))
    ensures h == g && l == n && x == y
  {
    HashMarksNameHash();
    ActionMarksAreApart(HASH_MARK, l, n);
    ActionMarksAreApart(HASH_MARK, n, l);
    FrontsAgree(h, LengthMark(l), x, g, LengthMark(n), y);
    LengthReadsOneWay(l, x, n, y);
  }

  /** The fields have the form an action's shape check asks for. */
  ghost predicate AdmittedAction(a: ActionInput) {
    && a.address != "" && PREFIX <= a.contentHash && 0 <= a.contentLength
    && IsIsoUtc(a.signedAt) && IsHex(a.delegationId, 64) && OneLine(a.scopeExercised)
  }

  lemma AdmittedActionIsProper(a: ActionInput)
    requires AdmittedAction(a)
    ensures ProperAction(a)
  {
    IsoIsOneLine(a.signedAt);
    HexIsOneLine(a.delegationId);
  }

  /** What follows the prefix of a content hash. */
  function Digest(a: ActionInput): string
    requires PREFIX <= a.contentHash
  {
    a.contentHash[|PREFIX|..]
  }

  lemma PrefixRegroups(a: string, f: string, p: string, h: string, m: string, x: string)
    ensures a + f + ((p + h) + m + x) == a + (f + p) + (h + m + x)
  {
  }

  lemma AdmittedBody(a: ActionInput)
    requires PREFIX <= a.contentHash
    ensures ActionBody(a) == a.address + SHA_MARK + (Digest(a) + LengthMark(a.contentLength) + a.contentMime)
  {
    assert a.contentHash == PREFIX + Digest(a);
    PrefixRegroups(a.address, HASH_MARK, PREFIX, Digest(a), LengthMark(a.contentLength), a.contentMime);
  }

  /** The text holds a length's two labels around some length. */
  ghost predicate HoldsLength(s: string) { exists n: nat :: Contains(s, LengthMark(n)) }

  /** No field holds the labels that would let it be read as two: a hash's label and prefix past the
      start of the address or in the hash, or a length's two labels in the hash or the media type. */
  ghost predicate PlainAction(a: ActionInput)
    requires PREFIX <= a.contentHash
  {
    && !HoldsLate(a.address, SHA_MARK) && !Contains(Digest(a), SHA_MARK)
    && !HoldsLength(Digest(a)) && !HoldsLength(a.contentMime)
  }

  /** None of an action's own fields holding a label, a second admitted action with its body is the same. */
  lemma BodyReadsOneWay(a: ActionInput, b: ActionInput)
    requires AdmittedAction(a) && AdmittedAction(b) && PlainAction(a) && ActionBody(a) == ActionBody(b)
    ensures a.address == b.address && a.contentHash == b.contentHash
    ensures a.contentLength == b.contentLength && a.contentMime == b.contentMime
  {
    AdmittedBody(a);
    AdmittedBody(b);
    HashMarksNameHash();
    AddressReadsOneWay(SHA_MARK, a.address, Digest(a), a.contentLength, a.contentMime,
                       b.address, Digest(b), b.contentLength, b.contentMime);
    ContentReadsOneWay(Digest(a), a.contentLength, a.contentMime, Digest(b), b.contentLength, b.contentMime);
    assert a.contentHash == PREFIX + Digest(a) && b.contentHash == PREFIX + Digest(b);
  }

  lemma ContentRegroups(f: string, m: string, g: string, n: string, x: string)
    ensures (f + m + g) + n + x == f + m + (g + n + x)
  {
  }

  /** A length's labels inside the hash or the media type give another reading of the content. */
  lemma ContentCollision(h: string, l: int, x: string) returns (g: string, n: nat, y: string)
    requires HoldsLength(h) || HoldsLength(x)
    ensures g + LengthMark(n) + y == h + LengthMark(l) + x && |g| != |h|
  {
    var s := if HoldsLength(h) then h else x;
    n :| Contains(s, LengthMark(n));
    var m := LengthMark(n);
    SplitAtMark(s, m);
    LengthMarkLines(n);
    LengthMarkLines(l);
    var i := IndexOf(s, m);
    if HoldsLength(h) {
      g, y := h[..i], h[i + |m|..] + LengthMark(l) + x;
      ContentRegroups(g, m, h[i + |m|..], LengthMark(l), x);
    } else {
      g, y := h + LengthMark(l) + x[..i], x[i + |m|..];
      ContentRegroups(h, LengthMark(l), x[..i], m, y);
    }
  }

  lemma SameBodySameMessage(a: ActionInput, b: ActionInput)
    requires ActionBody(a) == ActionBody(b) && ActionTail(a) == ActionTail(b)
    ensures ActionMessage(a) == ActionMessage(b)
  {
    ActionMessageParts(a);
    ActionMessageParts(b);
  }

  lemma FrontRegroups(p: string, f: string, h: string, m: string, x: string)
    ensures p + f + (h + m + x) == (p + f + h) + m + x
  {
  }

  /** A second way to cut the address from the hash. */
  lemma AddressCollision(a: ActionInput) returns (b: ActionInput)
    requires AdmittedAction(a) && (HoldsLate(a.address, SHA_MARK) || Contains(Digest(a), SHA_MARK))
    ensures AdmittedAction(b) && b != a && ActionBody(b) == ActionBody(a)
    ensures b == a.(address := b.address, contentHash := b.contentHash)
  {
    var p, h;
    HashMarksNameHash();
    if HoldsLate(a.address, SHA_MARK) {
      p, h := FrontCollision(a.address, SHA_MARK, Digest(a), SHA_MARK);
    } else {
      p, h := BackCollision(a.address, SHA_MARK, Digest(a), SHA_MARK);
    }
    b := a.(address := p, contentHash := PREFIX + h);
    assert Digest(b) == h;
    AdmittedBody(a);
    AdmittedBody(b);
    FrontRegroups(a.address, SHA_MARK, Digest(a), LengthMark(a.contentLength), a.contentMime);
    FrontRegroups(p, SHA_MARK, h, LengthMark(a.contentLength), a.contentMime);
  }

  /** A second way to cut the hash from the media type. */
  lemma LengthCollision(a: ActionInput) returns (b: ActionInput)
    requires AdmittedAction(a) && (HoldsLength(Digest(a)) || HoldsLength(a.contentMime))
    ensures AdmittedAction(b) && b != a && ActionBody(b) == ActionBody(a)
    ensures b == a.(contentHash := b.contentHash, contentLength := b.contentLength, contentMime := b.contentMime)
  {
    var g, n, y := ContentCollision(Digest(a), a.contentLength, a.contentMime);
    b := a.(contentHash := PREFIX + g, contentLength := n, contentMime := y);
    assert Digest(b) == g;
    AdmittedBody(a);
    AdmittedBody(b);
  }

  /** A field that holds a label gives another reading of the message, admitted like the first. */
  lemma ActionCollision(a: ActionInput) returns (b: ActionInput)
    requires AdmittedAction(a) && !PlainAction(a)
    ensures AdmittedAction(b) && b != a && ActionMessage(b) == ActionMessage(a)
    ensures ActionTail(b) == ActionTail(a)
  {
    if HoldsLength(Digest(a)) || HoldsLength(a.contentMime) {
      b := LengthCollision(a);
    } else {
      b := AddressCollision(a);
    }
    SameBodySameMessage(a, b);
  }

  /** Among admitted actions a message determines all of its fields, whatever the other fields look
      like, exactly when none of its own holds the labels that would let it be read as two. */
  lemma ActionMessageBinds(a: ActionInput)
    requires AdmittedAction(a)
    ensures (forall b | AdmittedAction(b) && ActionMessage(b) == ActionMessage(a) :: b == a) <==> PlainAction(a)
  {
    if PlainAction(a) {
      AdmittedActionIsProper(a);
      forall b | AdmittedAction(b) && ActionMessage(b) == ActionMessage(a) ensures b == a {
        AdmittedActionIsProper(b);
        ActionMessageDecodes(a, b);
        BodyReadsOneWay(a, b);
      }
    } else {
      var b := ActionCollision(a);
      assert AdmittedAction(b) && ActionMessage(b) == ActionMessage(a) && b != a;
    }
  }

  /** With address, hash and media type on one line each, no other action whatever has the message,
      admitted or not. */
  lemma OneLineActionBinds(a: ActionInput, b: ActionInput)
    requires ProperAction(a) && OneLineHead(a)
    requires ProperAction(b) && ActionMessage(b) == ActionMessage(a)
    ensures b == a
  {
    var m := LengthMark(b.contentLength);
    ActionMessageDecodes(a, b);
    HashMarksNameHash();
    OneLineLacksMark(a.address, HASH_MARK);
    OneLineLacksMark(a.contentHash, HASH_MARK);
    OneLineLacksMark(a.contentHash, m);
    OneLineLacksMark(a.contentMime, m);
    AddressReadsOneWay(HASH_MARK, a.address, a.contentHash, a.contentLength, a.contentMime,
                       b.address, b.contentHash, b.contentLength, b.contentMime);
    ContentReadsOneWay(a.contentHash, a.contentLength, a.contentMime, b.contentHash, b.contentLength, b.contentMime);
  }

  // ----- revocations -----

  ghost predicate ProperRevocation(r: RevocationInput) { IsHex(r.delegationId, 64) && OneLine(r.signedAt) }

  /** The end of an address, a delegation's id, and the beginning of a reason. */
  function IdMark(id: string): string { "\ndelegation_id: " + (id + "\nreason: ") }

  /** The part of a revocation message between its heading and `signed_at`. */
  function RevocationBody(r: RevocationInput): string { r.address + IdMark(r.delegationId) + r.reason }

  lemma RevocationRegrouped(v: string, ka: string, a: string, kb: string, b: string, kc: string, c: string)
    ensures v + ['\n'] + (ka + a) + ['\n'] + (kb + b) + ['\n'] + (kc + c)
         == (v + ['\n'] + ka) + (a + (['\n'] + kb + (b + (['\n'] + kc))) + c)
  {
  }

  lemma RevocationMessageParts(r: RevocationInput)
    ensures RevocationMessage(r)
         == ("oc-agent:revocation:v1" + ['\n'] + "address: ") + RevocationBody(r)
            + ['\n'] + ("signed_at: " + r.signedAt)
  {
    FiveJoined("oc-agent:revocation:v1", "address: " + r.address, "delegation_id: " + r.delegationId,
               "reason: " + r.reason, "signed_at: " + r.signedAt);
    RevocationRegrouped("oc-agent:revocation:v1", "address: ", r.address, "delegation_id: ", r.delegationId,
                        "reason: ", r.reason);
    assert ['\n'] + "delegation_id: " == "\ndelegation_id: " && ['\n'] + "reason: " == "\nreason: ";
  }

  lemma RevocationMessageDecodes(r: RevocationInput, s: RevocationInput)
    requires ProperRevocation(r) && ProperRevocation(s) && RevocationMessage(r) == RevocationMessage(s)
    ensures r.signedAt == s.signedAt && RevocationBody(r) == RevocationBody(s)
  {
    var heading := "oc-agent:revocation:v1" + ['\n'] + "address: ";
    RevocationMessageParts(r);
    RevocationMessageParts(s);
    CutLast(heading + RevocationBody(r), "signed_at: " + r.signedAt,
            heading + RevocationBody(s), "signed_at: " + s.signedAt, '\n');
    Cancel(heading, RevocationBody(r), RevocationBody(s));
    Cancel("signed_at: ", r.signedAt, s.signedAt);
  }

  lemma IdMarksAreApart(id: string, other: string)
    requires IsHex(id, 64) && IsHex(other, 64)
    ensures |IdMark(id)| == |IdMark(other)| && Apart(IdMark(id), IdMark(other))
  {
    var m, n, rest := IdMark(id), IdMark(other), "\nreason: ";
    assert |"\ndelegation_id: "| == 16;
    assert forall k | 0 < k < 16 :: m[k] == "\ndelegation_id: "[k] != '\n';
    assert forall k | 16 <= k < 80 :: m[k] == id[k - 16] && IsLowerHex(m[k]);
    assert forall k | 80 <= k < |m| :: m[k] == rest[k - 80];
    assert n[1] == 'd' && rest[1] == 'r';
    ApartByLines(m, n, 1);
  }

  /** The text holds the two labels around some id. */
  ghost predicate HoldsId(s: string) { exists id :: IsHex(id, 64) && Contains(s, IdMark(id)) }

  /** The text holds them past its start. */
  ghost predicate HoldsIdLate(s: string) { exists id :: IsHex(id, 64) && HoldsLate(s, IdMark(id)) }

  lemma RevocationBodyReadsOneWay(r: RevocationInput, s: RevocationInput)
    requires ProperRevocation(r) && ProperRevocation(s) && RevocationBody(r) == RevocationBody(s)
    requires !HoldsId(r.address) || (s.address != "" && !HoldsIdLate(r.address))
    requires !HoldsId(r.reason) || OneLine(s.address)
    ensures r.address == s.address && r.delegationId == s.delegationId && r.reason == s.reason
  {
    var m, n := IdMark(r.delegationId), IdMark(s.delegationId);
    IdMarksAreApart(r.delegationId, s.delegationId);
    IdMarksAreApart(s.delegationId, r.delegationId);
    if |r.address| < |s.address| {
      CutMoves(r.address, m, r.reason, s.address, n, s.reason);
      if OneLine(s.address) {
        OneLineLacksMark(s.address, m);
      }
    } else if |s.address| < |r.address| {
      CutMoves(s.address, n, s.reason, r.address, m, r.reason);
      if s.address != "" {
        LateAt(r.address, n, |s.address|);
      }
    } else {
      SameCut(r.address, m, r.reason, s.address, n, s.reason);
      assert r.delegationId == m[16..80] && s.delegationId == n[16..80];
    }
  }

  /** The fields have the form a revocation's shape check asks for. */
  ghost predicate AdmittedRevocation(r: RevocationInput) {
    r.address != "" && IsHex(r.delegationId, 64) && IsIsoUtc(r.signedAt)
  }

  /** Labels past the start of the address or inside the reason give another reading, admitted like
      the first. */
  lemma RevocationCollision(r: RevocationInput) returns (s: RevocationInput)
    requires AdmittedRevocation(r) && (HoldsIdLate(r.address) || HoldsId(r.reason))
    ensures AdmittedRevocation(s) && s != r && RevocationMessage(s) == RevocationMessage(r)
    ensures s.signedAt == r.signedAt
  {
    var id: string, p, b;
    var own := IdMark(r.delegationId);
    if HoldsIdLate(r.address) {
      id :| IsHex(id, 64) && HoldsLate(r.address, IdMark(id));
      p, b := FrontCollision(r.address, own, r.reason, IdMark(id));
    } else {
      id :| IsHex(id, 64) && Contains(r.reason, IdMark(id));
      p, b := BackCollision(r.address, own, r.reason, IdMark(id));
    }
    s := r.(address := p, delegationId := id, reason := b);
    RevocationMessageParts(r);
    RevocationMessageParts(s);
  }

  /** Among admitted revocations a message determines all of its fields, whatever the other address
      and reason look like, exactly when the labels around an id stand neither past the start of its
      own address nor in its own reason. */
  lemma RevocationMessageBinds(r: RevocationInput)
    requires AdmittedRevocation(r)
    ensures (forall s | AdmittedRevocation(s) && RevocationMessage(s) == RevocationMessage(r) :: s == r)
       <==> !HoldsIdLate(r.address) && !HoldsId(r.reason)
  {
    if HoldsIdLate(r.address) || HoldsId(r.reason) {
      var s := RevocationCollision(r);
      assert AdmittedRevocation(s) && RevocationMessage(s) == RevocationMessage(r) && s != r;
    } else {
      IsoIsOneLine(r.signedAt);
      forall s | AdmittedRevocation(s) && RevocationMessage(s) == RevocationMessage(r) ensures s == r {
        IsoIsOneLine(s.signedAt);
        RevocationMessageDecodes(r, s);
        RevocationBodyReadsOneWay(r, s);
      }
    }
  }

  /** Among signers whose addresses are on one line, the message determines every field for any
      reason text, newlines and labels and all. */
  lemma AnyReasonBinds(r: RevocationInput, s: RevocationInput)
    requires ProperRevocation(r) && ProperRevocation(s) && RevocationMessage(r) == RevocationMessage(s)
    requires OneLine(r.address) && OneLine(s.address)
    ensures r == s
  {
    forall id ensures !(IsHex(id, 64) && Contains(r.address, IdMark(id))) {
      OneLineLacksMark(r.address, IdMark(id));
    }
    RevocationMessageDecodes(r, s);
    RevocationBodyReadsOneWay(r, s);
  }
}
