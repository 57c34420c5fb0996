/** The wire envelopes, what the host and the caller supply, and refusal codes
    (agent-core/src/types.ts, agent-core/src/verify.ts options). */
module Envelopes {
  import opened Text
  import opened Registry
  import opened Canonical

  datatype Code =
    | UnsupportedVersion | Malformed | BadId | BadSig | BadScopeGrammar | NotYetValid | Expired | Revoked
    | Stale | DelegationMismatch | AgentMismatch | OutOfWindow | ScopeDenied | BadActionStamp
    | RevokerUnauthorized | DepthExceeded | PrincipalMismatch | ExpiresExtended | ScopeEscalated
    | NeitherScopes | BadFederationDescriptor | ThresholdMismatch | ThresholdNotMet | UnknownGuardian
    | DuplicateGuardian

  datatype Result<+T> = Ok(value: T) | Err(code: Code)

  /** The first refusal in a list of checks, made in order. */
  function First(problems: seq<Option<Code>>): (r: Option<Code>)
    ensures r.None? <==> forall i | 0 <= i < |problems| :: problems[i].None?
  {
    if problems == [] then None
    else if problems[0].Some? then problems[0]
    else First(problems[1..])
  }

  function Or(p: Option<Code>, q: Option<Code>): Option<Code> { if p.Some? then p else q }

  function Require(ok: bool, code: Code): Option<Code> { if ok then None else Some(code) }

  // ----- envelopes -----

  datatype Actor = Actor(address: string, alg: string)

  datatype Signature = Signature(alg: string, pubkey: string, value: string)

  datatype Bond = Bond(sats: int, attestationId: string)

  /** A link of an authority chain: the root delegation or a sub-delegation under it. */
  datatype Link =
    | Delegation(v: int, kind: string, id: string, principal: Actor, agent: Actor, scopes: Option<seq<string>>,
                 bond: Option<Bond>, issuedAt: string, expiresAt: string, nonce: string, sig: Signature)
    | Subdelegation(v: int, kind: string, id: string, parentId: string, principal: Actor, agent: Actor,
                    scopes: Option<seq<string>>, carriesBond: bool, issuedAt: string, expiresAt: string,
                    nonce: string, sig: Signature)

  datatype OtsStatus = Pending | Confirmed

  datatype Ots = Ots(status: OtsStatus, proof: string, blockHeight: Option<int>, blockHash: Option<string>)

  datatype Action = Action(
    v: int, kind: string, id: string, content: Content, signer: Actor, signedAt: string,
    delegationId: string, scopeExercised: string, ots: Option<Ots>, sig: Signature)

  /** `reason` is "" when the envelope omits it. */
  datatype Revocation = Revocation(
    v: int, kind: string, id: string, delegationId: string, signer: Actor, reason: string,
    signedAt: string, ots: Option<Ots>, sig: Signature)

  /** An entry of a revocation feed: anything may be published there. */
  datatype FeedEntry = NotAnObject | Entry(rev: Revocation)

  datatype Anchored = OfAction(action: Action) | OfRevocation(revocation: Revocation)

  type Byte = b: int | 0 <= b < 256

  // ----- what is supplied -----

  /** The host: SHA-256 in hex of a message's bytes and of raw bytes, `Date.parse` (nothing for
      no real time, else milliseconds), and Unicode lower-casing. */
  datatype World = World(
    sha: string -> string, digest: seq<Byte> -> string, time: string -> Option<int>, lower: string -> string)

  /** The caller's options. `bip322(message, signature, address)` is the wallet check. */
  datatype Options = Options(
    bip322: Option<(string, string, string) -> bool>,
    skipSignatures: bool,
    mode: Strictness,
    skipRevocation: bool,
    revocations: Option<seq<FeedEntry>>,
    maxDepth: int,
    content: Option<seq<Byte>>,
    verifyAnchor: Option<(string, int, string, string) -> bool>,
    resolveHeight: Option<Anchored -> Option<int>>,
    maxSkewMs: int)

  const DEFAULT_MAX_CHAIN_DEPTH := 5
  const DEFAULT_MAX_SKEW_MS := 120_000
  const MAX_DELEGATION_MS := 365 * 86_400_000

  // ----- the fields an id commits to -----

  function DelegationFields(d: Link): DelegationInput
    requires d.Delegation? && d.scopes.Some?
  {
    DelegationInput(d.principal.address, d.agent.address, d.scopes.value,
      if d.bond.Some? then d.bond.value.sats else 0,
      if d.bond.Some? then d.bond.value.attestationId else "none",
      d.issuedAt, d.expiresAt, d.nonce)
  }

  /** A sub-delegation commits to its scopes in canonical form and order. */
  function SubdelegationFields(s: Link): SubdelegationInput
    requires s.Subdelegation? && s.scopes.Some? && AllParse(s.scopes.value)
  {
    SubdelegationInput(s.parentId, s.principal.address, s.agent.address,
      CanonicalizeScopes(s.scopes.value).value, s.issuedAt, s.expiresAt, s.nonce)
  }

  function ActionFields(a: Action): ActionInput {
    ActionInput(a.signer.address, a.content.hash, a.content.length, a.content.mime, a.signedAt,
      a.delegationId, a.scopeExercised)
  }

  function RevocationFields(r: Revocation): RevocationInput {
    RevocationInput(r.signer.address, r.delegationId, r.reason, r.signedAt)
  }
}
