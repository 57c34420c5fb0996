# OC Agent authority core, verified

A Dafny model of the part of OC Agent that decides whether an AI agent's signed action was
authorized, and of the allowlist filter's worker pool. The statements below hold for every
input, chain length, run or interleaving; none of them is bounded.

| module | models |
|---|---|
| `Text`, `Sorting` | strings as the source uses them (`indexOf`, `trim`, `join`, decimal and hex), JavaScript's string order and stable sort |
| `Scope`, `RoundTrip` | the scope language: parser, canonical printer, and that they undo each other |
| `Registry`, `SubScope`, `Exactness` | registered scopes and values, the sub-scope relation, and what it means |
| `Canonical`, `Marks`, `Messages` | canonical scope lists, texts cut at labels, and the messages that ids and signatures commit to |
| `Envelopes`, `Verify`, `Verifier` | envelopes, every check of the verifier as a function, and the verifier's loops as methods proved to compute them |
| `Authority`, `Acceptance`, `Revocations`, `ChainIds` | what an accepted action guarantees |
| `Refusals` | the verdicts as a list of reasons: accepted exactly when none stands, and a refusal names one that does |
| `Signer` | creating a delegation, the pre-flight check, signing an action, and that the verifier accepts the results |
| `Scenario` | one whole story on concrete envelopes, with a hash that tells their messages apart: the hypotheses of the theorems are met together |
| `Federation`, `Descriptors` | the strict and the lenient M-of-N checks, and what a descriptor's message determines |
| `ReplayGuard` | the replay guard as a class, and whole runs of it beside the verifier |
| `Pool`, `Airdrop` | the worker pool as a step relation and as a method with a nondeterministic scheduler; the filter with its retry rounds |
| `Reason` | showing a revocation's reason with nothing lost |

What the program gets from outside is a parameter. `World` holds SHA-256 (in hex),
`Date.parse` (a time in milliseconds, or none) and Unicode lower-casing; `Options` holds the
caller's BIP-322 check, anchor verifier and settings. None of them is assumed to behave in any
particular way: where a theorem needs two messages not to collide under SHA-256, it says so of
those messages alone. Where the source throws or returns an error, the model returns `None` or
a refusal code.

## Limits the results establish

- **Replay guard.** `agent-core/README.md` and the comment at `agent-core/src/verify.ts:686-692`
  say an id is kept as long as the action could pass the live check. At exactly `signed_at` plus
  the bound the guard forgets the id while the action is still accepted
  (`ReplayGuard.LastInstantIsForgotten`; `Scenario.ActedOnTwice` is an instance with the default
  bounds). The window in which an accepted and used action is acted on a second time is exact: from
  `signed_at` plus the guard's bound for as long as the verifier accepts it
  (`ReplayGuard.SecondUseIsExact`), which is at most until `signed_at` plus the verifier's bound
  (`ReplayGuard.ActedOnOnce`). A guard whose bound is larger leaves no such window.
- **Canonical messages.** Addresses, content hashes and media types may hold newlines: the shape
  checks ask only that an address is non-empty text, that a hash begins with `sha256:`, that a
  length is not negative and that a media type is text. Among fields these checks admit, a message
  determines all of its fields, whatever the fields of a second reading look like, exactly under a
  condition on its own fields:
  - delegations and sub-delegations: a newline followed by `agent: ` neither begins past the start
    of the principal's address nor ends before the end of the agent's
    (`Messages.DelegationMessageBinds`, `Messages.SubdelegationMessageBinds`);
  - actions: a newline followed by `content_hash: sha256:` neither begins past the start of the
    address nor stands in the hash after its prefix, and the two labels around a length stand
    neither there nor in the media type (`Messages.ActionMessageBinds`);
  - revocations: the two labels around a delegation id neither begin past the start of the address
    nor stand in the reason (`Messages.RevocationMessageBinds`); among one-line addresses a
    revocation binds for any reason at all (`Messages.AnyReasonBinds`);
  - federation descriptors: the pieces between guardian labels cannot be grouped into as many
    non-empty addresses in text order another way (`Descriptors.DescriptorReadsOneWay`).

  When a condition fails a second reading is built that the same shape checks admit
  (`Messages.DelegationCollision` and its likes; `ChainIds.RootReadsTwice`, `ChainIds.SubReadsTwice`
  and `ChainIds.ActionReadsTwice` on whole envelopes; `Descriptors.TwoFederationsOneId`). Fields on
  one line meet the conditions.
- **A revocation's anchor.** Only the signed bytes decide whether a revocation is authentic, as the
  comment at `agent-core/src/verify.ts:791-792` says of `verifyRevocation`. Whether it counts
  against an action also reads `ots`, which no signature covers. The source documents that priority
  rule (`agent-core/src/verify.ts:1197-1202`), and this is what it comes to: for an action without a
  proven anchor, a copy that merely claims a confirmed anchor refuses the action, exactly when the
  revocation is dated after the action and, live, after the clock
  (`Revocations.AnchorMattersUnlessOnTime`, `Revocations.ClaimFlips`); against a proven one an
  unproven claim changes nothing (`Revocations.CopyStrikes`).
- **Sub-scopes.** The relation never grants what was not granted. For a strictly valid scope under
  strictly valid ones it is inclusion itself but for one family, an exercised range under a granted
  `!=`, which is refused even when it lies inside; and this holds if and only if the exercised scope
  orders only numeric keys (`Exactness.SubScopeIsExact`, `Exactness.ExactJustForThose`,
  `Exactness.PositiveKindIsRefused`). A scope that orders a text key admits no request at all
  (`Exactness.AdmitsSomething`), so it is included in everything, and it is not even its own
  sub-scope (`SubScope.SubScopeReflexive`).
- **Two entry points.** A delegation checked on its own is refused for a genuine revocation of
  any date, one dated in the future included, while an action under it passes live until that
  date (`Revocations.AcceptedDelegationStands`).

## Model

| member | source | states |
|---|---|---|
| `Scope.SplitTopLevelCommas` | agent-core/src/scope.ts:180-208 | The scanning loop with its depth, quote and skip-one-character state cuts exactly at the commas outside quotes at depth 0, `Scope.Split` being the recursive definition whose round trip is `RoundTrip.SplitJoin`. |
| `Scope.ReadValue` | agent-core/src/scope.ts:236-260 | The character loop over a value computes the recursive `ParseValue`: quotes, escapes, a bare inner quote refused, bare tokens. |
| `Scope.ParseList` | agent-core/src/scope.ts:163-168 | Pushing one parsed constraint per piece, failing on the first bad piece, is `ParsePieces`. |
| `Scope.HasDistinctKeys` | agent-core/src/scope.ts:170-175 | The set-based loop answers exactly whether no two constraints share a key. |
| `Scope.ParseScope` | agent-core/src/scope.ts:135-178 | The whole parser, failures included, computes `Parse`, the function every round-trip theorem is about. |
| `Scope.WriteQuoted` | agent-core/src/scope.ts:283-291 | The quoting loop writes the escaped text that `RoundTrip.UnescapeEscape` reads back. |
| `RoundTrip.ParseIsWellFormed` | agent-core/src/scope.ts:135-260 | Whatever the parser accepts has identifier names, distinct keys, a value for every operator but the wildcard, bare tokens unless quoted, and no white space. |
| `RoundTrip.UnescapeEscape` | agent-core/src/scope.ts:236-291 | Escaping then unescaping any value gives it back. |
| `RoundTrip.OperatorIsChosen` | agent-core/src/scope.ts:213-234 | Trying the six operators longest first on a printed constraint finds the one that was printed, where it was printed, although `=` also occurs inside `>=`, `<=` and `!=` and any operator may occur inside a quoted value. |
| `RoundTrip.ConstraintReadsBack` | agent-core/src/scope.ts:210-281 | Each well-formed constraint prints to a text that parses to it, wildcards included. |
| `RoundTrip.PrintReadsBack` | agent-core/src/scope.ts:135-281 | Printing a well-formed scope and parsing gives that scope with its constraints sorted by key. |
| `RoundTrip.RoundTrip` | agent-core/src/scope.ts:135-281 | For every accepted text, parsing its canonical form succeeds and gives the same scope with constraints sorted. |
| `RoundTrip.CanonicalIsIdempotent` | agent-core/src/scope.ts:266-275 | Canonicalizing a canonical text changes nothing. |
| `RoundTrip.PrintInjective` | agent-core/src/scope.ts:266-281 | Two scopes have one canonical text if and only if they differ at most in constraint order. |
| `RoundTrip.SplitJoin` | agent-core/src/scope.ts:180-208 | Texts balanced at the top level survive being joined with commas and split. |
| `RoundTrip.ScopeListReadsBack` | agent-core/src/canonical.ts:60-73 | A non-empty comma-joined list of canonical scopes splits back into exactly that list, quoted commas, parentheses and escapes included. |
| `RoundTrip.CanonicalIsOneLine` | agent-core/src/scope.ts:139-141 | No canonical scope holds a newline, so a scope cannot break a message's lines. |
| `RoundTrip.LegacyWildcardReads` | agent-core/src/scope.ts:213-222 | The older spelling `key*` reads as the wildcard too. |
| `RoundTrip.EscapesRead` | agent-core/src/scope.ts:243-253 | In a quoted value a backslash stands for the character after it, whatever that is, and a bare quote is refused. |
| `RoundTrip.ParsedHasNoSpaces` | agent-core/src/scope.ts:135-141 | No text with white space in it is accepted, by the code points of ECMAScript. |
| `RoundTrip.ParsedIsSpelled` | agent-core/src/scope.ts:135-260 | In an accepted text the product, the verb and every key are a lower-case letter and then lower-case letters, digits and underscores, and an unquoted value is letters, digits and `_.:/@+-`. |
| `RoundTrip.SpelledParses` | agent-core/src/scope.ts:135-222 | Everything so spelled is accepted, with no constraint or a wildcard. |
| `RoundTrip.SignedParses` | agent-core/src/scope.ts:135-260 | And with one value, each of the six signs being read as the comparison it looks like. |
| `RoundTrip.QuotedParses` | agent-core/src/scope.ts:135-260 | Any text but white space may stand in a quoted value and is read back as it is. |
| `Sorting.LessComparesUnits` | agent-core/src/canonical.ts:36-39 | The order that sorts scopes, keys and guardians is the lexicographic order of UTF-16 code units, as comparing JavaScript strings is. |
| `SubScope.RangeIsComparison` | agent-core/src/scope.ts:405-429 | The bounds taken from an operator and a decimal integer hold exactly the integers `k` with `k < n`, `k <= n`, `k > n`, `k >= n` or `k == n`, as the operator says. |
| `SubScope.RangeSubsetIsExact` | agent-core/src/scope.ts:389-429 | For two bounds that are decimal integers the comparison holds if and only if every integer that compares as the exercised operator says compares as the granted one does. |
| `SubScope.OneBoundUnderOne` | agent-core/src/scope.ts:376-384 | A scope with one bound on a numeric key is a sub-scope of another if and only if that implication of integer comparisons holds. |
| `SubScope.StrictAndWeakBoundsCoincide` | agent-core/src/scope.ts:389-429 | `<n` and `<=n-1` cover each other, and so do `>n` and `>=n+1`. |
| `SubScope.IndexByKey` | agent-core/src/scope.ts:347-348 | The map built in order gives, for each key, the last constraint on it. |
| `SubScope.CheckConstraint` | agent-core/src/scope.ts:351-384 | The branches on the granted operator decide `Met`, about which soundness, transitivity and exactness are proved. |
| `SubScope.CheckSubScope` | agent-core/src/scope.ts:343-387 | The loop with its early refusals decides `IsSubScope`. |
| `SubScope.SubScopeTransitive` | agent-core/src/scope.ts:343-429 | The relation is transitive on all scopes, for every mix of operators. |
| `SubScope.SubScopeReflexive` | agent-core/src/scope.ts:306-387 | A strictly valid scope is its own sub-scope if and only if its ordered constraints are on numeric keys. |
| `SubScope.SubScopeIsSound` | agent-core/src/scope.ts:343-429 | Every assignment of values to keys that a sub-scope admits is admitted by the scope above it, where admitting is equality, starts-with on prefix keys, inequality, or plain integer comparison. |
| `Exactness.SubScopeIsExact` | agent-core/src/scope.ts:343-429 | For strictly valid scopes, the exercised one ordering only numeric keys: sub-scope if and only if same product and verb, inclusion of the admitted assignments, and no exercised range under a granted `!=`. |
| `Exactness.AdmitsSomething` | agent-core/src/scope.ts:306-429 | A strictly valid scope admits some assignment if and only if it orders only numeric keys. |
| `Exactness.ExactJustForThose` | agent-core/src/scope.ts:343-429 | That characterization holds against every strictly valid granted scope if and only if the exercised scope orders only numeric keys. |
| `Exactness.PositiveKindIsRefused` | agent-core/src/scope.ts:364-374 | `nostr:publish(kind>=1)` lies inside `nostr:publish(kind!=0)` and is refused under it. |
| `Registry.ValidateScope` | agent-core/src/scope.ts:306-332 | The loop over the constraints, unknown keys and scopes by mode, decides `Valid`, the hypothesis under which reflexivity and exactness are proved. |
| `Registry.PrefixKeysAreNotNumeric` | agent-core/src/scope.ts:36-84 | No registered prefix key is compared as a number, which transitivity rests on. |
| `Registry.KeysByScope` | agent-core/src/scope.ts:36-64 | The table read the other way, by key: which scopes take each key, that only `stamp:sign` names a prefix, and that only its three keys are read off the content. |
| `Registry.StrictKeysAreTaken` | agent-core/src/scope.ts:306-332 | In strict mode a constraint stands only in a scope that takes its key. |
| `Registry.RegisteredLimitsAreNumeric` | agent-core/src/scope.ts:36-70 | Every registered key that begins with `max_`, and `kind`, is compared as a number. |
| `Registry.WrittenIntegersFit` | agent-core/src/scope.ts:405-409 | A written integer counts as a number exactly up to 2^53 - 1 either way. |
| `Registry.FittingTextIsOne` | agent-core/src/scope.ts:72-119 | Two values that fit a method, hex, media type or bech32 address key and differ at most in case are equal, so comparing them as text misses nothing. |
| `Registry.FittingUrl` | agent-core/src/scope.ts:88-117 | A URL fits exactly when it has no backslash, and no upper-case letter in its scheme or host: none before the first `/`, `?` or `#`, or before the first one after a leading `scheme://`. |
| `Registry.FittingMethod` | agent-core/src/scope.ts:73-74 | A method fits exactly when it is upper-case letters, digits and the token signs. |
| `Registry.FittingHex` | agent-core/src/scope.ts:76-77 | A hex value fits exactly when it is not empty and of lower-case hex digits. |
| `Registry.FittingMime` | agent-core/src/scope.ts:79-80 | A media type fits exactly when it is two names of at most 127 characters with a slash between. |
| `Registry.FittingAddress` | agent-core/src/scope.ts:85-112 | A bech32 address, however it begins, fits exactly when it has no upper-case letter; any other address fits as it is. |
| `Canonical.CanonicalizeScopes` | agent-core/src/canonical.ts:36-39 | A list canonicalizes if and only if each of its scopes parses. |
| `Canonical.CanonicalizedIsCanonical` | agent-core/src/canonical.ts:36-39 | The result is as long as the list, every text in it canonical, in text order. |
| `Canonical.CanonicalizeScopesIdempotent` | agent-core/src/canonical.ts:36-39 | Canonicalizing a list twice is canonicalizing it once. |
| `Canonical.CanonicalizeScopesIgnoresOrder` | agent-core/src/canonical.ts:36-39 | Permuting the granted scopes does not change the result, so it does not change the message. |
| `Canonical.ParsedStandBesideTexts` | agent-core/src/canonical.ts:45-54 | `parseAndCanonicalizeScopes` gives the texts of `canonicalizeScopes`, each parsed scope beside its own text, and loses or repeats no granted scope. |
| `Canonical.ScopesLineDecodes` | agent-core/src/canonical.ts:60-73 | Equal `scopes:` lines mean equal lists. |
| `Canonical.IsoUtcReads` | agent-core/src/guards.ts:19-21 | A date and a time to the second fit, and with a fraction exactly when it has a digit and digits only. |
| `Canonical.IsoUtcIsSpelled` | agent-core/src/guards.ts:19-21 | And nothing else fits. |
| `Messages.DelegationMessageBinds` | agent-core/src/canonical.ts:60-73 | Among delegations the shape check admits, a message determines all its fields if and only if a newline followed by `agent: ` neither begins past the start of its own principal's address nor ends before the end of its own agent's. |
| `Messages.DelegationMessageDecodes` | agent-core/src/canonical.ts:60-73 | Whatever the addresses hold, equal messages agree on scopes, bond, times and nonce. |
| `Messages.DelegationCollision` | agent-core/src/verify.ts:842-871 | When one does, another delegation with the same message is built, admitted like the first and different in the two addresses alone. |
| `Messages.SubdelegationMessageBinds` | agent-core/src/canonical.ts:98-110 | The same condition, necessary and sufficient, among sub-delegations the shape check admits. |
| `Messages.SubdelegationCollision` | agent-core/src/verify.ts:951-976 | When it fails, another admitted sub-delegation with the same message is built, different in the two addresses alone. |
| `Messages.RootIsNotSub` | agent-core/src/canonical.ts:60-110 | No root and sub-delegation share a message. |
| `Messages.ActionMessageDecodes` | agent-core/src/canonical.ts:75-86 | Whatever address, hash and media type hold, equal action messages agree on `signed_at`, `delegation_id` and `scope_exercised`. |
| `Messages.ActionMessageBinds` | agent-core/src/canonical.ts:75-86 | Among actions the shape check admits, a message determines all its fields if and only if the labels of a hash and its prefix neither begin past the start of its own address nor stand in its hash, and the two labels around a length stand neither in its hash nor in its media type. |
| `Messages.ActionCollision` | agent-core/src/verify.ts:909-922 | When such labels do stand there, another admitted action with the same message is built: non-empty address, `sha256:` hash, length not negative. |
| `Messages.OneLineActionBinds` | agent-core/src/canonical.ts:75-86 | An action with address, hash and media type on one line shares its message with no other action, admitted or not. |
| `Messages.RevocationMessageBinds` | agent-core/src/canonical.ts:88-96 | Among revocations the shape check admits, a message determines all its fields if and only if the labels around a delegation id neither begin past the start of its own address nor stand in its own reason. |
| `Messages.RevocationCollision` | agent-core/src/verify.ts:941-949 | When they do, another admitted revocation with the same message is built. |
| `Messages.AnyReasonBinds` | agent-core/src/canonical.ts:88-96 | Among one-line addresses the message determines every field for any reason text, newlines and labels included. |
| `Verifier.WalkChain` | agent-core/src/verify.ts:469-481 | The loop that reassigns `parent` finds the first refusal going down the chain. |
| `Verifier.CheckForce` | agent-core/src/verify.ts:531-542 | The live loop finds the first link from the root not in force. |
| `Verifier.EvaluateLink` | agent-core/src/verify.ts:598-627 | One link against the feed: refused exactly when an entry that cites it is authentic and strikes; otherwise the skipped count is that of the entries that cite it and fail. |
| `Verifier.EvaluateRevocations` | agent-core/src/verify.ts:591-629 | The nested loops: whether any link is struck, and how many entries were skipped. |
| `Verifier.CheckAuthority` | agent-core/src/verify.ts:434-571 | Depth, root, chain, binding, live window and scope, in the order the source makes them. |
| `Verifier.CheckFeed` | agent-core/src/verify.ts:573-629 | The fail-closed guard on a missing feed, then the evaluation; malformed entries are counted as skipped. |
| `Verifier.VerifyActionAt` | agent-core/src/verify.ts:416-684 | Live or audit, the verdict, its refusal code and its whole result are `ActionVerdict`, the function the theorems below are about. |
| `Verifier.FindRevocation` | agent-core/src/verify.ts:266-286 | The loop stops at the first genuine revocation of the delegation and counts the entries that cite it and fail. |
| `Verifier.VerifyDelegation` | agent-core/src/verify.ts:126-312 | A public-scope delegation checked on its own: the verdict, its code and the skipped count are `DelegationVerdict`. |
| `Verify.ForceProblem` | agent-core/src/verify.ts:531-542 | The live check passes if and only if no link is early or expired. |
| `Acceptance.DelegationText` | agent-core/src/canonical.ts:60-73 | Line by line, the text a delegation envelope's id is the hash of: which of its fields stands on which line, bond and all. |
| `Acceptance.SubdelegationText` | agent-core/src/canonical.ts:98-110 | The same for a sub-delegation, its scopes in canonical form and order. |
| `Acceptance.ActionText` | agent-core/src/canonical.ts:75-86 | The same for an action. |
| `Acceptance.RevocationText` | agent-core/src/canonical.ts:88-96 | The same for a revocation. |
| `Acceptance.AcceptedDelegationIsSigned` | agent-core/src/verify.ts:248-253 | Unless signatures are skipped, the caller's BIP-322 check said yes to an accepted delegation's id, signature and principal address. |
| `Acceptance.AcceptedIsSigned` | agent-core/src/verify.ts:505-509 | The same for an accepted action's id, signature and signer, and for the root and every link of its chain. |
| `Acceptance.DelegationSignatureDecides` | agent-core/src/verify.ts:203-253 | That check is asked last: a delegation passes exactly when it passes with signatures skipped and the check says yes, and a no is refused with `E_BAD_SIG`. |
| `Acceptance.ForgedActionCode` | agent-core/src/verify.ts:484-509 | A well-formed action whose signature does not verify is refused with `E_BAD_ACTION_STAMP`, or `E_BAD_SIG` when no check was supplied. |
| `Acceptance.AuthenticIsGenuine` | agent-core/src/verify.ts:785-836 | For a well-formed link a revocation is authentic if and only if it has the form of one, cites the link, and the principal or the agent signed the hash of its signed fields. |
| `Acceptance.AuthenticForm` | agent-core/src/verify.ts:941-949 | The form of an authentic revocation and of the link it revokes. |
| `Acceptance.AcceptedDelegationForm` | agent-core/src/verify.ts:842-907 | An accepted delegation's version, kind, key and id; real times at most 365 days apart; non-empty canonical scopes, each valid; a well-formed bond. |
| `Acceptance.AcceptedLinkForm` | agent-core/src/verify.ts:951-1043 | The same for an accepted link of a chain, which carries no bond. |
| `Acceptance.AcceptedActionForm` | agent-core/src/verify.ts:482-649 | An accepted action's version, kind, key, id and length; content the caller gives hashes to the signed hash; and no revocation list only when the caller said so. |
| `Acceptance.AnchorIsConfirmed` | agent-core/src/verify.ts:1185-1195 | An anchor counts at a height exactly when the caller's verifier confirms the proof for the id of the signed fields at that height. |
| `Acceptance.ReportIsTrue` | agent-core/src/verify.ts:651-683 | The report names the action, chain and canonical scope, says proven exactly when the anchor was so confirmed, and says as of when. |
| `Authority.AcceptedIsWithinRoot` | agent-core/src/verify.ts:465-571 | For a chain of any length, if the action is accepted then one scope on the ROOT covers both the scope it claims and the scope rebuilt from its own content. |
| `Authority.AcceptedRequestsAreGranted` | agent-core/src/verify.ts:544-571 | Some root scope admits every assignment that the claim or the content-bound scope admits, and the action's own media type, length and hash satisfy each of that scope's constraints on them, a malformed hash included. |
| `Authority.ContentIsWithin` | agent-core/src/scope.ts:448-462 | What a content-bound scope lies under, the content itself obeys, key by key. |
| `Acceptance.AcceptedStampObeysRoot` | agent-core/src/scope.ts:448-462 | For an accepted `stamp:sign` action some root scope covers the claim and is obeyed by the content's own fields: its length compares with every `max_bytes` bound, its trimmed lower-case type equals a `mime=`, and a `content_hash_prefix=` begins the lower-case digits of its hash. |
| `Authority.AcceptedChain` | agent-core/src/verify.ts:465-529 | The chain is within the depth limit; each link cites its parent and its principal is the parent's agent; the leaf's agent is the signer; windows nest and scopes narrow; `signed_at` lies in every link's window. |
| `Authority.AcceptedLinkIsLinked` | agent-core/src/verify.ts:992-1115 | What one accepted link owes its parent: citation, principal, nested window, narrowed scopes. |
| `Authority.ChainNarrows` | agent-core/src/verify.ts:1066-1107 | Windows nest and scopes narrow between any two links of a chain, not only neighbours. |
| `Authority.LeafForceDecides` | agent-core/src/verify.ts:531-542 | Along such a chain, every link is in force at a time if and only if the leaf is. |
| `Authority.LiveRefinesAudit` | agent-core/src/verify.ts:416-684 | Whatever is accepted live at some time is accepted by the audit, with the same result but for `asOf`. |
| `Revocations.LiveIsExact` | agent-core/src/verify.ts:531-641 | An action is accepted live at a time if and only if the audit accepts it, its leaf is in force then, its `signed_at` is within the bound of it, and no authentic revocation of any link is in effect then. |
| `Revocations.FeedRevokesIff` | agent-core/src/verify.ts:591-629 | The loops refuse if and only if some entry of the feed strikes some link. |
| `Revocations.RevocationIsExact` | agent-core/src/verify.ts:591-629 | Acceptance with a feed holds if and only if acceptance with the empty feed holds and no entry strikes: verified for a link, and preceding the action or, live, anchored or dated at or before `now`. |
| `Revocations.FeedsWithTheSameStrikes` | agent-core/src/verify.ts:591-629 | Reordering, repeating or adding entries that strike nothing leaves acceptance as it is. |
| `Revocations.MoreEntriesOnlyRefuse` | agent-core/src/verify.ts:591-629 | Adding entries never turns a refusal into an acceptance. |
| `Revocations.AcceptedDelegationStands` | agent-core/src/verify.ts:255-295 | For an action accepted live, its root on its own is accepted at that time if and only if the feed holds no genuine revocation of it, of whatever date. |
| `Revocations.SignedBytesFixAuthenticity` | agent-core/src/verify.ts:785-836 | Two revocations with the same signed fields and signature are authentic alike and have one id, whatever the unsigned parts say. |
| `Revocations.CopyStrikes` | agent-core/src/verify.ts:1185-1212 | What the anchor on a copy does in every case: without a proven anchor on the action a claim is enough; with one, an unproven claim is ignored, and a proven one is compared by height and, live, always counts. |
| `Revocations.AnchorMattersUnlessOnTime` | agent-core/src/verify.ts:1203-1212 | For an authentic revocation and an action without a proven anchor: no anchor on a copy changes its effect if and only if the revocation is dated no later than the action or, live, than `now`. |
| `Revocations.ClaimFlips` | agent-core/src/verify.ts:1203-1212 | Otherwise the unanchored copy does nothing and the copy that merely claims a confirmed anchor refuses the action. |
| `Revocations.GenuineRevocationRefuses` | agent-core/src/verify.ts:598-627 | Live, a genuine revocation of any link dated at or before `now` makes the check refuse, whatever its unsigned parts say. |
| `Acceptance.AuditDates` | agent-core/src/verify.ts:1203-1212 | In the audit, where no two proven anchors decide: a genuine revocation of any link refuses the action if and only if its time is at or before the action's, and otherwise acceptance is as with no revocation. |
| `Acceptance.AuditHeights` | agent-core/src/verify.ts:1203-1212 | With two proven anchors the same by height, the same block refusing. |
| `Acceptance.EarlierRevocationRefuses` | agent-core/src/verify.ts:591-621 | Whatever else the feed holds, a genuine revocation dated at or before the action refuses it in the audit. |
| `Refusals.VerdictIsExplained` | agent-core/src/verify.ts:416-684 | An action is accepted if and only if nothing can be held against it, over every code and every link: form, id, signature, citation, window, scope, clock, feed, date and content, each told from the envelopes, the options and the clock; and the code a refusal gives is a reason that stands. |
| `Refusals.DelegationVerdictIsExplained` | agent-core/src/verify.ts:126-312 | The same for a delegation on its own. |
| `Refusals.LinkIsExplained` | agent-core/src/verify.ts:992-1119 | The same for one sub-delegation under its parent. |
| `Refusals.StrikesIsDue` | agent-core/src/verify.ts:1185-1214 | When a revocation counts: two proven heights compared, else a claimed anchor against an action that has none proven, else the signed times; and live, anything in effect by the clock. |
| `Refusals.SkippedIsCounted` | agent-core/src/verify.ts:592-630 | The number of entries reported as revoking nothing: none of an empty feed, and publishing one more adds one if it is no object, else one for each link it cites without being a genuine revocation of it. |
| `Refusals.DelegationSkippedIsCounted` | agent-core/src/verify.ts:266-286 | The same for a delegation on its own. |
| `ChainIds.SameMessageSameFields` | agent-core/src/canonical.ts:60-110 | A checked link whose own addresses are unmarked in the sense above shares its message only with checked links that agree on every signed field. |
| `ChainIds.RootReadsTwice` | agent-core/src/verify.ts:842-871 | For a marked root, another link with its id passes the same shape, scope and id checks with other signed fields. |
| `ChainIds.SubReadsTwice` | agent-core/src/verify.ts:951-976 | The same for a marked sub-delegation. |
| `ChainIds.ActionReadsTwice` | agent-core/src/verify.ts:909-922 | The same for an action whose fields hold such labels. |
| `ChainIds.SameIdSameHistory` | agent-core/src/verify.ts:1013-1064 | When ids fix signed fields, two links of one id stand at the same depth and everything above them agrees. |
| `ChainIds.ActionFixesItsAuthority` | agent-core/src/verify.ts:416-571 | An action accepted against a chain of unmarked addresses and against any second chain whatever: unless two of the messages concerned collide, the chains have one length and agree on everything signed, whatever the options and clocks. |
| `ChainIds.AcceptedActionHasOneReading` | agent-core/src/verify.ts:483-509 | An accepted action whose fields meet the exact condition has no second accepted reading under its id, unless the two messages collide. |
| `Signer.CreatedDelegationVerifies` | agent-signer/src/index.ts:106-210 | Everything `createDelegation` returns in public mode, its times real and its signature verifying, is accepted with no revocations at exactly the times in its window. |
| `Signer.CreatedSays` | agent-signer/src/index.ts:106-210 | A created delegation says the fields asked for, with canonical scopes and the end given or, seven days on by default, after the beginning as written; its id is the hash of its message and the wallet signed it. |
| `Signer.CreatedWhen` | agent-signer/src/index.ts:107-145 | With an end given, a delegation is created if and only if it has scopes, all strictly valid, a window of at most 365 days, a 32-digit nonce and a well-formed bond. |
| `Signer.CreatedScopesStand` | agent-signer/src/index.ts:113-114 | The scopes written are valid in either mode and already in canonical form and order. |
| `Signer.ContentFollowsClaim` | agent-signer/src/index.ts:251-264 | If the content lies under the claim and the claim under a granted scope, one granted scope covers both. |
| `Signer.SignedScopePasses` | agent-core/src/assert-scope.ts:47-90 | After the pre-flight check and `signAsAgent`, the verifier's claim and content scope checks both pass, in either mode. |
| `Signer.SignedActionVerifies` | agent-signer/src/index.ts:230-299 | With a verified root delegation, the pre-flight check passed and the signature verifying, the audit without chain or revocations accepts what `signAsAgent` returns if and only if `signed_at` is in the window and an attached confirmed anchor is complete. |
| `Signer.SignedSays` | agent-signer/src/index.ts:230-299 | A signed action says the hash and length of the bytes, or those given for them, under the agent's address; its id is the hash of its message and the wallet signed it. |
| `Signer.SignedContentVerifies` | agent-signer/src/index.ts:230-299 | The audit given the very bytes that were signed accepts as it would without them. |
| `Signer.PreflightIsTheVerifiers` | agent-core/src/assert-scope.ts:72-89 | The pre-flight check asks no more of the claim than a strict verifier does. |
| `Scenario.AcceptedUntilRevoked` | agent-core/src/verify.ts:416-684 | On concrete envelopes an action under a two-link chain is accepted, live and as an audit, and refused live once the root's principal has revoked, every unsigned part of the revocation being wrong. |
| `Scenario.ActedOnTwice` | agent-core/src/verify.ts:631-709 | With the default bounds that action is accepted and answered yes at `signed_at` and again two minutes later. |
| `Scenario.ChainIsFixed` | agent-core/src/verify.ts:416-571 | The hypotheses of `ChainIds.ActionFixesItsAuthority` are met together: an accepted chain, unmarked addresses, and a hash that keeps its messages apart. |
| `Federation.RevocationQuorum` | agent-core/src/federation.ts:250-275 | Despite the early exit: accepted if and only if the set of distinct declared guardians with a verifying entry has at least M members. |
| `Federation.CheckSigners` | agent-core/src/federation.ts:218-229 | The loop over `seen` finds the first signer that is undeclared or repeated. |
| `Federation.CheckFederationQuorum` | agent-core/src/federation.ts:159-242 | Both purposes, every check in order, with its code: `QuorumProblem`, about which the counting theorems are. |
| `Federation.ThresholdIsItsDigits` | agent-core/src/federation.ts:144-152 | A text of digits, `-of-` and digits is a threshold of those two numbers if and only if the first is at least one and at most the second. |
| `Federation.ThresholdReadsBack` | agent-core/src/federation.ts:144-152 | `M-of-N` as written reads as M and N. |
| `Federation.QuorumCounts` | agent-core/src/federation.ts:159-275 | For either purpose, acceptance means a declared principal and at least as many counted guardians as the first number of its threshold text. |
| `Federation.GoodSignersAreConfirmed` | agent-core/src/federation.ts:250-275 | A guardian is counted if and only if it is declared and the BIP-322 check confirms one of its entries for this id. |
| `Federation.RevocationQuorumIsExact` | agent-core/src/federation.ts:250-275 | For a declared principal a revocation passes if and only if a check was supplied or skipped and that many guardians are counted; the two codes otherwise. |
| `Federation.GrantQuorumIsExact` | agent-core/src/federation.ts:194-241 | A grant passes if and only if its block has the right algorithm and threshold text, at least that many entries, and every entry is confirmed, declared and distinct. |
| `Federation.MoreItemsMoreSigners` | agent-core/src/federation.ts:250-275 | The counted guardians are monotone in the entries. |
| `Federation.LenientIgnoresTheRest` | agent-core/src/federation.ts:250-275 | Two lists with the same counting entries get one verdict, in any order, with any repeats and any malformed, undeclared or non-verifying entries between. |
| `Federation.StrictCountsDistinctGuardians` | agent-core/src/federation.ts:159-275 | A strict grant rests on at least M distinct declared guardians with verifying signatures, also when the guardian list repeats an address; and the lenient check accepts what the strict one does. |
| `Federation.RelistingChangesNothing` | agent-core/src/federation.ts:128-242 | Permuting or renaming guardians changes neither the descriptor message nor any verdict. |
| `Descriptors.DescriptorMessageBinds` | agent-core/src/federation.ts:128-152 | A descriptor whose addresses hold no newline followed by `guardian: ` shares its message with any other descriptor whatever, if and only if they have one threshold and the same addresses counted with repetition. |
| `Descriptors.DescriptorReadsOneWay` | agent-core/src/federation.ts:128-181 | Labels or not: an admitted descriptor shares its message only with those of the same threshold and guardians if and only if the pieces between labels have no other grouping into as many non-empty addresses in text order. |
| `Descriptors.SameIdSameGuardians` | agent-core/src/federation.ts:170-190 | No other accepted descriptor takes the id of an unlabelled one with a different threshold or other guardians, unless the two messages collide. |
| `Descriptors.DescriptorCollision` | agent-core/src/federation.ts:128-181 | With a label in an address two guardians can share a message with two others; both descriptors are admitted and list other guardians but for the mirror case. |
| `Descriptors.TwoFederationsOneId` | agent-core/src/federation.ts:159-190 | Two principals with one descriptor id pass every descriptor check and have different guardians. |
| `ReplayGuard.Guard.constructor` | agent-core/src/verify.ts:693-696 | A new guard holds nothing. |
| `ReplayGuard.Guard.FirstUse` | agent-core/src/verify.ts:698-707 | The answer and the whole new map as functions of the old map, the use and the clock. |
| `ReplayGuard.Guard.Forget` | agent-core/src/verify.ts:702 | The loop that deletes from the map it runs over leaves exactly the entries that end after `t`. |
| `ReplayGuard.HeldIsRemembered` | agent-core/src/verify.ts:693-709 | At every point of a run, what is held is exactly what was answered yes and has not ended. |
| `ReplayGuard.FirstUseIsExact` | agent-core/src/verify.ts:693-709 | Over any run with a clock that does not go back, a call is a first use if and only if the id is not empty and no earlier yes to it is still to be kept. |
| `ReplayGuard.ActedOnOnce` | agent-core/src/verify.ts:631-709 | In any run, one id accepted live and answered yes twice: only if the second time lies between `signed_at` plus the guard's bound and `signed_at` plus the verifier's bound, both included. |
| `ReplayGuard.SecondUseIsExact` | agent-core/src/verify.ts:631-709 | An action accepted and used at `s` is acted on again at `t` if and only if it is accepted at `t` and the guard's bound has passed since `signed_at`. |
| `ReplayGuard.LastInstantIsForgotten` | agent-core/src/verify.ts:686-706 | An action accepted at `s` and at `signed_at` plus the guard's bound is acted on both times, although the documentation says its id is kept as long as it could pass. |
| `ReplayGuard.UndatedUseIsRemembered` | agent-core/src/verify.ts:700-706 | A use whose time is not in ISO form is remembered for the bound from the clock, and one that is no real time for good. |
| `Pool.StepKeeps` | airdrop-gate/src/index.ts:187-193 | Every step of every worker keeps the invariant: indices handed out once and in order, one worker per index in flight, finished slots hold their call's result. |
| `Pool.StepDecreases` | airdrop-gate/src/index.ts:187-193 | Every step lowers the measure, so every run ends. |
| `Pool.NeverStuck` | airdrop-gate/src/index.ts:187-196 | Until all workers have returned, some step can be made. |
| `Pool.RunIsSafe` | airdrop-gate/src/index.ts:179-198 | At every point of every interleaving of any number of workers: no index handed out twice, none outside the list, no two workers on one index, and the run has bounded length. |
| `Pool.FinishedRunIsComplete` | airdrop-gate/src/index.ts:195-197 | When every worker has returned, each index was called exactly once and its slot holds what its call returned. |
| `Pool.InFlightIsBounded` | airdrop-gate/src/index.ts:195 | No more calls are ever in flight than the worker count asked for, one when it is less than one. |
| `Pool.AllCanBeInFlight` | airdrop-gate/src/index.ts:187-196 | And some run has that many in flight at once, or as many as there are items. |
| `Pool.RunInto` | airdrop-gate/src/index.ts:267-275 | The pool as it runs in a retry round, the scheduler choosing any worker at every turn: the target slots hold their calls' results, all others are untouched, and the calls made are the targets, once each. |
| `Pool.RunWithConcurrency` | airdrop-gate/src/index.ts:179-198 | `results[i]` is `fn(items[i], i)` for every `i`, for any worker count and interleaving. |
| `Airdrop.Unique` | airdrop-gate/src/index.ts:222-230 | The loop with its `seen` set computes `Dedupe`. |
| `Text.TrimIsExact` | airdrop-gate/src/index.ts:226 | Trimming removes the white space at both ends and nothing else. |
| `Airdrop.DedupeKeepsMembers` | airdrop-gate/src/index.ts:222-230 | The unique list holds exactly the trimmed non-empty addresses, each once. |
| `Airdrop.DedupeKeepsOrder` | airdrop-gate/src/index.ts:222-230 | It keeps the order of first occurrences. |
| `Airdrop.SettledStays` | airdrop-gate/src/index.ts:267-275 | A settled or finally unread decision is never overwritten and its address never asked again. |
| `Airdrop.AsksAreBounded` | airdrop-gate/src/index.ts:267-275 | An address is checked at least once and at most once more per round, and its decision is that of its last check. |
| `Airdrop.SettleIsLastAsked` | airdrop-gate/src/index.ts:267-275 | Every check but the last left the address to be asked again. |
| `Airdrop.RetryRound` | airdrop-gate/src/index.ts:268-275 | One round over the shared list gives every address its decision and check count after that round. |
| `Airdrop.AskAgain` | airdrop-gate/src/index.ts:267-275 | The rounds, with the early stop when nothing is left to ask, end in the decisions and counts of all `retryUnread` rounds. |
| `Airdrop.Partition` | airdrop-gate/src/index.ts:277-286 | The loop that fills the three lists computes the three filters of all decisions. |
| `Airdrop.ListsPartition` | airdrop-gate/src/index.ts:277-286 | Every decision lands in exactly one list, as often as it occurs. |
| `Airdrop.FilterKeepsOrder` | airdrop-gate/src/index.ts:277-286 | Each list follows input order. |
| `Airdrop.DecisionsFollowAnswers` | airdrop-gate/src/index.ts:232-257 | An address is passing, rejected or undecided exactly as its last answer says: rejected only on an answer that concluded against it, undecided when the lookup threw or a read did not finish. |
| `Airdrop.AnswersDecide` | airdrop-gate/src/index.ts:151-175 | By the answer's reasons: which pass, which are rejected, which are undecided, and which of those are asked about again. |
| `Airdrop.AnswersAreReported` | airdrop-gate/src/index.ts:232-257 | The reasons and the check a decision reports. |
| `Airdrop.FilterAllowlist` | airdrop-gate/src/index.ts:206-289 | The whole filter for any answers and interleaving: its lists, its check counts, and that it throws exactly when someone is undecided and the caller asked for that. |
| `Reason.ShowTextDecodes` | agent-core/src/reason.ts:39-45 | A decoder recovers every reason exactly from its escaped form. |
| `Reason.ShownIsVisible` | agent-core/src/reason.ts:32-45 | What is shown holds no control, format or invisible character. |
| `Reason.ShownReasonTellsApart` | agent-core/src/reason.ts:39-45 | Two reasons are shown alike if and only if they are equal, or one is empty and the other spells out "no reason given". |
| `Reason.AuthoredReasonIsShownPlainly` | agent-core/src/reason.ts:16-45 | A reason is one to sign if and only if it is at most 128 printable ASCII characters, and is then shown as written but for doubled backslashes. |

## Left out

- Private-scope mode (`scopes_encrypted`): it depends on a lock library; only envelopes with plain scopes are modelled.
- Guards against values of the wrong type, and the texts of error messages: the datatypes settle the first, codes stand for the second.
- BIP-322, SHA-256 and OTS proof walking: supplied functions; a verifier that throws is not modelled.
- The UTF-8 encoding of a message before it is hashed, and the RFC 8785 JSON form of envelopes.
- Calendar arithmetic: times reach the model as milliseconds through `World.time`, and `isoUtcSeconds` as a supplied function.
- Lone UTF-16 surrogates: a Dafny character is a Unicode scalar value. Lengths are counted in characters, which differs from the source only for a pre-computed content hash with characters beyond U+FFFF.
- Integers at or beyond 10^21 inside a message (`bond_sats`, `content_length`), which JavaScript prints with an exponent; and fractional or non-finite `maxSkewMs` and depths.
- Thresholds in a federation descriptor too large for a JavaScript number: refused in the model, as in the source, because no guardian list is that long.
- `Signer.CreatedWhen`: speaks of a given end; with a duration instead the end is computed from the beginning as `Signer.CreatedSays` states.
- The classes of characters hidden in a shown reason are transcribed; nothing is proved of which characters they list.
- `Descriptors.DescriptorMessageBinds`: asks for unlabelled addresses, under which any other descriptor of its stated size is compared; `Descriptors.DescriptorReadsOneWay` gives the exact condition among admitted ones.
- `ChainIds.ActionFixesItsAuthority`: asks that the addresses of one of the two chains be unmarked, and that the messages concerned do not collide under SHA-256.
- `ChainIds.AcceptedActionHasOneReading`, like `Descriptors.SameIdSameGuardians`: asks that the two messages do not collide under SHA-256.
- `ReplayGuard.ActedOnOnce`: asks that the two actions' messages do not collide under SHA-256.
- `Pool.RunInto`: a call that rejects is not modelled (the filter's callback catches everything); a retry round's address is read from the unique list, which the decision repeats.
- The order in which a pool's calls reach the network, `onProgress`, `sleep`, option checks, relays and thresholds of the filter.
- `createDelegation`'s random nonce (a parameter), `revocationHolders` and `revocationRef`, which are outside the signature; the action's `ref`, likewise.
- `verifySubdelegation`, `verifyFederationDelegation`, `verifyFederationRevocation` and `revoke`: thin wrappers over checks modelled here.
- `revocationFlags`, `confusables` and the tool adapters: they take no part in the decisions modelled here.
- The command lines, the client, the user interface and the Nostr directory.
