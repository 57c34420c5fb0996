/** The allowlist filter: de-duplication, one pool over the addresses, rounds that ask again
    about the undecided, and the three lists (airdrop-gate/src/index.ts, filterAllowlist). */
module Airdrop {
  import opened Text
  import opened Sorting
  import opened Pool

  // ----- one lookup -----

  /** What `check` gives for an address: an answer, or it throws. */
  datatype Answer = Answered(ok: bool, reasons: Option<seq<string>>) | Threw(message: string)

  /** Why nothing was concluded about an address. */
  datatype Unread = UtxoCap | ProviderRefused | ChainUnread | AttestationUnread | StakeUnread | LookupError

  datatype Decision = Decision(
    address: string, ok: bool, reasons: seq<string>, unread: Option<Unread>, check: Option<Answer>)

  /** The read a reason names as unfinished, the most decisive first. */
  function NamedUnread(reasons: seq<string>): Option<Unread> {
    if "utxo_cap_unread" in reasons then Some(UtxoCap)
    else if "provider_refused_unread" in reasons then Some(ProviderRefused)
    else if "chain_unread" in reasons then Some(ChainUnread)
    else if "attestation_unread" in reasons then Some(AttestationUnread)
    else if "stake_unread" in reasons then Some(StakeUnread)
    else None
  }

  predicate SignatureOk(reasons: seq<string>) { "sig_ok_bip322" in reasons || "sig_ok_legacy" in reasons }

  /** Which read did not finish, or nothing when the check concluded. */
  function UnreadOf(ok: bool, reasons: Option<seq<string>>): Option<Unread> {
    if ok then None
    else
      var rs := if reasons.Some? then reasons.value else [];
      var named := NamedUnread(rs);
      if named.Some? then named
      else if SignatureOk(rs) && "bad_request" in rs then Some(ChainUnread)
      else None
  }

  function Decide(address: string, answer: Answer): Decision {
    match answer
    case Answered(ok, reasons) =>
      Decision(address, ok, if ok || reasons.None? then [] else reasons.value, UnreadOf(ok, reasons), Some(answer))
    case Threw(message) => Decision(address, false, ["lookup_error", message], Some(LookupError), None)
  }

  /** Asking again may help. */
  predicate Retryable(d: Decision) { d.unread.Some? && d.unread.value != UtxoCap && d.unread.value != ProviderRefused }

  // ----- de-duplication -----

  function Dedupe(addresses: seq<string>): seq<string> {
    if addresses == [] then []
    else
      var front := Dedupe(addresses[..|addresses| - 1]);
      var v := Trim(addresses[|addresses| - 1]);
      if v == "" || v in front then front else front + [v]
  }

  method Unique(addresses: seq<string>) returns (unique: seq<string>)
    ensures unique == Dedupe(addresses)
  {
    var seen: set<string> := {};
    unique := [];
    for i := 0 to |addresses|
      invariant unique == Dedupe(addresses[..i]) && forall v :: v in seen <==> v in unique
    {
      assert addresses[..i + 1][..i] == addresses[..i];
      var v := Trim(addresses[i]);
      if v == "" || v in seen {
        continue;
      }
      seen := seen + {v};
      unique := unique + [v];
    }
    assert addresses[..|addresses|] == addresses;
  }

  ghost predicate Occurs(addresses: seq<string>, v: string) {
    exists p | 0 <= p < |addresses| :: Trim(addresses[p]) == v
  }

  /** `v` is the trimmed form of address `p`, and of none before it. */
  ghost predicate FirstAt(addresses: seq<string>, v: string, p: nat) {
    p < |addresses| && Trim(addresses[p]) == v && !Occurs(addresses[..p], v)
  }

  lemma OccursStep(addresses: seq<string>, n: nat, v: string)
    requires |addresses| == n + 1
    ensures Occurs(addresses, v) <==> Occurs(addresses[..n], v) || Trim(addresses[n]) == v
  {
    assert forall p | 0 <= p < n :: addresses[..n][p] == addresses[p];
    if Occurs(addresses[..n], v) {
      var p :| 0 <= p < n && Trim(addresses[..n][p]) == v;
      assert Trim(addresses[p]) == v;
    }
    if Occurs(addresses, v) && Trim(addresses[n]) != v {
      var p :| 0 <= p < |addresses| && Trim(addresses[p]) == v;
      assert Trim(addresses[..n][p]) == v;
    }
  }

  /** The unique list holds exactly the trimmed non-empty addresses, each once. */
  lemma {:induction false} DedupeKeepsMembers(addresses: seq<string>)
    ensures var u := Dedupe(addresses);
            && (forall v :: v in u <==> v != "" && Occurs(addresses, v))
            && (forall i, j | 0 <= i < j < |u| :: u[i] != u[j])
  {
    if addresses != [] {
      var n := |addresses| - 1;
      DedupeKeepsMembers(addresses[..n]);
      forall v ensures v in Dedupe(addresses) <==> v != "" && Occurs(addresses, v) {
        OccursStep(addresses, n, v);
      }
    }
  }

  lemma FirstInFront(addresses: seq<string>, n: nat, v: string, p: nat)
    requires |addresses| == n + 1 && FirstAt(addresses, v, p)
    ensures if Occurs(addresses[..n], v) then p < n && FirstAt(addresses[..n], v, p) else p == n
  {
    if p < n {
      assert addresses[..n][p] == addresses[p] && addresses[..n][..p] == addresses[..p];
      assert Trim(addresses[..n][p]) == v;
    }
  }

  /** And it keeps the order of first occurrences. */
  lemma {:induction false} DedupeKeepsOrder(addresses: seq<string>, i: nat, j: nat, p: nat, q: nat)
    requires i < j < |Dedupe(addresses)|
    requires FirstAt(addresses, Dedupe(addresses)[i], p) && FirstAt(addresses, Dedupe(addresses)[j], q)
    ensures p < q
  {
    var n := |addresses| - 1;
    var front, u := Dedupe(addresses[..n]), Dedupe(addresses);
    DedupeKeepsMembers(addresses[..n]);
    FirstInFront(addresses, n, u[i], p);
    FirstInFront(addresses, n, u[j], q);
    assert u[i] == front[i] && u[i] in front;
    if j < |front| {
      assert u[j] == front[j] && u[j] in front;
      DedupeKeepsOrder(addresses[..n], i, j, p, q);
    }
  }

  // ----- asking again -----

  /** What asking about `address` in each round decides; `lookup(r, a)` is what `check` gives for
      `a` when asked in round `r`. */
  function Answers(lookup: (nat, string) -> Answer, address: string): nat -> Decision {
    (r: nat) => Decide(address, lookup(r, address))
  }

  /** An address's decision after the first check and `rounds` more rounds. */
  function Settle(asked: nat -> Decision, rounds: nat): Decision {
    if rounds == 0 then asked(0)
    else
      var d := Settle(asked, rounds - 1);
      if Retryable(d) then asked(rounds) else d
  }

  /** How often the address is checked in that time. */
  function Asks(asked: nat -> Decision, rounds: nat): nat {
    if rounds == 0 then 1
    else Asks(asked, rounds - 1) + if Retryable(Settle(asked, rounds - 1)) then 1 else 0
  }

  lemma {:induction false} SettledStays(asked: nat -> Decision, r: nat, rounds: nat)
    requires r <= rounds && !Retryable(Settle(asked, r))
    ensures Settle(asked, rounds) == Settle(asked, r)
    ensures Asks(asked, rounds) == Asks(asked, r)
  {
    if r < rounds {
      SettledStays(asked, r, rounds - 1);
    }
  }

  lemma {:induction false} AsksAreBounded(asked: nat -> Decision, rounds: nat)
    ensures 1 <= Asks(asked, rounds) <= rounds + 1
    ensures Asks(asked, rounds) <= rounds ==> !Retryable(Settle(asked, rounds))
    ensures Settle(asked, rounds) == asked(Asks(asked, rounds) - 1)
  {
    if rounds > 0 {
      AsksAreBounded(asked, rounds - 1);
    }
  }

  /** The decision is that of the last time of asking: the address is asked in consecutive rounds
      until an answer settles it or the rounds run out, and the answer that settles stands. */
  lemma {:induction false} SettleIsLastAsked(asked: nat -> Decision, rounds: nat, r: nat)
    requires r + 1 < Asks(asked, rounds)
    ensures Retryable(asked(r))
  {
    if rounds > 0 {
      AsksAreBounded(asked, rounds - 1);
      if r + 1 < Asks(asked, rounds - 1) {
        SettleIsLastAsked(asked, rounds - 1, r);
      }
    }
  }

  // ----- the filter -----

  predicate IsOk(d: Decision) { d.ok }

  predicate IsUnread(d: Decision) { !d.ok && d.unread.Some? }

  predicate IsRejected(d: Decision) { !d.ok && d.unread.None? }

  function Filter(ds: seq<Decision>, keep: Decision -> bool): seq<Decision> {
    if ds == [] then []
    else Filter(ds[..|ds| - 1], keep) + if keep(ds[|ds| - 1]) then [ds[|ds| - 1]] else []
  }

  function AddressOf(d: Decision): string { d.address }

  datatype Filtered = Filtered(ok: seq<string>, rejected: seq<Decision>, unread: seq<Decision>, all: seq<Decision>)

  /** The result is returned, or thrown with the undecided when the caller asked for that. */
  datatype Outcome = Returned(result: Filtered) | ThrewUnread(result: Filtered)

  function Sorted3(all: seq<Decision>): Filtered {
    Filtered(Mapped(Filter(all, IsOk), AddressOf), Filter(all, IsRejected), Filter(all, IsUnread), all)
  }

  lemma FilterStep(all: seq<Decision>, n: nat, keep: Decision -> bool)
    requires |all| == n + 1
    ensures Filter(all, keep) == if keep(all[n]) then Filter(all[..n], keep) + [all[n]] else Filter(all[..n], keep)
  {
  }

  lemma MappedConcat(a: seq<Decision>, b: seq<Decision>)
    ensures Mapped(a + b, AddressOf) == Mapped(a, AddressOf) + Mapped(b, AddressOf)
  {
  }

  lemma Sorted3Step(all: seq<Decision>, n: nat)
    requires |all| == n + 1
    ensures var f, d := Sorted3(all[..n]), all[n];
            Sorted3(all) == Filtered(if d.ok then f.ok + [d.address] else f.ok,
                                     if IsRejected(d) then f.rejected + [d] else f.rejected,
                                     if IsUnread(d) then f.unread + [d] else f.unread, all)
  {
    MappedConcat(Filter(all[..n], IsOk), [all[n]]);
    FilterStep(all, n, IsOk);
    FilterStep(all, n, IsRejected);
    FilterStep(all, n, IsUnread);
  }

  method Partition(all: seq<Decision>) returns (f: Filtered)
    ensures f == Sorted3(all)
  {
    var ok: seq<string> := [];
    var rejected: seq<Decision> := [];
    var unread: seq<Decision> := [];
    for i := 0 to |all|
      invariant Filtered(ok, rejected, unread, all[..i]) == Sorted3(all[..i])
    {
      var d := all[i];
      assert all[..i + 1][..i] == all[..i];
      Sorted3Step(all[..i + 1], i);
      if d.ok {
        ok := ok + [d.address];
      } else if d.unread.Some? {
        unread := unread + [d];
      } else {
        rejected := rejected + [d];
      }
    }
    assert all[..|all|] == all;
    return Filtered(ok, rejected, unread, all);
  }

  function Indices(ds: seq<Decision>): (r: seq<nat>)
    ensures forall i: nat :: i in r <==> i < |ds| && Retryable(ds[i])
    ensures DistinctTargets(r)
  {
    if ds == [] then []
    else
      var n := |ds| - 1;
      var front := Indices(ds[..n]);
      assert forall j | 0 <= j < |front| :: front[j] in front && front[j] < n;
      if Retryable(ds[n]) then front + [n] else front
  }

  function Settled(lookup: (nat, string) -> Answer, unique: seq<string>, rounds: nat): (ds: seq<Decision>)
    ensures |ds| == |unique| && forall i | 0 <= i < |unique| :: ds[i] == Settle(Answers(lookup, unique[i]), rounds)
  {
    seq(|unique|, i requires 0 <= i < |unique| => Settle(Answers(lookup, unique[i]), rounds))
  }

  function Rounds(retryUnread: int): nat { if retryUnread < 0 then 0 else retryUnread }

  function AskCounts(lookup: (nat, string) -> Answer, unique: seq<string>, rounds: nat): (counts: seq<nat>)
    ensures |counts| == |unique|
    ensures forall i | 0 <= i < |unique| :: counts[i] == Asks(Answers(lookup, unique[i]), rounds)
  {
    seq(|unique|, i requires 0 <= i < |unique| => Asks(Answers(lookup, unique[i]), rounds))
  }

  predicate AnyRetryable(ds: seq<Decision>) { exists i | 0 <= i < |ds| :: Retryable(ds[i]) }

  lemma AllSettledStay(lookup: (nat, string) -> Answer, unique: seq<string>, r: nat, rounds: nat)
    requires r <= rounds && !AnyRetryable(Settled(lookup, unique, r))
    ensures Settled(lookup, unique, rounds) == Settled(lookup, unique, r)
    ensures AskCounts(lookup, unique, rounds) == AskCounts(lookup, unique, r)
  {
    forall i | 0 <= i < |unique|
      ensures Settle(Answers(lookup, unique[i]), rounds) == Settle(Answers(lookup, unique[i]), r)
      ensures Asks(Answers(lookup, unique[i]), rounds) == Asks(Answers(lookup, unique[i]), r)
    {
      assert !Retryable(Settled(lookup, unique, r)[i]);
      SettledStays(Answers(lookup, unique[i]), r, rounds);
    }
  }

  lemma RoundSettles(lookup: (nat, string) -> Answer, unique: seq<string>, round: nat, after: seq<Decision>)
    requires |after| == |unique|
    requires var again := Indices(Settled(lookup, unique, round));
             forall i: nat | i < |unique| ::
               after[i] == if i in again then Decide(unique[i], lookup(round + 1, unique[i]))
                                                    else Settle(Answers(lookup, unique[i]), round)
    ensures after == Settled(lookup, unique, round + 1)
  {
    forall i: nat | i < |unique| ensures after[i] == Settle(Answers(lookup, unique[i]), round + 1) {
      assert i in Indices(Settled(lookup, unique, round)) <==> Retryable(Settle(Answers(lookup, unique[i]), round));
    }
  }

  lemma RoundCounts(lookup: (nat, string) -> Answer, unique: seq<string>, round: nat, after: seq<nat>)
    requires |after| == |unique|
    requires var again := Indices(Settled(lookup, unique, round));
             forall i: nat | i < |unique| ::
               after[i] == Asks(Answers(lookup, unique[i]), round) + if i in again then 1 else 0
    ensures after == AskCounts(lookup, unique, round + 1)
  {
    forall i: nat | i < |unique| ensures after[i] == Asks(Answers(lookup, unique[i]), round + 1) {
      assert i in Indices(Settled(lookup, unique, round)) <==> Retryable(Settle(Answers(lookup, unique[i]), round));
    }
  }

  /** One round: the undecided are asked again, through the pool, into the same list. */
  method RetryRound(decisions: array<Decision>, unique: seq<string>, round: nat, concurrency: int,
                    lookup: (nat, string) -> Answer, asks: seq<nat>) returns (counted: seq<nat>)
    requires decisions[..] == Settled(lookup, unique, round) && asks == AskCounts(lookup, unique, round)
    modifies decisions
    ensures decisions[..] == Settled(lookup, unique, round + 1)
    ensures counted == AskCounts(lookup, unique, round + 1)
  {
    var again := Indices(decisions[..]);
    assert |decisions[..]| == |unique|;
    forall k | 0 <= k < |again| ensures again[k] < decisions.Length { assert again[k] in again; }
    var ask := (i: nat) =>
      if i < |unique| then Decide(unique[i], lookup(round + 1, unique[i])) else Decide("", Threw(""));
    var asked := RunInto(decisions, again, concurrency, ask);
    counted := seq(|asks|, i requires 0 <= i < |asks| => asks[i] + if i in asked then 1 else 0);
    RoundSettles(lookup, unique, round, decisions[..]);
    RoundCounts(lookup, unique, round, counted);
  }

  /** Rounds of asking again, until none is undecided or the rounds run out. */
  method AskAgain(decisions: array<Decision>, unique: seq<string>, concurrency: int, retryUnread: int,
                  lookup: (nat, string) -> Answer) returns (asks: seq<nat>)
    requires decisions[..] == Settled(lookup, unique, 0)
    modifies decisions
    ensures decisions[..] == Settled(lookup, unique, Rounds(retryUnread))
    ensures asks == AskCounts(lookup, unique, Rounds(retryUnread))
  {
    asks := AskCounts(lookup, unique, 0);
    var round := 0;
    while round < retryUnread
      invariant 0 <= round <= Rounds(retryUnread)
      invariant decisions[..] == Settled(lookup, unique, round) && asks == AskCounts(lookup, unique, round)
    {
      if !AnyRetryable(decisions[..]) {
        AllSettledStay(lookup, unique, round, Rounds(retryUnread));
        return;
      }
      asks := RetryRound(decisions, unique, round, concurrency, lookup, asks);
      round := round + 1;
    }
  }

  /** The whole filter, over any answers and any interleaving. `asks[i]` counts the checks of the
      `i`th unique address. */
  method FilterAllowlist(addresses: seq<string>, concurrency: int, retryUnread: int, rejectOnError: bool,
                         lookup: (nat, string) -> Answer)
    returns (outcome: Outcome, asks: seq<nat>)
    ensures outcome.result == Sorted3(Settled(lookup, Dedupe(addresses), Rounds(retryUnread)))
    ensures asks == AskCounts(lookup, Dedupe(addresses), Rounds(retryUnread))
    ensures outcome.ThrewUnread? <==> outcome.result.unread != [] && !rejectOnError
  {
    var unique := Unique(addresses);
    var decisions := RunWithConcurrency(unique, concurrency, (address, i) => Decide(address, lookup(0, address)));
    assert decisions[..] == Settled(lookup, unique, 0);
    asks := AskAgain(decisions, unique, concurrency, retryUnread, lookup);
    var f := Partition(decisions[..]);
    outcome := if f.unread != [] && !rejectOnError then ThrewUnread(f) else Returned(f);
  }

  // ----- what the three lists are -----

  lemma {:induction false} FilterKeeps(ds: seq<Decision>, keep: Decision -> bool)
    ensures forall d :: d in Filter(ds, keep) <==> d in ds && keep(d)
  {
    if ds != [] {
      var n := |ds| - 1;
      FilterKeeps(ds[..n], keep);
      assert ds == ds[..n] + [ds[n]];
    }
  }

  /** A list follows the order of all decisions: it is cut wherever they are. */
  lemma {:induction false} FilterKeepsOrder(a: seq<Decision>, b: seq<Decision>, keep: Decision -> bool)
    ensures Filter(a + b, keep) == Filter(a, keep) + Filter(b, keep)
  {
    if b == [] {
      assert a + b == a;
    } else {
      var n := |b| - 1;
      assert (a + b)[..|a| + n] == a + b[..n];
      FilterStep(a + b, |a| + n, keep);
      FilterKeepsOrder(a, b[..n], keep);
      FilterStep(b, n, keep);
    }
  }

  function Bag(all: seq<Decision>, keep: Decision -> bool): multiset<Decision> { multiset(Filter(all, keep)) }

  function One(d: Decision, keep: Decision -> bool): multiset<Decision> { if keep(d) then multiset{d} else multiset{} }

  lemma BagStep(all: seq<Decision>, n: nat, keep: Decision -> bool)
    requires |all| == n + 1
    ensures Bag(all, keep) == Bag(all[..n], keep) + One(all[n], keep)
  {
    FilterStep(all, n, keep);
  }

  lemma WholeStep(all: seq<Decision>, n: nat)
    requires |all| == n + 1
    ensures multiset(all) == multiset(all[..n]) + multiset{all[n]}
  {
    assert all == all[..n] + [all[n]];
  }

  /** Every decision lands in exactly one of the three lists, as often as it occurs. */
  lemma {:induction false} ListsPartition(all: seq<Decision>)
    ensures multiset(all) == Bag(all, IsOk) + Bag(all, IsRejected) + Bag(all, IsUnread)
  {
    if all != [] {
      var n := |all| - 1;
      ListsPartition(all[..n]);
      BagStep(all, n, IsOk);
      BagStep(all, n, IsRejected);
      BagStep(all, n, IsUnread);
      WholeStep(all, n);
    }
  }

  /** `d` says of the address what this answer says: passing only on an answer that passed it,
      rejected only on one that concluded against it, undecided when nothing was concluded. */
  predicate Follows(d: Decision, address: string, answer: Answer) {
    && d.address == address
    && (IsOk(d) <==> answer.Answered? && answer.ok)
    && (IsUnread(d) <==> answer.Threw? || (!answer.ok && UnreadOf(answer.ok, answer.reasons).Some?))
    && (IsRejected(d) <==> answer.Answered? && !answer.ok && UnreadOf(answer.ok, answer.reasons).None?)
  }

  lemma DecidedFollows(d: Decision, address: string, answer: Answer)
    requires d == Decide(address, answer)
    ensures Follows(d, address, answer)
  {
  }

  /** A decision follows the last answer the address got, and no other. */
  lemma DecisionsFollowAnswers(lookup: (nat, string) -> Answer, address: string, rounds: nat)
    ensures Asks(Answers(lookup, address), rounds) >= 1
    ensures var asked := Answers(lookup, address);
            Follows(Settle(asked, rounds), address, lookup(Asks(asked, rounds) - 1, address))
  {
    var asked := Answers(lookup, address);
    AsksAreBounded(asked, rounds);
    DecidedFollows(Settle(asked, rounds), address, lookup(Asks(asked, rounds) - 1, address));
  }

  // ----- what an answer's reasons mean -----

  function ReasonsOf(answer: Answer): seq<string> {
    if answer.Answered? && answer.reasons.Some? then answer.reasons.value else []
  }

  predicate Concluded(answer: Answer) {
    answer.Answered? &&
    (answer.ok ||
     var rs := ReasonsOf(answer);
     && "utxo_cap_unread" !in rs && "provider_refused_unread" !in rs && "chain_unread" !in rs
     && "attestation_unread" !in rs && "stake_unread" !in rs
     && !("bad_request" in rs && ("sig_ok_bip322" in rs || "sig_ok_legacy" in rs)))
  }

  /** Which answers pass, reject and leave undecided, and which are asked about again: those that did not
      conclude, unless the address holds too many outputs or the provider refused. */
  lemma AnswersDecide(address: string, answer: Answer)
    ensures var d := Decide(address, answer);
            && (IsOk(d) <==> answer.Answered? && answer.ok)
            && (IsRejected(d) <==> Concluded(answer) && !answer.ok)
            && (IsUnread(d) <==> !Concluded(answer))
            && (Retryable(d) <==> !Concluded(answer) && "utxo_cap_unread" !in ReasonsOf(answer)
                                  && "provider_refused_unread" !in ReasonsOf(answer))
  {
  }

  /** What is reported of it: the reasons of an answer that did not pass, or the error of one that threw. */
  lemma AnswersAreReported(address: string, answer: Answer)
    ensures var d := Decide(address, answer);
            && d.address == address && (d.check == if answer.Threw? then None else Some(answer))
            && d.reasons == (if answer.Threw? then ["lookup_error", answer.message]
                             else if answer.ok then [] else ReasonsOf(answer))
            && (answer.Threw? ==> d.unread == Some(LookupError))
            && (answer.Answered? && !answer.ok && "utxo_cap_unread" in ReasonsOf(answer) ==> d.unread == Some(UtxoCap))
  {
  }
}
