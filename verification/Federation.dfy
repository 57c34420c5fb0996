/** Federation principals: the strict M-of-N check of a grant and the lenient one of a
    revocation, and what they count (agent-core/src/federation.ts). */
module Federation {
  import opened Text
  import opened Sorting
  import opened Envelopes

  datatype Guardian = Guardian(address: string, alg: string, name: Option<string>)

  datatype Descriptor = Descriptor(kind: string, threshold: string, guardians: seq<Guardian>)

  datatype Principal = Principal(alg: string, descriptorId: string, descriptor: Descriptor)

  /** An entry of a signature block: not an object with a value, or an address and a value. */
  datatype Item = BadItem | Item(address: string, value: string)

  datatype Block = Block(alg: string, threshold: string, signatures: seq<Item>)

  // ----- the descriptor -----

  function AddressOf(g: Guardian): string { g.address }

  function Addresses(d: Descriptor): seq<string> { Mapped(d.guardians, AddressOf) }

  function GuardianLine(address: string): string { "guardian: " + address }

  const HEADING := "oc-agent:federation:v1"

  /** Guardians by address in text order; names and listing order do not show. */
  function DescriptorMessage(d: Descriptor): string {
    Join([HEADING, "threshold: " + d.threshold]
         + Mapped(Sort(Addresses(d), Self), GuardianLine), '\n')
  }

  /** `M-of-N` in decimal digits with 1 <= M <= N. */
  function ParseThreshold(t: string): Option<(nat, nat)> {
    var i := IndexOf(t, "-of-");
    if i < 1 || |t| <= i + 4 || !AllDigits(t[..i]) || !AllDigits(t[i + 4..]) then None
    else
      var m, n := NumeralValue(t[..i], 10), NumeralValue(t[i + 4..], 10);
      if 1 <= m <= n then Some((m, n)) else None
  }

  /** What must hold of the principal before any signature is read. */
  function DescriptorProblem(w: World, p: Principal): Option<Code> {
    var d := p.descriptor;
    if p.alg != "federation" || d.kind != "agent-federation" then Some(Malformed)
    else
      match ParseThreshold(d.threshold)
      case None => Some(Malformed)
      case Some((m, n)) =>
        if |d.guardians| != n || exists i | 0 <= i < |d.guardians| :: d.guardians[i].address == "" then Some(Malformed)
        else Require(p.descriptorId == w.sha(DescriptorMessage(d)), BadFederationDescriptor)
  }

  function GuardianSet(d: Descriptor): set<string> { set i | 0 <= i < |d.guardians| :: d.guardians[i].address }

  // ----- signatures that count -----

  predicate Verifies(o: Options, id: string, item: Item)
    requires item.Item?
  {
    o.skipSignatures || (o.bip322.Some? && o.bip322.value(id, item.value, item.address))
  }

  /** The item is a verifying signature of a declared guardian over `id`. */
  predicate Counts(o: Options, guardians: set<string>, id: string, item: Item) {
    item.Item? && item.address != "" && item.address in guardians && Verifies(o, id, item)
  }

  /** The distinct declared guardians with at least one verifying entry. */
  function GoodSigners(o: Options, guardians: set<string>, id: string, items: seq<Item>): set<string> {
    set i | 0 <= i < |items| && Counts(o, guardians, id, items[i]) :: items[i].address
  }

  // ----- a revocation's quorum -----

  function LenientProblem(d: Descriptor, m: nat, items: seq<Item>, id: string, o: Options): Option<Code> {
    if !o.skipSignatures && o.bip322.None? then Some(BadSig)
    else Require(m <= |GoodSigners(o, GuardianSet(d), id, items)|, ThresholdNotMet)
  }

  lemma GoodSignersStep(o: Options, guardians: set<string>, id: string, items: seq<Item>, i: nat)
    requires i < |items|
    ensures GoodSigners(o, guardians, id, items[..i + 1])
         == GoodSigners(o, guardians, id, items[..i])
            + if Counts(o, guardians, id, items[i]) then {items[i].address} else {}
  {
    var before, after := GoodSigners(o, guardians, id, items[..i]), GoodSigners(o, guardians, id, items[..i + 1]);
    forall a | a in before ensures a in after {
      var k :| 0 <= k < i && Counts(o, guardians, id, items[..i][k]) && items[..i][k].address == a;
      assert items[..i + 1][k] == items[..i][k];
    }
    forall a | a in after
      ensures a in before || (Counts(o, guardians, id, items[i]) && a == items[i].address)
    {
      var k :| 0 <= k < i + 1 && Counts(o, guardians, id, items[..i + 1][k]) && items[..i + 1][k].address == a;
      assert k < i ==> items[..i][k] == items[..i + 1][k];
    }
    if Counts(o, guardians, id, items[i]) {
      assert items[..i + 1][i] == items[i];
    }
  }

  lemma {:induction false} SubsetSize<T>(a: set<T>, b: set<T>)
    requires a <= b
    ensures |a| <= |b|
  {
    if x :| x in a {
      SubsetSize(a - {x}, b - {x});
    }
  }

  /** The quorum is monotone in the entries, whatever their order and however often repeated. */
  lemma MoreItemsMoreSigners(o: Options, guardians: set<string>, id: string, items: seq<Item>, more: seq<Item>)
    requires forall i | 0 <= i < |items| && Counts(o, guardians, id, items[i]) :: items[i] in more
    ensures GoodSigners(o, guardians, id, items) <= GoodSigners(o, guardians, id, more)
  {
    forall a | a in GoodSigners(o, guardians, id, items) ensures a in GoodSigners(o, guardians, id, more) {
      var i :| 0 <= i < |items| && Counts(o, guardians, id, items[i]) && items[i].address == a;
      var j :| 0 <= j < |more| && more[j] == items[i];
    }
  }

  lemma PrefixCountsLess(o: Options, guardians: set<string>, id: string, items: seq<Item>, i: nat)
    requires i <= |items|
    ensures |GoodSigners(o, guardians, id, items[..i])| <= |GoodSigners(o, guardians, id, items)|
  {
    MoreItemsMoreSigners(o, guardians, id, items[..i], items);
    SubsetSize(GoodSigners(o, guardians, id, items[..i]), GoodSigners(o, guardians, id, items));
  }

  /** Entries that do not count are passed over; M distinct signers end the loop early. */
  method RevocationQuorum(d: Descriptor, m: nat, items: seq<Item>, id: string, o: Options)
    returns (problem: Option<Code>)
    requires 1 <= m
    ensures problem == LenientProblem(d, m, items, id, o)
  {
    if !o.skipSignatures && o.bip322.None? {
      return Some(BadSig);
    }
    var guardians := GuardianSet(d);
    var counted: set<string> := {};
    for i := 0 to |items|
      invariant counted == GoodSigners(o, guardians, id, items[..i]) && |counted| < m
    {
      GoodSignersStep(o, guardians, id, items, i);
      var s := items[i];
      if s.BadItem? || s.address == "" {
        continue;
      }
      if s.address !in guardians || s.address in counted {
        continue;
      }
      if !o.skipSignatures && !o.bip322.value(id, s.value, s.address) {
        continue;
      }
      counted := counted + {s.address};
      if |counted| >= m {
        PrefixCountsLess(o, guardians, id, items, i + 1);
        return None;
      }
    }
    assert items[..|items|] == items;
    return Some(ThresholdNotMet);
  }

  /** Two blocks holding the same counting entries, in any order, repeated or mixed with any
      others, get the same verdict. */
  lemma LenientIgnoresTheRest(d: Descriptor, m: nat, items: seq<Item>, other: seq<Item>, id: string, o: Options)
    requires forall s | Counts(o, GuardianSet(d), id, s) :: s in items <==> s in other
    ensures LenientProblem(d, m, items, id, o) == LenientProblem(d, m, other, id, o)
  {
    MoreItemsMoreSigners(o, GuardianSet(d), id, items, other);
    MoreItemsMoreSigners(o, GuardianSet(d), id, other, items);
    assert GoodSigners(o, GuardianSet(d), id, items) == GoodSigners(o, GuardianSet(d), id, other);
  }

  // ----- a grant's quorum -----

  /** Every entry is an object with an address and a value. */
  predicate AllShaped(items: seq<Item>) { forall i | 0 <= i < |items| :: items[i].Item? && items[i].address != "" }

  /** The first signer that is unknown or repeats one before it. */
  function SignersProblem(guardians: set<string>, items: seq<Item>, seen: set<string>): (r: Option<Code>)
    requires AllShaped(items)
  {
    if items == [] then None
    else if items[0].address !in guardians then Some(UnknownGuardian)
    else if items[0].address in seen then Some(DuplicateGuardian)
    else SignersProblem(guardians, items[1..], seen + {items[0].address})
  }

  predicate AllVerify(o: Options, id: string, items: seq<Item>)
    requires AllShaped(items)
  {
    forall i | 0 <= i < |items| :: Verifies(o, id, items[i])
  }

  function StrictProblem(d: Descriptor, m: nat, block: Block, id: string, o: Options): Option<Code> {
    var items := block.signatures;
    if block.alg != "federation-bip322" then Some(Malformed)
    else if block.threshold != d.threshold then Some(ThresholdMismatch)
    else if !AllShaped(items) then Some(Malformed)
    else if |items| < m then Some(ThresholdNotMet)
    else Or(SignersProblem(GuardianSet(d), items, {}), Require(AllVerify(o, id, items), BadSig))
  }

  datatype Purpose = Grant | Revoke

  function QuorumProblem(w: World, p: Principal, block: Block, id: string, o: Options, purpose: Purpose): Option<Code> {
    match DescriptorProblem(w, p)
    case Some(code) => Some(code)
    case None =>
      match ParseThreshold(p.descriptor.threshold)
      case None => Some(Malformed)
      case Some((m, _)) =>
        if purpose == Revoke then LenientProblem(p.descriptor, m, block.signatures, id, o)
        else StrictProblem(p.descriptor, m, block, id, o)
  }

  method CheckSigners(guardians: set<string>, items: seq<Item>) returns (problem: Option<Code>)
    requires AllShaped(items)
    ensures problem == SignersProblem(guardians, items, {})
  {
    var seen: set<string> := {};
    assert items[0..] == items;
    for i := 0 to |items|
      invariant SignersProblem(guardians, items, {}) == SignersProblem(guardians, items[i..], seen)
    {
      assert items[i..][0] == items[i] && items[i..][1..] == items[i + 1..];
      var s := items[i];
      if s.address !in guardians {
        return Some(UnknownGuardian);
      }
      if s.address in seen {
        return Some(DuplicateGuardian);
      }
      seen := seen + {s.address};
    }
    assert items[|items|..] == [];
    return None;
  }

  method CheckFederationQuorum(w: World, p: Principal, block: Block, id: string, o: Options, purpose: Purpose)
    returns (problem: Option<Code>)
    ensures problem == QuorumProblem(w, p, block, id, o, purpose)
  {
    problem := DescriptorProblem(w, p);
    if problem.Some? {
      return;
    }
    var d := p.descriptor;
    var (m, _) := ParseThreshold(d.threshold).value;
    if purpose == Revoke {
      problem := RevocationQuorum(d, m, block.signatures, id, o);
      return;
    }
    var items := block.signatures;
    if block.alg != "federation-bip322" {
      return Some(Malformed);
    }
    if block.threshold != d.threshold {
      return Some(ThresholdMismatch);
    }
    if !AllShaped(items) {
      return Some(Malformed);
    }
    if |items| < m {
      return Some(ThresholdNotMet);
    }
    problem := CheckSigners(GuardianSet(d), items);
    if problem.Some? {
      return;
    }
    for i := 0 to |items|
      invariant forall j | 0 <= j < i :: Verifies(o, id, items[j])
    {
      if !Verifies(o, id, items[i]) {
        return Some(BadSig);
      }
    }
    return None;
  }

  // ----- what acceptance counts -----

  lemma {:induction false} SignersAreDistinct(guardians: set<string>, items: seq<Item>, seen: set<string>)
    requires AllShaped(items)
    requires SignersProblem(guardians, items, seen).None?
    ensures forall i | 0 <= i < |items| :: items[i].address in guardians && items[i].address !in seen
    ensures forall i, j | 0 <= i < j < |items| :: items[i].address != items[j].address
  {
    if items != [] {
      SignersAreDistinct(guardians, items[1..], seen + {items[0].address});
      forall i | 1 <= i < |items|
        ensures items[i].address in guardians && items[i].address !in seen && items[i].address != items[0].address
      {
        assert items[i] == items[1..][i - 1];
      }
      forall i, j | 1 <= i < j < |items| ensures items[i].address != items[j].address {
        assert items[i] == items[1..][i - 1] && items[j] == items[1..][j - 1];
      }
    }
  }

  lemma {:induction false} DistinctSignersCount(o: Options, guardians: set<string>, id: string, items: seq<Item>)
    requires AllShaped(items) && forall i | 0 <= i < |items| :: Counts(o, guardians, id, items[i])
    requires forall i, j | 0 <= i < j < |items| :: items[i].address != items[j].address
    ensures |GoodSigners(o, guardians, id, items)| == |items|
  {
    if items != [] {
      var n := |items| - 1;
      DistinctSignersCount(o, guardians, id, items[..n]);
      GoodSignersStep(o, guardians, id, items, n);
      assert items[..n + 1] == items;
      assert items[n].address !in GoodSigners(o, guardians, id, items[..n]);
    }
  }

  /** A strict grant rests on at least M distinct declared guardians, each with a verifying
      signature, also when the guardian list repeats an address; and what the strict check
      accepts the lenient one accepts. */
  lemma StrictCountsDistinctGuardians(d: Descriptor, m: nat, block: Block, id: string, o: Options)
    requires 1 <= m && StrictProblem(d, m, block, id, o).None?
    ensures m <= |GoodSigners(o, GuardianSet(d), id, block.signatures)| <= |GuardianSet(d)|
    ensures LenientProblem(d, m, block.signatures, id, o).None?
  {
    var items, guardians := block.signatures, GuardianSet(d);
    SignersAreDistinct(guardians, items, {});
    DistinctSignersCount(o, guardians, id, items);
    SubsetSize(GoodSigners(o, guardians, id, items), guardians);
    if !o.skipSignatures {
      assert Verifies(o, id, items[0]);
    }
  }

  // ----- the descriptor's identity -----

  lemma TextDecides(xs: seq<string>)
    ensures KeyDecides(xs, Self)
  {
  }

  lemma SetOfAddresses(d: Descriptor)
    ensures forall a :: a in GuardianSet(d) <==> a in Addresses(d)
  {
    forall a ensures a in GuardianSet(d) <==> a in Addresses(d) {
      if a in GuardianSet(d) {
        var i :| 0 <= i < |d.guardians| && d.guardians[i].address == a;
        assert Addresses(d)[i] == a;
      }
    }
  }

  lemma RelistedHasSameGuardians(d: Descriptor, e: Descriptor)
    requires multiset(Addresses(d)) == multiset(Addresses(e))
    ensures GuardianSet(d) == GuardianSet(e) && |d.guardians| == |e.guardians|
    ensures (exists i | 0 <= i < |d.guardians| :: d.guardians[i].address == "")
       <==> (exists i | 0 <= i < |e.guardians| :: e.guardians[i].address == "")
  {
    assert |multiset(Addresses(d))| == |multiset(Addresses(e))|;
    SetOfAddresses(d);
    SetOfAddresses(e);
    forall a ensures a in Addresses(d) <==> a in Addresses(e) {
      assert a in Addresses(d) <==> a in multiset(Addresses(d));
      assert a in Addresses(e) <==> a in multiset(Addresses(e));
    }
    assert (exists i | 0 <= i < |d.guardians| :: d.guardians[i].address == "") <==> "" in GuardianSet(d);
    assert (exists i | 0 <= i < |e.guardians| :: e.guardians[i].address == "") <==> "" in GuardianSet(e);
  }

  /** Relisting the guardians in another order, or renaming them, changes neither the
      descriptor's id nor any verdict under it. */
  lemma RelistingChangesNothing(w: World, p: Principal, e: Descriptor, block: Block, id: string, o: Options,
                                purpose: Purpose)
    requires e.kind == p.descriptor.kind && e.threshold == p.descriptor.threshold
    requires multiset(Addresses(e)) == multiset(Addresses(p.descriptor))
    ensures DescriptorMessage(e) == DescriptorMessage(p.descriptor)
    ensures QuorumProblem(w, p.(descriptor := e), block, id, o, purpose) == QuorumProblem(w, p, block, id, o, purpose)
  {
    TextDecides(Addresses(e));
    SortIgnoresOrder(Addresses(e), Addresses(p.descriptor), Self);
    RelistedHasSameGuardians(e, p.descriptor);
  }

  // ----- the threshold's text and the count -----

  lemma DigitsHoldNoDash(x: string)
    requires AllDigits(x)
    ensures '-' !in x
  {
  }

  /** A threshold is read as the two numbers its digits stand for, when the first is at least one and
      at most the second; and nothing else is a threshold. */
  lemma ThresholdIsItsDigits(x: string, y: string)
    requires AllDigits(x) && AllDigits(y) && x != "" && y != ""
    ensures ParseThreshold(x + "-of-" + y)
         == if 1 <= NumeralValue(x, 10) <= NumeralValue(y, 10) then Some((NumeralValue(x, 10), NumeralValue(y, 10)))
            else None
  {
    var t := x + "-of-" + y;
    DigitsHoldNoDash(x);
    FirstPattern(x, "-of-", y);
    assert t[..|x|] == x && t[|x| + 4..] == y;
  }

  lemma ThresholdHasDigits(t: string) returns (x: string, y: string)
    requires ParseThreshold(t).Some?
    ensures t == x + "-of-" + y && x != "" && y != "" && AllDigits(x) && AllDigits(y)
  {
    var i := IndexOf(t, "-of-");
    x, y := t[..i], t[i + 4..];
    assert t[i..] == "-of-" + t[i..][4..] && t[i..][4..] == y;
  }

  /** `M-of-N` as it is written reads as M and N. */
  lemma ThresholdReadsBack(m: nat, n: nat)
    requires 1 <= m <= n
    ensures ParseThreshold(Numeral(m, 10) + "-of-" + Numeral(n, 10)) == Some((m, n))
  {
    NumeralReadsBack(m, 10);
    NumeralReadsBack(n, 10);
    ThresholdIsItsDigits(Numeral(m, 10), Numeral(n, 10));
  }

  ghost predicate ItemConfirms(o: Options, id: string, item: Item, address: string) {
    && item.Item? && item.address == address
    && (o.skipSignatures || (o.bip322.Some? && o.bip322.value(id, item.value, address)))
  }

  /** The signer: a declared guardian one of whose entries the wallet check confirms for this id. */
  ghost predicate HasSigned(o: Options, d: Descriptor, id: string, items: seq<Item>, address: string) {
    && address != "" && (exists g | 0 <= g < |d.guardians| :: d.guardians[g].address == address)
    && exists i | 0 <= i < |items| :: ItemConfirms(o, id, items[i], address)
  }

  /** The set counted is the set of confirmed guardians. */
  lemma GoodSignersAreConfirmed(o: Options, d: Descriptor, id: string, items: seq<Item>, address: string)
    ensures address in GoodSigners(o, GuardianSet(d), id, items) <==> HasSigned(o, d, id, items, address)
  {
    if address in GoodSigners(o, GuardianSet(d), id, items) {
      var i :| 0 <= i < |items| && Counts(o, GuardianSet(d), id, items[i]) && items[i].address == address;
      assert ItemConfirms(o, id, items[i], address);
    }
    if HasSigned(o, d, id, items, address) {
      var i :| 0 <= i < |items| && ItemConfirms(o, id, items[i], address);
      assert Counts(o, GuardianSet(d), id, items[i]);
    }
  }

  /** What the verifier asks of a federation principal before it reads signatures. */
  predicate Declared(w: World, p: Principal, x: string, y: string)
    requires AllDigits(x) && AllDigits(y)
  {
    && p.alg == "federation" && p.descriptor.kind == "agent-federation"
    && x != "" && y != "" && p.descriptor.threshold == x + "-of-" + y
    && 1 <= NumeralValue(x, 10) <= NumeralValue(y, 10) == |p.descriptor.guardians|
    && (forall i | 0 <= i < |p.descriptor.guardians| :: p.descriptor.guardians[i].address != "")
    && p.descriptorId == w.sha(DescriptorMessage(p.descriptor))
  }

  lemma DeclaredPasses(w: World, p: Principal, x: string, y: string)
    requires AllDigits(x) && AllDigits(y) && x != "" && y != "" && p.descriptor.threshold == x + "-of-" + y
    ensures DescriptorProblem(w, p).None? <==> Declared(w, p, x, y)
  {
    ThresholdIsItsDigits(x, y);
  }

  /** Whatever the purpose, acceptance rests on at least as many confirmed guardians as the threshold's
      first number says. */
  lemma QuorumCounts(w: World, p: Principal, block: Block, id: string, o: Options, purpose: Purpose)
    returns (x: string, y: string)
    requires QuorumProblem(w, p, block, id, o, purpose).None?
    ensures AllDigits(x) && AllDigits(y) && Declared(w, p, x, y)
    ensures NumeralValue(x, 10) <= |GoodSigners(o, GuardianSet(p.descriptor), id, block.signatures)|
  {
    x, y := ThresholdHasDigits(p.descriptor.threshold);
    DeclaredPasses(w, p, x, y);
    ThresholdIsItsDigits(x, y);
    if purpose == Grant {
      StrictCountsDistinctGuardians(p.descriptor, NumeralValue(x, 10), block, id, o);
    }
  }

  /** For a revocation that is all: a declared principal, a wallet check, and that many guardians. */
  lemma RevocationQuorumIsExact(w: World, p: Principal, block: Block, id: string, o: Options, x: string, y: string)
    requires AllDigits(x) && AllDigits(y) && Declared(w, p, x, y)
    ensures QuorumProblem(w, p, block, id, o, Revoke)
         == if !o.skipSignatures && o.bip322.None? then Some(BadSig)
            else if NumeralValue(x, 10) <= |GoodSigners(o, GuardianSet(p.descriptor), id, block.signatures)| then None
            else Some(ThresholdNotMet)
  {
    DeclaredPasses(w, p, x, y);
    ThresholdIsItsDigits(x, y);
  }

  /** Every entry is a declared guardian's, no two the same guardian's, and the wallet check confirms each. */
  ghost predicate AllSigned(o: Options, d: Descriptor, id: string, items: seq<Item>) {
    && (forall i | 0 <= i < |items| ::
          && items[i].Item? && items[i].address != "" && ItemConfirms(o, id, items[i], items[i].address)
          && exists g | 0 <= g < |d.guardians| :: d.guardians[g].address == items[i].address)
    && forall i, j | 0 <= i < j < |items| :: items[i].address != items[j].address
  }

  lemma {:induction false} DistinctSignersPass(guardians: set<string>, items: seq<Item>, seen: set<string>)
    requires AllShaped(items)
    requires forall i | 0 <= i < |items| :: items[i].address in guardians && items[i].address !in seen
    requires forall i, j | 0 <= i < j < |items| :: items[i].address != items[j].address
    ensures SignersProblem(guardians, items, seen).None?
  {
    if items != [] {
      DistinctSignersPass(guardians, items[1..], seen + {items[0].address});
    }
  }

  lemma StrictIsAllSigned(d: Descriptor, m: nat, block: Block, id: string, o: Options)
    ensures StrictProblem(d, m, block, id, o).None?
       <==> && block.alg == "federation-bip322" && block.threshold == d.threshold && m <= |block.signatures|
            && AllSigned(o, d, id, block.signatures)
  {
    var items, guardians := block.signatures, GuardianSet(d);
    if StrictProblem(d, m, block, id, o).None? {
      SignersAreDistinct(guardians, items, {});
      forall i | 0 <= i < |items|
        ensures ItemConfirms(o, id, items[i], items[i].address)
        ensures exists g | 0 <= g < |d.guardians| :: d.guardians[g].address == items[i].address
      {
        assert Verifies(o, id, items[i]) && items[i].address in guardians;
      }
    } else if AllSigned(o, d, id, items) {
      assert AllShaped(items);
      forall i | 0 <= i < |items| ensures items[i].address in guardians && Verifies(o, id, items[i]) {
        assert ItemConfirms(o, id, items[i], items[i].address);
      }
      DistinctSignersPass(guardians, items, {});
    }
  }

  /** For a grant: as many entries as the threshold says, under its own text, all of them signed. */
  lemma GrantQuorumIsExact(w: World, p: Principal, block: Block, id: string, o: Options, x: string, y: string)
    requires AllDigits(x) && AllDigits(y) && Declared(w, p, x, y)
    ensures QuorumProblem(w, p, block, id, o, Grant).None?
       <==> && block.alg == "federation-bip322" && block.threshold == x + "-of-" + y
            && NumeralValue(x, 10) <= |block.signatures| && AllSigned(o, p.descriptor, id, block.signatures)
  {
    DeclaredPasses(w, p, x, y);
    ThresholdIsItsDigits(x, y);
    StrictIsAllSigned(p.descriptor, NumeralValue(x, 10), block, id, o);
  }
}
