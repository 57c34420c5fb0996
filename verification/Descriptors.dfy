/** What a federation descriptor's message determines: the guardians an id commits to
    (agent-core/src/federation.ts). */
module Descriptors {
  import opened Text
  import opened Sorting
  import opened Canonical
  import opened Marks
  import opened Envelopes
  import opened Federation

  lemma ThresholdIsOneLine(t: string)
    requires ParseThreshold(t).Some?
    ensures OneLine(t)
  {
    var i := IndexOf(t, "-of-");
    assert t == t[..i] + "-of-" + t[i + 4..] by { assert t[i..] == "-of-" + t[i..][4..]; }
    assert OneLine(t[..i]) && OneLine(t[i + 4..]);
  }

  /** There are as many guardians as the threshold says. */
  predicate Sized(d: Descriptor) {
    var t := ParseThreshold(d.threshold);
    t.Some? && |d.guardians| == t.value.1
  }

  /** The addresses as the message lists them. */
  function Listed(d: Descriptor): (xs: seq<string>)
    ensures |xs| == |d.guardians| && Sorted(xs, Self) && multiset(xs) == multiset(Addresses(d))
  {
    SortPermutes(Addresses(d), Self);
    Sort(Addresses(d), Self)
  }

  lemma ListedDecides(xs: seq<string>, d: Descriptor)
    requires Sorted(xs, Self) && multiset(xs) == multiset(Addresses(d))
    ensures xs == Listed(d)
  {
    TextDecides(xs);
    SortedIsUnique(xs, Listed(d), Self);
  }

  lemma DescriptorMessageParts(d: Descriptor)
    requires d.guardians != []
    ensures DescriptorMessage(d)
         == HEADING + ['\n'] + ("threshold: " + d.threshold + ['\n'] + Join(Mapped(Listed(d), GuardianLine), '\n'))
  {
    var t, lines := "threshold: " + d.threshold, Mapped(Listed(d), GuardianLine);
    JoinConcat([HEADING, t], lines, '\n');
    JoinConcat([HEADING], [t], '\n');
    assert [HEADING] + [t] == [HEADING, t];
  }

  const GUARDIAN_MARK := "\nguardian: "

  lemma GuardianMarkIsApart()
    ensures Apart(GUARDIAN_MARK, GUARDIAN_MARK)
  {
    ApartByLines(GUARDIAN_MARK, GUARDIAN_MARK, 0);
  }

  lemma LineRegroups(k: string, x: string, rest: string)
    ensures (k + x) + ['\n'] + (k + rest) == k + (x + (['\n'] + k) + rest)
  {
  }

  lemma {:induction false} LinesAreMarked(xs: seq<string>)
    requires xs != []
    ensures Join(Mapped(xs, GuardianLine), '\n') == "guardian: " + JoinBy(xs, GUARDIAN_MARK)
  {
    if |xs| > 1 {
      LinesAreMarked(xs[1..]);
      assert Mapped(xs, GuardianLine)[1..] == Mapped(xs[1..], GuardianLine);
      LineRegroups("guardian: ", xs[0], JoinBy(xs[1..], GUARDIAN_MARK));
      assert ['\n'] + "guardian: " == GUARDIAN_MARK;
    }
  }

  /** The addresses in order, a guardian's label between each two. */
  function ListText(d: Descriptor): string
    requires d.guardians != []
  {
    JoinBy(Listed(d), GUARDIAN_MARK)
  }

  lemma SameTextSameMessage(d: Descriptor, e: Descriptor)
    requires d.guardians != [] && e.guardians != [] && d.threshold == e.threshold && ListText(d) == ListText(e)
    ensures DescriptorMessage(d) == DescriptorMessage(e)
  {
    DescriptorMessageParts(d);
    DescriptorMessageParts(e);
    LinesAreMarked(Listed(d));
    LinesAreMarked(Listed(e));
  }

  /** Equal messages have one threshold and one text of addresses. */
  lemma SameMessageSameText(d: Descriptor, e: Descriptor)
    requires Sized(d) && Sized(e) && DescriptorMessage(d) == DescriptorMessage(e)
    ensures d.threshold == e.threshold && ListText(d) == ListText(e)
  {
    var t, u := "threshold: " + d.threshold, "threshold: " + e.threshold;
    var x, y := Join(Mapped(Listed(d), GuardianLine), '\n'), Join(Mapped(Listed(e), GuardianLine), '\n');
    DescriptorMessageParts(d);
    DescriptorMessageParts(e);
    Cancel(HEADING + ['\n'], t + ['\n'] + x, u + ['\n'] + y);
    ThresholdIsOneLine(d.threshold);
    ThresholdIsOneLine(e.threshold);
    OneLineConcat("threshold: ", d.threshold);
    OneLineConcat("threshold: ", e.threshold);
    CutFirst(t, x, u, y, '\n');
    Cancel("threshold: ", d.threshold, e.threshold);
    LinesAreMarked(Listed(d));
    LinesAreMarked(Listed(e));
    Cancel("guardian: ", ListText(d), ListText(e));
  }

  // ----- which descriptors share a message -----

  predicate SameGuardians(d: Descriptor, e: Descriptor) {
    d.threshold == e.threshold && multiset(Addresses(d)) == multiset(Addresses(e))
  }

  lemma SameGuardiansSameMessage(d: Descriptor, e: Descriptor)
    requires SameGuardians(d, e)
    ensures DescriptorMessage(d) == DescriptorMessage(e)
  {
    ListedDecides(Listed(e), d);
  }

  /** Guardians none of whose addresses holds the label of a guardian's line. */
  predicate Unlabelled(d: Descriptor) {
    forall i | 0 <= i < |d.guardians| :: !Contains(d.guardians[i].address, GUARDIAN_MARK)
  }

  lemma ListedStayUnlabelled(d: Descriptor)
    requires Unlabelled(d)
    ensures forall i | 0 <= i < |Listed(d)| :: !Contains(Listed(d)[i], GUARDIAN_MARK)
  {
    var xs := Listed(d);
    forall i | 0 <= i < |xs| ensures !Contains(xs[i], GUARDIAN_MARK) {
      assert xs[i] in multiset(xs);
      assert xs[i] in Addresses(d);
      var j :| 0 <= j < |d.guardians| && Addresses(d)[j] == xs[i];
    }
  }

  /** A descriptor whose addresses hold no guardian's label shares its message with any other whatever,
      exactly when they have the same threshold and the same addresses, counted with repetition. */
  lemma DescriptorMessageBinds(d: Descriptor, e: Descriptor)
    requires Sized(d) && Sized(e) && Unlabelled(d)
    ensures DescriptorMessage(d) == DescriptorMessage(e) <==> SameGuardians(d, e)
  {
    if SameGuardians(d, e) {
      SameGuardiansSameMessage(d, e);
    }
    if DescriptorMessage(d) == DescriptorMessage(e) {
      SameMessageSameText(d, e);
      ListedStayUnlabelled(d);
      GuardianMarkIsApart();
      JoinByReadsOneWay(Listed(d), Listed(e), GUARDIAN_MARK);
    }
  }

  /** So an accepted id fixes the guardians: no other accepted descriptor whatever has the id of one
      with unlabelled addresses, unless the two messages collide. */
  lemma SameIdSameGuardians(w: World, p: Principal, q: Principal)
    requires DescriptorProblem(w, p).None? && DescriptorProblem(w, q).None? && p.descriptorId == q.descriptorId
    requires Unlabelled(p.descriptor)
    requires w.sha(DescriptorMessage(p.descriptor)) == w.sha(DescriptorMessage(q.descriptor))
         ==> DescriptorMessage(p.descriptor) == DescriptorMessage(q.descriptor)
    ensures SameGuardians(p.descriptor, q.descriptor)
  {
    DescriptorMessageBinds(p.descriptor, q.descriptor);
  }

  // ----- labelled addresses -----

  predicate NonEmpty(xs: seq<string>) { forall i | 0 <= i < |xs| :: xs[i] != "" }

  /** The descriptor passes every check on its own form. */
  predicate Admitted(d: Descriptor) {
    Sized(d) && d.kind == "agent-federation" && forall i | 0 <= i < |d.guardians| :: d.guardians[i].address != ""
  }

  lemma AdmittedPasses(w: World, d: Descriptor)
    requires Admitted(d)
    ensures DescriptorProblem(w, Principal("federation", w.sha(DescriptorMessage(d)), d)).None?
  {
  }

  /** The pieces between labels, inside addresses and out. */
  function PiecesOf(d: Descriptor): seq<string>
    requires d.guardians != []
  {
    Pieces(ListText(d), GUARDIAN_MARK)
  }

  /** Of all groupings of the pieces into as many non-empty addresses in text order, there is no other. */
  ghost predicate OneGrouping(d: Descriptor)
    requires d.guardians != []
  {
    forall ys | |ys| == |d.guardians| && NonEmpty(ys) && Sorted(ys, Self) && Groups(PiecesOf(d), ys, GUARDIAN_MARK) ::
      ys == Listed(d)
  }

  function Guards(address: string): Guardian { Guardian(address, "bip322", None) }

  /** The descriptor that lists these addresses instead. */
  function Regrouped(d: Descriptor, ys: seq<string>): Descriptor { d.(guardians := Mapped(ys, Guards)) }

  lemma RegroupedIsAdmitted(d: Descriptor, ys: seq<string>)
    requires Admitted(d) && |ys| == |d.guardians| && NonEmpty(ys) && Sorted(ys, Self)
    requires Groups(PiecesOf(d), ys, GUARDIAN_MARK)
    ensures var e := Regrouped(d, ys); Admitted(e) && Listed(e) == ys && DescriptorMessage(e) == DescriptorMessage(d)
  {
    var e := Regrouped(d, ys);
    assert Addresses(e) == ys;
    ListedDecides(ys, e);
    PiecesJoin(ListText(d), GUARDIAN_MARK);
    GroupsJoin(PiecesOf(d), ys, GUARDIAN_MARK);
    SameTextSameMessage(e, d);
  }

  lemma ListedAreNonEmpty(e: Descriptor)
    requires Admitted(e)
    ensures NonEmpty(Listed(e))
  {
    var xs := Listed(e);
    forall i | 0 <= i < |xs| ensures xs[i] != "" {
      assert xs[i] in multiset(xs);
      assert xs[i] in Addresses(e);
      var j :| 0 <= j < |e.guardians| && Addresses(e)[j] == xs[i];
    }
  }

  lemma SameMessageIsAGrouping(d: Descriptor, e: Descriptor)
    requires Admitted(d) && Admitted(e) && DescriptorMessage(e) == DescriptorMessage(d)
    ensures e.threshold == d.threshold && |Listed(e)| == |d.guardians| && NonEmpty(Listed(e))
    ensures Groups(PiecesOf(d), Listed(e), GUARDIAN_MARK)
  {
    SameMessageSameText(d, e);
    ListedAreNonEmpty(e);
    PiecesJoin(ListText(d), GUARDIAN_MARK);
    GuardianMarkIsApart();
    JoinGroups(PiecesOf(d), Listed(e), GUARDIAN_MARK);
  }

  /** The exact condition, labelled addresses and all: an admitted descriptor shares its message only
      with those of the same threshold and guardians when its pieces have no other grouping. */
  lemma DescriptorReadsOneWay(d: Descriptor)
    requires Admitted(d)
    ensures (forall e | Admitted(e) && DescriptorMessage(e) == DescriptorMessage(d) :: SameGuardians(d, e))
       <==> OneGrouping(d)
  {
    if OneGrouping(d) {
      forall e | Admitted(e) && DescriptorMessage(e) == DescriptorMessage(d) ensures SameGuardians(d, e) {
        SameMessageIsAGrouping(d, e);
        assert Listed(e) == Listed(d);
      }
    } else {
      var ys :| |ys| == |d.guardians| && NonEmpty(ys) && Sorted(ys, Self) && Groups(PiecesOf(d), ys, GUARDIAN_MARK)
                && ys != Listed(d);
      var e := Regrouped(d, ys);
      RegroupedIsAdmitted(d, ys);
      if SameGuardians(d, e) {
        ListedDecides(ys, d);
      }
    }
  }

  // ----- a collision -----

  function Pair(threshold: string, a: string, b: string): Descriptor {
    Descriptor("agent-federation", threshold, [Guards(a), Guards(b)])
  }

  lemma PairIsListed(threshold: string, a: string, b: string)
    requires !Less(b, a)
    ensures Addresses(Pair(threshold, a, b)) == [a, b] && Listed(Pair(threshold, a, b)) == [a, b]
  {
    assert Addresses(Pair(threshold, a, b)) == [a, b];
    ListedDecides([a, b], Pair(threshold, a, b));
  }

  lemma JoinTwoBy(a: string, b: string, m: string)
    ensures JoinBy([a, b], m) == a + m + b
  {
    assert [a, b][1..] == [b];
  }

  lemma PairText(threshold: string, a: string, b: string)
    requires !Less(b, a)
    ensures ListText(Pair(threshold, a, b)) == a + GUARDIAN_MARK + b
  {
    PairIsListed(threshold, a, b);
    JoinTwoBy(a, b, GUARDIAN_MARK);
  }

  lemma PairIsAdmitted(threshold: string, a: string, b: string)
    requires ParseThreshold(threshold).Some? && ParseThreshold(threshold).value.1 == 2 && a != "" && b != ""
    ensures Admitted(Pair(threshold, a, b))
  {
  }

  lemma SamePair(x: string, y: string, u: string, v: string)
    requires |x| > |u|
    ensures multiset([x, y]) == multiset([u, v]) <==> y == u && x == v
  {
    assert multiset([x, y]) == multiset{x, y} && multiset([u, v]) == multiset{u, v};
    assert x in multiset{x, y};
    if x == v {
      assert multiset{x, y} - multiset{x} == multiset{y} && multiset{u, v} - multiset{v} == multiset{u};
      assert y in multiset{y};
    }
  }

  /** Two guardians share a message with two others when an address holds the label of a guardian's
      line and the text order allows the other division. */
  lemma PairsCollide(threshold: string, a: string, b: string, c: string)
    requires !Less(c, a + GUARDIAN_MARK + b) && !Less(b + GUARDIAN_MARK + c, a)
    ensures DescriptorMessage(Pair(threshold, a + GUARDIAN_MARK + b, c))
         == DescriptorMessage(Pair(threshold, a, b + GUARDIAN_MARK + c))
  {
    var m := GUARDIAN_MARK;
    PairText(threshold, a + m + b, c);
    PairText(threshold, a, b + m + c);
    CutsRegroup(a, m, b, m, c);
    SameTextSameMessage(Pair(threshold, a + m + b, c), Pair(threshold, a, b + m + c));
  }

  lemma PairsDiffer(threshold: string, x: string, y: string, u: string, v: string)
    requires !Less(y, x) && !Less(v, u) && |x| > |u|
    ensures SameGuardians(Pair(threshold, x, y), Pair(threshold, u, v)) <==> y == u && x == v
  {
    PairIsListed(threshold, x, y);
    PairIsListed(threshold, u, v);
    SamePair(x, y, u, v);
  }

  /** Both descriptors pass every check on their form, and list other guardians but for the mirror case. */
  lemma DescriptorCollision(threshold: string, a: string, b: string, c: string)
    requires ParseThreshold(threshold).Some? && ParseThreshold(threshold).value.1 == 2 && a != "" && c != ""
    requires !Less(c, a + GUARDIAN_MARK + b) && !Less(b + GUARDIAN_MARK + c, a)
    ensures var d, e := Pair(threshold, a + GUARDIAN_MARK + b, c), Pair(threshold, a, b + GUARDIAN_MARK + c);
            Admitted(d) && Admitted(e) && DescriptorMessage(d) == DescriptorMessage(e)
            && (SameGuardians(d, e) <==> a == c && a + GUARDIAN_MARK + b == b + GUARDIAN_MARK + c)
  {
    var m := GUARDIAN_MARK;
    PairIsAdmitted(threshold, a + m + b, c);
    PairIsAdmitted(threshold, a, b + m + c);
    PairsCollide(threshold, a, b, c);
    PairsDiffer(threshold, a + m + b, c, a, b + m + c);
  }

  lemma OneOfTwo()
    ensures ParseThreshold("1-of-2") == Some((1, 2))
  {
    var t := "1-of-2";
    FirstOccurrence("1", '-', "of-2");
    assert t == "1" + ['-'] + "of-2";
    IndexOfFinds(t, "-of-");
    assert t[1..] == "-of-2" && "-of-" <= t[1..];
    assert !("-of-" <= t[0..]);
    assert t[..1] == "1" && t[5..] == "2";
    assert "1"[..0] == "" && "2"[..0] == "";
    assert NumeralValue("1", 10) == 1 && NumeralValue("2", 10) == 2;
  }

  /** An instance: "a\nguardian: b" and "c" under one id with "a" and "b\nguardian: c". */
  lemma TwoFederationsOneId(w: World) returns (p: Principal, q: Principal)
    ensures DescriptorProblem(w, p).None? && DescriptorProblem(w, q).None? && p.descriptorId == q.descriptorId
    ensures !SameGuardians(p.descriptor, q.descriptor)
  {
    var a, b, c, m := "a", "b", "c", GUARDIAN_MARK;
    OneOfTwo();
    assert (a + m + b)[0] == 'a' && (b + m + c)[0] == 'b' && a != c;
    DescriptorCollision("1-of-2", a, b, c);
    var d, e := Pair("1-of-2", a + m + b, c), Pair("1-of-2", a, b + m + c);
    p := Principal("federation", w.sha(DescriptorMessage(d)), d);
    q := Principal("federation", w.sha(DescriptorMessage(e)), e);
    AdmittedPasses(w, d);
    AdmittedPasses(w, e);
  }
}
