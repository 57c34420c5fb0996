/** The replay guard: ids of accepted actions, kept until they could no longer pass the
    freshness bound (agent-core/src/verify.ts, createReplayGuard). */
module ReplayGuard {
  import opened Text
  import opened Scope
  import opened RoundTrip
  import opened Canonical
  import opened Messages
  import opened Envelopes
  import opened Verify
  import opened Authority

  /** One call: the action's id and claimed time, and the clock, in milliseconds. */
  datatype Use = Use(id: string, signedAt: string, now: int)

  /** When each id may be forgotten; an id whose time did not parse is never forgotten. */
  type Kept = map<string, Option<int>>

  predicate IsPast(until: Option<int>, t: int) { until.Some? && until.value <= t }

  function Purge(kept: Kept, t: int): Kept { map id | id in kept && !IsPast(kept[id], t) :: kept[id] }

  /** How long the use's id is kept: until `signed_at` plus the bound, or the clock plus the bound
      when `signed_at` is not in ISO form. */
  function Until(w: World, skew: int, u: Use): Option<int> {
    if !IsIsoUtc(u.signedAt) then Some(u.now + skew)
    else match w.time(u.signedAt) case None => None case Some(s) => Some(s + skew)
  }

  predicate IsFirst(kept: Kept, u: Use) { u.id != "" && u.id !in Purge(kept, u.now) }

  function After(w: World, skew: int, kept: Kept, u: Use): Kept {
    if u.id == "" then kept
    else
      var left := Purge(kept, u.now);
      if u.id in left then left else left[u.id := Until(w, skew, u)]
  }

  class Guard {
    var keepUntil: Kept
    const maxSkewMs: int

    constructor (maxSkewMs: int)
      ensures keepUntil == map[] && this.maxSkewMs == maxSkewMs
    {
      keepUntil := map[];
      this.maxSkewMs := maxSkewMs;
    }

    /** The loop over the entries, deleting those whose time has come. */
    method Forget(t: int)
      modifies this
      ensures keepUntil == Purge(old(keepUntil), t)
    {
      var left := keepUntil.Keys;
      while left != {}
        invariant left <= old(keepUntil).Keys
        invariant keepUntil
               == map id | id in old(keepUntil) && (id in left || !IsPast(old(keepUntil)[id], t)) :: old(keepUntil)[id]
        decreases |left|
      {
        var id :| id in left;
        left := left - {id};
        if IsPast(keepUntil[id], t) {
          keepUntil := keepUntil - {id};
        }
      }
    }

    method FirstUse(w: World, u: Use) returns (first: bool)
      modifies this
      ensures first == IsFirst(old(keepUntil), u)
      ensures keepUntil == After(w, maxSkewMs, old(keepUntil), u)
    {
      if u.id == "" {
        return false;
      }
      Forget(u.now);
      if u.id in keepUntil {
        return false;
      }
      keepUntil := keepUntil[u.id := Until(w, maxSkewMs, u)];
      return true;
    }
  }

  // ----- whole runs -----

  ghost predicate ClockRuns(uses: seq<Use>) { forall i, j | 0 <= i < j < |uses| :: uses[i].now <= uses[j].now }

  /** What the guard holds after the calls, from its creation. */
  function Held(w: World, skew: int, uses: seq<Use>): Kept {
    if uses == [] then map[] else After(w, skew, Held(w, skew, uses[..|uses| - 1]), uses[|uses| - 1])
  }

  /** The answer to call `k`. */
  predicate Answer(w: World, skew: int, uses: seq<Use>, k: nat)
    requires k < |uses|
  {
    IsFirst(Held(w, skew, uses[..k]), uses[k])
  }

  /** Call `j` was answered yes for this id and is remembered at `t`. */
  ghost predicate Remembers(w: World, skew: int, uses: seq<Use>, j: nat, id: string, t: int)
    requires j < |uses|
  {
    uses[j].id == id && Answer(w, skew, uses, j) && !IsPast(Until(w, skew, uses[j]), t)
  }

  ghost predicate Remembered(w: World, skew: int, uses: seq<Use>, id: string, t: int) {
    exists j | 0 <= j < |uses| :: Remembers(w, skew, uses, j, id, t)
  }

  lemma PurgeTwice(kept: Kept, s: int, t: int)
    requires s <= t
    ensures Purge(Purge(kept, s), t) == Purge(kept, t)
  {
  }

  lemma AnswerOfPrefix(w: World, skew: int, uses: seq<Use>, k: nat, j: nat)
    requires j < k <= |uses|
    ensures Answer(w, skew, uses[..k], j) == Answer(w, skew, uses, j)
  {
    assert uses[..k][..j] == uses[..j];
  }

  lemma RememberedStep(w: World, skew: int, uses: seq<Use>, n: nat, id: string, t: int)
    requires |uses| == n + 1
    ensures Remembered(w, skew, uses, id, t)
       <==> Remembered(w, skew, uses[..n], id, t) || Remembers(w, skew, uses, n, id, t)
  {
    forall j | 0 <= j < n
      ensures Remembers(w, skew, uses, j, id, t) <==> Remembers(w, skew, uses[..n], j, id, t)
    {
      AnswerOfPrefix(w, skew, uses, n, j);
    }
  }

  lemma ForgottenStays(w: World, skew: int, uses: seq<Use>, id: string, s: int, t: int)
    requires s <= t && Remembered(w, skew, uses, id, t)
    ensures Remembered(w, skew, uses, id, s)
  {
    var j :| 0 <= j < |uses| && Remembers(w, skew, uses, j, id, t);
    assert Remembers(w, skew, uses, j, id, s);
  }

  /** What is held is exactly what was answered yes and has not expired. */
  lemma {:induction false} HeldIsRemembered(w: World, skew: int, uses: seq<Use>, id: string, t: int)
    requires ClockRuns(uses) && (uses != [] ==> uses[|uses| - 1].now <= t)
    ensures id in Purge(Held(w, skew, uses), t) <==> Remembered(w, skew, uses, id, t)
  {
    if uses != [] {
      var n := |uses| - 1;
      var before, u := uses[..n], uses[n];
      var kept := Held(w, skew, before);
      HeldIsRemembered(w, skew, before, id, t);
      HeldIsRemembered(w, skew, before, id, u.now);
      PurgeTwice(kept, u.now, t);
      RememberedStep(w, skew, uses, n, id, t);
      if u.id == id && IsFirst(kept, u) {
        if Remembered(w, skew, before, id, t) {
          ForgottenStays(w, skew, before, id, u.now, t);
        }
      }
    }
  }

  /** Over a whole run with a clock that never goes back, a call is a first use exactly when no
      earlier yes to the same id is still to be remembered. */
  lemma FirstUseIsExact(w: World, skew: int, uses: seq<Use>, k: nat)
    requires ClockRuns(uses) && k < |uses|
    ensures Answer(w, skew, uses, k)
       <==> && uses[k].id != ""
            && !exists j | 0 <= j < k :: uses[j].id == uses[k].id && Answer(w, skew, uses, j)
                                         && !IsPast(Until(w, skew, uses[j]), uses[k].now)
  {
    var before := uses[..k];
    HeldIsRemembered(w, skew, before, uses[k].id, uses[k].now);
    forall j | 0 <= j < k ensures Answer(w, skew, before, j) == Answer(w, skew, uses, j) && before[j] == uses[j] {
      AnswerOfPrefix(w, skew, uses, k, j);
    }
    assert forall j | 0 <= j < k ::
      Remembers(w, skew, before, j, uses[k].id, uses[k].now)
      <==> uses[j].id == uses[k].id && Answer(w, skew, uses, j) && !IsPast(Until(w, skew, uses[j]), uses[k].now);
  }

  // ----- together with the verifier -----

  function UseOf(a: Action, now: int): Use { Use(a.id, a.signedAt, now) }

  /** Accepted live and answered yes at call `k`. */
  ghost predicate ActedOn(w: World, o: Options, skew: int, uses: seq<Use>, k: nat,
                          a: Action, d: Link, chain: seq<Link>)
  {
    && k < |uses| && d.Delegation? && IsChain(chain)
    && uses[k] == UseOf(a, uses[k].now)
    && IsAccepted(w, o, a, d, chain, Some(uses[k].now))
    && Answer(w, skew, uses, k)
  }

  /** What acceptance at `t` says of an action's own text and time. */
  ghost predicate FreshAt(w: World, o: Options, a: Action, t: int) {
    && IsIsoUtc(a.signedAt) && w.time(a.signedAt).Some?
    && -o.maxSkewMs <= t - w.time(a.signedAt).value <= o.maxSkewMs
    && ProperAction(ActionFields(a)) && ActionId(w, a) == a.id && a.id != ""
  }

  lemma BoundIsFresh(w: World, o: Options, a: Action, leaf: Link, t: int)
    requires BindingProblem(w, o, a, leaf).None? && Parse(a.scopeExercised).Some?
    requires StaleProblem(w, o, a, Some(t)).None?
    ensures FreshAt(w, o, a, t)
  {
    AcceptedBinds(w, o, a, leaf);
    BoundIsAdmitted(w, o, a, leaf);
  }

  lemma AcceptedIsFresh(w: World, o: Options, a: Action, d: Link, chain: seq<Link>, t: int)
    requires d.Delegation? && IsChain(chain) && IsAccepted(w, o, a, d, chain, Some(t))
    ensures FreshAt(w, o, a, t)
  {
    AuthorityParses(w, o, a, d, chain, Some(t));
    BoundIsFresh(w, o, a, Leaf(d, chain), t);
  }

  lemma FreshTwice(w: World, o: Options, skew: int, uses: seq<Use>, j: nat, k: nat, a: Action, b: Action)
    requires ClockRuns(uses) && j < k < |uses|
    requires uses[j] == UseOf(a, uses[j].now) && uses[k] == UseOf(b, uses[k].now) && a.id == b.id
    requires FreshAt(w, o, a, uses[j].now) && FreshAt(w, o, b, uses[k].now)
    requires Answer(w, skew, uses, j) && Answer(w, skew, uses, k)
    requires ActionId(w, a) == ActionId(w, b) ==> ActionMessage(ActionFields(a)) == ActionMessage(ActionFields(b))
    ensures w.time(b.signedAt).Some? && skew <= uses[k].now - w.time(b.signedAt).value <= o.maxSkewMs
  {
    ActionMessageDecodes(ActionFields(a), ActionFields(b));
    FirstUseIsExact(w, skew, uses, k);
  }

  lemma ActedOnIsFresh(w: World, o: Options, skew: int, uses: seq<Use>, k: nat, a: Action, d: Link, chain: seq<Link>)
    requires ActedOn(w, o, skew, uses, k, a, d, chain)
    ensures FreshAt(w, o, a, uses[k].now)
  {
    AcceptedIsFresh(w, o, a, d, chain, uses[k].now);
  }

  /** A guard with bound `skew` beside a verifier with its own bound: one id is acted on twice
      only at a time the guard has given up and the verifier has not. With the guard's bound the
      larger it never is; with equal bounds only at the last instant. */
  lemma ActedOnOnce(w: World, o: Options, skew: int, uses: seq<Use>, j: nat, k: nat,
                    a: Action, d: Link, chain: seq<Link>, b: Action, e: Link, other: seq<Link>)
    requires ClockRuns(uses) && j < k
    requires ActedOn(w, o, skew, uses, j, a, d, chain) && ActedOn(w, o, skew, uses, k, b, e, other)
    requires a.id == b.id
    requires ActionId(w, a) == ActionId(w, b) ==> ActionMessage(ActionFields(a)) == ActionMessage(ActionFields(b))
    ensures w.time(b.signedAt).Some? && skew <= uses[k].now - w.time(b.signedAt).value <= o.maxSkewMs
  {
    ActedOnIsFresh(w, o, skew, uses, j, a, d, chain);
    ActedOnIsFresh(w, o, skew, uses, k, b, e, other);
    FreshTwice(w, o, skew, uses, j, k, a, b);
  }

  /** One action used at `s` and again at `t`. */
  function Twice(a: Action, s: int, t: int): seq<Use> { [UseOf(a, s), UseOf(a, t)] }

  lemma TwiceAnswers(w: World, skew: int, a: Action, s: int, t: int)
    requires a.id != "" && IsIsoUtc(a.signedAt) && w.time(a.signedAt).Some? && s <= t
    ensures Answer(w, skew, Twice(a, s, t), 0)
    ensures Answer(w, skew, Twice(a, s, t), 1) <==> skew <= t - w.time(a.signedAt).value
  {
    FirstUseIsExact(w, skew, Twice(a, s, t), 0);
    FirstUseIsExact(w, skew, Twice(a, s, t), 1);
  }

  /** The window is exact: an action accepted and used at `s` is acted on a second time at `t` if and
      only if the verifier still accepts it and the guard's bound has passed since `signed_at`. */
  lemma SecondUseIsExact(w: World, o: Options, skew: int, a: Action, d: Link, chain: seq<Link>, s: int, t: int)
    requires d.Delegation? && IsChain(chain) && IsAccepted(w, o, a, d, chain, Some(s)) && s <= t
    ensures w.time(a.signedAt).Some? && ActedOn(w, o, skew, Twice(a, s, t), 0, a, d, chain)
    ensures ActedOn(w, o, skew, Twice(a, s, t), 1, a, d, chain)
       <==> IsAccepted(w, o, a, d, chain, Some(t)) && skew <= t - w.time(a.signedAt).value
  {
    AcceptedIsFresh(w, o, a, d, chain, s);
    TwiceAnswers(w, skew, a, s, t);
  }

  /** The documentation says an id is kept as long as the action could pass. With a guard bound no
      larger than the verifier's it is not: an action accepted at `s` and again when the guard's bound
      has just passed is acted on both times. */
  lemma LastInstantIsForgotten(w: World, o: Options, skew: int, a: Action, d: Link, chain: seq<Link>, s: int, t: int)
    requires d.Delegation? && IsChain(chain) && s <= t
    requires w.time(a.signedAt).Some? && t == w.time(a.signedAt).value + skew
    requires IsAccepted(w, o, a, d, chain, Some(s)) && IsAccepted(w, o, a, d, chain, Some(t))
    ensures ActedOn(w, o, skew, Twice(a, s, t), 0, a, d, chain) && ActedOn(w, o, skew, Twice(a, s, t), 1, a, d, chain)
  {
    SecondUseIsExact(w, o, skew, a, d, chain, s, t);
  }

  // ----- times that are not read -----

  /** A use whose time is not in ISO form is remembered for the bound from the clock's own time, and one
      in that form that is no real time for good. */
  lemma UndatedUseIsRemembered(w: World, skew: int, id: string, signedAt: string, s: int, t: int)
    requires id != "" && s <= t && (IsIsoUtc(signedAt) ==> w.time(signedAt).None?)
    ensures var uses := [Use(id, signedAt, s), Use(id, signedAt, t)];
            && Answer(w, skew, uses, 0)
            && (Answer(w, skew, uses, 1) <==> !IsIsoUtc(signedAt) && skew <= t - s)
  {
    var uses := [Use(id, signedAt, s), Use(id, signedAt, t)];
    FirstUseIsExact(w, skew, uses, 0);
    FirstUseIsExact(w, skew, uses, 1);
  }
}
