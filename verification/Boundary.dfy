/** Exactly where safety ends: which regimes of claims and which timing bounds leave at most one leader. */
module Boundary {
  import opened Values
  import opened LeaseApi
  import opened Election
  import opened Exclusion
  import opened TwoLeaders

  // Atomicity, reclaims and freshness

  /**
   * What the surroundings guarantee of a run: whether claims are whole from their read on, whether a name
   * may start again after leading, and how old a live leader's lease gets once it has been renewed.
   */
  datatype Regime = Regime(whole: bool, reclaims: bool, age: int)

  ghost predicate Admits(r: Regime, tr: Trace) {
    Valid(tr, r.whole) && AllFresh(tr, r.age) && (r.reclaims || NoReclaim(tr.states, tr.moves))
  }

  ghost predicate Safe(r: Regime) {
    forall tr, i :: Admits(r, tr) && 0 <= i < |tr.states| ==> AtMostOneLeader(tr.states[i])
  }

  /** With a negative age bound no leader ever renews, so nothing expires and nobody else gets the lease. */
  ghost predicate Unrenewed(s: State) {
    && Invariant(s)
    && (s.server.lease.Some? ==> s.server.lease.value.renewed.None?)
    && (forall p :: p in s.pods ==> PodUnrenewed(s, p, s.pods[p]))
  }

  ghost predicate PodUnrenewed(s: State, p: string, phase: Phase) {
    match phase
    case Fetched(seen, _) => seen.renewed.None? && Owned(s, p, seen)
    case Expired(_) => false
    case Checked(seen) => Owned(s, p, seen)
    case Leading(won, _) => Owned(s, p, won)
    case _ => true
  }

  /** A lease seen to be one's own is still there. */
  ghost predicate Owned(s: State, p: string, seen: Lease) {
    seen.holder == p ==> s.server.lease.Some? && s.server.lease.value.uid == seen.uid
  }

  lemma UnrenewedLeaders(s: State)
    requires Unrenewed(s)
    ensures AtMostOneLeader(s)
  {
    forall p, q | LeadsIn(s, p) && LeadsIn(s, q) ensures p == q {
      assert PodUnrenewed(s, p, s.pods[p]) && PodUnrenewed(s, q, s.pods[q]);
      assert PhaseGood(s, p, s.pods[p]) && PhaseGood(s, q, s.pods[q]);
    }
  }

  lemma StepKeepsUnrenewed(s: State, a: Action, t: State, age: int)
    requires Unrenewed(s) && Step(s, a) == Some(t) && Fresh(t, age) && age < 0
    ensures Unrenewed(t)
  {
    hide PodUnrenewed, PhaseGood, Genuine;
    StepKeepsInvariant(s, a, t);
    assert t.server.lease.Some? ==> t.server.lease.value.renewed.None? by { StaysUnrenewed(s, a, t, age); }
    forall p | p in t.pods ensures PodUnrenewed(t, p, t.pods[p]) {
      assert p in s.pods && PodUnrenewed(s, p, s.pods[p]);
      assert PhaseGood(s, p, s.pods[p]);
      PodStaysUnrenewed(s, a, t, p);
    }
  }

  lemma StaysUnrenewed(s: State, a: Action, t: State, age: int)
    requires Unrenewed(s) && Step(s, a) == Some(t) && Invariant(t) && Fresh(t, age) && age < 0
    ensures t.server.lease.Some? ==> t.server.lease.value.renewed.None?
  {
    hide PodUnrenewed, Step;
    RenewedByLive(s, a, t);
    if t.server.lease.Some? && t.server.lease.value.renewed.Some? {
      NotInFuture(t);
    }
  }

  lemma RenewedByLive(s: State, a: Action, t: State)
    requires Step(s, a) == Some(t) && (s.server.lease.Some? ==> s.server.lease.value.renewed.None?)
    ensures t.server.lease.Some? && t.server.lease.value.renewed.Some? ==> exists p :: LeadsIn(t, p)
  {
    assert !a.Tick? ==> (t.pods[a.pod].Leading? ==> LeadsIn(t, a.pod));
  }

  lemma PodStaysUnrenewed(s: State, a: Action, t: State, p: string)
    requires Unrenewed(s) && Step(s, a) == Some(t) && p in s.pods && p in t.pods
    requires PodUnrenewed(s, p, s.pods[p]) && PhaseGood(s, p, s.pods[p])
    ensures PodUnrenewed(t, p, t.pods[p])
  {
    hide Invariant;
    if !s.pods[p].Down? {
      LeaseStaysOwned(s, a, t, p);
    }
  }

  /** The lease goes away only while its holder is down. */
  lemma LeaseStaysOwned(s: State, a: Action, t: State, p: string)
    requires Unrenewed(s) && Step(s, a) == Some(t) && p in s.pods && !s.pods[p].Down?
    ensures forall seen :: Genuine(s, seen) && Owned(s, p, seen) && (s.pods[p].Fetched? || s.pods[p].Checked? || s.pods[p].Leading?) ==> Owned(t, p, seen)
  {
  }

  lemma ClaimKeepsUnrenewed(s: State, p: string, deleteFails: Option<bool>)
    requires Unrenewed(s) && p in s.pods && s.pods[p] == CreateDone
    ensures Unrenewed(ClaimEffect(s, p, deleteFails))
  {
    hide Invariant, Exec;
    var t := ClaimEffect(s, p, deleteFails);
    assert Invariant(t) by {
      ClaimIsSteps(s, p, deleteFails);
      ExecKeepsInvariant(s, ClaimActions(s, p, deleteFails));
    }
    assert t.server == s.server;
    forall q | q in t.pods ensures PodUnrenewed(t, q, t.pods[q]) {
      if q != p {
        assert t.pods[q] == s.pods[q] && PodUnrenewed(s, q, s.pods[q]);
      }
    }
  }

  lemma {:induction false} UnrenewedRun(r: Regime, tr: Trace, i: nat)
    requires Admits(r, tr) && r.age < 0 && i < |tr.states|
    ensures Unrenewed(tr.states[i])
  {
    hide Unrenewed, Fresh, ClaimEffect, Step, Exec;
    if i == 0 {
      StartsUnrenewed(tr.states[0]);
    } else {
      UnrenewedRun(r, tr, i - 1);
      var s, m, t := tr.states[i - 1], tr.moves[i - 1], tr.states[i];
      assert Follows(s, m, t, r.whole) && Fresh(t, r.age);
      match m
      case Claim(p, deleteFails) =>
        ClaimIsSteps(s, p, deleteFails);
        ClaimKeepsUnrenewed(s, p, deleteFails);
      case Other(a) =>
        StepKeepsUnrenewed(s, a, t, r.age);
    }
  }

  lemma StartsUnrenewed(s: State)
    requires Initial(s)
    ensures Unrenewed(s)
  {
  }

  lemma WholeClaimsAreSafe(r: Regime)
    requires r.whole && !r.reclaims && r.age <= EXPIRY
    ensures Safe(r)
  {
    hide Fresh, MoveFrom, AtMostOneLeader, NoReclaim;
    forall tr, i: int | Admits(r, tr) && 0 <= i < |tr.states| ensures AtMostOneLeader(tr.states[i]) {
      forall j | 0 <= j < |tr.states| ensures Fresh(tr.states[j], EXPIRY) {
        FreshLonger(tr.states[j], r.age, EXPIRY);
      }
      assert forall j :: 0 <= j < |tr.moves| ==> Follows(tr.states[j], tr.moves[j], tr.states[j + 1], true);
      MutualExclusion(tr.states, tr.moves, i);
    }
  }

  lemma FreshLonger(s: State, age: int, longer: int)
    requires age <= longer
    ensures Fresh(s, age) ==> Fresh(s, longer)
  {
  }

  lemma AllFreshLonger(tr: Trace, age: int, longer: int)
    requires AllFresh(tr, age) && age <= longer
    ensures AllFresh(tr, longer)
  {
    hide Fresh;
    forall i | 0 <= i < |tr.states| ensures Fresh(tr.states[i], longer) {
      FreshLonger(tr.states[i], age, longer);
    }
  }

  lemma TwoLeadersAreUnsafe(r: Regime, tr: Trace, p: string, q: string)
    requires Admits(r, tr) && p != q && LeadsIn(tr.Last(), p) && LeadsIn(tr.Last(), q)
    ensures !Safe(r)
  {
    var last := |tr.states| - 1;
    assert 0 <= last && tr.Last() == tr.states[last];
    hide Admits, LeadsIn;
    assert !AtMostOneLeader(tr.states[last]);
  }

  /**
   * At most one pod leads in every reachable state of every run a regime admits, if and only if the age
   * bound is negative, or claims are whole, no name claims again, and the age bound is within the expiry time.
   */
  lemma SafeExactly(r: Regime)
    ensures Safe(r) <==> r.age < 0 || (r.whole && !r.reclaims && r.age <= EXPIRY)
  {
    hide Safe, Valid, AllFresh, Calm;
    if r.age < 0 {
      UnrenewedIsSafe(r);
    } else if !r.whole {
      var tr := InterleavedClaims();
      AllFreshLonger(tr, 0, r.age);
      NoRestartsNoReclaim(tr, false);
      assert Valid(tr, r.whole);
      TwoLeadersAreUnsafe(r, tr, "b", "c");
    } else if r.reclaims {
      var tr := ReclaimAfterLeading();
      AllFreshLonger(tr, 0, r.age);
      TwoLeadersAreUnsafe(r, tr, "a", "b");
    } else if r.age > EXPIRY {
      var tr := StaleLeader();
      AllFreshLonger(tr, EXPIRY + 1, r.age);
      NoRestartsNoReclaim(tr, true);
      TwoLeadersAreUnsafe(r, tr, "a", "b");
    } else {
      WholeClaimsAreSafe(r);
    }
  }

  lemma NoRestartsNoReclaim(tr: Trace, whole: bool)
    requires Valid(tr, whole) && NoRestarts(tr)
    ensures NoReclaim(tr.states, tr.moves)
  {
  }

  lemma UnrenewedIsSafe(r: Regime)
    requires r.age < 0
    ensures Safe(r)
  {
    hide Admits, Unrenewed, AtMostOneLeader;
    forall tr, i: int | Admits(r, tr) && 0 <= i < |tr.states| ensures AtMostOneLeader(tr.states[i]) {
      UnrenewedRun(r, tr, i);
      UnrenewedLeaders(tr.states[i]);
    }
  }

  // Timing

  ghost predicate PacedRun(states: seq<State>, actions: seq<Action>, renewal: int, delay: int) {
    Run(states, actions) && Paced(states, actions, renewal, delay)
  }

  /** No pod ever finds the lease expired. */
  ghost predicate NoneExpired(states: seq<State>) {
    forall i, p :: 0 <= i < |states| && p in states[i].pods ==> !states[i].pods[p].Expired?
  }

  /** Whoever leads at any two moments is one and the same pod. */
  ghost predicate OneLeads(states: seq<State>) {
    forall i, j, p, q :: 0 <= i <= j < |states| && LeadsIn(states[i], p) && LeadsIn(states[j], q) ==> p == q
  }

  ghost predicate NeverExpires(renewal: int, delay: int) {
    forall states: seq<State>, actions: seq<Action> :: PacedRun(states, actions, renewal, delay) ==> NoneExpired(states)
  }

  ghost predicate AlwaysOneLeads(renewal: int, delay: int) {
    forall states: seq<State>, actions: seq<Action> :: PacedRun(states, actions, renewal, delay) ==> OneLeads(states)
  }

  function ActionsOf(tr: Trace): (actions: seq<Action>)
    requires forall i :: 0 <= i < |tr.moves| ==> tr.moves[i].Other?
  {
    seq(|tr.moves|, i requires 0 <= i < |tr.moves| => tr.moves[i].action)
  }

  /** A trace of single steps, fresh and calm, is a run at that pace. */
  lemma TraceIsPaced(tr: Trace, renewal: int, delay: int)
    requires Valid(tr, false) && AllFresh(tr, renewal) && Calm(tr, delay)
    ensures forall i :: 0 <= i < |tr.moves| ==> tr.moves[i].Other?
    ensures Run(tr.states, ActionsOf(tr)) && Paced(tr.states, ActionsOf(tr), renewal, delay)
  {
    hide Step, PacedAction;
    forall i | 0 <= i < |tr.moves| ensures tr.moves[i].Other? && Step(tr.states[i], tr.moves[i].action) == Some(tr.states[i + 1]) {
      assert Follows(tr.states[i], tr.moves[i], tr.states[i + 1], false);
    }
    forall i, p | 0 <= i < |tr.states| && LeadsIn(tr.states[i], p) ensures RenewedWithin(tr.states[i], p, renewal) {
      assert Fresh(tr.states[i], renewal);
    }
  }

  /** One step that ages the lease, while it stays within the bound. */
  lemma Wait(tr: Trace, span: nat, renewal: int) returns (longer: Trace)
    requires Valid(tr, false) && AllFresh(tr, renewal) && span <= renewal
    requires tr.Last().server.lease.Some? && tr.Last().server.lease.value.renewed == Some(tr.Last().now)
    ensures Valid(longer, false) && longer.Last() == tr.Last().(now := tr.Last().now + span)
    ensures AllFresh(longer, renewal)
    ensures forall delay :: Calm(tr, delay) ==> Calm(longer, delay)
  {
    hide Valid, AllFresh, Calm;
    var t := tr.Last().(now := tr.Last().now + span);
    assert Fresh(t, renewal);
    longer := Push(tr, Other(Tick(span)), t, false);
  }

  /** The leader keeps renewing for as long as it takes. */
  lemma {:induction false} KeepRenewing(tr: Trace, p: string, won: Lease, span: nat, renewal: nat) returns (longer: Trace)
    requires Valid(tr, false) && AllFresh(tr, renewal) && renewal > 0
    requires tr.Last().server.lease.Some? && p in tr.Last().pods && tr.Last().pods[p] == Leading(won, Waiting)
    ensures Valid(longer, false) && AllFresh(longer, renewal)
    ensures longer.Last().server.lease.Some? && longer.Last().pods == tr.Last().pods && longer.Last().now == tr.Last().now + span
    ensures forall delay :: Calm(tr, delay) ==> Calm(longer, delay)
    decreases span
  {
    hide Valid, AllFresh, Calm;
    longer := Renew(tr, p, won, false);
    if span <= renewal {
      longer := Wait(longer, span, renewal);
    } else {
      longer := Wait(longer, renewal, renewal);
      longer := KeepRenewing(longer, p, won, span - renewal, renewal);
    }
  }

  /** `p` reads the lease, which it finds taken. */
  lemma ReadTaken(tr: Trace, p: string, renewal: int) returns (longer: Trace)
    requires Valid(tr, false) && AllFresh(tr, renewal) && tr.Last().server.lease.Some?
    requires p in tr.Last().pods && tr.Last().pods[p] == Idle
    ensures Valid(longer, false) && AllFresh(longer, renewal)
    ensures longer.Last() == With(tr.Last(), p, Fetched(tr.Last().server.lease.value, tr.Last().now))
    ensures forall delay :: Calm(tr, delay) ==> Calm(longer, delay)
  {
    hide Valid, AllFresh, Calm, NoRestarts;
    var s := tr.Last();
    var s1, s2 := With(s, p, CreateDone), With(s, p, Fetched(s.server.lease.value, s.now));
    assert s1.pods[p := s2.pods[p]] == s2.pods;
    FreshLast(tr, renewal);
    assert Fresh(s1, renewal) && Fresh(s2, renewal) by {
      assert forall q :: LeadsIn(s1, q) || LeadsIn(s2, q) ==> LeadsIn(s, q);
    }
    longer := Push(tr, Other(CreateLease(p)), s1, false);
    longer := Push(longer, Other(Fetch(p)), s2, false);
  }

  /** `p` judges the lease it read earlier, just in time, and finds it expired. */
  lemma JudgeLate(tr: Trace, p: string, seen: Lease, at: int, renewal: int, delay: int) returns (longer: Trace)
    requires Valid(tr, false) && AllFresh(tr, renewal) && Calm(tr, delay)
    requires p in tr.Last().pods && tr.Last().pods[p] == Fetched(seen, at)
    requires IsExpired(seen, tr.Last().now) && tr.Last().now - at <= delay
    ensures Valid(longer, false) && AllFresh(longer, renewal) && Calm(longer, delay)
    ensures longer.Last() == With(tr.Last(), p, Expired(seen))
  {
    hide Valid, AllFresh, Calm;
    var t := With(tr.Last(), p, Expired(seen));
    FreshLast(tr, renewal);
    assert Fresh(t, renewal) by {
      assert forall q :: LeadsIn(t, q) ==> LeadsIn(tr.Last(), q);
    }
    longer := Push(tr, Other(CheckExpiry(p)), t, false);
  }

  /**
   * When the bounds exceed the expiry time: `b` reads the lease as old as it may get, `a` keeps renewing it
   * while `b` delays, `b` finds what it read expired, deletes the lease, and leads beside `a`.
   */
  lemma SlowJudge(renewal: int, delay: int) returns (found: Trace, tr: Trace)
    requires !Harmless(renewal, delay)
    ensures Valid(found, false) && AllFresh(found, renewal) && Calm(found, delay)
    ensures "b" in found.Last().pods && found.Last().pods["b"].Expired?
    ensures Valid(tr, false) && AllFresh(tr, renewal) && Calm(tr, delay)
    ensures LeadsIn(tr.Last(), "a") && LeadsIn(tr.Last(), "b")
  {
    hide Valid, AllFresh, Calm, Step, NoRestarts;
    var s := State(Server(None, [], 0), 0, map["a" := Idle, "b" := Idle], {});
    tr := Start(s, false);
    assert AllFresh(tr, renewal) && Calm(tr, delay);
    tr := TakeLead(tr, "a", false);
    var won := tr.Last().server.lease.value;
    tr := Renew(tr, "a", won, false);
    var seen := tr.Last().server.lease.value;
    tr := Wait(tr, renewal, renewal);
    tr := ReadTaken(tr, "b", renewal);
    tr := KeepRenewing(tr, "a", won, delay, renewal);
    tr := JudgeLate(tr, "b", seen, renewal, renewal, delay);
    found := tr;
    tr := DeleteStale(tr, "b", seen);
    tr := TakeLead(tr, "b", false);
  }

  lemma HarmlessIsSafe(states: seq<State>, actions: seq<Action>, renewal: int, delay: int)
    requires Harmless(renewal, delay) && PacedRun(states, actions, renewal, delay)
    ensures NoneExpired(states) && OneLeads(states)
  {
    hide Run, Paced, Harmless, LeadsIn;
    forall i: int, p | 0 <= i < |states| && p in states[i].pods ensures !states[i].pods[p].Expired? {
      OneLeaderForever(states, actions, renewal, delay, i, i);
    }
    forall i: int, j: int, p, q | 0 <= i <= j < |states| && LeadsIn(states[i], p) && LeadsIn(states[j], q) ensures p == q {
      OneLeaderForever(states, actions, renewal, delay, i, j);
    }
  }

  /**
   * In runs without leader crashes in which claims interleave freely: no pod ever finds the lease expired, and
   * one pod leads for the whole run, each if and only if the bounds on renewal and on judging a lease add up to
   * no more than the expiry time, or one of them leaves nothing to judge.
   */
  lemma TimingExactly(renewal: int, delay: int)
    ensures NeverExpires(renewal, delay) <==> Harmless(renewal, delay)
    ensures AlwaysOneLeads(renewal, delay) <==> Harmless(renewal, delay)
  {
    hide PacedRun, NoneExpired, OneLeads, Harmless;
    if Harmless(renewal, delay) {
      forall states: seq<State>, actions: seq<Action> | PacedRun(states, actions, renewal, delay)
        ensures NoneExpired(states) && OneLeads(states)
      {
        HarmlessIsSafe(states, actions, renewal, delay);
      }
    } else {
      var found, tr := SlowJudge(renewal, delay);
      FoundExpired(found, renewal, delay, "b");
      TwoLead(tr, renewal, delay, "a", "b");
    }
  }

  lemma FoundExpired(tr: Trace, renewal: int, delay: int, p: string)
    requires Valid(tr, false) && AllFresh(tr, renewal) && Calm(tr, delay)
    requires p in tr.Last().pods && tr.Last().pods[p].Expired?
    ensures !NeverExpires(renewal, delay)
  {
    hide Run, Paced, Valid, AllFresh, Calm;
    TraceIsPaced(tr, renewal, delay);
    assert PacedRun(tr.states, ActionsOf(tr), renewal, delay);
    assert p in tr.states[|tr.states| - 1].pods && !NoneExpired(tr.states);
  }

  lemma TwoLead(tr: Trace, renewal: int, delay: int, p: string, q: string)
    requires Valid(tr, false) && AllFresh(tr, renewal) && Calm(tr, delay)
    requires p != q && LeadsIn(tr.Last(), p) && LeadsIn(tr.Last(), q)
    ensures !AlwaysOneLeads(renewal, delay)
  {
    hide Run, Paced, Valid, AllFresh, Calm, LeadsIn;
    TraceIsPaced(tr, renewal, delay);
    assert PacedRun(tr.states, ActionsOf(tr), renewal, delay);
    var last := |tr.states| - 1;
    assert LeadsIn(tr.states[last], p) && LeadsIn(tr.states[last], q) && !OneLeads(tr.states);
  }
}
