/** What one pod does over a run, whatever the others do: refreshing that ends, leading that lasts, claims that fail. */
module PodRuns {
  import opened Values
  import opened LeaseApi
  import opened Election
  import opened Exclusion

  /** The pod `p` acts. */
  predicate Acts(a: Action, p: string) {
    !a.Tick? && a.pod == p
  }

  /** Between the states `i` and `j` the pod does not crash. */
  ghost predicate StaysUp(actions: seq<Action>, i: nat, j: nat, p: string) {
    forall t :: i <= t < j && t < |actions| ==> actions[t] != Crash(p)
  }

  /** A leader leads, by the lease it won, until it crashes, whatever becomes of its lease. */
  lemma {:induction false} LeadsUntilCrash(states: seq<State>, actions: seq<Action>, i: nat, j: nat, p: string)
    requires Run(states, actions) && i <= j < |states|
    requires LeadsIn(states[i], p) && StaysUp(actions, i, j, p)
    ensures LeadsIn(states[j], p) && states[j].pods[p].won == states[i].pods[p].won
    decreases j
  {
    if i < j {
      LeadsUntilCrash(states, actions, i, j - 1, p);
      assert Step(states[j - 1], actions[j - 1]) == Some(states[j]);
    }
  }

  // Refreshing

  ghost predicate Stopped(s: State, p: string) {
    LeadsIn(s, p) && s.pods[p].refresh == Refresh.Stopped
  }

  lemma StaysStopped(s: State, a: Action, t: State, p: string)
    requires Stopped(s, p) && Step(s, a) == Some(t) && a != Crash(p)
    ensures Stopped(t, p)
    ensures Acts(a, p) ==> t.server == s.server
  {
  }

  /** Once the refresh loop has stopped, the pod leads on without ever writing to the server again, until it crashes. */
  lemma {:induction false} NoWritesOnceStopped(states: seq<State>, actions: seq<Action>, i: nat, j: nat, p: string)
    requires Run(states, actions) && i <= j < |states|
    requires Stopped(states[i], p) && StaysUp(actions, i, j, p)
    ensures Stopped(states[j], p)
    ensures forall t :: i <= t < j && Acts(actions[t], p) ==> states[t + 1].server == states[t].server
    decreases j
  {
    hide Stopped, Step;
    if i < j {
      NoWritesOnceStopped(states, actions, i, j - 1, p);
      assert Step(states[j - 1], actions[j - 1]) == Some(states[j]);
      StaysStopped(states[j - 1], actions[j - 1], states[j], p);
    }
  }

  /** A round fails: the replace changes nothing, the read finds no lease, or either call fails. */
  predicate RoundFails(s: State, a: Action, t: State, p: string) {
    || (a == Replace(p) && t.server == s.server)
    || (a == RefreshFetch(p) && s.server.lease.None?)
    || (a.RefreshFails? && a.pod == p)
  }

  lemma FailedRoundStops(s: State, a: Action, t: State, p: string)
    requires Step(s, a) == Some(t) && RoundFails(s, a, t, p)
    ensures Stopped(t, p)
  {
  }

  /**
   * A refresh loop ends with its first failed round: from a refused replace, a missing lease or a failed call on,
   * the pod leads on and does not write to the server again, until it crashes.
   */
  lemma FailedRoundEndsRefresh(states: seq<State>, actions: seq<Action>, i: nat, j: nat, p: string)
    requires Run(states, actions) && i < j < |states|
    requires RoundFails(states[i], actions[i], states[i + 1], p) && StaysUp(actions, i + 1, j, p)
    ensures Stopped(states[j], p)
    ensures forall t :: i < t < j && Acts(actions[t], p) ==> states[t + 1].server == states[t].server
  {
    hide Stopped, Step;
    assert Step(states[i], actions[i]) == Some(states[i + 1]);
    FailedRoundStops(states[i], actions[i], states[i + 1], p);
    NoWritesOnceStopped(states, actions, i + 1, j, p);
  }

  /** A round that the server accepts leaves the lease stamped with the clock reading of that round, and goes on. */
  lemma AcceptedRoundGoesOn(s: State, t: State, p: string)
    requires Step(s, Replace(p)) == Some(t) && t.server != s.server
    ensures LeadsIn(t, p) && t.pods[p].refresh.Waiting?
    ensures LeadsIn(s, p) && s.pods[p].refresh.Stamped? && t.server.lease.Some?
    ensures t.server.lease.value.renewed == s.pods[p].refresh.lease.renewed
  {
  }

  /** A call that fails may have been applied all the same: then the server is as after a successful call, and else as before. */
  lemma FailedCallsMayApply(s: State, p: string)
    requires p in s.pods
    ensures s.pods[p].Leading? && s.pods[p].refresh.Stamped? ==>
      && Step(s, RefreshFails(p, true)).Some? && Step(s, Replace(p)).Some?
      && Step(s, RefreshFails(p, true)).value.server == Step(s, Replace(p)).value.server
    ensures s.pods[p].Expired? ==>
      && Step(s, DeleteFails(p, true)).Some? && Step(s, DeleteLease(p)).Some?
      && Step(s, DeleteFails(p, true)).value.server == Step(s, DeleteLease(p)).value.server
    ensures Step(s, RefreshFails(p, false)).Some? ==> Step(s, RefreshFails(p, false)).value.server == s.server
    ensures Step(s, DeleteFails(p, false)).Some? ==> Step(s, DeleteFails(p, false)).value.server == s.server
  {
  }

  // Claims

  /** An attempt fails: a call fails, no lease is found, the delete finds none, or another pod holds the lease read. */
  predicate AttemptFails(s: State, a: Action, p: string) {
    && p in s.pods
    && match a
       case FetchFails(q) => q == p
       case Fetch(q) => q == p && s.server.lease.None?
       case DeleteFails(q, _) => q == p
       case DeleteLease(q) => q == p && s.server.lease.None?
       case Decide(q) => q == p && s.pods[p].Checked? && s.pods[p].seen.holder != p
       case _ => false
  }

  predicate StartsAttempt(a: Action, p: string) {
    a == CreateLease(p) || a == CreateFails(p)
  }

  /** After a failed attempt the pod is idle, or down, until it starts the next one. */
  lemma {:induction false} FailedAttemptEnds(states: seq<State>, actions: seq<Action>, i: nat, j: nat, p: string)
    requires Run(states, actions) && i < j < |states| && AttemptFails(states[i], actions[i], p)
    requires forall t :: i < t < j ==> !StartsAttempt(actions[t], p)
    ensures p in states[j].pods && (states[j].pods[p].Idle? || states[j].pods[p].Down?)
    decreases j
  {
    assert Step(states[j - 1], actions[j - 1]) == Some(states[j]);
    if i < j - 1 {
      FailedAttemptEnds(states, actions, i, j - 1, p);
    }
  }

  /** A pod comes to lead by one step only: deciding on a lease it read, which names it as its holder. */
  lemma LeadingIsDecided(s: State, a: Action, t: State, p: string)
    requires Step(s, a) == Some(t) && LeadsIn(t, p) && !LeadsIn(s, p)
    ensures a == Decide(p) && p in s.pods && s.pods[p].Checked?
    ensures t.pods[p].won == s.pods[p].seen && s.pods[p].seen.holder == p
  {
  }

  /** The step made the lease: its holder created it, at its acquire time. */
  predicate Creates(s: State, a: Action, t: State, holder: string, acquired: int, uid: nat) {
    && a == CreateLease(holder) && s.now == acquired
    && s.server.lease.None? && t.server.lease.Some?
    && t.server.lease.value.uid == uid && t.server.lease.value.renewed.None?
  }

  lemma LeaseBefore(s: State, a: Action, t: State)
    requires Invariant(s) && Step(s, a) == Some(t) && t.server.lease.Some?
    ensures
      var after := t.server.lease.value;
      if s.server.lease.Some? && s.server.lease.value.uid == after.uid then
        s.server.lease.value.holder == after.holder && s.server.lease.value.acquired == after.acquired
      else Creates(s, a, t, after.holder, after.acquired, after.uid)
  {
    hide Creates;
    StepKeepsIncarnation(s, a, t);
    if !(s.server.lease.Some? && s.server.lease.value.uid == t.server.lease.value.uid) {
      NewLease(s, a, t);
    }
  }

  lemma NewLease(s: State, a: Action, t: State)
    requires Invariant(s) && Step(s, a) == Some(t) && t.server.lease.Some? && s.server.lease.None?
    ensures Creates(s, a, t, t.server.lease.value.holder, t.server.lease.value.acquired, t.server.lease.value.uid)
  {
  }

  /** Every lease goes back to a create call of its holder at its acquire time, when there was none. */
  lemma {:induction false} LeaseWasCreated(states: seq<State>, actions: seq<Action>, i: nat) returns (j: nat)
    requires Run(states, actions) && i < |states| && states[i].server.lease.Some?
    ensures j < i
    ensures
      var lease := states[i].server.lease.value;
      Creates(states[j], actions[j], states[j + 1], lease.holder, lease.acquired, lease.uid)
    decreases i
  {
    hide Creates, Invariant;
    assert i > 0;
    RunInvariant(states, actions, i - 1);
    LeaseBefore(states[i - 1], actions[i - 1], states[i]);
    var s := states[i - 1];
    if s.server.lease.Some? && s.server.lease.value.uid == states[i].server.lease.value.uid {
      j := LeaseWasCreated(states, actions, i - 1);
    } else {
      j := i - 1;
    }
  }
}
