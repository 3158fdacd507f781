/**
 * Leader election as a transition system: pods claim and refresh the one lease, and every call to the
 * API server, every clock reading and every failure is a step of its own that others interleave with.
 */
module Election {
  import opened Values
  import opened LeaseApi

  /** Where a leader's refresh loop is. A loop that stopped leaves the pod leading. */
  datatype Refresh = Waiting | Read(seen: Lease) | Stamped(lease: Lease) | Stopped

  /** Where a pod's process is. `won` is the lease its successful claim returned. */
  datatype Phase =
    | Idle
    | CreateDone
    | Fetched(seen: Lease, at: int)
    | Expired(seen: Lease)
    | Checked(seen: Lease)
    | Leading(won: Lease, refresh: Refresh)
    | Down

  /** `led` records the pod names that have ever led. */
  datatype State = State(server: Server, now: int, pods: map<string, Phase>, led: set<string>)

  datatype Action =
    | Tick(elapsed: nat)
    | CreateLease(pod: string)
    | CreateFails(pod: string)
    | Fetch(pod: string)
    | FetchFails(pod: string)
    | CheckExpiry(pod: string)
    | DeleteLease(pod: string)
    | DeleteFails(pod: string, applied: bool)
    | Decide(pod: string)
    | RefreshFetch(pod: string)
    | Stamp(pod: string)
    | Replace(pod: string)
    | RefreshFails(pod: string, applied: bool)
    | Crash(pod: string)
    | Restart(pod: string)
    | Collect(pod: string)

  predicate Initial(s: State) {
    && s.server == Server(None, [], 0)
    && (forall p :: p in s.pods ==> s.pods[p] == Idle)
    && s.led == {}
  }

  function With(s: State, pod: string, phase: Phase): State {
    s.(pods := s.pods[pod := phase])
  }

  /** The state after an action, when the action is possible. */
  function Step(s: State, a: Action): Option<State> {
    if a.Tick? then Some(s.(now := s.now + a.elapsed))
    else if a.pod !in s.pods then None
    else StepOf(s, a, a.pod, s.pods[a.pod])
  }

  function StepOf(s: State, a: Action, p: string, phase: Phase): Option<State>
    requires !a.Tick?
  {
    match (a, phase)
    case (CreateLease(_), Idle) => Some(With(s, p, CreateDone).(server := Created(s.server, p, s.now)))
    case (CreateFails(_), Idle) => Some(With(s, p, CreateDone))
    case (Fetch(_), CreateDone) =>
      Some(With(s, p, if s.server.lease.Some? then Fetched(s.server.lease.value, s.now) else Idle))
    case (FetchFails(_), CreateDone) => Some(With(s, p, Idle))
    case (CheckExpiry(_), Fetched(seen, _)) =>
      Some(With(s, p, if IsExpired(seen, s.now) then Expired(seen) else Checked(seen)))
    case (DeleteLease(_), Expired(seen)) =>
      Some(if s.server.lease.Some? then With(s, p, Checked(seen)).(server := Deleted(s.server)) else With(s, p, Idle))
    case (DeleteFails(_, applied), Expired(_)) =>
      Some(With(s, p, Idle).(server := if applied then Deleted(s.server) else s.server))
    case (Decide(_), Checked(seen)) =>
      Some(if seen.holder == p then With(s, p, Leading(seen, Waiting)).(led := s.led + {p}) else With(s, p, Idle))
    case (RefreshFetch(_), Leading(won, Waiting)) =>
      Some(With(s, p, Leading(won, if s.server.lease.Some? then Read(s.server.lease.value) else Stopped)))
    case (Stamp(_), Leading(won, Read(seen))) =>
      Some(With(s, p, Leading(won, Stamped(seen.(renewed := Some(s.now))))))
    case (Replace(_), Leading(won, Stamped(lease))) =>
      Some(if CanReplace(s.server, lease)
           then With(s, p, Leading(won, Waiting)).(server := Replaced(s.server, lease))
           else With(s, p, Leading(won, Stopped)))
    case (RefreshFails(_, applied), Leading(won, refresh)) =>
      var written := applied && refresh.Stamped? && CanReplace(s.server, refresh.lease);
      Some(With(s, p, Leading(won, Stopped)).(server := if written then Replaced(s.server, refresh.lease) else s.server))
    case (Crash(_), _) => Some(With(s, p, Down))
    case (Restart(_), Down) => Some(With(s, p, Idle))
    case (Collect(_), Down) =>
      if s.server.lease.Some? && s.server.lease.value.holder == p then Some(s.(server := Deleted(s.server))) else None
    case _ => None
  }

  /** A run: from an initial state, each state follows from the one before by the action between them. */
  ghost predicate Run(states: seq<State>, actions: seq<Action>) {
    && |states| == |actions| + 1
    && Initial(states[0])
    && forall i :: 0 <= i < |actions| ==> Step(states[i], actions[i]) == Some(states[i + 1])
  }

  // What holds in every reachable state

  /** The lease was created by its holder, in an incarnation that exists, and not stamped in the future. */
  ghost predicate Genuine(s: State, lease: Lease) {
    && lease.uid < |s.server.creators|
    && lease.holder == s.server.creators[lease.uid]
    && lease.version < s.server.nextVersion
    && (lease.renewed.Some? ==> lease.renewed.value <= s.now)
  }

  predicate NotAfter(a: Option<int>, b: Option<int>) {
    a.Some? ==> b.Some? && a.value <= b.value
  }

  /** The copy a refresh works on: when the lease has not been written since, it is that same lease, stamped no earlier. */
  ghost predicate Current(s: State, copy: Lease) {
    s.server.lease.Some? && s.server.lease.value.version == copy.version ==>
      && s.server.lease.value.uid == copy.uid
      && s.server.lease.value.acquired == copy.acquired
      && NotAfter(s.server.lease.value.renewed, copy.renewed)
  }

  ghost predicate PhaseGood(s: State, p: string, phase: Phase) {
    match phase
    case Fetched(seen, at) => Genuine(s, seen) && at <= s.now
    case Expired(seen) => Genuine(s, seen)
    case Checked(seen) => Genuine(s, seen)
    case Leading(won, refresh) =>
      && Genuine(s, won) && won.holder == p && p in s.led
      && (refresh.Read? ==> Genuine(s, refresh.seen) && Current(s, refresh.seen))
      && (refresh.Stamped? ==> Genuine(s, refresh.lease) && Current(s, refresh.lease))
    case _ => true
  }

  ghost predicate Invariant(s: State) {
    && (s.server.lease.Some? ==>
          Genuine(s, s.server.lease.value) && s.server.lease.value.uid == |s.server.creators| - 1)
    && (forall p :: p in s.pods ==> PhaseGood(s, p, s.pods[p]))
  }

  /** What a phase asks of the rest of the state survives every step. */
  lemma PhaseStays(s: State, a: Action, t: State, p: string, phase: Phase)
    requires Invariant(s) && Step(s, a) == Some(t)
    requires PhaseGood(s, p, phase)
    ensures PhaseGood(t, p, phase)
  {
  }

  lemma StepKeepsInvariant(s: State, a: Action, t: State)
    requires Invariant(s) && Step(s, a) == Some(t)
    ensures Invariant(t)
  {
    hide PhaseGood;
    forall p | p in t.pods ensures PhaseGood(t, p, t.pods[p]) {
      if p in s.pods && t.pods[p] == s.pods[p] {
        PhaseStays(s, a, t, p, s.pods[p]);
      } else {
        MoverGood(s, a, t);
      }
    }
    LeaseGood(s, a, t);
  }

  lemma LeaseGood(s: State, a: Action, t: State)
    requires Invariant(s) && Step(s, a) == Some(t)
    ensures t.server.lease.Some? ==>
      Genuine(t, t.server.lease.value) && t.server.lease.value.uid == |t.server.creators| - 1
  {
  }

  lemma MoverGood(s: State, a: Action, t: State)
    requires Invariant(s) && Step(s, a) == Some(t) && !a.Tick?
    ensures a.pod in t.pods && PhaseGood(t, a.pod, t.pods[a.pod])
    ensures forall p :: p in t.pods && p != a.pod ==> p in s.pods && t.pods[p] == s.pods[p]
  {
  }

  lemma {:induction false} RunInvariant(states: seq<State>, actions: seq<Action>, i: nat)
    requires Run(states, actions) && i < |states|
    ensures Invariant(states[i])
  {
    if i > 0 {
      RunInvariant(states, actions, i - 1);
      StepKeepsInvariant(states[i - 1], actions[i - 1], states[i]);
    }
  }

  /** Whatever interleaves, a lease's holder is the pod that created that incarnation, even after refreshes by other pods. */
  lemma HolderIsCreator(states: seq<State>, actions: seq<Action>, i: nat)
    requires Run(states, actions) && i < |states|
    requires states[i].server.lease.Some?
    ensures
      var lease := states[i].server.lease.value;
      lease.uid < |states[i].server.creators| && lease.holder == states[i].server.creators[lease.uid]
  {
    RunInvariant(states, actions, i);
  }

  lemma {:induction false} CreatorsGrow(states: seq<State>, actions: seq<Action>, i: nat, j: nat)
    requires Run(states, actions) && i <= j < |states|
    ensures states[i].server.creators <= states[j].server.creators
    decreases j
  {
    if i < j {
      CreatorsGrow(states, actions, i, j - 1);
      assert Step(states[j - 1], actions[j - 1]) == Some(states[j]);
    }
  }

  /** At most one pod name ever leads by a given incarnation of the lease, over the whole run. */
  lemma OneWinnerPerIncarnation(states: seq<State>, actions: seq<Action>, i: nat, p: string, j: nat, q: string)
    requires Run(states, actions) && i < |states| && j < |states|
    requires p in states[i].pods && states[i].pods[p].Leading?
    requires q in states[j].pods && states[j].pods[q].Leading?
    requires states[i].pods[p].won.uid == states[j].pods[q].won.uid
    ensures p == q
  {
    RunInvariant(states, actions, i);
    RunInvariant(states, actions, j);
    CreatorsGrow(states, actions, if i <= j then i else j, if i <= j then j else i);
    assert PhaseGood(states[i], p, states[i].pods[p]) && PhaseGood(states[j], q, states[j].pods[q]);
  }

  /** One step either keeps the incarnation, with its holder and acquire time and no earlier renew time, or ends it for good. */
  lemma StepKeepsIncarnation(s: State, a: Action, t: State)
    requires Invariant(s) && Step(s, a) == Some(t) && t.server.lease.Some?
    ensures
      var after := t.server.lease.value;
      if s.server.lease.Some? && s.server.lease.value.uid == after.uid then
        var before := s.server.lease.value;
        after.holder == before.holder && after.acquired == before.acquired && NotAfter(before.renewed, after.renewed)
      else s.server.lease.None? && after.uid == |s.server.creators|
  {
    if !a.Tick? {
      assert PhaseGood(s, a.pod, s.pods[a.pod]);
    }
  }

  /** Within one incarnation of the lease the renew time never goes back, over the whole run. */
  lemma {:induction false} RenewTimeNeverDecreases(states: seq<State>, actions: seq<Action>, i: nat, j: nat)
    requires Run(states, actions) && i <= j < |states|
    requires states[i].server.lease.Some? && states[j].server.lease.Some?
    requires states[i].server.lease.value.uid == states[j].server.lease.value.uid
    ensures
      var before, after := states[i].server.lease.value, states[j].server.lease.value;
      after.holder == before.holder && after.acquired == before.acquired && NotAfter(before.renewed, after.renewed)
    decreases j
  {
    if i < j {
      RunInvariant(states, actions, i);
      RunInvariant(states, actions, j - 1);
      CreatorsGrow(states, actions, i, j - 1);
      StepKeepsIncarnation(states[j - 1], actions[j - 1], states[j]);
      if states[j - 1].server.lease.Some? {
        RenewTimeNeverDecreases(states, actions, i, j - 1);
      }
    }
  }
}
