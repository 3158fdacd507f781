/** When at most one live pod leads: two sufficient regimes, over whole runs. */
module Exclusion {
  import opened Values
  import opened LeaseApi
  import opened Election

  function Exec(s: State, actions: seq<Action>): Option<State>
    decreases |actions|
  {
    if actions == [] then Some(s)
    else
      var t := Step(s, actions[0]);
      if t.None? then None else Exec(t.value, actions[1..])
  }

  ghost predicate LeadsIn(s: State, p: string) {
    p in s.pods && s.pods[p].Leading?
  }

  ghost predicate AtMostOneLeader(s: State) {
    forall p, q :: LeadsIn(s, p) && LeadsIn(s, q) ==> p == q
  }

  // Claims that run without interleaving

  /** The steps of a claim from its read on, when nothing comes between them. */
  function ClaimActions(s: State, p: string, deleteFails: Option<bool>): seq<Action> {
    if s.server.lease.None? then [Fetch(p)]
    else if !IsExpired(s.server.lease.value, s.now) then [Fetch(p), CheckExpiry(p), Decide(p)]
    else if deleteFails.Some? then [Fetch(p), CheckExpiry(p), DeleteFails(p, deleteFails.value)]
    else [Fetch(p), CheckExpiry(p), DeleteLease(p), Decide(p)]
  }

  datatype Move = Claim(pod: string, deleteFails: Option<bool>) | Other(action: Action)

  /** Read, expiry check, delete and decision are one move; every other action interleaves freely. */
  function MoveFrom(s: State, m: Move): Option<State> {
    match m
    case Claim(p, deleteFails) =>
      if p in s.pods && s.pods[p] == CreateDone then Exec(s, ClaimActions(s, p, deleteFails)) else None
    case Other(a) =>
      if a.Fetch? || a.CheckExpiry? || a.DeleteLease? || a.DeleteFails? || a.Decide? then None else Step(s, a)
  }

  /** What a whole claim does. */
  function ClaimEffect(s: State, p: string, deleteFails: Option<bool>): State {
    if s.server.lease.None? then With(s, p, Idle)
    else
      var seen := s.server.lease.value;
      var expired := IsExpired(seen, s.now);
      if expired && deleteFails.Some? then
        With(s, p, Idle).(server := if deleteFails.value then Deleted(s.server) else s.server)
      else
        var t := s.(server := if expired then Deleted(s.server) else s.server);
        if seen.holder == p then With(t, p, Leading(seen, Waiting)).(led := s.led + {p}) else With(t, p, Idle)
  }

  lemma ExecStep(s: State, a: Action, t: State, rest: seq<Action>)
    requires Step(s, a) == Some(t)
    ensures Exec(s, [a] + rest) == Exec(t, rest)
  {
    assert ([a] + rest)[1..] == rest;
  }

  lemma {:induction false} ExecKeepsInvariant(s: State, actions: seq<Action>)
    requires Invariant(s) && Exec(s, actions).Some?
    ensures Invariant(Exec(s, actions).value)
    decreases |actions|
  {
    if actions != [] {
      var t := Step(s, actions[0]).value;
      StepKeepsInvariant(s, actions[0], t);
      ExecKeepsInvariant(t, actions[1..]);
    }
  }

  lemma ExecTwo(s: State, a: Action, t: State, b: Action, u: State)
    requires Step(s, a) == Some(t) && Step(t, b) == Some(u)
    ensures Exec(s, [a, b]) == Some(u)
  {
    ExecStep(s, a, t, [b]);
    ExecStep(t, b, u, []);
    assert [a] + [b] == [a, b] && [b] + [] == [b];
    ExecNothing(u);
  }

  lemma ClaimIsSteps(s: State, p: string, deleteFails: Option<bool>)
    requires p in s.pods && s.pods[p] == CreateDone
    ensures Exec(s, ClaimActions(s, p, deleteFails)) == Some(ClaimEffect(s, p, deleteFails))
  {
    hide Exec, IsExpired;
    var end := ClaimEffect(s, p, deleteFails);
    if s.server.lease.None? {
      ExecStep(s, Fetch(p), end, []);
      assert [Fetch(p)] + [] == [Fetch(p)];
      ExecNothing(end);
    } else {
      var seen := s.server.lease.value;
      var read := With(s, p, Fetched(seen, s.now));
      var checked := With(s, p, if IsExpired(seen, s.now) then Expired(seen) else Checked(seen));
      assert Step(s, Fetch(p)) == Some(read);
      assert Step(read, CheckExpiry(p)) == Some(checked) by {
        assert read.pods[p := checked.pods[p]] == checked.pods;
      }
      ClaimEnds(s, p, deleteFails, seen, checked);
      var rest := ClaimActions(s, p, deleteFails)[2..];
      ExecStep(read, CheckExpiry(p), checked, rest);
      ExecStep(s, Fetch(p), read, [CheckExpiry(p)] + rest);
      assert [Fetch(p)] + ([CheckExpiry(p)] + rest) == ClaimActions(s, p, deleteFails);
    }
  }

  /** The part of a claim after its expiry check. */
  lemma ClaimEnds(s: State, p: string, deleteFails: Option<bool>, seen: Lease, checked: State)
    requires p in s.pods && s.pods[p] == CreateDone && s.server.lease == Some(seen)
    requires checked == With(s, p, if IsExpired(seen, s.now) then Expired(seen) else Checked(seen))
    ensures Exec(checked, ClaimActions(s, p, deleteFails)[2..]) == Some(ClaimEffect(s, p, deleteFails))
  {
    hide Exec, IsExpired;
    var end := ClaimEffect(s, p, deleteFails);
    var rest := ClaimActions(s, p, deleteFails)[2..];
    if IsExpired(seen, s.now) && deleteFails.None? {
      assert rest == [DeleteLease(p), Decide(p)];
      var deleted := With(s, p, Checked(seen)).(server := Deleted(s.server));
      assert checked.pods[p := Checked(seen)] == deleted.pods;
      assert deleted.pods[p := end.pods[p]] == end.pods;
      ExecTwo(checked, DeleteLease(p), deleted, Decide(p), end);
    } else {
      var last := if IsExpired(seen, s.now) then DeleteFails(p, deleteFails.value) else Decide(p);
      assert rest == [last] + [];
      assert checked.pods[p := end.pods[p]] == end.pods;
      ExecStep(checked, last, end, []);
      assert Exec(end, []) == Some(end) by { ExecNothing(end); }
    }
  }

  lemma ExecNothing(s: State)
    ensures Exec(s, []) == Some(s)
  {
  }

  // The client's methods are these steps, one after the other

  /** The steps of a claim attempt that nothing interleaves with; `elapsed` passes between create and read. */
  function AttemptActions(s: State, p: string, elapsed: nat, faults: Faults): seq<Action> {
    var created := AfterCreate(s, p, elapsed, faults);
    [if faults.create then CreateFails(p) else CreateLease(p)] + ([Tick(elapsed)] +
      if faults.get then [FetchFails(p)] else ClaimActions(created, p, if faults.delete then Some(false) else None))
  }

  function AfterCreate(s: State, p: string, elapsed: nat, faults: Faults): State {
    With(s, p, CreateDone).(server := if faults.create then s.server else Created(s.server, p, s.now), now := s.now + elapsed)
  }

  /** A claim attempt, with any of its calls failing, does what its steps do. */
  lemma ClaimAloneIsSteps(s: State, p: string, elapsed: nat, faults: Faults)
    requires p in s.pods && s.pods[p] == Idle
    ensures
      var (server, claimed) := ClaimAlone(s.server, p, s.now, s.now + elapsed, faults);
      var phase := if claimed.Some? then Leading(claimed.value, Waiting) else Idle;
      var end := State(server, s.now + elapsed, s.pods[p := phase], if claimed.Some? then s.led + {p} else s.led);
      Exec(s, AttemptActions(s, p, elapsed, faults)) == Some(end)
  {
    hide Exec, ClaimActions, IsExpired;
    var created := AfterCreate(s, p, elapsed, faults);
    var first := if faults.create then CreateFails(p) else CreateLease(p);
    var rest := if faults.get then [FetchFails(p)] else ClaimActions(created, p, if faults.delete then Some(false) else None);
    ExecStep(created.(now := s.now), Tick(elapsed), created, rest);
    ExecStep(s, first, created.(now := s.now), [Tick(elapsed)] + rest);
    if faults.get {
      var end := With(created, p, Idle);
      ExecStep(created, FetchFails(p), end, []);
      assert [FetchFails(p)] + [] == [FetchFails(p)];
      ExecNothing(end);
    } else {
      ClaimIsSteps(created, p, if faults.delete then Some(false) else None);
    }
    var (_, claimed) := ClaimAlone(s.server, p, s.now, s.now + elapsed, faults);
    var phase := if claimed.Some? then Leading(claimed.value, Waiting) else Idle;
    assert created.pods[p := phase] == s.pods[p := phase];
  }

  /** The steps of a refresh round that nothing interleaves with. */
  function RefreshActions(s: State, p: string, getFails: bool, replaceFails: bool): seq<Action> {
    if getFails then [RefreshFails(p, false)]
    else if s.server.lease.None? then [RefreshFetch(p)]
    else [RefreshFetch(p)] + [Stamp(p), if replaceFails then RefreshFails(p, false) else Replace(p)]
  }

  /** A refresh round, with any of its calls failing, does what its steps do. */
  lemma RefreshAloneIsSteps(s: State, p: string, won: Lease, getFails: bool, replaceFails: bool)
    requires p in s.pods && s.pods[p] == Leading(won, Waiting)
    ensures
      var (server, goOn) := RefreshAlone(s.server, s.now, getFails, replaceFails);
      Exec(s, RefreshActions(s, p, getFails, replaceFails)) ==
      Some(With(s, p, Leading(won, if goOn then Waiting else Stopped)).(server := server))
  {
    hide Exec;
    var (server, goOn) := RefreshAlone(s.server, s.now, getFails, replaceFails);
    var end := With(s, p, Leading(won, if goOn then Waiting else Stopped)).(server := server);
    if getFails || s.server.lease.None? {
      var only := if getFails then RefreshFails(p, false) else RefreshFetch(p);
      ExecStep(s, only, end, []);
      assert [only] + [] == [only];
      ExecNothing(end);
    } else {
      var lease := s.server.lease.value;
      var read := With(s, p, Leading(won, Read(lease)));
      var stamped := With(s, p, Leading(won, Stamped(lease.(renewed := Some(s.now)))));
      assert read.pods[p := stamped.pods[p]] == stamped.pods && stamped.pods[p := end.pods[p]] == end.pods;
      ExecTwo(read, Stamp(p), stamped, if replaceFails then RefreshFails(p, false) else Replace(p), end);
      ExecStep(s, RefreshFetch(p), read, [Stamp(p), if replaceFails then RefreshFails(p, false) else Replace(p)]);
    }
  }

  ghost predicate MoveRun(states: seq<State>, moves: seq<Move>) {
    && |states| == |moves| + 1
    && Initial(states[0])
    && forall i :: 0 <= i < |moves| ==> MoveFrom(states[i], moves[i]) == Some(states[i + 1])
  }

  /** Every live leader's lease is unrenewed or was renewed at most `age` ago. */
  ghost predicate Fresh(s: State, age: int) {
    forall p :: LeadsIn(s, p) && s.server.lease.Some? && s.server.lease.value.renewed.Some? ==>
      s.now - s.server.lease.value.renewed.value <= age
  }

  /** No pod name starts again after it has led. */
  ghost predicate NoReclaim(states: seq<State>, moves: seq<Move>)
    requires |states| == |moves| + 1
  {
    forall i :: 0 <= i < |moves| && moves[i].Other? && moves[i].action.Restart? ==> moves[i].action.pod !in states[i].led
  }

  /** Every leader holds the lease that is there, and only former leaders' leases carry a renew time. */
  ghost predicate Exclusive(s: State) {
    && Invariant(s)
    && (forall p :: LeadsIn(s, p) ==> s.server.lease.Some? && s.server.lease.value.uid == s.pods[p].won.uid)
    && (s.server.lease.Some? && s.server.lease.value.renewed.Some? ==> s.server.lease.value.holder in s.led)
    && (forall p :: p in s.pods ==> !s.pods[p].Fetched? && !s.pods[p].Expired? && !s.pods[p].Checked?)
    && (forall p :: p in s.pods && (s.pods[p].Idle? || s.pods[p].CreateDone?) ==> p !in s.led)
  }

  lemma LeaderIsHolder(s: State, p: string)
    requires Exclusive(s) && LeadsIn(s, p)
    ensures s.server.lease.Some? && s.server.lease.value.holder == p && p in s.led
  {
    assert PhaseGood(s, p, s.pods[p]);
  }

  lemma ClaimKeepsExclusive(s: State, p: string, deleteFails: Option<bool>)
    requires Exclusive(s) && Fresh(s, EXPIRY) && p in s.pods && s.pods[p] == CreateDone
    ensures Exclusive(ClaimEffect(s, p, deleteFails))
  {
    hide Invariant, Exec;
    var t := ClaimEffect(s, p, deleteFails);
    assert Invariant(t) by {
      ClaimIsSteps(s, p, deleteFails);
      ExecKeepsInvariant(s, ClaimActions(s, p, deleteFails));
    }
    forall q | LeadsIn(s, q) ensures s.server.lease.Some? && s.server.lease.value.holder == q && q in s.led {
      LeaderIsHolder(s, q);
    }
    if s.server.lease.Some? && IsExpired(s.server.lease.value, s.now) {
      assert forall q :: !LeadsIn(s, q);
      assert s.server.lease.value.holder != p;
      assert forall q :: q in t.pods && q != p ==> t.pods[q] == s.pods[q];
      assert forall q :: !LeadsIn(t, q) by {
        forall q ensures !LeadsIn(t, q) {
          assert LeadsIn(t, q) ==> LeadsIn(s, q);
        }
      }
    } else {
      forall q | LeadsIn(t, q) ensures t.server.lease.Some? && t.server.lease.value.uid == t.pods[q].won.uid {
        assert q != p ==> LeadsIn(s, q);
      }
    }
  }

  /** Outside claims nobody starts leading and no claim is under way, and only a restart makes a pod idle. */
  lemma OtherMovesPods(s: State, a: Action, t: State)
    requires MoveFrom(s, Other(a)) == Some(t)
    ensures t.led == s.led
    ensures forall q :: q in t.pods && LeadsIn(t, q) ==> LeadsIn(s, q) && t.pods[q].won == s.pods[q].won
    ensures forall q :: q in t.pods && (t.pods[q].Fetched? || t.pods[q].Expired? || t.pods[q].Checked?) ==>
      q in s.pods && t.pods[q] == s.pods[q]
    ensures forall q :: q in t.pods && (t.pods[q].Idle? || t.pods[q].CreateDone?) ==>
      q in s.pods && (s.pods[q].Idle? || s.pods[q].CreateDone? || (a.Restart? && a.pod == q))
  {
  }

  /** Outside claims the lease stays, is created unrenewed, is renewed in place, or is collected from a pod that is down. */
  lemma OtherMovesServer(s: State, a: Action, t: State)
    requires Invariant(s) && MoveFrom(s, Other(a)) == Some(t)
    ensures
      || t.server.lease == s.server.lease
      || (s.server.lease.None? && t.server.lease.Some? && t.server.lease.value.renewed.None?)
      || (s.server.lease.Some? && t.server.lease.Some? && t.server.lease.value.uid == s.server.lease.value.uid
          && t.server.lease.value.holder == s.server.lease.value.holder && exists q :: LeadsIn(s, q))
      || (s.server.lease.Some? && t.server.lease.None? && s.server.lease.value.holder in s.pods
          && s.pods[s.server.lease.value.holder].Down?)
  {
    hide Invariant;
    if !a.Tick? {
      StampedIsCurrent(s, a.pod);
      assert s.pods[a.pod].Leading? ==> LeadsIn(s, a.pod);
    }
  }

  lemma OtherKeepsExclusive(s: State, a: Action, t: State)
    requires Exclusive(s) && MoveFrom(s, Other(a)) == Some(t)
    requires a.Restart? ==> a.pod !in s.led
    ensures Exclusive(t)
  {
    hide Invariant, Step;
    StepKeepsInvariant(s, a, t);
    OtherMovesPods(s, a, t);
    OtherMovesServer(s, a, t);
    forall q | LeadsIn(s, q) ensures s.server.lease.Some? && s.server.lease.value.holder == q && q in s.led {
      LeaderIsHolder(s, q);
    }
  }

  /** What a leader writes back over the unchanged lease has that lease's identity. */
  lemma StampedIsCurrent(s: State, p: string)
    requires Invariant(s) && p in s.pods
    ensures s.pods[p].Leading? && s.pods[p].refresh.Stamped? && CanReplace(s.server, s.pods[p].refresh.lease) ==>
      s.pods[p].refresh.lease.uid == s.server.lease.value.uid && s.pods[p].refresh.lease.holder == s.server.lease.value.holder
  {
    assert PhaseGood(s, p, s.pods[p]);
  }

  lemma MoveKeepsExclusive(s: State, m: Move, t: State)
    requires Exclusive(s) && Fresh(s, EXPIRY) && MoveFrom(s, m) == Some(t)
    requires m.Other? && m.action.Restart? ==> m.action.pod !in s.led
    ensures Exclusive(t)
  {
    hide Exclusive, Fresh, Exec, ClaimActions, ClaimEffect, Step;
    match m
    case Claim(p, deleteFails) =>
      ClaimIsSteps(s, p, deleteFails);
      ClaimKeepsExclusive(s, p, deleteFails);
    case Other(a) =>
      OtherKeepsExclusive(s, a, t);
  }

  lemma {:induction false} MovesKeepExclusive(states: seq<State>, moves: seq<Move>, i: nat)
    requires MoveRun(states, moves) && NoReclaim(states, moves) && i < |states|
    requires forall j :: 0 <= j < |states| ==> Fresh(states[j], EXPIRY)
    ensures Exclusive(states[i])
  {
    hide Fresh, MoveFrom;
    if i > 0 {
      MovesKeepExclusive(states, moves, i - 1);
      assert MoveFrom(states[i - 1], moves[i - 1]) == Some(states[i]);
      MoveKeepsExclusive(states[i - 1], moves[i - 1], states[i]);
    }
  }

  /**
   * Conditional mutual exclusion, over whole runs with crashes: when claims do not interleave from their
   * read on, no name claims again after leading, and live leaders' leases stay fresh, every reachable state
   * has at most one leader, and that leader holds the lease.
   */
  lemma MutualExclusion(states: seq<State>, moves: seq<Move>, i: nat)
    requires MoveRun(states, moves) && NoReclaim(states, moves) && i < |states|
    requires forall j :: 0 <= j < |states| ==> Fresh(states[j], EXPIRY)
    ensures AtMostOneLeader(states[i])
    ensures forall p :: LeadsIn(states[i], p) ==>
      states[i].server.lease.Some? && states[i].server.lease.value.holder == p
  {
    MovesKeepExclusive(states, moves, i);
    forall p | LeadsIn(states[i], p)
      ensures states[i].server.lease.Some? && states[i].server.lease.value.holder == p
    {
      LeaderIsHolder(states[i], p);
    }
  }

  // Claims that interleave, with timing bounds instead

  /**
   * Leaders do not crash and nothing collects the lease; a live leader's lease, once renewed, is never
   * more than `renewal` old; and a renewed lease is judged at most `delay` after it was read.
   */
  ghost predicate Paced(states: seq<State>, actions: seq<Action>, renewal: int, delay: int)
    requires |states| == |actions| + 1
  {
    && (forall i, p :: 0 <= i < |states| && LeadsIn(states[i], p) ==> RenewedWithin(states[i], p, renewal))
    && (forall i :: 0 <= i < |actions| ==> PacedAction(states[i], actions[i], delay))
  }

  /** The two bounds fit into the expiry time, or one of them leaves nothing to judge. */
  predicate Harmless(renewal: int, delay: int) {
    renewal + delay <= EXPIRY || renewal <= 0 || delay < 0
  }

  ghost predicate RenewedWithin(s: State, p: string, renewal: int)
    requires LeadsIn(s, p)
  {
    s.server.lease.Some? && s.server.lease.value.uid == s.pods[p].won.uid && s.server.lease.value.renewed.Some? ==>
      s.now - s.server.lease.value.renewed.value <= renewal
  }

  ghost predicate PacedAction(s: State, a: Action, delay: int) {
    && !a.Collect?
    && (a.Crash? ==> !LeadsIn(s, a.pod))
    && (a.CheckExpiry? && a.pod in s.pods && s.pods[a.pod].Fetched? && s.pods[a.pod].seen.renewed.Some? ==>
          s.now - s.pods[a.pod].at <= delay)
  }

  /** The first lease is still there, only its creator can lead, and nobody has found it expired. */
  ghost predicate Steady(s: State, renewal: int) {
    && Invariant(s)
    && |s.server.creators| <= 1
    && (s.server.lease.Some? <==> |s.server.creators| == 1)
    && (s.server.lease.Some? && s.server.lease.value.renewed.Some? ==> LeadsIn(s, s.server.creators[0]))
    && (forall p :: p in s.pods ==>
          && !s.pods[p].Expired?
          && (s.pods[p].Fetched? && s.pods[p].seen.renewed.Some? ==> s.pods[p].at - s.pods[p].seen.renewed.value <= renewal))
    && (renewal <= 0 ==> Frozen(s))
  }

  /** Every renewal there is to see was made this instant. */
  ghost predicate Frozen(s: State) {
    && (s.server.lease.Some? && s.server.lease.value.renewed.Some? ==> s.server.lease.value.renewed.value == s.now)
    && (forall p :: p in s.pods && s.pods[p].Fetched? && s.pods[p].seen.renewed.Some? ==>
          s.server.lease.Some? && s.server.lease.value.renewed.Some? && s.pods[p].seen.renewed.value == s.now)
  }

  lemma SteadyLeader(s: State, renewal: int, p: string)
    requires Steady(s, renewal) && LeadsIn(s, p)
    ensures s.pods[p].won.uid == 0 && s.server.lease.Some? && s.server.lease.value.uid == 0
    ensures |s.server.creators| == 1 && p == s.server.creators[0]
  {
    assert PhaseGood(s, p, s.pods[p]);
  }

  lemma StepKeepsSteady(s: State, a: Action, t: State, renewal: int, delay: int)
    requires Steady(s, renewal) && Step(s, a) == Some(t)
    requires PacedAction(s, a, delay) && Harmless(renewal, delay)
    requires forall p :: LeadsIn(s, p) ==> RenewedWithin(s, p, renewal)
    requires forall p :: LeadsIn(t, p) ==> RenewedWithin(t, p, renewal)
    ensures Steady(t, renewal)
  {
    hide Invariant, Frozen;
    StepKeepsInvariant(s, a, t);
    forall p | LeadsIn(s, p)
      ensures |s.server.creators| == 1 && p == s.server.creators[0]
      ensures s.server.lease.Some? && (s.server.lease.value.renewed.Some? ==> s.now - s.server.lease.value.renewed.value <= renewal)
    {
      SteadyLeader(s, renewal, p);
    }
    if !a.Tick? {
      assert forall p :: LeadsIn(s, p) ==> LeadsIn(t, p);
      assert forall p :: p in t.pods && p != a.pod ==> p in s.pods && t.pods[p] == s.pods[p];
      NotFoundExpired(s, a, t, renewal, delay);
      assert s.pods[a.pod].Leading? <==> LeadsIn(s, a.pod);
    }
    if renewal <= 0 {
      StaysFrozen(s, a, t, renewal);
    }
  }

  lemma NotFoundExpired(s: State, a: Action, t: State, renewal: int, delay: int)
    requires Steady(s, renewal) && Step(s, a) == Some(t) && !a.Tick?
    requires PacedAction(s, a, delay) && Harmless(renewal, delay)
    ensures a.pod in t.pods && !t.pods[a.pod].Expired?
  {
    assert PhaseGood(s, a.pod, s.pods[a.pod]);
  }

  lemma StaysFrozen(s: State, a: Action, t: State, renewal: int)
    requires Steady(s, renewal) && Step(s, a) == Some(t) && !a.Collect? && (a.Crash? ==> !LeadsIn(s, a.pod))
    requires Invariant(t) && renewal <= 0
    requires forall p :: LeadsIn(t, p) ==> RenewedWithin(t, p, renewal)
    ensures Frozen(t)
  {
    hide Invariant;
    RenewedByLeader(s, a, t, renewal);
    if t.server.lease.Some? && t.server.lease.value.renewed.Some? {
      var p :| LeadsIn(t, p) && t.server.lease.value.uid == t.pods[p].won.uid;
      assert RenewedWithin(t, p, renewal);
      NotInFuture(t);
    }
    if s.server.lease.Some? && s.server.lease.value.renewed.Some? {
      assert t.server.lease.Some? && t.server.lease.value.renewed.Some? && t.now == s.now by {
        RenewedStays(s, a, t, renewal);
      }
    }
    if !a.Tick? {
      assert forall p :: p in t.pods && p != a.pod ==> p in s.pods && t.pods[p] == s.pods[p];
      assert s.pods[a.pod].Fetched? ==> !t.pods[a.pod].Fetched?;
      assert t.pods[a.pod].Fetched? ==> t.server == s.server && t.server.lease == Some(t.pods[a.pod].seen);
    }
  }

  /** In a steady state a renewed lease is not lost. */
  lemma RenewedStays(s: State, a: Action, t: State, renewal: int)
    requires Steady(s, renewal) && Step(s, a) == Some(t) && !a.Collect?
    requires s.server.lease.Some? && s.server.lease.value.renewed.Some?
    requires t.server.lease.Some? && t.server.lease.value.renewed.Some? ==> t.server.lease.value.renewed.value == t.now
    requires renewal <= 0
    ensures t.server.lease.Some? && t.server.lease.value.renewed.Some? && t.now == s.now
  {
    hide Invariant;
    assert Frozen(s);
    if !a.Tick? {
      assert !s.pods[a.pod].Expired?;
      assert PhaseGood(s, a.pod, s.pods[a.pod]) by { PhaseOf(s, a.pod); }
    }
  }

  lemma PhaseOf(s: State, p: string)
    requires Invariant(s) && p in s.pods
    ensures PhaseGood(s, p, s.pods[p])
  {
  }

  lemma NotInFuture(s: State)
    requires Invariant(s) && s.server.lease.Some? && s.server.lease.value.renewed.Some?
    ensures s.server.lease.value.renewed.value <= s.now
  {
  }

  /** A renewed lease has a leader who won it. */
  lemma RenewedByLeader(s: State, a: Action, t: State, renewal: int)
    requires Steady(s, renewal) && Step(s, a) == Some(t) && !a.Collect? && (a.Crash? ==> !LeadsIn(s, a.pod))
    ensures t.server.lease.Some? && t.server.lease.value.renewed.Some? ==>
      exists p :: LeadsIn(t, p) && t.server.lease.value.uid == t.pods[p].won.uid
  {
    hide PhaseGood;
    forall p | LeadsIn(s, p) ensures s.pods[p].won.uid == 0 && s.server.lease.Some? && s.server.lease.value.uid == 0 {
      SteadyLeader(s, renewal, p);
    }
    if s.server.lease.Some? && s.server.lease.value.renewed.Some? && t.server.lease == s.server.lease {
      var leader := s.server.creators[0];
      assert LeadsIn(s, leader) && LeadsIn(t, leader) && t.pods[leader].won == s.pods[leader].won;
    } else if t.server.lease.Some? && t.server.lease.value.renewed.Some? {
      assert LeadsIn(s, a.pod) && LeadsIn(t, a.pod) && t.pods[a.pod].won == s.pods[a.pod].won;
      StampedIsCurrent(s, a.pod);
    }
  }

  lemma {:induction false} RunStaysSteady(states: seq<State>, actions: seq<Action>, renewal: int, delay: int, i: nat)
    requires Run(states, actions) && Paced(states, actions, renewal, delay) && Harmless(renewal, delay) && i < |states|
    ensures Steady(states[i], renewal)
  {
    if i > 0 {
      RunStaysSteady(states, actions, renewal, delay, i - 1);
      assert PacedAction(states[i - 1], actions[i - 1], delay);
      assert Step(states[i - 1], actions[i - 1]) == Some(states[i]);
      StepKeepsSteady(states[i - 1], actions[i - 1], states[i], renewal, delay);
    }
  }

  /**
   * Timed safety without atomicity: in a harmlessly paced run no lease is ever found expired, so the first
   * lease is never deleted and whoever leads at any two moments is one and the same pod.
   */
  lemma OneLeaderForever(states: seq<State>, actions: seq<Action>, renewal: int, delay: int, i: nat, j: nat)
    requires Run(states, actions) && Paced(states, actions, renewal, delay) && Harmless(renewal, delay) && i <= j < |states|
    ensures forall p :: p in states[j].pods ==> !states[j].pods[p].Expired?
    ensures states[i].server.lease.Some? ==>
      states[j].server.lease.Some? && states[j].server.lease.value.uid == states[i].server.lease.value.uid
    ensures forall p, q :: LeadsIn(states[i], p) && LeadsIn(states[j], q) ==> p == q
    ensures forall p :: LeadsIn(states[i], p) ==> LeadsIn(states[j], p)
  {
    RunStaysSteady(states, actions, renewal, delay, i);
    RunStaysSteady(states, actions, renewal, delay, j);
    CreatorsGrow(states, actions, i, j);
    forall p | LeadsIn(states[i], p) ensures p == states[i].server.creators[0] && LeadsIn(states[j], p) {
      SteadyLeader(states[i], renewal, p);
      StillLeads(states, actions, renewal, delay, i, j, p);
    }
    forall q | LeadsIn(states[j], q) ensures q == states[j].server.creators[0] {
      SteadyLeader(states[j], renewal, q);
    }
  }

  lemma {:induction false} StillLeads(states: seq<State>, actions: seq<Action>, renewal: int, delay: int, i: nat, j: nat, p: string)
    requires Run(states, actions) && Paced(states, actions, renewal, delay) && Harmless(renewal, delay) && i <= j < |states|
    requires LeadsIn(states[i], p)
    ensures LeadsIn(states[j], p)
    decreases j
  {
    if i < j {
      StillLeads(states, actions, renewal, delay, i, j - 1, p);
      assert PacedAction(states[j - 1], actions[j - 1], delay);
      assert Step(states[j - 1], actions[j - 1]) == Some(states[j]);
    }
  }
}
