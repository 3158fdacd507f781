/** Runs with two live leaders: each drops one condition of mutual exclusion and keeps the others. */
module TwoLeaders {
  import opened Values
  import opened LeaseApi
  import opened Election
  import opened Exclusion

  /** A run under construction. */
  datatype Trace = Trace(states: seq<State>, moves: seq<Move>) {
    function Last(): State
      requires states != []
    {
      states[|states| - 1]
    }
  }

  /** What moves a run may take: whole claims only, or single steps that interleave freely. */
  ghost predicate Follows(s: State, m: Move, t: State, whole: bool) {
    if whole then MoveFrom(s, m) == Some(t) else m.Other? && Step(s, m.action) == Some(t)
  }

  ghost predicate Valid(tr: Trace, whole: bool)
    ensures Valid(tr, whole) ==> tr.states != []
  {
    && |tr.states| == |tr.moves| + 1
    && Initial(tr.states[0])
    && forall i :: 0 <= i < |tr.moves| ==> Follows(tr.states[i], tr.moves[i], tr.states[i + 1], whole)
  }

  ghost predicate AllFresh(tr: Trace, age: int) {
    forall i :: 0 <= i < |tr.states| ==> Fresh(tr.states[i], age)
  }

  /** Every single step keeps to the pace. */
  ghost predicate Calm(tr: Trace, delay: int)
    requires |tr.states| == |tr.moves| + 1
  {
    forall i :: 0 <= i < |tr.moves| && tr.moves[i].Other? ==> PacedAction(tr.states[i], tr.moves[i].action, delay)
  }

  ghost predicate NoRestarts(tr: Trace) {
    forall i :: 0 <= i < |tr.moves| ==> tr.moves[i].Other? ==> !tr.moves[i].action.Restart?
  }

  lemma Push(tr: Trace, m: Move, t: State, whole: bool) returns (longer: Trace)
    requires Valid(tr, whole) && Follows(tr.Last(), m, t, whole)
    ensures Valid(longer, whole) && longer.Last() == t
    ensures forall age :: AllFresh(tr, age) && Fresh(t, age) ==> AllFresh(longer, age)
    ensures forall delay :: Calm(tr, delay) && (m.Other? ==> PacedAction(tr.Last(), m.action, delay)) ==> Calm(longer, delay)
    ensures NoRestarts(tr) && (m.Other? ==> !m.action.Restart?) ==> NoRestarts(longer)
  {
    hide Follows, Fresh, PacedAction;
    longer := Trace(tr.states + [t], tr.moves + [m]);
    forall i | 0 <= i < |longer.moves| ensures Follows(longer.states[i], longer.moves[i], longer.states[i + 1], whole) {
      if i < |tr.moves| {
        assert Follows(tr.states[i], tr.moves[i], tr.states[i + 1], whole);
      }
    }
  }

  /** The state in which `p` has just taken the free lease. */
  function Led(s: State, p: string): State
    requires s.server.lease.None?
  {
    var server := Created(s.server, p, s.now);
    With(s, p, Leading(server.lease.value, Waiting)).(server := server, led := s.led + {p})
  }

  /** `p` takes the free lease. */
  lemma TakeLead(tr: Trace, p: string, whole: bool) returns (longer: Trace)
    requires Valid(tr, whole) && tr.Last().server.lease.None? && p in tr.Last().pods && tr.Last().pods[p] == Idle
    ensures Valid(longer, whole) && longer.Last() == Led(tr.Last(), p)
    ensures forall age :: AllFresh(tr, age) ==> AllFresh(longer, age)
    ensures forall delay :: Calm(tr, delay) ==> Calm(longer, delay)
    ensures NoRestarts(tr) ==> NoRestarts(longer)
  {
    hide Valid, AllFresh, Calm, NoRestarts;
    var s := tr.Last();
    var lease := Created(s.server, p, s.now).lease.value;
    var s1 := With(s, p, CreateDone).(server := Created(s.server, p, s.now));
    var end := Led(s, p);
    longer := Push(tr, Other(CreateLease(p)), s1, whole);
    assert s1.pods[p := end.pods[p]] == end.pods;
    hide Follows, Created, Fresh, PacedAction;
    if whole {
      longer := LeadWhole(longer, p, lease, end);
    } else {
      longer := LeadBySteps(longer, p, lease, end);
    }
  }

  /** The rest of a claim that finds its own lease, as one move. */
  lemma LeadWhole(tr: Trace, p: string, lease: Lease, end: State) returns (longer: Trace)
    requires Valid(tr, true) && p in tr.Last().pods && tr.Last().pods[p] == CreateDone
    requires tr.Last().server.lease == Some(lease) && lease.holder == p && lease.renewed.None?
    requires end == With(tr.Last(), p, Leading(lease, Waiting)).(led := tr.Last().led + {p})
    ensures Valid(longer, true) && longer.Last() == end
    ensures forall age :: AllFresh(tr, age) ==> AllFresh(longer, age)
    ensures forall delay :: Calm(tr, delay) ==> Calm(longer, delay)
    ensures NoRestarts(tr) ==> NoRestarts(longer)
  {
    hide Valid, AllFresh, Calm, NoRestarts, Exec;
    ClaimIsSteps(tr.Last(), p, None);
    longer := Push(tr, Claim(p, None), end, true);
  }

  /** The same, step by step. */
  lemma LeadBySteps(tr: Trace, p: string, lease: Lease, end: State) returns (longer: Trace)
    requires Valid(tr, false) && p in tr.Last().pods && tr.Last().pods[p] == CreateDone
    requires tr.Last().server.lease == Some(lease) && lease.holder == p && lease.renewed.None?
    requires end == With(tr.Last(), p, Leading(lease, Waiting)).(led := tr.Last().led + {p})
    ensures Valid(longer, false) && longer.Last() == end
    ensures forall age :: AllFresh(tr, age) ==> AllFresh(longer, age)
    ensures forall delay :: Calm(tr, delay) ==> Calm(longer, delay)
    ensures NoRestarts(tr) ==> NoRestarts(longer)
  {
    hide Valid, AllFresh, Calm, NoRestarts;
    var s := tr.Last();
    var s1, s2 := With(s, p, Fetched(lease, s.now)), With(s, p, Checked(lease));
    assert s1.pods[p := Checked(lease)] == s2.pods && s2.pods[p := end.pods[p]] == end.pods;
    longer := Push(tr, Other(Fetch(p)), s1, false);
    longer := Push(longer, Other(CheckExpiry(p)), s2, false);
    longer := Push(longer, Other(Decide(p)), end, false);
  }

  lemma FreshLast(tr: Trace, age: int)
    requires tr.states != [] && AllFresh(tr, age)
    ensures Fresh(tr.Last(), age)
  {
  }

  /** The state in which the leader `p` has renewed its lease. */
  function Renewed(s: State): State
    requires s.server.lease.Some?
  {
    s.(server := Replaced(s.server, s.server.lease.value.(renewed := Some(s.now))))
  }

  lemma Renew(tr: Trace, p: string, won: Lease, whole: bool) returns (longer: Trace)
    requires Valid(tr, whole) && tr.Last().server.lease.Some?
    requires p in tr.Last().pods && tr.Last().pods[p] == Leading(won, Waiting)
    ensures Valid(longer, whole) && longer.Last() == Renewed(tr.Last())
    ensures forall age :: age >= 0 && AllFresh(tr, age) ==> AllFresh(longer, age)
    ensures forall delay :: Calm(tr, delay) ==> Calm(longer, delay)
    ensures NoRestarts(tr) ==> NoRestarts(longer)
  {
    hide Valid, AllFresh, Calm, NoRestarts;
    var s := tr.Last();
    var lease := s.server.lease.value;
    var s1 := With(s, p, Leading(won, Read(lease)));
    var s2 := With(s, p, Leading(won, Stamped(lease.(renewed := Some(s.now)))));
    var end := Renewed(s);
    assert s1.pods[p := s2.pods[p]] == s2.pods && s2.pods[p := Leading(won, Waiting)] == end.pods;
    assert Step(s, RefreshFetch(p)) == Some(s1) && Step(s1, Stamp(p)) == Some(s2) && Step(s2, Replace(p)) == Some(end);
    forall age | age >= 0 && AllFresh(tr, age) ensures Fresh(s1, age) && Fresh(s2, age) && Fresh(end, age) {
      FreshLast(tr, age);
      RenewFresh(s, p, won, age);
    }
    hide Step, Fresh, With, Renewed;
    longer := Push(tr, Other(RefreshFetch(p)), s1, whole);
    longer := Push(longer, Other(Stamp(p)), s2, whole);
    longer := Push(longer, Other(Replace(p)), end, whole);
  }

  lemma RenewFresh(s: State, p: string, won: Lease, age: int)
    requires s.server.lease.Some? && p in s.pods && s.pods[p] == Leading(won, Waiting) && Fresh(s, age) && age >= 0
    ensures
      var lease := s.server.lease.value;
      && Fresh(With(s, p, Leading(won, Read(lease))), age)
      && Fresh(With(s, p, Leading(won, Stamped(lease.(renewed := Some(s.now))))), age)
      && Fresh(Renewed(s), age)
  {
    var lease := s.server.lease.value;
    var s1 := With(s, p, Leading(won, Read(lease)));
    var s2 := With(s, p, Leading(won, Stamped(lease.(renewed := Some(s.now)))));
    assert forall q :: LeadsIn(s1, q) || LeadsIn(s2, q) ==> LeadsIn(s, q);
  }

  /** `p` reads the lease that is there and finds it expired. */
  lemma FindExpired(tr: Trace, p: string) returns (longer: Trace)
    requires Valid(tr, false) && tr.Last().server.lease.Some? && IsExpired(tr.Last().server.lease.value, tr.Last().now)
    requires p in tr.Last().pods && tr.Last().pods[p] == Idle && (forall q :: !LeadsIn(tr.Last(), q))
    ensures Valid(longer, false) && longer.Last() == With(tr.Last(), p, Expired(tr.Last().server.lease.value))
    ensures forall age :: AllFresh(tr, age) ==> AllFresh(longer, age)
    ensures NoRestarts(tr) ==> NoRestarts(longer)
  {
    hide Valid, AllFresh, Calm, NoRestarts, IsExpired;
    var s := tr.Last();
    var lease := s.server.lease.value;
    var s1, s2, s3 := With(s, p, CreateDone), With(s, p, Fetched(lease, s.now)), With(s, p, Expired(lease));
    assert s1.pods[p := Fetched(lease, s.now)] == s2.pods && s2.pods[p := Expired(lease)] == s3.pods;
    assert forall q :: LeadsIn(s1, q) || LeadsIn(s2, q) || LeadsIn(s3, q) ==> LeadsIn(s, q);
    longer := Push(tr, Other(CreateLease(p)), s1, false);
    longer := Push(longer, Other(Fetch(p)), s2, false);
    longer := Push(longer, Other(CheckExpiry(p)), s3, false);
  }

  /** `p` deletes whatever lease is there by now, and sees that the one it read was not its own. */
  lemma DeleteStale(tr: Trace, p: string, seen: Lease) returns (longer: Trace)
    requires Valid(tr, false) && tr.Last().server.lease.Some?
    requires p in tr.Last().pods && tr.Last().pods[p] == Expired(seen) && seen.holder != p
    ensures Valid(longer, false) && longer.Last() == With(tr.Last(), p, Idle).(server := Deleted(tr.Last().server))
    ensures forall age :: AllFresh(tr, age) ==> AllFresh(longer, age)
    ensures forall delay :: Calm(tr, delay) ==> Calm(longer, delay)
    ensures NoRestarts(tr) ==> NoRestarts(longer)
  {
    hide Valid, AllFresh, Calm, NoRestarts;
    var s := tr.Last();
    var s1 := With(s, p, Checked(seen)).(server := Deleted(s.server));
    var end := With(s, p, Idle).(server := Deleted(s.server));
    assert s1.pods[p := Idle] == end.pods;
    longer := Push(tr, Other(DeleteLease(p)), s1, false);
    longer := Push(longer, Other(Decide(p)), end, false);
  }

  const LATER: nat := EXPIRY + 1

  /**
   * Interleaved claims: two pods find a crashed leader's lease expired; the slower one then deletes the
   * lease that the faster one has taken meanwhile. Leases stay fresh and no pod restarts.
   */
  lemma InterleavedClaims() returns (tr: Trace)
    ensures Valid(tr, false) && AllFresh(tr, 0) && NoRestarts(tr)
    ensures LeadsIn(tr.Last(), "b") && LeadsIn(tr.Last(), "c")
  {
    hide Valid, AllFresh, Calm, NoRestarts, Step;
    var s := State(Server(None, [], 0), 0, map["a" := Idle, "b" := Idle, "c" := Idle], {});
    tr := Start(s, false);
    assert AllFresh(tr, 0);
    tr := TakeLead(tr, "a", false);
    var won := tr.Last().server.lease.value;
    tr := Renew(tr, "a", won, false);
    var stale := tr.Last().server.lease.value;
    tr := CrashAndWait(tr, "a", false);
    assert forall q :: !LeadsIn(tr.Last(), q);
    tr := FindExpired(tr, "b");
    assert forall q :: !LeadsIn(tr.Last(), q);
    tr := FindExpired(tr, "c");
    tr := DeleteStale(tr, "b", stale);
    tr := TakeLead(tr, "b", false);
    tr := DeleteStale(tr, "c", stale);
    tr := TakeLead(tr, "c", false);
  }

  lemma Start(s: State, whole: bool) returns (tr: Trace)
    requires Initial(s)
    ensures Valid(tr, whole) && tr.Last() == s && NoRestarts(tr)
    ensures forall age :: AllFresh(tr, age)
    ensures forall delay :: Calm(tr, delay)
  {
    tr := Trace([s], []);
  }

  /** The leader crashes and its lease grows old. */
  lemma CrashAndWait(tr: Trace, p: string, whole: bool) returns (longer: Trace)
    requires Valid(tr, whole) && p in tr.Last().pods && (forall q :: LeadsIn(tr.Last(), q) ==> q == p)
    ensures Valid(longer, whole) && longer.Last() == With(tr.Last(), p, Down).(now := tr.Last().now + LATER)
    ensures forall age :: AllFresh(tr, age) ==> AllFresh(longer, age)
    ensures NoRestarts(tr) ==> NoRestarts(longer)
  {
    hide Valid, AllFresh, Calm, NoRestarts;
    var s1 := With(tr.Last(), p, Down);
    var s2 := s1.(now := s1.now + LATER);
    forall q ensures !LeadsIn(s1, q) && !LeadsIn(s2, q) {
      assert LeadsIn(s1, q) ==> q != p && LeadsIn(tr.Last(), q);
    }
    longer := Push(tr, Other(Crash(p)), s1, whole);
    longer := Push(longer, Other(Tick(LATER)), s2, whole);
  }

  /**
   * A reclaim: a leader restarts, deletes its own expired lease and leads on without one, so that another
   * pod can take the free lease. Claims do not interleave and leases stay fresh.
   */
  lemma ReclaimAfterLeading() returns (tr: Trace)
    ensures Valid(tr, true) && AllFresh(tr, 0)
    ensures LeadsIn(tr.Last(), "a") && LeadsIn(tr.Last(), "b")
  {
    hide Valid, AllFresh, Calm, Step;
    var s := State(Server(None, [], 0), 0, map["a" := Idle, "b" := Idle], {});
    tr := Start(s, true);
    assert AllFresh(tr, 0);
    tr := TakeLead(tr, "a", true);
    var won := tr.Last().server.lease.value;
    tr := Renew(tr, "a", won, true);
    tr := CrashAndWait(tr, "a", true);
    tr := ClaimOwnExpired(tr, "a");
    tr := TakeLead(tr, "b", true);
  }

  lemma ClaimOwnExpired(tr: Trace, p: string) returns (longer: Trace)
    requires Valid(tr, true) && p in tr.Last().pods && tr.Last().pods[p] == Down && (forall q :: !LeadsIn(tr.Last(), q))
    requires tr.Last().server.lease.Some? && tr.Last().server.lease.value.holder == p
    requires IsExpired(tr.Last().server.lease.value, tr.Last().now)
    ensures Valid(longer, true) && LeadsIn(longer.Last(), p) && longer.Last().server == Deleted(tr.Last().server)
    ensures forall q :: q in tr.Last().pods && q != p ==> q in longer.Last().pods && longer.Last().pods[q] == tr.Last().pods[q]
    ensures forall age :: AllFresh(tr, age) ==> AllFresh(longer, age)
  {
    hide Valid, AllFresh, Calm, IsExpired;
    var s := tr.Last();
    var s1, s2 := With(s, p, Idle), With(s, p, CreateDone);
    assert s1.pods[p := CreateDone] == s2.pods;
    assert forall q :: LeadsIn(s1, q) || LeadsIn(s2, q) ==> LeadsIn(s, q);
    longer := Push(tr, Other(Restart(p)), s1, true);
    longer := Push(longer, Other(CreateLease(p)), s2, true);
    ClaimIsSteps(s2, p, None);
    longer := Push(longer, Claim(p, None), ClaimEffect(s2, p, None), true);
  }

  /**
   * A stale leader: its refresh loop has stopped, another pod deletes the expired lease and takes a new
   * one, and the first pod leads on. Claims do not interleave, no pod restarts, and the lease is at most an
   * instant too old.
   */
  lemma StaleLeader() returns (tr: Trace)
    ensures Valid(tr, true) && AllFresh(tr, EXPIRY + 1) && NoRestarts(tr)
    ensures LeadsIn(tr.Last(), "a") && LeadsIn(tr.Last(), "b")
  {
    hide Valid, AllFresh, Calm, NoRestarts, Step;
    var s := State(Server(None, [], 0), 0, map["a" := Idle, "b" := Idle], {});
    tr := Start(s, true);
    assert AllFresh(tr, LATER);
    tr := TakeLead(tr, "a", true);
    var won := tr.Last().server.lease.value;
    tr := Renew(tr, "a", won, true);
    tr := ClaimStale(tr, "b");
    tr := TakeLead(tr, "b", true);
  }

  /** The lease grows old, and `p` deletes it without having held it. */
  lemma ClaimStale(tr: Trace, p: string) returns (longer: Trace)
    requires Valid(tr, true) && p in tr.Last().pods && tr.Last().pods[p] == Idle
    requires tr.Last().server.lease.Some? && tr.Last().server.lease.value.holder != p
    requires tr.Last().server.lease.value.renewed == Some(tr.Last().now)
    ensures Valid(longer, true)
    ensures longer.Last() == tr.Last().(server := Deleted(tr.Last().server), now := tr.Last().now + LATER)
    ensures forall age :: age >= LATER && AllFresh(tr, age) ==> AllFresh(longer, age)
    ensures NoRestarts(tr) ==> NoRestarts(longer)
  {
    hide Valid, AllFresh, Calm, NoRestarts;
    var s := tr.Last().(now := tr.Last().now + LATER);
    var s1 := With(s, p, CreateDone);
    longer := Push(tr, Other(Tick(LATER)), s, true);
    longer := Push(longer, Other(CreateLease(p)), s1, true);
    ClaimIsSteps(s1, p, None);
    assert s1.pods[p := Idle] == s.pods;
    longer := Push(longer, Claim(p, None), ClaimEffect(s1, p, None), true);
  }
}
