/** The one lease object that all pods compete for, as the API server keeps it, and one pod's claim attempt on it. */
module LeaseApi {
  import opened Values

  /** Two minutes, in the microseconds of the lease's timestamps. */
  const EXPIRY: int := 120_000_000

  /**
   * A lease. `uid` is the incarnation that the server gives each created object, `version` the
   * resource version that every write renews.
   */
  datatype Lease = Lease(uid: nat, version: nat, holder: string, acquired: int, renewed: Option<int>)

  /** The server's state. `creators` logs which pod created each incarnation; a new uid is its length. */
  datatype Server = Server(lease: Option<Lease>, creators: seq<string>, nextVersion: nat)

  /** Creating fails when the lease exists. */
  function Created(s: Server, pod: string, now: int): Server {
    if s.lease.Some? then s
    else Server(Some(Lease(|s.creators|, s.nextVersion, pod, now, None)), s.creators + [pod], s.nextVersion + 1)
  }

  /** Replacing fails when the lease is missing or was written since it was read. */
  predicate CanReplace(s: Server, lease: Lease) {
    s.lease.Some? && s.lease.value.version == lease.version
  }

  function Replaced(s: Server, lease: Lease): Server
    requires CanReplace(s, lease)
  {
    s.(lease := Some(lease.(version := s.nextVersion)), nextVersion := s.nextVersion + 1)
  }

  /** Deleting is by name, whatever incarnation that is. */
  function Deleted(s: Server): Server {
    s.(lease := None)
  }

  predicate IsExpired(lease: Lease, now: int) {
    lease.renewed.Some? && now - lease.renewed.value > EXPIRY
  }

  /** Which calls of a claim attempt fail, without effect on the server. */
  datatype Faults = Faults(create: bool, get: bool, delete: bool)

  /** A claim attempt that no other pod interleaves with: the server afterwards, and the lease it returns on success. */
  function ClaimAlone(s: Server, pod: string, createdAt: int, checkedAt: int, faults: Faults): (Server, Option<Lease>) {
    var s1 := if faults.create then s else Created(s, pod, createdAt);
    if faults.get || s1.lease.None? then (s1, None)
    else
      var seen := s1.lease.value;
      if IsExpired(seen, checkedAt) && faults.delete then (s1, None)
      else
        (if IsExpired(seen, checkedAt) then Deleted(s1) else s1, if seen.holder == pod then Some(seen) else None)
  }

  /**
   * An undisturbed claim on a lease that is there deletes it exactly when it was renewed 120 000 001 microseconds
   * ago or more, and succeeds exactly for the pod that holds it, deleted or not.
   */
  lemma ClaimJudgesAge(s: Server, pod: string, createdAt: int, checkedAt: int)
    requires s.lease.Some?
    ensures
      var lease := s.lease.value;
      var (after, claimed) := ClaimAlone(s, pod, createdAt, checkedAt, Faults(false, false, false));
      && (after.lease.None? <==> lease.renewed.Some? && checkedAt - lease.renewed.value >= 120_000_001)
      && (after.lease.Some? ==> after == s)
      && after.creators == s.creators
      && claimed == (if lease.holder == pod then Some(lease) else None)
  {
  }

  /** An undisturbed claim on a free lease takes it, unrenewed, at the time of its create call. */
  lemma ClaimTakesFreeLease(s: Server, pod: string, createdAt: int, checkedAt: int)
    requires s.lease.None?
    ensures
      var (after, claimed) := ClaimAlone(s, pod, createdAt, checkedAt, Faults(false, false, false));
      && claimed.Some? && after.lease == claimed && after.creators == s.creators + [pod]
      && claimed.value.holder == pod && claimed.value.acquired == createdAt && claimed.value.renewed.None?
  {
  }

  /** A refresh round that no other pod interleaves with: the server afterwards, and whether the loop goes on. */
  function RefreshAlone(s: Server, stampedAt: int, getFails: bool, replaceFails: bool): (Server, bool) {
    if getFails || s.lease.None? || replaceFails then (s, false)
    else (Replaced(s, s.lease.value.(renewed := Some(stampedAt))), true)
  }

  /** The API server, as the client calls it. */
  class LeaseServer {
    var state: Server

    constructor ()
      ensures state == Server(None, [], 0)
    {
      state := Server(None, [], 0);
    }

    method CreateLease(pod: string, now: int, fails: bool) returns (ok: bool)
      modifies this
      ensures state == if fails then old(state) else Created(old(state), pod, now)
      ensures ok <==> !fails && old(state).lease.None?
    {
      ok := !fails && state.lease.None?;
      if ok {
        state := Server(Some(Lease(|state.creators|, state.nextVersion, pod, now, None)),
                        state.creators + [pod], state.nextVersion + 1);
      }
    }

    method GetLease(fails: bool) returns (lease: Option<Lease>)
      ensures lease == if fails then None else state.lease
    {
      lease := if fails then None else state.lease;
    }

    method ReplaceLease(lease: Lease, fails: bool) returns (ok: bool)
      modifies this
      ensures ok <==> !fails && CanReplace(old(state), lease)
      ensures state == if ok then Replaced(old(state), lease) else old(state)
    {
      ok := !fails && CanReplace(state, lease);
      if ok {
        state := Replaced(state, lease);
      }
    }

    method DeleteLease(fails: bool) returns (ok: bool)
      modifies this
      ensures ok <==> !fails && old(state).lease.Some?
      ensures state == if ok then Deleted(old(state)) else old(state)
    {
      ok := !fails && state.lease.Some?;
      if ok {
        state := Deleted(state);
      }
    }

    /** Create and ignore the outcome, read, delete if expired, and compare the holder that was read. */
    method TryCreateLeaseForCurrentPod(pod: string, createdAt: int, checkedAt: int, faults: Faults)
      returns (claimed: Option<Lease>)
      modifies this
      ensures (state, claimed) == ClaimAlone(old(state), pod, createdAt, checkedAt, faults)
    {
      var _ := CreateLease(pod, createdAt, faults.create);
      var lease := GetLease(faults.get);
      if lease.None? {
        return None;
      }
      var seen := lease.value;
      if seen.renewed.Some? {
        if checkedAt - seen.renewed.value > EXPIRY {
          var deleted := DeleteLease(faults.delete);
          if !deleted {
            return None;
          }
        }
      }
      claimed := if seen.holder == pod then Some(seen) else None;
    }

    /** One round of the refresh loop: read whatever lease is there, stamp it, write it back. */
    method RefreshOnce(stampedAt: int, getFails: bool, replaceFails: bool) returns (goOn: bool)
      modifies this
      ensures (state, goOn) == RefreshAlone(old(state), stampedAt, getFails, replaceFails)
    {
      var lease := GetLease(getFails);
      if lease.None? {
        return false;
      }
      var stamped := lease.value.(renewed := Some(stampedAt));
      goOn := ReplaceLease(stamped, replaceFails);
    }
  }
}
