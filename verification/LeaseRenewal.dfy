/**
  Lease renewal against stop: `LeaseManager.heartbeat` and `Stop` as
  interleaved steps, one per critical section or remote call.
*/
module LeaseRenewal {
  import opened Options

  /** Where the heartbeat of the renewal loop stands between two steps. */
  datatype Heart =
    | Idle
    | Sending(id: nat)
    | Registering
    | Holding(id: nat)
    | Releasing(id: nat)

  datatype Stopping = StopReleasing(id: nat) | StopDone

  /**
    `lease` and `ok` are the manager's fields. `held` is the lease the daemon
    keeps for this client id, at most one because registration is idempotent
    by client id. `stops` holds the calls of `Stop`, and `releaseFailed` tells
    whether some release reported an error.
  */
  datatype Renewal = Renewal(
    lease: nat, ok: bool, held: Option<nat>, heart: Heart, stops: map<nat, Stopping>, releaseFailed: bool)

  /** After `Start` returned without an error. */
  function Started(id: nat): Renewal {
    Renewal(id, true, Some(id), Idle, map[], false)
  }

  datatype Step =
    | HeartbeatBegins
    | HeartbeatAnswered
    | HeartbeatUnavailable
    | Registers(newID: nat)
    | RegisterFails
    | HeartbeatEnds
    | HeartbeatReleases(succeeds: bool)
    | StopBegins(call: nat)
    | StopReleases(call: nat, succeeds: bool)
    | DaemonForgets

  predicate Enabled(s: Renewal, step: Step) {
    match step
    case HeartbeatBegins => s.heart.Idle?
    case HeartbeatAnswered => s.heart.Sending?
    case HeartbeatUnavailable => s.heart.Sending?
    case Registers(_) => s.heart.Registering?
    case RegisterFails => s.heart.Registering?
    case HeartbeatEnds => s.heart.Holding?
    case HeartbeatReleases(_) => s.heart.Releasing?
    case StopBegins(call) => call !in s.stops
    case StopReleases(call, _) => call in s.stops && s.stops[call].StopReleasing?
    case DaemonForgets => true
  }

  function AfterRelease(held: Option<nat>, id: nat, succeeds: bool): Option<nat> {
    if succeeds && held == Some(id) then None else held
  }

  /** The first critical section of `heartbeat`. */
  function BeginHeartbeat(lease: nat, ok: bool): Heart {
    if ok then Sending(lease) else Idle
  }

  /** The second: what remains to be done with the lease the daemon answered. */
  function EndHeartbeat(ok: bool, id: nat): Heart {
    if ok then Idle else Releasing(id)
  }

  function BeginStop(lease: nat, ok: bool): Stopping {
    if ok then StopReleasing(lease) else StopDone
  }

  function Apply(s: Renewal, step: Step): Renewal
    requires Enabled(s, step)
  {
    match step
    case HeartbeatBegins => s.(heart := BeginHeartbeat(s.lease, s.ok))
    case HeartbeatAnswered => s.(heart := if s.held == Some(s.heart.id) then Holding(s.heart.id) else Registering)
    case HeartbeatUnavailable => s.(heart := Idle)
    case Registers(newID) =>
      (var id := if s.held.Some? then s.held.value else newID;
       s.(held := Some(id), heart := Holding(id)))
    case RegisterFails => s.(heart := Idle)
    case HeartbeatEnds =>
      s.(lease := if s.ok then s.heart.id else s.lease, heart := EndHeartbeat(s.ok, s.heart.id))
    case HeartbeatReleases(succeeds) =>
      s.(held := AfterRelease(s.held, s.heart.id, succeeds), heart := Idle,
         releaseFailed := s.releaseFailed || !succeeds)
    case StopBegins(call) => s.(ok := false, stops := s.stops[call := BeginStop(s.lease, s.ok)])
    case StopReleases(call, succeeds) =>
      s.(held := AfterRelease(s.held, s.stops[call].id, succeeds), stops := s.stops[call := StopDone],
         releaseFailed := s.releaseFailed || !succeeds)
    case DaemonForgets => s.(held := None)
  }

  // ----- Somebody is always responsible for the lease the daemon holds -----

  /** The manager, the heartbeat in flight or a pending `Stop` knows lease `id`. */
  predicate Covered(s: Renewal, id: nat) {
    || (s.ok && s.lease == id)
    || s.heart == Holding(id)
    || s.heart == Releasing(id)
    || exists call :: call in s.stops && s.stops[call] == StopReleasing(id)
  }

  predicate Inv(s: Renewal) {
    && (s.held.Some? && !s.releaseFailed ==> Covered(s, s.held.value))
    && (s.heart.Holding? || s.heart.Releasing? ==> s.held == None || s.held == Some(s.heart.id))
    && (s.stops != map[] ==> !s.ok)
  }

  lemma StepKeeps(s: Renewal, step: Step)
    requires Inv(s) && Enabled(s, step)
    ensures Inv(Apply(s, step))
  {
    var t := Apply(s, step);
    if t.held.Some? && !t.releaseFailed {
      var id := t.held.value;
      match step {
        case StopBegins(call) =>
          if s.ok && s.lease == id {
            assert t.stops[call] == StopReleasing(id);
          } else {
            StillReleasing(s, t, id, call);
          }
        case StopReleases(call, _) => StillReleasing(s, t, id, call);
        case _ =>
      }
    }
  }

  /** A pending release of `id` by another call stays pending. */
  lemma StillReleasing(s: Renewal, t: Renewal, id: nat, call: nat)
    requires forall c :: c in s.stops && c != call ==> c in t.stops && t.stops[c] == s.stops[c]
    requires call in s.stops ==> s.stops[call] != StopReleasing(id)
    ensures (exists c :: c in s.stops && s.stops[c] == StopReleasing(id)) ==>
              exists c :: c in t.stops && t.stops[c] == StopReleasing(id)
  {
    if c :| c in s.stops && s.stops[c] == StopReleasing(id) {
      assert t.stops[c] == StopReleasing(id);
    }
  }

  ghost predicate IsRun(run: seq<Renewal>) {
    && |run| > 0 && (exists id :: run[0] == Started(id))
    && forall i :: 0 <= i < |run| - 1 ==> Next(run[i], run[i + 1])
  }

  ghost predicate Next(s: Renewal, t: Renewal) {
    exists step :: Enabled(s, step) && t == Apply(s, step)
  }

  lemma {:induction false} RunInv(run: seq<Renewal>, i: nat)
    requires IsRun(run) && i < |run|
    ensures Inv(run[i])
  {
    if i == 0 {
    } else {
      var k := i - 1;
      RunInv(run, k);
      assert Next(run[k], run[k + 1]);
      var step :| Enabled(run[k], step) && run[k + 1] == Apply(run[k], step);
      StepKeeps(run[k], step);
    }
  }

  /** `Stop` was called, and every call and the heartbeat have returned. */
  predicate Returned(s: Renewal) {
    s.stops != map[] && s.heart.Idle? && forall call :: call in s.stops ==> s.stops[call].StopDone?
  }

  /**
    In every interleaving: once the heartbeat and all calls of `Stop` have
    returned and the releases succeeded, the daemon holds no lease of this manager.
  */
  lemma StoppedMeansReleased(run: seq<Renewal>, i: nat)
    requires IsRun(run) && i < |run| && Returned(run[i]) && !run[i].releaseFailed
    ensures run[i].held == None
  {
    RunInv(run, i);
  }

  lemma ReturnedStays(s: Renewal, step: Step)
    requires Inv(s) && Returned(s) && s.held == None && Enabled(s, step)
    ensures Returned(Apply(s, step)) && Apply(s, step).held == None
  {
  }

  /** And no later heartbeat registers one. */
  lemma {:induction false} NoLaterRegistration(run: seq<Renewal>, i: nat, j: nat)
    requires IsRun(run) && i <= j < |run| && Returned(run[i]) && !run[i].releaseFailed
    ensures Returned(run[j]) && run[j].held == None
  {
    if i == j {
      StoppedMeansReleased(run, i);
    } else {
      var k := j - 1;
      NoLaterRegistration(run, i, k);
      RunInv(run, k);
      assert Next(run[k], run[k + 1]);
      var step :| Enabled(run[k], step) && run[k + 1] == Apply(run[k], step);
      ReturnedStays(run[k], step);
    }
  }

  /** Without the second look at `ok` after re-registration the lease would be lost: the check is needed. */
  lemma UncheckedEndLeaks(id: nat, newID: nat)
    requires id != newID
    ensures var s0 := Started(id);
            var s1 := Apply(s0, HeartbeatBegins);
            var s2 := Apply(s1, DaemonForgets);
            var s3 := Apply(s2, HeartbeatAnswered);
            var s4 := Apply(s3, StopBegins(0));
            var s5 := Apply(s4, StopReleases(0, true));
            var s6 := Apply(s5, Registers(newID));
            && s6.held == Some(newID) && Inv(s6) && !Inv(s6.(heart := Idle))
            && Apply(Apply(s6, HeartbeatEnds), HeartbeatReleases(true)).held == None
  {
    var s0 := Started(id);
    var s1 := Apply(s0, HeartbeatBegins);
    var s2 := Apply(s1, DaemonForgets);
    var s3 := Apply(s2, HeartbeatAnswered);
    var s4 := Apply(s3, StopBegins(0));
    var s5 := Apply(s4, StopReleases(0, true));
    var s6 := Apply(s5, Registers(newID));
    assert s6.stops[0] == StopDone;
  }

  // ----- What an undisturbed heartbeat and stop come to -----

  /** A renewal of a lease the daemon still holds changes nothing; it is sent for the manager's own lease. */
  lemma HeartbeatRenews(s: Renewal)
    requires s.ok && s.heart == Idle && s.held == Some(s.lease)
    ensures Enabled(s, HeartbeatBegins) && Apply(s, HeartbeatBegins) == s.(heart := Sending(s.lease))
    ensures var t := Apply(s, HeartbeatBegins);
            && Enabled(t, HeartbeatAnswered) && Apply(t, HeartbeatAnswered) == s.(heart := Holding(s.lease))
            && Enabled(Apply(t, HeartbeatAnswered), HeartbeatEnds)
            && Apply(Apply(t, HeartbeatAnswered), HeartbeatEnds) == s
  {
  }

  /** A lease the daemon has lost is registered again, under a new id unless it knows the client by another. */
  lemma HeartbeatRegisters(s: Renewal, newID: nat)
    requires s.ok && s.heart == Idle && s.held != Some(s.lease)
    ensures var id := if s.held == None then newID else s.held.value;
            var t := Apply(s, HeartbeatBegins);
            && Enabled(t, HeartbeatAnswered) && Apply(t, HeartbeatAnswered) == s.(heart := Registering)
            && var u := Apply(t, HeartbeatAnswered);
            && Enabled(u, Registers(newID)) && Apply(u, Registers(newID)) == s.(held := Some(id), heart := Holding(id))
            && Apply(Apply(u, Registers(newID)), HeartbeatEnds) == s.(held := Some(id), lease := id)
  {
  }

  /** A failed remote call ends the heartbeat and keeps the lease for the next one. */
  lemma HeartbeatGivesUp(s: Renewal)
    ensures s.heart.Sending? <==> Enabled(s, HeartbeatUnavailable)
    ensures s.heart == Registering <==> Enabled(s, RegisterFails)
    ensures s.heart.Sending? ==> Apply(s, HeartbeatUnavailable) == s.(heart := Idle)
    ensures s.heart == Registering ==> Apply(s, RegisterFails) == s.(heart := Idle)
  {
  }

  /** After a stop no heartbeat is sent, and one under way hands its lease back to the daemon. */
  lemma StopIsFinal(s: Renewal, succeeds: bool)
    requires !s.ok
    ensures s.heart == Idle ==> Apply(s, HeartbeatBegins) == s
    ensures s.heart.Holding? ==>
              var id, t := s.heart.id, Apply(s, HeartbeatEnds);
              && t == s.(heart := Releasing(id)) && Enabled(t, HeartbeatReleases(succeeds))
              && Apply(t, HeartbeatReleases(succeeds))
              == s.(heart := Idle, releaseFailed := s.releaseFailed || !succeeds,
                    held := if succeeds && s.held == Some(id) then None else s.held)
  {
  }

  /** The first stop releases the manager's lease; a later one has nothing to do. */
  lemma StopReleasesOnce(s: Renewal, call: nat, succeeds: bool)
    requires call !in s.stops
    ensures Enabled(s, StopBegins(call))
    ensures var t := Apply(s, StopBegins(call));
            if !s.ok then t == s.(stops := s.stops[call := StopDone])
            else
              && t == s.(ok := false, stops := s.stops[call := StopReleasing(s.lease)])
              && Enabled(t, StopReleases(call, succeeds))
              && Apply(t, StopReleases(call, succeeds))
              == s.(ok := false, stops := s.stops[call := StopDone], releaseFailed := s.releaseFailed || !succeeds,
                    held := if succeeds && s.held == Some(s.lease) then None else s.held)
  {
    assert s.stops[call := StopReleasing(s.lease)][call := StopDone] == s.stops[call := StopDone];
  }

  /** The manager's fields and critical sections. */
  class LeaseManager {
    var lease: nat
    var ok: bool

    constructor (id: nat)
      ensures lease == id && ok
    {
      lease, ok := id, true;
    }

    /** The lease to renew, if the manager was started and not stopped. */
    method HeartbeatBegin() returns (next: Heart)
      ensures next == BeginHeartbeat(lease, ok)
    {
      if !ok {
        return Idle;
      }
      next := Sending(lease);
    }

    /** Keeps the answered lease, or tells the caller to release it because of a stop. */
    method HeartbeatEnd(id: nat) returns (next: Heart)
      modifies this`lease
      ensures next == EndHeartbeat(ok, id) && lease == if ok then id else old(lease)
    {
      if !ok {
        return Releasing(id);
      }
      lease := id;
      next := Idle;
    }

    method StopBegin() returns (next: Stopping)
      modifies this`ok
      ensures next == BeginStop(lease, old(ok)) && !ok
    {
      if !ok {
        return StopDone;
      }
      ok := false;
      next := StopReleasing(lease);
    }
  }
}
