/**
  What each step of the hub changes, field by field, and what it shows of a
  session after a whole history: the last registration and its last valid state.
*/
module HubEffects {
  import opened Options
  import opened Hubs

  // ----- One step -----

  /** What the hub keeps of a payload that names a session. */
  function Kept(l: Live): (r: Live)
    ensures r.session == l.session && r.worktree == l.worktree && r.body == l.body
    ensures r.controlPath == "" && r.controlToken == ""
  {
    Live(l.session, l.worktree, "", "", l.body)
  }

  predicate Names(payload: Option<Live>, sid: string) {
    payload.Some? && payload.value.session == sid && sid != ""
  }

  lemma RegisterEffect(s: State, p: nat, payload: Option<Live>)
    requires p !in s.peers
    ensures Enabled(s, Registers(p, payload))
    ensures var t := Apply(s, Registers(p, payload));
            if payload.None? || payload.value.session == "" then t == s
            else
              var l := payload.value;
              && t.sessions == s.sessions[l.session := p] && t.waiters == s.waiters
              && t.peers.Keys == s.peers.Keys + {p}
              && t.peers[p] == Peer(l.session, Kept(l), false, 0, map[], Reading, [])
              && forall q :: q in s.peers ==>
                   t.peers[q] == if l.session in s.sessions && s.sessions[l.session] == q
                                 then s.peers[q].(connClosed := true)
                                 else s.peers[q]
  {
  }

  /** A state frame is taken exactly when it names the peer's own session; no other frame changes anything. */
  lemma StateEffect(s: State, p: nat, payload: Option<Live>)
    requires p in s.peers && s.peers[p].task == Reading
    ensures Enabled(s, ReadsState(p, payload))
    ensures Apply(s, ReadsState(p, payload))
         == if Names(payload, s.peers[p].session)
            then s.(peers := s.peers[p := s.peers[p].(live := Kept(payload.value))])
            else s
  {
    assert s.peers == s.peers[p := s.peers[p]];
  }

  /** A response leaves `pending`; with a waiter under its id it is on its way to it. */
  lemma ResponseEffect(s: State, p: nat, frame: Frame)
    requires p in s.peers && s.peers[p].task == Reading
    ensures Enabled(s, ReadsResponse(p, frame))
    ensures var before, t := s.peers[p], Apply(s, ReadsResponse(p, frame));
            && t.sessions == s.sessions && t.waiters == s.waiters && t.peers == s.peers[p := t.peers[p]]
            && t.peers[p] == before.(responses := before.responses + [frame], pending := before.pending - {frame.id},
                                     task := t.peers[p].task)
            && (frame.id !in before.pending ==> t.peers[p].task == Reading)
            && (frame.id in before.pending ==> t.peers[p].task == Delivering(before.pending[frame.id], frame))
  {
  }

  /** The frame goes on the channel, which is closed next; then the connection is read again. */
  lemma DeliveryEffect(s: State, p: nat, w: nat, frame: Frame)
    requires p in s.peers && w in s.waiters && s.peers[p].task == Delivering(w, frame)
    ensures Enabled(s, Delivers(p)) && Enabled(Apply(s, Delivers(p)), ClosesWaiter(p))
    ensures var waiter := s.waiters[w];
            && Apply(s, Delivers(p))
            == s.(peers := s.peers[p := s.peers[p].(task := Closing(w))],
                  waiters := s.waiters[w := waiter.(sent := waiter.sent + [frame])])
            && Apply(Apply(s, Delivers(p)), ClosesWaiter(p))
            == s.(peers := s.peers[p := s.peers[p].(task := Reading)],
                  waiters := s.waiters[w := waiter.(sent := waiter.sent + [frame], closes := waiter.closes + 1)])
  {
    var t := Apply(s, Delivers(p));
    assert s.peers[p].(task := Closing(w)).(task := Reading) == s.peers[p].(task := Reading);
    assert Apply(t, ClosesWaiter(p)).peers == s.peers[p := s.peers[p].(task := Reading)];
  }

  /** The end of a connection closes exactly the channels pending on it and takes exactly itself off the list. */
  lemma EndEffect(s: State, p: nat)
    requires Inv(s) && p in s.peers && s.peers[p].task == Reading
    ensures Enabled(s, Ends(p))
    ensures var t := Apply(s, Ends(p));
            && t.peers == s.peers[p := s.peers[p].(pending := map[], task := Finished)]
            && t.waiters.Keys == s.waiters.Keys
            && (forall w :: w in s.waiters ==>
                  t.waiters[w] == if exists id :: id in s.peers[p].pending && s.peers[p].pending[id] == w
                                  then s.waiters[w].(closes := s.waiters[w].closes + 1)
                                  else s.waiters[w])
            && (forall sid :: sid in t.sessions <==> sid in s.sessions && s.sessions[sid] != p)
            && (forall sid :: sid in t.sessions ==> t.sessions[sid] == s.sessions[sid])
  {
    EndSparesReplacement(s, p);
  }

  /** A request takes the next id of the connection listed for the session, or finds none. */
  lemma RequestEffect(s: State, w: nat, sid: string)
    requires Inv(s) && w !in s.waiters
    ensures Enabled(s, Requests(w, sid))
    ensures var t := Apply(s, Requests(w, sid));
            if sid !in s.sessions then t == s
            else
              var p := s.sessions[sid];
              && p in s.peers
              && var id := s.peers[p].nextID + 1;
              && t.sessions == s.sessions
              && t.peers == s.peers[p := s.peers[p].(nextID := id, pending := s.peers[p].pending[id := w])]
              && t.waiters == s.waiters[w := Waiter(p, id, [], 0, Writing)]
  {
    assert sid in s.sessions ==> SessionInv(s.peers, sid, s.sessions[sid]);
  }

  /** A failed write and a timeout forget the request and nothing else; a written one waits. */
  lemma CancelEffect(s: State, w: nat)
    requires w in s.waiters && s.waiters[w].peer in s.peers
    ensures Enabled(s, Writes(w)) <==> s.waiters[w].caller == Writing
    ensures Enabled(s, FailsToWrite(w)) <==> s.waiters[w].caller == Writing
    ensures Enabled(s, TimesOut(w)) <==> s.waiters[w].caller == Waiting
    ensures s.waiters[w].caller == Writing ==>
              Apply(s, Writes(w)) == s.(waiters := s.waiters[w := s.waiters[w].(caller := Waiting)])
    ensures var p := s.waiters[w].peer;
            var peers := s.peers[p := s.peers[p].(pending := s.peers[p].pending - {s.waiters[w].id})];
            && (s.waiters[w].caller == Writing ==>
                  Apply(s, FailsToWrite(w)) ==
                  State(s.sessions, peers, s.waiters[w := s.waiters[w].(caller := Returned(SendFailed))]))
            && (s.waiters[w].caller == Waiting ==>
                  Apply(s, TimesOut(w)) ==
                  State(s.sessions, peers, s.waiters[w := s.waiters[w].(caller := Returned(TimedOut))]))
  {
  }

  /** A waiting caller returns what is on its channel, or the not-found error once the channel is closed. */
  lemma ReceiveEffect(s: State, w: nat)
    requires w in s.waiters && s.waiters[w].peer in s.peers
    ensures Enabled(s, Receives(w))
       <==> s.waiters[w].caller == Waiting && (s.waiters[w].sent != [] || s.waiters[w].closes > 0)
    ensures Enabled(s, Receives(w)) ==>
              var outcome := if s.waiters[w].sent == [] then Gone else Answer(s.waiters[w].sent[0]);
              Apply(s, Receives(w)) == s.(waiters := s.waiters[w := s.waiters[w].(caller := Returned(outcome))])
  {
  }

  // ----- Histories -----

  ghost predicate StepTaken(run: seq<State>, steps: seq<Step>, i: nat)
    requires i < |steps| && |run| == |steps| + 1
  {
    Enabled(run[i], steps[i]) && run[i + 1] == Apply(run[i], steps[i])
  }

  /** A run together with the steps that were taken. */
  ghost predicate IsHistory(run: seq<State>, steps: seq<Step>) {
    |run| == |steps| + 1 && run[0] == EMPTY && forall i :: 0 <= i < |steps| ==> StepTaken(run, steps, i)
  }

  lemma HistoryIsRun(run: seq<State>, steps: seq<Step>)
    requires IsHistory(run, steps)
    ensures IsRun(run)
  {
    forall i | 0 <= i < |run| - 1
      ensures Next(run[i], run[i + 1])
    {
      assert StepTaken(run, steps, i);
    }
  }

  /** Connection `p` tells the hub its live state under session `sid`, which the hub takes. */
  predicate Announces(step: Step, p: nat, sid: string) {
    match step
    case Registers(q, payload) => q == p && Names(payload, sid)
    case ReadsState(q, payload) => q == p && Names(payload, sid)
    case _ => false
  }

  function Told(step: Step): Live
    requires exists p, sid :: Announces(step, p, sid)
  {
    step.payload.value
  }

  /** Step `k` is the last before `i` at which `p` announced itself under `sid`. */
  ghost predicate LastTold(steps: seq<Step>, i: nat, p: nat, sid: string, k: int) {
    && 0 <= k < i <= |steps| && Announces(steps[k], p, sid)
    && forall j :: k < j < i ==> !Announces(steps[j], p, sid)
  }

  lemma ToldStep(s: State, step: Step, p: nat)
    requires Enabled(s, step) && p in Apply(s, step).peers
    ensures var after := Apply(s, step).peers[p];
            if Announces(step, p, after.session) then after.live == Kept(Told(step))
            else p in s.peers && s.peers[p].session == after.session && s.peers[p].live == after.live
  {
    match step {
      case Registers(q, payload) => RegisterEffect(s, q, payload);
      case ReadsState(q, payload) => StateEffect(s, q, payload);
      case _ =>
    }
  }

  /** In every history the live state of a connection is the last one it told under its session. */
  lemma {:induction false} LiveIsLatest(run: seq<State>, steps: seq<Step>, i: nat, p: nat)
    requires IsHistory(run, steps) && i < |run| && p in run[i].peers
    ensures exists k :: LastTold(steps, i, p, run[i].peers[p].session, k)
                     && run[i].peers[p].live == Kept(Told(steps[k]))
  {
    assert i > 0;
    var n := i - 1;
    assert StepTaken(run, steps, n);
    var sid := run[i].peers[p].session;
    ToldStep(run[n], steps[n], p);
    if Announces(steps[n], p, sid) {
      assert LastTold(steps, i, p, sid, n);
    } else {
      LiveIsLatest(run, steps, n, p);
      var k :| LastTold(steps, n, p, sid, k) && run[n].peers[p].live == Kept(Told(steps[k]));
      assert LastTold(steps, i, p, sid, k);
    }
  }

  predicate RegistersAs(step: Step, sid: string) {
    step.Registers? && Names(step.payload, sid)
  }

  /** Step `k` is the last registration of `sid` before `i`; it is of `p`, which has not ended since. */
  ghost predicate Serves(steps: seq<Step>, i: nat, sid: string, p: nat, k: int) {
    && 0 <= k < i <= |steps| && RegistersAs(steps[k], sid) && steps[k].peer == p
    && forall j :: k < j < i ==> !RegistersAs(steps[j], sid) && steps[j] != Ends(p)
  }

  lemma ListingStep(s: State, step: Step, sid: string, p: nat)
    requires Inv(s) && Enabled(s, step)
    ensures Listed(Apply(s, step).sessions, sid, p)
       <==> if RegistersAs(step, sid) then step.peer == p else Listed(s.sessions, sid, p) && step != Ends(p)
  {
    match step {
      case Ends(q) => EndSparesReplacement(s, q);
      case _ =>
    }
  }

  lemma ServesNext(steps: seq<Step>, n: nat, i: nat, sid: string, p: nat)
    requires n < |steps| && i == n + 1
    ensures (exists k :: Serves(steps, i, sid, p, k))
       <==> if RegistersAs(steps[n], sid) then steps[n].peer == p
            else (exists k :: Serves(steps, n, sid, p, k)) && steps[n] != Ends(p)
  {
    if RegistersAs(steps[n], sid) && steps[n].peer == p {
      assert Serves(steps, i, sid, p, n);
    }
    if k :| Serves(steps, n, sid, p, k) && !RegistersAs(steps[n], sid) && steps[n] != Ends(p) {
      assert Serves(steps, i, sid, p, k);
    }
    if k :| Serves(steps, i, sid, p, k) {
      assert k < n ==> Serves(steps, n, sid, p, k);
    }
  }

  /** A session is listed exactly while the connection that registered it last is served. */
  lemma {:induction false} ListingIsLatest(run: seq<State>, steps: seq<Step>, i: nat, sid: string, p: nat)
    requires IsHistory(run, steps) && i < |run|
    ensures sid in run[i].sessions && run[i].sessions[sid] == p <==> exists k :: Serves(steps, i, sid, p, k)
  {
    if i == 0 {
    } else {
      var n := i - 1;
      assert StepTaken(run, steps, n);
      HistoryIsRun(run, steps);
      RunInv(run, n);
      ListingStep(run[n], steps[n], sid, p);
      ListingIsLatest(run, steps, n, sid, p);
      ServesNext(steps, n, i, sid, p);
    }
  }

  /** What is shown of a listed session: the last state told by the connection that registered it last. */
  lemma ShownIsLatest(run: seq<State>, steps: seq<Step>, i: nat, sid: string)
    requires IsHistory(run, steps) && i < |run| && sid in run[i].sessions
    ensures var p := run[i].sessions[sid];
            && p in run[i].peers && (exists k :: Serves(steps, i, sid, p, k))
            && exists k :: LastTold(steps, i, p, sid, k) && run[i].peers[p].live == Kept(Told(steps[k]))
  {
    HistoryIsRun(run, steps);
    ListedAreServed(run, i, sid);
    ListingIsLatest(run, steps, i, sid, run[i].sessions[sid]);
    LiveIsLatest(run, steps, i, run[i].sessions[sid]);
  }
}
