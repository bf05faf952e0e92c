/**
  The daemon's registry of connected sessions. `Serve` and `Request` run
  concurrently; they are interleaved here in steps of one critical section,
  channel operation or connection read each.
*/
module Hubs {
  import opened Options
  import opened Ordering

  /** A session's live state; `body` stands for the fields the hub only passes on. */
  datatype Live = Live(session: string, worktree: string, controlPath: string, controlToken: string, body: int)

  datatype Frame = Frame(id: nat, body: int)

  /** Where the `Serve` call of a peer stands. */
  datatype Task =
    | Reading
    | Delivering(waiter: nat, frame: Frame)
    | Closing(waiter: nat)
    | Finished

  /** `pending` maps request ids to waiters; `responses` logs what the connection answered. */
  datatype Peer = Peer(
    session: string, live: Live, connClosed: bool, nextID: nat, pending: map<nat, nat>, task: Task,
    responses: seq<Frame>)

  datatype Outcome = Answer(frame: Frame) | Gone | SendFailed | TimedOut

  datatype Caller = Writing | Waiting | Returned(outcome: Outcome)

  /** A waiter's channel: everything ever sent on it and how often it was closed. */
  datatype Waiter = Waiter(peer: nat, id: nat, sent: seq<Frame>, closes: nat, caller: Caller)

  datatype State = State(sessions: map<string, nat>, peers: map<nat, Peer>, waiters: map<nat, Waiter>)

  const EMPTY := State(map[], map[], map[])

  datatype Step =
    | Registers(peer: nat, payload: Option<Live>)
    | ReadsState(peer: nat, payload: Option<Live>)
    | ReadsResponse(peer: nat, frame: Frame)
    | Delivers(peer: nat)
    | ClosesWaiter(peer: nat)
    | Ends(peer: nat)
    | Requests(waiter: nat, session: string)
    | Writes(waiter: nat)
    | FailsToWrite(waiter: nat)
    | TimesOut(waiter: nat)
    | Receives(waiter: nat)

  // ----- What one step does -----

  /** An unreadable payload or one without a session id is refused; control fields are dropped. */
  function DecodeLive(payload: Option<Live>): Option<Live> {
    if payload.None? || payload.value.session == "" then None
    else Some(payload.value.(controlPath := "", controlToken := ""))
  }

  predicate At(s: State, p: nat, tasks: Task -> bool) {
    p in s.peers && tasks(s.peers[p].task)
  }

  predicate Stands(s: State, w: nat, caller: Caller) {
    w in s.waiters && s.waiters[w].caller == caller && s.waiters[w].peer in s.peers
  }

  predicate Enabled(s: State, step: Step) {
    match step
    case Registers(p, _) => p !in s.peers
    case ReadsState(p, _) => At(s, p, (t: Task) => t.Reading?)
    case ReadsResponse(p, _) => At(s, p, (t: Task) => t.Reading?)
    case Delivers(p) => At(s, p, (t: Task) => t.Delivering? && t.waiter in s.waiters)
    case ClosesWaiter(p) => At(s, p, (t: Task) => t.Closing? && t.waiter in s.waiters)
    case Ends(p) => At(s, p, (t: Task) => t.Reading?)
    case Requests(w, sid) => w !in s.waiters && (sid in s.sessions ==> s.sessions[sid] in s.peers)
    case Writes(w) => Stands(s, w, Writing)
    case FailsToWrite(w) => Stands(s, w, Writing)
    case TimesOut(w) => Stands(s, w, Waiting)
    case Receives(w) => Stands(s, w, Waiting) && (s.waiters[w].sent != [] || s.waiters[w].closes > 0)
  }

  /** The replaced peer keeps running until its closed connection fails a read. */
  function CloseConn(peers: map<nat, Peer>, sessions: map<string, nat>, sid: string): map<nat, Peer> {
    if sid in sessions && sessions[sid] in peers
    then peers[sessions[sid] := peers[sessions[sid]].(connClosed := true)]
    else peers
  }

  function Register(s: State, p: nat, payload: Option<Live>): State {
    match DecodeLive(payload)
    case None => s
    case Some(live) =>
      s.(sessions := s.sessions[live.session := p],
         peers := CloseConn(s.peers, s.sessions, live.session)
                  [p := Peer(live.session, live, false, 0, map[], Reading, [])])
  }

  function Updated(peer: Peer, payload: Option<Live>): Peer {
    var next := DecodeLive(payload);
    if next.None? || next.value.session != peer.session then peer else peer.(live := next.value)
  }

  function Took(peer: Peer, frame: Frame): Peer {
    peer.(responses := peer.responses + [frame],
          pending := peer.pending - {frame.id},
          task := if frame.id in peer.pending then Delivering(peer.pending[frame.id], frame) else Reading)
  }

  function Unlisted(sessions: map<string, nat>, sid: string, p: nat): map<string, nat> {
    if sid in sessions && sessions[sid] == p then sessions - {sid} else sessions
  }

  function Closed(waiter: Waiter): Waiter {
    waiter.(closes := waiter.closes + 1)
  }

  function CloseAll(waiters: map<nat, Waiter>, pending: map<nat, nat>): map<nat, Waiter> {
    map w | w in waiters :: if w in pending.Values then Closed(waiters[w]) else waiters[w]
  }

  function Ended(peer: Peer): Peer {
    peer.(pending := map[], task := Finished)
  }

  function End(s: State, p: nat): State
    requires p in s.peers
  {
    State(Unlisted(s.sessions, s.peers[p].session, p), s.peers[p := Ended(s.peers[p])],
          CloseAll(s.waiters, s.peers[p].pending))
  }

  function Asked(peer: Peer, w: nat): Peer {
    peer.(nextID := peer.nextID + 1, pending := peer.pending[peer.nextID + 1 := w])
  }

  function Request(s: State, w: nat, sid: string): State
    requires sid in s.sessions ==> s.sessions[sid] in s.peers
  {
    if sid !in s.sessions then s else
    var p := s.sessions[sid];
    s.(peers := s.peers[p := Asked(s.peers[p], w)],
       waiters := s.waiters[w := Waiter(p, s.peers[p].nextID + 1, [], 0, Writing)])
  }

  function Forgets(peer: Peer, id: nat): Peer {
    peer.(pending := peer.pending - {id})
  }

  function Cancel(s: State, w: nat, outcome: Outcome): State
    requires w in s.waiters && s.waiters[w].peer in s.peers
  {
    var p := s.waiters[w].peer;
    s.(peers := s.peers[p := Forgets(s.peers[p], s.waiters[w].id)],
       waiters := s.waiters[w := s.waiters[w].(caller := Returned(outcome))])
  }

  function Apply(s: State, step: Step): State
    requires Enabled(s, step)
  {
    match step
    case Registers(p, payload) => Register(s, p, payload)
    case ReadsState(p, payload) => s.(peers := s.peers[p := Updated(s.peers[p], payload)])
    case ReadsResponse(p, frame) => s.(peers := s.peers[p := Took(s.peers[p], frame)])
    case Delivers(p) =>
      (var t := s.peers[p].task;
       s.(peers := s.peers[p := s.peers[p].(task := Closing(t.waiter))],
          waiters := s.waiters[t.waiter := s.waiters[t.waiter].(sent := s.waiters[t.waiter].sent + [t.frame])]))
    case ClosesWaiter(p) =>
      (var w := s.peers[p].task.waiter;
       s.(peers := s.peers[p := s.peers[p].(task := Reading)], waiters := s.waiters[w := Closed(s.waiters[w])]))
    case Ends(p) => End(s, p)
    case Requests(w, sid) => Request(s, w, sid)
    case Writes(w) => s.(waiters := s.waiters[w := s.waiters[w].(caller := Waiting)])
    case FailsToWrite(w) => Cancel(s, w, SendFailed)
    case TimesOut(w) => Cancel(s, w, TimedOut)
    case Receives(w) =>
      (var waiter := s.waiters[w];
       var outcome := if waiter.sent != [] then Answer(waiter.sent[0]) else Gone;
       s.(waiters := s.waiters[w := waiter.(caller := Returned(outcome))]))
  }

  // ----- The invariant -----

  /** Waiter `w` stands for request `id` of peer `p`; nothing was sent on its channel and it is open. */
  predicate Fresh(waiters: map<nat, Waiter>, w: nat, p: nat, id: nat) {
    w in waiters && waiters[w].peer == p && waiters[w].id == id && waiters[w].sent == [] && waiters[w].closes == 0
  }

  ghost predicate PendingFresh(waiters: map<nat, Waiter>, p: nat, peer: Peer) {
    forall id :: id in peer.pending ==> id <= peer.nextID && Fresh(waiters, peer.pending[id], p, id)
  }

  predicate TaskOk(waiters: map<nat, Waiter>, p: nat, peer: Peer) {
    match peer.task
    case Reading => true
    case Delivering(w, frame) =>
      Fresh(waiters, w, p, frame.id) && frame.id !in peer.pending && frame.id <= peer.nextID && frame in peer.responses
    case Closing(w) =>
      && w in waiters && waiters[w].peer == p && waiters[w].id !in peer.pending && waiters[w].id <= peer.nextID
      && |waiters[w].sent| == 1 && waiters[w].closes == 0
    case Finished => peer.pending == map[]
  }

  predicate Listed(sessions: map<string, nat>, sid: string, p: nat) {
    sid in sessions && sessions[sid] == p
  }

  predicate LiveOk(peer: Peer) {
    peer.live.session == peer.session && peer.session != "" && peer.live.controlPath == ""
        && peer.live.controlToken == ""
  }

  ghost predicate PeerInv(sessions: map<string, nat>, waiters: map<nat, Waiter>, p: nat, peer: Peer) {
    && LiveOk(peer)
    && (peer.task.Finished? || Listed(sessions, peer.session, p) || peer.connClosed)
    && PendingFresh(waiters, p, peer)
    && TaskOk(waiters, p, peer)
  }

  /** Somebody will still close the channel of waiter `w`. */
  predicate Attended(peer: Peer, w: nat, waiter: Waiter) {
    || (waiter.id in peer.pending && peer.pending[waiter.id] == w)
    || (peer.task.Delivering? && peer.task.waiter == w)
    || (peer.task.Closing? && peer.task.waiter == w)
  }

  /** What a caller holds after it returned. */
  predicate OutcomeOk(waiter: Waiter) {
    waiter.caller.Returned? && waiter.caller.outcome.Answer? ==> waiter.sent == [waiter.caller.outcome.frame]
  }

  predicate WaiterInv(peers: map<nat, Peer>, w: nat, waiter: Waiter) {
    && waiter.peer in peers
    && waiter.id <= peers[waiter.peer].nextID
    && |waiter.sent| <= 1 && waiter.closes <= 1
    && (waiter.sent != [] ==> waiter.sent[0].id == waiter.id && waiter.sent[0] in peers[waiter.peer].responses)
    && OutcomeOk(waiter)
    && (!waiter.caller.Returned? && waiter.closes == 0 ==> Attended(peers[waiter.peer], w, waiter))
  }

  predicate SessionInv(peers: map<nat, Peer>, sid: string, p: nat) {
    p in peers && peers[p].session == sid && !peers[p].task.Finished?
  }

  ghost predicate SessionsInv(s: State) {
    forall sid :: sid in s.sessions ==> SessionInv(s.peers, sid, s.sessions[sid])
  }

  ghost predicate PeersInv(s: State) {
    forall p :: p in s.peers ==> PeerInv(s.sessions, s.waiters, p, s.peers[p])
  }

  ghost predicate WaitersInv(s: State) {
    forall w :: w in s.waiters ==> WaiterInv(s.peers, w, s.waiters[w])
  }

  ghost predicate Inv(s: State) {
    SessionsInv(s) && PeersInv(s) && WaitersInv(s) && DistinctIds(s.waiters)
  }

  /** A request id of a connection belongs to one waiter. */
  ghost predicate DistinctIds(waiters: map<nat, Waiter>) {
    forall v, w :: v in waiters && w in waiters
                   && waiters[v].peer == waiters[w].peer && waiters[v].id == waiters[w].id ==>
      v == w
  }

  /** What a peer's invariant reads of a waiter. */
  predicate SameChannel(v: Waiter, w: Waiter) {
    v.peer == w.peer && v.id == w.id && v.sent == w.sent && v.closes == w.closes
  }

  ghost predicate ChannelsKept(waiters: map<nat, Waiter>, after: map<nat, Waiter>, p: nat) {
    forall w :: w in waiters && waiters[w].peer == p ==> w in after && SameChannel(waiters[w], after[w])
  }

  lemma PeerUntouched(sessions: map<string, nat>, waiters: map<nat, Waiter>, sessions': map<string, nat>,
                      waiters': map<nat, Waiter>, p: nat, peer: Peer)
    requires PeerInv(sessions, waiters, p, peer) && ChannelsKept(waiters, waiters', p)
    requires Listed(sessions, peer.session, p) ==> Listed(sessions', peer.session, p) || peer.connClosed
    ensures PeerInv(sessions', waiters', p, peer)
  {
    forall id | id in peer.pending ensures Fresh(waiters', peer.pending[id], p, id) {
      assert Fresh(waiters, peer.pending[id], p, id);
    }
  }

  lemma RegisterPeers(s: State, p: nat, payload: Option<Live>, q: nat)
    requires p !in s.peers
    requires q in Register(s, p, payload).peers && (q in s.peers ==> PeerInv(s.sessions, s.waiters, q, s.peers[q]))
    ensures var t := Register(s, p, payload); q in t.peers && PeerInv(t.sessions, t.waiters, q, t.peers[q])
  {
  }

  lemma RegisterWaiters(s: State, p: nat, payload: Option<Live>, v: nat)
    requires p !in s.peers
    requires v in s.waiters && WaiterInv(s.peers, v, s.waiters[v])
    ensures var t := Register(s, p, payload); v in t.waiters && WaiterInv(t.peers, v, t.waiters[v])
  {
  }

  lemma ReadsStatePeers(s: State, p: nat, payload: Option<Live>, q: nat)
    requires Enabled(s, ReadsState(p, payload))
    requires q in s.peers && PeerInv(s.sessions, s.waiters, q, s.peers[q])
    ensures var t := Apply(s, ReadsState(p, payload)); q in t.peers && PeerInv(t.sessions, t.waiters, q, t.peers[q])
  {
    var t := Apply(s, ReadsState(p, payload));
    if q != p {
      PeerUntouched(s.sessions, s.waiters, t.sessions, t.waiters, q, s.peers[q]);
    }
  }

  lemma ReadsStateWaiters(s: State, p: nat, payload: Option<Live>, v: nat)
    requires Enabled(s, ReadsState(p, payload))
    requires v in s.waiters && WaiterInv(s.peers, v, s.waiters[v])
    ensures var t := Apply(s, ReadsState(p, payload)); v in t.waiters && WaiterInv(t.peers, v, t.waiters[v])
  {
  }

  lemma ReadsResponsePeers(s: State, p: nat, frame: Frame, q: nat)
    requires Enabled(s, ReadsResponse(p, frame))
    requires q in s.peers && PeerInv(s.sessions, s.waiters, q, s.peers[q])
    requires p in s.peers && PeerInv(s.sessions, s.waiters, p, s.peers[p])
    ensures var t := Apply(s, ReadsResponse(p, frame)); q in t.peers && PeerInv(t.sessions, t.waiters, q, t.peers[q])
  {
    var t := Apply(s, ReadsResponse(p, frame));
    if q != p {
      PeerUntouched(s.sessions, s.waiters, t.sessions, t.waiters, q, s.peers[q]);
    }
  }

  lemma ReadsResponseWaiters(s: State, p: nat, frame: Frame, v: nat)
    requires Enabled(s, ReadsResponse(p, frame))
    requires v in s.waiters && WaiterInv(s.peers, v, s.waiters[v])
    ensures var t := Apply(s, ReadsResponse(p, frame)); v in t.waiters && WaiterInv(t.peers, v, t.waiters[v])
  {
  }

  lemma DeliversPeers(s: State, p: nat, q: nat)
    requires Enabled(s, Delivers(p))
    requires q in s.peers && PeerInv(s.sessions, s.waiters, q, s.peers[q])
    requires p in s.peers && PeerInv(s.sessions, s.waiters, p, s.peers[p])
    ensures var t := Apply(s, Delivers(p)); q in t.peers && PeerInv(t.sessions, t.waiters, q, t.peers[q])
  {
    var t := Apply(s, Delivers(p));
    if q != p {
      PeerUntouched(s.sessions, s.waiters, t.sessions, t.waiters, q, s.peers[q]);
    }
  }

  lemma DeliversWaiters(s: State, p: nat, v: nat)
    requires Enabled(s, Delivers(p))
    requires v in s.waiters && WaiterInv(s.peers, v, s.waiters[v])
    requires p in s.peers && PeerInv(s.sessions, s.waiters, p, s.peers[p])
    ensures var t := Apply(s, Delivers(p)); v in t.waiters && WaiterInv(t.peers, v, t.waiters[v])
  {
  }

  lemma ClosesWaiterPeers(s: State, p: nat, q: nat)
    requires Enabled(s, ClosesWaiter(p))
    requires q in s.peers && PeerInv(s.sessions, s.waiters, q, s.peers[q])
    requires p in s.peers && PeerInv(s.sessions, s.waiters, p, s.peers[p])
    ensures var t := Apply(s, ClosesWaiter(p)); q in t.peers && PeerInv(t.sessions, t.waiters, q, t.peers[q])
  {
    var t := Apply(s, ClosesWaiter(p));
    if q != p {
      PeerUntouched(s.sessions, s.waiters, t.sessions, t.waiters, q, s.peers[q]);
    }
  }

  lemma ClosesWaiterWaiters(s: State, p: nat, v: nat)
    requires Enabled(s, ClosesWaiter(p))
    requires v in s.waiters && WaiterInv(s.peers, v, s.waiters[v])
    requires p in s.peers && PeerInv(s.sessions, s.waiters, p, s.peers[p])
    ensures var t := Apply(s, ClosesWaiter(p)); v in t.waiters && WaiterInv(t.peers, v, t.waiters[v])
  {
  }

  lemma EndPeers(s: State, p: nat, q: nat)
    requires Enabled(s, Ends(p))
    requires q in s.peers && PeerInv(s.sessions, s.waiters, q, s.peers[q])
    requires p in s.peers && PeerInv(s.sessions, s.waiters, p, s.peers[p])
    ensures var t := End(s, p); q in t.peers && PeerInv(t.sessions, t.waiters, q, t.peers[q])
  {
    var t := End(s, p);
    if q != p {
      PeerUntouched(s.sessions, s.waiters, t.sessions, t.waiters, q, s.peers[q]);
    }
  }

  lemma EndWaiters(s: State, p: nat, v: nat)
    requires Enabled(s, Ends(p))
    requires v in s.waiters && WaiterInv(s.peers, v, s.waiters[v])
    requires p in s.peers && PeerInv(s.sessions, s.waiters, p, s.peers[p])
    ensures var t := End(s, p); v in t.waiters && WaiterInv(t.peers, v, t.waiters[v])
  {
  }

  lemma RequestPeers(s: State, w: nat, sid: string, q: nat)
    requires Enabled(s, Requests(w, sid))
    requires q in s.peers && PeerInv(s.sessions, s.waiters, q, s.peers[q])
    requires sid in s.sessions ==> SessionInv(s.peers, sid, s.sessions[sid])
    ensures var t := Request(s, w, sid); q in t.peers && PeerInv(t.sessions, t.waiters, q, t.peers[q])
  {
    var t := Request(s, w, sid);
    if sid !in s.sessions || q != s.sessions[sid] {
      PeerUntouched(s.sessions, s.waiters, t.sessions, t.waiters, q, s.peers[q]);
    }
  }

  lemma RequestWaiters(s: State, w: nat, sid: string, v: nat)
    requires Enabled(s, Requests(w, sid))
    requires v in Request(s, w, sid).waiters && (v in s.waiters ==> WaiterInv(s.peers, v, s.waiters[v]))
    ensures var t := Request(s, w, sid); v in t.waiters && WaiterInv(t.peers, v, t.waiters[v])
  {
  }

  lemma CancelPeers(s: State, w: nat, outcome: Outcome, q: nat)
    requires w in s.waiters && s.waiters[w].peer in s.peers && !outcome.Answer?
    requires q in s.peers && PeerInv(s.sessions, s.waiters, q, s.peers[q])
    ensures var t := Cancel(s, w, outcome); q in t.peers && PeerInv(t.sessions, t.waiters, q, t.peers[q])
  {
    var t := Cancel(s, w, outcome);
    if q != s.waiters[w].peer {
      PeerUntouched(s.sessions, s.waiters, t.sessions, t.waiters, q, s.peers[q]);
    }
  }

  lemma CancelWaiters(s: State, w: nat, outcome: Outcome, v: nat)
    requires w in s.waiters && s.waiters[w].peer in s.peers && !outcome.Answer?
    requires v in s.waiters && WaiterInv(s.peers, v, s.waiters[v])
    requires DistinctIds(s.waiters)
    ensures var t := Cancel(s, w, outcome); v in t.waiters && WaiterInv(t.peers, v, t.waiters[v])
  {
  }

  lemma CallerPeers(s: State, step: Step, q: nat)
    requires Enabled(s, step) && (step.Writes? || step.Receives?)
    requires q in s.peers && PeerInv(s.sessions, s.waiters, q, s.peers[q])
    ensures var t := Apply(s, step); q in t.peers && PeerInv(t.sessions, t.waiters, q, t.peers[q])
  {
    var t := Apply(s, step);
    PeerUntouched(s.sessions, s.waiters, t.sessions, t.waiters, q, s.peers[q]);
  }

  lemma CallerWaiters(s: State, step: Step, v: nat)
    requires Enabled(s, step) && (step.Writes? || step.Receives?)
    requires v in s.waiters && WaiterInv(s.peers, v, s.waiters[v])
    ensures var t := Apply(s, step); v in t.waiters && WaiterInv(t.peers, v, t.waiters[v])
  {
  }

  lemma PeerKeeps(s: State, step: Step, q: nat)
    requires PeersInv(s) && SessionsInv(s) && Enabled(s, step) && q in Apply(s, step).peers
    ensures var t := Apply(s, step); PeerInv(t.sessions, t.waiters, q, t.peers[q])
  {
    match step
    case Registers(p, payload) => RegisterPeers(s, p, payload, q);
    case ReadsState(p, payload) => ReadsStatePeers(s, p, payload, q);
    case ReadsResponse(p, frame) => ReadsResponsePeers(s, p, frame, q);
    case Delivers(p) => DeliversPeers(s, p, q);
    case ClosesWaiter(p) => ClosesWaiterPeers(s, p, q);
    case Ends(p) => EndPeers(s, p, q);
    case Requests(w, sid) => RequestPeers(s, w, sid, q);
    case FailsToWrite(w) => CancelPeers(s, w, SendFailed, q);
    case TimesOut(w) => CancelPeers(s, w, TimedOut, q);
    case Writes(_) => CallerPeers(s, step, q);
    case Receives(_) => CallerPeers(s, step, q);
  }

  predicate ActsOnChannels(step: Step) {
    step.Delivers? || step.ClosesWaiter? || step.Ends?
  }

  lemma ChannelWaiterKeeps(s: State, step: Step, v: nat)
    requires PeersInv(s) && WaitersInv(s) && ActsOnChannels(step) && Enabled(s, step) && v in Apply(s, step).waiters
    ensures var t := Apply(s, step); WaiterInv(t.peers, v, t.waiters[v])
  {
    match step
    case Delivers(p) => DeliversWaiters(s, p, v);
    case ClosesWaiter(p) => ClosesWaiterWaiters(s, p, v);
    case Ends(p) => EndWaiters(s, p, v);
  }

  lemma OtherWaiterKeeps(s: State, step: Step, v: nat)
    requires WaitersInv(s) && DistinctIds(s.waiters) && !ActsOnChannels(step) && Enabled(s, step)
    requires v in Apply(s, step).waiters
    ensures var t := Apply(s, step); WaiterInv(t.peers, v, t.waiters[v])
  {
    match step
    case Registers(p, payload) => RegisterWaiters(s, p, payload, v);
    case ReadsState(p, payload) => ReadsStateWaiters(s, p, payload, v);
    case ReadsResponse(p, frame) => ReadsResponseWaiters(s, p, frame, v);
    case Requests(w, sid) => RequestWaiters(s, w, sid, v);
    case FailsToWrite(w) => CancelWaiters(s, w, SendFailed, v);
    case TimesOut(w) => CancelWaiters(s, w, TimedOut, v);
    case Writes(_) => CallerWaiters(s, step, v);
    case Receives(_) => CallerWaiters(s, step, v);
  }

  lemma SessionsKeep(s: State, step: Step)
    requires SessionsInv(s) && Enabled(s, step)
    ensures SessionsInv(Apply(s, step))
  {
  }

  /** New ids are larger than all ids given out on the same connection. */
  lemma IdsKeep(s: State, step: Step)
    requires WaitersInv(s) && DistinctIds(s.waiters) && Enabled(s, step)
    ensures DistinctIds(Apply(s, step).waiters)
  {
  }

  lemma PeersKeep(s: State, step: Step)
    requires PeersInv(s) && SessionsInv(s) && Enabled(s, step)
    ensures PeersInv(Apply(s, step))
  {
    var t := Apply(s, step);
    forall q | q in t.peers ensures PeerInv(t.sessions, t.waiters, q, t.peers[q]) {
      PeerKeeps(s, step, q);
    }
  }

  lemma WaitersKeep(s: State, step: Step)
    requires Inv(s) && Enabled(s, step)
    ensures WaitersInv(Apply(s, step))
  {
    var t := Apply(s, step);
    forall v | v in t.waiters ensures WaiterInv(t.peers, v, t.waiters[v]) {
      if ActsOnChannels(step) {
        ChannelWaiterKeeps(s, step, v);
      } else {
        OtherWaiterKeeps(s, step, v);
      }
    }
  }

  lemma StepKeeps(s: State, step: Step)
    requires Inv(s) && Enabled(s, step)
    ensures Inv(Apply(s, step))
  {
    SessionsKeep(s, step);
    PeersKeep(s, step);
    WaitersKeep(s, step);
    IdsKeep(s, step);
  }

  // ----- Every interleaving -----

  ghost predicate Next(s: State, t: State) {
    exists step :: Enabled(s, step) && t == Apply(s, step)
  }

  ghost predicate IsRun(run: seq<State>) {
    |run| > 0 && run[0] == EMPTY && forall i :: 0 <= i < |run| - 1 ==> Next(run[i], run[i + 1])
  }

  lemma {:induction false} RunInv(run: seq<State>, i: nat)
    requires IsRun(run) && i < |run|
    ensures Inv(run[i])
  {
    if i == 0 {
    } else {
      var k := i - 1;
      RunInv(run, k);
      assert Next(run[k], run[k + 1]);
      var step :| Enabled(run[k], step) && run[k + 1] == Apply(run[k], step);
      StepKeeps(run[k], step);
    }
  }

  /** A waiter gets at most one frame: the one its own connection answered under its own id. */
  predicate AtMostOneAnswer(s: State, w: nat)
    requires w in s.waiters
  {
    var waiter := s.waiters[w];
    && |waiter.sent| <= 1 && waiter.closes <= 1 && waiter.peer in s.peers
    && (waiter.sent != [] ==> waiter.sent[0].id == waiter.id && waiter.sent[0] in s.peers[waiter.peer].responses)
    && (waiter.caller.Returned? && waiter.caller.outcome.Answer? ==> waiter.sent == [waiter.caller.outcome.frame])
  }

  /** In every interleaving a waiter gets at most one frame and is closed at most once. */
  lemma OneFrameOneClose(run: seq<State>, i: nat, w: nat)
    requires IsRun(run) && i < |run| && w in run[i].waiters
    ensures AtMostOneAnswer(run[i], w)
  {
    RunInv(run, i);
  }

  /** No two requests on one connection share an id, so no frame answers two of them. */
  lemma AnswersAreNotShared(run: seq<State>, i: nat, v: nat, w: nat)
    requires IsRun(run) && i < |run| && v in run[i].waiters && w in run[i].waiters && v != w
    requires run[i].waiters[v].peer == run[i].waiters[w].peer
    ensures run[i].waiters[v].id != run[i].waiters[w].id
  {
    RunInv(run, i);
  }

  /**
    Once `Serve` of a connection ended nothing is pending on it, and every
    caller that has not returned finds its channel closed.
  */
  lemma NobodyIsLeftWaiting(run: seq<State>, i: nat, w: nat)
    requires IsRun(run) && i < |run| && w in run[i].waiters
    ensures var s := run[i];
            var waiter := s.waiters[w];
            && waiter.peer in s.peers
            && (s.peers[waiter.peer].task.Finished? ==>
                  && s.peers[waiter.peer].pending == map[]
                  && (!waiter.caller.Returned? ==> waiter.closes == 1)
                  && (waiter.caller.Waiting? ==> Enabled(s, Receives(w))))
  {
    RunInv(run, i);
    var s := run[i];
    var p := s.waiters[w].peer;
    assert WaiterInv(s.peers, w, s.waiters[w]);
    assert PeerInv(s.sessions, s.waiters, p, s.peers[p]);
  }

  /** A connection that ended takes no further request and is never listed again. */
  lemma EndedStaysEnded(s: State, step: Step, p: nat)
    requires Inv(s) && Enabled(s, step) && p in s.peers && s.peers[p].task.Finished?
    ensures p in Apply(s, step).peers && Apply(s, step).peers[p].task.Finished?
    ensures forall sid :: sid in Apply(s, step).sessions ==> Apply(s, step).sessions[sid] != p
    ensures forall w :: w in Apply(s, step).waiters && w !in s.waiters ==> Apply(s, step).waiters[w].peer != p
  {
    assert PeerInv(s.sessions, s.waiters, p, s.peers[p]);
    FinishedUnlisted(s, step, p);
  }

  lemma FinishedUnlisted(s: State, step: Step, p: nat)
    requires SessionsInv(s) && Enabled(s, step) && p in s.peers && s.peers[p].task.Finished?
    ensures forall sid :: sid in Apply(s, step).sessions ==> Apply(s, step).sessions[sid] != p
  {
    SessionsKeep(s, step);
  }

  /** What `List` may show: running connections, each under its own session, without control secrets. */
  lemma ListedAreServed(run: seq<State>, i: nat, sid: string)
    requires IsRun(run) && i < |run| && sid in run[i].sessions
    ensures run[i].sessions[sid] in run[i].peers
    ensures var peer := run[i].peers[run[i].sessions[sid]];
            && !peer.task.Finished? && peer.session == sid && peer.live.session == sid
            && peer.live.controlPath == "" && peer.live.controlToken == ""
  {
    RunInv(run, i);
    var s := run[i];
    assert SessionInv(s.peers, sid, s.sessions[sid]);
    assert PeerInv(s.sessions, s.waiters, s.sessions[sid], s.peers[s.sessions[sid]]);
  }

  /** A connection still served but no longer listed was replaced, and its connection is closed. */
  lemma ReplacedAreClosed(run: seq<State>, i: nat, p: nat)
    requires IsRun(run) && i < |run| && p in run[i].peers && !run[i].peers[p].task.Finished?
    ensures Listed(run[i].sessions, run[i].peers[p].session, p) || run[i].peers[p].connClosed
  {
    RunInv(run, i);
    assert PeerInv(run[i].sessions, run[i].waiters, p, run[i].peers[p]);
  }

  /** The end of a connection takes exactly itself off the list, never its replacement. */
  lemma EndSparesReplacement(s: State, p: nat)
    requires Inv(s) && Enabled(s, Ends(p))
    ensures forall sid :: sid in End(s, p).sessions <==> sid in s.sessions && s.sessions[sid] != p
    ensures forall sid :: sid in End(s, p).sessions ==> End(s, p).sessions[sid] == s.sessions[sid]
  {
    forall sid | sid in s.sessions && s.sessions[sid] == p ensures sid == s.peers[p].session {
      assert SessionInv(s.peers, sid, s.sessions[sid]);
    }
  }

  /**
    `Serve` never sends on a closed channel, never blocks on the one-frame
    buffer and never closes a channel twice, at delivery or at its end.
  */
  lemma ChannelsAreReady(run: seq<State>, i: nat, p: nat)
    requires IsRun(run) && i < |run| && p in run[i].peers
    ensures var s := run[i];
            match s.peers[p].task
            case Delivering(w, _) => Enabled(s, Delivers(p)) && s.waiters[w].sent == [] && s.waiters[w].closes == 0
            case Closing(w) => Enabled(s, ClosesWaiter(p)) && s.waiters[w].closes == 0
            case Reading => AllOpen(s.waiters, s.peers[p].pending) && Injective(s.peers[p].pending)
            case Finished => s.peers[p].pending == map[]
  {
    RunInv(run, i);
    PendingIsReady(run[i], p);
  }

  ghost predicate AllOpen(waiters: map<nat, Waiter>, pending: map<nat, nat>) {
    forall id :: id in pending ==> pending[id] in waiters && waiters[pending[id]].closes == 0
  }

  ghost predicate Injective(pending: map<nat, nat>) {
    forall i, j :: i in pending && j in pending && pending[i] == pending[j] ==> i == j
  }

  lemma PendingIsReady(s: State, p: nat)
    requires Inv(s) && p in s.peers
    ensures TaskOk(s.waiters, p, s.peers[p])
    ensures AllOpen(s.waiters, s.peers[p].pending) && Injective(s.peers[p].pending)
  {
    assert PeerInv(s.sessions, s.waiters, p, s.peers[p]);
    var pending := s.peers[p].pending;
    forall id | id in pending ensures Fresh(s.waiters, pending[id], p, id) {
    }
  }

  /** A response reaches exactly the waiter of its id; one nobody waits for reaches nobody. */
  lemma ResponseReachesItsWaiter(s: State, p: nat, frame: Frame)
    requires Inv(s) && Enabled(s, ReadsResponse(p, frame))
    ensures var t := Apply(s, ReadsResponse(p, frame));
            if frame.id !in s.peers[p].pending then t.peers[p].task == Reading && t.waiters == s.waiters
            else
              var w := s.peers[p].pending[frame.id];
              && w in s.waiters && Enabled(t, Delivers(p))
              && Apply(t, Delivers(p)).waiters == s.waiters[w := s.waiters[w].(sent := [frame])]
  {
    assert PeerInv(s.sessions, s.waiters, p, s.peers[p]);
    if frame.id in s.peers[p].pending {
      var w := s.peers[p].pending[frame.id];
      assert Fresh(s.waiters, w, p, frame.id);
      assert s.waiters[w].sent + [frame] == [frame];
    }
  }

  /** Channels only move forward, so what is said of one state holds of the whole run. */
  lemma ChannelsOnlyGrow(s: State, step: Step, w: nat)
    requires Enabled(s, step) && w in s.waiters
    ensures var t := Apply(s, step);
            && w in t.waiters && t.waiters[w].peer == s.waiters[w].peer && t.waiters[w].id == s.waiters[w].id
            && s.waiters[w].sent <= t.waiters[w].sent && s.waiters[w].closes <= t.waiters[w].closes
            && (s.waiters[w].caller.Returned? ==> t.waiters[w].caller == s.waiters[w].caller)
  {
  }

  // ----- The sorted list -----

  predicate LiveBefore(a: Live, b: Live) {
    Before(a.worktree, b.worktree) || (a.worktree == b.worktree && Before(a.session, b.session))
  }

  ghost predicate StrictlySorted(s: seq<Live>) {
    forall i, j :: 0 <= i < j < |s| ==> LiveBefore(s[i], s[j])
  }

  /** Inserts `x` before the first element that does not come before it. */
  function InsertLive(x: Live, s: seq<Live>): (r: seq<Live>)
    ensures forall y :: y in r <==> y == x || y in s
  {
    if s == [] then [x]
    else if LiveBefore(s[0], x) then
      assert s == [s[0]] + s[1..];
      [s[0]] + InsertLive(x, s[1..])
    else [x] + s
  }

  lemma LiveBeforeTransitive(a: Live, b: Live, c: Live)
    requires LiveBefore(a, b) && LiveBefore(b, c)
    ensures LiveBefore(a, c)
  {
    BeforeIrreflexive(b.worktree);
    if a.worktree == b.worktree && b.worktree == c.worktree {
      BeforeTransitive(a.session, b.session, c.session);
    } else if a.worktree != b.worktree && b.worktree != c.worktree {
      BeforeTransitive(a.worktree, b.worktree, c.worktree);
    }
  }

  lemma LiveBeforeTotal(a: Live, b: Live)
    requires a.session != b.session
    ensures LiveBefore(a, b) || LiveBefore(b, a)
  {
    BeforeTotal(a.worktree, b.worktree);
    BeforeTotal(a.session, b.session);
  }

  lemma {:induction false} InsertKeepsSorted(x: Live, s: seq<Live>)
    requires StrictlySorted(s) && forall y :: y in s ==> y.session != x.session
    ensures StrictlySorted(InsertLive(x, s)) && |InsertLive(x, s)| == |s| + 1
  {
    if s == [] {
    } else {
      if LiveBefore(s[0], x) {
        assert forall y :: y in s[1..] ==> y in s;
        InsertKeepsSorted(x, s[1..]);
        var rest := InsertLive(x, s[1..]);
        forall j | 0 <= j < |rest| ensures LiveBefore(s[0], rest[j]) {
          assert rest[j] in rest;
        }
      } else {
        LiveBeforeTotal(s[0], x);
        forall j | 0 <= j < |s| ensures LiveBefore(x, s[j]) {
          if j > 0 {
            LiveBeforeTransitive(x, s[0], s[j]);
          }
        }
      }
    }
  }

  /** Strictly sorted lists with the same entries are equal, so `List` does not depend on map order. */
  lemma {:induction false} SortedIsUnique(a: seq<Live>, b: seq<Live>)
    requires StrictlySorted(a) && StrictlySorted(b) && forall x :: x in a <==> x in b
    ensures a == b
  {
    assert (a != [] ==> a[0] in a) && (b != [] ==> b[0] in b);
    if a == [] || b == [] {
    } else {
      HeadsAgree(a, b);
      forall x ensures x in a[1..] <==> x in b[1..] {
        InTail(a, x);
        InTail(b, x);
      }
      SortedIsUnique(a[1..], b[1..]);
      assert a == [a[0]] + a[1..] && b == [b[0]] + b[1..];
    }
  }

  lemma LiveBeforeIrreflexive(a: Live)
    ensures !LiveBefore(a, a)
  {
    BeforeIrreflexive(a.worktree);
    BeforeIrreflexive(a.session);
  }

  lemma InTail(s: seq<Live>, x: Live)
    requires StrictlySorted(s) && s != []
    ensures x in s[1..] <==> x in s && x != s[0]
  {
    LiveBeforeIrreflexive(s[0]);
  }

  lemma HeadsAgree(a: seq<Live>, b: seq<Live>)
    requires StrictlySorted(a) && StrictlySorted(b) && a != [] && b != [] && forall x :: x in a <==> x in b
    ensures a[0] == b[0]
  {
    if a[0] != b[0] {
      assert a[0] in b && b[0] in a;
      var i :| 0 <= i < |b| && b[i] == a[0];
      var j :| 0 <= j < |a| && a[j] == b[0];
      LiveBeforeTransitive(a[0], b[0], a[0]);
      LiveBeforeIrreflexive(a[0]);
    }
  }

  // ----- The hub -----

  /** The shared maps, updated in place by the critical sections of `Serve`, `Request` and `List`. */
  class Hub {
    var sessions: map<string, nat>
    var peers: map<nat, Peer>
    var waiters: map<nat, Waiter>

    constructor ()
      ensures Now() == EMPTY
    {
      sessions, peers, waiters := map[], map[], map[];
    }

    function Now(): State
      reads this
    {
      State(sessions, peers, waiters)
    }

    /** `Serve` up to its read loop; false when the registration is refused. */
    method RegisterPeer(p: nat, payload: Option<Live>) returns (accepted: bool)
      requires p !in peers
      modifies this
      ensures Now() == Apply(old(Now()), Registers(p, payload)) && accepted == DecodeLive(payload).Some?
    {
      var decoded := DecodeLive(payload);
      if decoded.None? {
        return false;
      }
      var live := decoded.value;
      if live.session in sessions && sessions[live.session] in peers {
        var previous := sessions[live.session];
        peers := peers[previous := peers[previous].(connClosed := true)];
      }
      peers := peers[p := Peer(live.session, live, false, 0, map[], Reading, [])];
      sessions := sessions[live.session := p];
      accepted := true;
    }

    method UpdateState(p: nat, payload: Option<Live>)
      requires Enabled(Now(), ReadsState(p, payload))
      modifies this`peers
      ensures Now() == Apply(old(Now()), ReadsState(p, payload))
    {
      var next := DecodeLive(payload);
      if next.Some? && next.value.session == peers[p].session {
        peers := peers[p := peers[p].(live := next.value)];
      } else {
        assert peers == peers[p := peers[p]];
      }
    }

    method TakeResponse(p: nat, frame: Frame)
      requires Enabled(Now(), ReadsResponse(p, frame))
      modifies this`peers
      ensures Now() == Apply(old(Now()), ReadsResponse(p, frame))
    {
      var peer := peers[p];
      var task := Reading;
      if frame.id in peer.pending {
        task := Delivering(peer.pending[frame.id], frame);
      }
      peers := peers[p := peer.(pending := peer.pending - {frame.id}, task := task,
                                responses := peer.responses + [frame])];
    }

    /** `waiter <- frame`, which `ChannelsAreReady` shows not to block. */
    method SendFrame(p: nat)
      requires Enabled(Now(), Delivers(p))
      modifies this`peers, this`waiters
      ensures Now() == Apply(old(Now()), Delivers(p))
    {
      var task := peers[p].task;
      var waiter := waiters[task.waiter];
      waiters := waiters[task.waiter := waiter.(sent := waiter.sent + [task.frame])];
      peers := peers[p := peers[p].(task := Closing(task.waiter))];
    }

    /** `close(waiter)` after a delivery; the read loop goes on. */
    method CloseDelivered(p: nat)
      requires Enabled(Now(), ClosesWaiter(p))
      modifies this`peers, this`waiters
      ensures Now() == Apply(old(Now()), ClosesWaiter(p))
    {
      var w := peers[p].task.waiter;
      waiters := waiters[w := waiters[w].(closes := waiters[w].closes + 1)];
      peers := peers[p := peers[p].(task := Reading)];
    }

    /** The receive arm of the `select` in `Request`: a frame, or the not-found error of a closed channel. */
    method AwaitAnswer(w: nat) returns (outcome: Outcome)
      requires Enabled(Now(), Receives(w))
      modifies this`waiters
      ensures Now() == Apply(old(Now()), Receives(w)) && waiters[w].caller == Returned(outcome)
    {
      outcome := Gone;
      if waiters[w].sent != [] {
        outcome := Answer(waiters[w].sent[0]);
      }
      waiters := waiters[w := waiters[w].(caller := Returned(outcome))];
    }

    /** Closes the pending channels one by one, in any order. */
    method ClosePending(pending: map<nat, nat>)
      requires AllOpen(waiters, pending) && Injective(pending)
      modifies this`waiters
      ensures waiters == CloseAll(old(waiters), pending)
    {
      var left := pending;
      while left != map[]
        invariant left.Keys <= pending.Keys && forall id :: id in left ==> left[id] == pending[id]
        invariant waiters == CloseAll(old(waiters), pending - left.Keys)
        decreases |left|
      {
        var id :| id in left;
        CloseOneMore(old(waiters), pending, left, id);
        waiters := waiters[left[id] := Closed(waiters[left[id]])];
        left := left - {id};
      }
      assert pending - left.Keys == pending;
    }

    /** The deferred clean-up of `Serve`. */
    method EndPeer(p: nat)
      requires Inv(Now()) && Enabled(Now(), Ends(p))
      modifies this
      ensures Now() == Apply(old(Now()), Ends(p))
    {
      PendingIsReady(Now(), p);
      var sid := peers[p].session;
      if sid in sessions && sessions[sid] == p {
        sessions := sessions - {sid};
      }
      ClosePending(peers[p].pending);
      peers := peers[p := Ended(peers[p])];
    }

    /** The first critical section of `Request`; false stands for the not-found error. */
    method BeginRequest(w: nat, sid: string) returns (found: bool)
      requires Enabled(Now(), Requests(w, sid))
      modifies this
      ensures Now() == Apply(old(Now()), Requests(w, sid)) && found == (sid in old(sessions))
    {
      if sid !in sessions {
        return false;
      }
      var p := sessions[sid];
      var id := peers[p].nextID + 1;
      peers := peers[p := peers[p].(nextID := id, pending := peers[p].pending[id := w])];
      waiters := waiters[w := Waiter(p, id, [], 0, Writing)];
      found := true;
    }

    /** `cancel`, after a failed write or when the context is done. */
    method CancelRequest(w: nat, outcome: Outcome)
      requires w in waiters && waiters[w].peer in peers
      modifies this
      ensures Now() == Cancel(old(Now()), w, outcome)
    {
      var p := waiters[w].peer;
      peers := peers[p := peers[p].(pending := peers[p].pending - {waiters[w].id})];
      waiters := waiters[w := waiters[w].(caller := Returned(outcome))];
    }

    /** The live state of exactly the connected sessions, by worktree and then session id. */
    method List() returns (result: seq<Live>)
      requires Inv(Now())
      ensures |result| == |sessions|
      ensures forall i, j :: 0 <= i < j < |result| ==>
                || Before(result[i].worktree, result[j].worktree)
                || (result[i].worktree == result[j].worktree && Before(result[i].session, result[j].session))
      ensures StrictlySorted(result)
      ensures forall live :: live in result <==>
                exists sid :: sid in sessions && sessions[sid] in peers && live == peers[sessions[sid]].live
    {
      result := [];
      var left := sessions.Keys;
      while left != {}
        invariant left <= sessions.Keys && |result| == |sessions| - |left| && StrictlySorted(result)
        invariant Collected(sessions.Keys - left, sessions, peers, result)
        decreases |left|
      {
        var sid :| sid in left;
        SessionsDiffer(Now(), sid, left, result);
        InsertKeepsSorted(peers[sessions[sid]].live, result);
        CollectOneMore(Now(), sid, left, result);
        result := InsertLive(peers[sessions[sid]].live, result);
        left := left - {sid};
      }
      assert sessions.Keys - left == sessions.Keys;
      assert Collected(sessions.Keys, sessions, peers, result);
      assert SessionsInv(Now());
    }
  }

  lemma CloseOneMore(waiters: map<nat, Waiter>, pending: map<nat, nat>, left: map<nat, nat>, id: nat)
    requires AllOpen(waiters, pending) && Injective(pending) && id in left
    requires left.Keys <= pending.Keys && forall i :: i in left ==> left[i] == pending[i]
    ensures left[id] in waiters
    ensures var closed := CloseAll(waiters, pending - left.Keys);
            CloseAll(waiters, pending - (left - {id}).Keys) == closed[left[id] := Closed(closed[left[id]])]
  {
    var before := pending - left.Keys;
    var after := pending - (left - {id}).Keys;
    assert after == before[id := pending[id]];
    assert after.Values == before.Values + {pending[id]} by {
      forall w ensures w in after.Values <==> w in before.Values + {pending[id]} {
        if w in before.Values {
          var i :| i in before && before[i] == w;
          assert i in after && after[i] == w;
        }
        assert id in after && after[id] == pending[id];
      }
    }
    assert pending[id] !in before.Values;
  }

  /** `result` lists exactly the live states of the sessions in `done`. */
  ghost predicate Collected(done: set<string>, sessions: map<string, nat>, peers: map<nat, Peer>, result: seq<Live>) {
    forall live :: live in result <==>
      exists sid :: sid in done && sid in sessions && sessions[sid] in peers && live == peers[sessions[sid]].live
  }

  lemma SessionsDiffer(s: State, sid: string, left: set<string>, result: seq<Live>)
    requires Inv(s) && sid in left && left <= s.sessions.Keys
    requires Collected(s.sessions.Keys - left, s.sessions, s.peers, result)
    ensures s.sessions[sid] in s.peers
    ensures forall y :: y in result ==> y.session != s.peers[s.sessions[sid]].live.session
  {
    LiveSession(s, sid);
    forall y | y in result ensures y.session != s.peers[s.sessions[sid]].live.session {
      var other :| other in s.sessions.Keys - left && other in s.sessions && s.sessions[other] in s.peers &&
                   y == s.peers[s.sessions[other]].live;
      LiveSession(s, other);
    }
  }

  lemma LiveSession(s: State, sid: string)
    requires Inv(s) && sid in s.sessions
    ensures s.sessions[sid] in s.peers && s.peers[s.sessions[sid]].live.session == sid
  {
    assert SessionInv(s.peers, sid, s.sessions[sid]);
    assert PeerInv(s.sessions, s.waiters, s.sessions[sid], s.peers[s.sessions[sid]]);
  }

  lemma CollectOneMore(s: State, sid: string, left: set<string>, result: seq<Live>)
    requires Inv(s) && sid in left && left <= s.sessions.Keys && s.sessions[sid] in s.peers
    requires Collected(s.sessions.Keys - left, s.sessions, s.peers, result)
    ensures Collected(s.sessions.Keys - (left - {sid}), s.sessions, s.peers,
                      InsertLive(s.peers[s.sessions[sid]].live, result))
  {
    assert s.sessions.Keys - (left - {sid}) == (s.sessions.Keys - left) + {sid};
  }
}
