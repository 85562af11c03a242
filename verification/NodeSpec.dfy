// What one raft node does with a Ready and with requests, as functions on the node's state.
// The consensus core is the environment: it supplies each Ready and the outcome of each
// configuration change.
module NodeSpec {
  import opened Wrappers
  import opened KeyCodec
  import opened RaftTypes
  import opened RaftLog
  import LogProperties
  import opened Membership

  // The application's state machine.
  datatype Fsm<!S> = Fsm(
    apply: (S, Bytes) -> S,
    snapshot: S -> Bytes,
    restore: (S, Bytes) -> S)

  ghost predicate Lawful<S(!new)>(f: Fsm<S>) {
    && (forall s :: f.snapshot(s) != [])
    && (forall s, t :: f.restore(t, f.snapshot(s)) == s)
  }

  // applyConf is the core's `apply_conf_change`; None is its error.
  datatype Setup<!S> = Setup(
    backend: Backend,
    fsm: Fsm<S>,
    applyConf: (ConfState, ConfChangeV2) -> Option<ConfState>,
    id: u64,
    snapshotInterval: Option<nat>)

  // The waiting half of a request: a oneshot channel, of a local or a remote caller.
  datatype Sender = Sender(chan: nat, local: bool)

  datatype Reply =
    | ProposeSuccess
    | ProposeWrongLeader(leader: u64, addr: SocketAddr)
    | JoinSuccess(assignedIds: seq<u64>, peers: map<u64, Peer>)
    | RemoveSuccess
    | ConfWrongLeader(leader: u64, addr: SocketAddr)

  // Answered carries the request number; Redirected requests never got one.
  datatype Delivery =
    | Answered(token: nat, sender: Sender, reply: Reply)
    | Redirected(sender: Sender, reply: Reply)

  // applied, handled and coreConf are the core's: the applied index, the index it handed out
  // last, and the configuration it runs with.  stopped is an error or panic that ended `run`.
  datatype Node<S> = Node(
    fsm: S,
    log: Log,
    applied: nat,
    handled: nat,
    coreConf: ConfState,
    peers: map<u64, Peer>,
    shouldExit: bool,
    responseSeq: nat,
    senders: map<nat, Sender>,
    replies: seq<Delivery>,
    lastSnapshotCreated: nat,
    stopped: bool)

  // Clock readings while an entry is handled: when the interval is checked, and when a
  // snapshot is stamped.
  datatype Clock = Clock(check: nat -> nat, stamp: nat -> nat)

  function MakeSnapshot<S>(cfg: Setup<S>, n: Node<S>, index: u64, term: u64, now: nat): Node<S> {
    n.(
      lastSnapshotCreated := now,
      log := LogProperties.TakeSnapshot(n.log, n.applied, cfg.fsm.snapshot(n.fsm), index, term))
  }

  predicate SnapshotDue<S>(cfg: Setup<S>, n: Node<S>, now: nat) {
    match cfg.snapshotInterval
    case Some(interval) => now > n.lastSnapshotCreated + interval
    case None => false
  }

  function Answer<S>(n: Node<S>, token: nat, reply: Reply): Node<S> {
    if token in n.senders
    then n.(senders := n.senders - {token}, replies := n.replies + [Answered(token, n.senders[token], reply)])
    else n
  }

  function HandleNormal<S>(cfg: Setup<S>, n: Node<S>, e: Entry, clock: Clock): Node<S>
    requires e.body.Normal?
  {
    match e.context
    case Token(token) =>
      var fed := n.(fsm := cfg.fsm.apply(n.fsm, e.body.data), handled := e.index);
      var told := Answer(fed, token, ProposeSuccess);
      if SnapshotDue(cfg, told, clock.check(e.index))
      then MakeSnapshot(cfg, told, e.index, e.term, clock.stamp(e.index))
      else told
    case _ => n.(stopped := true)
  }

  // `to_confchange_v2`
  function ToConfChangeV2(cc: ConfChange): ConfChangeV2 {
    ConfChangeV2(Auto, [ChangeSingle(cc.changeType, cc.nodeId)], cc.context)
  }

  function DecodeConf(body: Body): Option<ConfChangeV2> {
    match body
    case ConfV1(cc) => Some(ToConfChangeV2(cc))
    case ConfV2(cc) => Some(cc)
    case _ => None
  }

  predicate IsAddition(c: ChangeSingle) {
    c.changeType.AddNode? || c.changeType.AddLearnerNode?
  }

  function NodeIds(changes: seq<ChangeSingle>): (ids: seq<u64>)
    ensures |ids| == |changes| && forall k | 0 <= k < |ids| :: ids[k] == changes[k].nodeId
  {
    seq(|changes|, k requires 0 <= k < |changes| => changes[k].nodeId)
  }

  // The reply to a membership change; changes of both kinds together are `unimplemented!()`,
  // which panics only when somebody waits.
  function AnswerConf<S>(n: Node<S>, context: Context, changes: seq<ChangeSingle>): Node<S> {
    match context
    case Token(token) =>
      if token !in n.senders then n
      else if forall c | c in changes :: IsAddition(c) then
        Answer(n, token, JoinSuccess(NodeIds(changes), n.peers))
      else if forall c | c in changes :: c.changeType.RemoveNode? then
        Answer(n, token, RemoveSuccess)
      else n.(senders := n.senders - {token}, stopped := true)
    case _ => n.(stopped := true)
  }

  // The core applies the change; the store and a snapshot follow when it succeeds.
  function AdoptConf<S>(cfg: Setup<S>, n: Node<S>, cc: ConfChangeV2, e: Entry, clock: Clock): Node<S> {
    var seen := n.(handled := e.index);
    match cfg.applyConf(n.coreConf, cc)
    case Some(cs) =>
      MakeSnapshot(cfg, seen.(coreConf := cs, log := SetConfState(n.log, cs)), e.index, e.term, clock.stamp(e.index))
    case None => seen
  }

  function HandleConf<S>(cfg: Setup<S>, n: Node<S>, e: Entry, clock: Clock): Node<S> {
    match DecodeConf(e.body)
    case None => n.(stopped := true)
    case Some(cc) =>
      if e.context.NoContext? then
        match cfg.applyConf(n.coreConf, cc)
        case Some(cs) => n.(coreConf := cs, log := SetConfState(n.log, cs), handled := e.index)
        case None => n.(stopped := true)
      else
        match cc.context
        case NotAddrs => n.(stopped := true)
        case Addrs(addrs) => HandleNamedConf(cfg, n, e, cc, addrs, clock)
  }

  // A change with a request number and addresses: the loop over the peers, the core, the reply.
  function HandleNamedConf<S>(
      cfg: Setup<S>, n: Node<S>, e: Entry, cc: ConfChangeV2, addrs: seq<SocketAddr>, clock: Clock): Node<S> {
    var end := ApplyChanges(cfg.id, Going(n.peers, n.shouldExit), cc.changes, addrs);
    var moved := n.(peers := end.peers, shouldExit := end.shouldExit);
    if end.Panicked? then moved.(stopped := true)
    else AnswerConf(AdoptConf(cfg, moved, cc, e, clock), e.context, cc.changes)
  }

  function HandleEntry<S>(cfg: Setup<S>, n: Node<S>, e: Entry, clock: Clock): Node<S> {
    match e.body
    case Normal(data) => if data == [] then n.(handled := e.index) else HandleNormal(cfg, n, e, clock)
    case _ => HandleConf(cfg, n, e, clock)
  }

  function HandleEntries<S>(cfg: Setup<S>, n: Node<S>, es: seq<Entry>, clock: Clock): Node<S>
    decreases |es|
  {
    if es == [] then n
    else
      var before := HandleEntries(cfg, n, es[..|es| - 1], clock);
      if before.stopped then before else HandleEntry(cfg, before, es[|es| - 1], clock)
  }

  // One Ready with the LightReady that follows it.  The applied index moves when the Ready
  // is advanced and again at the end.
  datatype Ready = Ready(
    snapshot: Snapshot,
    committed: seq<Entry>,
    entries: seq<Entry>,
    hardState: Option<HardState>,
    appliedOnAdvance: u64,
    lightCommit: Option<u64>,
    lightCommitted: seq<Entry>,
    appliedAtEnd: u64,
    clock: Clock)

  function Install<S>(cfg: Setup<S>, n: Node<S>, s: Snapshot): Node<S> {
    if s == NO_SNAPSHOT then n
    else
      n.(
        fsm := if s.data == [] then n.fsm else cfg.fsm.restore(n.fsm, s.data),
        log := ApplySnapshot(n.log, s),
        handled := s.index,
        coreConf := s.confState)
  }

  ghost function Store<S>(cfg: Setup<S>, n: Node<S>, es: seq<Entry>, hs: Option<HardState>): Node<S> {
    if Refuses(cfg.backend, n.log, es) then n.(stopped := true)
    else
      var log := Append(n.log, es);
      n.(log := match hs { case Some(h) => SetHardState(log, h) case None => log })
  }

  // The stages of `on_ready`, in its order: install, handle, store, advance, handle.

  function AfterCommitted<S>(cfg: Setup<S>, n: Node<S>, r: Ready): Node<S> {
    HandleEntries(cfg, Install(cfg, n, r.snapshot), r.committed, r.clock)
  }

  ghost function AfterStore<S>(cfg: Setup<S>, a: Node<S>, r: Ready): Node<S> {
    var stored := Store(cfg, a, r.entries, r.hardState);
    stored.(
      applied := r.appliedOnAdvance,
      log := match r.lightCommit
             case Some(commit) => CommitAlone(cfg.backend, stored.log, commit)
             case None => stored.log)
  }

  function AfterLight<S>(cfg: Setup<S>, b: Node<S>, r: Ready): Node<S> {
    var c := HandleEntries(cfg, b, r.lightCommitted, r.clock);
    if c.stopped then c else c.(applied := r.appliedAtEnd)
  }

  // An error or panic ends the stages.
  ghost function OnReady<S>(cfg: Setup<S>, n: Node<S>, r: Ready): Node<S> {
    var a := AfterCommitted(cfg, n, r);
    if a.stopped then a
    else if Store(cfg, a, r.entries, r.hardState).stopped then Store(cfg, a, r.entries, r.hardState)
    else AfterLight(cfg, AfterStore(cfg, a, r), r)
  }

  // Who leads, as the core knows it (zero is nobody), whether a membership change is pending,
  // and whether the core takes the proposal.
  datatype CoreView = CoreView(leaderId: u64, pendingConf: bool, accepts: bool)

  function Register<S>(n: Node<S>, sender: Sender, accepted: bool): Node<S> {
    n.(
      responseSeq := n.responseSeq + 1,
      senders := n.senders[n.responseSeq := sender],
      stopped := n.stopped || !accepted)
  }

  function HandlePropose<S>(cfg: Setup<S>, n: Node<S>, sender: Sender, view: CoreView): Node<S> {
    if view.leaderId != cfg.id then
      if view.leaderId == 0 then n
      else if view.leaderId !in n.peers then n.(stopped := true)
      else
        n.(replies := n.replies
          + [Redirected(sender, ProposeWrongLeader(view.leaderId, n.peers[view.leaderId].addr))])
    else Register(n, sender, view.accepts)
  }

  function HandleConfChangeRequest<S>(cfg: Setup<S>, n: Node<S>, sender: Sender, view: CoreView): Node<S> {
    if view.pendingConf then n
    else if view.leaderId != cfg.id then
      if view.leaderId == 0 then n
      else if view.leaderId !in n.peers then n.(stopped := true)
      else
        n.(replies := n.replies
          + [Redirected(sender, ConfWrongLeader(view.leaderId, n.peers[view.leaderId].addr))])
    else Register(n, sender, view.accepts)
  }

  // A request that reaches the run loop.  SnapshotAt is `MakeSnapshot` with the caller's index
  // and term, SnapshotNow is `CreateSnapshot`, which takes the store's.
  datatype Message =
    | Propose(data: Bytes, sender: Sender, view: CoreView)
    | ChangeConfig(change: ConfChangeV2, sender: Sender, view: CoreView)
    | SnapshotAt(index: u64, term: u64, now: nat)
    | SnapshotNow(now: nat)

  function HandleMessage<S>(cfg: Setup<S>, n: Node<S>, m: Message): Node<S> {
    match m
    case Propose(_, sender, view) => HandlePropose(cfg, n, sender, view)
    case ChangeConfig(_, sender, view) => HandleConfChangeRequest(cfg, n, sender, view)
    case SnapshotAt(index, term, now) => MakeSnapshot(cfg, n, index, term, now)
    case SnapshotNow(now) => MakeSnapshot(cfg, n, n.log.lastIndex, n.log.hardState.term, now)
  }

  // What happens to a running node, and runs of it.
  datatype Event = ReadyCame(ready: Ready) | MessageCame(message: Message)

  ghost function NextNode<S>(cfg: Setup<S>, n: Node<S>, ev: Event): Node<S> {
    match ev
    case ReadyCame(r) => OnReady(cfg, n, r)
    case MessageCame(m) => HandleMessage(cfg, n, m)
  }

  ghost function RunNode<S>(cfg: Setup<S>, n: Node<S>, evs: seq<Event>): Node<S>
    decreases |evs|
  {
    if evs == [] || n.stopped then n else RunNode(cfg, NextNode(cfg, n, evs[0]), evs[1..])
  }

  lemma {:induction false} RunsJoin<S>(cfg: Setup<S>, n: Node<S>, evs: seq<Event>, more: seq<Event>)
    ensures RunNode(cfg, n, evs + more) == RunNode(cfg, RunNode(cfg, n, evs), more)
    decreases |evs|
  {
    if evs == [] {
      assert evs + more == more;
    } else if !n.stopped {
      assert (evs + more)[1..] == evs[1..] + more;
      RunsJoin(cfg, NextNode(cfg, n, evs[0]), evs[1..], more);
    }
  }

  // `bootstrap`: the peers become the configuration when the stored snapshot names none, and
  // the snapshot is applied on a fresh store or on request.  The state machine is the caller's.
  function InitialConf(peers: map<u64, Peer>): ConfState {
    ConfState(
      set id | id in peers && (peers[id].role.Voter? || peers[id].role.Leader?),
      set id | id in peers && peers[id].role.Learner?,
      {}, {}, false)
  }

  function BootLog(log: Log, peers: map<u64, Peer>, fromSnapshot: bool): Log {
    var stored := log.snapshot;
    var snapshot :=
      if stored.confState.voters == {} then
        stored.(confState := stored.confState.(
          voters := InitialConf(peers).voters, learners := InitialConf(peers).learners))
      else stored;
    if log.lastIndex == 0 || fromSnapshot then ApplySnapshot(log, snapshot) else log
  }

  // A node started on an empty store.
  function Boot<S>(fsm: S, peers: map<u64, Peer>, fromSnapshot: bool, now: nat): Node<S> {
    var log := BootLog(EMPTY_LOG, peers, fromSnapshot);
    Node(fsm, log, 0, 0, log.confState, peers, false, 0, map[], [], now, false)
  }
}
