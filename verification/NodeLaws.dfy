// What the handlers of a node do, said without them: a reference fold over the events of a
// run, when a node stops, what a membership entry does to the peer table, who is registered
// or redirected, and when snapshots are taken.
module NodeLaws {
  import opened Wrappers
  import opened KeyCodec
  import opened RaftTypes
  import opened RaftLog
  import LogProperties
  import opened Membership
  import opened NodeSpec
  import opened ApplyLoop
  import JoinPipeline
  import Requests

  // The reference

  // What a run's events alone decide: state machine, configuration, positions, hard state,
  // last index, and whether the node was removed.
  datatype Progress<S> = Progress(
    fsm: S,
    conf: ConfState,
    handled: nat,
    applied: nat,
    hardState: HardState,
    lastIndex: u64,
    removed: bool)

  function ProgressOf<S>(n: Node<S>): Progress<S> {
    Progress(n.fsm, n.coreConf, n.handled, n.applied, n.log.hardState, n.log.lastIndex, n.shouldExit)
  }

  // The entry is a membership change, with a request number, that removes the node.
  predicate RemovesNode(id: u64, e: Entry) {
    match DecodeConf(e.body)
    case Some(cc) => !e.context.NoContext? && ChangeSingle(RemoveNode, id) in cc.changes
    case None => false
  }

  function EntryProgress<S>(cfg: Setup<S>, p: Progress<S>, e: Entry): Progress<S> {
    p.(
      fsm := FsmStep(cfg.fsm, p.fsm, e),
      conf := ConfStep(cfg.applyConf, p.conf, e),
      handled := e.index,
      removed := p.removed || RemovesNode(cfg.id, e))
  }

  function EntriesProgress<S>(cfg: Setup<S>, p: Progress<S>, es: seq<Entry>): Progress<S> {
    if es == [] then p
    else EntryProgress(cfg, EntriesProgress(cfg, p, es[..|es| - 1]), es[|es| - 1])
  }

  // A snapshot replaces the state, moves the positions, and may only raise the term.
  function InstallProgress<S>(cfg: Setup<S>, p: Progress<S>, s: Snapshot): Progress<S> {
    if s == NO_SNAPSHOT then p
    else
      p.(
        fsm := if s.data == [] then p.fsm else cfg.fsm.restore(p.fsm, s.data),
        conf := s.confState,
        handled := s.index,
        lastIndex := s.index,
        hardState := HardState(if p.hardState.term < s.term then s.term else p.hardState.term, p.hardState.vote, s.index))
  }

  // The Ready's hard state is stored as it is; a commit index that comes alone only reaches
  // a RocksDB store.
  function HardStateAfter(b: Backend, h: HardState, r: Ready): HardState {
    var stored := match r.hardState { case Some(hs) => hs case None => h };
    match r.lightCommit
    case Some(commit) => if b.RocksDb? then stored.(commit := commit) else stored
    case None => stored
  }

  function LastOf(last: u64, es: seq<Entry>): u64 {
    if es == [] || es[|es| - 1].index < last then last else es[|es| - 1].index
  }

  function ReadyProgress<S>(cfg: Setup<S>, p: Progress<S>, r: Ready): Progress<S> {
    var committed := EntriesProgress(cfg, InstallProgress(cfg, p, r.snapshot), r.committed);
    var stored := committed.(
      hardState := HardStateAfter(cfg.backend, committed.hardState, r),
      lastIndex := LastOf(committed.lastIndex, r.entries));
    EntriesProgress(cfg, stored, r.lightCommitted).(applied := r.appliedAtEnd)
  }

  // Requests change nothing here.
  function EventsProgress<S>(cfg: Setup<S>, p: Progress<S>, evs: seq<Event>): Progress<S>
    decreases |evs|
  {
    if evs == [] then p
    else EventsProgress(cfg, if evs[0].ReadyCame? then ReadyProgress(cfg, p, evs[0].ready) else p, evs[1..])
  }

  // The node follows it

  lemma NormalFollows<S>(cfg: Setup<S>, n: Node<S>, e: Entry, clock: Clock)
    requires Effective(e)
    ensures var after := HandleNormal(cfg, n, e, clock);
      after.stopped || ProgressOf(after) == EntryProgress(cfg, ProgressOf(n), e)
  {
  }

  lemma NamedConfFollows<S>(
      cfg: Setup<S>, n: Node<S>, e: Entry, cc: ConfChangeV2, addrs: seq<SocketAddr>, clock: Clock)
    requires DecodeConf(e.body) == Some(cc) && !e.context.NoContext?
    ensures var after := HandleNamedConf(cfg, n, e, cc, addrs, clock);
      after.stopped || ProgressOf(after) == EntryProgress(cfg, ProgressOf(n), e)
  {
    var end := ApplyChanges(cfg.id, Going(n.peers, n.shouldExit), cc.changes, addrs);
    if end.Going? {
      LoopMeaning(cfg.id, Going(n.peers, n.shouldExit), cc.changes, addrs, cfg.id);
      var moved := n.(peers := end.peers, shouldExit := end.shouldExit);
      AdoptFollows(cfg, moved, cc, e, clock);
      AnswerConfFrame(AdoptConf(cfg, moved, cc, e, clock), e.context, cc.changes);
      assert AnswerConf(AdoptConf(cfg, moved, cc, e, clock), e.context, cc.changes).shouldExit == end.shouldExit;
    }
  }

  lemma AdoptFollows<S>(cfg: Setup<S>, n: Node<S>, cc: ConfChangeV2, e: Entry, clock: Clock)
    requires DecodeConf(e.body) == Some(cc)
    ensures ProgressOf(AdoptConf(cfg, n, cc, e, clock))
      == ProgressOf(n).(conf := ConfStep(cfg.applyConf, n.coreConf, e), handled := e.index)
  {
  }

  lemma EntryFollows<S>(cfg: Setup<S>, n: Node<S>, e: Entry, clock: Clock)
    requires !n.stopped
    ensures var after := HandleEntry(cfg, n, e, clock);
      after.stopped || ProgressOf(after) == EntryProgress(cfg, ProgressOf(n), e)
  {
    if Effective(e) {
      NormalFollows(cfg, n, e, clock);
    } else if !e.body.Normal? && DecodeConf(e.body).Some? && !e.context.NoContext?
              && DecodeConf(e.body).value.context.Addrs? {
      var cc := DecodeConf(e.body).value;
      NamedConfFollows(cfg, n, e, cc, cc.context.list, clock);
    }
  }

  lemma {:induction false} EntriesFollow<S>(cfg: Setup<S>, n: Node<S>, es: seq<Entry>, clock: Clock)
    requires !n.stopped
    ensures var after := HandleEntries(cfg, n, es, clock);
      after.stopped || ProgressOf(after) == EntriesProgress(cfg, ProgressOf(n), es)
    decreases |es|
  {
    if es != [] {
      var last, init := es[|es| - 1], es[..|es| - 1];
      EntriesFollow(cfg, n, init, clock);
      var before := HandleEntries(cfg, n, init, clock);
      if !before.stopped {
        EntryFollows(cfg, before, last, clock);
      }
    }
  }

  lemma InstallFollows<S>(cfg: Setup<S>, n: Node<S>, s: Snapshot)
    ensures ProgressOf(Install(cfg, n, s)) == InstallProgress(cfg, ProgressOf(n), s)
    ensures Install(cfg, n, s).stopped == n.stopped
  {
  }

  lemma StoreFollows<S>(cfg: Setup<S>, a: Node<S>, r: Ready)
    requires !Refuses(cfg.backend, a.log, r.entries) && LogProperties.Consecutive(r.entries)
    ensures ProgressOf(AfterStore(cfg, a, r)) == ProgressOf(a).(
      hardState := HardStateAfter(cfg.backend, a.log.hardState, r),
      lastIndex := LastOf(a.log.lastIndex, r.entries),
      applied := r.appliedOnAdvance)
    ensures AfterStore(cfg, a, r).stopped == a.stopped
  {
    if r.entries != [] {
      LogProperties.OverlayOfRun(a.log.entries, a.log.lastIndex, r.entries);
    }
  }

  // The applied index does not matter while entries are handled.
  lemma {:induction false} AppliedIsAside<S>(cfg: Setup<S>, p: Progress<S>, es: seq<Entry>, applied: nat)
    ensures EntriesProgress(cfg, p.(applied := applied), es) == EntriesProgress(cfg, p, es).(applied := applied)
  {
    if es != [] {
      AppliedIsAside(cfg, p, es[..|es| - 1], applied);
    }
  }

  lemma ReadyFollows<S>(cfg: Setup<S>, n: Node<S>, r: Ready)
    requires !n.stopped && LogProperties.Consecutive(r.entries)
    ensures var after := OnReady(cfg, n, r);
      after.stopped || ProgressOf(after) == ReadyProgress(cfg, ProgressOf(n), r)
  {
    InstallFollows(cfg, n, r.snapshot);
    EntriesFollow(cfg, Install(cfg, n, r.snapshot), r.committed, r.clock);
    var a := AfterCommitted(cfg, n, r);
    if !a.stopped && !Store(cfg, a, r.entries, r.hardState).stopped {
      StoreFollows(cfg, a, r);
      var b := AfterStore(cfg, a, r);
      EntriesFollow(cfg, b, r.lightCommitted, r.clock);
      AppliedIsAside(cfg, ProgressOf(b), r.lightCommitted, a.applied);
      assert ProgressOf(b).(applied := a.applied) == ProgressOf(a).(
        hardState := HardStateAfter(cfg.backend, a.log.hardState, r),
        lastIndex := LastOf(a.log.lastIndex, r.entries));
    }
  }

  lemma MessageFollows<S>(cfg: Setup<S>, n: Node<S>, m: Message)
    ensures ProgressOf(HandleMessage(cfg, n, m)) == ProgressOf(n)
  {
  }

  ghost predicate ConsecutiveReadies(evs: seq<Event>) {
    forall ev | ev in evs && ev.ReadyCame? :: LogProperties.Consecutive(ev.ready.entries)
  }

  // On every run of a running node, these seven are what the events alone decide.
  lemma {:induction false} RunFollows<S>(cfg: Setup<S>, n: Node<S>, evs: seq<Event>)
    requires ConsecutiveReadies(evs) && !RunNode(cfg, n, evs).stopped
    ensures ProgressOf(RunNode(cfg, n, evs)) == EventsProgress(cfg, ProgressOf(n), evs)
    decreases |evs|
  {
    if evs != [] {
      var next := NextNode(cfg, n, evs[0]);
      assert evs[0] in evs && forall ev | ev in evs[1..] :: ev in evs;
      match evs[0] {
        case ReadyCame(r) => ReadyFollows(cfg, n, r);
        case MessageCame(m) => MessageFollows(cfg, n, m);
      }
      RunFollows(cfg, next, evs[1..]);
    }
  }

  // A Ready's hard state is stored: term and vote as they are, and the commit index with
  // them unless a later one comes alone to a RocksDB store.
  lemma ReadyStoresHardState<S>(cfg: Setup<S>, n: Node<S>, r: Ready)
    requires !n.stopped && LogProperties.Consecutive(r.entries) && !OnReady(cfg, n, r).stopped
    ensures var before, after := Install(cfg, n, r.snapshot).log.hardState, OnReady(cfg, n, r).log.hardState;
      && (r.hardState.Some? ==> after.term == r.hardState.value.term && after.vote == r.hardState.value.vote)
      && (r.hardState.None? ==> after.term == before.term && after.vote == before.vote)
      && after.commit == if r.lightCommit.Some? && cfg.backend.RocksDb? then r.lightCommit.value
                         else if r.hardState.Some? then r.hardState.value.commit else before.commit
  {
    ReadyFollows(cfg, n, r);
    var committed := EntriesProgress(cfg, InstallProgress(cfg, ProgressOf(n), r.snapshot), r.committed);
    HandlingLeavesStore(cfg, InstallProgress(cfg, ProgressOf(n), r.snapshot), r.committed);
    HandlingLeavesStore(
      cfg,
      committed.(hardState := HardStateAfter(cfg.backend, committed.hardState, r),
                 lastIndex := LastOf(committed.lastIndex, r.entries)),
      r.lightCommitted);
    InstallFollows(cfg, n, r.snapshot);
  }

  lemma {:induction false} HandlingLeavesStore<S>(cfg: Setup<S>, p: Progress<S>, es: seq<Entry>)
    ensures var after := EntriesProgress(cfg, p, es);
      after.hardState == p.hardState && after.lastIndex == p.lastIndex && after.applied == p.applied
  {
    if es != [] {
      HandlingLeavesStore(cfg, p, es[..|es| - 1]);
    }
  }

  // A Ready's entries are in the store afterwards, each at its index, as far as compaction up
  // to the applied index leaves them.
  lemma ReadyStoresEntries<S>(cfg: Setup<S>, n: Node<S>, r: Ready, e: Entry)
    requires !n.stopped && LogProperties.Consecutive(r.entries) && !OnReady(cfg, n, r).stopped
    requires e in r.entries && r.appliedOnAdvance <= e.index
    ensures var log := OnReady(cfg, n, r).log;
      e.index as nat in log.entries && log.entries[e.index] == e && e.index <= log.lastIndex
  {
    var a := AfterCommitted(cfg, n, r);
    var b := AfterStore(cfg, a, r);
    LogProperties.OverlayOfRun(a.log.entries, a.log.lastIndex, r.entries);
    var k :| 0 <= k < |r.entries| && r.entries[k] == e;
    StoreShape(cfg, a, r);
    assert b.log.entries[e.index] == r.entries[k];
    EntriesKeepStored(cfg, b, r.lightCommitted, r.clock);
  }

  lemma {:induction false} EntriesKeepStored<S>(cfg: Setup<S>, n: Node<S>, es: seq<Entry>, clock: Clock)
    ensures SameFromApplied(n, HandleEntries(cfg, n, es, clock))
    decreases |es|
  {
    if es != [] {
      EntriesKeepStored(cfg, n, es[..|es| - 1], clock);
      var before := HandleEntries(cfg, n, es[..|es| - 1], clock);
      EntryKeepsStored(cfg, before, es[|es| - 1], clock);
    }
  }

  // When a node stops

  predicate Mixed(changes: seq<ChangeSingle>) {
    && (exists c :: c in changes && !IsAddition(c))
    && (exists c :: c in changes && !c.changeType.RemoveNode?)
  }

  // An unreadable context of a non-empty entry, a membership change that does not decode, or
  // one without a context that the core refuses; and with a context, addresses that cannot be
  // read or are missing for an addition, an unreadable number, or somebody waiting for changes
  // of both kinds.
  ghost predicate EndsRun<S>(cfg: Setup<S>, n: Node<S>, e: Entry) {
    if e.body.Normal? then Effective(e) && !e.context.Token?
    else
      match DecodeConf(e.body)
      case None => true
      case Some(cc) =>
        if e.context.NoContext? then cfg.applyConf(n.coreConf, cc).None?
        else
          || cc.context.NotAddrs?
          || (exists k: nat :: NeedsAddress(cc.changes, k, cc.context.list))
          || e.context.Garbled?
          || (e.context.seqNo in n.senders && Mixed(cc.changes))
  }

  lemma StopsExactly<S>(cfg: Setup<S>, n: Node<S>, e: Entry, clock: Clock)
    requires !n.stopped
    ensures HandleEntry(cfg, n, e, clock).stopped <==> EndsRun(cfg, n, e)
  {
    if !e.body.Normal? && DecodeConf(e.body).Some? && !e.context.NoContext?
       && DecodeConf(e.body).value.context.Addrs? {
      NamedConfStopsExactly(cfg, n, e, DecodeConf(e.body).value, clock);
    }
  }

  lemma NamedConfStopsExactly<S>(cfg: Setup<S>, n: Node<S>, e: Entry, cc: ConfChangeV2, clock: Clock)
    requires !n.stopped && !e.context.NoContext? && cc.context.Addrs?
    ensures HandleNamedConf(cfg, n, e, cc, cc.context.list, clock).stopped
      <==> || (exists k: nat :: NeedsAddress(cc.changes, k, cc.context.list))
           || e.context.Garbled?
           || (e.context.seqNo in n.senders && Mixed(cc.changes))
  {
    LoopPanicsExactly(cfg.id, Going(n.peers, n.shouldExit), cc.changes, cc.context.list);
    var end := ApplyChanges(cfg.id, Going(n.peers, n.shouldExit), cc.changes, cc.context.list);
    var adopted := AdoptConf(cfg, n.(peers := end.peers, shouldExit := end.shouldExit), cc, e, clock);
    assert !adopted.stopped && adopted.senders == n.senders;
    assert Mixed(cc.changes) <==> !(forall c | c in cc.changes :: IsAddition(c))
                                  && !(forall c | c in cc.changes :: c.changeType.RemoveNode?);
  }

  // What a membership entry does to the peer table

  // Only membership entries with a context touch the table or the exit flag.  One that is
  // read and whose additions have addresses puts every id where its last change says, leaves
  // the others, and asks the node to exit exactly when it removes it.
  lemma EntryMovesPeers<S>(cfg: Setup<S>, n: Node<S>, e: Entry, id: u64, clock: Clock)
    ensures var after := HandleEntry(cfg, n, e, clock);
      (e.body.Normal? || e.context.NoContext? || DecodeConf(e.body).None?
       || DecodeConf(e.body).value.context.NotAddrs?)
      ==> after.peers == n.peers && after.shouldExit == n.shouldExit
    ensures DecodeConf(e.body).Some? && !e.context.NoContext? ==>
      var after, cc := HandleEntry(cfg, n, e, clock), DecodeConf(e.body).value;
      cc.context.Addrs? && (forall k: nat :: !NeedsAddress(cc.changes, k, cc.context.list)) ==>
        && (after.shouldExit <==> n.shouldExit || RemovesNode(cfg.id, e))
        && (Undecided(cfg.id, cc.changes, id) ==>
              (id in after.peers <==> id in n.peers) && (id in n.peers ==> after.peers[id] == n.peers[id]))
        && (forall k: nat | LastDecider(cfg.id, cc.changes, id, k) ::
              match cc.changes[k].changeType
              case RemoveNode => id !in after.peers
              case AddNode =>
                k < |cc.context.list| && id in after.peers && after.peers[id] == Peer(cc.context.list[k], Voter)
              case AddLearnerNode =>
                k < |cc.context.list| && id in after.peers && after.peers[id] == Peer(cc.context.list[k], Learner))
  {
    if DecodeConf(e.body).Some? && !e.context.NoContext? && DecodeConf(e.body).value.context.Addrs? {
      var cc := DecodeConf(e.body).value;
      NamedConfTable(cfg, n, e, cc, clock);
      LoopPanicsExactly(cfg.id, Going(n.peers, n.shouldExit), cc.changes, cc.context.list);
      if forall k: nat :: !NeedsAddress(cc.changes, k, cc.context.list) {
        LoopMeaning(cfg.id, Going(n.peers, n.shouldExit), cc.changes, cc.context.list, id);
      }
    }
  }

  lemma NamedConfTable<S>(cfg: Setup<S>, n: Node<S>, e: Entry, cc: ConfChangeV2, clock: Clock)
    requires cc.context.Addrs?
    ensures var after, end := HandleNamedConf(cfg, n, e, cc, cc.context.list, clock),
                              ApplyChanges(cfg.id, Going(n.peers, n.shouldExit), cc.changes, cc.context.list);
      after.peers == end.peers && after.shouldExit == end.shouldExit
  {
    var end := ApplyChanges(cfg.id, Going(n.peers, n.shouldExit), cc.changes, cc.context.list);
    var adopted := AdoptConf(cfg, n.(peers := end.peers, shouldExit := end.shouldExit), cc, e, clock);
    assert adopted.peers == end.peers && adopted.shouldExit == end.shouldExit;
    AnswerConfLeavesTable(adopted, e.context, cc.changes);
  }

  lemma AnswerConfLeavesTable<S>(n: Node<S>, context: Context, changes: seq<ChangeSingle>)
    ensures var after := AnswerConf(n, context, changes);
      after.peers == n.peers && after.shouldExit == n.shouldExit && after.lastSnapshotCreated == n.lastSnapshotCreated
  {
  }

  // A node that asks to leave proposes its own removal, and exits once that is committed.
  lemma LeavingNodeExits<S>(cfg: Setup<S>, n: Node<S>, addr: SocketAddr, e: Entry, clock: Clock)
    requires JoinPipeline.Proposed(JoinPipeline.ByLeaving(cfg.id, addr)).Some?
    requires var cc := JoinPipeline.Proposed(JoinPipeline.ByLeaving(cfg.id, addr)).value.0;
      e.body == ConfV2(cc) && e.context.Token?
    ensures HandleEntry(cfg, n, e, clock).shouldExit && RemovesNode(cfg.id, e)
  {
    var cc := JoinPipeline.Proposed(JoinPipeline.ByLeaving(cfg.id, addr)).value.0;
    assert cc.changes == [ChangeSingle(RemoveNode, cfg.id)];
    EntryMovesPeers(cfg, n, e, cfg.id, clock);
  }

  // Requests

  // A running leader without a pending change registers the request; with one, a change is
  // dropped.  Others name the leader and its address from the table, drop the request when
  // there is no leader, and panic on a leader they do not know.
  lemma RequestOutcome<S>(cfg: Setup<S>, minted: seq<Requests.Request>, n: Node<S>, m: Message)
    requires Requests.Conserved(minted, n) && !n.stopped && (m.Propose? || m.ChangeConfig?)
    ensures var after, minted' := HandleMessage(cfg, n, m), Requests.NextMinted(cfg, minted, n, MessageCame(m));
      var payload := if m.Propose? then Requests.Proposal(m.data) else Requests.Change(m.change);
      var leader := m.view.leaderId;
      if m.ChangeConfig? && m.view.pendingConf then after == n && minted' == minted
      else if leader == cfg.id then
        && minted' == minted + [Requests.Request(payload, m.sender)]
        && |minted| in after.senders && after.senders[|minted|] == m.sender && after.replies == n.replies
        && (after.stopped <==> !m.view.accepts)
      else
        && minted' == minted && after.senders == n.senders
        && (after.stopped <==> leader != 0 && leader !in n.peers)
        && (if leader != 0 && leader in n.peers then
              && |after.replies| == |n.replies| + 1 && n.replies <= after.replies
              && var d := after.replies[|n.replies|];
              && d.Redirected? && d.sender == m.sender
              && (m.Propose? ==> d.reply == ProposeWrongLeader(leader, n.peers[leader].addr))
              && (m.ChangeConfig? ==> d.reply == ConfWrongLeader(leader, n.peers[leader].addr))
            else after.replies == n.replies)
  {
  }

  // The requests that get a number, in order, from the events alone.

  function RegisteredByEvent(id: u64, ev: Event): seq<Requests.Request> {
    match ev
    case MessageCame(Propose(data, sender, view)) =>
      if view.leaderId == id then [Requests.Request(Requests.Proposal(data), sender)] else []
    case MessageCame(ChangeConfig(cc, sender, view)) =>
      if view.leaderId == id && !view.pendingConf then [Requests.Request(Requests.Change(cc), sender)] else []
    case _ => []
  }

  function RegisteredBy(id: u64, evs: seq<Event>): seq<Requests.Request> {
    if evs == [] then [] else RegisteredByEvent(id, evs[0]) + RegisteredBy(id, evs[1..])
  }

  lemma EventRegisters<S>(cfg: Setup<S>, minted: seq<Requests.Request>, n: Node<S>, ev: Event)
    requires Requests.Conserved(minted, n) && !n.stopped
    ensures Requests.NextMinted(cfg, minted, n, ev) == minted + RegisteredByEvent(cfg.id, ev)
  {
    if ev.MessageCame? && (ev.message.Propose? || ev.message.ChangeConfig?) {
      RequestOutcome(cfg, minted, n, ev.message);
    }
  }

  lemma JoinedLists<T>(a: seq<T>, b: seq<T>, c: seq<T>)
    ensures a + (b + c) == (a + b) + c
  {
  }

  // On every run of a running node exactly these requests were registered, in this order.
  lemma {:induction false} RegisteredExactly<S>(
      cfg: Setup<S>, minted: seq<Requests.Request>, n: Node<S>, evs: seq<Event>)
    requires Requests.Conserved(minted, n) && !RunNode(cfg, n, evs).stopped
    ensures Requests.RunMinted(cfg, minted, n, evs) == minted + RegisteredBy(cfg.id, evs)
    decreases |evs|
  {
    if evs != [] {
      Requests.EventConserves(cfg, minted, n, evs[0]);
      EventRegisters(cfg, minted, n, evs[0]);
      var first, rest := RegisteredByEvent(cfg.id, evs[0]), RegisteredBy(cfg.id, evs[1..]);
      RegisteredExactly(cfg, minted + first, NextNode(cfg, n, evs[0]), evs[1..]);
      JoinedLists(minted, first, rest);
    }
  }

  // Snapshots

  // A snapshot holds the live state machine, index and term as given, and the stored
  // configuration; the entries whose keys sort before the applied index's are gone, the others
  // are as they were.
  ghost predicate IsSnapshotOf<S(!new)>(cfg: Setup<S>, n: Node<S>, after: Node<S>, index: u64, term: u64) {
    var s := after.log.snapshot;
    && (forall t: S :: cfg.fsm.restore(t, s.data) == n.fsm)
    && s.index == index && s.term == term && s.confState == n.log.confState
    && (forall i :: i in after.log.entries <==> i in n.log.entries && Reach(n.applied) <= i)
    && (forall i | i in after.log.entries :: after.log.entries[i] == n.log.entries[i])
    && after.log.lastIndex == n.log.lastIndex && after.log.hardState == n.log.hardState
  }

  // `MakeSnapshot` is taken where the caller says, `CreateSnapshot` at the last index with the
  // hard state's term.
  lemma RequestedSnapshotIsTaken<S(!new)>(cfg: Setup<S>, n: Node<S>, m: Message)
    requires Lawful(cfg.fsm) && (m.SnapshotAt? || m.SnapshotNow?)
    ensures var after := HandleMessage(cfg, n, m);
      && IsSnapshotOf(cfg, n, after, if m.SnapshotAt? then m.index else n.log.lastIndex,
                      if m.SnapshotAt? then m.term else n.log.hardState.term)
      && after.lastSnapshotCreated == m.now
  {
  }

  // An automatic snapshot follows an applied entry exactly when the interval has passed since
  // the last one; otherwise the store is left alone.
  lemma AutomaticSnapshotExactly<S(!new)>(cfg: Setup<S>, n: Node<S>, e: Entry, clock: Clock)
    requires Lawful(cfg.fsm) && !n.stopped && Effective(e) && e.context.Token?
    ensures var after := HandleEntry(cfg, n, e, clock);
      if cfg.snapshotInterval.Some? && clock.check(e.index) > n.lastSnapshotCreated + cfg.snapshotInterval.value then
        && IsSnapshotOf(cfg, n.(fsm := cfg.fsm.apply(n.fsm, e.body.data)), after, e.index, e.term)
        && after.lastSnapshotCreated == clock.stamp(e.index)
      else after.log == n.log && after.lastSnapshotCreated == n.lastSnapshotCreated
  {
  }

  // A membership change with a context takes one exactly when the core accepts it.
  lemma ConfSnapshotExactly<S(!new)>(cfg: Setup<S>, n: Node<S>, e: Entry, clock: Clock)
    requires Lawful(cfg.fsm) && !n.stopped && !e.body.Normal? && !HandleEntry(cfg, n, e, clock).stopped
    ensures var after, cc := HandleEntry(cfg, n, e, clock), DecodeConf(e.body);
      && cc.Some?
      && (match cfg.applyConf(n.coreConf, cc.value)
          case Some(cs) =>
            if e.context.NoContext? then
              after.log == n.log.(confState := cs) && after.lastSnapshotCreated == n.lastSnapshotCreated
            else
              && IsSnapshotOf(cfg, n.(log := n.log.(confState := cs)), after, e.index, e.term)
              && after.lastSnapshotCreated == clock.stamp(e.index)
          case None => after.log == n.log && after.lastSnapshotCreated == n.lastSnapshotCreated)
  {
    if !e.context.NoContext? {
      var cc := DecodeConf(e.body).value;
      var end := ApplyChanges(cfg.id, Going(n.peers, n.shouldExit), cc.changes, cc.context.list);
      var adopted := AdoptConf(cfg, n.(peers := end.peers, shouldExit := end.shouldExit), cc, e, clock);
      AnswerConfFrame(adopted, e.context, cc.changes);
      AnswerConfLeavesTable(adopted, e.context, cc.changes);
    }
  }

  // An entry either takes a snapshot at its index, stamped with its time, or leaves both be.
  lemma EntryStamps<S(!new)>(cfg: Setup<S>, n: Node<S>, e: Entry, clock: Clock)
    requires Lawful(cfg.fsm) && !n.stopped && !HandleEntry(cfg, n, e, clock).stopped
    ensures var after := HandleEntry(cfg, n, e, clock);
      || (after.log.snapshot == n.log.snapshot && after.lastSnapshotCreated == n.lastSnapshotCreated)
      || (after.log.snapshot.index == e.index && after.lastSnapshotCreated == clock.stamp(e.index))
  {
    if Effective(e) {
      AutomaticSnapshotExactly(cfg, n, e, clock);
    } else if !e.body.Normal? {
      ConfSnapshotExactly(cfg, n, e, clock);
    }
  }

  // While further entries are handled, the stamp stays at or after any time they are stamped
  // at or after, and the snapshot below any index they are below.
  lemma {:induction false} StampStays<S(!new)>(
      cfg: Setup<S>, n: Node<S>, es: seq<Entry>, clock: Clock, time: nat, bound: nat)
    requires Lawful(cfg.fsm) && !n.stopped && !HandleEntries(cfg, n, es, clock).stopped
    requires time <= n.lastSnapshotCreated && n.log.snapshot.index < bound
    requires forall e | e in es :: time <= clock.stamp(e.index) && e.index < bound
    ensures var after := HandleEntries(cfg, n, es, clock);
      time <= after.lastSnapshotCreated && after.log.snapshot.index < bound
    decreases |es|
  {
    if es != [] {
      var last, init := es[|es| - 1], es[..|es| - 1];
      StampStays(cfg, n, init, clock, time, bound);
      EntryStamps(cfg, HandleEntries(cfg, n, init, clock), last, clock);
    }
  }

  // A snapshot at x, any entries, then an automatic snapshot at y: they lie further apart
  // than the interval.
  lemma SnapshotsAreSpaced<S(!new)>(
      cfg: Setup<S>, n: Node<S>, x: Entry, es: seq<Entry>, y: Entry, clock: Clock)
    requires Lawful(cfg.fsm) && cfg.snapshotInterval.Some? && Effective(y)
    requires !n.stopped && n.log.snapshot.index < x.index < y.index
    requires forall e | e in es :: e.index < y.index && clock.stamp(x.index) <= clock.stamp(e.index)
    requires var first := HandleEntry(cfg, n, x, clock);
      var before := HandleEntries(cfg, first, es, clock);
      && !first.stopped && first.log.snapshot.index == x.index
      && !before.stopped && HandleEntry(cfg, before, y, clock).log.snapshot.index == y.index
    ensures clock.stamp(x.index) + cfg.snapshotInterval.value < clock.check(y.index)
  {
    var first := HandleEntry(cfg, n, x, clock);
    EntryStamps(cfg, n, x, clock);
    StampStays(cfg, first, es, clock, clock.stamp(x.index), y.index);
    SnapshotNeedsInterval(cfg, HandleEntries(cfg, first, es, clock), y, clock);
  }

  lemma SnapshotNeedsInterval<S(!new)>(cfg: Setup<S>, n: Node<S>, e: Entry, clock: Clock)
    requires Lawful(cfg.fsm) && !n.stopped && Effective(e) && cfg.snapshotInterval.Some?
    requires n.log.snapshot.index < e.index == HandleEntry(cfg, n, e, clock).log.snapshot.index
    ensures n.lastSnapshotCreated + cfg.snapshotInterval.value < clock.check(e.index)
  {
    if e.context.Token? {
      AutomaticSnapshotExactly(cfg, n, e, clock);
    }
  }

  // Bootstrap

  // The voters are the peers in the roles of voter and leader, the learners those in the role
  // of learner; the state machine is the caller's, and nobody waits.
  lemma BootMeaning<S>(fsm: S, peers: map<u64, Peer>, fromSnapshot: bool, now: nat, id: u64)
    ensures var n := Boot(fsm, peers, fromSnapshot, now);
      && n.coreConf == n.log.confState == n.log.snapshot.confState
      && (id in n.coreConf.voters <==> id in peers && peers[id].role in {Voter, Leader})
      && (id in n.coreConf.learners <==> id in peers && peers[id].role == Learner)
      && n.fsm == fsm && n.peers == peers && n.lastSnapshotCreated == now
      && n.senders == map[] && n.replies == [] && n.responseSeq == 0 && !n.stopped && !n.shouldExit
      && n.log.entries == map[] && n.log.lastIndex == n.handled == n.applied == 0
  {
  }

  // On a store in use, bootstrap keeps the log as it is unless it is empty or the snapshot is
  // asked for; then the log restarts at the snapshot, which names the peers as configuration
  // only when it names no voters itself.
  lemma BootOnStore(log: Log, peers: map<u64, Peer>, fromSnapshot: bool)
    ensures var after := BootLog(log, peers, fromSnapshot);
      if log.lastIndex != 0 && !fromSnapshot then after == log
      else
        && after.entries == log.entries && after.lastIndex == after.snapshot.index == log.snapshot.index
        && after.snapshot.data == log.snapshot.data && after.snapshot.term == log.snapshot.term
        && after.hardState.commit == log.snapshot.index && log.hardState.term <= after.hardState.term
        && after.confState == after.snapshot.confState
        && (log.snapshot.confState.voters != {} ==> after.confState == log.snapshot.confState)
        && (log.snapshot.confState.voters == {} ==>
              && after.confState.voters == (set id | id in peers && peers[id].role in {Voter, Leader})
              && after.confState.learners == (set id | id in peers && peers[id].role == Learner))
  {
  }
}
