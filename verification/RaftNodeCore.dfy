// The node itself: the run loop's handlers over mutable state, with a Heed store and a peer
// table.  Each handler is proved to take the node where NodeSpec says.
module RaftNodeCore {
  import opened Wrappers
  import opened KeyCodec
  import opened RaftTypes
  import opened RaftLog
  import opened HeedStore
  import opened Membership
  import opened NodeSpec

  // A loop that panicked at one change stays where it is for the rest of the list.
  lemma {:induction false} ApplyChangesStops(
      self: u64, st: LoopState, changes: seq<ChangeSingle>, addrs: seq<SocketAddr>, k: nat)
    requires k <= |changes|
    ensures ApplyChanges(self, st, changes[..k], addrs).Panicked?
      ==> ApplyChanges(self, st, changes, addrs) == ApplyChanges(self, st, changes[..k], addrs)
    decreases |changes|
  {
    if k < |changes| {
      var init := changes[..|changes| - 1];
      assert init[..k] == changes[..k];
      ApplyChangesStops(self, st, init, addrs, k);
    } else {
      assert changes[..k] == changes;
    }
  }

  lemma {:induction false} HandleEntriesStops<S>(cfg: Setup<S>, n: Node<S>, es: seq<Entry>, clock: Clock, k: nat)
    requires k <= |es|
    ensures HandleEntries(cfg, n, es[..k], clock).stopped
      ==> HandleEntries(cfg, n, es, clock) == HandleEntries(cfg, n, es[..k], clock)
    decreases |es|
  {
    if k < |es| {
      var init := es[..|es| - 1];
      assert init[..k] == es[..k];
      HandleEntriesStops(cfg, n, init, clock, k);
    } else {
      assert es[..k] == es;
    }
  }

  class RaftNodeCore<S> {
    const cfg: Setup<S>
    const store: HeedStorage
    const peers: Peers
    var fsm: S
    var responseSeq: nat
    var responseSenders: map<nat, Sender>
    var shouldExit: bool
    var lastSnapshotCreated: nat
    // what has been sent to callers, and whether an error or panic ended the run loop
    var replies: seq<Delivery>
    var stopped: bool
    // the core's: applied index, last index handed out, configuration in force
    var applied: u64
    var handled: nat
    var coreConf: ConfState

    ghost predicate Valid()
      reads this, store
    {
      store.Valid() && cfg.backend.Heed?
    }

    ghost function View(): Node<S>
      reads this, store, peers
    {
      Node(fsm, store.Log(), applied, handled, coreConf, peers.inner, shouldExit,
           responseSeq, responseSenders, replies, lastSnapshotCreated, stopped)
    }

    // `bootstrap` on a fresh store.
    constructor (cfg: Setup<S>, fsm: S, saveCompactedLogs: bool, initialPeers: map<u64, Peer>, fromSnapshot: bool, now: nat)
      requires cfg.backend.Heed?
      ensures Valid() && fresh(store) && fresh(peers) && this.cfg == cfg
      ensures View() == Boot(fsm, initialPeers, fromSnapshot, now)
    {
      var s := new HeedStorage(saveCompactedLogs);
      var snapshot := s.Snapshot();
      var lastIdx := s.LastIndex();
      var p := new Peers();
      p.inner := initialPeers;
      var conf := InitialConf(initialPeers);
      if snapshot.confState.voters == {} {
        snapshot := snapshot.(confState := snapshot.confState.(voters := conf.voters, learners := conf.learners));
      }
      if lastIdx == 0 || fromSnapshot {
        s.ApplySnapshot(snapshot);
      }
      var cs := s.ConfState();
      this.cfg, this.store, this.peers, this.fsm := cfg, s, p, fsm;
      this.responseSeq, this.responseSenders, this.shouldExit := 0, map[], false;
      this.lastSnapshotCreated, this.replies, this.stopped := now, [], false;
      this.applied, this.handled, this.coreConf := 0, 0, cs;
    }

    method MakeSnapshot(index: u64, term: u64, now: nat)
      requires Valid()
      modifies this`lastSnapshotCreated, store
      ensures Valid() && View() == NodeSpec.MakeSnapshot(cfg, old(View()), index, term, now)
    {
      lastSnapshotCreated := now;
      var snapshotData := cfg.fsm.snapshot(fsm);
      var lastApplied := applied;
      var overThreshold: bool := *;
      store.Compact(lastApplied, overThreshold);
      store.CreateSnapshot(snapshotData, index, term);
    }

    method HandleCommittedNormalEntry(entry: Entry, clock: Clock)
      requires Valid() && entry.body.Normal?
      modifies this, store
      ensures Valid() && View() == HandleNormal(cfg, old(View()), entry, clock)
    {
      if !entry.context.Token? {
        stopped := true;
        return;
      }
      var token := entry.context.seqNo;
      fsm := cfg.fsm.apply(fsm, entry.body.data);
      handled := entry.index;
      if token in responseSenders {
        var sender := responseSenders[token];
        responseSenders := responseSenders - {token};
        replies := replies + [Answered(token, sender, ProposeSuccess)];
      }
      match cfg.snapshotInterval
      case Some(interval) =>
        if clock.check(entry.index) > lastSnapshotCreated + interval {
          MakeSnapshot(entry.index, entry.term, clock.stamp(entry.index));
        }
      case None =>
    }

    // The change loop over the peer table; ok is false when an addition has no address.
    method ApplyPeerChanges(changes: seq<ChangeSingle>, addrs: seq<SocketAddr>) returns (ok: bool)
      modifies this`shouldExit, peers
      ensures var end := ApplyChanges(cfg.id, Going(old(peers.inner), old(shouldExit)), changes, addrs);
        peers.inner == end.peers && shouldExit == end.shouldExit && ok == end.Going?
    {
      ghost var start := Going(peers.inner, shouldExit);
      for ccIdx := 0 to |changes|
        invariant ApplyChanges(cfg.id, start, changes[..ccIdx], addrs) == Going(peers.inner, shouldExit)
      {
        var change := changes[ccIdx];
        assert changes[..ccIdx + 1][..ccIdx] == changes[..ccIdx];
        ApplyChangesStops(cfg.id, start, changes, addrs, ccIdx + 1);
        match change.changeType
        case AddNode =>
          if |addrs| <= ccIdx {
            return false;
          }
          peers.AddPeer(change.nodeId, addrs[ccIdx], Some(Voter));
        case AddLearnerNode =>
          if |addrs| <= ccIdx {
            return false;
          }
          peers.AddPeer(change.nodeId, addrs[ccIdx], Some(Learner));
        case RemoveNode =>
          if change.nodeId == cfg.id {
            shouldExit := true;
          } else {
            peers.Remove(change.nodeId);
          }
      }
      assert changes[..|changes|] == changes;
      ok := true;
    }

    method HandleCommittedConfigChangeEntry(entry: Entry, clock: Clock)
      requires Valid()
      modifies this, store, peers
      ensures Valid() && View() == HandleConf(cfg, old(View()), entry, clock)
    {
      var decoded := DecodeConf(entry.body);
      if decoded.None? {
        stopped := true;
        return;
      }
      var cc := decoded.value;
      if entry.context.NoContext? {
        match cfg.applyConf(coreConf, cc) {
          case Some(cs) =>
            coreConf := cs;
            handled := entry.index;
            store.SetConfState(cs);
          case None =>
            stopped := true;
        }
        return;
      }
      if cc.context.NotAddrs? {
        stopped := true;
        return;
      }
      var ok := ApplyPeerChanges(cc.changes, cc.context.list);
      if !ok {
        stopped := true;
        return;
      }
      ApplyConfChange(cc, entry, clock);
      RespondToConfChange(entry.context, cc.changes);
    }

    method ApplyConfChange(cc: ConfChangeV2, entry: Entry, clock: Clock)
      requires Valid()
      modifies this, store
      ensures Valid() && View() == AdoptConf(cfg, old(View()), cc, entry, clock)
    {
      handled := entry.index;
      match cfg.applyConf(coreConf, cc)
      case Some(cs) =>
        coreConf := cs;
        store.SetConfState(cs);
        MakeSnapshot(entry.index, entry.term, clock.stamp(entry.index));
      case None =>
    }

    method RespondToConfChange(context: Context, changes: seq<ChangeSingle>)
      requires Valid()
      modifies this`responseSenders, this`replies, this`stopped
      ensures Valid() && View() == AnswerConf(old(View()), context, changes)
    {
      if !context.Token? {
        stopped := true;
        return;
      }
      var token := context.seqNo;
      if token in responseSenders {
        var sender := responseSenders[token];
        responseSenders := responseSenders - {token};
        if forall c | c in changes :: IsAddition(c) {
          replies := replies + [Answered(token, sender, JoinSuccess(NodeIds(changes), peers.inner))];
        } else if forall c | c in changes :: c.changeType.RemoveNode? {
          replies := replies + [Answered(token, sender, RemoveSuccess)];
        } else {
          stopped := true;
        }
      }
    }

    method HandleCommittedEntries(entries: seq<Entry>, clock: Clock)
      requires Valid() && !stopped
      modifies this, store, peers
      ensures Valid() && View() == HandleEntries(cfg, old(View()), entries, clock)
    {
      for k := 0 to |entries|
        invariant Valid() && !stopped
        invariant View() == HandleEntries(cfg, old(View()), entries[..k], clock)
      {
        var entry := entries[k];
        assert entries[..k + 1][..k] == entries[..k];
        if entry.body.Normal? {
          if entry.body.data == [] {
            handled := entry.index;
          } else {
            HandleCommittedNormalEntry(entry, clock);
          }
        } else {
          HandleCommittedConfigChangeEntry(entry, clock);
        }
        if stopped {
          HandleEntriesStops(cfg, old(View()), entries, clock, k + 1);
          return;
        }
      }
      assert entries[..|entries|] == entries;
    }

    method RestoreSnapshot(snapshot: Snapshot)
      requires Valid()
      modifies this`fsm, this`handled, this`coreConf, store
      ensures Valid() && View() == Install(cfg, old(View()), snapshot)
    {
      if snapshot != NO_SNAPSHOT {
        if snapshot.data != [] {
          fsm := cfg.fsm.restore(fsm, snapshot.data);
        }
        store.ApplySnapshot(snapshot);
        handled := snapshot.index;
        coreConf := snapshot.confState;
      }
    }

    method StoreReady(entries: seq<Entry>, hardState: Option<HardState>)
      requires Valid() && !stopped && forall e | e in entries :: e.index < KEY_BOUND
      modifies this`stopped, store
      ensures Valid() && View() == Store(cfg, old(View()), entries, hardState)
    {
      if entries != [] {
        var ok := store.Append(entries);
        if !ok {
          stopped := true;
          return;
        }
      }
      assert store.Log() == RaftLog.Append(old(store.Log()), entries);
      match hardState
      case Some(hs) => store.SetHardState(hs);
      case None =>
    }

    method OnReady(ready: Ready)
      requires Valid() && !stopped
      requires forall e | e in ready.entries :: e.index < KEY_BOUND
      modifies this, store, peers
      ensures Valid() && View() == NodeSpec.OnReady(cfg, old(View()), ready)
    {
      RestoreSnapshot(ready.snapshot);
      HandleCommittedEntries(ready.committed, ready.clock);
      if stopped {
        return;
      }
      StoreReady(ready.entries, ready.hardState);
      if stopped {
        return;
      }
      applied := ready.appliedOnAdvance;
      match ready.lightCommit {
        case Some(commit) => store.SetHardStateCommit(commit);
        case None =>
      }
      assert View() == AfterStore(cfg, AfterCommitted(cfg, old(View()), ready), ready);
      HandleCommittedEntries(ready.lightCommitted, ready.clock);
      if stopped {
        return;
      }
      applied := ready.appliedAtEnd;
    }

    method HandleProposeRequest(sender: Sender, view: CoreView)
      requires Valid()
      modifies this
      ensures Valid() && View() == HandlePropose(cfg, old(View()), sender, view)
    {
      if view.leaderId != cfg.id {
        if view.leaderId == 0 {
          return;
        }
        if view.leaderId !in peers.inner {
          stopped := true;
          return;
        }
        var leaderAddr := peers.inner[view.leaderId].addr;
        replies := replies + [Redirected(sender, ProposeWrongLeader(view.leaderId, leaderAddr))];
      } else {
        var token := responseSeq;
        responseSeq := responseSeq + 1;
        responseSenders := responseSenders[token := sender];
        stopped := stopped || !view.accepts;
      }
    }

    method HandleConfchangeRequest(sender: Sender, view: CoreView)
      requires Valid()
      modifies this
      ensures Valid() && View() == HandleConfChangeRequest(cfg, old(View()), sender, view)
    {
      if view.pendingConf {
        return;
      }
      if view.leaderId != cfg.id {
        if view.leaderId == 0 {
          return;
        }
        if view.leaderId !in peers.inner {
          stopped := true;
          return;
        }
        var leaderAddr := peers.inner[view.leaderId].addr;
        replies := replies + [Redirected(sender, ConfWrongLeader(view.leaderId, leaderAddr))];
      } else {
        var token := responseSeq;
        responseSeq := responseSeq + 1;
        responseSenders := responseSenders[token := sender];
        stopped := stopped || !view.accepts;
      }
    }

    // The part of `handle_local_request_msg` and `handle_server_request_msg` that matters here.
    method HandleRequestMsg(message: Message)
      requires Valid()
      modifies this, store
      ensures Valid() && View() == HandleMessage(cfg, old(View()), message)
    {
      match message
      case Propose(_, sender, view) =>
        HandleProposeRequest(sender, view);
      case ChangeConfig(_, sender, view) =>
        HandleConfchangeRequest(sender, view);
      case SnapshotAt(index, term, now) =>
        MakeSnapshot(index, term, now);
      case SnapshotNow(now) =>
        var lastIndex := store.LastIndex();
        var hardState := store.HardState();
        MakeSnapshot(lastIndex, hardState.term, now);
    }
  }
}
