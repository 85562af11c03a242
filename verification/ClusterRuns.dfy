// Runs of a whole cluster.  Snapshots travel between nodes: what one node installs is what
// some node stored at some time, so nothing has to be assumed about them.
module ClusterRuns {
  import opened Wrappers
  import opened KeyCodec
  import opened RaftTypes
  import RaftLog
  import opened Membership
  import opened NodeSpec
  import opened ApplyLoop

  // bases[j] is where node j's configuration started; sent holds every snapshot ever sent.
  datatype Cluster<S> = Cluster(nodes: seq<Node<S>>, bases: seq<Base>, sent: set<Snapshot>)

  datatype Move = At(j: nat, event: Event) | SendSnapshot(j: nat)

  ghost function Next<S>(cfgs: seq<Setup<S>>, c: Cluster<S>, mv: Move): Cluster<S>
    requires mv.j < |cfgs| == |c.nodes| == |c.bases|
  {
    match mv
    case At(j, ev) =>
      c.(nodes := c.nodes[j := NextNode(cfgs[j], c.nodes[j], ev)], bases := c.bases[j := EventBase(c.bases[j], ev)])
    case SendSnapshot(j) => c.(sent := c.sent + {c.nodes[j].log.snapshot})
  }

  // A node acts while its run loop is alive.  A Ready keeps the core's contract, and a
  // snapshot in it was sent by someone.  A snapshot is requested only where it fits;
  // SnapshotRequestExactly says what comes of others.
  ghost predicate Legal<S>(cfgs: seq<Setup<S>>, C: History, c: Cluster<S>, mv: Move)
    requires |cfgs| == |c.nodes| == |c.bases|
  {
    && mv.j < |cfgs|
    && !c.nodes[mv.j].stopped && !c.nodes[mv.j].shouldExit
    && (mv.At? ==>
         && LegalEvent(cfgs[mv.j], C, c.bases[mv.j], c.nodes[mv.j], mv.event)
         && (mv.event.ReadyCame? && mv.event.ready.snapshot != NO_SNAPSHOT ==> mv.event.ready.snapshot in c.sent))
  }

  ghost predicate LegalRun<S>(cfgs: seq<Setup<S>>, C: History, c: Cluster<S>, mvs: seq<Move>)
    requires |cfgs| == |c.nodes| == |c.bases|
    decreases |mvs|
  {
    mvs == [] || (Legal(cfgs, C, c, mvs[0]) && LegalRun(cfgs, C, Next(cfgs, c, mvs[0]), mvs[1..]))
  }

  ghost function Run<S>(cfgs: seq<Setup<S>>, C: History, c: Cluster<S>, mvs: seq<Move>): (after: Cluster<S>)
    requires |cfgs| == |c.nodes| == |c.bases| && LegalRun(cfgs, C, c, mvs)
    ensures |cfgs| == |after.nodes| == |after.bases|
    decreases |mvs|
  {
    if mvs == [] then c else Run(cfgs, C, Next(cfgs, c, mvs[0]), mvs[1..])
  }

  // All nodes run the same application and the same core.
  ghost predicate SameMachine<S>(cfgs: seq<Setup<S>>, f: Fsm<S>) {
    forall j | 0 <= j < |cfgs| :: cfgs[j].fsm == f
  }

  ghost predicate ClusterGood<S>(cfgs: seq<Setup<S>>, f: Fsm<S>, C: History, s0: S, c: Cluster<S>) {
    && |cfgs| == |c.nodes| == |c.bases| && SameMachine(cfgs, f)
    && (forall j | 0 <= j < |cfgs| :: Good(cfgs[j], C, s0, c.bases[j], c.nodes[j]))
    && (forall s | s in c.sent :: SnapshotTrue(f, C, s0, s))
  }

  lemma StepKeepsClusterGood<S(!new)>(cfgs: seq<Setup<S>>, f: Fsm<S>, C: History, s0: S, c: Cluster<S>, mv: Move)
    requires Lawful(f) && Indexed(C) && ClusterGood(cfgs, f, C, s0, c) && Legal(cfgs, C, c, mv)
    ensures ClusterGood(cfgs, f, C, s0, Next(cfgs, c, mv))
  {
    var n := c.nodes[mv.j];
    assert Good(cfgs[mv.j], C, s0, c.bases[mv.j], n);
    match mv
    case At(j, ev) => EventKeepsGood(cfgs[j], C, s0, c.bases[j], n, ev);
    case SendSnapshot(_) => assert SnapshotTrue(f, C, s0, n.log.snapshot);
  }

  lemma {:induction false} RunKeepsClusterGood<S(!new)>(
      cfgs: seq<Setup<S>>, f: Fsm<S>, C: History, s0: S, c: Cluster<S>, mvs: seq<Move>)
    requires Lawful(f) && Indexed(C) && ClusterGood(cfgs, f, C, s0, c) && LegalRun(cfgs, C, c, mvs)
    ensures ClusterGood(cfgs, f, C, s0, Run(cfgs, C, c, mvs))
    decreases |mvs|
  {
    if mvs != [] {
      StepKeepsClusterGood(cfgs, f, C, s0, c, mvs[0]);
      RunKeepsClusterGood(cfgs, f, C, s0, Next(cfgs, c, mvs[0]), mvs[1..]);
    }
  }

  // A cluster of nodes bootstrapped on empty stores, each with peers of its own.
  ghost predicate Booted<S>(cfgs: seq<Setup<S>>, s0: S, c: Cluster<S>, peers: seq<map<u64, Peer>>) {
    && |cfgs| == |c.nodes| == |c.bases| == |peers| && c.sent == {}
    && forall j | 0 <= j < |cfgs| ::
         && c.nodes[j] == Boot(s0, peers[j], false, c.nodes[j].lastSnapshotCreated)
         && c.bases[j] == Base(0, InitialConf(peers[j]))
  }

  lemma BootedIsGood<S>(cfgs: seq<Setup<S>>, f: Fsm<S>, C: History, s0: S, c: Cluster<S>, peers: seq<map<u64, Peer>>)
    requires Booted(cfgs, s0, c, peers) && SameMachine(cfgs, f)
    ensures ClusterGood(cfgs, f, C, s0, c)
  {
    forall j | 0 <= j < |cfgs| ensures Good(cfgs[j], C, s0, c.bases[j], c.nodes[j]) {
      BootIsGood(cfgs[j], C, s0, peers[j], false, c.nodes[j].lastSnapshotCreated);
    }
  }

  // On every run, restoring a node's stored snapshot and applying the stored entries after
  // it gives the node's live state machine, and that is the fold of the committed history.
  lemma RecoverableOnEveryRun<S(!new)>(
      cfgs: seq<Setup<S>>, f: Fsm<S>, C: History, s0: S, c: Cluster<S>, peers: seq<map<u64, Peer>>, mvs: seq<Move>, j: nat)
    requires Lawful(f) && Indexed(C) && SameMachine(cfgs, f) && j < |cfgs|
    requires Booted(cfgs, s0, c, peers) && LegalRun(cfgs, C, c, mvs)
    ensures var n := Run(cfgs, C, c, mvs).nodes[j];
      Recoverable(cfgs[j], s0, n) && n.fsm == FoldFsm(f, C, s0, n.handled)
  {
    BootedIsGood(cfgs, f, C, s0, c, peers);
    RunKeepsClusterGood(cfgs, f, C, s0, c, mvs);
    var after := Run(cfgs, C, c, mvs);
    GoodIsRecoverable(cfgs[j], C, s0, after.bases[j], after.nodes[j]);
  }

  // On every run, a node's store answers term lookups with the terms of the history, from its
  // snapshot to the last handled index, and reports what is below its first index compacted.
  lemma NodeTermsOnEveryRun<S(!new)>(
      cfgs: seq<Setup<S>>, f: Fsm<S>, C: History, s0: S, c: Cluster<S>, peers: seq<map<u64, Peer>>, mvs: seq<Move>,
      j: nat, i: nat)
    requires Lawful(f) && Indexed(C) && SameMachine(cfgs, f) && j < |cfgs|
    requires Booted(cfgs, s0, c, peers) && LegalRun(cfgs, C, c, mvs)
    ensures var n := Run(cfgs, C, c, mvs).nodes[j];
      && (n.log.snapshot.index <= i <= n.handled ==> RaftLog.Term(n.log, i) == Ok(TermOf(C, i)))
      && (i < RaftLog.FirstIndex(n.log) && i != n.log.snapshot.index ==> RaftLog.Term(n.log, i) == Err(RaftLog.Compacted))
  {
    BootedIsGood(cfgs, f, C, s0, c, peers);
    RunKeepsClusterGood(cfgs, f, C, s0, c, mvs);
    var after := Run(cfgs, C, c, mvs);
    if after.nodes[j].log.snapshot.index <= i <= after.nodes[j].handled {
      GoodTerms(cfgs[j], C, s0, after.bases[j], after.nodes[j], i);
    }
  }

  // Nodes of any two clusters fed the same history agree wherever they have handled as much,
  // however entries were batched, snapshots timed, logs compacted or snapshots installed.
  lemma Convergence<S(!new)>(
      f: Fsm<S>, C: History, s0: S,
      cfgs: seq<Setup<S>>, c: Cluster<S>, peers: seq<map<u64, Peer>>, mvs: seq<Move>, i: nat,
      cfgs': seq<Setup<S>>, c': Cluster<S>, peers': seq<map<u64, Peer>>, mvs': seq<Move>, j: nat)
    requires Lawful(f) && Indexed(C) && SameMachine(cfgs, f) && SameMachine(cfgs', f)
    requires Booted(cfgs, s0, c, peers) && LegalRun(cfgs, C, c, mvs) && i < |cfgs|
    requires Booted(cfgs', s0, c', peers') && LegalRun(cfgs', C, c', mvs') && j < |cfgs'|
    requires Run(cfgs, C, c, mvs).nodes[i].handled == Run(cfgs', C, c', mvs').nodes[j].handled
    ensures Run(cfgs, C, c, mvs).nodes[i].fsm == Run(cfgs', C, c', mvs').nodes[j].fsm
  {
    RecoverableOnEveryRun(cfgs, f, C, s0, c, peers, mvs, i);
    RecoverableOnEveryRun(cfgs', f, C, s0, c', peers', mvs', j);
  }

  // A snapshot carries the configuration of its own index, counted from where the node's
  // configuration started, and the node runs with the configuration of its handled index.
  lemma SnapshotConfOnEveryRun<S(!new)>(
      cfgs: seq<Setup<S>>, f: Fsm<S>, C: History, s0: S, c: Cluster<S>, peers: seq<map<u64, Peer>>, mvs: seq<Move>, j: nat)
    requires Lawful(f) && Indexed(C) && SameMachine(cfgs, f) && j < |cfgs|
    requires Booted(cfgs, s0, c, peers) && LegalRun(cfgs, C, c, mvs)
    ensures var after := Run(cfgs, C, c, mvs);
      var n, base := after.nodes[j], after.bases[j];
      && n.log.snapshot.confState == ConfAt(cfgs[j], C, base, n.log.snapshot.index)
      && n.log.confState == n.coreConf == ConfAt(cfgs[j], C, base, n.handled)
  {
    BootedIsGood(cfgs, f, C, s0, c, peers);
    RunKeepsClusterGood(cfgs, f, C, s0, c, mvs);
  }

  // When all nodes boot with one configuration, all counting starts there.

  ghost predicate SameConf<S>(
      cfgs: seq<Setup<S>>, g: (ConfState, ConfChangeV2) -> Option<ConfState>, C: History, conf: ConfState, c: Cluster<S>) {
    && |cfgs| == |c.nodes| == |c.bases|
    && (forall j | 0 <= j < |cfgs| :: cfgs[j].applyConf == g)
    && (forall j | 0 <= j < |cfgs| :: c.bases[j].conf == FoldConf(g, C, conf, 0, c.bases[j].index))
    && (forall s | s in c.sent :: s.confState == FoldConf(g, C, conf, 0, s.index))
  }

  lemma {:induction false} FoldConfComposes(
      g: (ConfState, ConfChangeV2) -> Option<ConfState>, C: History, conf: ConfState, mid: nat, n: nat)
    requires mid <= n
    ensures FoldConf(g, C, FoldConf(g, C, conf, 0, mid), mid, n) == FoldConf(g, C, conf, 0, n)
    decreases n
  {
    if mid < n {
      FoldConfComposes(g, C, conf, mid, n - 1);
    }
  }

  lemma StepKeepsSameConf<S>(
      cfgs: seq<Setup<S>>, f: Fsm<S>, g: (ConfState, ConfChangeV2) -> Option<ConfState>, C: History, s0: S,
      conf: ConfState, c: Cluster<S>, mv: Move)
    requires ClusterGood(cfgs, f, C, s0, c) && SameConf(cfgs, g, C, conf, c) && Legal(cfgs, C, c, mv)
    ensures SameConf(cfgs, g, C, conf, Next(cfgs, c, mv))
  {
    var n, base := c.nodes[mv.j], c.bases[mv.j];
    FoldConfComposes(g, C, conf, base.index, n.log.snapshot.index);
  }

  lemma {:induction false} RunKeepsSameConf<S(!new)>(
      cfgs: seq<Setup<S>>, f: Fsm<S>, g: (ConfState, ConfChangeV2) -> Option<ConfState>, C: History, s0: S,
      conf: ConfState, c: Cluster<S>, mvs: seq<Move>)
    requires Lawful(f) && Indexed(C) && ClusterGood(cfgs, f, C, s0, c) && SameConf(cfgs, g, C, conf, c)
    requires LegalRun(cfgs, C, c, mvs)
    ensures SameConf(cfgs, g, C, conf, Run(cfgs, C, c, mvs))
    decreases |mvs|
  {
    if mvs != [] {
      StepKeepsSameConf(cfgs, f, g, C, s0, conf, c, mvs[0]);
      StepKeepsClusterGood(cfgs, f, C, s0, c, mvs[0]);
      RunKeepsSameConf(cfgs, f, g, C, s0, conf, Next(cfgs, c, mvs[0]), mvs[1..]);
    }
  }

  // Then every stored snapshot's configuration is the fold over the whole history up to it.
  lemma OneConfOnEveryRun<S(!new)>(
      cfgs: seq<Setup<S>>, f: Fsm<S>, g: (ConfState, ConfChangeV2) -> Option<ConfState>, C: History, s0: S,
      c: Cluster<S>, peers: seq<map<u64, Peer>>, conf: ConfState, mvs: seq<Move>, j: nat)
    requires Lawful(f) && Indexed(C) && SameMachine(cfgs, f) && j < |cfgs|
    requires forall i | 0 <= i < |cfgs| :: cfgs[i].applyConf == g
    requires Booted(cfgs, s0, c, peers) && LegalRun(cfgs, C, c, mvs)
    requires forall i | 0 <= i < |peers| :: InitialConf(peers[i]) == conf
    ensures var n := Run(cfgs, C, c, mvs).nodes[j];
      && n.log.snapshot.confState == FoldConf(g, C, conf, 0, n.log.snapshot.index)
      && n.coreConf == FoldConf(g, C, conf, 0, n.handled)
  {
    BootedIsGood(cfgs, f, C, s0, c, peers);
    RunKeepsSameConf(cfgs, f, g, C, s0, conf, c, mvs);
    RunKeepsClusterGood(cfgs, f, C, s0, c, mvs);
    var after := Run(cfgs, C, c, mvs);
    var n, base := after.nodes[j], after.bases[j];
    FoldConfComposes(g, C, conf, base.index, n.log.snapshot.index);
    FoldConfComposes(g, C, conf, base.index, n.handled);
  }

  // Snapshots on request

  // A state machine that forgets nothing: its state is the list of what it was fed.
  ghost predicate Records(f: Fsm<seq<Bytes>>) {
    forall s, d :: f.apply(s, d) == s + [d]
  }

  lemma {:induction false} RecordGrows(f: Fsm<seq<Bytes>>, C: History, s0: seq<Bytes>, from: nat, upTo: nat)
    requires Records(f) && from <= upTo
    ensures |FoldFsm(f, C, s0, from)| <= |FoldFsm(f, C, s0, upTo)|
    ensures |FoldFsm(f, C, s0, from)| == |FoldFsm(f, C, s0, upTo)| ==> NothingEffective(C, from, upTo)
    decreases upTo
  {
    if from < upTo {
      RecordGrows(f, C, s0, from, upTo - 1);
    }
  }

  // Data and term of a requested snapshot are true when nothing effective lies between the
  // handled and the given index, for every application.
  lemma SnapshotRequestIsTrueWhen<S>(
      cfg: Setup<S>, C: History, s0: S, base: Base, n: Node<S>, index: u64, term: u64, now: nat)
    requires Good(cfg, C, s0, base, n) && term == TermOf(C, index)
    requires NothingEffective(C, n.handled, index) && NothingEffective(C, index, n.handled)
    ensures SnapshotTrue(cfg.fsm, C, s0, MakeSnapshot(cfg, n, index, term, now).log.snapshot)
  {
    if n.handled <= index {
      FoldAcross(cfg.fsm, C, s0, n.handled, index);
    } else {
      FoldAcross(cfg.fsm, C, s0, index, n.handled);
    }
  }

  // The node's state is that of another index only when nothing effective lies between.
  lemma SnapshotTrueOnlyAcrossNothing(
      cfg: Setup<seq<Bytes>>, C: History, s0: seq<Bytes>, base: Base, n: Node<seq<Bytes>>, index: u64, term: u64, now: nat)
    requires Lawful(cfg.fsm) && Records(cfg.fsm) && Good(cfg, C, s0, base, n)
    requires SnapshotTrue(cfg.fsm, C, s0, MakeSnapshot(cfg, n, index, term, now).log.snapshot)
    ensures NothingEffective(C, n.handled, index) && NothingEffective(C, index, n.handled)
  {
    var there := FoldFsm(cfg.fsm, C, s0, index);
    assert cfg.fsm.restore(s0, cfg.fsm.snapshot(n.fsm)) == cfg.fsm.restore(s0, cfg.fsm.snapshot(there));
    assert n.fsm == there;
    if n.handled <= index {
      RecordGrows(cfg.fsm, C, s0, n.handled, index);
    } else {
      RecordGrows(cfg.fsm, C, s0, index, n.handled);
    }
  }

  lemma GoodSnapshotFits<S>(
      cfg: Setup<S>, C: History, s0: S, base: Base, n: Node<S>, index: u64, term: u64, now: nat)
    requires n.log.confState == n.coreConf && Good(cfg, C, s0, base, MakeSnapshot(cfg, n, index, term, now))
    requires NothingEffective(C, n.handled, index) && NothingEffective(C, index, n.handled)
    ensures SnapshotFits(cfg, C, base, n, index, term)
  {
    var after := MakeSnapshot(cfg, n, index, term, now);
    assert Positions(C, base, after) && StoresHistory(C, after) && ConfTrue(cfg, C, base, after);
    assert after.log.snapshot.index == index && after.log.snapshot.term == term;
    assert after.log.snapshot.confState == n.coreConf;
    assert index < n.handled ==> index + 1 in after.log.entries;
    forall i | index < i <= n.handled ensures i in n.log.entries && n.log.entries[i] == C(i) {
      assert i in after.log.entries;
    }
  }

  // A requested snapshot, at whatever index and with whatever term, keeps the node consistent
  // exactly when it fits: data, term and configuration are those of its index, and no entry
  // needed after it is compacted.  That it does when it fits holds for every application; the
  // converse needs one that forgets nothing.
  lemma SnapshotRequestExactly(
      cfg: Setup<seq<Bytes>>, C: History, s0: seq<Bytes>, base: Base, n: Node<seq<Bytes>>, index: u64, term: u64, now: nat)
    requires Lawful(cfg.fsm) && Records(cfg.fsm) && Indexed(C) && Good(cfg, C, s0, base, n)
    ensures Good(cfg, C, s0, base, MakeSnapshot(cfg, n, index, term, now))
      <==> SnapshotFits(cfg, C, base, n, index, term)
  {
    var after := MakeSnapshot(cfg, n, index, term, now);
    if SnapshotFits(cfg, C, base, n, index, term) {
      SnapshotKeepsGood(cfg, C, s0, base, n, index, term, now);
    }
    if Good(cfg, C, s0, base, after) {
      SnapshotTrueOnlyAcrossNothing(cfg, C, s0, base, n, index, term, now);
      GoodSnapshotFits(cfg, C, s0, base, n, index, term, now);
    }
  }

  // One index ahead, across a successful change of configuration: data and term are true, the
  // configuration is not, and the node is no longer consistent.
  lemma SnapshotAcrossConfChange<S>(
      cfg: Setup<S>, C: History, s0: S, base: Base, n: Node<S>, index: u64, now: nat)
    requires Good(cfg, C, s0, base, n) && index == n.handled + 1
    requires ConfStep(cfg.applyConf, n.coreConf, C(index)) != n.coreConf
    ensures var after := MakeSnapshot(cfg, n, index, C(index).term, now);
      && SnapshotTrue(cfg.fsm, C, s0, after.log.snapshot)
      && after.log.snapshot.confState != ConfAt(cfg, C, base, index)
      && !Good(cfg, C, s0, base, after)
  {
    FoldAcross(cfg.fsm, C, s0, n.handled, index);
  }

  // `CreateSnapshot` while the last stored entry, an effective one, is not handled yet: an
  // application that forgets nothing has not seen what the snapshot's index claims.
  lemma CreateSnapshotRunsAhead(
      cfg: Setup<seq<Bytes>>, C: History, s0: seq<Bytes>, base: Base, n: Node<seq<Bytes>>, now: nat)
    requires Lawful(cfg.fsm) && Records(cfg.fsm) && Good(cfg, C, s0, base, n)
    requires n.handled < n.log.lastIndex && Effective(C(n.log.lastIndex))
    ensures !SnapshotTrue(cfg.fsm, C, s0, HandleMessage(cfg, n, SnapshotNow(now)).log.snapshot)
  {
    if SnapshotTrue(cfg.fsm, C, s0, HandleMessage(cfg, n, SnapshotNow(now)).log.snapshot) {
      SnapshotTrueOnlyAcrossNothing(cfg, C, s0, base, n, n.log.lastIndex, n.log.hardState.term, now);
    }
  }
}
