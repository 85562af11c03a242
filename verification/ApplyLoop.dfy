// The apply loop over whole runs: state machine, snapshot and stored log stay consistent
// with the committed history, on one node.
module ApplyLoop {
  import opened Wrappers
  import opened KeyCodec
  import opened RaftTypes
  import opened RaftLog
  import LogProperties
  import Membership
  import opened NodeSpec

  // The committed history of the cluster, position by position.
  type History = nat -> Entry

  ghost predicate Indexed(C: History) {
    forall i: u64 | 0 < i :: C(i).index == i
  }

  predicate Effective(e: Entry) {
    e.body.Normal? && e.body.data != []
  }

  function FsmStep<S>(f: Fsm<S>, s: S, e: Entry): S {
    if Effective(e) then f.apply(s, e.body.data) else s
  }

  // The state machine after the first n committed entries.
  ghost function FoldFsm<S>(f: Fsm<S>, C: History, s0: S, n: nat): S {
    if n == 0 then s0 else FsmStep(f, FoldFsm(f, C, s0, n - 1), C(n))
  }

  function ConfStep(applyConf: (ConfState, ConfChangeV2) -> Option<ConfState>, cs: ConfState, e: Entry): ConfState {
    match DecodeConf(e.body)
    case None => cs
    case Some(cc) =>
      match applyConf(cs, cc)
      case Some(next) => next
      case None => cs
  }

  // A configuration carried through the changes that succeed among entries from+1 to n.
  ghost function FoldConf(
      applyConf: (ConfState, ConfChangeV2) -> Option<ConfState>, C: History, conf: ConfState, from: nat, n: nat): ConfState
    decreases n
  {
    if n <= from then conf else ConfStep(applyConf, FoldConf(applyConf, C, conf, from, n - 1), C(n))
  }

  // Where a node's configuration started: at bootstrap, or with the last installed snapshot.
  datatype Base = Base(index: nat, conf: ConfState)

  // The term at a position; nothing was ever proposed at position zero.
  ghost function TermOf(C: History, i: nat): u64 {
    if i == 0 then 0 else C(i).term
  }

  // Data and term of a snapshot are those of its index.  Only at position zero may the data
  // be missing.
  ghost predicate SnapshotTrue<S>(f: Fsm<S>, C: History, s0: S, s: Snapshot) {
    && (s.data == f.snapshot(FoldFsm(f, C, s0, s.index)) || (s.index == 0 && s.data == []))
    && s.term == TermOf(C, s.index)
  }

  ghost predicate NothingEffective(C: History, from: nat, upTo: nat) {
    forall i | from < i <= upTo :: !Effective(C(i))
  }

  // A snapshot on request may lie ahead of the last handled index.  Entries are complete
  // above the lower of the two.
  ghost function Low<S>(n: Node<S>): nat {
    if n.log.snapshot.index <= n.handled then n.log.snapshot.index else n.handled
  }

  ghost predicate Positions<S>(C: History, base: Base, n: Node<S>) {
    && base.index <= Low(n)
    && n.applied <= n.handled <= n.log.lastIndex && n.log.snapshot.index <= n.log.lastIndex
    && NothingEffective(C, n.handled, n.log.snapshot.index)
  }

  // Above low nothing is missing up to the last index, nor below anything left behind above it.
  ghost predicate Complete(log: Log, low: nat) {
    && (forall i | low < i <= log.lastIndex :: i in log.entries && log.entries[i].index == i)
    && (forall i, j | i in log.entries && low < j <= i :: j in log.entries)
  }

  // And what was handled is what was committed.
  ghost predicate StoresHistory<S>(C: History, n: Node<S>) {
    && Complete(n.log, Low(n))
    && forall i | Low(n) < i <= n.handled :: i in n.log.entries && n.log.entries[i] == C(i)
  }

  // The configuration at a position, counted from where the node's started.
  ghost function ConfAt<S>(cfg: Setup<S>, C: History, base: Base, i: nat): ConfState {
    FoldConf(cfg.applyConf, C, base.conf, base.index, i)
  }

  ghost predicate ConfTrue<S>(cfg: Setup<S>, C: History, base: Base, n: Node<S>) {
    && n.log.confState == n.coreConf == ConfAt(cfg, C, base, n.handled)
    && n.log.snapshot.confState == ConfAt(cfg, C, base, n.log.snapshot.index)
  }

  ghost predicate Good<S>(cfg: Setup<S>, C: History, s0: S, base: Base, n: Node<S>) {
    && Positions(C, base, n)
    && StoresHistory(C, n)
    && n.fsm == FoldFsm(cfg.fsm, C, s0, n.handled)
    && SnapshotTrue(cfg.fsm, C, s0, n.log.snapshot)
    && ConfTrue(cfg, C, base, n)
  }

  lemma FirstIndexAtMost(log: Log, i: nat)
    requires i in log.entries
    ensures FirstIndex(log) <= i
  {
  }

  lemma GoodFirstIndex<S>(C: History, base: Base, n: Node<S>)
    requires Positions(C, base, n) && StoresHistory(C, n)
    ensures FirstIndex(n.log) <= n.handled + 1
  {
    if n.handled + 1 in n.log.entries {
      FirstIndexAtMost(n.log, n.handled + 1);
    } else {
      assert n.log.entries != map[] ==> FirstIndex(n.log) in n.log.entries;
    }
  }

  // Snapshots

  // The state machine, the configuration and the stored entries in hand are good for a
  // snapshot at the index, with the term.
  ghost predicate SnapshotFits<S>(cfg: Setup<S>, C: History, base: Base, n: Node<S>, index: nat, term: u64) {
    && base.index <= index <= n.log.lastIndex && term == TermOf(C, index)
    && NothingEffective(C, n.handled, index) && NothingEffective(C, index, n.handled)
    && ConfAt(cfg, C, base, index) == n.coreConf
    && (index < n.handled ==> Reach(n.applied) <= index + 1)
    && forall i | index < i <= n.handled :: i in n.log.entries && n.log.entries[i] == C(i)
  }

  lemma {:induction false} FoldAcross<S>(f: Fsm<S>, C: History, s0: S, from: nat, upTo: nat)
    requires from <= upTo && NothingEffective(C, from, upTo)
    ensures FoldFsm(f, C, s0, from) == FoldFsm(f, C, s0, upTo)
    decreases upTo
  {
    if from < upTo {
      FoldAcross(f, C, s0, from, upTo - 1);
    }
  }

  lemma SnapshotKeepsEntries<S>(cfg: Setup<S>, C: History, base: Base, n: Node<S>, index: u64, term: u64, now: nat)
    requires Indexed(C) && Positions(C, base, n) && StoresHistory(C, n) && SnapshotFits(cfg, C, base, n, index, term)
    ensures StoresHistory(C, MakeSnapshot(cfg, n, index, term, now))
  {
    var after := MakeSnapshot(cfg, n, index, term, now);
    forall i | Low(after) < i && i in n.log.entries
      ensures i in after.log.entries && after.log.entries[i] == n.log.entries[i]
    {
    }
  }

  lemma SnapshotKeepsGood<S>(cfg: Setup<S>, C: History, s0: S, base: Base, n: Node<S>, index: u64, term: u64, now: nat)
    requires Indexed(C) && Good(cfg, C, s0, base, n) && SnapshotFits(cfg, C, base, n, index, term)
    ensures Good(cfg, C, s0, base, MakeSnapshot(cfg, n, index, term, now))
  {
    SnapshotKeepsEntries(cfg, C, base, n, index, term, now);
    if n.handled <= index {
      FoldAcross(cfg.fsm, C, s0, n.handled, index);
    } else {
      FoldAcross(cfg.fsm, C, s0, index, n.handled);
    }
  }

  // At the last handled index only the term can be wrong.
  lemma SnapshotAtHandled<S>(
      cfg: Setup<S>, C: History, s0: S, base: Base, n: Node<S>, index: u64, term: u64, now: nat)
    requires Indexed(C) && Good(cfg, C, s0, base, n) && index == n.handled && term == TermOf(C, index)
    ensures Good(cfg, C, s0, base, MakeSnapshot(cfg, n, index, term, now))
  {
    SnapshotKeepsGood(cfg, C, s0, base, n, index, term, now);
  }

  // Handling one entry

  // The node after an entry, apart from the snapshot it may take.
  lemma StepKeepsGood<S>(cfg: Setup<S>, C: History, s0: S, base: Base, n: Node<S>, after: Node<S>)
    requires Indexed(C) && Good(cfg, C, s0, base, n) && n.handled < n.log.lastIndex
    requires n.log.entries[n.handled + 1] == C(n.handled + 1)
    requires after.handled == n.handled + 1 && after.applied == n.applied
    requires after.fsm == FsmStep(cfg.fsm, n.fsm, C(n.handled + 1))
    requires after.coreConf == ConfStep(cfg.applyConf, n.coreConf, C(n.handled + 1))
    requires after.log == n.log.(confState := after.coreConf)
    ensures Good(cfg, C, s0, base, after)
  {
  }

  // What handling entries leaves alone: everything stored from the applied index on.
  ghost predicate SameFromApplied<S>(n: Node<S>, after: Node<S>) {
    && after.applied == n.applied && after.log.lastIndex == n.log.lastIndex
    && forall i | n.applied <= i && i in n.log.entries ::
         i in after.log.entries && after.log.entries[i] == n.log.entries[i]
  }

  // Peers, senders and replies play no part in the invariant.
  lemma OthersDoNotMatter<S>(cfg: Setup<S>, C: History, s0: S, base: Base, n: Node<S>, after: Node<S>)
    requires Good(cfg, C, s0, base, n)
    requires after.fsm == n.fsm && after.log == n.log && after.coreConf == n.coreConf
    requires after.applied == n.applied && after.handled == n.handled
    ensures Good(cfg, C, s0, base, after)
  {
  }

  lemma SnapshotKeepsStored<S>(cfg: Setup<S>, n: Node<S>, index: u64, term: u64, now: nat)
    ensures SameFromApplied(n, MakeSnapshot(cfg, n, index, term, now))
  {
  }

  lemma NormalKeepsStored<S>(cfg: Setup<S>, n: Node<S>, e: Entry, clock: Clock)
    requires e.body.Normal?
    ensures SameFromApplied(n, HandleNormal(cfg, n, e, clock))
  {
    if e.context.Token? {
      var fed := n.(fsm := cfg.fsm.apply(n.fsm, e.body.data), handled := e.index);
      var told := Answer(fed, e.context.seqNo, ProposeSuccess);
      SnapshotKeepsStored(cfg, told, e.index, e.term, clock.stamp(e.index));
    }
  }

  lemma NamedConfKeepsStored<S>(
      cfg: Setup<S>, n: Node<S>, e: Entry, cc: ConfChangeV2, addrs: seq<SocketAddr>, clock: Clock)
    ensures SameFromApplied(n, HandleNamedConf(cfg, n, e, cc, addrs, clock))
  {
    var end := Membership.ApplyChanges(cfg.id, Membership.Going(n.peers, n.shouldExit), cc.changes, addrs);
    var moved := n.(peers := end.peers, shouldExit := end.shouldExit);
    match cfg.applyConf(n.coreConf, cc)
    case Some(cs) =>
      var adopted := moved.(handled := e.index, coreConf := cs, log := SetConfState(n.log, cs));
      SnapshotKeepsStored(cfg, adopted, e.index, e.term, clock.stamp(e.index));
    case None =>
  }

  lemma EntryKeepsStored<S>(cfg: Setup<S>, n: Node<S>, e: Entry, clock: Clock)
    ensures SameFromApplied(n, HandleEntry(cfg, n, e, clock))
  {
    if e.body.Normal? {
      NormalKeepsStored(cfg, n, e, clock);
    } else if DecodeConf(e.body).Some? && DecodeConf(e.body).value.context.Addrs? {
      var cc := DecodeConf(e.body).value;
      NamedConfKeepsStored(cfg, n, e, cc, cc.context.list, clock);
    }
  }

  lemma FedKeepsGood<S>(cfg: Setup<S>, C: History, s0: S, base: Base, n: Node<S>, token: nat)
    requires Indexed(C) && Good(cfg, C, s0, base, n) && n.handled < n.log.lastIndex
    requires n.log.entries[n.handled + 1] == C(n.handled + 1) && Effective(C(n.handled + 1))
    ensures var e := C(n.handled + 1);
      var fed := n.(fsm := cfg.fsm.apply(n.fsm, e.body.data), handled := e.index);
      Good(cfg, C, s0, base, Answer(fed, token, ProposeSuccess)) && fed.handled == n.handled + 1
  {
    var e := C(n.handled + 1);
    var fed := n.(fsm := cfg.fsm.apply(n.fsm, e.body.data), handled := e.index);
    StepKeepsGood(cfg, C, s0, base, n, fed);
    OthersDoNotMatter(cfg, C, s0, base, fed, Answer(fed, token, ProposeSuccess));
  }

  lemma NormalKeepsGood<S>(cfg: Setup<S>, C: History, s0: S, base: Base, n: Node<S>, clock: Clock)
    requires Indexed(C) && Good(cfg, C, s0, base, n) && n.handled < n.log.lastIndex
    requires n.log.entries[n.handled + 1] == C(n.handled + 1) && Effective(C(n.handled + 1))
    ensures var after := HandleNormal(cfg, n, C(n.handled + 1), clock);
      && Good(cfg, C, s0, base, after)
      && (after.stopped || after.handled == n.handled + 1)
  {
    var e := C(n.handled + 1);
    if e.context.Token? {
      FedKeepsGood(cfg, C, s0, base, n, e.context.seqNo);
      var fed := n.(fsm := cfg.fsm.apply(n.fsm, e.body.data), handled := e.index);
      var told := Answer(fed, e.context.seqNo, ProposeSuccess);
      SnapshotAtHandled(cfg, C, s0, base, told, e.index, e.term, clock.stamp(e.index));
    } else {
      OthersDoNotMatter(cfg, C, s0, base, n, HandleNormal(cfg, n, e, clock));
    }
  }

  lemma AdoptKeepsGood<S>(cfg: Setup<S>, C: History, s0: S, base: Base, n: Node<S>, cc: ConfChangeV2, clock: Clock)
    requires Indexed(C) && Good(cfg, C, s0, base, n) && n.handled < n.log.lastIndex
    requires n.log.entries[n.handled + 1] == C(n.handled + 1) && DecodeConf(C(n.handled + 1).body) == Some(cc)
    ensures var after := AdoptConf(cfg, n, cc, C(n.handled + 1), clock);
      Good(cfg, C, s0, base, after) && after.handled == n.handled + 1
  {
    var e := C(n.handled + 1);
    var seen := n.(handled := e.index);
    match cfg.applyConf(n.coreConf, cc)
    case Some(cs) =>
      var adopted := seen.(coreConf := cs, log := SetConfState(n.log, cs));
      StepKeepsGood(cfg, C, s0, base, n, adopted);
      SnapshotAtHandled(cfg, C, s0, base, adopted, e.index, e.term, clock.stamp(e.index));
    case None =>
      StepKeepsGood(cfg, C, s0, base, n, seen);
  }

  lemma AnswerConfFrame<S>(n: Node<S>, context: Context, changes: seq<ChangeSingle>)
    ensures var after := AnswerConf(n, context, changes);
      && after.fsm == n.fsm && after.log == n.log && after.coreConf == n.coreConf
      && after.applied == n.applied && after.handled == n.handled
  {
  }

  lemma NamedConfKeepsGood<S>(
      cfg: Setup<S>, C: History, s0: S, base: Base, n: Node<S>, cc: ConfChangeV2, addrs: seq<SocketAddr>, clock: Clock)
    requires Indexed(C) && Good(cfg, C, s0, base, n) && n.handled < n.log.lastIndex
    requires n.log.entries[n.handled + 1] == C(n.handled + 1) && DecodeConf(C(n.handled + 1).body) == Some(cc)
    ensures var after := HandleNamedConf(cfg, n, C(n.handled + 1), cc, addrs, clock);
      && Good(cfg, C, s0, base, after)
      && (after.stopped || after.handled == n.handled + 1)
  {
    var e := C(n.handled + 1);
    var end := Membership.ApplyChanges(cfg.id, Membership.Going(n.peers, n.shouldExit), cc.changes, addrs);
    var moved := n.(peers := end.peers, shouldExit := end.shouldExit);
    OthersDoNotMatter(cfg, C, s0, base, n, moved);
    if end.Panicked? {
      OthersDoNotMatter(cfg, C, s0, base, n, moved.(stopped := true));
    } else {
      AdoptKeepsGood(cfg, C, s0, base, moved, cc, clock);
      var adopted := AdoptConf(cfg, moved, cc, e, clock);
      AnswerConfFrame(adopted, e.context, cc.changes);
      OthersDoNotMatter(cfg, C, s0, base, adopted, AnswerConf(adopted, e.context, cc.changes));
    }
  }

  lemma ConfKeepsGood<S>(cfg: Setup<S>, C: History, s0: S, base: Base, n: Node<S>, clock: Clock)
    requires Indexed(C) && Good(cfg, C, s0, base, n) && n.handled < n.log.lastIndex
    requires n.log.entries[n.handled + 1] == C(n.handled + 1) && !C(n.handled + 1).body.Normal?
    ensures var after := HandleConf(cfg, n, C(n.handled + 1), clock);
      && Good(cfg, C, s0, base, after)
      && (after.stopped || after.handled == n.handled + 1)
  {
    var e := C(n.handled + 1);
    var after := HandleConf(cfg, n, e, clock);
    match DecodeConf(e.body)
    case None =>
      OthersDoNotMatter(cfg, C, s0, base, n, after);
    case Some(cc) =>
      if e.context.NoContext? && cfg.applyConf(n.coreConf, cc).Some? {
        StepKeepsGood(cfg, C, s0, base, n, after);
      } else if !e.context.NoContext? && cc.context.Addrs? {
        NamedConfKeepsGood(cfg, C, s0, base, n, cc, cc.context.list, clock);
      } else {
        OthersDoNotMatter(cfg, C, s0, base, n, after);
      }
  }

  lemma EntryKeepsGood<S>(cfg: Setup<S>, C: History, s0: S, base: Base, n: Node<S>, clock: Clock)
    requires Indexed(C) && Good(cfg, C, s0, base, n) && n.handled < n.log.lastIndex
    requires n.log.entries[n.handled + 1] == C(n.handled + 1)
    ensures var after := HandleEntry(cfg, n, C(n.handled + 1), clock);
      && Good(cfg, C, s0, base, after)
      && (after.stopped || after.handled == n.handled + 1)
  {
    var e := C(n.handled + 1);
    if Effective(e) {
      NormalKeepsGood(cfg, C, s0, base, n, clock);
    } else if e.body.Normal? {
      StepKeepsGood(cfg, C, s0, base, n, n.(handled := e.index));
    } else {
      ConfKeepsGood(cfg, C, s0, base, n, clock);
    }
  }

  // Committed entries are handed out one after the other, and are stored by then.
  ghost predicate Handed<S>(C: History, n: Node<S>, es: seq<Entry>) {
    && n.handled + |es| <= n.log.lastIndex
    && forall k | 0 <= k < |es| ::
         es[k] == C(n.handled + 1 + k) && n.handled + 1 + k in n.log.entries && n.log.entries[n.handled + 1 + k] == es[k]
  }

  // One more entry of a batch that began at n.
  lemma NextKeepsGood<S>(
      cfg: Setup<S>, C: History, s0: S, base: Base, n: Node<S>, before: Node<S>, es: seq<Entry>, clock: Clock)
    requires Indexed(C) && n.applied <= n.handled && es != [] && Handed(C, n, es)
    requires Good(cfg, C, s0, base, before) && SameFromApplied(n, before) && before.handled == n.handled + |es| - 1
    ensures var after := HandleEntry(cfg, before, es[|es| - 1], clock);
      && Good(cfg, C, s0, base, after) && SameFromApplied(n, after)
      && (after.stopped || after.handled == n.handled + |es|)
  {
    assert es[|es| - 1] == C(before.handled + 1);
    EntryKeepsGood(cfg, C, s0, base, before, clock);
    EntryKeepsStored(cfg, before, es[|es| - 1], clock);
  }

  lemma {:induction false} EntriesKeepGood<S>(
      cfg: Setup<S>, C: History, s0: S, base: Base, n: Node<S>, es: seq<Entry>, clock: Clock)
    requires Indexed(C) && Good(cfg, C, s0, base, n) && !n.stopped && Handed(C, n, es)
    ensures var after := HandleEntries(cfg, n, es, clock);
      && Good(cfg, C, s0, base, after) && SameFromApplied(n, after)
      && (after.stopped || after.handled == n.handled + |es|)
    decreases |es|
  {
    if es != [] {
      var init := es[..|es| - 1];
      assert Handed(C, n, init);
      EntriesKeepGood(cfg, C, s0, base, n, init, clock);
      var before := HandleEntries(cfg, n, init, clock);
      if !before.stopped {
        NextKeepsGood(cfg, C, s0, base, n, before, es, clock);
      }
    }
  }

  // One Ready

  // What the core promises about a Ready: a snapshot moves the node forward and comes
  // alone; committed entries are handed out in order and are stored; new entries are
  // consecutive, leave no gap and lie above what was handed out; and the applied index
  // follows what was handled.
  ghost predicate CoreContract<S>(cfg: Setup<S>, C: History, n: Node<S>, r: Ready) {
    var a := AfterCommitted(cfg, n, r);
    && (r.snapshot != NO_SNAPSHOT ==> n.handled < r.snapshot.index && r.committed == [])
    && Handed(C, Install(cfg, n, r.snapshot), r.committed)
    && (!a.stopped ==> StoreContract(a, r) && LightContract(cfg, C, AfterStore(cfg, a, r), r))
  }

  ghost predicate StoreContract<S>(a: Node<S>, r: Ready) {
    && LogProperties.Consecutive(r.entries) && !LeavesGap(a.log, r.entries)
    && (r.entries != [] ==> a.handled < r.entries[0].index)
    && r.appliedOnAdvance <= a.handled
  }

  ghost predicate LightContract<S>(cfg: Setup<S>, C: History, b: Node<S>, r: Ready) {
    && Handed(C, b, r.lightCommitted)
    && r.appliedAtEnd <= b.handled + |r.lightCommitted|
  }

  function NextBase(base: Base, r: Ready): Base {
    if r.snapshot == NO_SNAPSHOT then base else Base(r.snapshot.index, r.snapshot.confState)
  }

  lemma InstallKeepsGood<S(!new)>(cfg: Setup<S>, C: History, s0: S, base: Base, n: Node<S>, r: Ready)
    requires Lawful(cfg.fsm) && Good(cfg, C, s0, base, n)
    requires SnapshotTrue(cfg.fsm, C, s0, r.snapshot)
    requires r.snapshot != NO_SNAPSHOT ==> n.handled < r.snapshot.index
    ensures Good(cfg, C, s0, NextBase(base, r), Install(cfg, n, r.snapshot))
  {
  }

  // New entries never start below the first index, so the store accepts them.
  lemma StoreAccepts<S>(C: History, base: Base, n: Node<S>, es: seq<Entry>)
    requires Positions(C, base, n) && StoresHistory(C, n) && (es != [] ==> n.handled < es[0].index)
    ensures !StartsCompacted(n.log, es)
  {
    GoodFirstIndex(C, base, n);
  }

  lemma AppendKeepsComplete(log: Log, es: seq<Entry>, low: nat)
    requires Complete(log, low) && LogProperties.Consecutive(es) && !LeavesGap(log, es) && low <= log.lastIndex
    requires es != [] ==> low < es[0].index
    ensures Complete(Append(log, es), low)
  {
    if es != [] {
      LogProperties.OverlayOfRun(log.entries, log.lastIndex, es);
    }
  }

  lemma AppendKeepsBelow(log: Log, es: seq<Entry>)
    requires LogProperties.Consecutive(es)
    ensures log.lastIndex <= Append(log, es).lastIndex
    ensures es != [] ==> forall i | i in log.entries && i < es[0].index ::
      i in Append(log, es).entries && Append(log, es).entries[i] == log.entries[i]
  {
    if es != [] {
      LogProperties.OverlayOfRun(log.entries, log.lastIndex, es);
    }
  }

  // What storing a Ready does to the node.
  lemma StoreShape<S>(cfg: Setup<S>, n: Node<S>, r: Ready)
    requires !Refuses(cfg.backend, n.log, r.entries)
    ensures var after, log := AfterStore(cfg, n, r), Append(n.log, r.entries);
      && after.log.entries == log.entries && after.log.lastIndex == log.lastIndex
      && after.log.snapshot == n.log.snapshot && after.log.confState == n.log.confState
      && after.handled == n.handled && after.fsm == n.fsm && after.coreConf == n.coreConf
      && after.applied == r.appliedOnAdvance && after.stopped == n.stopped
      && Store(cfg, n, r.entries, r.hardState).stopped == n.stopped
  {
  }

  lemma StoreKeepsEntries<S>(C: History, base: Base, n: Node<S>, after: Node<S>, es: seq<Entry>)
    requires Positions(C, base, n) && StoresHistory(C, n)
    requires LogProperties.Consecutive(es) && !LeavesGap(n.log, es) && (es != [] ==> n.handled < es[0].index)
    requires after.log.entries == Append(n.log, es).entries && after.log.lastIndex == Append(n.log, es).lastIndex
    requires after.log.snapshot == n.log.snapshot && after.handled == n.handled
    ensures StoresHistory(C, after) && n.log.lastIndex <= after.log.lastIndex
  {
    AppendKeepsComplete(n.log, es, Low(n));
    AppendKeepsBelow(n.log, es);
    forall i | Low(n) < i <= n.handled ensures i in after.log.entries && after.log.entries[i] == C(i) {
      assert i in n.log.entries;
    }
  }

  // What was handled stays as it is under the new entries.
  lemma StoreKeepsHistory<S>(cfg: Setup<S>, C: History, base: Base, n: Node<S>, r: Ready)
    requires Positions(C, base, n) && StoresHistory(C, n) && StoreContract(n, r)
    ensures StoresHistory(C, AfterStore(cfg, n, r)) && Positions(C, base, AfterStore(cfg, n, r))
  {
    StoreAccepts(C, base, n, r.entries);
    StoreShape(cfg, n, r);
    StoreKeepsEntries(C, base, n, AfterStore(cfg, n, r), r.entries);
  }

  lemma StoreKeepsGood<S>(cfg: Setup<S>, C: History, s0: S, base: Base, n: Node<S>, r: Ready)
    requires Good(cfg, C, s0, base, n) && !n.stopped && StoreContract(n, r)
    ensures !Store(cfg, n, r.entries, r.hardState).stopped
    ensures Good(cfg, C, s0, base, AfterStore(cfg, n, r)) && !AfterStore(cfg, n, r).stopped
  {
    StoreAccepts(C, base, n, r.entries);
    StoreShape(cfg, n, r);
    StoreKeepsHistory(cfg, C, base, n, r);
  }

  lemma LightKeepsGood<S>(cfg: Setup<S>, C: History, s0: S, base: Base, b: Node<S>, r: Ready)
    requires Indexed(C) && Good(cfg, C, s0, base, b) && !b.stopped && LightContract(cfg, C, b, r)
    ensures Good(cfg, C, s0, base, AfterLight(cfg, b, r))
  {
    EntriesKeepGood(cfg, C, s0, base, b, r.lightCommitted, r.clock);
  }

  // A whole Ready keeps the invariant, and the store never refuses its entries.
  lemma OnReadyKeepsGood<S(!new)>(cfg: Setup<S>, C: History, s0: S, base: Base, n: Node<S>, r: Ready)
    requires Lawful(cfg.fsm) && Indexed(C) && Good(cfg, C, s0, base, n) && !n.stopped
    requires CoreContract(cfg, C, n, r) && SnapshotTrue(cfg.fsm, C, s0, r.snapshot)
    ensures Good(cfg, C, s0, NextBase(base, r), OnReady(cfg, n, r))
    ensures var a := AfterCommitted(cfg, n, r);
      !a.stopped ==> !Refuses(cfg.backend, a.log, r.entries)
  {
    var base' := NextBase(base, r);
    InstallKeepsGood(cfg, C, s0, base, n, r);
    EntriesKeepGood(cfg, C, s0, base', Install(cfg, n, r.snapshot), r.committed, r.clock);
    var a := AfterCommitted(cfg, n, r);
    if !a.stopped {
      StoreAccepts(C, base', a, r.entries);
      StoreKeepsGood(cfg, C, s0, base', a, r);
      LightKeepsGood(cfg, C, s0, base', AfterStore(cfg, a, r), r);
    }
  }

  // A snapshot may be requested wherever it fits.
  ghost predicate Allowed<S>(cfg: Setup<S>, C: History, base: Base, n: Node<S>, m: Message) {
    match m
    case SnapshotAt(index, term, _) => SnapshotFits(cfg, C, base, n, index, term)
    case SnapshotNow(_) => SnapshotFits(cfg, C, base, n, n.log.lastIndex, n.log.hardState.term)
    case _ => true
  }

  lemma MessageKeepsGood<S>(cfg: Setup<S>, C: History, s0: S, base: Base, n: Node<S>, m: Message)
    requires Indexed(C) && Good(cfg, C, s0, base, n) && Allowed(cfg, C, base, n, m)
    ensures Good(cfg, C, s0, base, HandleMessage(cfg, n, m))
  {
    match m
    case SnapshotAt(index, term, now) => SnapshotKeepsGood(cfg, C, s0, base, n, index, term, now);
    case SnapshotNow(now) => SnapshotKeepsGood(cfg, C, s0, base, n, n.log.lastIndex, n.log.hardState.term, now);
    case _ => OthersDoNotMatter(cfg, C, s0, base, n, HandleMessage(cfg, n, m));
  }

  // One event, on one node

  function EventBase(base: Base, ev: Event): Base {
    if ev.ReadyCame? then NextBase(base, ev.ready) else base
  }

  ghost predicate LegalEvent<S>(cfg: Setup<S>, C: History, base: Base, n: Node<S>, ev: Event) {
    match ev
    case ReadyCame(r) => CoreContract(cfg, C, n, r)
    case MessageCame(m) => Allowed(cfg, C, base, n, m)
  }

  lemma EventKeepsGood<S(!new)>(cfg: Setup<S>, C: History, s0: S, base: Base, n: Node<S>, ev: Event)
    requires Lawful(cfg.fsm) && Indexed(C) && Good(cfg, C, s0, base, n) && !n.stopped
    requires LegalEvent(cfg, C, base, n, ev)
    requires ev.ReadyCame? ==> SnapshotTrue(cfg.fsm, C, s0, ev.ready.snapshot)
    ensures Good(cfg, C, s0, EventBase(base, ev), NextNode(cfg, n, ev))
  {
    match ev
    case ReadyCame(r) => OnReadyKeepsGood(cfg, C, s0, base, n, r);
    case MessageCame(m) => MessageKeepsGood(cfg, C, s0, base, n, m);
  }

  // What the invariant is for

  ghost function Replay<S>(f: Fsm<S>, s: S, es: seq<Entry>): S {
    if es == [] then s else FsmStep(f, Replay(f, s, es[..|es| - 1]), es[|es| - 1])
  }

  // From the stored snapshot and the stored entries after it, up to the last handled one,
  // whatever state `restore` is called on.
  ghost predicate Recoverable<S(!new)>(cfg: Setup<S>, s0: S, n: Node<S>) {
    forall t: S ::
      Replay(cfg.fsm,
             if n.log.snapshot.data == [] then s0 else cfg.fsm.restore(t, n.log.snapshot.data),
             Slice(n.log.entries, n.log.snapshot.index + 1, n.handled + 1)) == n.fsm
  }

  lemma {:induction false} ReplayIsFold<S>(f: Fsm<S>, C: History, s0: S, m: map<nat, Entry>, from: nat, n: nat)
    requires from <= n && forall i | from < i <= n :: i in m && m[i] == C(i)
    ensures Replay(f, FoldFsm(f, C, s0, from), Slice(m, from + 1, n + 1)) == FoldFsm(f, C, s0, n)
    decreases n
  {
    if from < n {
      ReplayIsFold(f, C, s0, m, from, n - 1);
      var es := Slice(m, from + 1, n + 1);
      assert es[..|es| - 1] == Slice(m, from + 1, n);
    }
  }

  // Compaction never drops an entry a recovery would need.
  lemma GoodIsRecoverable<S(!new)>(cfg: Setup<S>, C: History, s0: S, base: Base, n: Node<S>)
    requires Lawful(cfg.fsm) && Good(cfg, C, s0, base, n)
    ensures Recoverable(cfg, s0, n)
  {
    if n.log.snapshot.index <= n.handled {
      ReplayIsFold(cfg.fsm, C, s0, n.log.entries, n.log.snapshot.index, n.handled);
    } else {
      FoldAcross(cfg.fsm, C, s0, n.handled, n.log.snapshot.index);
    }
  }

  // The store answers term lookups with the history's terms, at the snapshot and from there to
  // the last handled index.
  lemma GoodTerms<S>(cfg: Setup<S>, C: History, s0: S, base: Base, n: Node<S>, i: nat)
    requires Good(cfg, C, s0, base, n) && (i == n.log.snapshot.index || Low(n) < i <= n.handled)
    ensures Term(n.log, i) == Ok(TermOf(C, i))
  {
  }

  lemma BootIsGood<S>(cfg: Setup<S>, C: History, s0: S, peers: map<u64, Membership.Peer>, fromSnapshot: bool, now: nat)
    ensures var n := Boot(s0, peers, fromSnapshot, now);
      && Good(cfg, C, s0, Base(0, n.coreConf), n) && !n.stopped
      && n.coreConf == InitialConf(peers)
  {
  }
}
