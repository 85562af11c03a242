// Two back ends, one behaviour: runs of equal operations against both stores.
module BackendEquivalence {
  import opened Wrappers
  import opened KeyCodec
  import opened RaftTypes
  import L = RaftLog
  import LogProperties
  import H = HeedStore
  import R = RocksDbStore

  type Listing = Result<seq<Entry>, L.StorageError>

  datatype Op =
    | Append(entries: seq<Entry>)
    | Compact(index: u64)
    | CreateSnapshot(data: Bytes, at: u64, term: u64)
    | ApplySnapshot(snapshot: Snapshot)
    | SetHardState(hardState: HardState)
    | SetHardStateCommit(commit: u64)
    | SetConfState(confState: ConfState)
    | AskFirstIndex
    | AskLastIndex
    | AskTerm(of: u64)
    | AskEntries(low: u64, high: u64)
    | AskAllEntries
    | AskSnapshot
    | AskConfState
    | AskHardState

  // Wrote(false) is a panic.
  datatype Answer =
    | Wrote(ok: bool)
    | IndexIs(i: nat)
    | TermIs(t: Result<u64, L.StorageError>)
    | EntriesAre(es: Listing)
    | SnapshotIs(s: Snapshot)
    | ConfStateIs(c: ConfState)
    | HardStateIs(h: HardState)

  predicate IsQuestion(op: Op) {
    op.AskFirstIndex? || op.AskLastIndex? || op.AskTerm? || op.AskEntries? || op.AskAllEntries?
    || op.AskSnapshot? || op.AskConfState? || op.AskHardState?
  }

  // Every index that is stored fits the key width.
  predicate InRange(op: Op) {
    op.Append? ==> forall e | e in op.entries :: e.index < KEY_BOUND
  }

  ghost predicate Panics(b: L.Backend, log: L.Log, op: Op) {
    op.Append? && L.Refuses(b, log, op.entries)
  }

  ghost function Step(b: L.Backend, log: L.Log, op: Op): L.Log {
    if Panics(b, log, op) then log
    else
      match op
      case Append(entries) => L.Append(log, entries)
      case Compact(index) => L.Compact(log, index)
      case CreateSnapshot(data, at, term) => L.CreateSnapshot(log, data, at, term)
      case ApplySnapshot(snapshot) => L.ApplySnapshot(log, snapshot)
      case SetHardState(hardState) => L.SetHardState(log, hardState)
      case SetHardStateCommit(commit) => L.CommitAlone(b, log, commit)
      case SetConfState(confState) => L.SetConfState(log, confState)
      case _ => log
  }

  ghost function AnswerTo(b: L.Backend, log: L.Log, op: Op): Answer {
    match op
    case AskFirstIndex => IndexIs(L.FirstIndex(log))
    case AskLastIndex => IndexIs(log.lastIndex)
    case AskTerm(of) => TermIs(L.Term(log, of))
    case AskEntries(low, high) =>
      if b.RocksDb? || low < L.FirstIndex(log) then EntriesAre(L.Entries(log, low, high))
      else EntriesAre(Ok(L.Slice(log.entries, Reach(low), Reach(high))))
    case AskAllEntries => EntriesAre(Ok(L.AllEntries(log)))
    case AskSnapshot => SnapshotIs(log.snapshot)
    case AskConfState => ConfStateIs(log.confState)
    case AskHardState => HardStateIs(log.hardState)
    case _ => Wrote(!Panics(b, log, op))
  }

  ghost function Run(b: L.Backend, log: L.Log, ops: seq<Op>): seq<Answer>
    decreases |ops|
  {
    if ops == [] then []
    else [AnswerTo(b, log, ops[0])] + Run(b, Step(b, log, ops[0]), ops[1..])
  }

  ghost function Final(b: L.Backend, log: L.Log, ops: seq<Op>): L.Log
    decreases |ops|
  {
    if ops == [] then log else Final(b, Step(b, log, ops[0]), ops[1..])
  }

  // An answer without the commit index, the one thing Heed does not persist on its own.
  function WithoutCommit(a: Answer): Answer {
    match a
    case HardStateIs(h) => HardStateIs(h.(commit := 0))
    case _ => a
  }

  function AllWithoutCommit(answers: seq<Answer>): seq<Answer> {
    if answers == [] then [] else [WithoutCommit(answers[0])] + AllWithoutCommit(answers[1..])
  }

  // No append of the run starts below the first index without also leaving a gap.  Only such
  // an append panics in one back end and not in the other.
  ghost predicate NoSplitAppend(log: L.Log, ops: seq<Op>)
    decreases |ops|
  {
    ops == [] ||
    (&& (ops[0].Append? && L.StartsCompacted(log, ops[0].entries) ==> L.LeavesGap(log, ops[0].entries))
     && NoSplitAppend(Step(L.Heed, log, ops[0]), ops[1..]))
  }

  // The range read finds other entries by its keys than by its indices.  Only in Heed does a
  // bound from 10^10 on cut a range where its key sorts.
  ghost predicate CutScan(log: L.Log, op: Op) {
    && op.AskEntries? && L.FirstIndex(log) <= op.low
    && exists i :: i in log.entries && !(op.low <= i < op.high <==> Reach(op.low) <= i < Reach(op.high))
  }

  ghost predicate NoCutScan(log: L.Log, ops: seq<Op>)
    decreases |ops|
  {
    ops == [] || (!CutScan(log, ops[0]) && NoCutScan(Step(L.Heed, log, ops[0]), ops[1..]))
  }

  ghost predicate KeyedByIndex(log: L.Log) {
    forall i | i in log.entries :: log.entries[i].index == i
  }

  lemma {:induction false} OverlayKeyed(m: map<nat, Entry>, es: seq<Entry>)
    requires forall i | i in m :: m[i].index == i
    ensures forall i | i in L.Overlay(m, es) :: L.Overlay(m, es)[i].index == i
  {
    if es != [] {
      OverlayKeyed(m, es[..|es| - 1]);
    }
  }

  lemma StepKeyed(b: L.Backend, log: L.Log, op: Op)
    requires KeyedByIndex(log)
    ensures KeyedByIndex(Step(b, log, op))
  {
    if op.Append? {
      OverlayKeyed(log.entries, op.entries);
    }
  }

  ghost predicate SameButCommit(a: L.Log, b: L.Log) {
    a.(hardState := a.hardState.(commit := 0)) == b.(hardState := b.hardState.(commit := 0))
  }

  // The operation is answered alike, up to the commit index.
  ghost predicate NoSplit(log: L.Log, op: Op) {
    && (op.Append? && L.StartsCompacted(log, op.entries) ==> L.LeavesGap(log, op.entries))
    && !CutScan(log, op)
  }

  lemma SameParts(heed: L.Log, rocks: L.Log)
    requires SameButCommit(heed, rocks)
    ensures heed.entries == rocks.entries && heed.snapshot == rocks.snapshot
    ensures heed.lastIndex == rocks.lastIndex && heed.confState == rocks.confState
    ensures heed.hardState.term == rocks.hardState.term && heed.hardState.vote == rocks.hardState.vote
  {
    assert heed.hardState.(commit := 0) == rocks.hardState.(commit := 0);
  }

  // One operation: the stores stay the same up to the commit index unless an append splits
  // them, and the answers differ exactly where one of the three conditions fails.
  lemma StepExactly(heed: L.Log, rocks: L.Log, op: Op)
    requires SameButCommit(heed, rocks) && KeyedByIndex(heed)
    ensures NoSplit(heed, op) ==> SameButCommit(Step(L.Heed, heed, op), Step(L.RocksDb, rocks, op))
    ensures WithoutCommit(AnswerTo(L.Heed, heed, op)) == WithoutCommit(AnswerTo(L.RocksDb, rocks, op))
      <==> NoSplit(heed, op)
    ensures AnswerTo(L.Heed, heed, op) == AnswerTo(L.RocksDb, rocks, op)
      <==> NoSplit(heed, op) && (op.AskHardState? ==> heed.hardState.commit == rocks.hardState.commit)
  {
    SameParts(heed, rocks);
    if op.AskEntries? {
      LogProperties.SlicesEqualExactly(heed.entries, op.low, op.high, Reach(op.low), Reach(op.high));
    }
  }

  // From stores that differ in the commit index at most, the answers agree up to the commit
  // index exactly when no append and no range read splits them.
  lemma {:induction false} RunsAgreeFrom(heed: L.Log, rocks: L.Log, ops: seq<Op>)
    requires SameButCommit(heed, rocks) && KeyedByIndex(heed)
    ensures NoSplitAppend(heed, ops) && NoCutScan(heed, ops)
      <==> AllWithoutCommit(Run(L.Heed, heed, ops)) == AllWithoutCommit(Run(L.RocksDb, rocks, ops))
    decreases |ops|
  {
    if ops != [] {
      var op := ops[0];
      var h, r := Run(L.Heed, heed, ops), Run(L.RocksDb, rocks, ops);
      assert h[1..] == Run(L.Heed, Step(L.Heed, heed, op), ops[1..]);
      assert r[1..] == Run(L.RocksDb, Step(L.RocksDb, rocks, op), ops[1..]);
      StepExactly(heed, rocks, op);
      var a, b := AllWithoutCommit(h), AllWithoutCommit(r);
      assert a == [WithoutCommit(h[0])] + AllWithoutCommit(h[1..]) && a[1..] == AllWithoutCommit(h[1..]);
      assert b == [WithoutCommit(r[0])] + AllWithoutCommit(r[1..]) && b[1..] == AllWithoutCommit(r[1..]);
      if NoSplit(heed, op) {
        StepKeyed(L.Heed, heed, op);
        RunsAgreeFrom(Step(L.Heed, heed, op), Step(L.RocksDb, rocks, op), ops[1..]);
      } else {
        assert a[0] != b[0];
      }
    }
  }

  // The commit index RocksDB stores after an operation.
  function NextCommit(commit: u64, op: Op): u64 {
    match op
    case ApplySnapshot(snapshot) => snapshot.index
    case SetHardState(hardState) => hardState.commit
    case SetHardStateCommit(c) => c
    case _ => commit
  }

  // Whenever the hard state is asked for, the commit index set last is the one last set along
  // with a whole hard state or by a snapshot, which is all that Heed stores.
  ghost predicate NoLostCommitSeen(stored: u64, latest: u64, ops: seq<Op>)
    decreases |ops|
  {
    ops == [] ||
    (&& (ops[0].AskHardState? ==> stored == latest)
     && NoLostCommitSeen(
          if ops[0].SetHardStateCommit? then stored else NextCommit(stored, ops[0]),
          NextCommit(latest, ops[0]), ops[1..]))
  }

  lemma CommitsFollow(heed: L.Log, rocks: L.Log, op: Op)
    ensures Step(L.Heed, heed, op).hardState.commit
      == if op.SetHardStateCommit? then heed.hardState.commit else NextCommit(heed.hardState.commit, op)
    ensures Step(L.RocksDb, rocks, op).hardState.commit == NextCommit(rocks.hardState.commit, op)
  {
  }

  lemma {:induction false} FullAgreementFrom(heed: L.Log, rocks: L.Log, ops: seq<Op>)
    requires SameButCommit(heed, rocks) && KeyedByIndex(heed)
    ensures NoSplitAppend(heed, ops) && NoCutScan(heed, ops)
            && NoLostCommitSeen(heed.hardState.commit, rocks.hardState.commit, ops)
      <==> Run(L.Heed, heed, ops) == Run(L.RocksDb, rocks, ops)
    decreases |ops|
  {
    if ops != [] {
      var op := ops[0];
      var h, r := Run(L.Heed, heed, ops), Run(L.RocksDb, rocks, ops);
      assert h[1..] == Run(L.Heed, Step(L.Heed, heed, op), ops[1..]);
      assert r[1..] == Run(L.RocksDb, Step(L.RocksDb, rocks, op), ops[1..]);
      assert h == [h[0]] + h[1..] && r == [r[0]] + r[1..];
      StepExactly(heed, rocks, op);
      CommitsFollow(heed, rocks, op);
      if NoSplit(heed, op) {
        StepKeyed(L.Heed, heed, op);
        FullAgreementFrom(Step(L.Heed, heed, op), Step(L.RocksDb, rocks, op), ops[1..]);
      } else {
        assert h[0] != r[0];
      }
    }
  }

  // Without separately set commits, equal stores end in equal logs unless an append splits
  // them, and answer alike exactly when no range read does.
  lemma {:induction false} RunsAgreeFully(log: L.Log, ops: seq<Op>)
    requires NoSplitAppend(log, ops) && KeyedByIndex(log)
    requires forall op | op in ops :: !op.SetHardStateCommit?
    ensures Final(L.Heed, log, ops) == Final(L.RocksDb, log, ops)
    ensures Run(L.Heed, log, ops) == Run(L.RocksDb, log, ops) <==> NoCutScan(log, ops)
    decreases |ops|
  {
    if ops != [] {
      var op := ops[0];
      assert op in ops;
      var after := Step(L.Heed, log, op);
      assert Step(L.RocksDb, log, op) == after;
      StepKeyed(L.Heed, log, op);
      RunsAgreeFully(after, ops[1..]);
      StepExactly(log, log, op);
      var h, r := Run(L.Heed, log, ops), Run(L.RocksDb, log, ops);
      assert h[1..] == Run(L.Heed, after, ops[1..]) && r[1..] == Run(L.RocksDb, after, ops[1..]);
      assert h == [h[0]] + h[1..] && r == [r[0]] + r[1..];
    }
  }

  // From empty stores the two back ends give the same answers, up to the commit index of the
  // hard state, exactly when no append and no range read splits them.
  lemma BackendsAgreeExactly(ops: seq<Op>)
    ensures NoSplitAppend(L.EMPTY_LOG, ops) && NoCutScan(L.EMPTY_LOG, ops)
      <==> AllWithoutCommit(Run(L.Heed, L.EMPTY_LOG, ops)) == AllWithoutCommit(Run(L.RocksDb, L.EMPTY_LOG, ops))
  {
    RunsAgreeFrom(L.EMPTY_LOG, L.EMPTY_LOG, ops);
  }

  // From empty stores the two back ends give the same answers in everything exactly when,
  // besides, no commit set on its own is asked for before it is overwritten.
  lemma FullAgreementExactly(ops: seq<Op>)
    ensures NoSplitAppend(L.EMPTY_LOG, ops) && NoCutScan(L.EMPTY_LOG, ops) && NoLostCommitSeen(0, 0, ops)
      <==> Run(L.Heed, L.EMPTY_LOG, ops) == Run(L.RocksDb, L.EMPTY_LOG, ops)
  {
    FullAgreementFrom(L.EMPTY_LOG, L.EMPTY_LOG, ops);
  }

  // The commit index itself: a commit set on its own is seen by RocksDB only, so afterwards
  // the hard states agree exactly when that commit was already the stored one.
  lemma CommitAloneIsLostByHeed(log: L.Log, commit: u64)
    ensures Run(L.Heed, log, [SetHardStateCommit(commit), AskHardState])
         == Run(L.RocksDb, log, [SetHardStateCommit(commit), AskHardState])
      <==> commit == log.hardState.commit
  {
    var write := SetHardStateCommit(commit);
    var heed, rocks := Step(L.Heed, log, write), Step(L.RocksDb, log, write);
    assert [write, AskHardState][1..] == [AskHardState];
    assert Run(L.Heed, heed, [AskHardState]) == [HardStateIs(heed.hardState)] + Run(L.Heed, heed, []);
    assert Run(L.RocksDb, rocks, [AskHardState]) == [HardStateIs(rocks.hardState)] + Run(L.RocksDb, rocks, []);
    var h, r := Run(L.Heed, log, [write, AskHardState]), Run(L.RocksDb, log, [write, AskHardState]);
    assert h == [Wrote(true), HardStateIs(log.hardState)];
    assert r == [Wrote(true), HardStateIs(log.hardState.(commit := commit))];
    assert h[1] == r[1] <==> commit == log.hardState.commit;
  }

  // A range read up to 10^10: Heed misses every entry from 1_000_000_001 on.
  lemma WideScanIsCut(e: Entry, conf: ConfState)
    requires 1_000_000_001 <= e.index < KEY_BOUND
    ensures var ops := [ApplySnapshot(Snapshot([], e.index - 1, 0, conf)), Append([e]), AskEntries(e.index, KEY_BOUND)];
      && Run(L.Heed, L.EMPTY_LOG, ops) == [Wrote(true), Wrote(true), EntriesAre(Ok([]))]
      && Run(L.RocksDb, L.EMPTY_LOG, ops) == [Wrote(true), Wrote(true), EntriesAre(Ok([e]))]
  {
    var s := Snapshot([], e.index - 1, 0, conf);
    var ask := AskEntries(e.index, KEY_BOUND);
    var installed := L.ApplySnapshot(L.EMPTY_LOG, s);
    var stored := L.Append(installed, [e]);
    WideScanAnswers(installed, e);
    var ops := [ApplySnapshot(s), Append([e]), ask];
    assert ops[1..] == [Append([e]), ask] && ops[1..][1..] == [ask] && [ask][1..] == [];
    forall b: L.Backend ensures Run(b, L.EMPTY_LOG, ops) == [Wrote(true), Wrote(true), AnswerTo(b, stored, ask)] {
      assert Run(b, stored, [ask]) == [AnswerTo(b, stored, ask)];
      assert Run(b, installed, ops[1..]) == [Wrote(true)] + Run(b, stored, [ask]);
    }
  }

  lemma WideScanAnswers(installed: L.Log, e: Entry)
    requires 1_000_000_001 <= e.index < KEY_BOUND && installed.entries == map[]
    requires installed.snapshot.index == installed.lastIndex == e.index - 1
    ensures !Panics(L.Heed, installed, Append([e])) && !Panics(L.RocksDb, installed, Append([e]))
    ensures var stored := L.Append(installed, [e]);
      && AnswerTo(L.Heed, stored, AskEntries(e.index, KEY_BOUND)) == EntriesAre(Ok([]))
      && AnswerTo(L.RocksDb, stored, AskEntries(e.index, KEY_BOUND)) == EntriesAre(Ok([e]))
  {
    var stored := L.Append(installed, [e]);
    assert [e][..0] == [];
    assert L.Overlay(installed.entries, [e]) == L.Overlay(installed.entries, [])[e.index as nat := e];
    assert stored.entries == map[e.index as nat := e];
    LogProperties.FirstIndexIs(stored, e.index);
    ReachOfBound();
    L.SliceOfMissing(stored.entries, Reach(e.index), Reach(KEY_BOUND));
    LogProperties.SliceOfOne(e, KEY_BOUND);
  }

  method AskHeed(store: H.HeedStorage, op: Op) returns (answer: Answer)
    requires store.Valid() && IsQuestion(op)
    ensures answer == AnswerTo(L.Heed, store.Log(), op)
  {
    match op
    case AskFirstIndex => var i := store.FirstIndex(); answer := IndexIs(i);
    case AskLastIndex => var i := store.LastIndex(); answer := IndexIs(i);
    case AskTerm(of) => var t := store.Term(of); answer := TermIs(t);
    case AskEntries(low, high) => var es := store.Entries(low, high); answer := EntriesAre(es);
    case AskAllEntries => var es := store.AllEntries(); answer := EntriesAre(Ok(es));
    case AskSnapshot => var s := store.Snapshot(); answer := SnapshotIs(s);
    case AskConfState => var c := store.ConfState(); answer := ConfStateIs(c);
    case AskHardState => var h := store.HardState(); answer := HardStateIs(h);
  }

  method ExecuteHeed(store: H.HeedStorage, op: Op) returns (answer: Answer)
    requires store.Valid() && InRange(op)
    modifies store
    ensures store.Valid()
    ensures answer == AnswerTo(L.Heed, old(store.Log()), op)
    ensures store.Log() == Step(L.Heed, old(store.Log()), op)
  {
    answer := Wrote(true);
    match op
    case Append(entries) => var ok := store.Append(entries); answer := Wrote(ok);
    case Compact(index) => store.Compact(index, false);
    case CreateSnapshot(data, at, term) => store.CreateSnapshot(data, at, term);
    case ApplySnapshot(snapshot) => store.ApplySnapshot(snapshot);
    case SetHardState(hardState) => store.SetHardState(hardState);
    case SetHardStateCommit(commit) => store.SetHardStateCommit(commit);
    case SetConfState(confState) => store.SetConfState(confState);
    case _ => answer := AskHeed(store, op);
  }

  method AskRocksDb(store: R.RocksDbStorage, op: Op) returns (answer: Answer)
    requires store.Valid() && IsQuestion(op)
    ensures answer == AnswerTo(L.RocksDb, store.Log(), op)
  {
    match op
    case AskFirstIndex => var i := store.FirstIndex(); answer := IndexIs(i);
    case AskLastIndex => var i := store.LastIndex(); answer := IndexIs(i);
    case AskTerm(of) => var t := store.Term(of); answer := TermIs(t);
    case AskEntries(low, high) => var es := store.Entries(low, high); answer := EntriesAre(es);
    case AskAllEntries => var es := store.AllEntries(); answer := EntriesAre(Ok(es));
    case AskSnapshot => var s := store.Snapshot(); answer := SnapshotIs(s);
    case AskConfState => var c := store.ConfState(); answer := ConfStateIs(c);
    case AskHardState => var h := store.HardState(); answer := HardStateIs(h);
  }

  method ExecuteRocksDb(store: R.RocksDbStorage, op: Op) returns (answer: Answer)
    requires store.Valid() && InRange(op)
    modifies store
    ensures store.Valid()
    ensures answer == AnswerTo(L.RocksDb, old(store.Log()), op)
    ensures store.Log() == Step(L.RocksDb, old(store.Log()), op)
  {
    answer := Wrote(true);
    match op
    case Append(entries) => var ok := store.Append(entries); answer := Wrote(ok);
    case Compact(index) => store.Compact(index);
    case CreateSnapshot(data, at, term) => store.CreateSnapshot(data, at, term);
    case ApplySnapshot(snapshot) => store.ApplySnapshot(snapshot);
    case SetHardState(hardState) => store.SetHardState(hardState);
    case SetHardStateCommit(commit) => store.SetHardStateCommit(commit);
    case SetConfState(confState) => store.SetConfState(confState);
    case _ => answer := AskRocksDb(store, op);
  }

  method RunHeed(ops: seq<Op>) returns (answers: seq<Answer>)
    requires forall op | op in ops :: InRange(op)
    ensures answers == Run(L.Heed, L.EMPTY_LOG, ops)
  {
    var store := new H.HeedStorage(false);
    answers := [];
    for n := 0 to |ops|
      invariant fresh(store) && store.Valid()
      invariant Run(L.Heed, L.EMPTY_LOG, ops) == answers + Run(L.Heed, store.Log(), ops[n..])
    {
      ghost var before := store.Log();
      assert ops[n..][0] == ops[n] && ops[n..][1..] == ops[n + 1..];
      var a := ExecuteHeed(store, ops[n]);
      assert Run(L.Heed, before, ops[n..]) == [a] + Run(L.Heed, store.Log(), ops[n + 1..]);
      answers := answers + [a];
    }
  }

  method RunRocksDb(ops: seq<Op>) returns (answers: seq<Answer>)
    requires forall op | op in ops :: InRange(op)
    ensures answers == Run(L.RocksDb, L.EMPTY_LOG, ops)
  {
    var store := new R.RocksDbStorage();
    answers := [];
    for n := 0 to |ops|
      invariant fresh(store) && store.Valid()
      invariant Run(L.RocksDb, L.EMPTY_LOG, ops) == answers + Run(L.RocksDb, store.Log(), ops[n..])
    {
      ghost var before := store.Log();
      assert ops[n..][0] == ops[n] && ops[n..][1..] == ops[n + 1..];
      var a := ExecuteRocksDb(store, ops[n]);
      assert Run(L.RocksDb, before, ops[n..]) == [a] + Run(L.RocksDb, store.Log(), ops[n + 1..]);
      answers := answers + [a];
    }
  }

  // The same operations against a fresh store of each kind.
  method RunBoth(ops: seq<Op>) returns (heed: seq<Answer>, rocks: seq<Answer>)
    requires forall op | op in ops :: InRange(op)
    ensures NoSplitAppend(L.EMPTY_LOG, ops) && NoCutScan(L.EMPTY_LOG, ops)
      <==> AllWithoutCommit(heed) == AllWithoutCommit(rocks)
    ensures NoSplitAppend(L.EMPTY_LOG, ops) && NoCutScan(L.EMPTY_LOG, ops) && NoLostCommitSeen(0, 0, ops)
      <==> heed == rocks
  {
    heed := RunHeed(ops);
    rocks := RunRocksDb(ops);
    BackendsAgreeExactly(ops);
    FullAgreementExactly(ops);
  }
}
