// What the store operations keep and mean: runs of entries, suffix completeness, append
// against truncate-and-append, term lookups, and the archive of compacted entries.
module LogProperties {
  import opened Wrappers
  import opened KeyCodec
  import opened RaftTypes
  import opened RaftLog

  // A batch of entries with consecutive indices.
  predicate Consecutive(es: seq<Entry>) {
    forall k | 0 <= k < |es| :: es[k].index == es[0].index + k
  }

  // Putting a consecutive batch overrides point by point, and the last index becomes the
  // greater of the two.
  lemma {:induction false} OverlayOfRun(m: map<nat, Entry>, last: u64, es: seq<Entry>)
    requires es != [] && Consecutive(es)
    ensures forall i :: i in Overlay(m, es) <==> i in m || es[0].index <= i < es[0].index + |es|
    ensures forall i | es[0].index <= i < es[0].index + |es| :: Overlay(m, es)[i] == es[i - es[0].index]
    ensures forall i | i in m && !(es[0].index <= i < es[0].index + |es|) :: Overlay(m, es)[i] == m[i]
    ensures LastAfter(last, es)
      == if last < es[0].index + |es| - 1 then es[0].index + |es| - 1 else last
  {
    var n := |es| - 1;
    if n > 0 {
      assert es[..n][0] == es[0];
      OverlayOfRun(m, last, es[..n]);
    } else {
      assert es[..n] == [];
    }
  }

  // A slice lists exactly the stored entries of its range, in index order.
  lemma {:induction false} SliceMeaning(m: map<nat, Entry>, low: nat, high: nat)
    requires forall i | i in m :: m[i].index == i
    ensures forall e :: e in Slice(m, low, high) <==> low <= e.index < high && e.index in m && m[e.index] == e
    ensures forall j, k | 0 <= j < k < |Slice(m, low, high)| ::
      Slice(m, low, high)[j].index < Slice(m, low, high)[k].index
    decreases high
  {
    if low < high {
      SliceMeaning(m, low, high - 1);
      var before := Slice(m, low, high - 1);
      assert forall j | 0 <= j < |before| :: before[j] in before;
    }
  }

  lemma SliceOfOne(e: Entry, high: nat)
    requires e.index < high
    ensures Slice(map[e.index as nat := e], e.index, high) == [e]
  {
    var m := map[e.index as nat := e];
    SliceSplit(m, e.index, e.index + 1, high);
    SliceOfPresent(m, e.index, e.index + 1);
    SliceOfMissing(m, e.index + 1, high);
  }

  function Within(m: map<nat, Entry>, low: nat, high: nat): map<nat, Entry> {
    map i | i in m && low <= i < high :: m[i]
  }

  lemma SliceIsWithin(m: map<nat, Entry>, low: nat, high: nat, top: nat)
    requires high <= top
    ensures Slice(m, low, high) == Slice(Within(m, low, high), 0, top)
  {
    var inner := Within(m, low, high);
    if low < high {
      SliceSplit(inner, 0, low, top);
      SliceSplit(inner, low, high, top);
      SliceOfMissing(inner, 0, low);
      SliceOfMissing(inner, high, top);
      SliceAgrees(m, inner, low, high);
    } else {
      SliceOfMissing(inner, 0, top);
    }
  }

  lemma SlicesEqualWhen(m: map<nat, Entry>, a: nat, b: nat, c: nat, d: nat)
    requires forall i | i in m :: a <= i < b <==> c <= i < d
    ensures Slice(m, a, b) == Slice(m, c, d)
  {
    assert Within(m, a, b) == Within(m, c, d);
    SliceIsWithin(m, a, b, b + d);
    SliceIsWithin(m, c, d, b + d);
  }

  lemma SliceHolds(m: map<nat, Entry>, low: nat, high: nat, i: nat)
    requires i in m && forall j | j in m :: m[j].index == j
    ensures m[i] in Slice(m, low, high) <==> low <= i < high
  {
    SliceMeaning(m, low, high);
  }

  // Two ranges list the same entries exactly when they hold the same stored indices.
  lemma SlicesEqualExactly(m: map<nat, Entry>, a: nat, b: nat, c: nat, d: nat)
    requires forall i | i in m :: m[i].index == i
    ensures Slice(m, a, b) == Slice(m, c, d) <==> forall i | i in m :: a <= i < b <==> c <= i < d
  {
    if Slice(m, a, b) == Slice(m, c, d) {
      forall i | i in m ensures a <= i < b <==> c <= i < d {
        SliceHolds(m, a, b, i);
        SliceHolds(m, c, d, i);
      }
    } else if forall i | i in m :: a <= i < b <==> c <= i < d {
      SlicesEqualWhen(m, a, b, c, d);
    }
  }

  // Suffix completeness: nothing above the snapshot is missing.

  ghost predicate SuffixComplete(log: Log) {
    && log.snapshot.index <= log.lastIndex
    && forall i | log.snapshot.index < i <= log.lastIndex :: i in log.entries && log.entries[i].index == i
  }

  lemma AppendKeepsSuffix(log: Log, es: seq<Entry>)
    requires SuffixComplete(log) && Consecutive(es) && !LeavesGap(log, es)
    ensures SuffixComplete(Append(log, es))
  {
    if es != [] {
      OverlayOfRun(log.entries, log.lastIndex, es);
    }
  }

  // The two transactions of a snapshot, compaction first, seen as one step.
  function TakeSnapshot(log: Log, applied: nat, data: Bytes, index: u64, term: u64): Log {
    CreateSnapshot(Compact(log, applied), data, index, term)
  }

  // A snapshot keeps the suffix complete exactly when its index does not pass the last index
  // and every index between it and the compaction point is really kept.
  lemma SnapshotKeepsSuffix(log: Log, applied: nat, data: Bytes, index: u64, term: u64)
    requires SuffixComplete(log) && log.snapshot.index <= index
    ensures SuffixComplete(TakeSnapshot(log, applied, data, index, term))
      <==> index <= log.lastIndex && (Reach(applied) <= index + 1 || index == log.lastIndex)
  {
    var after := TakeSnapshot(log, applied, data, index, term);
    if index < log.lastIndex && index + 1 < Reach(applied) {
      assert index + 1 !in after.entries;
    }
  }

  // Between the two transactions the old snapshot meets the compacted log.  Nothing is
  // missing at that point exactly when compaction stays at or below snapshot index + 1.
  lemma CompactionAloneMayLoseEntries(log: Log, applied: nat)
    requires SuffixComplete(log)
    ensures SuffixComplete(Compact(log, applied))
      <==> Reach(applied) <= log.snapshot.index + 1 || log.lastIndex == log.snapshot.index
  {
    if log.snapshot.index + 1 < Reach(applied) && log.snapshot.index < log.lastIndex {
      assert log.snapshot.index + 1 !in Compact(log, applied).entries;
    }
  }

  // Append against the textbook operation.

  // Exactly the indices from the first to the last are stored, each under its own index.
  ghost predicate Contiguous(log: Log) {
    && FirstIndex(log) <= log.lastIndex + 1
    && (forall i :: i in log.entries <==> FirstIndex(log) <= i <= log.lastIndex)
    && (forall i | i in log.entries :: log.entries[i].index == i)
  }

  function Head(m: map<nat, Entry>, before: nat): map<nat, Entry> {
    map i | i in m && i < before :: m[i]
  }

  function TruncateThenAppend(log: Log, es: seq<Entry>): Log
    requires es != []
  {
    log.(
      entries := Overlay(Head(log.entries, es[0].index), es),
      lastIndex := es[|es| - 1].index)
  }

  function Tail(log: Log, after: nat): map<nat, Entry> {
    map i | i in log.entries && after < i :: log.entries[i]
  }

  lemma FirstIndexIs(log: Log, f: nat)
    requires f in log.entries && forall i | i in log.entries :: f <= i
    ensures FirstIndex(log) == f
  {
  }

  // A snapshot on a store without entries: the log begins right after it, what lies before is
  // compacted, what lies after is not there yet.
  lemma InstallOnEmpty(log: Log, s: Snapshot)
    requires log.entries == map[]
    ensures var after := ApplySnapshot(log, s);
      && Contiguous(after) && FirstIndex(after) == s.index + 1
      && (forall i: nat :: Term(after, i) == if i < s.index then Err(Compacted)
                                             else if i == s.index then Ok(s.term) else Err(Unavailable))
      && (forall low: nat, high: nat :: Entries(after, low, high) == Err(Compacted) <==> low <= s.index)
  {
  }

  // Installing on any store leaves its entries, takes the greater term, and the snapshot's
  // index as commit.
  lemma InstallMeaning(log: Log, s: Snapshot)
    ensures var after := ApplySnapshot(log, s);
      && AllEntries(after) == AllEntries(log)
      && (log.entries != map[] ==> FirstIndex(after) == FirstIndex(log))
      && s.term <= after.hardState.term && log.hardState.term <= after.hardState.term
      && after.hardState.term in {s.term, log.hardState.term}
      && after.hardState.vote == log.hardState.vote && after.hardState.commit == s.index
      && after.lastIndex == s.index && after.snapshot == s && after.confState == s.confState
  {
    assert ApplySnapshot(log, s).entries == log.entries;
  }

  // Every lookup in a contiguous log.
  lemma ContiguousTerms(log: Log, i: nat)
    requires Contiguous(log)
    ensures Term(log, i) == Ok(log.snapshot.term) <== i == log.snapshot.index
    ensures i != log.snapshot.index ==>
      && (Term(log, i) == Err(Compacted) <==> i < FirstIndex(log))
      && (Term(log, i).Ok? <==> FirstIndex(log) <= i <= log.lastIndex)
      && (Term(log, i) == Err(Unavailable) <==> log.lastIndex < i)
      && (Term(log, i).Ok? ==> Term(log, i) == Ok(log.entries[i].term))
  {
    assert i in log.entries <==> FirstIndex(log) <= i <= log.lastIndex;
  }

  // The two refusals are right: an append that leaves a gap is one after which an index is
  // missing, one that starts compacted is one after which the log begins lower.
  lemma RefusalsExactly(log: Log, es: seq<Entry>)
    requires Contiguous(log) && es != [] && Consecutive(es)
    ensures var after := Append(log, es);
      && (LeavesGap(log, es) <==> exists i :: log.lastIndex < i <= after.lastIndex && i !in after.entries)
      && (StartsCompacted(log, es) <==> FirstIndex(after) < FirstIndex(log))
  {
    OverlayOfRun(log.entries, log.lastIndex, es);
    var after := Append(log, es);
    assert es[0].index as nat in after.entries;
    if LeavesGap(log, es) {
      assert log.lastIndex + 1 !in after.entries;
    }
    AppendFirstIndex(log, es);
  }

  lemma AppendFirstIndex(log: Log, es: seq<Entry>)
    requires Contiguous(log) && es != [] && Consecutive(es)
    ensures es[0].index < FirstIndex(log) ==> FirstIndex(Append(log, es)) == es[0].index
    ensures FirstIndex(log) <= es[0].index ==> FirstIndex(log) <= FirstIndex(Append(log, es))
  {
    OverlayOfRun(log.entries, log.lastIndex, es);
    var after := Append(log, es);
    if es[0].index < FirstIndex(log) {
      FirstIndexIs(after, es[0].index);
    }
  }

  ghost predicate InRangeBatch(log: Log, es: seq<Entry>) {
    es != [] && Consecutive(es) && !StartsCompacted(log, es) && !LeavesGap(log, es)
  }

  // Appending in range keeps the log contiguous, from the same first index.
  lemma AppendStaysContiguous(log: Log, es: seq<Entry>)
    requires Contiguous(log) && InRangeBatch(log, es)
    ensures Contiguous(Append(log, es)) && FirstIndex(Append(log, es)) == FirstIndex(log)
    ensures Append(log, es).entries != map[]
  {
    OverlayOfRun(log.entries, log.lastIndex, es);
    assert es[0].index as nat in Append(log, es).entries;
    FirstIndexIs(Append(log, es), FirstIndex(log));
  }

  lemma AppendEntries(log: Log, es: seq<Entry>)
    requires es != [] && Consecutive(es) && !LeavesGap(log, es) && Contiguous(log)
    ensures Append(log, es).entries == TruncateThenAppend(log, es).entries + Tail(log, es[|es| - 1].index)
    ensures TruncateThenAppend(log, es).entries.Keys !! Tail(log, es[|es| - 1].index).Keys
  {
    OverlayOfRun(log.entries, log.lastIndex, es);
    OverlayOfRun(Head(log.entries, es[0].index), log.lastIndex, es);
    var ideal, tail := TruncateThenAppend(log, es).entries, Tail(log, es[|es| - 1].index);
    assert es[|es| - 1].index == es[0].index + |es| - 1;
    assert forall i :: i in Append(log, es).entries <==> i in ideal || i in tail;
  }

  // Append is truncate-then-append exactly when the batch reaches the old last index; what
  // it keeps beyond that otherwise is exactly the old tail.
  lemma AppendRefines(log: Log, es: seq<Entry>)
    requires Contiguous(log) && InRangeBatch(log, es)
    ensures Append(log, es) == TruncateThenAppend(log, es) <==> log.lastIndex <= es[|es| - 1].index
    ensures Append(log, es).entries == TruncateThenAppend(log, es).entries + Tail(log, es[|es| - 1].index)
    ensures TruncateThenAppend(log, es).entries.Keys !! Tail(log, es[|es| - 1].index).Keys
  {
    AppendEntries(log, es);
    OverlayOfRun(log.entries, log.lastIndex, es);
    assert es[|es| - 1].index == es[0].index + |es| - 1;
    if log.lastIndex <= es[|es| - 1].index {
      assert Tail(log, es[|es| - 1].index) == map[];
    }
  }

  // Term lookups over runs.

  datatype LogEvent =
    | Grow(entries: seq<Entry>)
    | Snap(applied: nat, data: Bytes, at: u64, term: u64)
    | Receive(snapshot: Snapshot, history: seq<u64>)

  ghost function NextLog(log: Log, ev: LogEvent): Log {
    match ev
    case Grow(es) => Append(log, es)
    case Snap(applied, data, at, term) => TakeSnapshot(log, applied, data, at, term)
    case Receive(snapshot, _) => ApplySnapshot(log, snapshot)
  }

  // The terms of the uncompacted log, position by position, as the consensus core has them.
  ghost function NextTerms(terms: seq<u64>, ev: LogEvent): seq<u64> {
    match ev
    case Grow(es) =>
      if es == [] || |terms| < es[0].index then terms
      else terms[..es[0].index] + seq(|es|, k requires 0 <= k < |es| => es[k].term)
    case Snap(_, _, _, _) => terms
    case Receive(_, history) => history
  }

  // Appends above the snapshot that leave no gap in the core's log, also ones that overwrite a
  // longer suffix with a shorter one; snapshots within the core's log, with its own term; and
  // installed snapshots with theirs.
  ghost predicate LegalEvent(log: Log, terms: seq<u64>, ev: LogEvent) {
    match ev
    case Grow(es) => Consecutive(es) && (es != [] ==> log.snapshot.index < es[0].index <= |terms|)
    case Snap(applied, _, at, term) =>
      Reach(applied) <= at + 1 && log.snapshot.index <= at < |terms| && terms[at] == term
    case Receive(snapshot, history) =>
      |history| == snapshot.index + 1 && history[snapshot.index] == snapshot.term
  }

  // Lookups give the core's terms wherever the core's log has them.  A stale tail may remain
  // stored above it.
  ghost predicate TermFaithful(log: Log, terms: seq<u64>) {
    && SuffixComplete(log)
    && log.snapshot.index < |terms| <= log.lastIndex + 1
    && forall i | log.snapshot.index <= i < |terms| :: Term(log, i) == Ok(terms[i])
  }

  // Lookups give the core's terms everywhere up to the stored last index.
  ghost predicate FaithfulThroughout(log: Log, terms: seq<u64>) {
    forall i | log.snapshot.index <= i <= log.lastIndex :: i < |terms| && Term(log, i) == Ok(terms[i])
  }

  lemma GrowKeepsTerms(log: Log, terms: seq<u64>, es: seq<Entry>)
    requires TermFaithful(log, terms) && LegalEvent(log, terms, Grow(es)) && es != []
    ensures TermFaithful(Append(log, es), NextTerms(terms, Grow(es)))
  {
    AppendKeepsSuffix(log, es);
    OverlayOfRun(log.entries, log.lastIndex, es);
    var after, terms' := Append(log, es), NextTerms(terms, Grow(es));
    forall i | after.snapshot.index <= i < |terms'| ensures Term(after, i) == Ok(terms'[i]) {
      assert i < es[0].index ==> Term(log, i) == Ok(terms[i]);
    }
  }

  lemma EventKeepsTerms(log: Log, terms: seq<u64>, ev: LogEvent)
    requires TermFaithful(log, terms) && LegalEvent(log, terms, ev)
    ensures TermFaithful(NextLog(log, ev), NextTerms(terms, ev))
  {
    match ev
    case Grow(es) =>
      if es != [] {
        GrowKeepsTerms(log, terms, es);
      }
    case Snap(applied, data, at, term) =>
      SnapshotKeepsSuffix(log, applied, data, at, term);
      var after := NextLog(log, ev);
      forall i | at <= i < |terms| ensures Term(after, i) == Ok(terms[i]) {
        assert Term(log, i) == Ok(terms[i]);
      }
    case Receive(snapshot, history) =>
  }

  ghost predicate LegalRun(log: Log, terms: seq<u64>, evs: seq<LogEvent>)
    decreases |evs|
  {
    evs == [] ||
    (LegalEvent(log, terms, evs[0]) && LegalRun(NextLog(log, evs[0]), NextTerms(terms, evs[0]), evs[1..]))
  }

  ghost function RunLog(log: Log, evs: seq<LogEvent>): Log
    decreases |evs|
  {
    if evs == [] then log else RunLog(NextLog(log, evs[0]), evs[1..])
  }

  ghost function RunTerms(terms: seq<u64>, evs: seq<LogEvent>): seq<u64>
    decreases |evs|
  {
    if evs == [] then terms else RunTerms(NextTerms(terms, evs[0]), evs[1..])
  }

  // The store `bootstrap` makes of an empty one.
  function Bootstrapped(confState: ConfState): Log {
    ApplySnapshot(EMPTY_LOG, NO_SNAPSHOT.(confState := confState))
  }

  lemma BootstrappedStore(confState: ConfState)
    ensures var log := Bootstrapped(confState);
      Joined(log, []) && TermFaithful(log, [0]) && SuffixComplete(log)
  {
  }

  // Gapless appends, snapshots that compact no further than their own index, and installed
  // snapshots of any index: entries that an earlier log left behind do no harm.
  ghost predicate SuffixSafe(log: Log, ev: LogEvent) {
    match ev
    case Grow(es) => Consecutive(es) && !LeavesGap(log, es)
    case Snap(applied, _, at, _) =>
      log.snapshot.index <= at <= log.lastIndex && (Reach(applied) <= at + 1 || at == log.lastIndex)
    case Receive(_, _) => true
  }

  ghost predicate SuffixSafeRun(log: Log, evs: seq<LogEvent>)
    decreases |evs|
  {
    evs == [] || (SuffixSafe(log, evs[0]) && SuffixSafeRun(NextLog(log, evs[0]), evs[1..]))
  }

  lemma {:induction false} RunKeepsSuffix(log: Log, evs: seq<LogEvent>)
    requires SuffixComplete(log) && SuffixSafeRun(log, evs)
    ensures SuffixComplete(RunLog(log, evs))
    decreases |evs|
  {
    if evs != [] {
      match evs[0] {
        case Grow(es) => AppendKeepsSuffix(log, es);
        case Snap(applied, data, at, term) => SnapshotKeepsSuffix(log, applied, data, at, term);
        case Receive(_, _) =>
      }
      RunKeepsSuffix(NextLog(log, evs[0]), evs[1..]);
    }
  }

  // On every run from bootstrap nothing above the snapshot is missing.
  lemma SuffixOnEveryRun(confState: ConfState, evs: seq<LogEvent>)
    requires SuffixSafeRun(Bootstrapped(confState), evs)
    ensures SuffixComplete(RunLog(Bootstrapped(confState), evs))
  {
    BootstrappedStore(confState);
    RunKeepsSuffix(Bootstrapped(confState), evs);
  }

  lemma {:induction false} RunKeepsTerms(log: Log, terms: seq<u64>, evs: seq<LogEvent>)
    requires TermFaithful(log, terms) && LegalRun(log, terms, evs)
    ensures TermFaithful(RunLog(log, evs), RunTerms(terms, evs))
    decreases |evs|
  {
    if evs != [] {
      EventKeepsTerms(log, terms, evs[0]);
      RunKeepsTerms(NextLog(log, evs[0]), NextTerms(terms, evs[0]), evs[1..]);
    }
  }

  // The index written last, and the highest one written since the last installed snapshot.
  datatype Marks = Marks(written: nat, highest: nat)

  function NextMarks(m: Marks, ev: LogEvent): Marks {
    match ev
    case Grow(es) =>
      if es == [] then m
      else
        var last := es[|es| - 1].index;
        Marks(last, if m.highest < last then last else m.highest)
    case Snap(_, _, _, _) => m
    case Receive(snapshot, _) => Marks(snapshot.index, snapshot.index)
  }

  function RunMarks(m: Marks, evs: seq<LogEvent>): Marks
    decreases |evs|
  {
    if evs == [] then m else RunMarks(NextMarks(m, evs[0]), evs[1..])
  }

  lemma {:induction false} MarksFollow(log: Log, terms: seq<u64>, evs: seq<LogEvent>, m: Marks)
    requires TermFaithful(log, terms) && LegalRun(log, terms, evs)
    requires m == Marks(|terms| - 1, log.lastIndex)
    ensures RunMarks(m, evs).written + 1 == |RunTerms(terms, evs)|
    ensures RunMarks(m, evs).highest == RunLog(log, evs).lastIndex
    decreases |evs|
  {
    if evs != [] {
      EventKeepsTerms(log, terms, evs[0]);
      if evs[0].Grow? && evs[0].entries != [] {
        OverlayOfRun(log.entries, log.lastIndex, evs[0].entries);
      }
      MarksFollow(NextLog(log, evs[0]), NextTerms(terms, evs[0]), evs[1..], NextMarks(m, evs[0]));
    }
  }

  // On every run from bootstrap, term lookups from the snapshot to the end of the core's log
  // give the core's terms, and everything else below the first index is reported compacted.
  // They do so up to the stored last index exactly when the index written last is the highest
  // one written since the last installed snapshot.
  lemma TermsOnEveryRun(confState: ConfState, evs: seq<LogEvent>)
    requires LegalRun(Bootstrapped(confState), [0], evs)
    ensures var log, terms, marks := RunLog(Bootstrapped(confState), evs), RunTerms([0], evs), RunMarks(Marks(0, 0), evs);
      && TermFaithful(log, terms)
      && (forall i: nat | i < FirstIndex(log) && i != log.snapshot.index :: Term(log, i) == Err(Compacted))
      && (FaithfulThroughout(log, terms) <==> marks.written == marks.highest)
  {
    BootstrappedStore(confState);
    RunKeepsTerms(Bootstrapped(confState), [0], evs);
    MarksFollow(Bootstrapped(confState), [0], evs, Marks(0, 0));
    var log, terms := RunLog(Bootstrapped(confState), evs), RunTerms([0], evs);
    if FaithfulThroughout(log, terms) {
      var top := Term(log, log.lastIndex);
      assert log.lastIndex < |terms|;
    }
  }

  // The archive of compacted entries.

  // Each compaction also finds the file within its threshold or not.
  datatype ArchiveEvent = Put(entries: seq<Entry>) | Cut(index: nat, overThreshold: bool)

  ghost predicate LegalArchiveEvent(log: Log, ev: ArchiveEvent) {
    match ev
    case Put(es) => InRangeBatch(log, es)
    case Cut(index, _) => index <= log.lastIndex
  }

  ghost function NextStored(log: Log, ev: ArchiveEvent): Log {
    match ev
    case Put(es) => Append(log, es)
    case Cut(index, _) => Compact(log, index)
  }

  ghost function NextArchive(log: Log, archive: seq<Entry>, ev: ArchiveEvent): seq<Entry> {
    match ev
    case Put(_) => archive
    case Cut(index, over) => SaveCompacted(archive, Slice(log.entries, 0, Reach(index)), over)
  }

  // The archive ends where the stored log begins.
  ghost predicate Joined(log: Log, archive: seq<Entry>) {
    && Contiguous(log)
    && Consecutive(archive)
    && (archive != [] ==> log.entries != map[] && archive[0].index + |archive| == FirstIndex(log))
  }

  lemma AllEntriesOfContiguous(log: Log)
    requires Contiguous(log)
    ensures |AllEntries(log)| == log.lastIndex + 1 - FirstIndex(log)
    ensures forall k | 0 <= k < |AllEntries(log)| :: AllEntries(log)[k].index == FirstIndex(log) + k
  {
    var f, top := FirstIndex(log), log.lastIndex + 1;
    AllEntriesIsSlice(log, top);
    SliceSplit(log.entries, 0, f, top);
    SliceOfMissing(log.entries, 0, f);
    SliceOfPresent(log.entries, f, top);
  }

  // Compaction moves entries from the log to the archive without loss or reordering; an
  // archive that has outgrown its threshold is dropped first.
  lemma CompactionConserves(log: Log, archive: seq<Entry>, index: nat, over: bool)
    ensures NextArchive(log, archive, Cut(index, over)) + AllEntries(NextStored(log, Cut(index, over)))
         == (if over then [] else archive) + AllEntries(log)
  {
    var after := Compact(log, index);
    var low, top := Reach(index), Above(log.entries.Keys) + Reach(index);
    AllEntriesIsSlice(log, top);
    AllEntriesIsSlice(after, top);
    SliceSplit(log.entries, 0, low, top);
    SliceSplit(after.entries, 0, low, top);
    SliceOfMissing(after.entries, 0, low);
    SliceAgrees(log.entries, after.entries, low, top);
  }

  lemma ArchiveStep(log: Log, archive: seq<Entry>, ev: ArchiveEvent)
    requires Joined(log, archive) && LegalArchiveEvent(log, ev)
    ensures Joined(NextStored(log, ev), NextArchive(log, archive, ev))
    ensures FirstIndex(log) <= FirstIndex(NextStored(log, ev))
  {
    match ev
    case Put(es) =>
      AppendStaysContiguous(log, es);
    case Cut(cut, _) =>
      var f, index, after := FirstIndex(log), Reach(cut), Compact(log, cut);
      if f < index {
        FirstIndexIs(after, index);
        SliceSplit(log.entries, 0, f, index);
        SliceOfMissing(log.entries, 0, f);
        SliceOfPresent(log.entries, f, index);
      } else {
        SliceOfMissing(log.entries, 0, index);
        assert after.entries == log.entries;
      }
  }

  ghost predicate LegalArchiveRun(log: Log, evs: seq<ArchiveEvent>)
    decreases |evs|
  {
    evs == [] || (LegalArchiveEvent(log, evs[0]) && LegalArchiveRun(NextStored(log, evs[0]), evs[1..]))
  }

  ghost function RunStored(log: Log, evs: seq<ArchiveEvent>): Log
    decreases |evs|
  {
    if evs == [] then log else RunStored(NextStored(log, evs[0]), evs[1..])
  }

  ghost function RunArchive(log: Log, archive: seq<Entry>, evs: seq<ArchiveEvent>): seq<Entry>
    decreases |evs|
  {
    if evs == [] then archive
    else RunArchive(NextStored(log, evs[0]), NextArchive(log, archive, evs[0]), evs[1..])
  }

  lemma {:induction false} RunKeepsArchive(log: Log, archive: seq<Entry>, evs: seq<ArchiveEvent>)
    requires Joined(log, archive) && LegalArchiveRun(log, evs)
    ensures FirstIndex(log) <= FirstIndex(RunStored(log, evs))
    ensures Joined(RunStored(log, evs), RunArchive(log, archive, evs))
    decreases |evs|
  {
    if evs != [] {
      ArchiveStep(log, archive, evs[0]);
      RunKeepsArchive(NextStored(log, evs[0]), NextArchive(log, archive, evs[0]), evs[1..]);
    }
  }

  lemma {:induction false} RunsCompose(log: Log, evs: seq<ArchiveEvent>, more: seq<ArchiveEvent>)
    ensures RunStored(log, evs + more) == RunStored(RunStored(log, evs), more)
    ensures LegalArchiveRun(log, evs + more) <==> LegalArchiveRun(log, evs) && LegalArchiveRun(RunStored(log, evs), more)
    decreases |evs|
  {
    if evs == [] {
      assert evs + more == more;
    } else {
      assert (evs + more)[1..] == evs[1..] + more;
      RunsCompose(NextStored(log, evs[0]), evs[1..], more);
    }
  }

  // On every run of in-range appends and compactions from a snapshot on an empty store, as at
  // bootstrap or on a joining node: the archive followed by the stored log is one gapless run
  // of indices up to the last, and the first index never goes down, however the run goes on.
  lemma ArchiveOnEveryRun(log: Log, snapshot: Snapshot, evs: seq<ArchiveEvent>, more: seq<ArchiveEvent>)
    requires log.entries == map[] && LegalArchiveRun(ApplySnapshot(log, snapshot), evs + more)
    ensures var start := ApplySnapshot(log, snapshot);
      && Joined(RunStored(start, evs), RunArchive(start, [], evs))
      && Consecutive(RunArchive(start, [], evs) + AllEntries(RunStored(start, evs)))
      && snapshot.index < FirstIndex(RunStored(start, evs)) <= FirstIndex(RunStored(start, evs + more))
  {
    var start := ApplySnapshot(log, snapshot);
    InstallOnEmpty(log, snapshot);
    RunsCompose(start, evs, more);
    RunKeepsArchive(start, [], evs);
    RunKeepsArchive(RunStored(start, evs), RunArchive(start, [], evs), more);
    AllEntriesOfContiguous(RunStored(start, evs));
  }
}
