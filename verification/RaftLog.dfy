// The log store as the consensus core sees it: entries by index, a last index kept apart
// from them, and the metadata.  Both back ends are proved to implement this machine.
module RaftLog {
  import opened Wrappers
  import opened KeyCodec
  import opened RaftTypes

  datatype StorageError = Compacted | Unavailable

  datatype Log = Log(
    entries: map<nat, Entry>,
    lastIndex: u64,
    snapshot: Snapshot,
    hardState: HardState,
    confState: ConfState)

  datatype Backend = Heed | RocksDb

  const EMPTY_LOG := Log(map[], 0, NO_SNAPSHOT, NO_HARD_STATE, NO_CONF)

  // The entries with low <= index < high that are present, in index order.
  function Slice(m: map<nat, Entry>, low: nat, high: nat): seq<Entry>
    decreases high
  {
    if low >= high then []
    else Slice(m, low, high - 1) + if high - 1 in m then [m[high - 1]] else []
  }

  ghost predicate IsMin(i: nat, s: set<nat>) {
    i in s && forall j | j in s :: i <= j
  }

  lemma {:induction false} MinExists(s: set<nat>)
    requires s != {}
    ensures exists i :: IsMin(i, s)
  {
    var x :| x in s;
    if s == {x} {
      assert IsMin(x, s);
    } else {
      MinExists(s - {x});
      var i :| IsMin(i, s - {x});
      assert forall j | j in s :: j == x || j in s - {x};
      assert IsMin(if x < i then x else i, s);
    }
  }

  ghost function Min(s: set<nat>): (i: nat)
    requires s != {}
    ensures IsMin(i, s)
  {
    MinExists(s);
    var i :| IsMin(i, s);
    i
  }

  // An index above every index in the set.
  ghost function Above(s: set<nat>): (c: nat)
    ensures forall i | i in s :: i < c
  {
    if s == {} then 0
    else
      var x :| x in s;
      assert forall i | i in s :: i == x || i in s - {x};
      var c := Above(s - {x});
      if x < c then c else x + 1
  }

  ghost function FirstIndex(log: Log): nat {
    if log.entries == map[] then log.snapshot.index + 1 else Min(log.entries.Keys)
  }

  ghost function Term(log: Log, i: nat): Result<u64, StorageError> {
    if log.snapshot.index == i then Ok(log.snapshot.term)
    else if i in log.entries then Ok(log.entries[i].term)
    else if i < FirstIndex(log) then Err(Compacted)
    else Err(Unavailable)
  }

  ghost function Entries(log: Log, low: nat, high: nat): Result<seq<Entry>, StorageError> {
    if low < FirstIndex(log) then Err(Compacted) else Ok(Slice(log.entries, low, high))
  }

  ghost function AllEntries(log: Log): seq<Entry> {
    Slice(log.entries, 0, Above(log.entries.Keys))
  }

  // The entries put one after the other over what is stored.
  function Overlay(m: map<nat, Entry>, es: seq<Entry>): map<nat, Entry> {
    if es == [] then m
    else Overlay(m, es[..|es| - 1])[es[|es| - 1].index := es[|es| - 1]]
  }

  function LastAfter(last: u64, es: seq<Entry>): u64 {
    if es == [] then last
    else
      var before := LastAfter(last, es[..|es| - 1]);
      var i := es[|es| - 1].index;
      if before < i then i else before
  }

  // The batch would leave a gap above the last index: both back ends panic.
  predicate LeavesGap(log: Log, es: seq<Entry>) {
    es != [] && log.lastIndex + 1 < es[0].index
  }

  // The batch starts in the compacted part: only Heed panics.
  ghost predicate StartsCompacted(log: Log, es: seq<Entry>) {
    es != [] && es[0].index < FirstIndex(log)
  }

  // The batch is refused by the logger's fatal message, which panics.
  ghost predicate Refuses(b: Backend, log: Log, es: seq<Entry>) {
    LeavesGap(log, es) || (b.Heed? && StartsCompacted(log, es))
  }

  function Append(log: Log, es: seq<Entry>): Log {
    log.(entries := Overlay(log.entries, es), lastIndex := LastAfter(log.lastIndex, es))
  }

  function CompactEntries(m: map<nat, Entry>, index: nat): map<nat, Entry> {
    map i | i in m && index <= i :: m[i]
  }

  // Compaction removes what sorts before the key of the index.
  function Compact(log: Log, index: nat): Log {
    log.(entries := CompactEntries(log.entries, Reach(index)))
  }

  // The file of compacted entries: dropped first when it has outgrown its threshold.
  function SaveCompacted(archive: seq<Entry>, removed: seq<Entry>, overThreshold: bool): seq<Entry> {
    (if overThreshold then [] else archive) + removed
  }

  function CreateSnapshot(log: Log, data: Bytes, index: u64, term: u64): Log {
    log.(snapshot := Snapshot(data, index, term, log.confState))
  }

  function ApplySnapshot(log: Log, snapshot: Snapshot): Log {
    var term := if log.hardState.term < snapshot.term then snapshot.term else log.hardState.term;
    log.(
      hardState := log.hardState.(term := term, commit := snapshot.index),
      confState := snapshot.confState,
      lastIndex := snapshot.index,
      snapshot := snapshot)
  }

  function SetHardState(log: Log, hardState: HardState): Log {
    log.(hardState := hardState)
  }

  function SetHardStateCommit(log: Log, commit: u64): Log {
    log.(hardState := log.hardState.(commit := commit))
  }

  // What a separately set commit index leaves behind: Heed drops its transaction.
  function CommitAlone(b: Backend, log: Log, commit: u64): Log {
    if b.Heed? then log else SetHardStateCommit(log, commit)
  }

  function SetConfState(log: Log, confState: ConfState): Log {
    log.(confState := confState)
  }

  // Facts about slices.

  lemma {:induction false} SliceSplit(m: map<nat, Entry>, low: nat, mid: nat, high: nat)
    requires low <= mid <= high
    ensures Slice(m, low, high) == Slice(m, low, mid) + Slice(m, mid, high)
    decreases high
  {
    if mid < high {
      SliceSplit(m, low, mid, high - 1);
    }
  }

  lemma {:induction false} SliceAgrees(m: map<nat, Entry>, n: map<nat, Entry>, low: nat, high: nat)
    requires forall i | low <= i < high :: (i in m <==> i in n) && (i in m ==> m[i] == n[i])
    ensures Slice(m, low, high) == Slice(n, low, high)
    decreases high
  {
    if low < high {
      SliceAgrees(m, n, low, high - 1);
    }
  }

  lemma {:induction false} SliceOfMissing(m: map<nat, Entry>, low: nat, high: nat)
    requires forall i | low <= i < high :: i !in m
    ensures Slice(m, low, high) == []
    decreases high
  {
    if low < high {
      SliceOfMissing(m, low, high - 1);
    }
  }

  // Where nothing is missing, a slice is the run of entries one after the other.
  lemma {:induction false} SliceOfPresent(m: map<nat, Entry>, low: nat, high: nat)
    requires low <= high && forall i | low <= i < high :: i in m
    ensures |Slice(m, low, high)| == high - low
    ensures forall k | 0 <= k < high - low :: Slice(m, low, high)[k] == m[low + k]
    decreases high
  {
    if low < high {
      SliceOfPresent(m, low, high - 1);
    }
  }

  // All entries are a slice up to any index above them all.
  lemma AllEntriesIsSlice(log: Log, high: nat)
    requires forall i | i in log.entries :: i < high
    ensures AllEntries(log) == Slice(log.entries, 0, high)
  {
    var c := Above(log.entries.Keys);
    if c <= high {
      SliceSplit(log.entries, 0, c, high);
      SliceOfMissing(log.entries, c, high);
    } else {
      SliceSplit(log.entries, 0, high, c);
      SliceOfMissing(log.entries, high, c);
    }
  }
}
