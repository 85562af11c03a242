// The RocksDB back end: two column families, every put immediately durable, point lookups
// instead of range scans, and the last index kept as decimal text.
module RocksDbStore {
  import opened Wrappers
  import ByteOrder
  import opened KeyCodec
  import opened RaftTypes
  import opened RaftLog
  import opened KeyedStore

  function DeleteRange(kv: map<string, Entry>, start: string, end: string): map<string, Entry> {
    map k | k in kv && !(ByteOrder.LessEq(start, k) && ByteOrder.Less(k, end)) :: kv[k]
  }

  // No key lies below the key of index zero, so the range starts at the beginning.
  lemma DeleteRangeFromZero(kv: map<string, Entry>, zero: nat, end: string)
    requires WellKeyed(kv) && zero == 0
    ensures DeleteRange(kv, EntryKey(zero), end) == DeleteBelow(kv, end)
  {
    forall k | k in kv ensures ByteOrder.LessEq(EntryKey(zero), k) {
      KeyOrder(zero, kv[k].index);
    }
  }

  class RocksDbStorage {
    // column family log_entries
    var entriesCf: map<string, Entry>
    // column family meta_data
    var hardStateCf: Option<HardState>
    var confStateCf: Option<ConfState>
    var lastIndexCf: Option<string>
    var snapshotCf: Option<Snapshot>

    ghost predicate Valid()
      reads this
    {
      && WellKeyed(entriesCf)
      && (lastIndexCf.Some? ==> ParseU64(lastIndexCf.value).Some?)
    }

    ghost function Log(): Log
      requires Valid()
      reads this
    {
      RaftLog.Log(
        View(entriesCf),
        match lastIndexCf { case Some(text) => ParseU64(text).value case None => 0 },
        match snapshotCf { case Some(s) => s case None => NO_SNAPSHOT },
        match hardStateCf { case Some(h) => h case None => NO_HARD_STATE },
        match confStateCf { case Some(c) => c case None => NO_CONF })
    }

    constructor ()
      ensures Valid() && Log() == EMPTY_LOG
    {
      entriesCf := map[];
      hardStateCf := None;
      confStateCf := None;
      lastIndexCf := None;
      snapshotCf := None;
      new;
      ViewEmpty(entriesCf);
    }

    // Reads

    method Snapshot() returns (snapshot: Snapshot)
      requires Valid()
      ensures snapshot == Log().snapshot
    {
      match snapshotCf
      case Some(s) => snapshot := s;
      case None => snapshot := NO_SNAPSHOT;
    }

    method HardState() returns (hardState: HardState)
      requires Valid()
      ensures hardState == Log().hardState
    {
      match hardStateCf
      case Some(h) => hardState := h;
      case None => hardState := NO_HARD_STATE;
    }

    method ConfState() returns (confState: ConfState)
      requires Valid()
      ensures confState == Log().confState
    {
      match confStateCf
      case Some(c) => confState := c;
      case None => confState := NO_CONF;
    }

    // The index is read from the first value, not from the first key.
    method FirstIndex() returns (index: nat)
      requires Valid()
      ensures index == RaftLog.FirstIndex(Log())
    {
      ViewEmpty(entriesCf);
      if entriesCf != map[] {
        FirstKeyIsMin(entriesCf);
        index := entriesCf[ByteOrder.FirstKey(entriesCf.Keys)].index;
      } else {
        var snapshot := Snapshot();
        index := snapshot.index + 1;
      }
    }

    method LastIndex() returns (index: u64)
      requires Valid()
      ensures index == Log().lastIndex
    {
      var text := match lastIndexCf { case Some(t) => t case None => "0" };
      assert ParseDigits("0"[..0]) == Some(0);
      index := ParseU64(text).value;
    }

    method Get(index: u64) returns (entry: Option<Entry>)
      requires Valid()
      ensures entry == if index as nat in Log().entries then Some(Log().entries[index]) else None
    {
      FormatOfDecimal(index);
      LookupIsByIndex(entriesCf, index);
      var key := FormatEntryKeyString(Decimal(index)).value;
      entry := if key in entriesCf then Some(entriesCf[key]) else None;
    }

    method Term(index: u64) returns (term: Result<u64, StorageError>)
      requires Valid()
      ensures term == RaftLog.Term(Log(), index)
    {
      var firstIndex := FirstIndex();
      var snapshot := Snapshot();
      if snapshot.index == index {
        return Ok(snapshot.term);
      }
      var entry := Get(index);
      match entry
      case Some(e) => term := Ok(e.term);
      case None => term := Err(if index < firstIndex then Compacted else Unavailable);
    }

    method Entries(low: u64, high: u64) returns (entries: Result<seq<Entry>, StorageError>)
      requires Valid()
      ensures entries == RaftLog.Entries(Log(), low, high)
    {
      var firstIndex := FirstIndex();
      if low < firstIndex {
        return Err(Compacted);
      }
      var found := [];
      var idx := low;
      while idx < high
        invariant low <= idx && (idx <= high || idx == low)
        invariant found == Slice(Log().entries, low, idx)
      {
        var entry := Get(idx);
        match entry {
          case Some(e) => found := found + [e];
          case None =>
        }
        idx := idx + 1;
      }
      entries := Ok(found);
    }

    method AllEntries() returns (entries: seq<Entry>)
      requires Valid()
      ensures entries == RaftLog.AllEntries(Log())
    {
      ScanAllIsSlice(entriesCf, Log());
      var listing := ByteOrder.ScanAll(entriesCf);
      entries := [];
      for n := 0 to |listing|
        invariant entries == listing[..n]
      {
        entries := entries + [listing[n]];
      }
    }

    // Writes

    method SetLastIndex(index: u64)
      requires Valid()
      modifies this`lastIndexCf
      ensures Valid() && Log() == old(Log()).(lastIndex := index)
    {
      ParseAfterFormat(index);
      lastIndexCf := Some(Decimal(index));
    }

    // ok is false when the logger's fatal message panics.  There is no check against the
    // first index here.
    method Append(entries: seq<Entry>) returns (ok: bool)
      requires Valid() && forall e | e in entries :: e.index < KEY_BOUND
      modifies this
      ensures Valid()
      ensures ok == !LeavesGap(old(Log()), entries)
      ensures Log() == if ok then RaftLog.Append(old(Log()), entries) else old(Log())
    {
      if |entries| == 0 {
        assert entries == [];
        return true;
      }
      var lastIndex := LastIndex();
      if lastIndex + 1 < entries[0].index {
        return false;
      }
      for n := 0 to |entries|
        invariant Valid()
        invariant View(entriesCf) == Overlay(old(Log()).entries, entries[..n])
        invariant lastIndex == LastAfter(old(Log()).lastIndex, entries[..n])
        invariant Log() == old(Log()).(entries := View(entriesCf))
      {
        var entry := entries[n];
        PutNext(entriesCf, old(Log()).entries, old(Log()).lastIndex, entries, n);
        lastIndex := if lastIndex < entry.index then entry.index else lastIndex;
        FormatOfDecimal(entry.index);
        entriesCf := entriesCf[FormatEntryKeyString(Decimal(entry.index)).value := entry];
      }
      assert entries[..|entries|] == entries;
      SetLastIndex(lastIndex);
      ok := true;
    }

    method Compact(index: u64)
      requires Valid()
      modifies this`entriesCf
      ensures Valid()
      ensures Log() == RaftLog.Compact(old(Log()), index)
    {
      FormatOfDecimal(0);
      FormatOfDecimal(index);
      var start := FormatEntryKeyString(Decimal(0)).value;
      var end := FormatEntryKeyString(Decimal(index)).value;
      DeleteRangeFromZero(entriesCf, 0, end);
      ViewOfDeleteBelow(entriesCf, index);
      entriesCf := DeleteRange(entriesCf, start, end);
    }

    method CreateSnapshot(data: Bytes, index: u64, term: u64)
      requires Valid()
      modifies this`snapshotCf
      ensures Valid()
      ensures Log() == RaftLog.CreateSnapshot(old(Log()), data, index, term)
    {
      var confState := ConfState();
      snapshotCf := Some(RaftTypes.Snapshot(data, index, term, confState));
    }

    method ApplySnapshot(snapshot: Snapshot)
      requires Valid()
      modifies this
      ensures Valid()
      ensures Log() == RaftLog.ApplySnapshot(old(Log()), snapshot)
    {
      var hardState := HardState();
      hardState := hardState.(term := if hardState.term < snapshot.term then snapshot.term else hardState.term);
      hardState := hardState.(commit := snapshot.index);
      hardStateCf := Some(hardState);
      confStateCf := Some(snapshot.confState);
      SetLastIndex(snapshot.index);
      snapshotCf := Some(snapshot);
    }

    method SetHardState(hardState: HardState)
      requires Valid()
      modifies this`hardStateCf
      ensures Valid()
      ensures Log() == RaftLog.SetHardState(old(Log()), hardState)
    {
      hardStateCf := Some(hardState);
    }

    method SetHardStateCommit(commit: u64)
      requires Valid()
      modifies this`hardStateCf
      ensures Valid()
      ensures Log() == RaftLog.SetHardStateCommit(old(Log()), commit)
    {
      var hardState := HardState();
      hardState := hardState.(commit := commit);
      SetHardState(hardState);
    }

    method SetConfState(confState: ConfState)
      requires Valid()
      modifies this`confStateCf
      ensures Valid()
      ensures Log() == RaftLog.SetConfState(old(Log()), confState)
    {
      confStateCf := Some(confState);
    }
  }
}
