// The Heed (LMDB) back end: an ordered map of entries and a metadata table behind
// transactions.  A write transaction works on a copy; only its commit reaches `db`.
module HeedStore {
  import opened Wrappers
  import ByteOrder
  import opened KeyCodec
  import opened RaftTypes
  import opened RaftLog
  import opened KeyedStore

  datatype HeedDb = HeedDb(
    entries: map<string, Entry>,
    hardState: Option<HardState>,
    confState: Option<ConfState>,
    lastIndex: Option<u64>,
    snapshot: Option<Snapshot>)

  function OrElse<T>(o: Option<T>, default: T): T {
    match o
    case Some(v) => v
    case None => default
  }

  // What `HeedEntryKeyString` stores an item under: the formatter, applied to the item's text.
  function BytesEncode(item: string): string
    requires FormatEntryKeyString(item).Some?
  {
    FormatEntryKeyString(item).value
  }

  lemma EncodeOfIndex(i: u64)
    ensures FormatEntryKeyString(Decimal(i)).Some?
    ensures BytesEncode(Decimal(i)) == EntryKey(i)
    ensures FormatEntryKeyString(EntryKey(i)).Some?
    ensures BytesEncode(EntryKey(i)) == EntryKey(i)
  {
    FormatOfDecimal(i);
    FormatIdempotent(Decimal(i));
  }

  // The log a database holds.
  ghost function LogOf(db: HeedDb): Log {
    Log(
      View(db.entries),
      OrElse(db.lastIndex, 0),
      OrElse(db.snapshot, NO_SNAPSHOT),
      OrElse(db.hardState, NO_HARD_STATE),
      OrElse(db.confState, NO_CONF))
  }

  class HeedStorage {
    var db: HeedDb
    var archive: seq<Entry>
    const saveCompactedLogs: bool

    ghost predicate Valid()
      reads this
    {
      WellKeyed(db.entries)
    }

    // The log this store holds.
    ghost function Log(): Log
      reads this
    {
      LogOf(db)
    }

    constructor (saveCompactedLogs: bool)
      ensures Valid() && Log() == EMPTY_LOG && archive == []
      ensures this.saveCompactedLogs == saveCompactedLogs
    {
      db := HeedDb(map[], None, None, None, None);
      archive := [];
      this.saveCompactedLogs := saveCompactedLogs;
      new;
      ViewEmpty(db.entries);
    }

    // Reads

    method FirstIndex() returns (index: nat)
      requires Valid()
      ensures index == RaftLog.FirstIndex(Log())
    {
      ViewEmpty(db.entries);
      if db.entries != map[] {
        var key := ByteOrder.FirstKey(db.entries.Keys);
        FirstKeyIsMin(db.entries);
        ParseAfterFormat(db.entries[key].index);
        index := ParseU64(key).value;
      } else {
        index := OrElse(db.snapshot, NO_SNAPSHOT).index + 1;
      }
    }

    method LastIndex() returns (index: u64)
      ensures index == Log().lastIndex
    {
      index := OrElse(db.lastIndex, 0);
    }

    method Snapshot() returns (snapshot: Snapshot)
      ensures snapshot == Log().snapshot
    {
      snapshot := OrElse(db.snapshot, NO_SNAPSHOT);
    }

    method HardState() returns (hardState: HardState)
      ensures hardState == Log().hardState
    {
      hardState := OrElse(db.hardState, NO_HARD_STATE);
    }

    method ConfState() returns (confState: ConfState)
      ensures confState == Log().confState
    {
      confState := OrElse(db.confState, NO_CONF);
    }

    method Entry(index: u64) returns (entry: Option<Entry>)
      requires Valid()
      ensures entry == if index as nat in Log().entries then Some(Log().entries[index]) else None
    {
      EncodeOfIndex(index);
      LookupIsByIndex(db.entries, index);
      var key := BytesEncode(Decimal(index));
      entry := if key in db.entries then Some(db.entries[key]) else None;
    }

    method Term(index: u64) returns (term: Result<u64, StorageError>)
      requires Valid()
      ensures term == RaftLog.Term(Log(), index)
    {
      var firstIndex := FirstIndex();
      var snapshot := Snapshot();
      if snapshot.index == index {
        return Ok(snapshot.term);
      }
      var entry := Entry(index);
      match entry
      case Some(e) => term := Ok(e.term);
      case None => term := Err(if index < firstIndex then Compacted else Unavailable);
    }

    // A bound from 10^10 on cuts the scan where its key sorts, not where its index lies.
    method Entries(low: u64, high: u64) returns (entries: Result<seq<Entry>, StorageError>)
      requires Valid()
      ensures entries == if low < RaftLog.FirstIndex(Log()) then Err(Compacted)
                         else Ok(Slice(Log().entries, Reach(low), Reach(high)))
      ensures low < KEY_BOUND && high < KEY_BOUND ==> entries == RaftLog.Entries(Log(), low, high)
    {
      var firstIndex := FirstIndex();
      if low < firstIndex {
        return Err(Compacted);
      }
      EncodeOfIndex(low);
      EncodeOfIndex(high);
      var lowStr := FormatEntryKeyString(Decimal(low)).value;
      var highStr := FormatEntryKeyString(Decimal(high)).value;
      ScanIsSlice(db.entries, low, high);
      entries := Ok(ByteOrder.Scan(db.entries, BytesEncode(lowStr), BytesEncode(highStr)));
    }

    method AllEntries() returns (entries: seq<Entry>)
      requires Valid()
      ensures entries == RaftLog.AllEntries(Log())
    {
      ScanAllIsSlice(db.entries, Log());
      entries := ByteOrder.ScanAll(db.entries);
    }

    // Writes

    // ok is false when the logger's fatal message panics: the transaction is then abandoned.
    method Append(entries: seq<Entry>) returns (ok: bool)
      requires Valid() && forall e | e in entries :: e.index < KEY_BOUND
      modifies this`db
      ensures Valid()
      ensures ok == !(StartsCompacted(old(Log()), entries) || LeavesGap(old(Log()), entries))
      ensures Log() == if ok then RaftLog.Append(old(Log()), entries) else old(Log())
    {
      if |entries| == 0 {
        assert entries == [];
        return true;
      }
      var firstIndex := FirstIndex();
      if firstIndex > entries[0].index {
        return false;
      }
      var lastIndex := OrElse(db.lastIndex, 0);
      if lastIndex + 1 < entries[0].index {
        return false;
      }
      var writer := db;
      for n := 0 to |entries|
        invariant db == old(db) && WellKeyed(writer.entries)
        invariant View(writer.entries) == Overlay(View(db.entries), entries[..n])
        invariant lastIndex == LastAfter(Log().lastIndex, entries[..n])
        invariant writer == db.(entries := writer.entries)
      {
        var entry := entries[n];
        PutNext(writer.entries, View(db.entries), Log().lastIndex, entries, n);
        lastIndex := if lastIndex < entry.index then entry.index else lastIndex;
        EncodeOfIndex(entry.index);
        writer := writer.(entries := writer.entries[BytesEncode(Decimal(entry.index)) := entry]);
      }
      assert entries[..|entries|] == entries;
      writer := writer.(lastIndex := Some(lastIndex));
      db := writer;
      ok := true;
    }

    method Compact(index: u64, overThreshold: bool)
      requires Valid()
      modifies this
      ensures Valid()
      ensures Log() == RaftLog.Compact(old(Log()), index)
      ensures archive == if saveCompactedLogs
                         then SaveCompacted(old(archive), Slice(old(Log()).entries, 0, Reach(index)), overThreshold)
                         else old(archive)
    {
      EncodeOfIndex(index);
      var key := FormatEntryKeyString(Decimal(index)).value;
      if saveCompactedLogs {
        ScanBelowIsSlice(db.entries, index);
        var removed := ByteOrder.ScanBelow(db.entries, BytesEncode(key));
        archive := SaveCompacted(archive, removed, overThreshold);
      }
      var writer := db;
      ViewOfDeleteBelow(writer.entries, index);
      writer := writer.(entries := DeleteBelow(writer.entries, BytesEncode(key)));
      db := writer;
    }

    method CreateSnapshot(data: Bytes, index: u64, term: u64)
      requires Valid()
      modifies this`db
      ensures Valid()
      ensures Log() == RaftLog.CreateSnapshot(old(Log()), data, index, term)
    {
      var writer := db;
      var confState := OrElse(writer.confState, NO_CONF);
      writer := writer.(snapshot := Some(RaftTypes.Snapshot(data, index, term, confState)));
      db := writer;
    }

    method ApplySnapshot(snapshot: Snapshot)
      requires Valid()
      modifies this`db
      ensures Valid()
      ensures Log() == RaftLog.ApplySnapshot(old(Log()), snapshot)
    {
      var writer := db;
      var hardState := OrElse(writer.hardState, NO_HARD_STATE);
      hardState := hardState.(term := if hardState.term < snapshot.term then snapshot.term else hardState.term);
      hardState := hardState.(commit := snapshot.index);
      writer := writer.(hardState := Some(hardState));
      writer := writer.(confState := Some(snapshot.confState));
      writer := writer.(lastIndex := Some(snapshot.index));
      writer := writer.(snapshot := Some(snapshot));
      db := writer;
    }

    method SetHardState(hardState: HardState)
      requires Valid()
      modifies this`db
      ensures Valid()
      ensures Log() == RaftLog.SetHardState(old(Log()), hardState)
    {
      var writer := db;
      writer := writer.(hardState := Some(hardState));
      db := writer;
    }

    // The write transaction is dropped without a commit, so nothing changes.
    method SetHardStateCommit(commit: u64)
      requires Valid()
      modifies this`db
      ensures Valid()
      ensures Log() == old(Log())
    {
      var hardState := OrElse(db.hardState, NO_HARD_STATE);
      hardState := hardState.(commit := commit);
      var writer := db;
      writer := writer.(hardState := Some(hardState));
    }

    method SetConfState(confState: ConfState)
      requires Valid()
      modifies this`db
      ensures Valid()
      ensures Log() == RaftLog.SetConfState(old(Log()), confState)
    {
      var writer := db;
      writer := writer.(confState := Some(confState));
      db := writer;
    }
  }
}
