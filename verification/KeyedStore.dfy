// How a byte-ordered key/value map holds a log: each entry under the key of its index.
module KeyedStore {
  import opened ByteOrder
  import opened KeyCodec
  import opened RaftTypes
  import opened RaftLog

  ghost predicate WellKeyed(kv: map<string, Entry>) {
    forall k | k in kv :: kv[k].index < KEY_BOUND && k == EntryKey(kv[k].index)
  }

  // The log a key/value map stands for.
  ghost function View(kv: map<string, Entry>): map<nat, Entry> {
    map i: nat | i < KEY_BOUND && EntryKey(i) in kv :: kv[EntryKey(i)]
  }

  lemma ViewKey(kv: map<string, Entry>, k: string)
    requires WellKeyed(kv) && k in kv
    ensures kv[k].index in View(kv) && View(kv)[kv[k].index] == kv[k]
  {
  }

  // A point lookup finds what the log has at the index, for indices beyond the bound as well.
  lemma LookupIsByIndex(kv: map<string, Entry>, i: u64)
    requires WellKeyed(kv)
    ensures EntryKey(i) in kv <==> i as nat in View(kv)
  {
    if EntryKey(i) in kv {
      EntryKeyInjective(i, kv[EntryKey(i)].index);
    }
  }

  lemma ViewOfPut(kv: map<string, Entry>, e: Entry)
    requires WellKeyed(kv) && e.index < KEY_BOUND
    ensures WellKeyed(kv[EntryKey(e.index) := e])
    ensures View(kv[EntryKey(e.index) := e]) == View(kv)[e.index as nat := e]
  {
    var kv' := kv[EntryKey(e.index) := e];
    forall i: nat ensures i in View(kv') <==> i in View(kv)[e.index as nat := e] {
      if i < KEY_BOUND {
        EntryKeyInjective(i, e.index);
      }
    }
    forall i | i in View(kv') ensures View(kv')[i] == View(kv)[e.index as nat := e][i] {
      EntryKeyInjective(i, e.index);
    }
  }

  // One more entry of a batch.
  lemma PutNext(kv: map<string, Entry>, m: map<nat, Entry>, last: u64, es: seq<Entry>, n: nat)
    requires n < |es| && es[n].index < KEY_BOUND
    requires WellKeyed(kv) && View(kv) == Overlay(m, es[..n])
    ensures WellKeyed(kv[EntryKey(es[n].index) := es[n]])
    ensures View(kv[EntryKey(es[n].index) := es[n]]) == Overlay(m, es[..n + 1])
    ensures var before := LastAfter(last, es[..n]);
      LastAfter(last, es[..n + 1]) == if before < es[n].index then es[n].index else before
  {
    assert es[..n + 1][..n] == es[..n];
    ViewOfPut(kv, es[n]);
  }

  function DeleteBelow(kv: map<string, Entry>, key: string): map<string, Entry> {
    map k | k in kv && !Less(k, key) :: kv[k]
  }

  // Deleting the keys below a key is deleting the entries below its index, or, where key
  // order no longer is index order, below what the key reaches.
  lemma ViewOfDeleteBelow(kv: map<string, Entry>, index: nat)
    requires WellKeyed(kv)
    ensures WellKeyed(DeleteBelow(kv, EntryKey(index)))
    ensures View(DeleteBelow(kv, EntryKey(index))) == CompactEntries(View(kv), Reach(index))
  {
    var rest := DeleteBelow(kv, EntryKey(index));
    var a, b := View(rest), CompactEntries(View(kv), Reach(index));
    forall i: nat ensures i in a <==> i in b {
      if i < KEY_BOUND {
        ReachMeaning(i, index);
      }
    }
    assert forall i | i in a :: a[i] == b[i];
  }

  // The keys present among low <= index < high, one index at a time.
  ghost function PresentKeys(kv: map<string, Entry>, low: nat, high: nat): seq<string>
    decreases high
  {
    if low >= high then []
    else PresentKeys(kv, low, high - 1) + if EntryKey(high - 1) in kv then [EntryKey(high - 1)] else []
  }

  lemma {:induction false} PresentKeysAre(kv: map<string, Entry>, low: nat, high: nat)
    requires WellKeyed(kv) && high <= KEY_BOUND
    ensures forall k :: k in PresentKeys(kv, low, high) <==> k in kv && low <= kv[k].index < high
    ensures Ascending(PresentKeys(kv, low, high))
    decreases high
  {
    if low < high {
      PresentKeysAre(kv, low, high - 1);
      var before, last := PresentKeys(kv, low, high - 1), EntryKey(high - 1);
      forall k | k in kv ensures kv[k].index == high - 1 <==> k == last {
        EntryKeyInjective(kv[k].index, high - 1);
      }
      forall k | k in before ensures Less(k, last) {
        KeyOrder(kv[k].index, high - 1);
      }
    }
  }

  lemma {:induction false} ValuesAtPresentKeys(kv: map<string, Entry>, low: nat, high: nat)
    requires WellKeyed(kv) && high <= KEY_BOUND
    requires forall k | k in PresentKeys(kv, low, high) :: k in kv
    ensures ValuesAt(kv, PresentKeys(kv, low, high)) == Slice(View(kv), low, high)
    decreases high
  {
    if low < high {
      PresentKeysAre(kv, low, high - 1);
      ValuesAtPresentKeys(kv, low, high - 1);
    }
  }

  // Whatever way a set of keys was selected, listing it in key order is a slice of the log.
  lemma ListingIsSlice(kv: map<string, Entry>, keys: set<string>, low: nat, high: nat)
    requires WellKeyed(kv) && high <= KEY_BOUND
    requires forall k :: k in keys <==> k in kv && low <= kv[k].index < high
    ensures ValuesAt(kv, SortedKeys(keys)) == Slice(View(kv), low, high)
  {
    PresentKeysAre(kv, low, high);
    SortedKeysAscending(keys);
    AscendingUnique(SortedKeys(keys), PresentKeys(kv, low, high));
    ValuesAtPresentKeys(kv, low, high);
  }

  // The byte-ordered range scan between two formatted bounds is the slice between the indices.
  lemma ScanIsSlice(kv: map<string, Entry>, low: nat, high: nat)
    requires WellKeyed(kv)
    ensures Scan(kv, EntryKey(low), EntryKey(high)) == Slice(View(kv), Reach(low), Reach(high))
  {
    var keys := set k | k in kv && LessEq(EntryKey(low), k) && Less(k, EntryKey(high));
    forall k ensures k in keys <==> k in kv && Reach(low) <= kv[k].index < Reach(high) {
      if k in kv {
        ReachMeaning(kv[k].index, low);
        ReachMeaning(kv[k].index, high);
        LessTotal(k, EntryKey(low));
      }
    }
    ReachMeaning(0, high);
    ListingIsSlice(kv, keys, Reach(low), Reach(high));
  }

  lemma ScanBelowIsSlice(kv: map<string, Entry>, high: nat)
    requires WellKeyed(kv)
    ensures ScanBelow(kv, EntryKey(high)) == Slice(View(kv), 0, Reach(high))
  {
    var keys := set k | k in kv && Less(k, EntryKey(high));
    forall k ensures k in keys <==> k in kv && kv[k].index < Reach(high) {
      if k in kv {
        ReachMeaning(kv[k].index, high);
      }
    }
    ReachMeaning(0, high);
    ListingIsSlice(kv, keys, 0, Reach(high));
  }

  lemma ScanAllIsSlice(kv: map<string, Entry>, log: Log)
    requires WellKeyed(kv) && log.entries == View(kv)
    ensures ScanAll(kv) == AllEntries(log)
  {
    var high := KEY_BOUND;
    ListingIsSlice(kv, kv.Keys, 0, high);
    AllEntriesIsSlice(log, high);
  }

  // The first key in byte order holds the smallest index.
  lemma FirstKeyIsMin(kv: map<string, Entry>)
    requires WellKeyed(kv) && kv != map[]
    ensures View(kv) != map[]
    ensures FirstKey(kv.Keys) == EntryKey(Min(View(kv).Keys))
    ensures kv[FirstKey(kv.Keys)].index == Min(View(kv).Keys)
  {
    var k := FirstKey(kv.Keys);
    ViewKey(kv, k);
    var i := Min(View(kv).Keys);
    assert EntryKey(i) in kv.Keys;
    KeyOrder(i, kv[k].index);
    LessTotal(k, EntryKey(i));
  }

  lemma ViewEmpty(kv: map<string, Entry>)
    requires WellKeyed(kv)
    ensures View(kv) == map[] <==> kv == map[]
  {
    if kv != map[] {
      var k :| k in kv;
      ViewKey(kv, k);
    }
  }
}
