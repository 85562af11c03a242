# raftify, the driver half of Raft: a verified model

raftify wraps a consensus core and supplies everything around it: the durable log in a
byte-ordered key/value store, the loop that feeds committed entries to the application's state
machine, snapshots and log compaction, the peer table, and the matching of replies to waiting
requests. This project models those parts in Dafny and proves what they guarantee together.

The consensus core is an environment. It hands out Readies and decides configuration changes; the
contract it keeps is written down as a predicate (`ApplyLoop.CoreContract`): committed entries
come in order and once, are stored before they are handed out, and agree with one committed
history; new entries are consecutive, leave no gap and start above what was handed out; a snapshot
moves the node forward and comes without committed entries in the same Ready; the applied index
never passes what was handled. The application's state machine is a record of three functions
with `restore(snapshot(s)) = s` and non-empty snapshot bytes (`NodeSpec.Lawful`). Clocks, the
outcome of a configuration change and the size of the archive file are parameters.

## Layers

- `ByteOrder`, `KeyCodec`: byte order, and log indices as zero-padded decimal keys.
- `RaftLog`, `KeyedStore`: the store as the core sees it, and how a byte-ordered map holds it.
- `HeedStorage`, `RocksDbStorage`: the two back ends as classes, each proved to implement `RaftLog`.
- `BackendEquivalence`: equal runs of operations against both back ends.
- `LogProperties`: what the store operations keep and mean, over runs.
- `Membership`, `JoinPipeline`: the peer table, the change loop, id reservation, and the path of
  a configuration change from the joiner to the proposal.
- `NodeSpec`, `RaftNodeCore`: the node's handlers as functions on its state, and the class with
  mutable state that is proved against them.
- `ApplyLoop`, `ClusterRuns`: consistency of state machine, snapshot, configuration and log with
  the committed history, for one node and over runs of a whole cluster in which snapshots travel.
- `Requests`, `Replies`: request numbers and waiting senders over runs, and what the replies mean:
  with entries proposed anywhere, and where no entry of another node interferes.
- `NodeLaws`: what the handlers do, said without them: a reference fold over a run's events, when a
  node stops, what entries do to the peer table, who is registered or redirected, when snapshots
  are taken.
- `TickTimer`, `RunLoop`: the tick budget, and the run loop itself, message by message and Ready by
  Ready, with what the layers below promise about it.

## Findings

- Key order is numeric order exactly for indices below 10^10 (`KeyCodec.KeyOrderBoundIsTight`). A
  scan or a compaction with a bound from there on reaches only so far as its key sorts
  (`KeyCodec.ReachMeaning`).
- `append` does not truncate a stale tail. It is truncate-then-append exactly when the batch
  reaches the old last index (`LogProperties.AppendRefines`). Term lookups are right wherever the
  core's own log has the index; up to the stored last index they are right exactly when the index
  written last is the highest written since the last installed snapshot
  (`LogProperties.TermsOnEveryRun`).
- Heed drops the transaction of `set_hard_state_commit`; RocksDB writes it
  (`BackendEquivalence.CommitAloneIsLostByHeed`).
- Heed refuses an append below the first index, RocksDB accepts it. Heed reads a range by its keys,
  RocksDB index by index, so a bound from 10^10 on cuts the range in Heed only
  (`BackendEquivalence.WideScanIsCut`). With the lost commit these are the only differences in the
  answers of the back ends (`BackendEquivalence.FullAgreementExactly`).
- Both back ends refuse an append by the logger's `fatal`, which panics in the Rust loggers. The
  loggers of the Python binding return from it (binding/python/src/bindings/slogger.rs:107), and
  the append then goes through as if the check were not there. The model has the panic.
- `make_snapshot` compacts in one transaction and stores the snapshot in the next. The state
  between the two is complete only when compaction stays within one of the old snapshot's index
  (`LogProperties.CompactionAloneMayLoseEntries`).
- A snapshot requested at an index other than the last handled one (`CreateSnapshot` takes the
  last index) keeps the node consistent exactly when its term is that of the index, nothing
  effective lies between the two, the configuration at the index is the one in force, and every
  entry after it is kept (`ClusterRuns.SnapshotRequestExactly`). Across a configuration change its data may be
  true while its configuration is not (`ClusterRuns.SnapshotAcrossConfChange`); ahead of the state
  machine its data is not (`ClusterRuns.CreateSnapshotRunsAhead`).
- Two id requests from new addresses, answered before either join is applied, get the same id, and
  the join applied last takes the other's place (`Membership.EarlySecondReservation`).
- An entry with another node's number answers whoever waits under that number here
  (`Replies.ForeignEntryMisleads`). An answer is true exactly when the entry that caused it was
  proposed here (`Replies.AnswersTrueExactly`).
- A join the core refuses still enters the peer table and is answered with success
  (`Replies.RefusedJoinIsToldSuccess`).
- A proposal with empty data is committed and skipped, and one whose position an installed snapshot
  covers is never seen; the sender of either waits forever (`Replies.EmptyProposalWaits`,
  `Replies.SkippedProposalWaits`). All others, and only they, are answered once their entry is handed
  out (`Replies.AnsweredUnlessEmpty`).

## Model

| member | source | states |
|---|---|---|
| KeyCodec.ParseAfterFormat | raftify/src/storage/heed_storage/codec.rs:8-14 | parsing a formatted or plain index gives the index back, for every u64 |
| KeyCodec.FormatIdempotent | raftify/src/storage/heed_storage/mod.rs:444-447 | formatting a formatted key changes nothing, so Heed's double formatting of range bounds is harmless |
| KeyCodec.EntryKeyInjective | raftify/src/storage/rocksdb_storage/codec.rs:4-10 | different u64 indices have different keys |
| KeyCodec.EntryKeyLength | raftify/src/storage/heed_storage/constant.rs:6 | keys are exactly ten characters exactly below 10^10 |
| KeyCodec.KeyOrder | raftify/src/storage/heed_storage/codec.rs:8-27 | below 10^10 byte order on keys is numeric order on indices |
| KeyCodec.KeyOrderExact | raftify/src/storage/heed_storage/codec.rs:8-27 | for any two indices, exactly when byte order agrees with numeric order |
| KeyCodec.KeyOrderBoundIsTight | raftify/src/storage/heed_storage/constant.rs:6 | order is preserved on an initial range of indices if and only if the range ends by 10^10 |
| KeyCodec.ReachMeaning | raftify/src/storage/heed_storage/constant.rs:6 | for any bound, exactly which indices below 10^10 sort before its key |
| KeyedStore.ScanIsSlice | raftify/src/storage/heed_storage/mod.rs:433-459 | the byte-ordered scan between formatted bounds lists the entries between the indices, or between what the keys reach from 10^10 on |
| KeyedStore.ScanBelowIsSlice | raftify/src/storage/heed_storage/mod.rs:318-333 | the scan below a formatted index lists the entries that compaction removes |
| KeyedStore.FirstKeyIsMin | raftify/src/storage/heed_storage/mod.rs:418-427 | the first key in byte order holds the smallest index, read from the key or from the value |
| KeyedStore.LookupIsByIndex | raftify/src/storage/heed_storage/mod.rs:429-431 | a point lookup finds exactly what the log has at the index, for every u64 |
| KeyedStore.ViewOfDeleteBelow | raftify/src/storage/heed_storage/mod.rs:333 | deleting keys below a key deletes exactly the entries below its index, or below what it reaches from 10^10 on |
| RocksDbStore.DeleteRangeFromZero | raftify/src/storage/rocksdb_storage/mod.rs:330-336 | the range delete from the key of zero removes the same keys as one without a lower bound |
| HeedStore.HeedStorage.FirstIndex | raftify/src/storage/heed_storage/mod.rs:418-427 | smallest stored index, or snapshot index + 1 |
| HeedStore.HeedStorage.Term | raftify/src/storage/heed_storage/mod.rs:205-234 | snapshot term, entry term, Compacted or Unavailable, as the abstract log says |
| HeedStore.HeedStorage.Entries | raftify/src/storage/heed_storage/mod.rs:181-203 | Compacted below the first index, else the stored entries of the range in index order, for every u64 bound as far as its key reaches |
| HeedStore.HeedStorage.AllEntries | raftify/src/storage/heed_storage/mod.rs:461-470 | every stored entry in index order |
| HeedStore.HeedStorage.Append | raftify/src/storage/heed_storage/mod.rs:472-504 | panics exactly on a gap or a start below the first index, leaving the store alone; otherwise overrides point by point |
| HeedStore.HeedStorage.Compact | raftify/src/storage/heed_storage/mod.rs:312-335 | removes exactly the entries below the index, as far as its key reaches, and archives them in order |
| HeedStore.HeedStorage.CreateSnapshot | raftify/src/storage/heed_storage/mod.rs:108-124 | stores a snapshot with the current configuration, nothing else |
| HeedStore.HeedStorage.ApplySnapshot | raftify/src/storage/heed_storage/mod.rs:126-150 | resets snapshot, configuration, last index and hard state and leaves all entries |
| HeedStore.HeedStorage.SetHardStateCommit | raftify/src/storage/heed_storage/mod.rs:83-91 | durably nothing: the transaction is never committed |
| RocksDbStore.RocksDbStorage.FirstIndex | raftify/src/storage/rocksdb_storage/mod.rs:437-452 | same answer as Heed, read from the first value |
| RocksDbStore.RocksDbStorage.LastIndex | raftify/src/storage/rocksdb_storage/mod.rs:454-463 | the decimal text of the last index reads back |
| RocksDbStore.RocksDbStorage.Term | raftify/src/storage/rocksdb_storage/mod.rs:408-435 | same answer as Heed, by point lookup |
| RocksDbStore.RocksDbStorage.Entries | raftify/src/storage/rocksdb_storage/mod.rs:374-406 | the index-by-index loop that skips misses gives the same list as the range scan |
| RocksDbStore.RocksDbStorage.AllEntries | raftify/src/storage/rocksdb_storage/mod.rs:338-363 | every stored entry in index order |
| RocksDbStore.RocksDbStorage.Append | raftify/src/storage/rocksdb_storage/mod.rs:217-242 | panics exactly on a gap; otherwise overrides point by point, also below the first index |
| RocksDbStore.RocksDbStorage.Compact | raftify/src/storage/rocksdb_storage/mod.rs:330-336 | removes exactly the entries below the index, as far as its key reaches |
| RocksDbStore.RocksDbStorage.ApplySnapshot | raftify/src/storage/rocksdb_storage/mod.rs:315-328 | same new state as Heed |
| RocksDbStore.RocksDbStorage.SetHardStateCommit | raftify/src/storage/rocksdb_storage/mod.rs:75-81 | the commit index is durably stored |
| BackendEquivalence.BackendsAgreeExactly | raftify/src/storage/rocksdb_storage/mod.rs:217-242 | from empty stores any run whose appended indices are below 10^10 is answered alike, up to the commit index, if and only if no append starts below the first index without also leaving a gap and no range read with a bound from 10^10 on finds other entries by key than by index |
| BackendEquivalence.RunsAgreeFully | raftify/src/storage/heed_storage/mod.rs:400-504 | without separately set commits and split appends such runs end in the same log, and are answered alike in everything if and only if no range read is cut |
| BackendEquivalence.FullAgreementExactly | raftify/src/storage/heed_storage/mod.rs:83-91 | from empty stores such a run is answered alike in everything if and only if no append splits the back ends, no range read is cut, and the hard state is never asked for while a separately set commit differs from the stored one |
| BackendEquivalence.CommitAloneIsLostByHeed | raftify/src/storage/heed_storage/mod.rs:83-91 | the smallest such run: after setting the commit alone the hard states agree if and only if it was already the stored commit |
| BackendEquivalence.WideScanIsCut | raftify/src/storage/heed_storage/mod.rs:444-447 | a range read up to 10^10 finds an entry from 1000000001 on in RocksDB and misses it in Heed |
| BackendEquivalence.RunBoth | raftify/src/storage/mod.rs:24-37 | running the operations on an object of each back end gives exactly these agreements, for all bounds of reads and compactions |
| LogProperties.OverlayOfRun | raftify/src/storage/heed_storage/mod.rs:496-502 | a consecutive batch overrides its own indices, leaves all others, and last_index becomes the greater of the two |
| LogProperties.SliceMeaning | raftify/src/storage/rocksdb_storage/mod.rs:392-401 | a range read lists exactly the stored entries of the range, strictly ascending |
| LogProperties.SlicesEqualExactly | raftify/src/storage/rocksdb_storage/mod.rs:392-401 | two range reads list the same entries if and only if they hold the same stored indices |
| LogProperties.InstallOnEmpty | raftify/src/storage/heed_storage/mod.rs:418-427 | after a snapshot on a store without entries the log begins right after it: below Compacted, its own term, above Unavailable, and range reads Compacted exactly from at or below it |
| LogProperties.InstallMeaning | raftify/src/storage/heed_storage/mod.rs:126-150 | installing leaves all entries, takes the greater term and the snapshot's index as commit, and keeps the vote |
| LogProperties.ContiguousTerms | raftify/src/storage/rocksdb_storage/mod.rs:408-435 | in a contiguous log every term lookup: Compacted exactly below the first index, Unavailable exactly above the last |
| LogProperties.RefusalsExactly | raftify/src/storage/heed_storage/mod.rs:479-494 | an append is refused for a gap if and only if an index would be missing after it, and for starting compacted if and only if the log would begin lower |
| LogProperties.AppendKeepsSuffix | raftify/src/storage/heed_storage/mod.rs:472-504 | appending without a gap keeps every index above the snapshot stored |
| LogProperties.SuffixOnEveryRun | raftify/src/storage/heed_storage/mod.rs:126-150 | on every run from bootstrap of gapless appends, snapshots and installs nothing above the snapshot is missing, left-behind entries or not |
| LogProperties.SnapshotKeepsSuffix | raftify/src/raft_node/mod.rs:655-664 | compaction and snapshot together keep the suffix complete if and only if nothing above the new snapshot was compacted, as far as compaction reaches, and its index is within the log |
| LogProperties.CompactionAloneMayLoseEntries | raftify/src/raft_node/mod.rs:659-662 | between the two transactions the suffix is complete if and only if compaction stayed within one of the snapshot |
| LogProperties.AppendStaysContiguous | raftify/src/storage/heed_storage/mod.rs:472-504 | an in-range append keeps the stored indices gapless from the same first index |
| LogProperties.AppendRefines | raftify/src/storage/heed_storage/mod.rs:866-917 | append is truncate-then-append if and only if the batch reaches the old last index, and otherwise keeps exactly the old tail beside it |
| LogProperties.EventKeepsTerms | raftify/src/storage/heed_storage/mod.rs:205-234 | append, also of a batch that overwrites a longer suffix, compaction with snapshot, and install keep term lookups those of the core's log |
| LogProperties.TermsOnEveryRun | raftify/src/storage/rocksdb_storage/mod.rs:408-452 | on every run from bootstrap term(i) from the snapshot to the end of the core's log is its term, other indices below the first are Compacted, and this reaches the stored last index if and only if the index written last is the highest since the last install |
| LogProperties.CompactionConserves | raftify/src/storage/heed_storage/mod.rs:312-335 | archived entries followed by remaining ones are the previous entries in order, after the previous archive unless that had outgrown its threshold |
| LogProperties.ArchiveOnEveryRun | raftify/src/storage/heed_storage/mod.rs:506-525 | on every run from a snapshot on an empty store archive plus stored log is one gapless ascending run of indices, and first_index never decreases however the run goes on |
| Membership.NextId | raftify/src/peers.rs:142-147 | above every id in use, and one above one of them, or 1 |
| Membership.Peers.AddPeer | raftify/src/peers.rs:130-140 | inserts or replaces the peer, a voter when no role is given |
| Membership.Peers.Remove | raftify/src/peers.rs:126-128 | removes exactly that peer |
| Membership.Peers.ReserveId | raftify/src/peers.rs:142-147 | the next id |
| Membership.Peers.GetNodeIdByAddr | raftify/src/peers.rs:149-155 | some peer at the address, and None only when there is none |
| Membership.RequestId | raftify/src/raft_node/mod.rs:1292-1319 | a known address gets an id it has, a new one the next id |
| Membership.LoopMeaning | raftify/src/raft_node/mod.rs:853-892 | after the change loop each id is where the last change deciding about it puts it, others are untouched, and self-removal only asks to exit |
| Membership.LoopPanicsExactly | raftify/src/raft_node/mod.rs:850-871 | the loop panics if and only if an addition has no address at its position |
| Membership.ReservationsStayOneToOne | raftify/src/raft_node/mod.rs:1292-1319 | over all reservations, joins and removals, also a removal between a reservation and its join, one address has one id, a known address gets its own back, a new one gets an id above all |
| Membership.MoveKeepsOrder | raftify/src/raft_node/mod.rs:853-892 | each of these steps keeps the table one-to-one and the promised id and address together |
| Membership.EarlySecondReservation | raftify/src/raft_node/mod.rs:1295-1308 | two reservations without a join between them collide if and only if the addresses are equal or both new; after both joins the first address is gone from the table if and only if they collided and differ |
| JoinPipeline.BuildJoin | raftify/src/raft_node/mod.rs:745-770 | one AddNode and one address per ticket in order, explicit for more than one; fails exactly without tickets or on an unreadable address |
| JoinPipeline.WireReadsBack | raftify/src/request/common/confchange_request.rs:47-87 | request to wire message and back is the identity |
| JoinPipeline.PipelineExactly | raftify/src/request/common/confchange_request.rs:12-87 | what the leader proposes equals what was sent if and only if addresses match changes in number and the transition is explicit just for more than one |
| JoinPipeline.JoinArrives | raftify/src/raft_node/mod.rs:1246-1252 | a join reaches the leader's proposal unchanged |
| JoinPipeline.ProposedChangesApply | raftify/src/raft_node/mod.rs:1177-1196 | every change this code proposes with a request number has an address per change, so the loop never panics on it |
| RaftNodeCore.RaftNodeCore.constructor | raftify/src/raft_node/mod.rs:528-619 | a node booted on an empty store |
| RaftNodeCore.RaftNodeCore.MakeSnapshot | raftify/src/raft_node/mod.rs:655-664 | compaction at the applied index, then the snapshot of the live state machine |
| RaftNodeCore.RaftNodeCore.HandleCommittedNormalEntry | raftify/src/raft_node/mod.rs:794-826 | the specified new node state, with the error on an unreadable context before anything changes |
| RaftNodeCore.RaftNodeCore.ApplyPeerChanges | raftify/src/raft_node/mod.rs:853-892 | the loop over the peer table computes the specified table, exit flag and panic |
| RaftNodeCore.RaftNodeCore.ApplyConfChange | raftify/src/raft_node/mod.rs:894-906 | on success configuration, store and snapshot follow the change; on failure nothing does |
| RaftNodeCore.RaftNodeCore.RespondToConfChange | raftify/src/raft_node/mod.rs:908-946 | the waiting sender is removed and told joins or removals; mixed changes panic only when somebody waits |
| RaftNodeCore.RaftNodeCore.HandleCommittedConfigChangeEntry | raftify/src/raft_node/mod.rs:828-949 | the specified new node state on all branches |
| RaftNodeCore.RaftNodeCore.HandleCommittedEntries | raftify/src/raft_node/mod.rs:727-743 | entries in order, empty normal ones skipped, the first error ends it |
| RaftNodeCore.RaftNodeCore.OnReady | raftify/src/raft_node/mod.rs:1401-1457 | install, handle, append, hard state, advance, handle, in that order |
| RaftNodeCore.RaftNodeCore.HandleProposeRequest | raftify/src/raft_node/mod.rs:951-1009 | a leader registers the sender under a new number, others redirect or drop |
| RaftNodeCore.RaftNodeCore.HandleConfchangeRequest | raftify/src/raft_node/mod.rs:1011-1074 | the same, after rejecting when a change is pending |
| RaftNodeCore.RaftNodeCore.HandleRequestMsg | raftify/src/raft_node/mod.rs:1197-1204 | requests reach their handlers; a snapshot takes the caller's index and term, or the last index and the hard state's term |
| ApplyLoop.SnapshotKeepsGood | raftify/src/raft_node/mod.rs:655-664 | a snapshot, automatic or requested at any index it fits, keeps state machine, snapshot, configuration and log consistent |
| ApplyLoop.EntryKeepsGood | raftify/src/raft_node/mod.rs:727-743 | so does handling any committed entry |
| ApplyLoop.EntriesKeepGood | raftify/src/raft_node/mod.rs:727-743 | so does any batch handed out in order, and what is stored from the applied index on is untouched |
| ApplyLoop.StoreKeepsGood | raftify/src/raft_node/mod.rs:1425-1434 | so does storing a Ready's entries, which the store never refuses |
| ApplyLoop.InstallKeepsGood | raftify/src/raft_node/mod.rs:1411-1420 | so does installing a true snapshot |
| ApplyLoop.OnReadyKeepsGood | raftify/src/raft_node/mod.rs:1401-1457 | so does a whole Ready, errors and panics included |
| ApplyLoop.MessageKeepsGood | raftify/src/raft_node/mod.rs:1340-1345 | so does any request, a requested snapshot where it fits |
| ApplyLoop.GoodIsRecoverable | raftify/src/raft_node/mod.rs:1411-1454 | stored snapshot plus stored suffix replays to exactly the live state machine |
| ApplyLoop.BootIsGood | raftify/src/raft_node/mod.rs:544-587 | a node booted on an empty store is consistent and runs with the configuration of its peers |
| NodeLaws.RunFollows | raftify/src/raft_node/mod.rs:1401-1457 | on every run of a running node state machine, configuration, handled and applied index, hard state, last index and exit flag are what a fold over the run's events says |
| NodeLaws.ReadyStoresHardState | raftify/src/raft_node/mod.rs:1431-1446 | a Ready's term, vote and commit are stored, a commit that comes alone by RocksDB only, and without one they stay |
| NodeLaws.ReadyStoresEntries | raftify/src/raft_node/mod.rs:1425-1429 | a Ready's entries are stored afterwards, each at its index |
| NodeLaws.StopsExactly | raftify/src/raft_node/mod.rs:727-743 | handling an entry ends the run if and only if a context, change or address cannot be read, an address is missing, the core refuses a change without context, or somebody waits for changes of both kinds |
| NodeLaws.EntryMovesPeers | raftify/src/raft_node/mod.rs:853-892 | every id is in the node's table where the last change about it says, others are untouched, the node exits if and only if a change removes it, and no other entry touches either |
| NodeLaws.LeavingNodeExits | raftify/src/raft_node/mod.rs:1177-1188 | a node that asked to leave exits once that is committed |
| NodeLaws.RequestOutcome | raftify/src/raft_node/mod.rs:1011-1074 | a leader without a pending change registers the sender under the next number, others name the leader and its address, drop the request or panic |
| NodeLaws.RegisteredExactly | raftify/src/raft_node/mod.rs:951-1009 | on every run of a running node exactly the requests that reached it as leader without a pending change were registered, in order |
| NodeLaws.RequestedSnapshotIsTaken | raftify/src/raft_node/mod.rs:1340-1345 | a requested snapshot restores to the live state machine, at the given or the last index, and what compaction reaches is gone |
| NodeLaws.AutomaticSnapshotExactly | raftify/src/raft_node/mod.rs:817-823 | after an applied entry a snapshot is taken if and only if the interval has passed since the last one |
| NodeLaws.ConfSnapshotExactly | raftify/src/raft_node/mod.rs:894-906 | a membership change with a context takes a snapshot if and only if the core accepts it |
| NodeLaws.SnapshotsAreSpaced | raftify/src/raft_node/mod.rs:817-823 | an automatic snapshot comes more than the interval after any snapshot before it |
| NodeLaws.BootMeaning | raftify/src/raft_node/mod.rs:544-577 | voters are the peers in the roles of voter and leader, learners those in the role of learner, and nobody waits |
| NodeLaws.BootOnStore | raftify/src/raft_node/mod.rs:566-587 | on a store in use the log is kept unless it is empty or the snapshot is asked for; the peers count only when the snapshot names no voters |
| ClusterRuns.RunKeepsClusterGood | raftify/src/raft_node/mod.rs:1358-1399 | consistency of all nodes and all snapshots under way on every run |
| ClusterRuns.RecoverableOnEveryRun | raftify/src/raft_node/mod.rs:794-826 | on every run every node is recoverable and its state machine is the fold of the committed history |
| ClusterRuns.NodeTermsOnEveryRun | raftify/src/storage/heed_storage/mod.rs:205-234 | on every run a node's store gives the history's terms from its snapshot to the handled index, and Compacted below its first index |
| ClusterRuns.Convergence | raftify/src/raft_node/mod.rs:1451-1454 | nodes fed the same history agree at equal handled index, whatever batching, snapshots, compaction or installs |
| ClusterRuns.SnapshotConfOnEveryRun | raftify/src/storage/heed_storage/mod.rs:111-121 | a stored snapshot carries the configuration of its own index, counted from boot or the last install |
| ClusterRuns.OneConfOnEveryRun | raftify/src/raft_node/mod.rs:894-906 | with one boot configuration, it is the fold of all successful changes up to that index |
| ClusterRuns.SnapshotRequestExactly | raftify/src/raft_node/mod.rs:1340-1345 | for an application that forgets nothing, a requested snapshot at any index and term leaves the node consistent if and only if term, data and configuration in hand are those of the index and nothing needed after it is compacted |
| ClusterRuns.SnapshotRequestIsTrueWhen | raftify/src/raft_node/mod.rs:1197-1204 | for every application, data and term of a requested snapshot are true when nothing effective lies between the indices |
| ClusterRuns.SnapshotAcrossConfChange | raftify/src/storage/heed_storage/mod.rs:108-124 | one index ahead across a configuration change: data and term true, configuration false, the node no longer consistent |
| ClusterRuns.CreateSnapshotRunsAhead | raftify/src/raft_node/mod.rs:1340-1345 | CreateSnapshot before the last entry is handled claims an index whose entry the state machine has not seen |
| Requests.EventConserves | raftify/src/raft_node/mod.rs:993-1005 | a new number never meets a waiting sender, and each event keeps the accounting |
| Requests.RequestsConservedOnEveryRun | raftify/src/raft_node/mod.rs:912-946 | on every run registered = waiting + answered while the node runs, each number is answered at most once and to its own sender |
| Replies.SuccessExactlyWhenApplied | raftify/src/raft_node/mod.rs:794-815 | where no entry proposed elsewhere meets somebody waiting, as under stable leadership: success is told if and only if the sender's own non-empty entry was handed out and applied, membership changes are answered if and only if handled, and replies fit requests |
| Replies.AnsweredUnlessEmpty | raftify/src/raft_node/mod.rs:731-733 | on the same runs, installs included: a proposal is answered if and only if its data is not empty and its entry was handed out, and its sender waits otherwise |
| Replies.EmptyProposalWaits | raftify/src/raft_node/mod.rs:731-733 | an empty proposal, committed and handled, with its sender still waiting |
| Replies.SkippedProposalWaits | raftify/src/raft_node/mod.rs:1411-1420 | a proposal whose position an installed snapshot covers, with its sender still waiting |
| Replies.AnswersTrueExactly | raftify/src/raft_node/mod.rs:795-798 | on every run that hands out the history in order, whoever proposed it and whatever is installed: each answer is caused by an entry with its number that it fits, and is true if and only if that entry was proposed here |
| Replies.OwnEntryIsAnswered | raftify/src/raft_node/mod.rs:795-815 | on all these runs an own entry that was handed out leaves nobody waiting under its number |
| Replies.ForeignEntryMisleads | raftify/src/raft_node/mod.rs:795-815 | an entry of another node under number 0 tells the local proposer of another value success |
| Replies.RefusedJoinIsToldSuccess | raftify/src/raft_node/mod.rs:894-926 | a join is answered with success and every addition enters the peer table also when the core refuses it; configuration and snapshot follow only when it does not |
| RunLoop.ServeTurn | raftify/src/raft_node/mod.rs:1369-1398 | one iteration: an error in the message ends it before the tick, then the budget, then the Ready |
| RunLoop.Run | raftify/src/raft_node/mod.rs:1358-1399 | the loop on a node object takes node, budget and ticks where the iterations lead, and stops at exit or error |
| RunLoop.RunIsRecoverable | raftify/src/raft_node/mod.rs:1358-1399 | however a run went and ended, the store recovers the live state machine, the fold of the history |
| RunLoop.LoopIsEventRun | raftify/src/raft_node/mod.rs:1358-1399 | the loop runs the events of its first k turns, message before Ready, all turns unless the node stopped or was asked to exit, and none after that |
| RunLoop.BootAndRun | raftify/src/raft_node/mod.rs:528-619 | the same of a node object bootstrapped and run |
| RunLoop.RunConservesRequests | raftify/src/raft_node/mod.rs:993-1005 | requests stay accounted for through a run, whatever the core hands out |
| RunLoop.TickRateOnEveryRun | raftify/src/raft_node/mod.rs:1388-1395 | k ticks take at least k intervals F of the turns' time, and at most k(F+d)+F when no iteration takes longer than d, counting every turn but one whose message ended the run |
| TickTimer.TicksTakeTime | raftify/src/raft_node/mod.rs:1388-1395 | the budget stays within the interval and k ticks take more than k intervals |
| TickTimer.TimeBringsTicks | raftify/src/raft_node/mod.rs:1388-1395 | with iterations of at most d, k ticks account for all time up to k(F+d) plus the part of the interval in use |

## Left out

- Consensus itself (elections, replication, quorums, `limit_size`): the raft-rs sources are not
  part of this model; they appear as the contract above.
- Networking, TLS, message sending and leader redirection over gRPC, and all getters and formatters.
- Byte encodings of entries, snapshots and contexts: their decoded values and the possible
  decoding errors are modelled, not the bytes.
- Failures of I/O and of the application's own callbacks, and callers that drop their end of a
  reply channel before it is used (the source panics then).
- HeedStore.HeedStorage.Append: storing indices from 10^10 on is excluded by a precondition, because key order is lost there, as `KeyCodec.KeyOrderBoundIsTight` proves.
- RocksDbStore.RocksDbStorage.Append: the same, for the same reason; Readies handed to `RaftNodeCore.RaftNodeCore.OnReady` keep to it.
- HeedStore.HeedStorage.Compact: the archive is a sequence of entries; its file, timestamps and JSON are not modelled, only that it is emptied when it has outgrown its threshold.
- Membership.NextId: an unbounded number, where the source's u64 overflows above the greatest id.
- ClusterRuns.RunKeepsClusterGood: snapshots on request are admitted where they fit; what comes of others is the subject of `ClusterRuns.SnapshotRequestExactly`.
- RaftNodeCore.RaftNodeCore.constructor: the class has a Heed store; the functions it is proved against, and the theorems about their runs, cover a node on either back end. Starting it on an existing store is left out, as said below.
- RaftNodeCore.RaftNodeCore.MakeSnapshot: its two transactions are one step; a crash between them is not modelled.
- Requests.RequestsConservedOnEveryRun: the request counter is unbounded; its wrap at 2^64 is not modelled.
- Restart on an existing store: `bootstrap` does not restore the state machine, so nothing is claimed about it there; only the stored log after `BootLog` is defined.
- `SortedPeersIter`, `replace`, `MemStorage`, `bootstrap_peers`, `replace_entries`, configuration building and the test harness.
