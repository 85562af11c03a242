// The values that travel between the consensus core, the stores and the node.
module RaftTypes {
  import opened KeyCodec

  type Bytes = seq<bv8>

  datatype SocketAddr = SocketAddr(ip: nat, port: nat)

  datatype ChangeType = AddNode | RemoveNode | AddLearnerNode

  datatype ChangeSingle = ChangeSingle(changeType: ChangeType, nodeId: u64)

  datatype Transition = Auto | Implicit | Explicit

  // What bincode makes of the context of a membership change: an address list, or an error.
  datatype AddrList = Addrs(list: seq<SocketAddr>) | NotAddrs

  datatype ConfChange = ConfChange(changeType: ChangeType, nodeId: u64, context: AddrList)

  datatype ConfChangeV2 = ConfChangeV2(transition: Transition, changes: seq<ChangeSingle>, context: AddrList)

  // What bincode makes of the context of a log entry: empty, a request number, or an error.
  datatype Context = NoContext | Token(seqNo: nat) | Garbled

  // Entry type and decoded data.  Undecodable is a membership entry whose data does not decode.
  datatype Body =
    | Normal(data: Bytes)
    | ConfV1(change: ConfChange)
    | ConfV2(changeV2: ConfChangeV2)
    | Undecodable

  datatype Entry = Entry(index: u64, term: u64, body: Body, context: Context)

  datatype ConfState = ConfState(
    voters: set<u64>, learners: set<u64>, votersOutgoing: set<u64>, learnersNext: set<u64>, autoLeave: bool)

  datatype HardState = HardState(term: u64, vote: u64, commit: u64)

  datatype Snapshot = Snapshot(data: Bytes, index: u64, term: u64, confState: ConfState)

  const NO_CONF := ConfState({}, {}, {}, {}, false)
  const NO_HARD_STATE := HardState(0, 0, 0)
  const NO_SNAPSHOT := Snapshot([], 0, 0, NO_CONF)
}
