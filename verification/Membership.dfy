// The peer table and what the membership-change loop does to it.
module Membership {
  import opened Wrappers
  import opened KeyCodec
  import opened RaftTypes

  datatype Role = Leader | Voter | Learner

  datatype Peer = Peer(addr: SocketAddr, role: Role)

  ghost predicate IsGreatest(k: u64, keys: set<u64>) {
    k in keys && forall j | j in keys :: j <= k
  }

  lemma {:induction false} GreatestExists(keys: set<u64>)
    requires keys != {}
    ensures exists k :: IsGreatest(k, keys)
  {
    var x :| x in keys;
    if keys == {x} {
      assert IsGreatest(x, keys);
    } else {
      GreatestExists(keys - {x});
      var k: u64 :| IsGreatest(k, keys - {x});
      assert forall j | j in keys :: j == x || j in keys - {x};
      assert IsGreatest(if k < x then x else k, keys);
    }
  }

  // The id handed to a newcomer: one above the greatest id in use, or one.  (At the top of
  // the u64 range the source overflows; the model's number does not.)
  ghost function NextId(peers: map<u64, Peer>): (id: nat)
    ensures forall k | k in peers :: k < id
    ensures id == 1 || exists k: u64 :: k in peers && id == k + 1
  {
    if peers == map[] then 1
    else
      GreatestExists(peers.Keys);
      var k: u64 :| IsGreatest(k, peers.Keys);
      k + 1
  }

  class Peers {
    var inner: map<u64, Peer>

    constructor ()
      ensures inner == map[]
    {
      inner := map[];
    }

    method AddPeer(id: u64, addr: SocketAddr, role: Option<Role>)
      modifies this
      ensures inner == old(inner)[id := Peer(addr, match role { case Some(r) => r case None => Voter })]
    {
      var initialRole := match role { case Some(r) => r case None => Voter };
      inner := inner[id := Peer(addr, initialRole)];
    }

    method Remove(id: u64)
      modifies this
      ensures inner == old(inner) - {id}
    {
      inner := inner - {id};
    }

    method ReserveId() returns (id: nat)
      ensures id == NextId(inner)
    {
      if inner.Keys == {} {
        return 1;
      }
      var rest := inner.Keys;
      var max: u64 :| max in rest;
      rest := rest - {max};
      while rest != {}
        invariant max in inner && rest <= inner.Keys
        invariant forall k | k in inner && k !in rest :: k <= max
      {
        var k: u64 :| k in rest;
        max := if max < k then k else max;
        rest := rest - {k};
      }
      id := max + 1;
    }

    // The table is walked in no particular order: with several peers at one address any of
    // them may be found.
    method GetNodeIdByAddr(addr: SocketAddr) returns (id: Option<u64>)
      ensures id.Some? ==> id.value in inner && inner[id.value].addr == addr
      ensures id.None? ==> forall k | k in inner :: inner[k].addr != addr
    {
      var rest := inner.Keys;
      while rest != {}
        invariant rest <= inner.Keys
        invariant forall k | k in inner && k !in rest :: inner[k].addr != addr
      {
        var k: u64 :| k in rest;
        if inner[k].addr == addr {
          return Some(k);
        }
        rest := rest - {k};
      }
      id := None;
    }
  }

  // The state of the change loop; Panicked is an address list shorter than the changes.
  datatype LoopState =
    | Going(peers: map<u64, Peer>, shouldExit: bool)
    | Panicked(peers: map<u64, Peer>, shouldExit: bool)

  function ApplyChange(self: u64, st: LoopState, change: ChangeSingle, at: nat, addrs: seq<SocketAddr>): LoopState {
    if st.Panicked? then st
    else
      match change.changeType
      case AddNode =>
        if at < |addrs| then st.(peers := st.peers[change.nodeId := Peer(addrs[at], Voter)])
        else Panicked(st.peers, st.shouldExit)
      case AddLearnerNode =>
        if at < |addrs| then st.(peers := st.peers[change.nodeId := Peer(addrs[at], Learner)])
        else Panicked(st.peers, st.shouldExit)
      case RemoveNode =>
        if change.nodeId == self then st.(shouldExit := true)
        else st.(peers := st.peers - {change.nodeId})
  }

  function ApplyChanges(self: u64, st: LoopState, changes: seq<ChangeSingle>, addrs: seq<SocketAddr>): LoopState {
    if changes == [] then st
    else
      var n := |changes| - 1;
      ApplyChange(self, ApplyChanges(self, st, changes[..n], addrs), changes[n], n, addrs)
  }

  // The change at k decides about id: it names id, and is not a node's removal of itself,
  // which leaves the table alone.
  predicate Decides(self: u64, c: ChangeSingle, id: u64) {
    c.nodeId == id && !(c.changeType.RemoveNode? && id == self)
  }

  ghost predicate LastDecider(self: u64, changes: seq<ChangeSingle>, id: u64, k: nat) {
    && k < |changes| && Decides(self, changes[k], id)
    && forall j | k < j < |changes| :: !Decides(self, changes[j], id)
  }

  ghost predicate Undecided(self: u64, changes: seq<ChangeSingle>, id: u64) {
    forall j | 0 <= j < |changes| :: !Decides(self, changes[j], id)
  }

  ghost predicate NeedsAddress(changes: seq<ChangeSingle>, k: nat, addrs: seq<SocketAddr>) {
    |addrs| <= k < |changes| && !changes[k].changeType.RemoveNode?
  }

  // The loop runs to its end exactly when every addition has an address at its position.
  lemma {:induction false} LoopPanicsExactly(self: u64, st: LoopState, changes: seq<ChangeSingle>, addrs: seq<SocketAddr>)
    requires st.Going?
    ensures ApplyChanges(self, st, changes, addrs).Panicked? <==> exists k: nat :: NeedsAddress(changes, k, addrs)
  {
    if changes != [] {
      var n := |changes| - 1;
      LoopPanicsExactly(self, st, changes[..n], addrs);
      if k: nat :| NeedsAddress(changes[..n], k, addrs) {
        assert NeedsAddress(changes, k, addrs);
      }
      if k: nat :| NeedsAddress(changes, k, addrs) && k < n {
        assert NeedsAddress(changes[..n], k, addrs);
      }
      if |addrs| <= n && !changes[n].changeType.RemoveNode? {
        assert NeedsAddress(changes, n, addrs);
      }
    }
  }

  lemma {:induction false} LastDeciderExists(self: u64, changes: seq<ChangeSingle>, id: u64)
    requires !Undecided(self, changes, id)
    ensures exists k: nat :: LastDecider(self, changes, id, k)
  {
    var n := |changes| - 1;
    if Decides(self, changes[n], id) {
      assert LastDecider(self, changes, id, n);
    } else {
      assert !Undecided(self, changes[..n], id);
      LastDeciderExists(self, changes[..n], id);
      var k: nat :| LastDecider(self, changes[..n], id, k);
      assert LastDecider(self, changes, id, k);
    }
  }

  // Each id's place in the table is decided by the last change that decides about it, ids
  // no change decides about keep theirs, and removing oneself asks the node to exit.
  lemma {:induction false} LoopMeaning(
      self: u64, st: LoopState, changes: seq<ChangeSingle>, addrs: seq<SocketAddr>, id: u64)
    requires st.Going? && ApplyChanges(self, st, changes, addrs).Going?
    ensures var after := ApplyChanges(self, st, changes, addrs);
      && (after.shouldExit <==> st.shouldExit || ChangeSingle(RemoveNode, self) in changes)
      && (Undecided(self, changes, id) ==>
            (id in after.peers <==> id in st.peers) && (id in st.peers ==> after.peers[id] == st.peers[id]))
      && (forall k: nat | LastDecider(self, changes, id, k) ::
            match changes[k].changeType
            case RemoveNode => id !in after.peers
            case AddNode => k < |addrs| && id in after.peers && after.peers[id] == Peer(addrs[k], Voter)
            case AddLearnerNode => k < |addrs| && id in after.peers && after.peers[id] == Peer(addrs[k], Learner))
  {
    if changes != [] {
      var n := |changes| - 1;
      var init, c := changes[..n], changes[n];
      assert changes == init + [c];
      assert ApplyChanges(self, st, init, addrs).Going?;
      LoopMeaning(self, st, init, addrs, id);
      assert Undecided(self, changes, id) <==> Undecided(self, init, id) && !Decides(self, c, id);
      forall k: nat | LastDecider(self, changes, id, k)
        ensures if Decides(self, c, id) then k == n else LastDecider(self, init, id, k) && init[k] == changes[k]
      {
      }
    }
  }

  // Handing out ids.

  ghost predicate Known(peers: map<u64, Peer>, addr: SocketAddr, id: u64) {
    id in peers && peers[id].addr == addr
  }

  ghost predicate Present(peers: map<u64, Peer>, addr: SocketAddr) {
    exists k: u64 :: Known(peers, addr, k)
  }

  // The leader's answer to an id request: the id already at that address, else a new one.
  ghost predicate MayReserve(peers: map<u64, Peer>, addr: SocketAddr, id: nat) {
    if Present(peers, addr) then id < U64_BOUND && Known(peers, addr, id)
    else id == NextId(peers)
  }

  method RequestId(peers: Peers, addr: SocketAddr) returns (id: nat)
    ensures MayReserve(peers.inner, addr, id)
  {
    var existing := peers.GetNodeIdByAddr(addr);
    match existing
    case Some(k) =>
      assert Known(peers.inner, addr, k);
      id := k;
    case None =>
      id := peers.ReserveId();
  }

  ghost predicate OneToOne(peers: map<u64, Peer>) {
    forall i, j | i in peers && j in peers && peers[i].addr == peers[j].addr :: i == j
  }

  // What the change loop of node self makes of the table when a reservation's AddNode, or a
  // removal, is applied.

  function AfterJoin(self: u64, peers: map<u64, Peer>, addr: SocketAddr, id: u64): map<u64, Peer> {
    ApplyChanges(self, Going(peers, false), [ChangeSingle(AddNode, id)], [addr]).peers
  }

  function AfterRemoval(self: u64, peers: map<u64, Peer>, id: u64): map<u64, Peer> {
    ApplyChanges(self, Going(peers, false), [ChangeSingle(RemoveNode, id)], []).peers
  }

  lemma OneChange(self: u64, peers: map<u64, Peer>, c: ChangeSingle, addrs: seq<SocketAddr>)
    ensures ApplyChanges(self, Going(peers, false), [c], addrs) == ApplyChange(self, Going(peers, false), c, 0, addrs)
  {
    assert [c][..0] == [];
  }

  datatype Promise = Promise(addr: SocketAddr, id: u64)

  // The table, and the reservation that is under way: handed out, its AddNode not yet applied.
  datatype Table = Table(peers: map<u64, Peer>, promise: Option<Promise>)

  // A reservation that never leads to a join lapses.
  datatype Move =
    | Reserve(addr: SocketAddr, id: u64)
    | JoinApplied
    | RemovalApplied(gone: u64)
    | Lapse

  // One reservation at a time; removals may come at any time.
  ghost predicate LegalMove(t: Table, m: Move) {
    match m
    case Reserve(addr, id) => t.promise.None? && MayReserve(t.peers, addr, id)
    case JoinApplied => t.promise.Some?
    case _ => true
  }

  function AfterMove(self: u64, t: Table, m: Move): Table {
    match m
    case Reserve(addr, id) => t.(promise := Some(Promise(addr, id)))
    case JoinApplied =>
      if t.promise.None? then t
      else Table(AfterJoin(self, t.peers, t.promise.value.addr, t.promise.value.id), None)
    case RemovalApplied(id) => t.(peers := AfterRemoval(self, t.peers, id))
    case Lapse => t.(promise := None)
  }

  ghost predicate LegalMoves(self: u64, t: Table, ms: seq<Move>)
    decreases |ms|
  {
    ms == [] || (LegalMove(t, ms[0]) && LegalMoves(self, AfterMove(self, t, ms[0]), ms[1..]))
  }

  function AfterMoves(self: u64, t: Table, ms: seq<Move>): Table
    decreases |ms|
  {
    if ms == [] then t else AfterMoves(self, AfterMove(self, t, ms[0]), ms[1..])
  }

  // The table is one-to-one, and the promised id and the promised address go together in it.
  ghost predicate Orderly(t: Table) {
    && OneToOne(t.peers)
    && (t.promise.Some? ==>
         forall k | k in t.peers :: k == t.promise.value.id <==> t.peers[k].addr == t.promise.value.addr)
  }

  lemma MoveKeepsOrder(self: u64, t: Table, m: Move)
    requires Orderly(t) && LegalMove(t, m)
    ensures Orderly(AfterMove(self, t, m))
  {
    match m
    case Reserve(addr, id) =>
      assert forall k | k in t.peers && t.peers[k].addr == addr :: Known(t.peers, addr, k);
    case JoinApplied =>
      OneChange(self, t.peers, ChangeSingle(AddNode, t.promise.value.id), [t.promise.value.addr]);
    case RemovalApplied(id) =>
      OneChange(self, t.peers, ChangeSingle(RemoveNode, id), []);
    case Lapse =>
  }

  lemma {:induction false} MovesKeepOrder(self: u64, t: Table, ms: seq<Move>)
    requires Orderly(t) && LegalMoves(self, t, ms)
    ensures Orderly(AfterMoves(self, t, ms))
    decreases |ms|
  {
    if ms != [] {
      MoveKeepsOrder(self, t, ms[0]);
      MovesKeepOrder(self, AfterMove(self, t, ms[0]), ms[1..]);
    }
  }

  // One address, one id, through all reservations, joins and removals, a removal between a
  // reservation and its join included; so a known address gets its own id back, a new one
  // gets an id above every current one, and a promised id is nobody else's.
  lemma ReservationsStayOneToOne(self: u64, peers: map<u64, Peer>, ms: seq<Move>, addr: SocketAddr, id: nat)
    requires OneToOne(peers) && LegalMoves(self, Table(peers, None), ms)
    ensures var after := AfterMoves(self, Table(peers, None), ms);
      && OneToOne(after.peers)
      && (after.promise.Some? ==>
           forall k | k in after.peers && k == after.promise.value.id :: after.peers[k].addr == after.promise.value.addr)
      && (MayReserve(after.peers, addr, id) ==>
           && (forall k: u64 | Known(after.peers, addr, k) :: id == k)
           && (!Present(after.peers, addr) ==> forall k | k in after.peers :: k < id))
  {
    MovesKeepOrder(self, Table(peers, None), ms);
    var after := AfterMoves(self, Table(peers, None), ms);
    if MayReserve(after.peers, addr, id) && Present(after.peers, addr) {
      assert Known(after.peers, addr, id);
    }
  }

  // Two requests answered before either join is applied get the same id exactly when they
  // come from one address or from two new ones.  In the latter case the second join to be
  // applied takes the first one's place in the table, and no peer is left at its address.
  lemma EarlySecondReservation(self: u64, peers: map<u64, Peer>, a: SocketAddr, b: SocketAddr, i: u64, j: u64)
    requires OneToOne(peers) && MayReserve(peers, a, i) && MayReserve(peers, b, j)
    ensures i == j <==> a == b || (!Present(peers, a) && !Present(peers, b))
    ensures Present(AfterJoin(self, AfterJoin(self, peers, a, i), b, j), a) <==> a == b || i != j
  {
    if Present(peers, a) && Present(peers, b) {
      assert Known(peers, a, i) && Known(peers, b, j);
    }
    var once := AfterJoin(self, peers, a, i);
    var twice := AfterJoin(self, once, b, j);
    OneChange(self, peers, ChangeSingle(AddNode, i), [a]);
    OneChange(self, once, ChangeSingle(AddNode, j), [b]);
    assert twice == peers[i := Peer(a, Voter)][j := Peer(b, Voter)];
    if a == b || i != j {
      assert Known(twice, a, i);
    } else {
      assert forall k: u64 :: Known(twice, a, k) ==> Known(peers, a, k);
    }
  }
}
