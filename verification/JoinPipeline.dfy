// A configuration change on its way from the joining node to the leader's proposal.
module JoinPipeline {
  import opened Wrappers
  import opened KeyCodec
  import opened RaftTypes
  import Membership
  import NodeSpec

  datatype ConfChangeRequest = ConfChangeRequest(changes: seq<ChangeSingle>, addrs: seq<SocketAddr>)

  // The wire message: addresses travel as text.
  datatype ChangeConfigArgs = ChangeConfigArgs(changes: seq<ChangeSingle>, addrs: seq<string>)

  datatype Ticket = Ticket(reservedId: u64, raftAddr: string, leaderAddr: string)

  // `SocketAddr::to_string` and its parser.
  datatype AddrText = AddrText(show: SocketAddr -> string, parse: string -> Option<SocketAddr>)

  ghost predicate ReadsBack(t: AddrText) {
    forall a :: t.parse(t.show(a)) == Some(a)
  }

  // None stands for a panic in each of the conversions.

  function RequestOfChange(cc: ConfChangeV2): Option<ConfChangeRequest> {
    match cc.context
    case Addrs(addrs) => Some(ConfChangeRequest(cc.changes, addrs))
    case NotAddrs => None
  }

  function ChangeOfRequest(r: ConfChangeRequest): Option<ConfChangeV2> {
    if |r.addrs| != |r.changes| then None
    else Some(ConfChangeV2(if |r.addrs| > 1 then Explicit else Auto, r.changes, Addrs(r.addrs)))
  }

  function ShowAll(t: AddrText, addrs: seq<SocketAddr>): (texts: seq<string>)
    ensures |texts| == |addrs| && forall i | 0 <= i < |addrs| :: texts[i] == t.show(addrs[i])
  {
    seq(|addrs|, i requires 0 <= i < |addrs| => t.show(addrs[i]))
  }

  function ArgsOfRequest(t: AddrText, r: ConfChangeRequest): ChangeConfigArgs {
    ChangeConfigArgs(r.changes, ShowAll(t, r.addrs))
  }

  function ParseAll(t: AddrText, texts: seq<string>): Option<seq<SocketAddr>> {
    if texts == [] then Some([])
    else
      match (ParseAll(t, texts[..|texts| - 1]), t.parse(texts[|texts| - 1]))
      case (Some(before), Some(a)) => Some(before + [a])
      case _ => None
  }

  function RequestOfArgs(t: AddrText, args: ChangeConfigArgs): Option<ConfChangeRequest> {
    match ParseAll(t, args.addrs)
    case Some(addrs) => Some(ConfChangeRequest(args.changes, addrs))
    case None => None
  }

  // What the leader proposes for a change sent to it over the wire.
  function AtLeader(t: AddrText, cc: ConfChangeV2): Option<ConfChangeV2> {
    match RequestOfChange(cc)
    case None => None
    case Some(sent) =>
      match RequestOfArgs(t, ArgsOfRequest(t, sent))
      case None => None
      case Some(received) => ChangeOfRequest(received)
  }

  lemma {:induction false} ParseAllReadsBack(t: AddrText, addrs: seq<SocketAddr>)
    requires ReadsBack(t)
    ensures ParseAll(t, ShowAll(t, addrs)) == Some(addrs)
  {
    if addrs != [] {
      var n := |addrs| - 1;
      var init := addrs[..n];
      ParseAllReadsBack(t, init);
      assert ShowAll(t, addrs)[..n] == ShowAll(t, init);
      assert addrs == init + [addrs[n]];
    }
  }

  // The wire loses nothing of a request.
  lemma WireReadsBack(t: AddrText, r: ConfChangeRequest)
    requires ReadsBack(t)
    ensures RequestOfArgs(t, ArgsOfRequest(t, r)) == Some(r)
  {
    ParseAllReadsBack(t, r.addrs);
  }

  // The leader proposes the very change that was sent exactly when it lists one address per
  // change and its transition is explicit just for more than one; a change without readable
  // addresses or with too few or too many panics on the way.
  lemma PipelineExactly(t: AddrText, cc: ConfChangeV2)
    requires ReadsBack(t)
    ensures AtLeader(t, cc).Some? <==> cc.context.Addrs? && |cc.context.list| == |cc.changes|
    ensures AtLeader(t, cc).Some? ==>
      AtLeader(t, cc).value.changes == cc.changes && AtLeader(t, cc).value.context == cc.context
    ensures AtLeader(t, cc) == Some(cc)
      <==> && cc.context.Addrs? && |cc.context.list| == |cc.changes|
           && cc.transition == if |cc.context.list| > 1 then Explicit else Auto
  {
    if cc.context.Addrs? {
      WireReadsBack(t, ConfChangeRequest(cc.changes, cc.context.list));
    }
  }

  ghost predicate ReadableTickets(t: AddrText, tickets: seq<Ticket>) {
    tickets != [] && forall i | 0 <= i < |tickets| :: t.parse(tickets[i].raftAddr).Some?
  }

  // The change a set of tickets asks for: one AddNode and one address per ticket, in order.
  ghost predicate IsJoin(t: AddrText, tickets: seq<Ticket>, cc: ConfChangeV2) {
    && |cc.changes| == |tickets| && cc.context.Addrs? && |cc.context.list| == |tickets|
    && (cc.transition == if |tickets| > 1 then Explicit else Auto)
    && forall i | 0 <= i < |tickets| ::
         && cc.changes[i] == ChangeSingle(AddNode, tickets[i].reservedId)
         && Some(cc.context.list[i]) == t.parse(tickets[i].raftAddr)
  }

  // `handle_join` up to the request it sends.  None is the panic on no tickets or on an
  // unreadable address.
  method BuildJoin(t: AddrText, tickets: seq<Ticket>) returns (change: Option<ConfChangeV2>)
    ensures change.Some? <==> ReadableTickets(t, tickets)
    ensures change.Some? ==> IsJoin(t, tickets, change.value)
  {
    if |tickets| == 0 {
      return None;
    }
    var transition := if |tickets| > 1 then Explicit else Auto;
    var changes: seq<ChangeSingle> := [];
    var addrs: seq<SocketAddr> := [];
    for n := 0 to |tickets|
      invariant |changes| == |addrs| == n
      invariant forall i | 0 <= i < n ::
        && changes[i] == ChangeSingle(AddNode, tickets[i].reservedId)
        && Some(addrs[i]) == t.parse(tickets[i].raftAddr)
    {
      var ticket := tickets[n];
      changes := changes + [ChangeSingle(AddNode, ticket.reservedId)];
      var addr := t.parse(ticket.raftAddr);
      match addr {
        case Some(a) => addrs := addrs + [a];
        case None => return None;
      }
    }
    change := Some(ConfChangeV2(transition, changes, Addrs(addrs)));
  }

  // A join reaches the proposal unchanged.
  lemma JoinArrives(t: AddrText, tickets: seq<Ticket>, cc: ConfChangeV2)
    requires ReadsBack(t) && IsJoin(t, tickets, cc)
    ensures AtLeader(t, cc) == Some(cc)
  {
    PipelineExactly(t, cc);
  }

  // Where a proposed membership entry can come from in this code.
  datatype Source =
    | ByRequest(request: ConfChangeRequest)
    | ByLeaving(self: u64, addr: SocketAddr)
    | ByLeavingJoint

  // What is proposed, and whether a request number goes with it.
  function Proposed(source: Source): Option<(ConfChangeV2, bool)> {
    match source
    case ByRequest(request) =>
      (match ChangeOfRequest(request)
       case Some(cc) => Some((cc, true))
       case None => None)
    case ByLeaving(self, addr) => Some((NodeSpec.ToConfChangeV2(ConfChange(RemoveNode, self, Addrs([addr]))), true))
    case ByLeavingJoint => Some((ConfChangeV2(Auto, [], NotAddrs), false))
  }

  // Every membership entry this code proposes with a request number has an address per
  // change, so the loop over its changes never runs out of addresses, on any node.
  lemma ProposedChangesApply(source: Source, self: u64, st: Membership.LoopState)
    requires Proposed(source).Some? && Proposed(source).value.1 && st.Going?
    ensures var cc := Proposed(source).value.0;
      && cc.context.Addrs? && |cc.context.list| == |cc.changes|
      && Membership.ApplyChanges(self, st, cc.changes, cc.context.list).Going?
  {
    var cc := Proposed(source).value.0;
    Membership.LoopPanicsExactly(self, st, cc.changes, cc.context.list);
  }
}
