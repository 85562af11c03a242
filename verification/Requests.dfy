// Request numbers: every waiting caller is answered at most once, by whatever entries.
module Requests {
  import opened KeyCodec
  import opened RaftTypes
  import Membership
  import opened NodeSpec
  import ApplyLoop

  datatype Payload = Proposal(data: Bytes) | Change(cc: ConfChangeV2)

  // What was registered under each number, in order of the numbers.
  datatype Request = Request(payload: Payload, sender: Sender)

  function Count(replies: seq<Delivery>, token: nat): nat {
    if replies == [] then 0
    else
      var last := replies[|replies| - 1];
      Count(replies[..|replies| - 1], token) + if last.Answered? && last.token == token then 1 else 0
  }

  function Waiting<S>(n: Node<S>, token: nat): nat {
    if token in n.senders then 1 else 0
  }

  // Numbers in use are below the counter, a waiting sender is the one registered under its
  // number, each number is answered to that sender or waiting, never both and never twice;
  // and while the node runs, registered = waiting + answered.
  ghost predicate Conserved<S>(minted: seq<Request>, n: Node<S>) {
    && |minted| == n.responseSeq
    && (forall t | t in n.senders :: t < |minted| && n.senders[t] == minted[t].sender)
    && (forall t: nat :: Count(n.replies, t) + Waiting(n, t) <= if t < |minted| then 1 else 0)
    && (!n.stopped ==> forall t: nat | t < |minted| :: Count(n.replies, t) + Waiting(n, t) == 1)
    && (forall k | 0 <= k < |n.replies| && n.replies[k].Answered? ::
          n.replies[k].token < |minted| && n.replies[k].sender == minted[n.replies[k].token].sender)
  }

  lemma CountSnoc(replies: seq<Delivery>, d: Delivery, token: nat)
    ensures Count(replies + [d], token)
      == Count(replies, token) + if d.Answered? && d.token == token then 1 else 0
  {
    assert (replies + [d])[..|replies|] == replies;
  }

  lemma {:induction false} CountedIsThere(replies: seq<Delivery>, token: nat)
    ensures 0 < Count(replies, token)
      <==> exists k :: 0 <= k < |replies| && replies[k].Answered? && replies[k].token == token
  {
    if replies != [] {
      var n := |replies| - 1;
      var init := replies[..n];
      CountedIsThere(init, token);
      assert forall k | 0 <= k < n :: init[k] == replies[k];
    }
  }

  lemma AnswerConserves<S>(minted: seq<Request>, n: Node<S>, token: nat, reply: Reply)
    requires Conserved(minted, n)
    ensures Conserved(minted, Answer(n, token, reply))
  {
    if token in n.senders {
      var d := Answered(token, n.senders[token], reply);
      forall t: nat ensures Count(n.replies + [d], t) == Count(n.replies, t) + if t == token then 1 else 0 {
        CountSnoc(n.replies, d, t);
      }
    }
  }

  // Everything but senders, replies and the counter is beside the point here.
  ghost predicate SameRequests<S>(n: Node<S>, after: Node<S>) {
    && after.senders == n.senders && after.replies == n.replies && after.responseSeq == n.responseSeq
    && (n.stopped ==> after.stopped)
  }

  lemma SameRequestsConserves<S>(minted: seq<Request>, n: Node<S>, after: Node<S>)
    requires Conserved(minted, n) && SameRequests(n, after)
    ensures Conserved(minted, after)
  {
  }

  lemma AnswerConfConserves<S>(minted: seq<Request>, n: Node<S>, context: Context, changes: seq<ChangeSingle>)
    requires Conserved(minted, n)
    ensures Conserved(minted, AnswerConf(n, context, changes))
  {
    if context.Token? && context.seqNo in n.senders {
      AnswerConserves(minted, n, context.seqNo, JoinSuccess(NodeIds(changes), n.peers));
      AnswerConserves(minted, n, context.seqNo, RemoveSuccess);
    }
  }

  // The node as the answer to an entry finds it.
  ghost function BeforeAnswer<S>(cfg: Setup<S>, n: Node<S>, e: Entry, cc: ConfChangeV2, clock: Clock): Node<S>
    requires cc.context.Addrs?
  {
    var end := Membership.ApplyChanges(cfg.id, Membership.Going(n.peers, n.shouldExit), cc.changes, cc.context.list);
    AdoptConf(cfg, n.(peers := end.peers, shouldExit := end.shouldExit), cc, e, clock)
  }

  lemma NormalConserves<S>(cfg: Setup<S>, minted: seq<Request>, n: Node<S>, e: Entry, clock: Clock)
    requires Conserved(minted, n) && e.body.Normal?
    ensures Conserved(minted, HandleNormal(cfg, n, e, clock))
  {
    var after := HandleNormal(cfg, n, e, clock);
    if e.context.Token? {
      var fed := n.(fsm := cfg.fsm.apply(n.fsm, e.body.data), handled := e.index);
      SameRequestsConserves(minted, n, fed);
      AnswerConserves(minted, fed, e.context.seqNo, ProposeSuccess);
      SameRequestsConserves(minted, Answer(fed, e.context.seqNo, ProposeSuccess), after);
    } else {
      SameRequestsConserves(minted, n, after);
    }
  }

  // A membership entry either leaves the requests alone or ends with its answer.
  lemma ConfShape<S>(cfg: Setup<S>, n: Node<S>, e: Entry, clock: Clock)
    ensures var after := HandleConf(cfg, n, e, clock);
      || SameRequests(n, after)
      || (exists mid: Node<S>, cc: ConfChangeV2 ::
            SameRequests(n, mid) && after == AnswerConf(mid, e.context, cc.changes))
  {
    var after := HandleConf(cfg, n, e, clock);
    if DecodeConf(e.body).Some? && !e.context.NoContext? && DecodeConf(e.body).value.context.Addrs? {
      var cc := DecodeConf(e.body).value;
      var end := Membership.ApplyChanges(cfg.id, Membership.Going(n.peers, n.shouldExit), cc.changes, cc.context.list);
      if end.Going? {
        var mid := BeforeAnswer(cfg, n, e, cc, clock);
        assert SameRequests(n, mid) && after == AnswerConf(mid, e.context, cc.changes);
      }
    }
  }

  lemma ConfConserves<S>(cfg: Setup<S>, minted: seq<Request>, n: Node<S>, e: Entry, clock: Clock)
    requires Conserved(minted, n)
    ensures Conserved(minted, HandleConf(cfg, n, e, clock))
  {
    var after := HandleConf(cfg, n, e, clock);
    ConfShape(cfg, n, e, clock);
    if SameRequests(n, after) {
      SameRequestsConserves(minted, n, after);
    } else {
      var mid: Node<S>, cc: ConfChangeV2 :|
        SameRequests(n, mid) && after == AnswerConf(mid, e.context, cc.changes);
      SameRequestsConserves(minted, n, mid);
      AnswerConfConserves(minted, mid, e.context, cc.changes);
    }
  }

  lemma EntryConserves<S>(cfg: Setup<S>, minted: seq<Request>, n: Node<S>, e: Entry, clock: Clock)
    requires Conserved(minted, n)
    ensures Conserved(minted, HandleEntry(cfg, n, e, clock))
  {
    if ApplyLoop.Effective(e) {
      NormalConserves(cfg, minted, n, e, clock);
    } else if e.body.Normal? {
      SameRequestsConserves(minted, n, HandleEntry(cfg, n, e, clock));
    } else {
      ConfConserves(cfg, minted, n, e, clock);
    }
  }

  lemma {:induction false} EntriesConserve<S>(cfg: Setup<S>, minted: seq<Request>, n: Node<S>, es: seq<Entry>, clock: Clock)
    requires Conserved(minted, n)
    ensures Conserved(minted, HandleEntries(cfg, n, es, clock))
    decreases |es|
  {
    if es != [] {
      EntriesConserve(cfg, minted, n, es[..|es| - 1], clock);
      var before := HandleEntries(cfg, n, es[..|es| - 1], clock);
      EntryConserves(cfg, minted, before, es[|es| - 1], clock);
    }
  }

  lemma OnReadyConserves<S>(cfg: Setup<S>, minted: seq<Request>, n: Node<S>, r: Ready)
    requires Conserved(minted, n)
    ensures Conserved(minted, OnReady(cfg, n, r))
  {
    var installed := Install(cfg, n, r.snapshot);
    SameRequestsConserves(minted, n, installed);
    EntriesConserve(cfg, minted, installed, r.committed, r.clock);
    var a := AfterCommitted(cfg, n, r);
    SameRequestsConserves(minted, a, Store(cfg, a, r.entries, r.hardState));
    SameRequestsConserves(minted, a, AfterStore(cfg, a, r));
    EntriesConserve(cfg, minted, AfterStore(cfg, a, r), r.lightCommitted, r.clock);
    var c := HandleEntries(cfg, AfterStore(cfg, a, r), r.lightCommitted, r.clock);
    SameRequestsConserves(minted, c, AfterLight(cfg, AfterStore(cfg, a, r), r));
  }

  // Runs of one node

  ghost function NextMinted<S>(cfg: Setup<S>, minted: seq<Request>, n: Node<S>, ev: Event): seq<Request> {
    if NextNode(cfg, n, ev).responseSeq == n.responseSeq then minted
    else
      match ev
      case MessageCame(Propose(data, sender, _)) => minted + [Request(Proposal(data), sender)]
      case MessageCame(ChangeConfig(cc, sender, _)) => minted + [Request(Change(cc), sender)]
      case _ => minted
  }

  // A new number never meets a waiting sender or an old answer.
  lemma RegisterConserves<S>(minted: seq<Request>, n: Node<S>, payload: Payload, sender: Sender, accepted: bool)
    requires Conserved(minted, n) && !n.stopped
    ensures n.responseSeq !in n.senders
    ensures Conserved(minted + [Request(payload, sender)], Register(n, sender, accepted))
  {
  }

  lemma RedirectConserves<S>(minted: seq<Request>, n: Node<S>, sender: Sender, reply: Reply)
    requires Conserved(minted, n)
    ensures Conserved(minted, n.(replies := n.replies + [Redirected(sender, reply)]))
  {
    forall t: nat ensures Count(n.replies + [Redirected(sender, reply)], t) == Count(n.replies, t) {
      CountSnoc(n.replies, Redirected(sender, reply), t);
    }
  }

  lemma ProposeConserves<S>(cfg: Setup<S>, minted: seq<Request>, n: Node<S>, data: Bytes, sender: Sender, view: CoreView)
    requires Conserved(minted, n) && !n.stopped
    ensures var after := HandlePropose(cfg, n, sender, view);
      Conserved(if after.responseSeq == n.responseSeq then minted else minted + [Request(Proposal(data), sender)], after)
  {
    var after := HandlePropose(cfg, n, sender, view);
    if view.leaderId == cfg.id {
      RegisterConserves(minted, n, Proposal(data), sender, view.accepts);
    } else if view.leaderId in n.peers {
      RedirectConserves(minted, n, sender, ProposeWrongLeader(view.leaderId, n.peers[view.leaderId].addr));
    } else {
      SameRequestsConserves(minted, n, after);
    }
  }

  lemma ChangeConserves<S>(cfg: Setup<S>, minted: seq<Request>, n: Node<S>, cc: ConfChangeV2, sender: Sender, view: CoreView)
    requires Conserved(minted, n) && !n.stopped
    ensures var after := HandleConfChangeRequest(cfg, n, sender, view);
      Conserved(if after.responseSeq == n.responseSeq then minted else minted + [Request(Change(cc), sender)], after)
  {
    var after := HandleConfChangeRequest(cfg, n, sender, view);
    if view.pendingConf {
    } else if view.leaderId == cfg.id {
      RegisterConserves(minted, n, Change(cc), sender, view.accepts);
    } else if view.leaderId in n.peers {
      RedirectConserves(minted, n, sender, ConfWrongLeader(view.leaderId, n.peers[view.leaderId].addr));
    } else {
      SameRequestsConserves(minted, n, after);
    }
  }

  lemma EventConserves<S>(cfg: Setup<S>, minted: seq<Request>, n: Node<S>, ev: Event)
    requires Conserved(minted, n) && !n.stopped
    ensures Conserved(NextMinted(cfg, minted, n, ev), NextNode(cfg, n, ev))
  {
    match ev
    case ReadyCame(r) =>
      OnReadyConserves(cfg, minted, n, r);
    case MessageCame(Propose(data, sender, view)) =>
      ProposeConserves(cfg, minted, n, data, sender, view);
    case MessageCame(ChangeConfig(cc, sender, view)) =>
      ChangeConserves(cfg, minted, n, cc, sender, view);
    case MessageCame(_) =>
      SameRequestsConserves(minted, n, NextNode(cfg, n, ev));
  }

  ghost function RunMinted<S>(cfg: Setup<S>, minted: seq<Request>, n: Node<S>, evs: seq<Event>): seq<Request>
    decreases |evs|
  {
    if evs == [] || n.stopped then minted
    else RunMinted(cfg, NextMinted(cfg, minted, n, evs[0]), NextNode(cfg, n, evs[0]), evs[1..])
  }

  lemma {:induction false} MintedGrows<S>(cfg: Setup<S>, minted: seq<Request>, n: Node<S>, evs: seq<Event>)
    ensures minted <= RunMinted(cfg, minted, n, evs)
    decreases |evs|
  {
    if evs != [] && !n.stopped {
      MintedGrows(cfg, NextMinted(cfg, minted, n, evs[0]), NextNode(cfg, n, evs[0]), evs[1..]);
    }
  }

  // On every run, whatever the entries and whoever proposed them.
  lemma {:induction false} RequestsConservedOnEveryRun<S>(cfg: Setup<S>, minted: seq<Request>, n: Node<S>, evs: seq<Event>)
    requires Conserved(minted, n)
    ensures Conserved(RunMinted(cfg, minted, n, evs), RunNode(cfg, n, evs))
    decreases |evs|
  {
    if evs != [] && !n.stopped {
      EventConserves(cfg, minted, n, evs[0]);
      RequestsConservedOnEveryRun(cfg, NextMinted(cfg, minted, n, evs[0]), NextNode(cfg, n, evs[0]), evs[1..]);
    }
  }

  lemma BootConserves<S>(s0: S, peers: map<u64, Membership.Peer>, fromSnapshot: bool, now: nat)
    ensures Conserved([], Boot(s0, peers, fromSnapshot, now))
  {
  }
}
