// What replies mean: which entry triggered them, when they are true, and what callers can
// rely on where no entry of another node interferes.
module Replies {
  import opened Wrappers
  import opened RaftTypes
  import opened KeyCodec
  import opened Membership
  import opened NodeSpec
  import opened ApplyLoop
  import opened Requests

  ghost predicate Matches(request: Request, e: Entry) {
    match request.payload
    case Proposal(data) => e.body == Normal(data)
    case Change(cc) => DecodeConf(e.body) == Some(cc)
  }

  // The entry brings what was registered here under its number, if it has one.
  ghost predicate OwnEntry(minted: seq<Request>, e: Entry) {
    e.context.Token? ==> e.context.seqNo < |minted| && Matches(minted[e.context.seqNo], e)
  }

  // The entry is one whose number gets looked up.
  predicate Consumes(e: Entry, token: nat) {
    e.context == Token(token) && (Effective(e) || !e.body.Normal?)
  }

  // Additions are told their ids in order, removals are told so.
  predicate ConfReply(cc: ConfChangeV2, reply: Reply) {
    if forall c | c in cc.changes :: IsAddition(c) then
      && reply.JoinSuccess? && |reply.assignedIds| == |cc.changes|
      && forall k | 0 <= k < |cc.changes| :: reply.assignedIds[k] == cc.changes[k].nodeId
    else (forall c | c in cc.changes :: c.changeType.RemoveNode?) && reply.RemoveSuccess?
  }

  // The answer fits the request; a proposal only ever hears of success.
  predicate RightReply(request: Request, reply: Reply) {
    match request.payload
    case Proposal(_) => reply.ProposeSuccess?
    case Change(cc) => ConfReply(cc, reply)
  }

  // The answer fits the entry that triggers it.
  predicate FitsEntry(e: Entry, reply: Reply) {
    if e.body.Normal? then reply.ProposeSuccess?
    else DecodeConf(e.body).Some? && ConfReply(DecodeConf(e.body).value, reply)
  }

  // A handled entry: at most the sender waiting under its number leaves the table, and gets a
  // reply that fits the entry.
  ghost predicate HandledEntry<S>(n: Node<S>, after: Node<S>, e: Entry) {
    && after.handled == n.handled + 1
    && after.responseSeq == n.responseSeq
    && (forall t :: t in after.senders <==> t in n.senders && !Consumes(e, t))
    && (after.replies == n.replies
        || exists t: nat, r :: Consumes(e, t) && t in n.senders && FitsEntry(e, r)
             && after.replies == n.replies + [Answered(t, n.senders[t], r)])
  }

  // An entry that ends the run is not answered.
  ghost predicate Handled<S>(n: Node<S>, after: Node<S>, e: Entry) {
    if after.stopped then after.replies == n.replies && n.handled <= after.handled else HandledEntry(n, after, e)
  }

  lemma NormalIsHandled<S>(cfg: Setup<S>, n: Node<S>, e: Entry, clock: Clock)
    requires e.index == n.handled + 1 && !n.stopped && Effective(e)
    ensures Handled(n, HandleNormal(cfg, n, e, clock), e)
  {
    if e.context.Token? && e.context.seqNo in n.senders {
      var t := e.context.seqNo;
      assert HandleNormal(cfg, n, e, clock).replies == n.replies + [Answered(t, n.senders[t], ProposeSuccess)];
      assert Consumes(e, t) && FitsEntry(e, ProposeSuccess);
    }
  }

  lemma EntryIsHandled<S>(cfg: Setup<S>, n: Node<S>, e: Entry, clock: Clock)
    requires e.index == n.handled + 1 && !n.stopped
    ensures Handled(n, HandleEntry(cfg, n, e, clock), e)
  {
    if Effective(e) {
      NormalIsHandled(cfg, n, e, clock);
    } else if !e.body.Normal? && e.context.Token? && DecodeConf(e.body).Some?
              && DecodeConf(e.body).value.context.Addrs? {
      ConfIsHandled(cfg, n, e, DecodeConf(e.body).value, clock);
    }
  }

  lemma ConfIsHandled<S>(cfg: Setup<S>, n: Node<S>, e: Entry, cc: ConfChangeV2, clock: Clock)
    requires e.index == n.handled + 1 && !n.stopped && e.context.Token?
    requires !e.body.Normal? && DecodeConf(e.body) == Some(cc) && cc.context.Addrs?
    ensures Handled(n, HandleNamedConf(cfg, n, e, cc, cc.context.list, clock), e)
  {
    var end := ApplyChanges(cfg.id, Going(n.peers, n.shouldExit), cc.changes, cc.context.list);
    if end.Going? {
      AnswerIsFitting(n, BeforeAnswer(cfg, n, e, cc, clock), e, cc);
    }
  }

  lemma AnswerIsFitting<S>(n: Node<S>, mid: Node<S>, e: Entry, cc: ConfChangeV2)
    requires e.context.Token? && !e.body.Normal? && DecodeConf(e.body) == Some(cc)
    requires SameRequests(n, mid) && mid.handled == n.handled + 1 && !mid.stopped
    ensures Handled(n, AnswerConf(mid, e.context, cc.changes), e)
  {
    var after, t := AnswerConf(mid, e.context, cc.changes), e.context.seqNo;
    if !after.stopped && t in n.senders {
      var reply := if forall c | c in cc.changes :: IsAddition(c)
        then JoinSuccess(NodeIds(cc.changes), mid.peers) else RemoveSuccess;
      assert after.replies == n.replies + [Answered(t, n.senders[t], reply)];
      assert Consumes(e, t) && FitsEntry(e, reply);
    }
  }

  // Joins are answered with success and reach the peer table also when the core refuses the
  // change; the configuration and the snapshot follow exactly when it does not.
  lemma RefusedJoinIsToldSuccess<S>(
      cfg: Setup<S>, minted: seq<Request>, n: Node<S>, e: Entry, cc: ConfChangeV2, token: nat, clock: Clock)
    requires Conserved(minted, n) && token in n.senders && e.context == Token(token)
    requires DecodeConf(e.body) == Some(cc) && cc.context.Addrs? && |cc.changes| <= |cc.context.list|
    requires forall c | c in cc.changes :: IsAddition(c)
    ensures var after := HandleEntry(cfg, n, e, clock);
      && (!n.stopped ==> !after.stopped)
      && Answered(token, minted[token].sender, JoinSuccess(NodeIds(cc.changes), after.peers)) in after.replies
      && (forall c | c in cc.changes :: c.nodeId in after.peers)
      && (cfg.applyConf(n.coreConf, cc).None? ==> after.log == n.log && after.coreConf == n.coreConf)
      && (cfg.applyConf(n.coreConf, cc).Some? ==>
           after.coreConf == after.log.snapshot.confState == cfg.applyConf(n.coreConf, cc).value
           && after.log.snapshot.index == e.index)
  {
    LoopPanicsExactly(cfg.id, Going(n.peers, n.shouldExit), cc.changes, cc.context.list);
    var end := ApplyChanges(cfg.id, Going(n.peers, n.shouldExit), cc.changes, cc.context.list);
    forall c | c in cc.changes ensures c.nodeId in end.peers {
      assert Decides(cfg.id, c, c.nodeId) by {
        assert IsAddition(c);
      }
      LastDeciderExists(cfg.id, cc.changes, c.nodeId);
      LoopMeaning(cfg.id, Going(n.peers, n.shouldExit), cc.changes, cc.context.list, c.nodeId);
      var k: nat :| LastDecider(cfg.id, cc.changes, c.nodeId, k);
      assert IsAddition(cc.changes[k]);
    }
    var after := HandleEntry(cfg, n, e, clock);
    assert after.replies[|n.replies|]
        == Answered(token, minted[token].sender, JoinSuccess(NodeIds(cc.changes), after.peers));
  }

  // Runs

  // The positions of the history whose entries this node proposed and was handed out again.
  type Origin = nat -> bool

  // The history is handed out in order.  What this node proposed comes back as it was
  // registered; entries proposed elsewhere carry whatever numbers they carry.
  ghost predicate InOrder<S>(C: History, own: Origin, minted: seq<Request>, n: Node<S>, es: seq<Entry>) {
    forall k | 0 <= k < |es| ::
      && es[k] == C(n.handled + 1 + k) && es[k].index == n.handled + 1 + k
      && (own(n.handled + 1 + k) ==> OwnEntry(minted, es[k]))
  }

  // An installed snapshot covers positions that are then never handed out.
  ghost predicate Skips<S>(own: Origin, n: Node<S>, s: Snapshot) {
    s != NO_SNAPSHOT ==> n.handled < s.index && forall i | n.handled < i <= s.index :: !own(i)
  }

  ghost predicate OrderlyReady<S>(cfg: Setup<S>, C: History, own: Origin, minted: seq<Request>, n: Node<S>, r: Ready) {
    var a := AfterCommitted(cfg, n, r);
    && Skips(own, n, r.snapshot)
    && InOrder(C, own, minted, Install(cfg, n, r.snapshot), r.committed)
    && (!a.stopped ==> InOrder(C, own, minted, a, r.lightCommitted))
  }

  ghost predicate OrderlyRun<S>(
      cfg: Setup<S>, C: History, own: Origin, minted: seq<Request>, n: Node<S>, evs: seq<Event>)
    decreases |evs|
  {
    evs == [] || n.stopped ||
    (&& (evs[0].ReadyCame? ==> OrderlyReady(cfg, C, own, minted, n, evs[0].ready))
     && OrderlyRun(cfg, C, own, NextMinted(cfg, minted, n, evs[0]), NextNode(cfg, n, evs[0]), evs[1..]))
  }

  // For each reply that a step adds, the position of the entry that caused it; zero for
  // redirections, which no entry causes.

  ghost function EntryCauses<S>(cfg: Setup<S>, n: Node<S>, e: Entry, clock: Clock): seq<nat> {
    if HandleEntry(cfg, n, e, clock).replies == n.replies then [] else [e.index]
  }

  ghost function EntriesCauses<S>(cfg: Setup<S>, n: Node<S>, es: seq<Entry>, clock: Clock): seq<nat>
    decreases |es|
  {
    if es == [] then []
    else
      var init := es[..|es| - 1];
      var before := HandleEntries(cfg, n, init, clock);
      var causes := EntriesCauses(cfg, n, init, clock);
      if before.stopped then causes else causes + EntryCauses(cfg, before, es[|es| - 1], clock)
  }

  ghost function ReadyCauses<S>(cfg: Setup<S>, n: Node<S>, r: Ready): seq<nat> {
    var a := AfterCommitted(cfg, n, r);
    var causes := EntriesCauses(cfg, Install(cfg, n, r.snapshot), r.committed, r.clock);
    if a.stopped || Store(cfg, a, r.entries, r.hardState).stopped then causes
    else causes + EntriesCauses(cfg, AfterStore(cfg, a, r), r.lightCommitted, r.clock)
  }

  ghost function EventCauses<S>(cfg: Setup<S>, n: Node<S>, ev: Event): seq<nat> {
    match ev
    case ReadyCame(r) => ReadyCauses(cfg, n, r)
    case MessageCame(m) => if HandleMessage(cfg, n, m).replies == n.replies then [] else [0]
  }

  ghost function RunCauses<S>(cfg: Setup<S>, n: Node<S>, evs: seq<Event>): seq<nat>
    decreases |evs|
  {
    if evs == [] || n.stopped then []
    else EventCauses(cfg, n, evs[0]) + RunCauses(cfg, NextNode(cfg, n, evs[0]), evs[1..])
  }

  // The answer tells the truth: by the time it was given, an own entry with the number had
  // been handled.
  ghost predicate IsTrue(C: History, own: Origin, at: nat, token: nat) {
    exists i: nat :: 0 < i <= at && own(i) && Consumes(C(i), token)
  }

  // An answer was caused by an entry that carries its number and that it fits, and it is true
  // exactly when that entry is an own one, which then brings what was registered.
  ghost predicate Accounted(C: History, own: Origin, minted: seq<Request>, handled: nat, d: Delivery, at: nat) {
    d.Answered? ==>
      && 0 < at <= handled && Consumes(C(at), d.token) && FitsEntry(C(at), d.reply)
      && (IsTrue(C, own, at, d.token) <==> own(at))
      && (own(at) ==> OwnEntry(minted, C(at)))
  }

  // While the node runs: its own entries so far came back as registered, and nobody waits
  // under the number of one of them any more.
  ghost predicate OwnSettled<S>(C: History, own: Origin, minted: seq<Request>, n: Node<S>) {
    && |minted| == n.responseSeq
    && (forall t | t in n.senders :: t < |minted|)
    && (forall i: nat | 0 < i <= n.handled && own(i) :: OwnEntry(minted, C(i)))
    && (forall i: nat, t: nat | 0 < i <= n.handled && own(i) && Consumes(C(i), t) :: t !in n.senders)
  }

  // From n to after the replies with these causes were added, all of them accounted for.
  ghost predicate Tells<S>(
      C: History, own: Origin, minted: seq<Request>, n: Node<S>, after: Node<S>, causes: seq<nat>) {
    && n.handled <= after.handled
    && n.replies <= after.replies && |after.replies| == |n.replies| + |causes|
    && (forall k | 0 <= k < |causes| ::
          Accounted(C, own, minted, after.handled, after.replies[|n.replies| + k], causes[k]))
    && (!after.stopped ==> OwnSettled(C, own, minted, after))
  }

  lemma TellsJoin<S>(
      C: History, own: Origin, minted: seq<Request>, minted': seq<Request>, n: Node<S>, mid: Node<S>, after: Node<S>,
      first: seq<nat>, second: seq<nat>)
    requires minted <= minted'
    requires Tells(C, own, minted, n, mid, first) && Tells(C, own, minted', mid, after, second)
    ensures Tells(C, own, minted', n, after, first + second)
  {
    var all := first + second;
    forall k | 0 <= k < |all|
      ensures Accounted(C, own, minted', after.handled, after.replies[|n.replies| + k], all[k])
    {
      if k < |first| {
        assert after.replies[|n.replies| + k] == mid.replies[|n.replies| + k];
        assert Accounted(C, own, minted, mid.handled, mid.replies[|n.replies| + k], first[k]);
      } else {
        assert |n.replies| + k == |mid.replies| + (k - |first|);
        assert Accounted(C, own, minted', after.handled, after.replies[|mid.replies| + (k - |first|)], second[k - |first|]);
      }
    }
  }

  lemma OwnSettledNext<S>(C: History, own: Origin, minted: seq<Request>, n: Node<S>, after: Node<S>, e: Entry)
    requires OwnSettled(C, own, minted, n) && HandledEntry(n, after, e)
    requires e == C(n.handled + 1) && (own(n.handled + 1) ==> OwnEntry(minted, e))
    ensures OwnSettled(C, own, minted, after)
  {
  }

  // Who still waits has not been answered by an own entry, so the entry at hand decides.
  lemma OwnEntryDecides<S>(C: History, own: Origin, minted: seq<Request>, n: Node<S>, e: Entry, t: nat)
    requires OwnSettled(C, own, minted, n) && e == C(n.handled + 1) && Consumes(e, t) && t in n.senders
    ensures IsTrue(C, own, n.handled + 1, t) <==> own(n.handled + 1)
  {
    if IsTrue(C, own, n.handled + 1, t) {
      var i: nat :| 0 < i <= n.handled + 1 && own(i) && Consumes(C(i), t);
      assert i == n.handled + 1;
    }
  }

  lemma HandledTells<S>(C: History, own: Origin, minted: seq<Request>, n: Node<S>, after: Node<S>, e: Entry)
    requires OwnSettled(C, own, minted, n) && Handled(n, after, e)
    requires e == C(n.handled + 1) && e.index == n.handled + 1 && (own(n.handled + 1) ==> OwnEntry(minted, e))
    ensures Tells(C, own, minted, n, after, if after.replies == n.replies then [] else [e.index])
  {
    if !after.stopped {
      OwnSettledNext(C, own, minted, n, after, e);
    }
    if after.replies != n.replies {
      var t: nat, r :| Consumes(e, t) && t in n.senders && FitsEntry(e, r)
        && after.replies == n.replies + [Answered(t, n.senders[t], r)];
      OwnEntryDecides(C, own, minted, n, e, t);
      assert after.replies[|n.replies|] == Answered(t, n.senders[t], r);
    }
  }

  lemma EntryTells<S>(cfg: Setup<S>, C: History, own: Origin, minted: seq<Request>, n: Node<S>, e: Entry, clock: Clock)
    requires OwnSettled(C, own, minted, n) && !n.stopped
    requires e == C(n.handled + 1) && e.index == n.handled + 1 && (own(n.handled + 1) ==> OwnEntry(minted, e))
    ensures var after := HandleEntry(cfg, n, e, clock);
      && Tells(C, own, minted, n, after, EntryCauses(cfg, n, e, clock))
      && (after.stopped || after.handled == n.handled + 1)
  {
    var after := HandleEntry(cfg, n, e, clock);
    EntryIsHandled(cfg, n, e, clock);
    HandledTells(C, own, minted, n, after, e);
  }

  lemma InOrderLast<S>(C: History, own: Origin, minted: seq<Request>, n: Node<S>, es: seq<Entry>)
    requires es != [] && InOrder(C, own, minted, n, es)
    ensures InOrder(C, own, minted, n, es[..|es| - 1])
    ensures var e, i := es[|es| - 1], n.handled + |es|;
      e == C(i) && e.index == i && (own(i) ==> OwnEntry(minted, e))
  {
    assert es[|es| - 1] == C(n.handled + 1 + (|es| - 1));
  }

  // One more entry of a batch that began at n.
  lemma NextTells<S>(
      cfg: Setup<S>, C: History, own: Origin, minted: seq<Request>, n: Node<S>, before: Node<S>, e: Entry, clock: Clock,
      causes: seq<nat>)
    requires Tells(C, own, minted, n, before, causes) && !before.stopped
    requires e == C(before.handled + 1) && e.index == before.handled + 1
    requires own(before.handled + 1) ==> OwnEntry(minted, e)
    ensures var after := HandleEntry(cfg, before, e, clock);
      && Tells(C, own, minted, n, after, causes + EntryCauses(cfg, before, e, clock))
      && (after.stopped || after.handled == before.handled + 1)
  {
    EntryTells(cfg, C, own, minted, before, e, clock);
    TellsJoin(
      C, own, minted, minted, n, before, HandleEntry(cfg, before, e, clock), causes, EntryCauses(cfg, before, e, clock));
  }

  lemma {:induction false} EntriesTell<S>(
      cfg: Setup<S>, C: History, own: Origin, minted: seq<Request>, n: Node<S>, es: seq<Entry>, clock: Clock)
    requires OwnSettled(C, own, minted, n) && !n.stopped && InOrder(C, own, minted, n, es)
    ensures var after := HandleEntries(cfg, n, es, clock);
      && Tells(C, own, minted, n, after, EntriesCauses(cfg, n, es, clock))
      && (after.stopped || after.handled == n.handled + |es|)
    decreases |es|
  {
    if es != [] {
      var last, init := es[|es| - 1], es[..|es| - 1];
      InOrderLast(C, own, minted, n, es);
      EntriesTell(cfg, C, own, minted, n, init, clock);
      var before := HandleEntries(cfg, n, init, clock);
      if !before.stopped {
        NextTells(cfg, C, own, minted, n, before, last, clock, EntriesCauses(cfg, n, init, clock));
      }
    }
  }

  lemma InstallTells<S>(cfg: Setup<S>, C: History, own: Origin, minted: seq<Request>, n: Node<S>, s: Snapshot)
    requires OwnSettled(C, own, minted, n) && !n.stopped && Skips(own, n, s)
    ensures Tells(C, own, minted, n, Install(cfg, n, s), []) && !Install(cfg, n, s).stopped
  {
  }

  // Only the requests, the replies and the position count here.
  ghost predicate SameForReplies<S>(n: Node<S>, after: Node<S>) {
    && after.handled == n.handled && after.replies == n.replies && after.senders == n.senders
    && after.responseSeq == n.responseSeq && after.stopped == n.stopped
  }

  lemma SameOrder<S>(C: History, own: Origin, minted: seq<Request>, n: Node<S>, after: Node<S>, es: seq<Entry>)
    requires SameForReplies(n, after) && OwnSettled(C, own, minted, n) && InOrder(C, own, minted, n, es)
    ensures OwnSettled(C, own, minted, after) && InOrder(C, own, minted, after, es)
  {
  }

  lemma TellsSame<S>(
      C: History, own: Origin, minted: seq<Request>, n: Node<S>, n': Node<S>, after: Node<S>, after': Node<S>,
      causes: seq<nat>)
    requires Tells(C, own, minted, n, after, causes) && SameForReplies(n, n') && SameForReplies(after, after')
    ensures Tells(C, own, minted, n', after', causes)
  {
  }

  lemma LightTells<S>(cfg: Setup<S>, C: History, own: Origin, minted: seq<Request>, a: Node<S>, r: Ready)
    requires OwnSettled(C, own, minted, a) && !a.stopped && InOrder(C, own, minted, a, r.lightCommitted)
    requires !Store(cfg, a, r.entries, r.hardState).stopped
    ensures Tells(C, own, minted, a, AfterLight(cfg, AfterStore(cfg, a, r), r),
                  EntriesCauses(cfg, AfterStore(cfg, a, r), r.lightCommitted, r.clock))
  {
    var b := AfterStore(cfg, a, r);
    var c := HandleEntries(cfg, b, r.lightCommitted, r.clock);
    SameOrder(C, own, minted, a, b, r.lightCommitted);
    EntriesTell(cfg, C, own, minted, b, r.lightCommitted, r.clock);
    TellsSame(C, own, minted, b, a, c, AfterLight(cfg, b, r), EntriesCauses(cfg, b, r.lightCommitted, r.clock));
  }

  lemma CommittedTells<S>(cfg: Setup<S>, C: History, own: Origin, minted: seq<Request>, n: Node<S>, r: Ready)
    requires OwnSettled(C, own, minted, n) && !n.stopped && Skips(own, n, r.snapshot)
    requires InOrder(C, own, minted, Install(cfg, n, r.snapshot), r.committed)
    ensures Tells(C, own, minted, n, AfterCommitted(cfg, n, r),
                  EntriesCauses(cfg, Install(cfg, n, r.snapshot), r.committed, r.clock))
  {
    var installed := Install(cfg, n, r.snapshot);
    var causes := EntriesCauses(cfg, installed, r.committed, r.clock);
    InstallTells(cfg, C, own, minted, n, r.snapshot);
    EntriesTell(cfg, C, own, minted, installed, r.committed, r.clock);
    TellsJoin(C, own, minted, minted, n, installed, AfterCommitted(cfg, n, r), [], causes);
    assert [] + causes == causes;
  }

  lemma ReadyTells<S>(cfg: Setup<S>, C: History, own: Origin, minted: seq<Request>, n: Node<S>, r: Ready)
    requires OwnSettled(C, own, minted, n) && !n.stopped && OrderlyReady(cfg, C, own, minted, n, r)
    ensures Tells(C, own, minted, n, OnReady(cfg, n, r), ReadyCauses(cfg, n, r))
  {
    CommittedTells(cfg, C, own, minted, n, r);
    var a := AfterCommitted(cfg, n, r);
    if !a.stopped && !Store(cfg, a, r.entries, r.hardState).stopped {
      LightTells(cfg, C, own, minted, a, r);
      TellsJoin(C, own, minted, minted, n, a, OnReady(cfg, n, r),
                EntriesCauses(cfg, Install(cfg, n, r.snapshot), r.committed, r.clock),
                EntriesCauses(cfg, AfterStore(cfg, a, r), r.lightCommitted, r.clock));
    }
  }

  // Requests are registered or redirected; neither answers anybody.
  lemma NothingAnswered<S>(
      C: History, own: Origin, minted: seq<Request>, minted': seq<Request>, n: Node<S>, after: Node<S>)
    requires OwnSettled(C, own, minted, n)
    requires RequestShape(minted, minted', n, after)
    ensures Tells(C, own, minted', n, after, if after.replies == n.replies then [] else [0])
  {
    forall i: nat | 0 < i <= n.handled && own(i) ensures OwnEntry(minted', C(i)) {
      assert OwnEntry(minted, C(i));
    }
  }

  ghost predicate RequestShape<S>(minted: seq<Request>, minted': seq<Request>, n: Node<S>, after: Node<S>) {
    && after.handled == n.handled && minted <= minted' && |minted'| == after.responseSeq
    && (forall t | t in after.senders :: t in n.senders || |minted| <= t < |minted'|)
    && (after.replies == n.replies || exists d: Delivery :: d.Redirected? && after.replies == n.replies + [d])
  }

  lemma RegisterShape<S>(minted: seq<Request>, n: Node<S>, request: Request, accepted: bool)
    requires |minted| == n.responseSeq
    ensures RequestShape(minted, minted + [request], n, Register(n, request.sender, accepted))
  {
  }

  lemma RedirectShape<S>(minted: seq<Request>, n: Node<S>, sender: Sender, reply: Reply)
    requires |minted| == n.responseSeq && forall t | t in n.senders :: t < |minted|
    ensures RequestShape(minted, minted, n, n.(replies := n.replies + [Redirected(sender, reply)]))
  {
    assert Redirected(sender, reply).Redirected?;
  }

  lemma MessageShape<S>(cfg: Setup<S>, minted: seq<Request>, n: Node<S>, m: Message)
    requires |minted| == n.responseSeq && forall t | t in n.senders :: t < |minted|
    ensures RequestShape(minted, NextMinted(cfg, minted, n, MessageCame(m)), n, HandleMessage(cfg, n, m))
  {
    match m
    case Propose(data, sender, view) =>
      RegisterShape(minted, n, Request(Proposal(data), sender), view.accepts);
      if view.leaderId in n.peers {
        RedirectShape(minted, n, sender, ProposeWrongLeader(view.leaderId, n.peers[view.leaderId].addr));
      }
    case ChangeConfig(cc, sender, view) =>
      RegisterShape(minted, n, Request(Change(cc), sender), view.accepts);
      if view.leaderId in n.peers {
        RedirectShape(minted, n, sender, ConfWrongLeader(view.leaderId, n.peers[view.leaderId].addr));
      }
    case _ =>
  }

  lemma MessageTells<S>(cfg: Setup<S>, C: History, own: Origin, minted: seq<Request>, n: Node<S>, m: Message)
    requires OwnSettled(C, own, minted, n) && !n.stopped
    ensures Tells(C, own, NextMinted(cfg, minted, n, MessageCame(m)), n, HandleMessage(cfg, n, m),
                  EventCauses(cfg, n, MessageCame(m)))
  {
    MessageShape(cfg, minted, n, m);
    NothingAnswered(C, own, minted, NextMinted(cfg, minted, n, MessageCame(m)), n, HandleMessage(cfg, n, m));
  }

  lemma EventTells<S>(cfg: Setup<S>, C: History, own: Origin, minted: seq<Request>, n: Node<S>, ev: Event)
    requires OwnSettled(C, own, minted, n) && !n.stopped
    requires ev.ReadyCame? ==> OrderlyReady(cfg, C, own, minted, n, ev.ready)
    ensures Tells(C, own, NextMinted(cfg, minted, n, ev), n, NextNode(cfg, n, ev), EventCauses(cfg, n, ev))
  {
    match ev
    case ReadyCame(r) => ReadyTells(cfg, C, own, minted, n, r);
    case MessageCame(m) => MessageTells(cfg, C, own, minted, n, m);
  }

  lemma {:induction false} RunTells<S>(
      cfg: Setup<S>, C: History, own: Origin, minted: seq<Request>, n: Node<S>, evs: seq<Event>)
    requires (!n.stopped ==> OwnSettled(C, own, minted, n)) && OrderlyRun(cfg, C, own, minted, n, evs)
    ensures Tells(C, own, RunMinted(cfg, minted, n, evs), n, RunNode(cfg, n, evs), RunCauses(cfg, n, evs))
    decreases |evs|
  {
    if evs != [] && !n.stopped {
      var n', minted' := NextNode(cfg, n, evs[0]), NextMinted(cfg, minted, n, evs[0]);
      EventTells(cfg, C, own, minted, n, evs[0]);
      RunTells(cfg, C, own, minted', n', evs[1..]);
      MintedGrows(cfg, minted', n', evs[1..]);
      TellsJoin(C, own, minted', RunMinted(cfg, minted', n', evs[1..]), n, n', RunNode(cfg, n', evs[1..]),
                EventCauses(cfg, n, evs[0]), RunCauses(cfg, n', evs[1..]));
    }
  }

  // A run of a node bootstrapped on an empty store, and what it ends with.

  ghost predicate BootedRun<S>(
      cfg: Setup<S>, C: History, own: Origin, s0: S, peers: map<u64, Peer>, now: nat, evs: seq<Event>) {
    OrderlyRun(cfg, C, own, [], Boot(s0, peers, false, now), evs)
  }

  datatype Outcome<S> = Outcome(node: Node<S>, minted: seq<Request>, causes: seq<nat>)

  ghost function RunFrom<S>(cfg: Setup<S>, n: Node<S>, evs: seq<Event>): Outcome<S> {
    Outcome(RunNode(cfg, n, evs), RunMinted(cfg, [], n, evs), RunCauses(cfg, n, evs))
  }

  ghost function RunBooted<S>(cfg: Setup<S>, s0: S, peers: map<u64, Peer>, now: nat, evs: seq<Event>): Outcome<S> {
    RunFrom(cfg, Boot(s0, peers, false, now), evs)
  }

  ghost predicate AllAccounted<S>(C: History, own: Origin, o: Outcome<S>) {
    && |o.causes| == |o.node.replies|
    && forall k | 0 <= k < |o.causes| ::
         Accounted(C, own, o.minted, o.node.handled, o.node.replies[k], o.causes[k])
  }

  lemma BootedRunTells<S>(
      cfg: Setup<S>, C: History, own: Origin, s0: S, peers: map<u64, Peer>, now: nat, evs: seq<Event>)
    requires BootedRun(cfg, C, own, s0, peers, now, evs)
    ensures var o := RunBooted(cfg, s0, peers, now, evs);
      && AllAccounted(C, own, o) && Conserved(o.minted, o.node)
      && (!o.node.stopped ==> OwnSettled(C, own, o.minted, o.node))
  {
    var n0 := Boot(s0, peers, false, now);
    RunTells(cfg, C, own, [], n0, evs);
    BootConserves(s0, peers, false, now);
    RequestsConservedOnEveryRun(cfg, [], n0, evs);
  }

  ghost predicate AllTrue<S>(C: History, own: Origin, o: Outcome<S>) {
    forall k | 0 <= k < |o.node.replies| && k < |o.causes| && o.node.replies[k].Answered? ::
      IsTrue(C, own, o.causes[k], o.node.replies[k].token)
  }

  // No entry proposed elsewhere met somebody waiting under its number.
  ghost predicate Undisturbed<S>(own: Origin, o: Outcome<S>) {
    forall k | 0 <= k < |o.node.replies| && k < |o.causes| && o.node.replies[k].Answered? :: own(o.causes[k])
  }

  // On every run that hands out the history in order, whoever proposed its entries and
  // whatever snapshots are installed: each answer was caused by an entry that carries its
  // number and fits it; it is true exactly when that entry is an own one, which then brings
  // what was registered; so all answers are true exactly when no entry proposed elsewhere
  // met somebody waiting under its number.
  lemma AnswersTrueExactly<S>(
      cfg: Setup<S>, C: History, own: Origin, s0: S, peers: map<u64, Peer>, now: nat, evs: seq<Event>)
    requires BootedRun(cfg, C, own, s0, peers, now, evs)
    ensures var o := RunBooted(cfg, s0, peers, now, evs);
      && AllAccounted(C, own, o)
      && (AllTrue(C, own, o) <==> Undisturbed(own, o))
  {
    BootedRunTells(cfg, C, own, s0, peers, now, evs);
    var o := RunBooted(cfg, s0, peers, now, evs);
    assert forall k | 0 <= k < |o.causes| ::
      Accounted(C, own, o.minted, o.node.handled, o.node.replies[k], o.causes[k]);
  }

  // Stable leadership is the simplest reason: every handed-out entry with a number is own.
  lemma StableLeadershipIsUndisturbed<S>(
      cfg: Setup<S>, C: History, own: Origin, s0: S, peers: map<u64, Peer>, now: nat, evs: seq<Event>)
    requires BootedRun(cfg, C, own, s0, peers, now, evs)
    requires forall i: nat | 0 < i <= RunBooted(cfg, s0, peers, now, evs).node.handled && C(i).context.Token? :: own(i)
    ensures Undisturbed(own, RunBooted(cfg, s0, peers, now, evs))
  {
    BootedRunTells(cfg, C, own, s0, peers, now, evs);
    var o := RunBooted(cfg, s0, peers, now, evs);
    assert forall k | 0 <= k < |o.causes| ::
      Accounted(C, own, o.minted, o.node.handled, o.node.replies[k], o.causes[k]);
  }

  // The failing input: somebody waits under number 0 for one value, and an entry proposed
  // elsewhere under its own number 0 brings another.
  lemma ForeignEntryMisleads<S>(
      cfg: Setup<S>, s0: S, peers: map<u64, Peer>, now: nat, mine: Bytes, theirs: Bytes, sender: Sender, clock: Clock)
    requires theirs != [] && theirs != mine
    ensures var proposal := Propose(mine, sender, CoreView(cfg.id, false, true));
      var waiting := HandleMessage(cfg, Boot(s0, peers, false, now), proposal);
      var after := HandleEntry(cfg, waiting, Entry(1, 1, Normal(theirs), Token(0)), clock);
      && Answered(0, sender, ProposeSuccess) in after.replies
      && after.fsm == cfg.fsm.apply(s0, theirs)
  {
    var proposal := Propose(mine, sender, CoreView(cfg.id, false, true));
    var waiting := HandleMessage(cfg, Boot(s0, peers, false, now), proposal);
    var after := HandleEntry(cfg, waiting, Entry(1, 1, Normal(theirs), Token(0)), clock);
    assert after.replies == [Answered(0, sender, ProposeSuccess)];
  }

  // What callers can rely on

  ghost predicate AnswerGiven<S>(o: Outcome<S>, t: nat)
    requires t < |o.minted|
  {
    exists r :: Answered(t, o.minted[t].sender, r) in o.node.replies
  }

  ghost predicate OwnConsumed(C: History, own: Origin, handled: nat, t: nat) {
    exists i: nat :: 0 < i <= handled && own(i) && Consumes(C(i), t)
  }

  lemma WaitingOrAnswered<S>(o: Outcome<S>, t: nat)
    requires Conserved(o.minted, o.node) && !o.node.stopped && t < |o.minted|
    ensures t in o.node.senders <==> !AnswerGiven(o, t)
  {
    CountedIsThere(o.node.replies, t);
    if t !in o.node.senders {
      var k :| 0 <= k < |o.node.replies| && o.node.replies[k].Answered? && o.node.replies[k].token == t;
      assert o.node.replies[k] == Answered(t, o.minted[t].sender, o.node.replies[k].reply);
    }
  }

  // An own entry that was handed out leaves nobody waiting under its number, whatever else
  // was handed out.
  lemma OwnEntryIsAnswered<S>(
      cfg: Setup<S>, C: History, own: Origin, s0: S, peers: map<u64, Peer>, now: nat, evs: seq<Event>, i: nat, t: nat)
    requires BootedRun(cfg, C, own, s0, peers, now, evs)
    requires !RunBooted(cfg, s0, peers, now, evs).node.stopped
    requires 0 < i <= RunBooted(cfg, s0, peers, now, evs).node.handled && own(i) && Consumes(C(i), t)
    ensures var o := RunBooted(cfg, s0, peers, now, evs);
      t < |o.minted| && Matches(o.minted[t], C(i)) && t !in o.node.senders && AnswerGiven(o, t)
  {
    BootedRunTells(cfg, C, own, s0, peers, now, evs);
    var o := RunBooted(cfg, s0, peers, now, evs);
    assert OwnEntry(o.minted, C(i));
    WaitingOrAnswered(o, t);
  }

  lemma AnsweredWhenConsumed<S>(C: History, own: Origin, o: Outcome<S>, t: nat)
    requires AllAccounted(C, own, o) && Conserved(o.minted, o.node) && OwnSettled(C, own, o.minted, o.node)
    requires Undisturbed(own, o) && !o.node.stopped && t < |o.minted|
    ensures AnswerGiven(o, t) <==> OwnConsumed(C, own, o.node.handled, t)
    ensures forall s, r | Answered(t, s, r) in o.node.replies :: s == o.minted[t].sender && RightReply(o.minted[t], r)
  {
    WaitingOrAnswered(o, t);
    forall s, r | Answered(t, s, r) in o.node.replies
      ensures s == o.minted[t].sender && RightReply(o.minted[t], r) && OwnConsumed(C, own, o.node.handled, t)
    {
      var k :| 0 <= k < |o.node.replies| && o.node.replies[k] == Answered(t, s, r);
      assert Accounted(C, own, o.minted, o.node.handled, o.node.replies[k], o.causes[k]) && own(o.causes[k]);
      assert OwnEntry(o.minted, C(o.causes[k]));
    }
  }

  lemma UndisturbedRunTells<S>(
      cfg: Setup<S>, C: History, own: Origin, s0: S, peers: map<u64, Peer>, now: nat, evs: seq<Event>, t: nat)
    requires BootedRun(cfg, C, own, s0, peers, now, evs)
    requires var o := RunBooted(cfg, s0, peers, now, evs);
      Undisturbed(own, o) && !o.node.stopped && t < |o.minted|
    ensures var o := RunBooted(cfg, s0, peers, now, evs);
      && OwnSettled(C, own, o.minted, o.node)
      && (t in o.node.senders <==> !AnswerGiven(o, t))
      && (AnswerGiven(o, t) <==> OwnConsumed(C, own, o.node.handled, t))
      && (forall s, r | Answered(t, s, r) in o.node.replies :: s == o.minted[t].sender && RightReply(o.minted[t], r))
  {
    BootedRunTells(cfg, C, own, s0, peers, now, evs);
    var o := RunBooted(cfg, s0, peers, now, evs);
    WaitingOrAnswered(o, t);
    AnsweredWhenConsumed(C, own, o, t);
  }

  // On every undisturbed run of a running node: a proposal has been told success exactly when
  // its own non-empty entry has been handed out and applied, a membership change has been
  // answered exactly when its own entry has been handled, and every answer fits its request.
  lemma SuccessExactlyWhenApplied<S>(
      cfg: Setup<S>, C: History, own: Origin, s0: S, peers: map<u64, Peer>, now: nat, evs: seq<Event>, t: nat)
    requires BootedRun(cfg, C, own, s0, peers, now, evs)
    requires var o := RunBooted(cfg, s0, peers, now, evs);
      Undisturbed(own, o) && !o.node.stopped && t < |o.minted|
    ensures var o := RunBooted(cfg, s0, peers, now, evs);
      var request := o.minted[t];
      && (request.payload.Proposal? ==>
           (Answered(t, request.sender, ProposeSuccess) in o.node.replies
            <==> exists i: nat :: 0 < i <= o.node.handled && own(i) && Effective(C(i)) && C(i).context == Token(t)
                                  && C(i).body == Normal(request.payload.data)))
      && (request.payload.Change? ==>
           (AnswerGiven(o, t)
            <==> exists i: nat :: 0 < i <= o.node.handled && own(i) && C(i).context == Token(t)
                                  && DecodeConf(C(i).body) == Some(request.payload.cc)))
      && (forall s, r | Answered(t, s, r) in o.node.replies :: s == request.sender && RightReply(request, r))
  {
    UndisturbedRunTells(cfg, C, own, s0, peers, now, evs, t);
    var o := RunBooted(cfg, s0, peers, now, evs);
    if o.minted[t].payload.Proposal? {
      ProposalConsumed(C, own, o, t);
    } else {
      ChangeConsumed(C, own, o, t);
    }
  }

  lemma ProposalConsumed<S>(C: History, own: Origin, o: Outcome<S>, t: nat)
    requires OwnSettled(C, own, o.minted, o.node) && t < |o.minted| && o.minted[t].payload.Proposal?
    ensures OwnConsumed(C, own, o.node.handled, t)
      <==> exists i: nat :: 0 < i <= o.node.handled && own(i) && Effective(C(i)) && C(i).context == Token(t)
                            && C(i).body == Normal(o.minted[t].payload.data)
  {
    if OwnConsumed(C, own, o.node.handled, t) {
      var i: nat :| 0 < i <= o.node.handled && own(i) && Consumes(C(i), t);
      assert OwnEntry(o.minted, C(i));
    }
    if i: nat :| 0 < i <= o.node.handled && own(i) && Effective(C(i)) && C(i).context == Token(t) {
      assert Consumes(C(i), t);
    }
  }

  lemma ChangeConsumed<S>(C: History, own: Origin, o: Outcome<S>, t: nat)
    requires OwnSettled(C, own, o.minted, o.node) && t < |o.minted| && o.minted[t].payload.Change?
    ensures OwnConsumed(C, own, o.node.handled, t)
      <==> exists i: nat :: 0 < i <= o.node.handled && own(i) && C(i).context == Token(t)
                            && DecodeConf(C(i).body) == Some(o.minted[t].payload.cc)
  {
    if OwnConsumed(C, own, o.node.handled, t) {
      var i: nat :| 0 < i <= o.node.handled && own(i) && Consumes(C(i), t);
      assert OwnEntry(o.minted, C(i));
    }
    if i: nat :| 0 < i <= o.node.handled && own(i) && C(i).context == Token(t)
                 && DecodeConf(C(i).body) == Some(o.minted[t].payload.cc) {
      assert Consumes(C(i), t);
    }
  }

  // On every undisturbed run a proposal has been answered exactly when its data is not empty
  // and its entry has been handed out.  Empty entries are skipped, and entries that an
  // installed snapshot covers are never seen; whoever proposed one goes on waiting.
  lemma AnsweredUnlessEmpty<S>(
      cfg: Setup<S>, C: History, own: Origin, s0: S, peers: map<u64, Peer>, now: nat, evs: seq<Event>, t: nat)
    requires BootedRun(cfg, C, own, s0, peers, now, evs)
    requires var o := RunBooted(cfg, s0, peers, now, evs);
      Undisturbed(own, o) && !o.node.stopped && t < |o.minted| && o.minted[t].payload.Proposal?
    ensures var o := RunBooted(cfg, s0, peers, now, evs);
      var handedOut := exists i: nat :: 0 < i <= o.node.handled && own(i) && C(i).context == Token(t);
      && (AnswerGiven(o, t) <==> o.minted[t].payload.data != [] && handedOut)
      && (t in o.node.senders <==> !(o.minted[t].payload.data != [] && handedOut))
  {
    UndisturbedRunTells(cfg, C, own, s0, peers, now, evs, t);
    var o := RunBooted(cfg, s0, peers, now, evs);
    forall i: nat | 0 < i <= o.node.handled && own(i) && C(i).context == Token(t)
      ensures Consumes(C(i), t) <==> o.minted[t].payload.data != []
    {
      assert OwnEntry(o.minted, C(i));
    }
  }

  // An empty proposal, registered and committed: its entry is handled and nobody is told.
  lemma EmptyProposalWaits<S>(cfg: Setup<S>, s0: S, peers: map<u64, Peer>, now: nat, sender: Sender, clock: Clock)
    ensures var proposal := Propose([], sender, CoreView(cfg.id, false, true));
      var waiting := HandleMessage(cfg, Boot(s0, peers, false, now), proposal);
      var after := HandleEntry(cfg, waiting, Entry(1, 1, Normal([]), Token(0)), clock);
      after.handled == 1 && after.replies == [] && after.senders == map[0 := sender]
  {
  }

  // Any proposal whose position a snapshot covers: the node is past it and nobody is told.
  lemma SkippedProposalWaits<S>(
      cfg: Setup<S>, s0: S, peers: map<u64, Peer>, now: nat, data: Bytes, sender: Sender, s: Snapshot, clock: Clock)
    requires s.index == 1
    ensures var proposal := Propose(data, sender, CoreView(cfg.id, false, true));
      var waiting := HandleMessage(cfg, Boot(s0, peers, false, now), proposal);
      var after := OnReady(cfg, waiting, Ready(s, [], [], None, 0, None, [], 0, clock));
      after.handled == 1 && after.replies == [] && after.senders == map[0 := sender] && !after.stopped
  {
  }
}
