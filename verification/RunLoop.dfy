// `run`: wait for a message, account for the time, serve the core's Ready, until the node
// leaves or an error ends it.
module RunLoop {
  import opened Wrappers
  import opened KeyCodec
  import Membership
  import opened NodeSpec
  import opened ApplyLoop
  import opened RaftNodeCore
  import opened TickTimer
  import opened Requests

  // One iteration: the message received in it, if any, the time it took, and the Ready the
  // core had at its end, if any.
  datatype Turn = Turn(message: Option<Message>, elapsed: nat, ready: Option<Ready>)

  datatype Running<S> = Running(node: Node<S>, timer: Timer)

  ghost function AfterMessage<S>(cfg: Setup<S>, n: Node<S>, m: Option<Message>): Node<S> {
    match m
    case Some(message) => NextNode(cfg, n, MessageCame(message))
    case None => n
  }

  ghost function AfterReady<S>(cfg: Setup<S>, n: Node<S>, r: Option<Ready>): Node<S> {
    match r
    case Some(ready) => NextNode(cfg, n, ReadyCame(ready))
    case None => n
  }

  ghost function NextTurn<S>(interval: nat, cfg: Setup<S>, st: Running<S>, turn: Turn): Running<S> {
    var told := AfterMessage(cfg, st.node, turn.message);
    if told.stopped then Running(told, st.timer)
    else Running(AfterReady(cfg, told, turn.ready), AfterIteration(interval, st.timer, turn.elapsed))
  }

  ghost function RunTurns<S>(interval: nat, cfg: Setup<S>, st: Running<S>, turns: seq<Turn>): Running<S>
    decreases |turns|
  {
    if turns == [] || st.node.shouldExit || st.node.stopped then st
    else RunTurns(interval, cfg, NextTurn(interval, cfg, st, turns[0]), turns[1..])
  }

  predicate FitsKeys(turn: Turn) {
    turn.ready.Some? ==> forall e | e in turn.ready.value.entries :: e.index < KEY_BOUND
  }

  method ServeTurn<S>(node: RaftNodeCore<S>, interval: nat, turn: Turn, tickTimer: nat, ticks: nat)
    returns (tickTimer': nat, ticks': nat)
    requires node.Valid() && !node.stopped && FitsKeys(turn)
    modifies node, node.store, node.peers
    ensures node.Valid()
    ensures Running(node.View(), Timer(tickTimer', ticks'))
      == NextTurn(interval, node.cfg, old(Running(node.View(), Timer(tickTimer, ticks))), turn)
  {
    tickTimer', ticks' := tickTimer, ticks;
    match turn.message {
      case Some(message) =>
        node.HandleRequestMsg(message);
        if node.stopped {
          return;
        }
      case None =>
    }
    if turn.elapsed > tickTimer {
      tickTimer' := interval;
      ticks' := ticks + 1;
    } else {
      tickTimer' := tickTimer - turn.elapsed;
    }
    match turn.ready
    case Some(ready) => node.OnReady(ready);
    case None =>
  }

  method Run<S>(node: RaftNodeCore<S>, interval: nat, turns: seq<Turn>) returns (tickTimer: nat, ticks: nat)
    requires node.Valid() && forall turn | turn in turns :: FitsKeys(turn)
    modifies node, node.store, node.peers
    ensures node.Valid()
    ensures Running(node.View(), Timer(tickTimer, ticks))
      == RunTurns(interval, node.cfg, Running(old(node.View()), Timer(interval, 0)), turns)
  {
    tickTimer, ticks := interval, 0;
    ghost var start := Running(node.View(), Timer(interval, 0));
    assert turns[0..] == turns;
    for k := 0 to |turns|
      invariant node.Valid()
      invariant RunTurns(interval, node.cfg, start, turns)
        == RunTurns(interval, node.cfg, Running(node.View(), Timer(tickTimer, ticks)), turns[k..])
    {
      if node.shouldExit || node.stopped {
        return;
      }
      assert turns[k..][0] == turns[k] && turns[k..][1..] == turns[k + 1..];
      tickTimer, ticks := ServeTurn(node, interval, turns[k], tickTimer, ticks);
    }
  }

  // What a run keeps

  // Where the node's configuration started, after an iteration.
  ghost function TurnBase<S>(cfg: Setup<S>, base: Base, n: Node<S>, turn: Turn): Base {
    if AfterMessage(cfg, n, turn.message).stopped || turn.ready.None? then base
    else NextBase(base, turn.ready.value)
  }

  // The core's contract for every Ready, and requested snapshots that fit, for as long as the
  // run lasts.
  ghost predicate LegalTurn<S>(cfg: Setup<S>, C: History, s0: S, base: Base, n: Node<S>, turn: Turn) {
    var told := AfterMessage(cfg, n, turn.message);
    && (turn.message.Some? ==> Allowed(cfg, C, base, n, turn.message.value))
    && (turn.ready.Some? && !told.stopped ==>
         CoreContract(cfg, C, told, turn.ready.value) && SnapshotTrue(cfg.fsm, C, s0, turn.ready.value.snapshot))
  }

  ghost predicate LegalTurns<S>(
      interval: nat, cfg: Setup<S>, C: History, s0: S, base: Base, st: Running<S>, turns: seq<Turn>)
    decreases |turns|
  {
    turns == [] || st.node.shouldExit || st.node.stopped ||
    (&& LegalTurn(cfg, C, s0, base, st.node, turns[0])
     && LegalTurns(
          interval, cfg, C, s0, TurnBase(cfg, base, st.node, turns[0]),
          NextTurn(interval, cfg, st, turns[0]), turns[1..]))
  }

  lemma TurnKeepsGood<S(!new)>(
      interval: nat, cfg: Setup<S>, C: History, s0: S, base: Base, st: Running<S>, turn: Turn)
    requires Lawful(cfg.fsm) && Indexed(C) && Good(cfg, C, s0, base, st.node) && !st.node.stopped
    requires LegalTurn(cfg, C, s0, base, st.node, turn)
    ensures Good(cfg, C, s0, TurnBase(cfg, base, st.node, turn), NextTurn(interval, cfg, st, turn).node)
  {
    var told := AfterMessage(cfg, st.node, turn.message);
    if turn.message.Some? {
      MessageKeepsGood(cfg, C, s0, base, st.node, turn.message.value);
    }
    if !told.stopped && turn.ready.Some? {
      OnReadyKeepsGood(cfg, C, s0, base, told, turn.ready.value);
    }
  }

  lemma {:induction false} TurnsKeepGood<S(!new)>(
      interval: nat, cfg: Setup<S>, C: History, s0: S, base: Base, st: Running<S>, turns: seq<Turn>) returns (base': Base)
    requires Lawful(cfg.fsm) && Indexed(C) && Good(cfg, C, s0, base, st.node)
    requires LegalTurns(interval, cfg, C, s0, base, st, turns)
    ensures Good(cfg, C, s0, base', RunTurns(interval, cfg, st, turns).node)
    decreases |turns|
  {
    base' := base;
    if turns != [] && !st.node.shouldExit && !st.node.stopped {
      TurnKeepsGood(interval, cfg, C, s0, base, st, turns[0]);
      base' := TurnsKeepGood(
        interval, cfg, C, s0, TurnBase(cfg, base, st.node, turns[0]), NextTurn(interval, cfg, st, turns[0]), turns[1..]);
    }
  }

  // However the run went and however it ended: the store recovers the live state machine,
  // which is the fold of the history up to the last handled index.
  lemma RunIsRecoverable<S(!new)>(
      interval: nat, cfg: Setup<S>, C: History, s0: S, peers: map<u64, Membership.Peer>, now: nat, turns: seq<Turn>)
    requires Lawful(cfg.fsm) && Indexed(C)
    requires LegalTurns(
      interval, cfg, C, s0, Base(0, InitialConf(peers)), Running(Boot(s0, peers, false, now), Timer(interval, 0)), turns)
    ensures var n := RunTurns(interval, cfg, Running(Boot(s0, peers, false, now), Timer(interval, 0)), turns).node;
      Recoverable(cfg, s0, n) && n.fsm == FoldFsm(cfg.fsm, C, s0, n.handled)
  {
    var n0 := Boot(s0, peers, false, now);
    BootIsGood(cfg, C, s0, peers, false, now);
    var base := TurnsKeepGood(interval, cfg, C, s0, Base(0, n0.coreConf), Running(n0, Timer(interval, 0)), turns);
    GoodIsRecoverable(
      cfg, C, s0, base, RunTurns(interval, cfg, Running(n0, Timer(interval, 0)), turns).node);
  }

  // Bootstrapped on an empty store and left to run: what the node object then holds.
  method BootAndRun<S(!new)>(
      cfg: Setup<S>, fsm: S, initialPeers: map<u64, Membership.Peer>, interval: nat, now: nat, turns: seq<Turn>,
      ghost C: History)
    returns (node: RaftNodeCore<S>)
    requires cfg.backend.Heed? && Lawful(cfg.fsm) && Indexed(C) && forall turn | turn in turns :: FitsKeys(turn)
    requires LegalTurns(
      interval, cfg, C, fsm, Base(0, InitialConf(initialPeers)),
      Running(Boot(fsm, initialPeers, false, now), Timer(interval, 0)), turns)
    ensures node.Valid() && Recoverable(cfg, fsm, node.View())
    ensures node.fsm == FoldFsm(cfg.fsm, C, fsm, node.handled)
  {
    node := new RaftNodeCore(cfg, fsm, false, initialPeers, false, now);
    var tickTimer, ticks := Run(node, interval, turns);
    RunIsRecoverable(interval, cfg, C, fsm, initialPeers, now, turns);
  }

  // What the loop does with its turns, in terms of the turns alone.

  // The events of an iteration: its message, then the Ready.
  function TurnEvents(turn: Turn): seq<Event> {
    (if turn.message.Some? then [MessageCame(turn.message.value)] else [])
    + (if turn.ready.Some? then [ReadyCame(turn.ready.value)] else [])
  }

  function EventsOf(turns: seq<Turn>): seq<Event> {
    if turns == [] then [] else TurnEvents(turns[0]) + EventsOf(turns[1..])
  }

  function Elapsed(turns: seq<Turn>): (times: seq<nat>)
    ensures |times| == |turns| && forall k | 0 <= k < |turns| :: times[k] == turns[k].elapsed
  {
    seq(|turns|, k requires 0 <= k < |turns| => turns[k].elapsed)
  }

  predicate Over<S>(n: Node<S>) {
    n.stopped || n.shouldExit
  }

  lemma TurnIsEvents<S>(interval: nat, cfg: Setup<S>, st: Running<S>, turn: Turn)
    requires !st.node.stopped
    ensures NextTurn(interval, cfg, st, turn).node == RunNode(cfg, st.node, TurnEvents(turn))
  {
    var first := if turn.message.Some? then [MessageCame(turn.message.value)] else [];
    var second := if turn.ready.Some? then [ReadyCame(turn.ready.value)] else [];
    RunsJoin(cfg, st.node, first, second);
    assert RunNode(cfg, st.node, first) == AfterMessage(cfg, st.node, turn.message);
  }

  lemma FirstTurn<S>(interval: nat, cfg: Setup<S>, st: Running<S>, turns: seq<Turn>, j: nat)
    requires j < |turns| && !st.node.stopped
    ensures RunNode(cfg, st.node, EventsOf(turns[..j + 1]))
      == RunNode(cfg, NextTurn(interval, cfg, st, turns[0]).node, EventsOf(turns[1..][..j]))
  {
    var rest := turns[1..][..j];
    assert turns[..j + 1][0] == turns[0] && turns[..j + 1][1..] == rest;
    TurnIsEvents(interval, cfg, st, turns[0]);
    RunsJoin(cfg, st.node, TurnEvents(turns[0]), EventsOf(rest));
  }

  // The loop runs the events of its first k turns, all of them unless the node stopped or
  // was asked to exit, and no turn after that.
  lemma {:induction false} LoopIsEventRun<S>(interval: nat, cfg: Setup<S>, st: Running<S>, turns: seq<Turn>)
    returns (k: nat)
    ensures k <= |turns|
    ensures RunTurns(interval, cfg, st, turns).node == RunNode(cfg, st.node, EventsOf(turns[..k]))
    ensures k < |turns| ==> Over(RunTurns(interval, cfg, st, turns).node)
    ensures forall j | 0 <= j < k :: !Over(RunNode(cfg, st.node, EventsOf(turns[..j])))
    decreases |turns|
  {
    if turns == [] || Over(st.node) {
      return 0;
    }
    var next, rest := NextTurn(interval, cfg, st, turns[0]), turns[1..];
    var m := LoopIsEventRun(interval, cfg, next, rest);
    k := m + 1;
    FirstTurn(interval, cfg, st, turns, m);
    forall j | 0 <= j < k ensures !Over(RunNode(cfg, st.node, EventsOf(turns[..j]))) {
      if j == 0 {
        assert EventsOf(turns[..0]) == [];
      } else {
        FirstTurn(interval, cfg, st, turns, j - 1);
      }
    }
  }

  // Whatever the core hands out, requests stay accounted for through the run.
  lemma RunConservesRequests<S>(
      interval: nat, cfg: Setup<S>, minted: seq<Request>, st: Running<S>, turns: seq<Turn>) returns (minted': seq<Request>)
    requires Conserved(minted, st.node)
    ensures minted <= minted' && Conserved(minted', RunTurns(interval, cfg, st, turns).node)
  {
    var k := LoopIsEventRun(interval, cfg, st, turns);
    var evs := EventsOf(turns[..k]);
    minted' := RunMinted(cfg, minted, st.node, evs);
    MintedGrows(cfg, minted, st.node, evs);
    RequestsConservedOnEveryRun(cfg, minted, st.node, evs);
  }

  // Ticks

  // How many turns reach the accounting.
  ghost function Counted<S>(interval: nat, cfg: Setup<S>, st: Running<S>, turns: seq<Turn>): (k: nat)
    ensures k <= |turns|
    decreases |turns|
  {
    if turns == [] || Over(st.node) || AfterMessage(cfg, st.node, turns[0].message).stopped then 0
    else 1 + Counted(interval, cfg, NextTurn(interval, cfg, st, turns[0]), turns[1..])
  }

  lemma ElapsedFirst(past: seq<nat>, turns: seq<Turn>, k: nat)
    requires 0 < k <= |turns|
    ensures past + Elapsed(turns[..k]) == (past + [turns[0].elapsed]) + Elapsed(turns[1..][..k - 1])
  {
  }

  lemma NextIteration(interval: nat, past: seq<nat>, elapsed: nat)
    ensures AfterIterations(interval, past + [elapsed])
      == AfterIteration(interval, AfterIterations(interval, past), elapsed)
  {
    assert (past + [elapsed])[..|past|] == past;
  }

  lemma EndedByMessage<S>(interval: nat, cfg: Setup<S>, st: Running<S>, turns: seq<Turn>)
    requires turns != [] && !Over(st.node) && AfterMessage(cfg, st.node, turns[0].message).stopped
    ensures var after := RunTurns(interval, cfg, st, turns);
      after.node.stopped && after.timer == st.timer && after.node == NextTurn(interval, cfg, st, turns[0]).node
  {
    var next := NextTurn(interval, cfg, st, turns[0]);
    assert RunTurns(interval, cfg, next, turns[1..]) == next;
  }

  lemma {:induction false} TimerFollows<S>(
      interval: nat, cfg: Setup<S>, past: seq<nat>, st: Running<S>, turns: seq<Turn>)
    requires st.timer == AfterIterations(interval, past)
    ensures RunTurns(interval, cfg, st, turns).timer
      == AfterIterations(interval, past + Elapsed(turns[..Counted(interval, cfg, st, turns)]))
    decreases |turns|
  {
    var k := Counted(interval, cfg, st, turns);
    if k == 0 {
      assert past + Elapsed(turns[..0]) == past;
      if turns != [] && !Over(st.node) {
        EndedByMessage(interval, cfg, st, turns);
      }
    } else {
      NextIteration(interval, past, turns[0].elapsed);
      ElapsedFirst(past, turns, k);
      TimerFollows(
        interval, cfg, past + [turns[0].elapsed], NextTurn(interval, cfg, st, turns[0]), turns[1..]);
    }
  }

  // The node was over before turn k, or that turn stopped it.
  ghost predicate EndsAt<S>(cfg: Setup<S>, n: Node<S>, turns: seq<Turn>, k: nat)
    requires k < |turns|
  {
    Over(RunNode(cfg, n, EventsOf(turns[..k]))) || RunNode(cfg, n, EventsOf(turns[..k + 1])).stopped
  }

  lemma EndsLater<S>(interval: nat, cfg: Setup<S>, st: Running<S>, turns: seq<Turn>, k: nat)
    requires k + 1 < |turns| && !st.node.stopped
    requires EndsAt(cfg, NextTurn(interval, cfg, st, turns[0]).node, turns[1..], k)
    ensures EndsAt(cfg, st.node, turns, k + 1)
  {
    FirstTurn(interval, cfg, st, turns, k);
    FirstTurn(interval, cfg, st, turns, k + 1);
  }

  // All turns are counted while the node runs; otherwise all but a last one whose message
  // ended the run.
  lemma {:induction false} CountedExactly<S>(interval: nat, cfg: Setup<S>, st: Running<S>, turns: seq<Turn>)
    ensures var k := Counted(interval, cfg, st, turns);
      k < |turns| ==> Over(RunTurns(interval, cfg, st, turns).node) && EndsAt(cfg, st.node, turns, k)
    decreases |turns|
  {
    var k := Counted(interval, cfg, st, turns);
    if k == 0 {
      assert EventsOf(turns[..0]) == [];
      if turns != [] && !Over(st.node) {
        EndedByMessage(interval, cfg, st, turns);
        assert EventsOf(turns[1..][..0]) == [];
        FirstTurn(interval, cfg, st, turns, 0);
      }
    } else {
      CountedExactly(interval, cfg, NextTurn(interval, cfg, st, turns[0]), turns[1..]);
      if k < |turns| {
        EndsLater(interval, cfg, st, turns, k - 1);
      }
    }
  }

  // At most one tick per interval of the time, and at least one per interval + d.
  predicate InRate(interval: nat, t: Timer, time: nat, d: nat) {
    t.left <= interval && t.ticks * interval <= time <= t.ticks * (interval + d) + interval
  }

  lemma RateBounds(interval: nat, times: seq<nat>, d: nat)
    requires forall i | 0 <= i < |times| :: times[i] <= d
    ensures InRate(interval, AfterIterations(interval, times), Sum(times), d)
  {
    TicksTakeTime(interval, times);
    TimeBringsTicks(interval, times, d);
  }

  lemma ElapsedRate(interval: nat, turns: seq<Turn>, k: nat, d: nat)
    requires k <= |turns| && forall turn | turn in turns :: turn.elapsed <= d
    ensures InRate(interval, AfterIterations(interval, Elapsed(turns[..k])), Sum(Elapsed(turns[..k])), d)
  {
    var times := Elapsed(turns[..k]);
    forall i | 0 <= i < |times| ensures times[i] <= d {
      assert turns[i] in turns;
    }
    RateBounds(interval, times, d);
  }

  lemma CountedTimer<S>(interval: nat, cfg: Setup<S>, st: Running<S>, turns: seq<Turn>)
    requires st.timer == Timer(interval, 0)
    ensures RunTurns(interval, cfg, st, turns).timer
      == AfterIterations(interval, Elapsed(turns[..Counted(interval, cfg, st, turns)]))
  {
    TimerFollows(interval, cfg, [], st, turns);
    var times := Elapsed(turns[..Counted(interval, cfg, st, turns)]);
    assert [] + times == times;
  }

  // The core is ticked at most once per interval of the time that passed, and when no
  // iteration takes longer than d, at least once per interval + d.
  lemma TickRateOnEveryRun<S>(interval: nat, cfg: Setup<S>, st: Running<S>, turns: seq<Turn>, d: nat) returns (k: nat)
    requires st.timer == Timer(interval, 0) && forall turn | turn in turns :: turn.elapsed <= d
    ensures k <= |turns|
    ensures k < |turns| ==> Over(RunTurns(interval, cfg, st, turns).node) && EndsAt(cfg, st.node, turns, k)
    ensures InRate(interval, RunTurns(interval, cfg, st, turns).timer, Sum(Elapsed(turns[..k])), d)
  {
    k := Counted(interval, cfg, st, turns);
    CountedTimer(interval, cfg, st, turns);
    ElapsedRate(interval, turns, k, d);
    CountedExactly(interval, cfg, st, turns);
  }
}
