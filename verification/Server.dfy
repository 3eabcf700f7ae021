/** The server's timing and shutdown decisions, and its event loop over the connection table
    (src/server.rs). Reading and writing the device is not modelled: the events come as a sequence
    and the packets sent are returned. */
module Server {
  import opened SeqSpace
  import opened Wire
  import opened PendingSegments
  import opened Connections
  import opened Lives
  import opened Independence
  import opened Retransmission
  import opened ProtocolCodec
  import opened PacketCodec
  import opened Encoding
  import opened EventLoop

  datatype ShutdownDecision =
    | AlreadyDraining(timeLeft: nat)
    | BeganDraining(toSend: seq<TcpSegment>, deadline: int)
    | NoConnections

  function SaturatingDurationSince(deadline: int, now: int): nat {
    if now <= deadline then deadline - now else 0
  }

  lemma DueLater(cfg: Config, t: Table, time: int, later: int)
    requires time <= later
    ensures SomeDue(cfg, t, time) ==> SomeDue(cfg, t, later)
  {
    if SomeDue(cfg, t, time) {
      var k :| k in t && AnyDue(t[k].pending, cfg.rto, time);
      var i :| 0 <= i < |t[k].pending| && IsDue(t[k].pending[i], cfg.rto, time);
      assert IsDue(t[k].pending[i], cfg.rto, later);
    }
  }

  /** If no connection is closing after all established ones were closed, none was established, and there
      is nothing to send. */
  lemma NothingClosedNothingSent(t: Table, now: int)
    requires !ClosingLeft(CloseTable(t, now))
    ensures Carries([], CloseSent(t, t.Keys, now))
  {
    forall k | k in t
      ensures CloseOut(t, k, now) == []
    {
      assert k in CloseTable(t, now);
    }
  }

  /** What `decide_shutdown` does to the table `t`, giving `closed`: the first signal closes every
      established connection, and draining starts exactly when some connection is then still closing, or
      fails if the deadline cannot be represented; a later signal changes nothing. */
  ghost predicate Decides(s: Setup, t: Table, deadline: Option<int>, now: int, closed: Table, decision: Result<ShutdownDecision>) {
    if deadline.Some? then
      decision == Ok(AlreadyDraining(if now < deadline.value then deadline.value - now else 0)) && closed == t
    else
      && closed == CloseTable(t, now)
      && (decision == Ok(NoConnections) <==> !ClosingLeft(closed))
      && (decision != Ok(NoConnections) ==>
            if now + s.gracePeriod <= s.instantMax then
              && decision.Ok? && decision.value.BeganDraining?
              && decision.value.deadline == now + s.gracePeriod
              && Carries(decision.value.toSend, CloseSent(t, t.Keys, now))
            else
              decision == Err(InstantOverflow))
  }

  function Announcement(decision: Result<ShutdownDecision>): seq<TcpSegment> {
    if decision.Ok? && decision.value.BeganDraining? then decision.value.toSend else []
  }

  function NewDeadline(deadline: Option<int>, decision: Result<ShutdownDecision>): Option<int> {
    if decision.Ok? && decision.value.BeganDraining? then Some(decision.value.deadline) else deadline
  }

  function Outcome(decision: Result<ShutdownDecision>): Exit {
    if decision.Err? then DeadlineOverflow else if decision.value.NoConnections? then NothingToClose else Running
  }

  /** What a signal does: to the table, to the deadline, and to the loop. */
  ghost predicate Signalled(s: Setup, t: Table, deadline: Option<int>, now: int, closed: Table, next: Option<int>,
                            toSend: seq<TcpSegment>, exit: Exit) {
    if deadline.Some? then closed == t && next == deadline && toSend == [] && exit == Running
    else
      && closed == CloseTable(t, now)
      && exit == AfterSignal(closed, now + s.gracePeriod <= s.instantMax)
      && next == (if exit == Running then Some(now + s.gracePeriod) else None)
      && (if exit == DeadlineOverflow then toSend == [] else Carries(toSend, CloseSent(t, t.Keys, now)))
  }

  /** What the first signal leads to, for any account of what is announced. */
  lemma FirstSignal(closing: bool, representable: bool, at: int, decision: Result<ShutdownDecision>, announces: seq<TcpSegment> -> bool)
    requires decision == Ok(NoConnections) <==> !closing
    requires closing ==>
      if representable then
        decision.Ok? && decision.value.BeganDraining? && decision.value.deadline == at && announces(decision.value.toSend)
      else decision == Err(InstantOverflow)
    requires !closing ==> announces([])
    ensures Outcome(decision) == if !closing then NothingToClose else if !representable then DeadlineOverflow else Running
    ensures NewDeadline(None, decision) == if Outcome(decision) == Running then Some(at) else None
    ensures if Outcome(decision) == DeadlineOverflow then Announcement(decision) == [] else announces(Announcement(decision))
  {
  }

  lemma FirstDecision(s: Setup, t: Table, now: int, closed: Table, decision: Result<ShutdownDecision>)
    requires Decides(s, t, None, now, closed, decision)
    ensures Signalled(s, t, None, now, closed, NewDeadline(None, decision), Announcement(decision), Outcome(decision))
  {
    var sent := CloseSent(t, t.Keys, now);
    if !ClosingLeft(closed) {
      NothingClosedNothingSent(t, now);
    }
    FirstSignal(ClosingLeft(closed), now + s.gracePeriod <= s.instantMax, now + s.gracePeriod, decision,
                segs => Carries(segs, sent));
  }

  lemma DecisionSignals(s: Setup, t: Table, deadline: Option<int>, now: int, closed: Table, decision: Result<ShutdownDecision>)
    requires Decides(s, t, deadline, now, closed, decision)
    ensures Signalled(s, t, deadline, now, closed, NewDeadline(deadline, decision), Announcement(decision), Outcome(decision))
  {
    if deadline.None? {
      FirstDecision(s, t, now, closed, decision);
    }
  }

  /** What a timeout does: past the deadline nothing, otherwise what is due is resent. */
  ghost predicate TimedOut(cfg: Config, t: Table, deadline: Option<int>, now: int, ticked: Table, over: bool, out: seq<TcpSegment>) {
    && (over <==> deadline.Some? && deadline.value <= now)
    && (if over then ticked == t && out == []
        else ticked == TickTable(cfg, t, now) && Carries(out, TickSent(cfg, t, t.Keys, now)))
  }

  lemma IsTimedOut(cfg: Config, t: Table, deadline: Option<int>, now: int, ticked: Table, out: seq<TcpSegment>)
    requires deadline.None? || now < deadline.value
    requires ticked == TickTable(cfg, t, now) && Carries(out, TickSent(cfg, t, t.Keys, now))
    ensures TimedOut(cfg, t, deadline, now, ticked, false, out)
  {
  }

  /** At `time` the grace period is over or a segment is due. */
  ghost predicate WakesAt(cfg: Config, t: Table, deadline: Option<int>, time: int) {
    (deadline.Some? && deadline.value <= time) || SomeDue(cfg, t, time)
  }

  /** A timeout that comes when it should, or later, ends the loop or makes progress. */
  lemma TimeoutMakesProgress(cfg: Config, t: Table, deadline: Option<int>, wake: int, now: int, ticked: Table, out: seq<TcpSegment>)
    requires WakesAt(cfg, t, deadline, wake) && wake <= now && TimedOut(cfg, t, deadline, now, ticked, false, out)
    ensures Measure(cfg.maxRetries, ticked) < Measure(cfg.maxRetries, t)
  {
    DueLater(cfg, t, wake, now);
    WakingMakesProgress(cfg, t, now);
  }

  /** What a packet does, and whether draining is done with it. */
  ghost predicate Answered(t: Table, deadline: Option<int>, seg: TcpSegment, isn: Option<u32>, now: int, after: Table,
                           out: seq<TcpSegment>, exit: Exit) {
    var o := DecideReply(t, seg, isn, now);
    && after == o.table && Carries(out, map[KeyOf(seg) := Replied(o.result)])
    && exit == if deadline.Some? && !ClosingLeft(after) then AllClosed else Running
  }

  /** `out` is what is to be sent about `ev`. */
  ghost predicate Emits(cfg: Config, l: Loop, ev: ServerEvent, r: Loop, out: seq<TcpSegment>) {
    if Served(l, r) then Carries(out, ServerStep(cfg, l.table, ev).sent) else out == []
  }

  /** Table, deadline and decision after the reaction of the loop to `ev`, with `out` to be sent. */
  ghost predicate IsReaction(s: Setup, l: Loop, ev: ServerEvent, t: Table, deadline: Option<int>, out: seq<TcpSegment>, exit: Exit) {
    var r := Reaction(s, l, ev);
    t == r.table && deadline == r.deadline && exit == r.exit && Emits(s.cfg, l, ev, r, out)
  }

  lemma SignalAdvances(s: Setup, l: Loop, now: int, after: Table)
    requires l.exit == Running
    ensures var r, exit := Advance(s, l, Shutdown(now), after), AfterSignal(after, now + s.gracePeriod <= s.instantMax);
      && (l.deadline.Some? ==> r == l)
      && (l.deadline.None? ==>
            && r.table == after && r.exit == exit
            && r.deadline == (if exit == Running then Some(now + s.gracePeriod) else None)
            && (Served(l, r) <==> exit != DeadlineOverflow))
  {
  }

  lemma SignalReacts(s: Setup, l: Loop, now: int, closed: Table, next: Option<int>, out: seq<TcpSegment>, exit: Exit)
    requires l.exit == Running && Signalled(s, l.table, l.deadline, now, closed, next, out, exit)
    ensures IsReaction(s, l, Shutdown(now), closed, next, out, exit)
  {
    SignalAdvances(s, l, now, CloseTable(l.table, now));
  }

  lemma TimeoutReacts(s: Setup, l: Loop, now: int, ticked: Table, over: bool, out: seq<TcpSegment>)
    requires l.exit == Running && TimedOut(s.cfg, l.table, l.deadline, now, ticked, over, out)
    ensures IsReaction(s, l, Wake(now), ticked, l.deadline, out, if over then GraceOver else Running)
  {
  }

  lemma AnswerReacts(s: Setup, l: Loop, seg: TcpSegment, isn: Option<u32>, now: int, after: Table, out: seq<TcpSegment>, exit: Exit)
    requires l.exit == Running && Answered(l.table, l.deadline, seg, isn, now, after, out, exit)
    ensures IsReaction(s, l, Incoming(seg, isn, now), after, l.deadline, out, exit)
  {
  }

  class EchoServer {
    const connections: TcpConnections
    const gracePeriod: nat
    /** The last moment an `Instant` can represent. */
    const instantMax: int
    var shutdownDeadline: Option<int>

    constructor (connections: TcpConnections, gracePeriod: nat, instantMax: int)
      ensures this.connections == connections && this.gracePeriod == gracePeriod && this.instantMax == instantMax
      ensures shutdownDeadline == None
    {
      this.connections := connections;
      this.gracePeriod := gracePeriod;
      this.instantMax := instantMax;
      shutdownDeadline := None;
    }

    ghost function SetUp(): Setup {
      Setup(connections.cfg, gracePeriod, instantMax)
    }

    /** Nothing can become due any more. */
    ghost predicate Idle()
      reads this, connections, connections.table.Values
    {
      shutdownDeadline.None? && forall k :: k in connections.View() ==> connections.View()[k].pending == []
    }

    /** At `time` the grace period is over or a segment is due. */
    ghost predicate Wakes(time: int)
      reads this, connections, connections.table.Values
    {
      WakesAt(connections.cfg, connections.View(), shutdownDeadline, time)
    }

    /** The retransmission rounds that are left, as a measure. */
    ghost function RoundsLeft(): nat
      reads this, connections, connections.table.Values
    {
      Measure(connections.cfg.maxRetries, connections.View())
    }

    /** `poll_timeout`: it blocks for ever only when nothing can become due; otherwise the wake-up
        finds the grace period over or a segment due, and nothing was due strictly before it. */
    method PollTimeout(now: int) returns (timeout: Option<nat>)
      ensures timeout.None? <==> Idle()
      ensures timeout.Some? ==>
        var wake := now + timeout.value;
        Wakes(wake) && forall time :: now <= time < wake ==> !Wakes(time)
    {
      var next := connections.NextRetransmitDeadline();
      ghost var t := connections.View();
      if next.Some? {
        ghost var k, i :| k in t && 0 <= i < |t[k].pending|
                    && TimeDue(t[k].pending[i], connections.cfg.rto) == next.value;
        assert forall time :: next.value <= time ==> IsDue(t[k].pending[i], connections.cfg.rto, time);
        assert t[k].pending != [];
      }
      if shutdownDeadline.None? && next.None? {
        return None;
      }
      var deadline :=
        if next.None? || (shutdownDeadline.Some? && shutdownDeadline.value <= next.value)
        then shutdownDeadline.value else next.value;
      timeout := Some(SaturatingDurationSince(deadline, now));
    }

    /** `grace_period_elapsed`. */
    method GracePeriodElapsed(now: int) returns (elapsed: bool)
      ensures elapsed <==> shutdownDeadline.Some? && shutdownDeadline.value <= now
    {
      elapsed := shutdownDeadline.Some? && shutdownDeadline.value <= now;
    }

    /** `decide_shutdown`. */
    method DecideShutdown(now: int) returns (decision: Result<ShutdownDecision>)
      requires connections.Valid()
      modifies connections.table.Values
      ensures Decides(SetUp(), old(connections.View()), shutdownDeadline, now, connections.View(), decision)
      ensures shutdownDeadline.None? ==>
        forall k :: k in connections.View() ==> !connections.View()[k].tcpState.Established?
    {
      if shutdownDeadline.Some? {
        return Ok(AlreadyDraining(SaturatingDurationSince(shutdownDeadline.value, now)));
      }
      ghost var t := connections.View();
      var toSend := connections.CloseEstablished(now);
      ClosedTableHasNoneEstablished(t, now);
      var closing := connections.ClosingInProgress();
      if !closing {
        return Ok(NoConnections);
      }
      if now + gracePeriod > instantMax {
        return Err(InstantOverflow);
      }
      decision := Ok(BeganDraining(toSend, now + gracePeriod));
    }

    /** `handle_shutdown_interrupt`, up to the sending: what is to be sent, and how the loop goes on. */
    method HandleShutdownInterrupt(now: int) returns (toSend: seq<TcpSegment>, exit: Exit)
      requires connections.Valid()
      modifies this`shutdownDeadline, connections.table.Values
      ensures Signalled(SetUp(), old(connections.View()), old(shutdownDeadline), now,
                        connections.View(), shutdownDeadline, toSend, exit)
    {
      ghost var t := connections.View();
      var d := shutdownDeadline;
      var decision := DecideShutdown(now);
      ghost var closed := connections.View();
      DecisionSignals(SetUp(), t, d, now, closed, decision);
      toSend, exit := Announcement(decision), Outcome(decision);
      shutdownDeadline := NewDeadline(d, decision);
      assert connections.View() == closed;
    }

    /** The branch of the loop for a poll that timed out: the grace period is over, or what is due is resent. */
    method HandleTimeout(now: int) returns (over: bool, out: seq<TcpSegment>)
      requires connections.Valid()
      modifies connections, connections.table.Values
      ensures connections.Valid() && connections.table.Values <= old(connections.table.Values)
      ensures TimedOut(connections.cfg, old(connections.View()), shutdownDeadline, now, connections.View(), over, out)
    {
      ghost var t := connections.View();
      over := GracePeriodElapsed(now);
      if over {
        return over, [];
      }
      out := connections.MakeRetransmissions(now);
      IsTimedOut(connections.cfg, t, shutdownDeadline, now, connections.View(), out);
    }

    /** The next wake-up is at `wake`, or never. */
    ghost predicate Awaits(wake: Option<int>)
      reads this, connections, connections.table.Values
    {
      if wake.None? then Idle() else Wakes(wake.value)
    }

    method NextWake(now: int) returns (wake: Option<int>)
      ensures Awaits(wake)
    {
      var timeout := PollTimeout(now);
      wake := if timeout.None? then None else Some(now + timeout.value);
    }

    /** One round of the loop when nothing arrives: oversleeping `wake`, the time to wake up. */
    method Round(wake: int, late: nat) returns (now: int, exited: bool)
      requires connections.Valid() && Wakes(wake)
      modifies connections, connections.table.Values
      ensures connections.Valid() && connections.table.Values <= old(connections.table.Values)
      ensures exited ==> shutdownDeadline.Some? && shutdownDeadline.value <= now
      ensures if exited then RoundsLeft() == old(RoundsLeft()) else RoundsLeft() < old(RoundsLeft())
    {
      ghost var t := connections.View();
      now := wake + late;
      var out;
      exited, out := HandleTimeout(now);
      if !exited {
        TimeoutMakesProgress(connections.cfg, t, shutdownDeadline, wake, now, connections.View(), out);
      }
    }

    /** The same, and when to wake up next. */
    method RoundAndWait(wake: int, late: nat) returns (now: int, exited: bool, next: Option<int>)
      requires connections.Valid() && Wakes(wake)
      modifies connections, connections.table.Values
      ensures connections.Valid() && connections.table.Values <= old(connections.table.Values)
      ensures exited ==> shutdownDeadline.Some? && shutdownDeadline.value <= now
      ensures if exited then RoundsLeft() == old(RoundsLeft()) else RoundsLeft() < old(RoundsLeft()) && Awaits(next)
    {
      now, exited := Round(wake, late);
      next := NextWake(now);
    }

    /** The loop when nothing arrives any more, each poll oversleeping by some time: it comes to an end
        after at most as many retransmission rounds as the measure allows. Then either the grace period
        is over, or it blocks for ever, with no deadline and nothing left to retransmit. */
    method RunWithoutInput(start: int, late: nat -> nat) returns (now: int, exited: bool, rounds: nat)
      requires connections.Valid()
      modifies connections, connections.table.Values
      ensures connections.Valid()
      ensures rounds + RoundsLeft() <= old(RoundsLeft())
      ensures if exited then shutdownDeadline.Some? && shutdownDeadline.value <= now else Idle()
    {
      now, exited, rounds := start, false, 0;
      var wake := NextWake(now);
      while wake.Some?
        invariant connections.Valid() && connections.table.Values <= old(connections.table.Values)
        invariant Awaits(wake)
        invariant rounds + RoundsLeft() <= old(RoundsLeft())
        decreases RoundsLeft()
      {
        now, exited, wake := RoundAndWait(wake.value, late(rounds));
        if exited {
          return;
        }
        rounds := rounds + 1;
      }
    }

    /** The branch of the loop for a packet that was read, up to the sending. */
    method HandleReadable(seg: TcpSegment, isn: Option<u32>, now: int) returns (out: seq<TcpSegment>, exit: Exit)
      requires connections.Valid()
      modifies connections, connections.table.Values
      ensures connections.Valid() && fresh(connections.table.Values - old(connections.table.Values))
      ensures Answered(old(connections.View()), shutdownDeadline, seg, isn, now, connections.View(), out, exit)
    {
      ghost var result := DecideReply(connections.View(), seg, isn, now).result;
      var reply := connections.CreateReply(seg, isn, now);
      out := if reply.Ok? && reply.value.Some? then [reply.value.value] else [];
      assert out == Addressed(KeyOf(seg), Replied(result));
      ReplyCarries(KeyOf(seg), result);
      var closing := connections.ClosingInProgress();
      exit := if shutdownDeadline.Some? && !closing then AllClosed else Running;
    }

    method ReactToPacket(seg: TcpSegment, isn: Option<u32>, now: int, ghost l: Loop) returns (out: seq<TcpSegment>, exit: Exit)
      requires connections.Valid() && Stands(l) && l.exit == Running
      modifies this`shutdownDeadline, connections, connections.table.Values
      ensures connections.Valid() && fresh(connections.table.Values - old(connections.table.Values))
      ensures Reacts(l, Incoming(seg, isn, now), out, exit)
    {
      out, exit := HandleReadable(seg, isn, now);
      AnswerReacts(SetUp(), l, seg, isn, now, connections.View(), out, exit);
    }

    method ReactToTimeout(now: int, ghost l: Loop) returns (out: seq<TcpSegment>, exit: Exit)
      requires connections.Valid() && Stands(l) && l.exit == Running
      modifies this`shutdownDeadline, connections, connections.table.Values
      ensures connections.Valid() && fresh(connections.table.Values - old(connections.table.Values))
      ensures Reacts(l, Wake(now), out, exit)
    {
      var over;
      over, out := HandleTimeout(now);
      exit := if over then GraceOver else Running;
      TimeoutReacts(SetUp(), l, now, connections.View(), over, out);
    }

    method ReactToSignal(now: int, ghost l: Loop) returns (out: seq<TcpSegment>, exit: Exit)
      requires connections.Valid() && Stands(l) && l.exit == Running
      modifies this`shutdownDeadline, connections, connections.table.Values
      ensures connections.Valid() && fresh(connections.table.Values - old(connections.table.Values))
      ensures Reacts(l, Shutdown(now), out, exit)
    {
      out, exit := HandleShutdownInterrupt(now);
      SignalReacts(SetUp(), l, now, connections.View(), shutdownDeadline, out, exit);
    }

    /** One event, up to the sending: what is to be sent, and how the loop would go on. */
    method React(ev: ServerEvent, ghost l: Loop) returns (out: seq<TcpSegment>, exit: Exit)
      requires connections.Valid() && Stands(l) && l.exit == Running
      modifies this`shutdownDeadline, connections, connections.table.Values
      ensures connections.Valid() && fresh(connections.table.Values - old(connections.table.Values))
      ensures Reacts(l, ev, out, exit)
    {
      match ev
      case Incoming(seg, isn, now) => out, exit := ReactToPacket(seg, isn, now, l);
      case Wake(now) => out, exit := ReactToTimeout(now, l);
      case Shutdown(now) => out, exit := ReactToSignal(now, l);
    }

    /** The server has done about `ev` what the loop does, and is to send `out`. */
    ghost predicate Reacts(l: Loop, ev: ServerEvent, out: seq<TcpSegment>, exit: Exit)
      reads this, connections, connections.table.Values
    {
      IsReaction(SetUp(), l, ev, connections.View(), shutdownDeadline, out, exit)
    }

    /** The server is where the loop `l` is. */
    ghost predicate Stands(l: Loop)
      reads this, connections, connections.table.Values
    {
      connections.View() == l.table && shutdownDeadline == l.deadline
    }
  }

  lemma AddressedConcat(k: ConnKey, a: seq<SendInfo>, b: seq<SendInfo>)
    ensures Addressed(k, a + b) == Addressed(k, a) + Addressed(k, b)
  {
  }

  lemma CarriesStep(wire: seq<TcpSegment>, more: seq<TcpSegment>, sent: map<ConnKey, seq<SendInfo>>, k: ConnKey, before: seq<SendInfo>)
    requires OnWire(wire, k) == Addressed(k, before) && Carries(more, sent)
    ensures OnWire(wire + more, k) == Addressed(k, before + SentOn(sent, k))
  {
    OnWireConcat(wire, more, k);
    var now := SentOn(sent, k);
    assert OnWire(more, k) == Addressed(k, now);
    AddressedConcat(k, before, now);
  }

  lemma ReplyCarries(k: ConnKey, result: Result<Option<SendInfo>>)
    ensures Carries(Addressed(k, Replied(result)), map[k := Replied(result)])
  {
    forall j
      ensures OnWire(Addressed(k, Replied(result)), j)
           == Addressed(j, if j in map[k := Replied(result)] then map[k := Replied(result)][j] else [])
    {
      OnWireAddressed(k, Replied(result), j);
    }
  }

  /** `wire` holds on each connection what the run `evs` sends there. */
  ghost predicate WireOf(cfg: Config, evs: seq<ServerEvent>, wire: seq<TcpSegment>) {
    forall k :: OnWire(wire, k) == Addressed(k, SentAfter(cfg, map[], evs, k))
  }

  lemma WireGrows(cfg: Config, evs: seq<ServerEvent>, ev: ServerEvent, wire: seq<TcpSegment>, more: seq<TcpSegment>)
    requires WireOf(cfg, evs, wire)
    requires Carries(more, ServerStep(cfg, TableAfter(cfg, map[], evs), ev).sent)
    ensures WireOf(cfg, evs + [ev], wire + more)
  {
    forall k
      ensures OnWire(wire + more, k) == Addressed(k, SentAfter(cfg, map[], evs + [ev], k))
    {
      RunOne(cfg, map[], evs, ev, k);
      CarriesStep(wire, more, ServerStep(cfg, TableAfter(cfg, map[], evs), ev).sent, k, SentAfter(cfg, map[], evs, k));
    }
  }

  // ---------------------------------------------------------------------------------------------
  // Sending

  lemma {:induction false} OnWireHolds(segs: seq<TcpSegment>, k: ConnKey, seg: TcpSegment)
    ensures seg in OnWire(segs, k) <==> seg in segs && DestKey(seg) == k
  {
    if segs != [] {
      OnWireHolds(segs[..|segs| - 1], k, seg);
    }
  }

  /** The segments of an event all fit into a packet exactly when what the table machine sends does. */
  lemma AllFitIff(segs: seq<TcpSegment>, sent: map<ConnKey, seq<SendInfo>>)
    requires Carries(segs, sent)
    ensures (forall seg :: seg in segs ==> FitsPacket(seg.payload)) <==> forall k, info :: info in SentOn(sent, k) ==> FitsPacket(info.payload)
  {
    if forall seg :: seg in segs ==> FitsPacket(seg.payload) {
      forall k, info | info in SentOn(sent, k)
        ensures FitsPacket(info.payload)
      {
        SentIsCarried(segs, sent, k, info);
      }
    } else {
      var seg :| seg in segs && !FitsPacket(seg.payload);
      CarriedIsSent(segs, sent, seg);
      var k, info :| info in SentOn(sent, k) && seg == Outgoing(k, info);
      assert !FitsPacket(info.payload);
    }
  }

  lemma SentIsCarried(segs: seq<TcpSegment>, sent: map<ConnKey, seq<SendInfo>>, k: ConnKey, info: SendInfo)
    requires Carries(segs, sent) && info in SentOn(sent, k)
    ensures Outgoing(k, info) in segs
  {
    var infos := SentOn(sent, k);
    var i :| 0 <= i < |infos| && infos[i] == info;
    assert Addressed(k, infos)[i] == Outgoing(k, info);
    assert OnWire(segs, k) == Addressed(k, infos);
    OnWireHolds(segs, k, Outgoing(k, info));
  }

  lemma CarriedIsSent(segs: seq<TcpSegment>, sent: map<ConnKey, seq<SendInfo>>, seg: TcpSegment)
    requires Carries(segs, sent) && seg in segs
    ensures exists k, info :: info in SentOn(sent, k) && seg == Outgoing(k, info)
  {
    var k := DestKey(seg);
    OnWireHolds(segs, k, seg);
    var infos := SentOn(sent, k);
    assert OnWire(segs, k) == Addressed(k, infos);
    var i :| 0 <= i < |infos| && Addressed(k, infos)[i] == seg;
    assert infos[i] in infos;
  }

  /** `packets` are the encodings of `segs`. */
  predicate Encoded(packets: seq<Bytes>, segs: seq<TcpSegment>) {
    && |packets| == |segs|
    && forall i :: 0 <= i < |segs| ==> FitsPacket(segs[i].payload) && packets[i] == Packet(segs[i])
  }

  /** `send_pkt` on each segment in turn, up to the first one that does not fit. */
  method SendAll(segs: seq<TcpSegment>, writeBuf: array<u8>) returns (packets: seq<Bytes>)
    requires writeBuf.Length == ETHERNET_MTU
    modifies writeBuf
    ensures SentUpTo(segs, packets)
  {
    packets := [];
    for i := 0 to |segs|
      invariant |packets| == i && Encoded(packets, segs[..i])
    {
      var packet := EncodePacket(segs[i], writeBuf);
      if packet.Err? {
        return;
      }
      packets := packets + [packet.value];
    }
  }

  /** What `Run` leaves: the packets on the wire, the segments they encode, and what could not be sent. */
  datatype Sent = Sent(packets: seq<Bytes>, wire: seq<TcpSegment>, unsent: seq<TcpSegment>)

  /** The events whose segments were to be sent: not the last one, if its deadline overflowed. */
  function Announced(l: Loop): seq<ServerEvent> {
    if l.exit == DeadlineOverflow && l.done != [] then l.done[..|l.done| - 1] else l.done
  }

  /** The packets encode the segments that were sent; sending stopped, if at all, at a segment that does
      not fit; and sent and unsent segments together are what the table machine sends. */
  ghost predicate IsSent(cfg: Config, l: Loop, s: Sent) {
    && Encoded(s.packets, s.wire)
    && (if l.exit == DoesNotEncode then s.unsent != [] && !FitsPacket(s.unsent[0].payload) else s.unsent == [])
    && WireOf(cfg, Announced(l), s.wire + s.unsent)
  }

  lemma EncodedConcat(a: seq<Bytes>, s: seq<TcpSegment>, b: seq<Bytes>, t: seq<TcpSegment>)
    requires Encoded(a, s) && Encoded(b, t)
    ensures Encoded(a + b, s + t)
  {
  }

  /** `more` are the packets of `out` up to the first segment that does not fit. */
  predicate SentUpTo(out: seq<TcpSegment>, more: seq<Bytes>) {
    && |more| <= |out| && Encoded(more, out[..|more|])
    && (|more| < |out| ==> !FitsPacket(out[|more|].payload))
  }

  lemma AllEncodedIff(out: seq<TcpSegment>, sent: map<ConnKey, seq<SendInfo>>, more: seq<Bytes>)
    requires Carries(out, sent) && SentUpTo(out, more)
    ensures |more| == |out| <==> forall k, info :: info in SentOn(sent, k) ==> FitsPacket(info.payload)
  {
    AllFitIff(out, sent);
    if |more| < |out| {
      assert out[|more|] in out;
    } else {
      forall seg | seg in out
        ensures FitsPacket(seg.payload)
      {
        var i :| 0 <= i < |out| && out[i] == seg;
        assert out[..|more|][i] == seg;
      }
    }
  }

  /** How the loop goes on once its segments have been sent, or some of them. */
  function Decided(exit: Exit, allSent: bool): Exit {
    if allSent then exit else DoesNotEncode
  }

  /** The state of the wire after some of `out` was sent. */
  function Extended(s: Sent, out: seq<TcpSegment>, more: seq<Bytes>): Sent
    requires |more| <= |out|
  {
    Sent(s.packets + more, s.wire + out[..|more|], out[|more|..])
  }

  /** A reaction `r` to a served event that makes the wire `WireOf` its events. */
  lemma ServedIsSent(cfg: Config, l: Loop, r: Loop, s: Sent, out: seq<TcpSegment>, more: seq<Bytes>)
    requires l.exit == Running && IsSent(cfg, l, s) && Served(l, r) && r.exit != DoesNotEncode && SentUpTo(out, more)
    requires WireOf(cfg, r.done, s.wire + out)
    ensures IsSent(cfg, Checked(l, r, |more| == |out|), Extended(s, out, more))
    ensures Checked(l, r, |more| == |out|).exit == Decided(r.exit, |more| == |out|)
  {
    EncodedConcat(s.packets, s.wire, more, out[..|more|]);
    assert (s.wire + out[..|more|]) + out[|more|..] == s.wire + out;
  }

  lemma UnservedIsSent(cfg: Config, l: Loop, r: Loop, ev: ServerEvent, s: Sent)
    requires l.exit == Running && IsSent(cfg, l, s) && !Served(l, r) && r.exit != DoesNotEncode
    requires r.done == l.done || r.done == l.done + [ev]
    requires r.exit == DeadlineOverflow ==> r.done == l.done + [ev]
    ensures IsSent(cfg, r, s)
  {
    assert (l.done + [ev])[..|l.done|] == l.done;
  }

  lemma AdvanceShape(st: Setup, l: Loop, ev: ServerEvent, after: Table)
    requires l.exit == Running
    ensures var r := Advance(st, l, ev, after);
      && r.exit != DoesNotEncode && (r.done == l.done || r.done == l.done + [ev])
      && (r.exit == DeadlineOverflow ==> r.done == l.done + [ev])
  {
  }

  /** The served event's segments are on the wire with the others. */
  lemma WireOfServed(st: Setup, l: Loop, ev: ServerEvent, s: Sent, out: seq<TcpSegment>)
    requires OnCourse(st, l) && l.exit == Running && IsSent(st.cfg, l, s)
    requires Carries(out, ServerStep(st.cfg, l.table, ev).sent)
    ensures WireOf(st.cfg, l.done + [ev], s.wire + out)
  {
    assert s.wire + s.unsent == s.wire;
    WireGrows(st.cfg, l.done, ev, s.wire, out);
  }

  lemma TurnIsSent(st: Setup, l: Loop, ev: ServerEvent, s: Sent, out: seq<TcpSegment>, more: seq<Bytes>)
    requires OnCourse(st, l) && l.exit == Running && IsSent(st.cfg, l, s)
    requires Emits(st.cfg, l, ev, Reaction(st, l, ev), out) && SentUpTo(out, more)
    ensures Next(st, l, ev) == Reaction(st, l, ev).(exit := Decided(Reaction(st, l, ev).exit, |more| == |out|))
    ensures IsSent(st.cfg, Next(st, l, ev), Extended(s, out, more))
  {
    var o := ServerStep(st.cfg, l.table, ev);
    var r := Advance(st, l, ev, o.table);
    AdvanceShape(st, l, ev, o.table);
    CheckedKeeps(l, r, StepEncodes(st.cfg, l.table, ev));
    if Served(l, r) {
      AllEncodedIff(out, o.sent, more);
      WireOfServed(st, l, ev, s, out);
      ServedIsSent(st.cfg, l, r, s, out, more);
    } else {
      UnservedIsSent(st.cfg, l, r, ev, s);
      assert Extended(s, out, more) == s;
    }
  }

  lemma ReactionIsSent(st: Setup, l: Loop, ev: ServerEvent, table: Table, deadline: Option<int>, going: Exit,
                       s: Sent, out: seq<TcpSegment>, more: seq<Bytes>)
    requires OnCourse(st, l) && l.exit == Running && IsSent(st.cfg, l, s)
    requires IsReaction(st, l, ev, table, deadline, out, going) && SentUpTo(out, more)
    ensures var n := Next(st, l, ev);
      && table == n.table && deadline == n.deadline && n.exit == Decided(going, |more| == |out|)
      && IsSent(st.cfg, n, Extended(s, out, more))
  {
    TurnIsSent(st, l, ev, s, out, more);
  }

  /** One turn of the loop, with its packets. */
  method Turn(server: EchoServer, writeBuf: array<u8>, ev: ServerEvent, s: Sent, ghost l: Loop)
    returns (t: Sent, exit: Exit)
    requires server.connections.Valid() && writeBuf.Length == ETHERNET_MTU
    requires l.exit == Running && server.Stands(l) && OnCourse(server.SetUp(), l) && IsSent(server.connections.cfg, l, s)
    modifies server`shutdownDeadline, server.connections, server.connections.table.Values, writeBuf
    ensures server.connections.Valid()
    ensures fresh(server.connections.table.Values - old(server.connections.table.Values))
    ensures server.Stands(Next(server.SetUp(), l, ev)) && exit == Next(server.SetUp(), l, ev).exit
    ensures IsSent(server.connections.cfg, Next(server.SetUp(), l, ev), t)
  {
    var out, going := server.React(ev, l);
    ghost var table, deadline := server.connections.View(), server.shutdownDeadline;
    var more := SendAll(out, writeBuf);
    assert server.connections.View() == table && server.shutdownDeadline == deadline;
    t, exit := Extended(s, out, more), Decided(going, |more| == |out|);
    ReactionIsSent(server.SetUp(), l, ev, table, deadline, going, s, out, more);
  }

  lemma NothingSentYet(cfg: Config)
    ensures IsSent(cfg, Loop([], map[], None, Running), Sent([], [], []))
  {
  }

  /** The event loop from an empty table, with all its exits: the mutable server refines the table machine
      on the events it serves; the packets on the wire are, connection by connection, the encodings of what
      that machine sends, up to the first segment that does not fit, where the loop ends with an error; and
      it ends so if and only if an event it serves drains more than a packet holds. */
  method Run(st: Setup, evs: seq<ServerEvent>) returns (server: EchoServer, s: Sent, exit: Exit)
    ensures server.SetUp() == st && server.connections.Valid()
    ensures server.Stands(LoopAfter(st, evs)) && exit == LoopAfter(st, evs).exit
    ensures IsSent(st.cfg, LoopAfter(st, evs), s)
    ensures server.connections.View() == TableAfter(st.cfg, map[], LoopAfter(st, evs).done)
    ensures exit == DoesNotEncode <==> !SmallDrains(st.cfg, LoopAfter(st, evs).done)
  {
    var connections := new TcpConnections(st.cfg);
    server := new EchoServer(connections, st.gracePeriod, st.instantMax);
    var writeBuf := new u8[ETHERNET_MTU](_ => 0);
    s, exit := Sent([], [], []), Running;
    NothingSentYet(st.cfg);
    var i := 0;
    while i < |evs| && exit == Running
      invariant i <= |evs| && fresh(server) && fresh(server.connections) && fresh(writeBuf)
      invariant server.SetUp() == st && server.connections.Valid() && fresh(server.connections.table.Values)
      invariant server.Stands(LoopAfter(st, evs[..i])) && exit == LoopAfter(st, evs[..i]).exit
      invariant IsSent(st.cfg, LoopAfter(st, evs[..i]), s)
    {
      LoopIsOnCourse(st, evs[..i]);
      LoopStep(st, evs, i);
      s, exit := Turn(server, writeBuf, evs[i], s, LoopAfter(st, evs[..i]));
      i := i + 1;
    }
    LoopEncodesIff(st, evs);
    StaysStopped(st, evs, i);
  }
}
