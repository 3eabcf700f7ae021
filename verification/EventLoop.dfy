/** The event loop of the server as a function of its events (src/server.rs): which events it serves, when
    the shutdown deadline is set, and when and why the loop ends. */
module EventLoop {
  import opened Wire
  import opened State
  import opened Connections
  import opened Independence
  import opened Encoding

  datatype Setup = Setup(cfg: Config, gracePeriod: nat, instantMax: int)

  /** How the event loop stands. */
  datatype Exit =
    | Running
    | NothingToClose    // a first signal, and no connection is closing
    | DeadlineOverflow  // a first signal, and the deadline is past the last `Instant`
    | GraceOver         // woken up after the deadline
    | AllClosed         // draining, and no connection is closing any more
    | DoesNotEncode     // a segment to be sent is too long for a packet

  ghost predicate ClosingLeft(t: Table) {
    exists k :: k in t && FinSent(t[k].tcpState)
  }

  /** How the loop goes on after the first signal has closed what was established. */
  ghost function AfterSignal(t: Table, representable: bool): Exit {
    if !ClosingLeft(t) then NothingToClose else if !representable then DeadlineOverflow else Running
  }

  /** The events served so far, the table, the shutdown deadline, and whether the loop still runs. */
  datatype Loop = Loop(done: seq<ServerEvent>, table: Table, deadline: Option<int>, exit: Exit)

  /** What the server does about an event that makes the table `after`, before anything is sent: a signal
      counts once, and a wake-up after the deadline is not served any more. */
  ghost function Advance(s: Setup, l: Loop, ev: ServerEvent, after: Table): Loop {
    var served := l.(done := l.done + [ev], table := after);
    match ev
    case Incoming(_, _, _) => served.(exit := if l.deadline.Some? && !ClosingLeft(after) then AllClosed else Running)
    case Wake(now) => if l.deadline.Some? && l.deadline.value <= now then l.(exit := GraceOver) else served
    case Shutdown(now) =>
      if l.deadline.Some? then l
      else
        var exit := AfterSignal(after, now + s.gracePeriod <= s.instantMax);
        served.(deadline := if exit == Running then Some(now + s.gracePeriod) else None, exit := exit)
  }

  /** The event was served and its segments are to be sent. */
  predicate Served(l: Loop, r: Loop) {
    |r.done| > |l.done| && r.exit != DeadlineOverflow
  }

  ghost function Reaction(s: Setup, l: Loop, ev: ServerEvent): Loop {
    Advance(s, l, ev, ServerStep(s.cfg, l.table, ev).table)
  }

  /** The loop after the sending: it ends if something does not encode. */
  function Checked(l: Loop, r: Loop, encodes: bool): Loop {
    if Served(l, r) && !encodes then r.(exit := DoesNotEncode) else r
  }

  ghost function Next(s: Setup, l: Loop, ev: ServerEvent): Loop {
    Checked(l, Reaction(s, l, ev), StepEncodes(s.cfg, l.table, ev))
  }

  ghost function LoopAfter(s: Setup, evs: seq<ServerEvent>): Loop {
    if evs == [] then Loop([], map[], None, Running)
    else
      var l := LoopAfter(s, evs[..|evs| - 1]);
      if l.exit == Running then Next(s, l, evs[|evs| - 1]) else l
  }

  // ---------------------------------------------------------------------------------------------
  // The loop goes through a run of the table machine, on the events it serves.

  ghost predicate OnCourse(s: Setup, l: Loop) {
    && l.table == TableAfter(s.cfg, map[], l.done)
    && (l.exit == DoesNotEncode <==> !RunEncodes(s.cfg, l.done))
  }

  /** The same for any account of what table a run leads to and whether it encodes. */
  predicate Agrees(l: Loop, table: seq<ServerEvent> -> Table, encodes: seq<ServerEvent> -> bool) {
    l.table == table(l.done) && (l.exit == DoesNotEncode <==> !encodes(l.done))
  }

  lemma AdvanceAgrees(s: Setup, l: Loop, ev: ServerEvent, table: seq<ServerEvent> -> Table, encodes: seq<ServerEvent> -> bool)
    requires l.exit == Running && Agrees(l, table, encodes) && (ev.Shutdown? ==> encodes(l.done + [ev]))
    ensures Agrees(Checked(l, Advance(s, l, ev, table(l.done + [ev])), encodes(l.done + [ev])), table, encodes)
  {
  }

  lemma ClosingEncodes(cfg: Config, t: Table, now: int)
    ensures StepEncodes(cfg, t, Shutdown(now))
  {
  }

  lemma NextIsOnCourse(s: Setup, l: Loop, ev: ServerEvent)
    requires l.exit == Running && OnCourse(s, l)
    ensures OnCourse(s, Next(s, l, ev))
  {
    TableOne(s.cfg, map[], l.done, ev);
    LongerRun(s.cfg, l.done, ev);
    if ev.Shutdown? {
      ClosingEncodes(s.cfg, l.table, ev.now);
    }
    AdvanceAgrees(s, l, ev, evs => TableAfter(s.cfg, map[], evs), evs => RunEncodes(s.cfg, evs));
  }

  lemma {:induction false} LoopIsOnCourse(s: Setup, evs: seq<ServerEvent>)
    ensures OnCourse(s, LoopAfter(s, evs))
  {
    if evs != [] {
      var l := LoopAfter(s, evs[..|evs| - 1]);
      LoopIsOnCourse(s, evs[..|evs| - 1]);
      if l.exit == Running {
        NextIsOnCourse(s, l, evs[|evs| - 1]);
      }
    }
  }

  /** The loop goes through a run of the table machine, and ends with an encoding error if and only if an
      event of that run drains more than fits. */
  lemma LoopEncodesIff(s: Setup, evs: seq<ServerEvent>)
    ensures var l := LoopAfter(s, evs);
      l.table == TableAfter(s.cfg, map[], l.done) && (l.exit == DoesNotEncode <==> !SmallDrains(s.cfg, l.done))
  {
    LoopIsOnCourse(s, evs);
    RunEncodesIff(s.cfg, LoopAfter(s, evs).done);
  }

  lemma LoopOne(s: Setup, evs: seq<ServerEvent>, ev: ServerEvent)
    ensures var l := LoopAfter(s, evs);
      LoopAfter(s, evs + [ev]) == if l.exit == Running then Next(s, l, ev) else l
  {
    assert (evs + [ev])[..|evs|] == evs;
  }

  lemma LoopStep(s: Setup, evs: seq<ServerEvent>, i: nat)
    requires i < |evs| && LoopAfter(s, evs[..i]).exit == Running
    ensures LoopAfter(s, evs[..i + 1]) == Next(s, LoopAfter(s, evs[..i]), evs[i])
  {
    assert evs[..i + 1] == evs[..i] + [evs[i]];
    LoopOne(s, evs[..i], evs[i]);
  }

  lemma CheckedKeeps(l: Loop, r: Loop, encodes: bool)
    ensures Checked(l, r, encodes) == r.(exit := Checked(l, r, encodes).exit)
  {
  }

  lemma {:induction false} StaysStopped(s: Setup, evs: seq<ServerEvent>, i: nat)
    requires i <= |evs| && (i == |evs| || LoopAfter(s, evs[..i]).exit != Running)
    ensures LoopAfter(s, evs) == LoopAfter(s, evs[..i])
  {
    if i == |evs| {
      assert evs[..i] == evs;
    } else {
      assert evs[..|evs| - 1][..i] == evs[..i];
      StaysStopped(s, evs[..|evs| - 1], i);
    }
  }

  // ---------------------------------------------------------------------------------------------

  /** Without a signal the loop only ends because something does not encode. */
  ghost predicate Undisturbed(l: Loop, evs: seq<ServerEvent>) {
    && l.deadline == None && l.done <= evs && l.exit in {Running, DoesNotEncode}
    && (l.exit == Running ==> l.done == evs)
  }

  lemma StaysUndisturbed(s: Setup, l: Loop, evs: seq<ServerEvent>, ev: ServerEvent, after: Table, encodes: bool)
    requires Undisturbed(l, evs) && l.exit == Running && !ev.Shutdown?
    ensures Undisturbed(Checked(l, Advance(s, l, ev, after), encodes), evs + [ev])
  {
  }

  lemma NextIsUndisturbed(s: Setup, l: Loop, evs: seq<ServerEvent>, ev: ServerEvent)
    requires Undisturbed(l, evs) && !ev.Shutdown?
    ensures Undisturbed(if l.exit == Running then Next(s, l, ev) else l, evs + [ev])
  {
    if l.exit == Running {
      StaysUndisturbed(s, l, evs, ev, ServerStep(s.cfg, l.table, ev).table, StepEncodes(s.cfg, l.table, ev));
    }
  }

  lemma {:induction false} NoSignalNoEnd(s: Setup, evs: seq<ServerEvent>)
    requires forall i :: 0 <= i < |evs| ==> !evs[i].Shutdown?
    ensures Undisturbed(LoopAfter(s, evs), evs)
  {
    if evs != [] {
      var before, ev := evs[..|evs| - 1], evs[|evs| - 1];
      NoSignalNoEnd(s, before);
      assert evs == before + [ev];
      LoopOne(s, before, ev);
      NextIsUndisturbed(s, LoopAfter(s, before), before, ev);
    }
  }

  /** Without signals the loop serves every event and runs on, if and only if no event drains more than
      fits; otherwise it has served the events up to the first one that does. */
  lemma LoopWithoutSignals(s: Setup, evs: seq<ServerEvent>)
    requires forall i :: 0 <= i < |evs| ==> !evs[i].Shutdown?
    ensures var l := LoopAfter(s, evs);
      && l.deadline == None && l.done <= evs && l.exit in {Running, DoesNotEncode}
      && (l.exit == Running <==> l.done == evs && SmallDrains(s.cfg, evs))
      && (l.exit == Running <==> SmallDrains(s.cfg, evs))
  {
    NoSignalNoEnd(s, evs);
    LoopEncodesIff(s, evs);
    var l := LoopAfter(s, evs);
    if SmallDrains(s.cfg, evs) {
      ShorterRun(s.cfg, evs, |l.done|);
      assert evs[..|l.done|] == l.done;
    }
  }

  /** The deadline is set once, and a wake-up after it ends the loop. */
  lemma DeadlineStays(s: Setup, l: Loop, ev: ServerEvent, after: Table, encodes: bool)
    requires l.deadline.Some?
    ensures var n := Checked(l, Advance(s, l, ev, after), encodes);
      && n.deadline == l.deadline
      && (ev.Wake? && ev.now >= l.deadline.value ==> n.exit == GraceOver)
  {
  }

  /** A wake-up of `evs` comes after `deadline`. */
  predicate WakesAfter(evs: seq<ServerEvent>, deadline: int) {
    exists i :: 0 <= i < |evs| && evs[i].Wake? && evs[i].now >= deadline
  }

  /** The deadline is `d`, and a wake-up of `evs` after it has ended the loop. */
  ghost predicate Draining(l: Loop, evs: seq<ServerEvent>, d: int) {
    l.deadline == Some(d) && (WakesAfter(evs, d) ==> l.exit != Running)
  }

  lemma StaysDraining(s: Setup, l: Loop, evs: seq<ServerEvent>, ev: ServerEvent, d: int)
    requires Draining(l, evs, d)
    ensures Draining(if l.exit == Running then Next(s, l, ev) else l, evs + [ev], d)
  {
    DeadlineStays(s, l, ev, ServerStep(s.cfg, l.table, ev).table, StepEncodes(s.cfg, l.table, ev));
  }

  lemma {:induction false} DrainsOn(s: Setup, evs: seq<ServerEvent>, more: seq<ServerEvent>, d: int)
    requires LoopAfter(s, evs).deadline == Some(d)
    ensures Draining(LoopAfter(s, evs + more), more, d)
  {
    if more == [] {
      assert evs + more == evs;
    } else {
      var init, ev := more[..|more| - 1], more[|more| - 1];
      DrainsOn(s, evs, init, d);
      assert evs + more == (evs + init) + [ev] && more == init + [ev];
      LoopOne(s, evs + init, ev);
      StaysDraining(s, LoopAfter(s, evs + init), init, ev, d);
    }
  }

  /** Draining is bounded: once there is a deadline it does not move, and a wake-up after it ends the loop
      if nothing has ended it before. */
  lemma DrainingEnds(s: Setup, evs: seq<ServerEvent>, more: seq<ServerEvent>)
    requires LoopAfter(s, evs).deadline.Some?
    ensures var l := LoopAfter(s, evs + more);
      && l.deadline == LoopAfter(s, evs).deadline
      && (WakesAfter(more, l.deadline.value) ==> l.exit != Running)
  {
    DrainsOn(s, evs, more, LoopAfter(s, evs).deadline.value);
  }

  // ---------------------------------------------------------------------------------------------
  // Why the loop ends

  predicate FirstSignalAt(evs: seq<ServerEvent>, i: nat) {
    i < |evs| && evs[i].Shutdown? && forall j :: 0 <= j < i ==> !evs[j].Shutdown?
  }

  ghost predicate NoneEstablished(t: Table) {
    forall k :: k in t ==> !t[k].tcpState.Established?
  }

  /** The deadline is a grace period after the first signal of `evs`. */
  ghost predicate DeadlineIsRight(s: Setup, deadline: Option<int>, evs: seq<ServerEvent>) {
    deadline.Some? ==> exists i: nat :: FirstSignalAt(evs, i) && deadline.value == evs[i].now + s.gracePeriod <= s.instantMax
  }

  ghost predicate Justified(s: Setup, l: Loop, evs: seq<ServerEvent>) {
    && DeadlineIsRight(s, l.deadline, evs)
    && match l.exit
       case Running => l.deadline.None? ==> forall i :: 0 <= i < |evs| ==> !evs[i].Shutdown?
       case NothingToClose => l.deadline.None? && NoneEstablished(l.table) && !ClosingLeft(l.table)
       case DeadlineOverflow =>
         && l.deadline.None? && NoneEstablished(l.table) && ClosingLeft(l.table)
         && exists i: nat :: FirstSignalAt(evs, i) && evs[i].now + s.gracePeriod > s.instantMax
       case GraceOver => l.deadline.Some? && WakesAfter(evs, l.deadline.value)
       case AllClosed => l.deadline.Some? && !ClosingLeft(l.table)
       case DoesNotEncode => true
  }

  lemma ClosedTableHasNoneEstablished(t: Table, now: int)
    ensures NoneEstablished(CloseTable(t, now))
  {
  }

  lemma SignalsStay(evs: seq<ServerEvent>, ev: ServerEvent)
    ensures forall i: nat :: FirstSignalAt(evs, i) ==> FirstSignalAt(evs + [ev], i) && (evs + [ev])[i] == evs[i]
    ensures forall d :: WakesAfter(evs, d) ==> WakesAfter(evs + [ev], d)
  {
    forall d | WakesAfter(evs, d)
      ensures WakesAfter(evs + [ev], d)
    {
      var i :| 0 <= i < |evs| && evs[i].Wake? && evs[i].now >= d;
      assert (evs + [ev])[i] == evs[i];
    }
  }

  lemma StoppedStaysJustified(s: Setup, l: Loop, evs: seq<ServerEvent>, ev: ServerEvent)
    requires Justified(s, l, evs) && l.exit != Running
    ensures Justified(s, l, evs + [ev])
  {
    SignalsStay(evs, ev);
  }

  lemma SignalIsJustified(s: Setup, l: Loop, evs: seq<ServerEvent>, now: int, after: Table)
    requires Justified(s, l, evs) && l.exit == Running && NoneEstablished(after)
    ensures Justified(s, Advance(s, l, Shutdown(now), after), evs + [Shutdown(now)])
  {
    SignalsStay(evs, Shutdown(now));
    if l.deadline.None? {
      assert FirstSignalAt(evs + [Shutdown(now)], |evs|);
    }
  }

  lemma AdvanceIsJustified(s: Setup, l: Loop, evs: seq<ServerEvent>, ev: ServerEvent, after: Table)
    requires Justified(s, l, evs) && l.exit == Running && !ev.Shutdown?
    ensures Justified(s, Advance(s, l, ev, after), evs + [ev])
  {
    SignalsStay(evs, ev);
    assert (evs + [ev])[|evs|] == ev;
  }

  lemma CheckedIsJustified(s: Setup, l: Loop, r: Loop, encodes: bool, evs: seq<ServerEvent>)
    requires Justified(s, r, evs)
    ensures Justified(s, Checked(l, r, encodes), evs)
  {
  }

  lemma NextIsJustified(s: Setup, l: Loop, evs: seq<ServerEvent>, ev: ServerEvent)
    requires Justified(s, l, evs) && l.exit == Running
    ensures Justified(s, Next(s, l, ev), evs + [ev])
  {
    if ev.Shutdown? {
      ClosedTableHasNoneEstablished(l.table, ev.now);
      SignalIsJustified(s, l, evs, ev.now, ServerStep(s.cfg, l.table, ev).table);
    } else {
      AdvanceIsJustified(s, l, evs, ev, ServerStep(s.cfg, l.table, ev).table);
    }
    CheckedIsJustified(s, l, Reaction(s, l, ev), StepEncodes(s.cfg, l.table, ev), evs + [ev]);
  }

  /** Every run of the loop: the deadline is a grace period after the first signal, and the loop ends because
      nothing was there to close, because the deadline cannot be represented, after a wake-up past the
      deadline, because while draining all connections are closed, or because something does not encode. */
  lemma {:induction false} LoopEndsForAReason(s: Setup, evs: seq<ServerEvent>)
    ensures Justified(s, LoopAfter(s, evs), evs)
  {
    if evs != [] {
      var before, ev := evs[..|evs| - 1], evs[|evs| - 1];
      LoopEndsForAReason(s, before);
      var l := LoopAfter(s, before);
      assert evs == before + [ev];
      if l.exit != Running {
        StoppedStaysJustified(s, l, before, ev);
      } else {
        NextIsJustified(s, l, before, ev);
      }
    }
  }
}
