/** Retransmissions traced back: which first transmission every pending segment and every resend is a
    copy of, how often each is resent, and how long a connection is kept trying. */
module Ledgers {
  import opened SeqSpace
  import opened Wire
  import opened PendingSegments
  import opened State
  import opened Engine
  import opened Connections
  import opened Lives
  import opened Moves
  import opened Conservation
  import opened Lifecycle
  import opened Retransmission

  /** `origins` gives for each pending segment, in queue order, the place in the log where it was first
      sent; `resent` gives for each retransmission of the run the place of the segment it repeats. */
  datatype Ledger = Ledger(origins: seq<nat>, resent: seq<nat>)

  /** The tags of the segments that `Retain` keeps. */
  function RetainTags(q: seq<PendingSegment>, tags: seq<nat>, ack: u32): seq<nat> {
    if q == [] || tags == [] then []
    else
      var rest := RetainTags(q[1..], tags[1..], ack);
      if IsCoveredBy(q[0], ack) then rest else [tags[0]] + rest
  }

  /** The tags of the segments that `KeptQueue` keeps. */
  function KeptTags(c: Conn, seg: TcpSegment, tags: seq<nat>): seq<nat> {
    if c.tcpState.SynReceived? && TakesData(c, seg) then []
    else if AcksNewData(c, seg) then RetainTags(c.pending, tags, seg.ackNum)
    else tags
  }

  /** The tags of the segments that `DueInfos` sends. */
  function DueTags(q: seq<PendingSegment>, tags: seq<nat>, rto: RtoConfig, now: int): seq<nat> {
    if q == [] || |tags| < |q| then []
    else
      var last := |q| - 1;
      DueTags(q[..last], tags[..last], rto, now) + (if IsDue(q[last], rto, now) then [tags[last]] else [])
  }

  /** A segment that is queued when it is sent is tagged with its place in the log. */
  function NewTag(out: seq<SendInfo>, place: nat): seq<nat> {
    if out != [] && Consumed(out[0]) > 0 then [place] else []
  }

  /** The ledger after `ev` on `l`. */
  function Booked(cfg: Config, l: Life, g: Ledger, ev: Event): Ledger {
    if !l.alive then g
    else
      match ev
      case Arrive(seg, now) =>
        g.(origins := KeptTags(l.conn, seg, g.origins) + NewTag(Sends(cfg, l, ev), |l.hist.log|))
      case Timer(now) =>
        if GivesUp(cfg, l.conn.pending, now) then g
        else g.(resent := g.resent + DueTags(l.conn.pending, g.origins, cfg.rto, now))
      case CloseCall(now) =>
        g.(origins := g.origins + NewTag(Sends(cfg, l, ev), |l.hist.log|))
  }

  /** The ledger of a run from the birth `b`, whose SYN-ACK is the first entry of the log. */
  function LedgerAfter(cfg: Config, b: Life, evs: seq<Event>): Ledger {
    if evs == [] then Ledger([0], [])
    else
      var before := evs[..|evs| - 1];
      Booked(cfg, After(cfg, b, before), LedgerAfter(cfg, b, before), evs[|evs| - 1])
  }

  /** Everything the timer puts on the wire during a run, in order. */
  function TimerSent(cfg: Config, b: Life, evs: seq<Event>): seq<SendInfo> {
    if evs == [] then []
    else
      var before, ev := evs[..|evs| - 1], evs[|evs| - 1];
      TimerSent(cfg, b, before) + (if ev.Timer? then Sends(cfg, After(cfg, b, before), ev) else [])
  }

  // ---------------------------------------------------------------------------------------------
  // Every pending segment was first sent as logged, long enough ago, and has retries left.

  predicate SentAs(log: seq<Emission>, j: nat, p: PendingSegment, rto: RtoConfig) {
    && j < |log| && log[j].info == p.info && Consumed(p.info) > 0
    && log[j].time + SumRto(rto, p.retries) <= p.lastSentAt
  }

  predicate Increasing(tags: seq<nat>) {
    forall i, j :: 0 <= i < j < |tags| ==> tags[i] < tags[j]
  }

  predicate Sourced(cfg: Config, log: seq<Emission>, q: seq<PendingSegment>, tags: seq<nat>) {
    && |tags| == |q| && Increasing(tags)
    && forall i :: 0 <= i < |q| ==> q[i].retries <= cfg.maxRetries && SentAs(log, tags[i], q[i], cfg.rto)
  }

  lemma PrependIsSourced(cfg: Config, log: seq<Emission>, p: PendingSegment, t: nat, q: seq<PendingSegment>, tags: seq<nat>)
    requires Sourced(cfg, log, q, tags) && p.retries <= cfg.maxRetries && SentAs(log, t, p, cfg.rto)
    requires forall u :: u in tags ==> t < u
    ensures Sourced(cfg, log, [p] + q, [t] + tags)
  {
    var more := [t] + tags;
    assert forall i :: 0 < i < |more| ==> more[i] == tags[i - 1] && more[i] in tags;
  }

  lemma TailIsSourced(cfg: Config, log: seq<Emission>, q: seq<PendingSegment>, tags: seq<nat>)
    requires Sourced(cfg, log, q, tags) && q != []
    ensures Sourced(cfg, log, q[1..], tags[1..])
    ensures forall u :: u in tags[1..] ==> tags[0] < u
  {
  }

  lemma {:induction false} RetainIsSourced(cfg: Config, log: seq<Emission>, q: seq<PendingSegment>, tags: seq<nat>, ack: u32)
    requires Sourced(cfg, log, q, tags)
    ensures Sourced(cfg, log, Retain(q, ack), RetainTags(q, tags, ack))
    ensures forall t :: t in RetainTags(q, tags, ack) ==> t in tags
  {
    if q != [] {
      TailIsSourced(cfg, log, q, tags);
      RetainIsSourced(cfg, log, q[1..], tags[1..], ack);
      if !IsCoveredBy(q[0], ack) {
        PrependIsSourced(cfg, log, q[0], tags[0], Retain(q[1..], ack), RetainTags(q[1..], tags[1..], ack));
      }
    }
  }

  lemma KeptIsSourced(cfg: Config, log: seq<Emission>, c: Conn, seg: TcpSegment, tags: seq<nat>)
    requires Sourced(cfg, log, c.pending, tags)
    ensures Sourced(cfg, log, KeptQueue(c, seg), KeptTags(c, seg, tags))
    ensures forall t :: t in KeptTags(c, seg, tags) ==> t in tags
  {
    RetainIsSourced(cfg, log, c.pending, tags, seg.ackNum);
  }

  lemma LaunchIsSourced(cfg: Config, log: seq<Emission>, q: seq<PendingSegment>, tags: seq<nat>, info: SendInfo, now: int)
    requires Sourced(cfg, log, q, tags)
    ensures var more := Logged(log, [info], now);
      if Consumed(info) > 0 then Sourced(cfg, more, q + [NewPending(info, now)], tags + [|log|])
      else Sourced(cfg, more, q, tags)
  {
    var more := Logged(log, [info], now);
    assert more[|log|] == Emission(info, now);
    assert forall i :: 0 <= i < |q| ==> more[tags[i]] == log[tags[i]];
  }

  lemma TickIsSourced(cfg: Config, log: seq<Emission>, q: seq<PendingSegment>, tags: seq<nat>, now: int)
    requires Sourced(cfg, log, q, tags) && !GivesUp(cfg, q, now)
    ensures Sourced(cfg, log, Resent(q, cfg.rto, now), tags)
  {
    var r := Resent(q, cfg.rto, now);
    forall i | 0 <= i < |q|
      ensures r[i].retries <= cfg.maxRetries && SentAs(log, tags[i], r[i], cfg.rto)
    {
      ResentOnTime(cfg, log, tags[i], q[i], now);
    }
  }

  lemma ResentOnTime(cfg: Config, log: seq<Emission>, j: nat, p: PendingSegment, now: int)
    requires p.retries <= cfg.maxRetries && SentAs(log, j, p, cfg.rto)
    requires IsDue(p, cfg.rto, now) ==> !ExhaustedRetries(p, cfg.maxRetries)
    ensures var r := Ticked(p, cfg.rto, now); r.retries <= cfg.maxRetries && SentAs(log, j, r, cfg.rto)
  {
  }

  // ---------------------------------------------------------------------------------------------
  // Every resend is a copy of a logged segment, and no segment is resent more often than the limit.

  function Occurs(s: seq<nat>, x: nat): nat {
    if s == [] then 0 else Occurs(s[..|s| - 1], x) + (if s[|s| - 1] == x then 1 else 0)
  }

  lemma {:induction false} OccursConcat(a: seq<nat>, b: seq<nat>, x: nat)
    ensures Occurs(a + b, x) == Occurs(a, x) + Occurs(b, x)
  {
    if b == [] {
      assert a + b == a;
    } else {
      assert (a + b)[..|a + b| - 1] == a + b[..|b| - 1];
      OccursConcat(a, b[..|b| - 1], x);
    }
  }

  lemma {:induction false} OccursNever(s: seq<nat>, x: nat)
    requires x !in s
    ensures Occurs(s, x) == 0
  {
    if s != [] {
      OccursNever(s[..|s| - 1], x);
    }
  }

  predicate Copied(log: seq<Emission>, place: nat, info: SendInfo) {
    place < |log| && log[place].info == info && Consumed(info) > 0
  }

  predicate Copies(log: seq<Emission>, resent: seq<nat>, sent: seq<SendInfo>) {
    && |resent| == |sent|
    && forall i :: 0 <= i < |sent| ==> Copied(log, resent[i], sent[i])
  }

  /** The retry counter of a pending segment is the number of its copies on the wire. */
  ghost predicate Counted(cfg: Config, q: seq<PendingSegment>, tags: seq<nat>, resent: seq<nat>) {
    && |tags| == |q|
    && (forall i :: 0 <= i < |q| ==> Occurs(resent, tags[i]) == q[i].retries)
    && (forall x: nat :: Occurs(resent, x) <= cfg.maxRetries)
  }

  lemma {:induction false} DueTagsCopy(cfg: Config, log: seq<Emission>, q: seq<PendingSegment>, tags: seq<nat>, now: int)
    requires Sourced(cfg, log, q, tags)
    ensures Copies(log, DueTags(q, tags, cfg.rto, now), DueInfos(q, cfg.rto, now))
    ensures forall t :: t in DueTags(q, tags, cfg.rto, now) ==> t in tags
  {
    if q != [] {
      var last := |q| - 1;
      assert Sourced(cfg, log, q[..last], tags[..last]);
      DueTagsCopy(cfg, log, q[..last], tags[..last], now);
      assert SentAs(log, tags[last], q[last], cfg.rto);
    }
  }

  lemma {:induction false} DueOnce(q: seq<PendingSegment>, tags: seq<nat>, rto: RtoConfig, now: int, i: nat)
    requires |tags| == |q| && Increasing(tags) && i < |q|
    ensures Occurs(DueTags(q, tags, rto, now), tags[i]) == if IsDue(q[i], rto, now) then 1 else 0
  {
    var last := |q| - 1;
    var init := DueTags(q[..last], tags[..last], rto, now);
    OccursConcat(init, if IsDue(q[last], rto, now) then [tags[last]] else [], tags[i]);
    if i < last {
      DueOnce(q[..last], tags[..last], rto, now, i);
    } else {
      DueTagsAreTags(q[..last], tags[..last], rto, now);
      OccursNever(init, tags[i]);
    }
  }

  lemma {:induction false} DueTagsAreTags(q: seq<PendingSegment>, tags: seq<nat>, rto: RtoConfig, now: int)
    requires |tags| == |q|
    ensures forall t :: t in DueTags(q, tags, rto, now) ==> t in tags
  {
    if q != [] {
      DueTagsAreTags(q[..|q| - 1], tags[..|q| - 1], rto, now);
    }
  }

  lemma TickIsCounted(cfg: Config, log: seq<Emission>, q: seq<PendingSegment>, tags: seq<nat>, resent: seq<nat>, now: int)
    requires Sourced(cfg, log, q, tags) && Counted(cfg, q, tags, resent) && !GivesUp(cfg, q, now)
    ensures Counted(cfg, Resent(q, cfg.rto, now), tags, resent + DueTags(q, tags, cfg.rto, now))
  {
    var due, r := DueTags(q, tags, cfg.rto, now), Resent(q, cfg.rto, now);
    forall i | 0 <= i < |q|
      ensures Occurs(resent + due, tags[i]) == r[i].retries
    {
      OccursConcat(resent, due, tags[i]);
      DueOnce(q, tags, cfg.rto, now, i);
    }
    TickIsSourced(cfg, log, q, tags, now);
    forall x: nat
      ensures Occurs(resent + due, x) <= cfg.maxRetries
    {
      if x in tags {
        var i :| 0 <= i < |tags| && tags[i] == x;
        assert r[i].retries <= cfg.maxRetries;
      } else {
        OccursConcat(resent, due, x);
        DueTagsAreTags(q, tags, cfg.rto, now);
        OccursNever(due, x);
      }
    }
  }

  lemma {:induction false} RetainIsCounted(cfg: Config, q: seq<PendingSegment>, tags: seq<nat>, resent: seq<nat>, ack: u32)
    requires Counted(cfg, q, tags, resent)
    ensures Counted(cfg, Retain(q, ack), RetainTags(q, tags, ack), resent)
  {
    if q != [] {
      assert Counted(cfg, q[1..], tags[1..], resent);
      RetainIsCounted(cfg, q[1..], tags[1..], resent, ack);
    }
  }

  lemma LaunchIsCounted(cfg: Config, log: seq<Emission>, q: seq<PendingSegment>, tags: seq<nat>, resent: seq<nat>,
                        sent: seq<SendInfo>, info: SendInfo, now: int)
    requires Counted(cfg, q, tags, resent) && Copies(log, resent, sent)
    ensures Counted(cfg, q + [NewPending(info, now)], tags + [|log|], resent)
  {
    assert |log| !in resent;
    OccursNever(resent, |log|);
  }

  // ---------------------------------------------------------------------------------------------
  // Over every run

  ghost predicate Kept(cfg: Config, l: Life, g: Ledger, sent: seq<SendInfo>) {
    && Sourced(cfg, l.hist.log, l.conn.pending, g.origins)
    && Counted(cfg, l.conn.pending, g.origins, g.resent)
    && Copies(l.hist.log, g.resent, sent)
  }

  lemma CopiesStay(log: seq<Emission>, more: seq<Emission>, resent: seq<nat>, sent: seq<SendInfo>)
    requires Copies(log, resent, sent) && log <= more
    ensures Copies(more, resent, sent)
  {
    assert forall i :: 0 <= i < |log| ==> more[i] == log[i];
    assert forall i :: 0 <= i < |sent| ==> Copied(log, resent[i], sent[i]);
  }

  /** A reply, or none, after what an event leaves of the queue. */
  lemma QueueIsKept(cfg: Config, log: seq<Emission>, q: seq<PendingSegment>, tags: seq<nat>, resent: seq<nat>,
                    sent: seq<SendInfo>, out: seq<SendInfo>, now: int)
    requires Sourced(cfg, log, q, tags) && Counted(cfg, q, tags, resent) && Copies(log, resent, sent) && |out| <= 1
    ensures var more := Logged(log, out, now);
      var r := q + (if out != [] && Consumed(out[0]) > 0 then [NewPending(out[0], now)] else []);
      var t := tags + NewTag(out, |log|);
      Sourced(cfg, more, r, t) && Counted(cfg, r, t, resent) && Copies(more, resent, sent)
  {
    CopiesStay(log, Logged(log, out, now), resent, sent);
    if out == [] {
      assert Logged(log, [], now) == log && q + [] == q && tags + [] == tags;
    } else {
      assert out == [out[0]];
      LaunchIsSourced(cfg, log, q, tags, out[0], now);
      LaunchIsCounted(cfg, log, q, tags, resent, sent, out[0], now);
      assert q + [] == q && tags + [] == tags;
    }
  }

  lemma ArrivalIsKept(cfg: Config, l: Life, g: Ledger, sent: seq<SendInfo>, seg: TcpSegment, now: int)
    requires Sound(l.conn) && l.alive && Kept(cfg, l, g, sent)
    ensures Kept(cfg, Live(cfg, l, Arrive(seg, now)), Booked(cfg, l, g, Arrive(seg, now)), sent)
  {
    var o := OnSegment(l.conn, seg, now);
    SegmentQueue(l.conn, seg, now);
    KeptIsSourced(cfg, l.hist.log, l.conn, seg, g.origins);
    RetainIsCounted(cfg, l.conn.pending, g.origins, g.resent, seg.ackNum);
    QueueIsKept(cfg, l.hist.log, KeptQueue(l.conn, seg), KeptTags(l.conn, seg, g.origins), g.resent, sent, Replied(o.result), now);
  }

  lemma CloseIsKept(cfg: Config, l: Life, g: Ledger, sent: seq<SendInfo>, now: int)
    requires l.alive && Kept(cfg, l, g, sent)
    ensures Kept(cfg, Live(cfg, l, CloseCall(now)), Booked(cfg, l, g, CloseCall(now)), sent)
  {
    QueueIsKept(cfg, l.hist.log, l.conn.pending, g.origins, g.resent, sent, OnClose(l.conn, now).1, now);
    assert l.conn.pending + [] == l.conn.pending;
  }

  lemma TickIsKept(cfg: Config, l: Life, g: Ledger, sent: seq<SendInfo>, now: int)
    requires l.alive && Kept(cfg, l, g, sent)
    ensures Kept(cfg, Live(cfg, l, Timer(now)), Booked(cfg, l, g, Timer(now)), sent + Sends(cfg, l, Timer(now)))
  {
    if GivesUp(cfg, l.conn.pending, now) {
      assert sent + [] == sent;
    } else {
      TickIsSourced(cfg, l.hist.log, l.conn.pending, g.origins, now);
      TickIsCounted(cfg, l.hist.log, l.conn.pending, g.origins, g.resent, now);
      DueTagsCopy(cfg, l.hist.log, l.conn.pending, g.origins, now);
    }
  }

  lemma StepIsKept(cfg: Config, l: Life, g: Ledger, sent: seq<SendInfo>, ev: Event)
    requires Sound(l.conn) && Kept(cfg, l, g, sent)
    ensures Kept(cfg, Live(cfg, l, ev), Booked(cfg, l, g, ev), sent + (if ev.Timer? then Sends(cfg, l, ev) else []))
  {
    assert sent + [] == sent;
    if l.alive {
      match ev
      case Arrive(seg, now) => ArrivalIsKept(cfg, l, g, sent, seg, now);
      case Timer(now) => TickIsKept(cfg, l, g, sent, now);
      case CloseCall(now) => CloseIsKept(cfg, l, g, sent, now);
    }
  }

  lemma BirthIsKept(cfg: Config, syn: TcpSegment, isn: u32, now: int)
    ensures Kept(cfg, Birth(syn, isn, now), Ledger([0], []), [])
  {
    var info := Opening(syn, isn);
    QueueIsKept(cfg, [], [], [], [], [], [info], now);
    assert Logged([], [info], now) == [Emission(info, now)];
    assert [] + [NewPending(info, now)] == [NewPending(info, now)] && [] + NewTag([info], 0) == [0];
  }

  lemma {:induction false} RunsAreKept(cfg: Config, syn: TcpSegment, isn: u32, now: int, evs: seq<Event>)
    ensures var b := Birth(syn, isn, now);
      Kept(cfg, After(cfg, b, evs), LedgerAfter(cfg, b, evs), TimerSent(cfg, b, evs))
  {
    var b := Birth(syn, isn, now);
    if evs == [] {
      BirthIsKept(cfg, syn, isn, now);
    } else {
      var before := evs[..|evs| - 1];
      RunsAreKept(cfg, syn, isn, now, before);
      BirthIsBalanced(syn, isn, now);
      RunsBalance(cfg, b, before);
      StepIsKept(cfg, After(cfg, b, before), LedgerAfter(cfg, b, before), TimerSent(cfg, b, before), evs[|evs| - 1]);
    }
  }

  /** In every run each retransmission is a verbatim copy of the logged segment the ledger names, and no
      logged segment is retransmitted more often than the retry limit. */
  lemma EachIsResentWithinTheLimit(cfg: Config, syn: TcpSegment, isn: u32, now: int, evs: seq<Event>, place: nat)
    ensures var b := Birth(syn, isn, now);
      var log, resent, sent := After(cfg, b, evs).hist.log, LedgerAfter(cfg, b, evs).resent, TimerSent(cfg, b, evs);
      && |resent| == |sent|
      && (forall i :: 0 <= i < |sent| ==> resent[i] < |log| && log[resent[i]].info == sent[i])
      && Occurs(resent, place) <= cfg.maxRetries
  {
    RunsAreKept(cfg, syn, isn, now, evs);
    var b := Birth(syn, isn, now);
    var log, resent, sent := After(cfg, b, evs).hist.log, LedgerAfter(cfg, b, evs).resent, TimerSent(cfg, b, evs);
    assert forall i :: 0 <= i < |sent| ==> Copied(log, resent[i], sent[i]);
  }

  /** How many segments of `sent` are of a kind. */
  function CountOf(sent: seq<SendInfo>, kind: SendInfo -> bool): nat {
    if sent == [] then 0 else CountOf(sent[..|sent| - 1], kind) + (if kind(sent[|sent| - 1]) then 1 else 0)
  }

  /** How many first transmissions of a kind consume sequence numbers. */
  function Launches(log: seq<Emission>, kind: SendInfo -> bool): nat {
    if log == [] then 0
    else
      var info := log[|log| - 1].info;
      Launches(log[..|log| - 1], kind) + (if Consumed(info) > 0 && kind(info) then 1 else 0)
  }

  /** The resends of a kind that copy one of the first `n` entries of the log. */
  function Tally(resent: seq<nat>, sent: seq<SendInfo>, n: nat, kind: SendInfo -> bool): nat {
    if resent == [] || sent == [] then 0
    else
      var r, s := |resent| - 1, |sent| - 1;
      Tally(resent[..r], sent[..s], n, kind) + (if resent[r] < n && kind(sent[s]) then 1 else 0)
  }

  lemma {:induction false} TallyOne(log: seq<Emission>, resent: seq<nat>, sent: seq<SendInfo>, n: nat, kind: SendInfo -> bool)
    requires Copies(log, resent, sent) && n < |log|
    ensures var info := log[n].info;
      Tally(resent, sent, n + 1, kind)
      <= Tally(resent, sent, n, kind) + (if Consumed(info) > 0 && kind(info) then Occurs(resent, n) else 0)
  {
    if sent != [] {
      var last := |sent| - 1;
      assert Copied(log, resent[last], sent[last]);
      TallyOne(log, resent[..last], sent[..last], n, kind);
    }
  }

  lemma LaunchesOne(m: nat, log: seq<Emission>, n: nat, kind: SendInfo -> bool)
    requires n < |log|
    ensures var info := log[n].info;
      m * Launches(log[..n + 1], kind) == m * Launches(log[..n], kind) + (if Consumed(info) > 0 && kind(info) then m else 0)
  {
    assert log[..n + 1][..n] == log[..n];
    assert m * (Launches(log[..n], kind) + 1) == m * Launches(log[..n], kind) + m;
  }

  lemma {:induction false} TallyIsBounded(m: nat, log: seq<Emission>, resent: seq<nat>, sent: seq<SendInfo>, n: nat, kind: SendInfo -> bool)
    requires Copies(log, resent, sent) && n <= |log| && forall x: nat :: Occurs(resent, x) <= m
    ensures Tally(resent, sent, n, kind) <= m * Launches(log[..n], kind)
  {
    if n == 0 {
      NothingBelowZero(resent, sent, kind);
    } else {
      TallyOne(log, resent, sent, n - 1, kind);
      TallyIsBounded(m, log, resent, sent, n - 1, kind);
      LaunchesOne(m, log, n - 1, kind);
      assert Occurs(resent, n - 1) <= m;
    }
  }

  lemma {:induction false} NothingBelowZero(resent: seq<nat>, sent: seq<SendInfo>, kind: SendInfo -> bool)
    ensures Tally(resent, sent, 0, kind) == 0
  {
    if resent != [] && sent != [] {
      NothingBelowZero(resent[..|resent| - 1], sent[..|sent| - 1], kind);
    }
  }

  lemma {:induction false} TallyOfAll(log: seq<Emission>, resent: seq<nat>, sent: seq<SendInfo>, kind: SendInfo -> bool)
    requires Copies(log, resent, sent)
    ensures Tally(resent, sent, |log|, kind) == CountOf(sent, kind)
  {
    if sent != [] {
      var last := |sent| - 1;
      assert Copied(log, resent[last], sent[last]);
      TallyOfAll(log, resent[..last], sent[..last], kind);
    }
  }

  /** In every run and for every kind of segment, a single one or all, the timer sends at most the retry
      limit times as many copies as there were first transmissions of that kind. */
  lemma ResendsAreBounded(cfg: Config, syn: TcpSegment, isn: u32, now: int, evs: seq<Event>, kind: SendInfo -> bool)
    ensures var b := Birth(syn, isn, now);
      var l := After(cfg, b, evs);
      && CountOf(TimerSent(cfg, b, evs), kind) <= cfg.maxRetries * Launches(l.hist.log, kind)
      && forall p :: p in l.conn.pending ==> p.retries <= cfg.maxRetries
  {
    RunsAreKept(cfg, syn, isn, now, evs);
    var b := Birth(syn, isn, now);
    var l, resent, sent := After(cfg, b, evs), LedgerAfter(cfg, b, evs).resent, TimerSent(cfg, b, evs);
    var log := l.hist.log;
    TallyIsBounded(cfg.maxRetries, log, resent, sent, |log|, kind);
    assert log[..|log|] == log;
    TallyOfAll(log, resent, sent, kind);
  }

  predicate AnySegment(info: SendInfo) { true }

  lemma {:induction false} CountOfAny(sent: seq<SendInfo>)
    ensures CountOf(sent, AnySegment) == |sent|
  {
    if sent != [] {
      CountOfAny(sent[..|sent| - 1]);
    }
  }

  /** So is the number of all its retransmissions. */
  lemma AllResendsAreBounded(cfg: Config, syn: TcpSegment, isn: u32, now: int, evs: seq<Event>)
    ensures var b := Birth(syn, isn, now);
      |TimerSent(cfg, b, evs)| <= cfg.maxRetries * Launches(After(cfg, b, evs).hist.log, AnySegment)
  {
    ResendsAreBounded(cfg, syn, isn, now, evs, AnySegment);
    CountOfAny(TimerSent(cfg, Birth(syn, isn, now), evs));
  }

  /** A retransmission is a verbatim copy of a segment sent before. */
  lemma ResendsVerbatim(cfg: Config, l: Life, now: int, info: SendInfo)
    requires Reachable(cfg, l) && info in Sends(cfg, l, Timer(now))
    ensures exists j :: 0 <= j < |l.hist.log| && l.hist.log[j].info == info
  {
    var syn, isn, start, evs :| l == After(cfg, Birth(syn, isn, start), evs);
    RunsAreKept(cfg, syn, isn, start, evs);
    var tags := LedgerAfter(cfg, Birth(syn, isn, start), evs).origins;
    DueInfosArePending(l.conn.pending, cfg.rto, now, info);
    var i :| 0 <= i < |l.conn.pending| && l.conn.pending[i].info == info;
    assert SentAs(l.hist.log, tags[i], l.conn.pending[i], cfg.rto);
  }

  /** No connection is given up before its exhausted segment, from the moment the ledger says it was
      first sent and queued, has waited out every timeout up to the one after the last retry. */
  lemma NeverGivenUpEarly(cfg: Config, syn: TcpSegment, isn: u32, start: int, evs: seq<Event>, now: int)
    requires IsGivenUp(cfg, After(cfg, Birth(syn, isn, start), evs).conn, Timer(now))
    ensures var l, tags := After(cfg, Birth(syn, isn, start), evs), LedgerAfter(cfg, Birth(syn, isn, start), evs).origins;
      && |tags| == |l.conn.pending|
      && exists i ::
           && 0 <= i < |l.conn.pending| && l.conn.pending[i].retries == cfg.maxRetries
           && tags[i] < |l.hist.log| && l.hist.log[tags[i]].info == l.conn.pending[i].info
           && l.hist.log[tags[i]].time + SumRto(cfg.rto, cfg.maxRetries + 1) <= now
  {
    RunsAreKept(cfg, syn, isn, start, evs);
    var l, tags := After(cfg, Birth(syn, isn, start), evs), LedgerAfter(cfg, Birth(syn, isn, start), evs).origins;
    var i :| 0 <= i < |l.conn.pending|
      && IsDue(l.conn.pending[i], cfg.rto, now) && ExhaustedRetries(l.conn.pending[i], cfg.maxRetries);
    assert SentAs(l.hist.log, tags[i], l.conn.pending[i], cfg.rto);
  }
}
