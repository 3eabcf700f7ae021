/** Runs of the whole table: connections do not influence each other, and every connection of every
    run lives one of the lives the other modules reason about. */
module Independence {
  import opened SeqSpace
  import opened Wire
  import opened State
  import opened Connections
  import opened Lives
  import opened Conservation
  import opened EchoStream

  datatype ServerEvent =
    | Incoming(seg: TcpSegment, isn: Option<u32>, now: int)
    | Wake(now: int)
    | Shutdown(now: int)

  datatype ServerOut = ServerOut(table: Table, sent: map<ConnKey, seq<SendInfo>>)

  ghost function ServerStep(cfg: Config, t: Table, ev: ServerEvent): ServerOut {
    match ev
    case Incoming(seg, isn, now) =>
      var o := DecideReply(t, seg, isn, now);
      ServerOut(o.table, map[KeyOf(seg) := Replied(o.result)])
    case Wake(now) => ServerOut(TickTable(cfg, t, now), TickSent(cfg, t, t.Keys, now))
    case Shutdown(now) => ServerOut(CloseTable(t, now), CloseSent(t, t.Keys, now))
  }

  ghost function SentOn(sent: map<ConnKey, seq<SendInfo>>, k: ConnKey): seq<SendInfo> {
    if k in sent then sent[k] else []
  }

  ghost function TableAfter(cfg: Config, t: Table, evs: seq<ServerEvent>): Table {
    if evs == [] then t
    else ServerStep(cfg, TableAfter(cfg, t, evs[..|evs| - 1]), evs[|evs| - 1]).table
  }

  /** Everything a run sends on the connection `k`, in order. */
  ghost function SentAfter(cfg: Config, t: Table, evs: seq<ServerEvent>, k: ConnKey): seq<SendInfo> {
    if evs == [] then []
    else
      var before := evs[..|evs| - 1];
      SentAfter(cfg, t, before, k)
      + SentOn(ServerStep(cfg, TableAfter(cfg, t, before), evs[|evs| - 1]).sent, k)
  }

  /** The events that concern `k`: its own segments, and the timer and shutdown of all. */
  predicate Concerns(ev: ServerEvent, k: ConnKey) {
    ev.Incoming? ==> KeyOf(ev.seg) == k
  }

  ghost function EventsOf(evs: seq<ServerEvent>, k: ConnKey): seq<ServerEvent> {
    if evs == [] then []
    else
      var last := |evs| - 1;
      EventsOf(evs[..last], k) + (if Concerns(evs[last], k) then [evs[last]] else [])
  }

  ghost function Only(t: Table, k: ConnKey): Table {
    map j | j in t && j == k :: t[j]
  }

  lemma StepOnOwnEvent(cfg: Config, t: Table, ev: ServerEvent, k: ConnKey)
    requires Concerns(ev, k)
    ensures Only(ServerStep(cfg, t, ev).table, k) == ServerStep(cfg, Only(t, k), ev).table
    ensures SentOn(ServerStep(cfg, t, ev).sent, k) == SentOn(ServerStep(cfg, Only(t, k), ev).sent, k)
  {
  }

  lemma StepOnOtherEvent(cfg: Config, t: Table, ev: ServerEvent, k: ConnKey)
    requires !Concerns(ev, k)
    ensures Only(ServerStep(cfg, t, ev).table, k) == Only(t, k)
    ensures SentOn(ServerStep(cfg, t, ev).sent, k) == []
  {
  }

  lemma TableOne(cfg: Config, t: Table, evs: seq<ServerEvent>, ev: ServerEvent)
    ensures TableAfter(cfg, t, evs + [ev]) == ServerStep(cfg, TableAfter(cfg, t, evs), ev).table
  {
    assert (evs + [ev])[..|evs|] == evs;
  }

  lemma RunOne(cfg: Config, t: Table, evs: seq<ServerEvent>, ev: ServerEvent, k: ConnKey)
    ensures TableAfter(cfg, t, evs + [ev]) == ServerStep(cfg, TableAfter(cfg, t, evs), ev).table
    ensures SentAfter(cfg, t, evs + [ev], k)
         == SentAfter(cfg, t, evs, k) + SentOn(ServerStep(cfg, TableAfter(cfg, t, evs), ev).sent, k)
  {
    TableOne(cfg, t, evs, ev);
    assert (evs + [ev])[..|evs|] == evs;
  }

  /** Connection independence: any interleaved run, seen on one 4-tuple, is the run of that
      4-tuple's own segments and the timer and shutdown events, on a table holding nothing else. */
  lemma {:induction false} ConnectionsAreIndependent(cfg: Config, t: Table, evs: seq<ServerEvent>, k: ConnKey)
    ensures Only(TableAfter(cfg, t, evs), k) == TableAfter(cfg, Only(t, k), EventsOf(evs, k))
    ensures SentAfter(cfg, t, evs, k) == SentAfter(cfg, Only(t, k), EventsOf(evs, k), k)
  {
    if evs != [] {
      var before, ev := evs[..|evs| - 1], evs[|evs| - 1];
      ConnectionsAreIndependent(cfg, t, before, k);
      var mid := TableAfter(cfg, t, before);
      if Concerns(ev, k) {
        StepOnOwnEvent(cfg, mid, ev, k);
        RunOne(cfg, Only(t, k), EventsOf(before, k), ev, k);
      } else {
        StepOnOtherEvent(cfg, mid, ev, k);
        assert EventsOf(evs, k) == EventsOf(before, k);
      }
    }
  }

  // ---------------------------------------------------------------------------------------------
  // Lives

  function LocalEvent(ev: ServerEvent): Event {
    match ev
    case Incoming(seg, _, now) => Arrive(seg, now)
    case Wake(now) => Timer(now)
    case Shutdown(now) => CloseCall(now)
  }

  lemma StepOfEntry(cfg: Config, t: Table, ev: ServerEvent, k: ConnKey)
    requires k in t && Concerns(ev, k)
    ensures var s, o := Step(cfg, t[k], LocalEvent(ev)), ServerStep(cfg, t, ev);
      && (k in o.table <==> !s.removed)
      && (k in o.table ==> o.table[k] == s.conn)
      && SentOn(o.sent, k) == s.out
  {
  }

  /** The events of `k` in a run, as its life sees them. */
  ghost function LocalEvents(evs: seq<ServerEvent>, k: ConnKey): seq<Event> {
    if evs == [] then []
    else
      var last := |evs| - 1;
      LocalEvents(evs[..last], k) + (if Concerns(evs[last], k) then [LocalEvent(evs[last])] else [])
  }

  predicate Opens(ev: ServerEvent, k: ConnKey) {
    ev.Incoming? && KeyOf(ev.seg) == k && ev.seg.flags == Syn && ev.isn.Some?
  }

  /** The life that starts as `b` and goes on with what concerns `k` in `rest`. */
  ghost function LifeOf(cfg: Config, b: Life, rest: seq<ServerEvent>, k: ConnKey): Life {
    After(cfg, b, LocalEvents(rest, k))
  }

  /** The life that the SYN at `evs[n]` starts, lived to the end of the run. */
  ghost function LifeFrom(cfg: Config, evs: seq<ServerEvent>, k: ConnKey, n: nat): Life
    requires n < |evs| && Opens(evs[n], k)
  {
    LifeOf(cfg, Birth(evs[n].seg, evs[n].isn.value, evs[n].now), evs[n + 1..], k)
  }

  lemma LifeOfOne(cfg: Config, b: Life, rest: seq<ServerEvent>, ev: ServerEvent, k: ConnKey)
    ensures var l := LifeOf(cfg, b, rest, k);
      LifeOf(cfg, b, rest + [ev], k) == if Concerns(ev, k) then Live(cfg, l, LocalEvent(ev)) else l
  {
    assert (rest + [ev])[..|rest|] == rest;
    if Concerns(ev, k) {
      AfterOne(cfg, b, LocalEvents(rest, k), LocalEvent(ev));
    } else {
      assert LocalEvents(rest + [ev], k) == LocalEvents(rest, k);
    }
  }

  /** The SYN at `evs[n]` opened the connection `k` that the run ends with: `k` was not in the table
      before it and has been there ever since. */
  ghost predicate OpenedAt(cfg: Config, evs: seq<ServerEvent>, k: ConnKey, n: nat) {
    && n < |evs| && Opens(evs[n], k)
    && !InTable(cfg, evs[..n], k)
    && forall m :: n < m <= |evs| ==> InTable(cfg, evs[..m], k)
  }

  /** What holds of all shorter prefixes and of the whole holds of all. */
  lemma AllPrefixes(p: seq<ServerEvent> -> bool, evs: seq<ServerEvent>, before: seq<ServerEvent>, n: nat)
    requires evs != [] && before == evs[..|evs| - 1]
    requires p(evs) && forall m :: n < m <= |before| ==> p(before[..m])
    ensures forall m :: n < m <= |evs| ==> p(evs[..m])
  {
    forall m | n < m <= |evs|
      ensures p(evs[..m])
    {
      assert evs[..m] == if m == |evs| then evs else before[..m];
    }
  }

  ghost predicate InTable(cfg: Config, evs: seq<ServerEvent>, k: ConnKey) {
    k in TableAfter(cfg, map[], evs)
  }

  lemma StaysOpen(cfg: Config, evs: seq<ServerEvent>, k: ConnKey, n: nat)
    requires evs != [] && OpenedAt(cfg, evs[..|evs| - 1], k, n) && InTable(cfg, evs, k)
    ensures OpenedAt(cfg, evs, k, n)
  {
    assert evs[..|evs| - 1][..n] == evs[..n];
    AllPrefixes(e => InTable(cfg, e, k), evs, evs[..|evs| - 1], n);
  }

  /** Only one event can have opened it. */
  lemma OpenedOnce(cfg: Config, evs: seq<ServerEvent>, k: ConnKey, m: nat, n: nat)
    requires OpenedAt(cfg, evs, k, m) && OpenedAt(cfg, evs, k, n)
    ensures m == n
  {
  }

  /** The life `l` is that of the entry `k`. */
  predicate IsLifeOf(l: Life, t: Table, k: ConnKey) {
    l.alive && k in t && l.conn == t[k]
  }

  /** A life and its entry move together, as long as the entry is there. */
  lemma MovesWithItsEntry(cfg: Config, l: Life, t: Table, ev: ServerEvent, k: ConnKey)
    requires IsLifeOf(l, t, k) && k in ServerStep(cfg, t, ev).table
    ensures IsLifeOf(if Concerns(ev, k) then Live(cfg, l, LocalEvent(ev)) else l, ServerStep(cfg, t, ev).table, k)
  {
    if Concerns(ev, k) {
      StepOfEntry(cfg, t, ev, k);
    } else {
      StepOnOtherEvent(cfg, t, ev, k);
      assert Only(t, k)[k] == t[k];
    }
  }

  lemma LivesOn(cfg: Config, b: Life, rest: seq<ServerEvent>, ev: ServerEvent, t: Table, k: ConnKey)
    requires IsLifeOf(LifeOf(cfg, b, rest, k), t, k) && k in ServerStep(cfg, t, ev).table
    ensures IsLifeOf(LifeOf(cfg, b, rest + [ev], k), ServerStep(cfg, t, ev).table, k)
  {
    LifeOfOne(cfg, b, rest, ev, k);
    MovesWithItsEntry(cfg, LifeOf(cfg, b, rest, k), t, ev, k);
  }

  lemma JustOpened(cfg: Config, t: Table, ev: ServerEvent, k: ConnKey)
    requires k !in t && k in ServerStep(cfg, t, ev).table
    ensures Opens(ev, k)
    ensures IsLifeOf(LifeOf(cfg, Birth(ev.seg, ev.isn.value, ev.now), [], k), ServerStep(cfg, t, ev).table, k)
  {
  }

  /** The entry `k` of the run's table is where the life from the SYN at `evs[n]` has come to. */
  ghost predicate LivesFrom(cfg: Config, evs: seq<ServerEvent>, k: ConnKey, n: nat) {
    n < |evs| && Opens(evs[n], k) && IsLifeOf(LifeFrom(cfg, evs, k, n), TableAfter(cfg, map[], evs), k)
  }

  lemma OneMoreEvent(cfg: Config, before: seq<ServerEvent>, ev: ServerEvent, k: ConnKey, n: nat)
    requires LivesFrom(cfg, before, k, n) && InTable(cfg, before + [ev], k)
    ensures LivesFrom(cfg, before + [ev], k, n)
  {
    var syn := before[n];
    RunOne(cfg, map[], before, ev, k);
    LivesOn(cfg, Birth(syn.seg, syn.isn.value, syn.now), before[n + 1..], ev, TableAfter(cfg, map[], before), k);
    assert (before + [ev])[n + 1..] == before[n + 1..] + [ev];
  }

  lemma FirstEvent(cfg: Config, before: seq<ServerEvent>, ev: ServerEvent, k: ConnKey)
    requires !InTable(cfg, before, k) && InTable(cfg, before + [ev], k)
    ensures LivesFrom(cfg, before + [ev], k, |before|)
  {
    RunOne(cfg, map[], before, ev, k);
    JustOpened(cfg, TableAfter(cfg, map[], before), ev, k);
    assert (before + [ev])[|before| + 1..] == [];
  }

  /** Every connection in the table of every run was opened by a SYN of the run, and is where its life
      of that 4-tuple's later events has taken it. */
  lemma {:induction false} EveryEntryIsALife(cfg: Config, evs: seq<ServerEvent>, k: ConnKey) returns (n: nat)
    requires InTable(cfg, evs, k)
    ensures OpenedAt(cfg, evs, k, n) && LivesFrom(cfg, evs, k, n)
  {
    var before, ev := evs[..|evs| - 1], evs[|evs| - 1];
    assert evs == before + [ev] && evs == evs[..|evs|] && before == evs[..|before|];
    if InTable(cfg, before, k) {
      n := EveryEntryIsALife(cfg, before, k);
      StaysOpen(cfg, evs, k, n);
      OneMoreEvent(cfg, before, ev, k, n);
    } else {
      n := |before|;
      FirstEvent(cfg, before, ev, k);
    }
  }

  /** `c` is what a connection opened by a SYN has become. */
  ghost predicate IsLived(cfg: Config, c: Conn) {
    exists l :: Reachable(cfg, l) && l.alive && l.conn == c
  }

  /** So all that is proved of lives holds of every connection in the table of every run. */
  lemma EveryEntryIsLived(cfg: Config, evs: seq<ServerEvent>, k: ConnKey)
    requires k in TableAfter(cfg, map[], evs)
    ensures IsLived(cfg, TableAfter(cfg, map[], evs)[k])
  {
    var n := EveryEntryIsALife(cfg, evs, k);
    assert Reachable(cfg, LifeFrom(cfg, evs, k, n));
  }

  function ServerEventOf(ev: Event): ServerEvent {
    match ev
    case Arrive(seg, now) => Incoming(seg, None, now)
    case Timer(now) => Wake(now)
    case CloseCall(now) => Shutdown(now)
  }

  /** The events of a life, its SYN first, as the server sees them. */
  ghost function RunOf(syn: TcpSegment, isn: u32, now: int, evs: seq<Event>): seq<ServerEvent> {
    if evs == [] then [Incoming(syn, Some(isn), now)]
    else RunOf(syn, isn, now, evs[..|evs| - 1]) + [ServerEventOf(evs[|evs| - 1])]
  }

  lemma Opened(cfg: Config, syn: TcpSegment, isn: u32, now: int)
    requires syn.flags == Syn
    ensures IsLifeOf(Birth(syn, isn, now), TableAfter(cfg, map[], [Incoming(syn, Some(isn), now)]), KeyOf(syn))
  {
    var ev := Incoming(syn, Some(isn), now);
    RunOne(cfg, map[], [], ev, KeyOf(syn));
    assert [] + [ev] == [ev];
  }

  lemma EntryGoesOn(cfg: Config, l: Life, t: Table, ev: Event, k: ConnKey)
    requires IsLifeOf(l, t, k) && (ev.Arrive? ==> KeyOf(ev.seg) == k) && Live(cfg, l, ev).alive
    ensures IsLifeOf(Live(cfg, l, ev), ServerStep(cfg, t, ServerEventOf(ev)).table, k)
  {
    StepOfEntry(cfg, t, ServerEventOf(ev), k);
  }

  /** And every life that is still going on is that of an entry in some run. */
  lemma {:induction false} EveryLifeIsAnEntry(cfg: Config, syn: TcpSegment, isn: u32, now: int, evs: seq<Event>)
    requires syn.flags == Syn && forall i :: 0 <= i < |evs| && evs[i].Arrive? ==> KeyOf(evs[i].seg) == KeyOf(syn)
    requires After(cfg, Birth(syn, isn, now), evs).alive
    ensures IsLifeOf(After(cfg, Birth(syn, isn, now), evs), TableAfter(cfg, map[], RunOf(syn, isn, now, evs)), KeyOf(syn))
  {
    var k := KeyOf(syn);
    if evs == [] {
      Opened(cfg, syn, isn, now);
    } else {
      var before, ev := evs[..|evs| - 1], evs[|evs| - 1];
      var l, run := After(cfg, Birth(syn, isn, now), before), RunOf(syn, isn, now, before);
      EveryLifeIsAnEntry(cfg, syn, isn, now, before);
      EntryGoesOn(cfg, l, TableAfter(cfg, map[], run), ev, k);
      RunOne(cfg, map[], run, ServerEventOf(ev), k);
    }
  }

  /** Given an ISN, `decide_reply` never returns an error, in any run and for any segment. */
  lemma DecideReplyIsTotal(cfg: Config, evs: seq<ServerEvent>, seg: TcpSegment, isn: u32, now: int)
    ensures DecideReply(TableAfter(cfg, map[], evs), seg, Some(isn), now).result.Ok?
  {
    var t, k := TableAfter(cfg, map[], evs), KeyOf(seg);
    if k in t {
      EveryEntryIsLived(cfg, evs, k);
      var l :| Reachable(cfg, l) && l.alive && l.conn == t[k];
      NeverFails(cfg, l, Arrive(seg, now));
    }
  }

  /** Each segment of `k` in the run carries a piece of `stream`. */
  predicate AllAgree(stream: Bytes, clientIsn: u32, evs: seq<ServerEvent>, k: ConnKey) {
    forall i :: 0 <= i < |evs| && Concerns(evs[i], k) ==> Agrees(stream, clientIsn, LocalEvent(evs[i]))
  }

  lemma {:induction false} LocalEventsAgree(stream: Bytes, clientIsn: u32, evs: seq<ServerEvent>, k: ConnKey)
    requires AllAgree(stream, clientIsn, evs, k)
    ensures forall ev :: ev in LocalEvents(evs, k) ==> Agrees(stream, clientIsn, ev)
  {
    if evs != [] {
      LocalEventsAgree(stream, clientIsn, evs[..|evs| - 1], k);
    }
  }

  // ---------------------------------------------------------------------------------------------
  // The log of a life is what the server sent

  /** What the server sends on `k` from the event `n` on, other than by the timer. */
  ghost function FirstSent(cfg: Config, evs: seq<ServerEvent>, k: ConnKey, n: nat): seq<SendInfo> {
    if |evs| <= n then []
    else
      var before, ev := evs[..|evs| - 1], evs[|evs| - 1];
      FirstSent(cfg, before, k, n)
      + (if ev.Wake? then [] else SentOn(ServerStep(cfg, TableAfter(cfg, map[], before), ev).sent, k))
  }

  function Payloads(infos: seq<SendInfo>): Bytes {
    if infos == [] then [] else Payloads(infos[..|infos| - 1]) + infos[|infos| - 1].payload
  }

  function Infos(log: seq<Emission>): seq<SendInfo> {
    seq(|log|, i requires 0 <= i < |log| => log[i].info)
  }

  lemma {:induction false} SentBytesArePayloads(log: seq<Emission>)
    ensures SentBytes(log) == Payloads(Infos(log))
  {
    if log != [] {
      var last := |log| - 1;
      SentBytesArePayloads(log[..last]);
      assert Infos(log)[..last] == Infos(log[..last]);
    }
  }

  /** What an event on `k` adds to the log of its life. */
  lemma LogGrows(cfg: Config, l: Life, t: Table, ev: ServerEvent, k: ConnKey)
    requires IsLifeOf(l, t, k) && Concerns(ev, k)
    ensures Infos(Live(cfg, l, LocalEvent(ev)).hist.log)
         == Infos(l.hist.log) + (if ev.Wake? then [] else SentOn(ServerStep(cfg, t, ev).sent, k))
  {
    StepOfEntry(cfg, t, ev, k);
  }

  ghost predicate LogIsSent(cfg: Config, evs: seq<ServerEvent>, k: ConnKey, n: nat)
    requires n < |evs| && Opens(evs[n], k)
  {
    Infos(LifeFrom(cfg, evs, k, n).hist.log) == FirstSent(cfg, evs, k, n)
  }

  lemma FirstIsLogged(cfg: Config, before: seq<ServerEvent>, ev: ServerEvent, k: ConnKey)
    requires !InTable(cfg, before, k) && Opens(ev, k)
    ensures LogIsSent(cfg, before + [ev], k, |before|)
  {
    var evs := before + [ev];
    assert evs[|before| + 1..] == [] && evs[..|before|] == before;
    assert SentOn(ServerStep(cfg, TableAfter(cfg, map[], before), ev).sent, k) == [Opening(ev.seg, ev.isn.value)];
  }

  lemma NextIsLogged(cfg: Config, before: seq<ServerEvent>, ev: ServerEvent, k: ConnKey, n: nat)
    requires LivesFrom(cfg, before, k, n) && LogIsSent(cfg, before, k, n)
    ensures LogIsSent(cfg, before + [ev], k, n)
  {
    var evs, syn, t := before + [ev], before[n], TableAfter(cfg, map[], before);
    var b, l := Birth(syn.seg, syn.isn.value, syn.now), LifeFrom(cfg, before, k, n);
    assert evs[n + 1..] == before[n + 1..] + [ev] && evs[..|before|] == before;
    LifeOfOne(cfg, b, before[n + 1..], ev, k);
    if Concerns(ev, k) {
      LogGrows(cfg, l, t, ev, k);
    } else {
      StepOnOtherEvent(cfg, t, ev, k);
    }
  }

  lemma OpenedEarlier(cfg: Config, evs: seq<ServerEvent>, before: seq<ServerEvent>, k: ConnKey, n: nat)
    requires OpenedAt(cfg, evs, k, n) && n < |before| && before == evs[..|evs| - 1]
    ensures OpenedAt(cfg, before, k, n)
  {
    assert forall m :: 0 <= m <= |before| ==> before[..m] == evs[..m];
  }

  /** The history of the life that the SYN at `evs[n]` opened logs exactly what the server has sent on `k`
      since then, retransmissions aside. */
  lemma {:induction false} LogIsWhatWasSent(cfg: Config, evs: seq<ServerEvent>, k: ConnKey, n: nat)
    requires OpenedAt(cfg, evs, k, n)
    ensures LogIsSent(cfg, evs, k, n)
  {
    var before, ev := evs[..|evs| - 1], evs[|evs| - 1];
    assert evs == before + [ev] && before == evs[..|before|];
    if n == |before| {
      FirstIsLogged(cfg, before, ev, k);
    } else {
      OpenedEarlier(cfg, evs, before, k, n);
      LogIsWhatWasSent(cfg, before, k, n);
      LivesSince(cfg, before, k, n);
      NextIsLogged(cfg, before, ev, k, n);
    }
  }

  lemma LivesSince(cfg: Config, evs: seq<ServerEvent>, k: ConnKey, n: nat)
    requires OpenedAt(cfg, evs, k, n)
    ensures LivesFrom(cfg, evs, k, n)
  {
    assert evs[..|evs|] == evs;
    var m := EveryEntryIsALife(cfg, evs, k);
    OpenedOnce(cfg, evs, k, m, n);
  }

  // ---------------------------------------------------------------------------------------------

  /** The echo theorem for the whole server: however the segments of all connections interleave, if
      those that came on `k` since its SYN carry one client stream, then the data the server has sent on
      `k` since then, retransmissions aside, is a prefix of that stream, and what the next event sends
      there is made of it. */
  lemma ServerEchoesTheStream(stream: Bytes, cfg: Config, evs: seq<ServerEvent>, ev: ServerEvent, k: ConnKey, n: nat)
    requires |stream| < MODULUS && Concerns(ev, k) && OpenedAt(cfg, evs, k, n)
    requires AllAgree(stream, evs[n].seg.seqNum, evs[n + 1..] + [ev], k)
    ensures Payloads(FirstSent(cfg, evs, k, n)) <= stream
    ensures forall info :: info in SentOn(ServerStep(cfg, TableAfter(cfg, map[], evs), ev).sent, k) ==>
      IsPiece(stream, evs[n].isn.value, info.seqNum, info.payload)
  {
    LivesSince(cfg, evs, k, n);
    LogIsWhatWasSent(cfg, evs, k, n);
    SentBytesArePayloads(LifeFrom(cfg, evs, k, n).hist.log);
    var syn := evs[n].seg;
    var since := evs[n + 1..];
    var later := since + [ev];
    assert later[|later| - 1] == ev;
    forall i | 0 <= i < |since| && Concerns(since[i], k)
      ensures Agrees(stream, syn.seqNum, LocalEvent(since[i]))
    {
      assert later[i] == since[i];
    }
    LocalEventsAgree(stream, syn.seqNum, since, k);
    EchoesTheStream(stream, cfg, syn, evs[n].isn.value, evs[n].now, LocalEvents(since, k), LocalEvent(ev));
    StepOfEntry(cfg, TableAfter(cfg, map[], evs), ev, k);
  }
}
