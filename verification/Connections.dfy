/** The connection table (src/protocol/tcp/connections.rs) and the table side of `decide_reply`
    (src/protocol/tcp/send_info.rs). The random ISN and the clock are parameters. */
module Connections {
  import opened SeqSpace
  import opened Wire
  import opened PendingSegments
  import opened State
  import opened Engine

  datatype Config = Config(rto: RtoConfig, maxRetries: u8)

  type Table = map<ConnKey, Conn>

  datatype EntryOutcome = EntryOutcome(entry: Option<Conn>, result: Result<Option<SendInfo>>)

  /** The SYN-ACK that opens a connection. */
  function Opening(seg: TcpSegment, isn: u32): SendInfo {
    SendInfo(isn, WrappingAdd(seg.seqNum, 1), SynAck, [])
  }

  /** `handle_unknown_conn`; `isn` is `None` when the random source fails. */
  function OnUnknown(seg: TcpSegment, isn: Option<u32>, now: int): EntryOutcome {
    match seg.flags
    case Syn =>
      if isn.None? then EntryOutcome(None, Err(RandomUnavailable))
      else
        var made := FromSynAck(Opening(seg, isn.value), now);
        if made.Err? then EntryOutcome(None, Err(made.error))
        else if !made.value.tcpState.SynReceived? then EntryOutcome(None, Err(NotSynReceived))
        else EntryOutcome(Some(made.value), Ok(Some(Opening(seg, isn.value))))
    case Rst | RstAck => EntryOutcome(None, Ok(None))
    case SynAck | Ack | FinAck => EntryOutcome(None, Ok(Some(Reset(seg))))
  }

  /** The reply once the table accepted the connection. */
  function ReplyUnlessFailed(r: Result<()>, info: SendInfo): Result<Option<SendInfo>> {
    match r
    case Ok(_) => Ok(Some(info))
    case Err(e) => Err(e)
  }

  datatype TableOutcome = TableOutcome(table: Table, result: Result<Option<SendInfo>>)

  function DecideReply(t: Table, seg: TcpSegment, isn: Option<u32>, now: int): TableOutcome {
    var key := KeyOf(seg);
    if key in t then
      var o := OnSegment(t[key], seg, now);
      TableOutcome(if o.remove then t - {key} else t[key := o.conn], o.result)
    else
      var e := OnUnknown(seg, isn, now);
      TableOutcome(if e.entry.Some? then t[key := e.entry.value] else t, e.result)
  }

  predicate AnyDue(pending: seq<PendingSegment>, rto: RtoConfig, now: int) {
    exists i :: 0 <= i < |pending| && IsDue(pending[i], rto, now)
  }

  /** Some due segment has used up its retries, so its connection is given up. */
  predicate GivesUp(cfg: Config, pending: seq<PendingSegment>, now: int) {
    exists i :: 0 <= i < |pending|
                && IsDue(pending[i], cfg.rto, now) && ExhaustedRetries(pending[i], cfg.maxRetries)
  }

  function Resent(pending: seq<PendingSegment>, rto: RtoConfig, now: int): (r: seq<PendingSegment>)
    ensures |r| == |pending|
    ensures forall i :: 0 <= i < |r| ==>
      r[i] == if IsDue(pending[i], rto, now) then Retransmitted(pending[i], now) else pending[i]
  {
    seq(|pending|, i requires 0 <= i < |pending| =>
      if IsDue(pending[i], rto, now) then Retransmitted(pending[i], now) else pending[i])
  }

  function DueInfos(pending: seq<PendingSegment>, rto: RtoConfig, now: int): seq<SendInfo> {
    if pending == [] then []
    else
      var last := |pending| - 1;
      DueInfos(pending[..last], rto, now)
      + (if IsDue(pending[last], rto, now) then [pending[last].info] else [])
  }

  datatype TickOutcome = TickOutcome(entry: Option<Conn>, out: seq<SendInfo>)

  /** One connection's share of `make_retransmissions`. */
  function OnTick(cfg: Config, c: Conn, now: int): TickOutcome {
    if GivesUp(cfg, c.pending, now) then TickOutcome(None, [])
    else TickOutcome(Some(c.(pending := Resent(c.pending, cfg.rto, now))), DueInfos(c.pending, cfg.rto, now))
  }

  function TickOut(cfg: Config, t: Table, k: ConnKey, now: int): seq<SendInfo> {
    if k in t then OnTick(cfg, t[k], now).out else []
  }

  function CloseOut(t: Table, k: ConnKey, now: int): seq<SendInfo> {
    if k in t then OnClose(t[k], now).1 else []
  }

  function TickTable(cfg: Config, t: Table, now: int): Table {
    map k | k in t && OnTick(cfg, t[k], now).entry.Some? :: OnTick(cfg, t[k], now).entry.value
  }

  function CloseTable(t: Table, now: int): Table {
    map k | k in t :: OnClose(t[k], now).0
  }

  /** `t` after the tick of the single connection `key`. */
  function TickOne(cfg: Config, t: Table, key: ConnKey, now: int): Table
    requires key in t
  {
    var o := OnTick(cfg, t[key], now);
    if o.entry.Some? then t[key := o.entry.value] else t - {key}
  }

  function DueKeys(cfg: Config, t: Table, now: int): set<ConnKey> {
    set k | k in t && AnyDue(t[k].pending, cfg.rto, now)
  }

  /** `t` after the ticks of the connections in `done` only. */
  ghost function PartlyTicked(cfg: Config, t: Table, done: set<ConnKey>, now: int): Table {
    map k | k in t && (k in done ==> OnTick(cfg, t[k], now).entry.Some?)
      :: if k in done then OnTick(cfg, t[k], now).entry.value else t[k]
  }

  /** What the ticks of the connections in `done` send. */
  ghost function TickSent(cfg: Config, t: Table, done: set<ConnKey>, now: int): map<ConnKey, seq<SendInfo>> {
    map k | k in done :: TickOut(cfg, t, k, now)
  }

  /** `t` after closing the connections in `done` only. */
  ghost function PartlyClosed(t: Table, done: set<ConnKey>, now: int): Table {
    map k | k in t :: if k in done then OnClose(t[k], now).0 else t[k]
  }

  ghost function CloseSent(t: Table, done: set<ConnKey>, now: int): map<ConnKey, seq<SendInfo>> {
    map k | k in done :: CloseOut(t, k, now)
  }

  lemma PartlyTickedStep(cfg: Config, t: Table, done: set<ConnKey>, key: ConnKey, now: int)
    requires key in t && key !in done
    ensures var p := PartlyTicked(cfg, t, done, now);
      && key in p && p[key] == t[key]
      && TickOne(cfg, p, key, now) == PartlyTicked(cfg, t, done + {key}, now)
      && TickSent(cfg, t, done, now)[key := TickOut(cfg, p, key, now)] == TickSent(cfg, t, done + {key}, now)
  {
  }

  lemma PartlyClosedStep(t: Table, done: set<ConnKey>, key: ConnKey, now: int)
    requires key in t && key !in done
    ensures var p := PartlyClosed(t, done, now);
      && p[key] == t[key]
      && p[key := OnClose(p[key], now).0] == PartlyClosed(t, done + {key}, now)
      && CloseSent(t, done, now)[key := CloseOut(p, key, now)] == CloseSent(t, done + {key}, now)
  {
  }

  lemma ClosedWhenAllAreClosed(t: Table, now: int)
    ensures PartlyClosed(t, t.Keys, now) == CloseTable(t, now)
  {
  }

  /** Ticking only the connections with a due segment ticks the whole table. */
  lemma TickedWhenAllDueAreTicked(cfg: Config, t: Table, now: int)
    ensures PartlyTicked(cfg, t, DueKeys(cfg, t, now), now) == TickTable(cfg, t, now)
    ensures forall segs :: Carries(segs, TickSent(cfg, t, DueKeys(cfg, t, now), now))
                        ==> Carries(segs, TickSent(cfg, t, t.Keys, now))
  {
    forall k | k in t && k !in DueKeys(cfg, t, now)
      ensures OnTick(cfg, t[k], now) == TickOutcome(Some(t[k]), [])
    {
      NothingDueNothingChanges(cfg, t[k], now);
    }
  }

  lemma NothingDueNothingChanges(cfg: Config, c: Conn, now: int)
    requires !AnyDue(c.pending, cfg.rto, now)
    ensures OnTick(cfg, c, now) == TickOutcome(Some(c), [])
  {
    assert Resent(c.pending, cfg.rto, now) == c.pending;
    NoneDue(c.pending, cfg.rto, now);
  }

  lemma {:induction false} NoneDue(pending: seq<PendingSegment>, rto: RtoConfig, now: int)
    requires forall i :: 0 <= i < |pending| ==> !IsDue(pending[i], rto, now)
    ensures DueInfos(pending, rto, now) == []
  {
    if pending != [] {
      NoneDue(pending[..|pending| - 1], rto, now);
    }
  }

  // ---------------------------------------------------------------------------------------------
  // Segments on the wire, connection by connection: `HashMap` iteration fixes no order between
  // connections, so only the order within each connection is specified.

  function DestKey(seg: TcpSegment): ConnKey {
    ConnKey(seg.ipPair.dst, seg.ports.dst, seg.ipPair.src, seg.ports.src)
  }

  ghost function OnWire(segs: seq<TcpSegment>, key: ConnKey): seq<TcpSegment> {
    if segs == [] then []
    else
      var last := |segs| - 1;
      OnWire(segs[..last], key) + (if DestKey(segs[last]) == key then [segs[last]] else [])
  }

  ghost function Addressed(key: ConnKey, infos: seq<SendInfo>): seq<TcpSegment> {
    seq(|infos|, i requires 0 <= i < |infos| => Outgoing(key, infos[i]))
  }

  lemma {:induction false} OnWireConcat(a: seq<TcpSegment>, b: seq<TcpSegment>, key: ConnKey)
    ensures OnWire(a + b, key) == OnWire(a, key) + OnWire(b, key)
  {
    if b == [] {
      assert a + b == a;
    } else {
      var last := |b| - 1;
      assert (a + b)[..|a + b| - 1] == a + b[..last];
      OnWireConcat(a, b[..last], key);
    }
  }

  lemma {:induction false} OnWireAddressed(key: ConnKey, infos: seq<SendInfo>, other: ConnKey)
    ensures OnWire(Addressed(key, infos), other) == if key == other then Addressed(key, infos) else []
  {
    if infos != [] {
      var last := |infos| - 1;
      assert Addressed(key, infos)[..last] == Addressed(key, infos[..last]);
      OnWireAddressed(key, infos[..last], other);
      assert Addressed(key, infos) == Addressed(key, infos[..last]) + [Outgoing(key, infos[last])];
    }
  }

  /** `segs` holds, connection by connection, exactly the segments in `sent`. */
  ghost predicate Carries(segs: seq<TcpSegment>, sent: map<ConnKey, seq<SendInfo>>) {
    forall k :: OnWire(segs, k) == Addressed(k, if k in sent then sent[k] else [])
  }

  lemma CarriesMore(segs: seq<TcpSegment>, sent: map<ConnKey, seq<SendInfo>>, key: ConnKey, infos: seq<SendInfo>)
    requires Carries(segs, sent) && key !in sent
    ensures Carries(segs + Addressed(key, infos), sent[key := infos])
  {
    forall k
      ensures OnWire(segs + Addressed(key, infos), k)
           == Addressed(k, if k in sent[key := infos] then sent[key := infos][k] else [])
    {
      OnWireConcat(segs, Addressed(key, infos), k);
      OnWireAddressed(key, infos, k);
    }
  }

  // ---------------------------------------------------------------------------------------------

  class TcpConnections {
    var table: map<ConnKey, ConnState>
    const cfg: Config

    /** Each key owns its own record. */
    ghost predicate Valid()
      reads this
    {
      forall j, k :: j in table && k in table && j != k ==> table[j] != table[k]
    }

    ghost function View(): Table
      reads this, table.Values
    {
      map k | k in table :: table[k].View()
    }

    constructor (cfg: Config)
      ensures Valid() && table == map[] && View() == map[] && this.cfg == cfg
    {
      this.cfg := cfg;
      table := map[];
    }

    /** `insert_syn_rcv`. */
    method InsertSynRcv(key: ConnKey, conn: ConnState) returns (r: Result<()>)
      requires Valid() && conn !in table.Values
      modifies this
      ensures Valid()
      ensures r == if conn.tcpState.SynReceived? then Ok(()) else Err(NotSynReceived)
      ensures table == if r.Ok? then old(table)[key := conn] else old(table)
    {
      if !conn.tcpState.SynReceived? {
        return Err(NotSynReceived);
      }
      table := table[key := conn];
      r := Ok(());
    }

    /** `connections.insert_syn_rcv(key, ConnState::from_syn_ack(send_info)?)?`. */
    method OpenAndInsert(key: ConnKey, info: SendInfo, now: int) returns (r: Result<()>)
      requires Valid()
      modifies this
      ensures Valid() && fresh(table.Values - old(table.Values))
      ensures r == if info.flags == SynAck then Ok(()) else Err(NotSynAck)
      ensures View() == if r.Ok? then old(View())[key := FromSynAck(info, now).value] else old(View())
    {
      var conn := OpenConnection(info, now);
      if conn.Err? {
        return Err(conn.error);
      }
      r := InsertSynRcv(key, conn.value);
    }

    /** `handle_unknown_conn`. */
    method HandleUnknownConn(seg: TcpSegment, key: ConnKey, isn: Option<u32>, now: int)
      returns (reply: Result<Option<SendInfo>>)
      requires Valid() && key !in table
      modifies this
      ensures Valid() && fresh(table.Values - old(table.Values))
      ensures var e := OnUnknown(seg, isn, now);
        && reply == e.result
        && View() == if e.entry.Some? then old(View())[key := e.entry.value] else old(View())
    {
      if seg.flags == Syn {
        if isn.None? {
          return Err(RandomUnavailable);
        }
        var info := SendInfo(isn.value, WrappingAdd(seg.seqNum, 1), SynAck, []);
        var inserted := OpenAndInsert(key, info, now);
        reply := ReplyUnlessFailed(inserted, info);
      } else if seg.flags in {Rst, RstAck} {
        reply := Ok(None);
      } else {
        reply := Ok(Some(Reset(seg)));
      }
    }

    /** `remove`. */
    method Remove(key: ConnKey)
      requires Valid()
      modifies this
      ensures Valid() && table.Values <= old(table.Values)
      ensures View() == old(View()) - {key}
    {
      table := table - {key};
    }

    /** The known-connection branch of `decide_reply`, up to the removal. */
    method HandleEntry(key: ConnKey, seg: TcpSegment, now: int) returns (reply: Result<Option<SendInfo>>, remove: bool)
      requires Valid() && key in table
      modifies table[key]
      ensures var o := OnSegment(old(View())[key], seg, now);
        && o.result == reply && o.remove == remove
        && View() == old(View())[key := o.conn]
    {
      ghost var t := View();
      reply, remove := HandleKnown(seg, table[key], now);
      ghost var c := table[key].View();
      assert OnSegment(t[key], seg, now) == Outcome(c, reply, remove);
      assert View() == t[key := c];
    }

    /** `SendInfo::decide_reply`. */
    method DecideReplyTo(seg: TcpSegment, isn: Option<u32>, now: int) returns (reply: Result<Option<SendInfo>>)
      requires Valid()
      modifies this, table.Values
      ensures Valid() && fresh(table.Values - old(table.Values))
      ensures DecideReply(old(View()), seg, isn, now) == TableOutcome(View(), reply)
    {
      ghost var t := View();
      var key := KeyOf(seg);
      if key !in table {
        reply := HandleUnknownConn(seg, key, isn, now);
        return;
      }
      var remove: bool;
      reply, remove := HandleEntry(key, seg, now);
      if remove {
        Remove(key);
        assert View() == t - {key};
      }
    }

    /** `TcpSegment::create_reply`. */
    method CreateReply(seg: TcpSegment, isn: Option<u32>, now: int) returns (reply: Result<Option<TcpSegment>>)
      requires Valid()
      modifies this, table.Values
      ensures Valid() && fresh(table.Values - old(table.Values))
      ensures var o := DecideReply(old(View()), seg, isn, now);
        && View() == o.table
        && (o.result.Err? ==> reply == Err(o.result.error))
        && (o.result == Ok(None) ==> reply == Ok(None))
        && (o.result.Ok? && o.result.value.Some? ==> reply == Ok(Some(Outgoing(KeyOf(seg), o.result.value.value))))
      ensures reply.Ok? && reply.value.Some? ==>
        var r, info := reply.value.value, DecideReply(old(View()), seg, isn, now).result.value.value;
        && r.ipPair == IpPair(seg.ipPair.dst, seg.ipPair.src) && r.ports == PortPair(seg.ports.dst, seg.ports.src)
        && r.seqNum == info.seqNum && r.ackNum == info.ackNum && r.flags == info.flags && r.payload == info.payload
        && r.offsetBytes == 20 && r.window == 65535
    {
      var info := DecideReplyTo(seg, isn, now);
      if info.Err? {
        return Err(info.error);
      }
      if info.value.None? {
        return Ok(None);
      }
      reply := Ok(Some(FromPairsAndInfo(seg.ipPair.Swapped(), seg.ports.Swapped(), info.value.value)));
    }

    /** `closing_in_progress`. */
    method ClosingInProgress() returns (closing: bool)
      ensures closing <==> exists k :: k in View() && FinSent(View()[k].tcpState)
    {
      closing := exists k :: k in table && FinSent(table[k].tcpState);
      assert forall k :: k in table ==> View()[k].tcpState == table[k].tcpState;
    }

    /** `next_retransmit_deadline`: the earliest due time over all pending segments. */
    method NextRetransmitDeadline() returns (deadline: Option<int>)
      ensures deadline.None? ==> forall k :: k in View() ==> View()[k].pending == []
      ensures deadline.Some? ==>
        && (exists k, i :: k in View() && 0 <= i < |View()[k].pending|
                           && TimeDue(View()[k].pending[i], cfg.rto) == deadline.value)
        && (forall k, i :: k in View() && 0 <= i < |View()[k].pending| ==>
                           deadline.value <= TimeDue(View()[k].pending[i], cfg.rto))
    {
      deadline := None;
      var rest := table.Keys;
      ghost var t := View();
      while rest != {}
        invariant rest <= t.Keys
        invariant deadline.None? ==> forall k :: k in t && k !in rest ==> t[k].pending == []
        invariant deadline.Some? ==>
          && (exists k, i :: k in t && 0 <= i < |t[k].pending| && TimeDue(t[k].pending[i], cfg.rto) == deadline.value)
          && (forall k, i :: k in t && k !in rest && 0 <= i < |t[k].pending| ==>
                             deadline.value <= TimeDue(t[k].pending[i], cfg.rto))
        decreases |rest|
      {
        var key :| key in rest;
        var pending := table[key].pending;
        assert t[key].pending == pending;
        ghost var before := deadline;
        for j := 0 to |pending|
          invariant j == 0 ==> deadline == before
          invariant j > 0 ==> deadline.Some?
          invariant deadline.Some? ==>
            && (exists k, i :: k in t && 0 <= i < |t[k].pending| && TimeDue(t[k].pending[i], cfg.rto) == deadline.value)
            && (before.Some? ==> deadline.value <= before.value)
            && (forall i :: 0 <= i < j ==> deadline.value <= TimeDue(pending[i], cfg.rto))
        {
          var due := TimeDue(pending[j], cfg.rto);
          assert t[key].pending[j] == pending[j];
          if deadline.None? || due < deadline.value {
            deadline := Some(due);
          }
        }
        rest := rest - {key};
      }
    }

    /** The inner loop of `make_retransmissions`: resends each due segment of one connection. */
    method ResendDue(key: ConnKey, conn: ConnState, now: int) returns (out: seq<TcpSegment>)
      modifies conn
      ensures conn.View() == old(conn.View()).(pending := Resent(old(conn.pending), cfg.rto, now))
      ensures out == Addressed(key, DueInfos(old(conn.pending), cfg.rto, now))
    {
      out := [];
      ghost var before := conn.pending;
      for i := 0 to |conn.pending|
        invariant conn.View() == old(conn.View()).(pending := conn.pending)
        invariant |conn.pending| == |before|
        invariant forall j :: 0 <= j < i ==> conn.pending[j] == Resent(before, cfg.rto, now)[j]
        invariant forall j :: i <= j < |before| ==> conn.pending[j] == before[j]
        invariant out == Addressed(key, DueInfos(before[..i], cfg.rto, now))
      {
        var seg := conn.pending[i];
        assert before[..i + 1][..i] == before[..i];
        if TimeDue(seg, cfg.rto) <= now {
          conn.pending := conn.pending[i := Retransmitted(seg, now)];
          out := out + [Outgoing(key, seg.info)];
        }
      }
      assert before[..|before|] == before;
      assert conn.pending == Resent(before, cfg.rto, now);
    }

    /** The body of the loop of `make_retransmissions` for one due connection. */
    method RetransmitOne(key: ConnKey, now: int) returns (out: seq<TcpSegment>)
      requires Valid() && key in table
      modifies this, table[key]
      ensures Valid() && table.Values <= old(table.Values)
      ensures View() == TickOne(cfg, old(View()), key, now)
      ensures out == Addressed(key, TickOut(cfg, old(View()), key, now))
    {
      ghost var t := View();
      var conn := table[key];
      assert conn.View() == t[key];
      if GivesUp(cfg, conn.pending, now) {
        Remove(key);
        out := [];
      } else {
        out := ResendDue(key, conn, now);
        ghost var c := conn.View();
        assert OnTick(cfg, t[key], now).entry == Some(c);
        assert View() == t[key := c];
      }
    }

    /** `make_retransmissions`. */
    method MakeRetransmissions(now: int) returns (out: seq<TcpSegment>)
      requires Valid()
      modifies this, table.Values
      ensures Valid() && table.Values <= old(table.Values)
      ensures View() == TickTable(cfg, old(View()), now)
      ensures Carries(out, TickSent(cfg, old(View()), old(View()).Keys, now))
    {
      ghost var t := View();
      var dueKeys := set k | k in table && AnyDue(table[k].pending, cfg.rto, now);
      assert dueKeys == DueKeys(cfg, t, now);
      out := [];
      var rest := dueKeys;
      ghost var done: set<ConnKey> := {};
      while rest != {}
        invariant Valid() && table.Values <= old(table.Values)
        invariant done !! rest && done + rest == dueKeys
        invariant View() == PartlyTicked(cfg, t, done, now)
        invariant Carries(out, TickSent(cfg, t, done, now))
      {
        var key :| key in rest;
        PartlyTickedStep(cfg, t, done, key, now);
        assert key in View();
        var more := RetransmitOne(key, now);
        CarriesMore(out, TickSent(cfg, t, done, now), key, TickOut(cfg, PartlyTicked(cfg, t, done, now), key, now));
        out := out + more;
        done := done + {key};
        rest := rest - {key};
      }
      assert done == dueKeys;
      TickedWhenAllDueAreTicked(cfg, t, now);
    }

    /** The closure of `close_established` on one connection. */
    method CloseOne(key: ConnKey, now: int) returns (out: seq<TcpSegment>)
      requires Valid() && key in table
      modifies table[key]
      ensures View() == old(View())[key := OnClose(old(View())[key], now).0]
      ensures out == Addressed(key, CloseOut(old(View()), key, now))
    {
      ghost var t := View();
      var conn := table[key];
      assert conn.View() == t[key];
      if !conn.tcpState.Established? {
        assert View() == t[key := t[key]];
        return [];
      }
      var info := SendInfo(conn.sndNxt, conn.rcvNxt, FinAck, []);
      conn.tcpState := FinWait1(conn.tcpState.window);
      conn.sndNxt := WrappingAdd(conn.sndNxt, 1);
      conn.pending := conn.pending + [NewPending(info, now)];
      ghost var c := conn.View();
      assert OnClose(t[key], now) == (c, [info]);
      assert View() == t[key := c];
      out := [Outgoing(key, info)];
    }

    /** `close_established`. */
    method CloseEstablished(now: int) returns (out: seq<TcpSegment>)
      requires Valid()
      modifies table.Values
      ensures View() == CloseTable(old(View()), now)
      ensures Carries(out, CloseSent(old(View()), old(View()).Keys, now))
    {
      ghost var t := View();
      out := [];
      var rest := table.Keys;
      ghost var done: set<ConnKey> := {};
      while rest != {}
        invariant done !! rest && done + rest == table.Keys == t.Keys
        invariant View() == PartlyClosed(t, done, now)
        invariant Carries(out, CloseSent(t, done, now))
      {
        var key :| key in rest;
        PartlyClosedStep(t, done, key, now);
        var more := CloseOne(key, now);
        CarriesMore(out, CloseSent(t, done, now), key, CloseOut(PartlyClosed(t, done, now), key, now));
        out := out + more;
        done := done + {key};
        rest := rest - {key};
      }
      assert done == t.Keys;
      ClosedWhenAllAreClosed(t, now);
    }
  }
}
