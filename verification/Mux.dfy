/**
 Two mux endpoints over a network that may lose, duplicate, delay and reorder
 datagrams: the network is the set of datagrams ever written, and any of them
 may be read at any time, any number of times.
 */
module Mux {
  import opened Bytes
  import opened MuxFrame
  import opened Dedupe
  import opened MuxConn

  const SEND_ATTEMPTS := 5

  datatype Payload = Message(msg: seq<Byte>) | Probe

  datatype Result = Acked | TimedOut | ConnClosed | Cancelled | WriteFailed | Crashed

  datatype Stage = Writing(next: nat) | Awaiting | Returned(result: Result)

  // One Send or ping. epoch: that of the process it runs in. before: the Sends of this endpoint that
  // had returned nil when it began.
  datatype Transfer = Transfer(
    conn: nat, payload: Payload, attempt: nat, stage: Stage, epoch: Byte, before: set<U64>)

  type Transfers = map<U64, Transfer>

  // One message put into the inbox of connection number conn.
  datatype Delivery = Delivery(conn: nat, id: U64, msg: seq<Byte>)

  // epochs and history record the run: the non-zero epochs of the frames routed to
  // this connection, and the messages put into its inbox.
  datatype Conn = Conn(
    remoteEpoch: Byte, closed: bool, pending: map<U64, bool>, rx: Receiver,
    epochs: set<Byte>, history: seq<Delivery>)

  // The frame the read loop has routed to a connection and not yet handled.
  datatype Reading = Reading(conn: nat, frame: Frame)

  // Connections are numbered in order of creation; log records every delivery in order.
  datatype Endpoint = Endpoint(
    epoch: Byte, conns: seq<Conn>, current: Option<nat>, transfers: Transfers,
    reading: Option<Reading>, log: seq<Delivery>)

  datatype Action =
    | StartSend(conn: nat, id: U64, msg: seq<Byte>)
    | Dial(id: U64)
    | Write(id: U64)
    | Timer(id: U64)
    | Return(id: U64, result: Result)
    | Demux(datagram: seq<Byte>)
    | Handle(now: int, kept: Table)
    | Recv(conn: nat)
    | Close(conn: nat)
    | Restart(epoch: Byte)

  // written: the one frame an action may hand to the socket.
  datatype Acted = Acted(next: Endpoint, written: Option<Frame>)

  // ----- sending

  predicate Sendable(p: Payload, mtu: nat)
    requires mtu > HEADER_SIZE
  {
    p.Message? ==> |p.msg| <= MAX_MESSAGE_SIZE && |Fragments(p.msg, mtu - HEADER_SIZE)| <= MAX_FRAGMENTS
  }

  function FrameCount(p: Payload, mtu: nat): nat
    requires mtu > HEADER_SIZE
  {
    if p.Probe? then 1 else |Fragments(p.msg, mtu - HEADER_SIZE)|
  }

  function FrameOf(p: Payload, mtu: nat, id: U64, epoch: Byte, i: nat): Frame
    requires mtu > HEADER_SIZE && Sendable(p, mtu) && i < FrameCount(p, mtu)
  {
    if p.Probe? then Frame(PING, id, 0, 1, epoch, [])
    else
      var fs := Fragments(p.msg, mtu - HEADER_SIZE);
      Frame(DATA, id, i, |fs|, epoch, fs[i])
  }

  function Succeeded(t: Transfers): set<U64> {
    set id | id in t && t[id].payload.Message? && t[id].stage == Returned(Acked)
  }

  function Begin(e: Endpoint, k: nat, id: U64, p: Payload): Endpoint
    requires k < |e.conns|
  {
    e.(conns := e.conns[k := e.conns[k].(pending := e.conns[k].pending[id := false])],
       transfers := e.transfers[id := Transfer(k, p, 0, Writing(0), e.epoch, Succeeded(e.transfers))])
  }

  function End(e: Endpoint, id: U64, r: Result): Endpoint
    requires id in e.transfers && e.transfers[id].conn < |e.conns|
  {
    var t := e.transfers[id];
    e.(conns := e.conns[t.conn := e.conns[t.conn].(pending := e.conns[t.conn].pending - {id})],
       transfers := e.transfers[id := t.(stage := Returned(r))])
  }

  // ----- connections

  function NewConn(): (c: Conn)
    ensures FilterOk(c) && InboxOk(c) && EpochOk(c)
  {
    assert IdSeq([]) == [];
    Conn(0, false, map[], Receiver(map[], Empty(WINDOW), []), {}, [])
  }

  /** The connection for the peer, created when there is none. */
  function Connect(e: Endpoint): (r: Endpoint)
    ensures r.current.Some?
  {
    if e.current.Some? then e
    else e.(conns := e.conns + [NewConn()], current := Some(|e.conns|))
  }

  function CloseConn(e: Endpoint, k: nat): Endpoint
    requires k < |e.conns|
  {
    e.(conns := e.conns[k := e.conns[k].(closed := true)],
       current := if e.current == Some(k) then None else e.current)
  }

  predicate PeerRestarted(e: Endpoint, epoch: Byte) {
    e.current.Some? && e.current.value < |e.conns| &&
    var c := e.conns[e.current.value];
    epoch != 0 && c.remoteEpoch != 0 && c.remoteEpoch != epoch
  }

  function NoteFrame(e: Endpoint, f: Frame): Endpoint
    requires e.current.Some? && e.current.value < |e.conns|
  {
    var k := e.current.value;
    var c := e.conns[k];
    var c' := c.(remoteEpoch := if c.remoteEpoch == 0 then f.epoch else c.remoteEpoch,
                 epochs := if f.epoch == 0 then c.epochs else c.epochs + {f.epoch});
    e.(conns := e.conns[k := c'], reading := Some(Reading(k, f)))
  }

  /** Route a frame: retire a connection of another epoch, then note the epoch. */
  function Route(e: Endpoint, f: Frame): Endpoint
    requires e.current.Some? ==> e.current.value < |e.conns|
  {
    var e1 := if PeerRestarted(e, f.epoch) then CloseConn(e, e.current.value) else e;
    NoteFrame(Connect(e1), f)
  }

  function HandleFrame(e: Endpoint, now: int, kept: Table): Acted
    requires e.reading.Some? && e.reading.value.conn < |e.conns|
    requires var s := e.conns[e.reading.value.conn].rx.seen; s.next < |s.order|
  {
    var Reading(k, f) := e.reading.value;
    var c := e.conns[k];
    var idle := e.(reading := None);
    if f.kind == DATA then
      var h := HandleData(c.rx, kept, f.id, f.index, f.count, f.body, now);
      var put := if h.delivered.Some? then [Delivery(k, f.id, h.delivered.value)] else [];
      Acted(idle.(conns := e.conns[k := c.(rx := h.next, history := c.history + put)], log := e.log + put),
            if h.ack then Some(Frame(ACK, f.id, 0, 1, e.epoch, [])) else None)
    else if f.kind == ACK || f.kind == PONG then
      if f.id in c.pending then
        Acted(idle.(conns := e.conns[k := c.(pending := c.pending[f.id := true])]), None)
      else Acted(idle, None)
    else if f.kind == PING then Acted(idle, Some(Frame(PONG, f.id, 0, 1, e.epoch, [])))
    else Acted(idle, None)
  }

  /** A new process under the same address: connections die, running transfers vanish. */
  function Reborn(e: Endpoint, epoch: Byte): Endpoint {
    Endpoint(epoch, seq(|e.conns|, i requires 0 <= i < |e.conns| => e.conns[i].(closed := true)), None,
             map id | id in e.transfers ::
               if e.transfers[id].stage.Returned? then e.transfers[id]
               else e.transfers[id].(stage := Returned(Crashed)),
             None, e.log)
  }

  predicate Bounds(e: Endpoint) {
    && (e.current.Some? ==> e.current.value < |e.conns|)
    && (e.reading.Some? ==> e.reading.value.conn < |e.conns|)
    && TransfersWithin(e.transfers, |e.conns|)
    && RingsOk(e.conns)
  }

  predicate TransfersWithin(t: Transfers, n: nat) {
    forall id :: id in t ==> t[id].conn < n
  }

  predicate RingsOk(cs: seq<Conn>) {
    forall k :: 0 <= k < |cs| ==> cs[k].rx.seen.next < |cs[k].rx.seen.order|
  }

  predicate MayReturn(e: Endpoint, id: U64, r: Result)
    requires Bounds(e)
  {
    id in e.transfers &&
    var t := e.transfers[id];
    match r
    case Acked => t.stage.Awaiting? && id in e.conns[t.conn].pending && e.conns[t.conn].pending[id]
    case ConnClosed => t.stage.Awaiting? && e.conns[t.conn].closed
    case Cancelled => t.stage.Awaiting?
    case WriteFailed => t.stage.Writing?
    case TimedOut => t.stage.Awaiting? && t.attempt + 1 >= SEND_ATTEMPTS
    case Crashed => false
  }

  ghost predicate Enabled(e: Endpoint, mtu: nat, a: Action)
    requires mtu > HEADER_SIZE && Bounds(e)
  {
    match a
    case StartSend(k, id, msg) => k < |e.conns| && id != 0 && id !in e.transfers && Sendable(Message(msg), mtu)
    case Dial(id) => id != 0 && id !in e.transfers
    case Write(id) =>
      id in e.transfers && Sendable(e.transfers[id].payload, mtu) && e.transfers[id].stage.Writing? &&
      e.transfers[id].stage.next < FrameCount(e.transfers[id].payload, mtu)
    case Timer(id) =>
      id in e.transfers && e.transfers[id].stage.Awaiting? && e.transfers[id].attempt + 1 < SEND_ATTEMPTS
    case Return(id, r) => MayReturn(e, id, r)
    case Demux(_) => e.reading.None?
    case Handle(now, kept) =>
      e.reading.Some? &&
      var Reading(k, f) := e.reading.value;
      var rx := e.conns[k].rx;
      f.kind == DATA && Wanted(rx, f.id, f.index, f.count) && f.id !in rx.reasm ==> Collected(rx.reasm, now, kept)
    case Recv(k) => k < |e.conns| && e.conns[k].rx.inbox != []
    case Close(k) => k < |e.conns|
    case Restart(epoch) => epoch != 0
  }

  ghost function Act(e: Endpoint, mtu: nat, a: Action): Acted
    requires mtu > HEADER_SIZE && Bounds(e) && Enabled(e, mtu, a)
  {
    match a
    case StartSend(k, id, msg) => Acted(Begin(e, k, id, Message(msg)), None)
    case Dial(id) => var c := Connect(e); Acted(Begin(c, c.current.value, id, Probe), None)
    case Write(id) =>
      var t := e.transfers[id];
      var i := t.stage.next;
      Acted(e.(transfers := e.transfers[id := t.(stage :=
                  if i + 1 < FrameCount(t.payload, mtu) then Writing(i + 1) else Awaiting)]),
            Some(FrameOf(t.payload, mtu, id, e.epoch, i)))
    case Timer(id) =>
      var t := e.transfers[id];
      Acted(e.(transfers := e.transfers[id := t.(attempt := t.attempt + 1, stage := Writing(0))]), None)
    case Return(id, r) => Acted(End(e, id, r), None)
    case Demux(d) => Acted(if Parse(d).None? then e else Route(e, Parse(d).value), None)
    case Handle(now, kept) => HandleFrame(e, now, kept)
    case Recv(k) =>
      Acted(e.(conns := e.conns[k := e.conns[k].(rx := e.conns[k].rx.(inbox := e.conns[k].rx.inbox[1..]))]), None)
    case Close(k) => Acted(CloseConn(e, k), None)
    case Restart(epoch) => Acted(Reborn(e, epoch), None)
  }

  // ----- the invariant, one endpoint at a time

  function Ids(log: seq<Delivery>): set<U64> {
    set d | d in log :: d.id
  }

  function IdSeq(h: seq<Delivery>): (s: seq<U64>)
    ensures |s| == |h| && forall i :: 0 <= i < |h| ==> s[i] == h[i].id
  {
    seq(|h|, i requires 0 <= i < |h| => h[i].id)
  }

  function Msgs(h: seq<Delivery>): (s: seq<seq<Byte>>)
    ensures |s| == |h| && forall i :: 0 <= i < |h| ==> s[i] == h[i].msg
  {
    seq(|h|, i requires 0 <= i < |h| => h[i].msg)
  }

  /** A frame an endpoint with these transfers and deliveries may have written. */
  ghost predicate Honest(f: Frame, mtu: nat, own: Transfers, log: seq<Delivery>, peer: Transfers)
    requires mtu > HEADER_SIZE
  {
    if f.kind == DATA then
      f.id in own && own[f.id].payload.Message? &&
      var fs := Fragments(own[f.id].payload.msg, mtu - HEADER_SIZE);
      f.count == |fs| && f.index < f.count && f.body == fs[f.index]
    else if f.kind == ACK then f.id in Ids(log)
    else if f.kind == PING then f.id in own && own[f.id].payload.Probe?
    else f.kind == PONG && f.id in peer && peer[f.id].payload.Probe?
  }

  ghost predicate TableOk(t: Table, mtu: nat, peer: Transfers)
    requires mtu > HEADER_SIZE
  {
    && |t| <= MAX_REASSEMBLIES
    && forall id :: id in t ==> EntryOk(id, t[id], mtu, peer)
  }

  ghost predicate PendingOk(p: map<U64, bool>, own: Transfers, peerLog: seq<Delivery>) {
    forall id :: id in p ==> id in own && (p[id] && own[id].payload.Message? ==> id in Ids(peerLog))
  }

  ghost predicate InboxOk(c: Conn) {
    |c.rx.inbox| <= |c.history| && c.rx.inbox == Msgs(c.history)[|c.history| - |c.rx.inbox|..]
  }

  ghost predicate FilterOk(c: Conn) {
    && |c.rx.seen.order| == WINDOW
    && Remembers(c.rx.seen, IdSeq(c.history))
    && DistinctWithin(IdSeq(c.history), WINDOW)
  }

  ghost predicate EpochOk(c: Conn) {
    forall x :: x in c.epochs ==> x == c.remoteEpoch != 0
  }

  ghost predicate ConnOk(c: Conn, mtu: nat, own: Transfers, log: seq<Delivery>, peer: Transfers,
                         peerLog: seq<Delivery>)
    requires mtu > HEADER_SIZE
  {
    && TableOk(c.rx.reasm, mtu, peer)
    && FilterOk(c)
    && InboxOk(c)
    && EpochOk(c)
    && (forall d :: d in c.history ==> d in log)
    && PendingOk(c.pending, own, peerLog)
  }

  ghost predicate TransferOk(id: U64, t: Transfer, mtu: nat, peerLog: seq<Delivery>)
    requires mtu > HEADER_SIZE
  {
    && id != 0
    && Sendable(t.payload, mtu)
    && (t.stage.Writing? ==> t.stage.next < FrameCount(t.payload, mtu))
    && (t.stage == Returned(Acked) && t.payload.Message? ==> id in Ids(peerLog))
    && t.before <= Ids(peerLog)
  }

  /** Whatever had succeeded before a transfer began is delivered before it. */
  ghost predicate OrderOk(own: Transfers, peerLog: seq<Delivery>) {
    forall j, b :: 0 <= j < |peerLog| && peerLog[j].id in own && b in own[peerLog[j].id].before ==>
                     b in Ids(peerLog[..j])
  }

  ghost predicate LogOk(log: seq<Delivery>, peer: Transfers) {
    forall d :: d in log ==> d.id in peer && peer[d.id].payload == Message(d.msg)
  }

  ghost predicate ConnsOk(cs: seq<Conn>, mtu: nat, own: Transfers, log: seq<Delivery>, peer: Transfers,
                          peerLog: seq<Delivery>)
    requires mtu > HEADER_SIZE
  {
    forall k :: 0 <= k < |cs| ==> ConnOk(cs[k], mtu, own, log, peer, peerLog)
  }

  ghost predicate TransfersOk(own: Transfers, mtu: nat, peerLog: seq<Delivery>)
    requires mtu > HEADER_SIZE
  {
    forall id :: id in own ==> TransferOk(id, own[id], mtu, peerLog)
  }

  ghost predicate EndOk(e: Endpoint, mtu: nat, peer: Transfers, peerLog: seq<Delivery>)
    requires mtu > HEADER_SIZE
  {
    && Bounds(e)
    && ConnsOk(e.conns, mtu, e.transfers, e.log, peer, peerLog)
    && TransfersOk(e.transfers, mtu, peerLog)
    && LogOk(e.log, peer)
    && OrderOk(e.transfers, peerLog)
    && (e.reading.Some? ==> Honest(e.reading.value.frame, mtu, peer, peerLog, e.transfers))
  }

  /** The transfers keep their payloads, epochs and prior successes. */
  ghost predicate Extends(t: Transfers, t': Transfers) {
    forall id :: id in t ==> id in t' && SameTransfer(t[id], t'[id])
  }

  predicate SameTransfer(t: Transfer, t': Transfer) {
    t'.payload == t.payload && t'.epoch == t.epoch && t'.before == t.before
  }

  lemma {:induction false} IdsGrow(log: seq<Delivery>, log': seq<Delivery>)
    requires log <= log'
    ensures Ids(log) <= Ids(log')
    ensures forall d :: d in log ==> d in log'
  {
    assert forall d :: d in log ==> d in log';
  }

  lemma {:induction false} IdsAppend(log: seq<Delivery>, d: Delivery)
    ensures Ids(log + [d]) == Ids(log) + {d.id}
  {
    assert forall x :: x in log + [d] <==> x in log || x == d;
  }

  lemma {:induction false} HonestGrows(f: Frame, mtu: nat, own: Transfers, log: seq<Delivery>, peer: Transfers,
                                       own': Transfers, log': seq<Delivery>, peer': Transfers)
    requires mtu > HEADER_SIZE && Honest(f, mtu, own, log, peer)
    requires Extends(own, own') && log <= log' && Extends(peer, peer')
    ensures Honest(f, mtu, own', log', peer')
  {
    IdsGrow(log, log');
  }

  /** What one endpoint does never spoils the other endpoint's invariant. */
  lemma {:induction false} PeerKeeps(p: Endpoint, mtu: nat, t: Transfers, log: seq<Delivery>, t': Transfers,
                                     log': seq<Delivery>)
    requires mtu > HEADER_SIZE && EndOk(p, mtu, t, log)
    requires Extends(t, t') && log <= log' && OrderOk(p.transfers, log')
    ensures EndOk(p, mtu, t', log')
  {
    IdsGrow(log, log');
    forall k | 0 <= k < |p.conns|
      ensures ConnOk(p.conns[k], mtu, p.transfers, p.log, t', log')
    {
      assert ConnOk(p.conns[k], mtu, p.transfers, p.log, t, log);
    }
    if p.reading.Some? {
      HonestGrows(p.reading.value.frame, mtu, t, log, p.transfers, t', log', p.transfers);
    }
  }

  // ----- every action keeps the endpoint's own invariant

  /** Result of an endpoint step, as the rest of the system relies on it. */
  ghost predicate Kept(e: Endpoint, r: Acted, mtu: nat, peer: Transfers, peerLog: seq<Delivery>)
    requires mtu > HEADER_SIZE
  {
    && EndOk(r.next, mtu, peer, peerLog)
    && Extends(e.transfers, r.next.transfers)
    && e.log <= r.next.log
    && (r.written.Some? ==>
          |r.written.value.body| <= mtu - HEADER_SIZE &&
          Honest(r.written.value, mtu, r.next.transfers, r.next.log, peer))
  }

  /** Connections in order stay so while transfers and log grow. */
  lemma {:induction false} ConnsGrow(cs: seq<Conn>, mtu: nat, own: Transfers, log: seq<Delivery>, own': Transfers,
                                     log': seq<Delivery>, peer: Transfers, peerLog: seq<Delivery>)
    requires mtu > HEADER_SIZE && ConnsOk(cs, mtu, own, log, peer, peerLog) && Extends(own, own') && log <= log'
    ensures ConnsOk(cs, mtu, own', log', peer, peerLog)
  {
    IdsGrow(log, log');
    forall k | 0 <= k < |cs|
      ensures ConnOk(cs[k], mtu, own', log', peer, peerLog)
    {
      assert ConnOk(cs[k], mtu, own, log, peer, peerLog);
    }
  }

  lemma {:induction false} ConnsSet(cs: seq<Conn>, k: nat, c: Conn, mtu: nat, own: Transfers, log: seq<Delivery>,
                                    peer: Transfers, peerLog: seq<Delivery>)
    requires mtu > HEADER_SIZE && ConnsOk(cs, mtu, own, log, peer, peerLog) && k < |cs| && RingsOk(cs)
    requires ConnOk(c, mtu, own, log, peer, peerLog)
    ensures ConnsOk(cs[k := c], mtu, own, log, peer, peerLog) && RingsOk(cs[k := c])
  {
  }

  lemma {:induction false} ConnsAdd(cs: seq<Conn>, c: Conn, mtu: nat, own: Transfers, log: seq<Delivery>,
                                    peer: Transfers, peerLog: seq<Delivery>)
    requires mtu > HEADER_SIZE && ConnsOk(cs, mtu, own, log, peer, peerLog) && RingsOk(cs)
    requires ConnOk(c, mtu, own, log, peer, peerLog)
    ensures ConnsOk(cs + [c], mtu, own, log, peer, peerLog) && RingsOk(cs + [c])
  {
  }

  lemma {:induction false} NewConnOk(mtu: nat, own: Transfers, log: seq<Delivery>, peer: Transfers,
                                     peerLog: seq<Delivery>)
    requires mtu > HEADER_SIZE
    ensures ConnOk(NewConn(), mtu, own, log, peer, peerLog)
  {
    var c := NewConn();
    assert FilterOk(c) && InboxOk(c) && EpochOk(c);
  }

  lemma {:induction false} ConnectKeeps(e: Endpoint, mtu: nat, peer: Transfers, peerLog: seq<Delivery>)
    requires mtu > HEADER_SIZE && EndOk(e, mtu, peer, peerLog)
    ensures EndOk(Connect(e), mtu, peer, peerLog)
  {
    if e.current.None? {
      NewConnOk(mtu, e.transfers, e.log, peer, peerLog);
      ConnsAdd(e.conns, NewConn(), mtu, e.transfers, e.log, peer, peerLog);
    }
  }

  lemma {:induction false} CloseKeeps(e: Endpoint, k: nat, mtu: nat, peer: Transfers, peerLog: seq<Delivery>)
    requires mtu > HEADER_SIZE && EndOk(e, mtu, peer, peerLog) && k < |e.conns|
    ensures EndOk(CloseConn(e, k), mtu, peer, peerLog)
  {
    var c := e.conns[k];
    assert ConnOk(c, mtu, e.transfers, e.log, peer, peerLog);
    ConnsSet(e.conns, k, c.(closed := true), mtu, e.transfers, e.log, peer, peerLog);
  }

  lemma {:induction false} BeginTransfers(own: Transfers, id: U64, t: Transfer, mtu: nat, peerLog: seq<Delivery>)
    requires mtu > HEADER_SIZE && TransfersOk(own, mtu, peerLog) && OrderOk(own, peerLog) && LogOk(peerLog, own)
    requires id !in own && TransferOk(id, t, mtu, peerLog)
    ensures TransfersOk(own[id := t], mtu, peerLog) && OrderOk(own[id := t], peerLog) && Extends(own, own[id := t])
  {
    assert forall d :: d in peerLog ==> d.id != id;
  }

  lemma {:induction false} SucceededDelivered(own: Transfers, mtu: nat, peerLog: seq<Delivery>)
    requires mtu > HEADER_SIZE && TransfersOk(own, mtu, peerLog)
    ensures Succeeded(own) <= Ids(peerLog)
  {
    forall id | id in Succeeded(own)
      ensures id in Ids(peerLog)
    {
      assert TransferOk(id, own[id], mtu, peerLog);
    }
  }

  lemma {:induction false} BeginKeeps(e: Endpoint, k: nat, id: U64, p: Payload, mtu: nat, peer: Transfers,
                                      peerLog: seq<Delivery>)
    requires mtu > HEADER_SIZE && EndOk(e, mtu, peer, peerLog) && LogOk(peerLog, e.transfers)
    requires k < |e.conns| && id != 0 && id !in e.transfers && Sendable(p, mtu)
    ensures EndOk(Begin(e, k, id, p), mtu, peer, peerLog)
    ensures Extends(e.transfers, Begin(e, k, id, p).transfers)
  {
    var e', c := Begin(e, k, id, p), e.conns[k];
    SucceededDelivered(e.transfers, mtu, peerLog);
    BeginTransfers(e.transfers, id, e'.transfers[id], mtu, peerLog);
    ConnsGrow(e.conns, mtu, e.transfers, e.log, e'.transfers, e.log, peer, peerLog);
    PendingSet(c, id, false, mtu, e'.transfers, e.log, peer, peerLog);
    ConnsSet(e.conns, k, e'.conns[k], mtu, e'.transfers, e.log, peer, peerLog);
    ReadingGrows(e, e'.transfers, mtu, peer, peerLog);
  }

  lemma {:induction false} PendingSet(c: Conn, id: U64, signalled: bool, mtu: nat, own: Transfers,
                                      log: seq<Delivery>, peer: Transfers, peerLog: seq<Delivery>)
    requires mtu > HEADER_SIZE && ConnOk(c, mtu, own, log, peer, peerLog) && id in own
    requires signalled && own[id].payload.Message? ==> id in Ids(peerLog)
    ensures ConnOk(c.(pending := c.pending[id := signalled]), mtu, own, log, peer, peerLog)
  {
  }

  lemma {:induction false} PendingDropped(c: Conn, id: U64, mtu: nat, own: Transfers, log: seq<Delivery>,
                                          peer: Transfers, peerLog: seq<Delivery>)
    requires mtu > HEADER_SIZE && ConnOk(c, mtu, own, log, peer, peerLog)
    ensures ConnOk(c.(pending := c.pending - {id}), mtu, own, log, peer, peerLog)
  {
  }

  lemma {:induction false} ReadingGrows(e: Endpoint, own': Transfers, mtu: nat, peer: Transfers, peerLog: seq<Delivery>)
    requires mtu > HEADER_SIZE && Extends(e.transfers, own')
    requires e.reading.Some? ==> Honest(e.reading.value.frame, mtu, peer, peerLog, e.transfers)
    ensures e.reading.Some? ==> Honest(e.reading.value.frame, mtu, peer, peerLog, own')
  {
    if e.reading.Some? {
      HonestGrows(e.reading.value.frame, mtu, peer, peerLog, e.transfers, peer, peerLog, own');
    }
  }

  lemma {:induction false} RestageTransfers(own: Transfers, id: U64, t: Transfer, mtu: nat, peerLog: seq<Delivery>)
    requires mtu > HEADER_SIZE && TransfersOk(own, mtu, peerLog) && OrderOk(own, peerLog)
    requires id in own && SameTransfer(own[id], t) && TransferOk(id, t, mtu, peerLog)
    ensures TransfersOk(own[id := t], mtu, peerLog) && OrderOk(own[id := t], peerLog) && Extends(own, own[id := t])
  {
  }

  lemma {:induction false} EndKeeps(e: Endpoint, id: U64, r: Result, mtu: nat, peer: Transfers, peerLog: seq<Delivery>)
    requires mtu > HEADER_SIZE && EndOk(e, mtu, peer, peerLog) && MayReturn(e, id, r)
    ensures EndOk(End(e, id, r), mtu, peer, peerLog)
    ensures Extends(e.transfers, End(e, id, r).transfers)
  {
    var e', k := End(e, id, r), e.transfers[id].conn;
    var c := e.conns[k];
    ReturnedOk(e, id, r, mtu, peer, peerLog);
    RestageTransfers(e.transfers, id, e'.transfers[id], mtu, peerLog);
    ConnsGrow(e.conns, mtu, e.transfers, e.log, e'.transfers, e.log, peer, peerLog);
    PendingDropped(c, id, mtu, e'.transfers, e.log, peer, peerLog);
    ConnsSet(e.conns, k, e'.conns[k], mtu, e'.transfers, e.log, peer, peerLog);
    ReadingGrows(e, e'.transfers, mtu, peer, peerLog);
  }

  /** A nil return had its signal, so the message was delivered. */
  lemma {:induction false} ReturnedOk(e: Endpoint, id: U64, r: Result, mtu: nat, peer: Transfers,
                                      peerLog: seq<Delivery>)
    requires mtu > HEADER_SIZE && EndOk(e, mtu, peer, peerLog) && MayReturn(e, id, r)
    ensures TransferOk(id, e.transfers[id].(stage := Returned(r)), mtu, peerLog)
  {
    var t := e.transfers[id];
    assert TransferOk(id, t, mtu, peerLog);
    assert PendingOk(e.conns[t.conn].pending, e.transfers, peerLog);
  }

  lemma {:induction false} RestageKeeps(e: Endpoint, id: U64, t: Transfer, mtu: nat, peer: Transfers,
                                        peerLog: seq<Delivery>)
    requires mtu > HEADER_SIZE && EndOk(e, mtu, peer, peerLog) && id in e.transfers
    requires SameTransfer(e.transfers[id], t) && t.conn == e.transfers[id].conn && TransferOk(id, t, mtu, peerLog)
    ensures EndOk(e.(transfers := e.transfers[id := t]), mtu, peer, peerLog)
    ensures Extends(e.transfers, e.transfers[id := t])
  {
    RestageTransfers(e.transfers, id, t, mtu, peerLog);
    ConnsGrow(e.conns, mtu, e.transfers, e.log, e.transfers[id := t], e.log, peer, peerLog);
    ReadingGrows(e, e.transfers[id := t], mtu, peer, peerLog);
  }

  lemma {:induction false} NoteFrameKeeps(e: Endpoint, f: Frame, mtu: nat, peer: Transfers, peerLog: seq<Delivery>)
    requires mtu > HEADER_SIZE && EndOk(e, mtu, peer, peerLog) && e.current.Some?
    requires Honest(f, mtu, peer, peerLog, e.transfers) && !PeerRestarted(e, f.epoch)
    ensures EndOk(NoteFrame(e, f), mtu, peer, peerLog)
  {
    var k := e.current.value;
    var c := NoteFrame(e, f).conns[k];
    assert ConnOk(e.conns[k], mtu, e.transfers, e.log, peer, peerLog);
    assert EpochOk(c);
    ConnsSet(e.conns, k, c, mtu, e.transfers, e.log, peer, peerLog);
  }

  lemma {:induction false} RouteKeeps(e: Endpoint, f: Frame, mtu: nat, peer: Transfers, peerLog: seq<Delivery>)
    requires mtu > HEADER_SIZE && EndOk(e, mtu, peer, peerLog)
    requires Honest(f, mtu, peer, peerLog, e.transfers)
    ensures EndOk(Route(e, f), mtu, peer, peerLog)
    ensures Route(e, f).transfers == e.transfers && Route(e, f).log == e.log
  {
    if PeerRestarted(e, f.epoch) {
      var e1 := CloseConn(e, e.current.value);
      CloseKeeps(e, e.current.value, mtu, peer, peerLog);
      ConnectKeeps(e1, mtu, peer, peerLog);
      NoteFrameKeeps(Connect(e1), f, mtu, peer, peerLog);
    } else {
      ConnectKeeps(e, mtu, peer, peerLog);
      NoteFrameKeeps(Connect(e), f, mtu, peer, peerLog);
    }
  }

  lemma {:induction false} RecvKeeps(e: Endpoint, k: nat, mtu: nat, peer: Transfers, peerLog: seq<Delivery>)
    requires mtu > HEADER_SIZE && EndOk(e, mtu, peer, peerLog)
    requires k < |e.conns| && e.conns[k].rx.inbox != []
    ensures EndOk(Act(e, mtu, Recv(k)).next, mtu, peer, peerLog)
  {
    var c := e.conns[k];
    var c' := c.(rx := c.rx.(inbox := c.rx.inbox[1..]));
    assert ConnOk(c, mtu, e.transfers, e.log, peer, peerLog);
    assert InboxOk(c');
    ConnsSet(e.conns, k, c', mtu, e.transfers, e.log, peer, peerLog);
  }

  lemma {:induction false} RebornTransfers(e: Endpoint, epoch: Byte, mtu: nat, peerLog: seq<Delivery>)
    requires mtu > HEADER_SIZE && TransfersOk(e.transfers, mtu, peerLog) && OrderOk(e.transfers, peerLog)
    requires TransfersWithin(e.transfers, |e.conns|)
    ensures var t := Reborn(e, epoch).transfers;
            && Extends(e.transfers, t) && TransfersOk(t, mtu, peerLog) && OrderOk(t, peerLog)
            && TransfersWithin(t, |e.conns|)
  {
    var t := Reborn(e, epoch).transfers;
    forall id | id in t
      ensures TransferOk(id, t[id], mtu, peerLog)
    {
      assert TransferOk(id, e.transfers[id], mtu, peerLog);
    }
  }

  lemma {:induction false} RebornConns(e: Endpoint, epoch: Byte, mtu: nat, own: Transfers, peer: Transfers,
                                       peerLog: seq<Delivery>)
    requires mtu > HEADER_SIZE && ConnsOk(e.conns, mtu, own, e.log, peer, peerLog) && RingsOk(e.conns)
    ensures var cs := Reborn(e, epoch).conns; ConnsOk(cs, mtu, own, e.log, peer, peerLog) && RingsOk(cs)
  {
    var cs := Reborn(e, epoch).conns;
    forall k | 0 <= k < |cs|
      ensures ConnOk(cs[k], mtu, own, e.log, peer, peerLog)
    {
      assert ConnOk(e.conns[k], mtu, own, e.log, peer, peerLog);
    }
  }

  lemma {:induction false} RebornKeeps(e: Endpoint, epoch: Byte, mtu: nat, peer: Transfers, peerLog: seq<Delivery>)
    requires mtu > HEADER_SIZE && EndOk(e, mtu, peer, peerLog)
    ensures EndOk(Reborn(e, epoch), mtu, peer, peerLog)
    ensures Extends(e.transfers, Reborn(e, epoch).transfers)
  {
    var e' := Reborn(e, epoch);
    RebornTransfers(e, epoch, mtu, peerLog);
    ConnsGrow(e.conns, mtu, e.transfers, e.log, e'.transfers, e.log, peer, peerLog);
    RebornConns(e, epoch, mtu, e'.transfers, peer, peerLog);
  }

  ghost predicate EntryOk(id: U64, p: Partial, mtu: nat, peer: Transfers)
    requires mtu > HEADER_SIZE
  {
    id in peer && peer[id].payload.Message? && PartialOf(p, peer[id].payload.msg, mtu - HEADER_SIZE)
  }

  lemma {:induction false} DropKeeps(t: Table, id: U64, mtu: nat, peer: Transfers)
    requires mtu > HEADER_SIZE && TableOk(t, mtu, peer)
    ensures TableOk(t - {id}, mtu, peer)
  {
    MapLeSize(t - {id}, t);
  }

  lemma {:induction false} PutKeeps(t: Table, id: U64, p: Partial, mtu: nat, peer: Transfers)
    requires mtu > HEADER_SIZE && TableOk(t, mtu, peer) && (id in t || |t| < MAX_REASSEMBLIES)
    requires EntryOk(id, p, mtu, peer)
    ensures TableOk(t[id := p], mtu, peer)
  {
    if id in t {
      assert t[id := p].Keys == t.Keys;
      assert |t[id := p]| == |t.Keys|;
    }
  }

  lemma {:induction false} CollectedOk(t: Table, now: int, kept: Table, mtu: nat, peer: Transfers)
    requires mtu > HEADER_SIZE && TableOk(t, mtu, peer) && Collected(t, now, kept)
    ensures TableOk(kept, mtu, peer) && |kept| < MAX_REASSEMBLIES
  {
    CollectedLeavesRoom(t, now, kept);
  }

  lemma {:induction false} FreshEntryKeeps(t: Table, kept: Table, f: Frame, now: int, mtu: nat, peer: Transfers)
    requires mtu > HEADER_SIZE && TableOk(t, mtu, peer) && f.kind == DATA && Honest(f, mtu, peer, [], map[])
    requires Collected(t, now, kept)
    ensures TableOk(kept[f.id := Partial(NoFragments(f.count), 0, now)], mtu, peer)
  {
    CollectedOk(t, now, kept, mtu, peer);
    FreshPartialOf(peer[f.id].payload.msg, mtu - HEADER_SIZE, now);
    PutKeeps(kept, f.id, Partial(NoFragments(f.count), 0, now), mtu, peer);
  }

  lemma {:induction false} RecordEntryKeeps(t: Table, f: Frame, mtu: nat, peer: Transfers)
    requires mtu > HEADER_SIZE && TableOk(t, mtu, peer) && f.kind == DATA && Honest(f, mtu, peer, [], map[])
    requires f.id in t
    ensures |t[f.id].frags| == f.count
    ensures var p := Record(t[f.id], f.index, f.body);
            && TableOk(t[f.id := p], mtu, peer)
            && (p.have >= |p.frags| ==> Concat(p.frags) == peer[f.id].payload.msg)
  {
    assert EntryOk(f.id, t[f.id], mtu, peer);
    RecordKeeps(t[f.id], peer[f.id].payload.msg, mtu - HEADER_SIZE, f.index);
    PutKeeps(t, f.id, Record(t[f.id], f.index, f.body), mtu, peer);
  }

  /** Reassembling an honest fragment keeps the table true and yields only the message sent. */
  lemma {:induction false} ReassembleKeeps(t: Table, kept: Table, f: Frame, now: int, mtu: nat, peer: Transfers)
    requires mtu > HEADER_SIZE && TableOk(t, mtu, peer)
    requires f.kind == DATA && Honest(f, mtu, peer, [], map[])
    requires f.id !in t ==> Collected(t, now, kept)
    ensures var r := Reassemble(t, kept, f.id, f.index, f.count, f.body, now);
            && TableOk(r.table, mtu, peer)
            && (r.msg.Some? ==> r.msg.value == peer[f.id].payload.msg)
  {
    if f.id in t {
      RecordEntryKeeps(t, f, mtu, peer);
    } else {
      FreshEntryKeeps(t, kept, f, now, mtu, peer);
      RecordEntryKeeps(kept[f.id := Partial(NoFragments(f.count), 0, now)], f, mtu, peer);
    }
  }

  /** What a fragment does to the receiver: nothing is put into the inbox, or the message is. */
  ghost predicate TookFragment(rx: Receiver, h: Handled, id: U64, msg: seq<Byte>)
    requires rx.seen.next < |rx.seen.order|
  {
    if h.delivered.None? then h.next.seen == rx.seen && h.next.inbox == rx.inbox
    else
      && h.ack && !Has(rx.seen, id) && h.delivered.value == msg
      && h.next.seen == Add(rx.seen, id) && h.next.inbox == rx.inbox + [msg]
  }

  /** A wanted fragment, in terms of what reassembling it gives. */
  lemma {:induction false} WantedTakes(rx: Receiver, kept: Table, f: Frame, now: int, msg: seq<Byte>)
    requires rx.seen.next < |rx.seen.order| && Wanted(rx, f.id, f.index, f.count)
    requires var a := Reassemble(rx.reasm, kept, f.id, f.index, f.count, f.body, now);
             a.msg.Some? ==> a.msg.value == msg
    ensures var a := Reassemble(rx.reasm, kept, f.id, f.index, f.count, f.body, now);
            var h := HandleData(rx, kept, f.id, f.index, f.count, f.body, now);
            && TookFragment(rx, h, f.id, msg) && (h.delivered.None? ==> !h.ack)
            && (h.next.reasm == a.table || h.next.reasm == a.table - {f.id})
  {
  }

  /** The receiver after one honest fragment; delivered, if any, is the message sent. */
  lemma {:induction false} ReceiverKeeps(c: Conn, kept: Table, f: Frame, now: int, mtu: nat, peer: Transfers)
    requires mtu > HEADER_SIZE && TableOk(c.rx.reasm, mtu, peer) && FilterOk(c)
    requires f.kind == DATA && Honest(f, mtu, peer, [], map[]) && f.id != 0
    requires Wanted(c.rx, f.id, f.index, f.count) && f.id !in c.rx.reasm ==> Collected(c.rx.reasm, now, kept)
    ensures var h := HandleData(c.rx, kept, f.id, f.index, f.count, f.body, now);
            && TableOk(h.next.reasm, mtu, peer) && TookFragment(c.rx, h, f.id, peer[f.id].payload.msg)
            && (h.delivered.None? && h.ack ==> f.id in IdSeq(c.history))
  {
    if Wanted(c.rx, f.id, f.index, f.count) {
      ReassembleKeeps(c.rx.reasm, kept, f, now, mtu, peer);
      DropKeeps(Reassemble(c.rx.reasm, kept, f.id, f.index, f.count, f.body, now).table, f.id, mtu, peer);
      WantedTakes(c.rx, kept, f, now, peer[f.id].payload.msg);
    } else if Has(c.rx.seen, f.id) {
      HasIffRecent(c.rx.seen, IdSeq(c.history), f.id);
    }
  }

  lemma {:induction false} DeliveryFilter(c: Conn, rx: Receiver, d: Delivery)
    requires FilterOk(c) && d.id != 0 && !Has(c.rx.seen, d.id) && rx.seen == Add(c.rx.seen, d.id)
    ensures FilterOk(c.(rx := rx, history := c.history + [d]))
  {
    AddRemembers(c.rx.seen, IdSeq(c.history), d.id);
    DistinctExtends(c.rx.seen, IdSeq(c.history), d.id);
    assert IdSeq(c.history + [d]) == IdSeq(c.history) + [d.id];
  }

  lemma {:induction false} DeliveryInbox(c: Conn, rx: Receiver, d: Delivery)
    requires InboxOk(c) && rx.inbox == c.rx.inbox + [d.msg]
    ensures InboxOk(c.(rx := rx, history := c.history + [d]))
  {
    assert Msgs(c.history + [d]) == Msgs(c.history) + [d.msg];
  }

  lemma {:induction false} ReplaceConnKeeps(e: Endpoint, k: nat, c: Conn, log: seq<Delivery>, mtu: nat,
                                            peer: Transfers, peerLog: seq<Delivery>)
    requires mtu > HEADER_SIZE && EndOk(e, mtu, peer, peerLog) && k < |e.conns|
    requires e.log <= log && LogOk(log, peer) && ConnOk(c, mtu, e.transfers, log, peer, peerLog)
    ensures EndOk(e.(reading := None, conns := e.conns[k := c], log := log), mtu, peer, peerLog)
  {
    ConnsGrow(e.conns, mtu, e.transfers, e.log, e.transfers, log, peer, peerLog);
    ConnsSet(e.conns, k, c, mtu, e.transfers, log, peer, peerLog);
  }

  /** The connection that took a fragment, and its endpoint's log, when the fragment completed a message. */
  lemma {:induction false} DeliverKeeps(e: Endpoint, k: nat, rx: Receiver, d: Delivery, mtu: nat, peer: Transfers,
                                        peerLog: seq<Delivery>)
    requires mtu > HEADER_SIZE && EndOk(e, mtu, peer, peerLog) && k < |e.conns|
    requires d.id != 0 && !Has(e.conns[k].rx.seen, d.id) && d.id in peer && peer[d.id].payload == Message(d.msg)
    requires TableOk(rx.reasm, mtu, peer)
    requires rx.seen == Add(e.conns[k].rx.seen, d.id) && rx.inbox == e.conns[k].rx.inbox + [d.msg]
    ensures var c := e.conns[k].(rx := rx, history := e.conns[k].history + [d]);
            EndOk(e.(reading := None, conns := e.conns[k := c], log := e.log + [d]), mtu, peer, peerLog)
  {
    var c := e.conns[k];
    assert ConnOk(c, mtu, e.transfers, e.log, peer, peerLog);
    DeliveryFilter(c, rx, d);
    DeliveryInbox(c, rx, d);
    IdsGrow(e.log, e.log + [d]);
    ReplaceConnKeeps(e, k, c.(rx := rx, history := c.history + [d]), e.log + [d], mtu, peer, peerLog);
  }

  lemma {:induction false} HistoryLogged(c: Conn, log: seq<Delivery>, id: U64)
    requires id in IdSeq(c.history) && forall d :: d in c.history ==> d in log
    ensures id in Ids(log)
  {
    var i :| 0 <= i < |c.history| && IdSeq(c.history)[i] == id;
    assert c.history[i] in log;
  }

  /** What handling a fragment makes of the endpoint. */
  lemma {:induction false} DataFrameIs(e: Endpoint, now: int, kept: Table, h: Handled)
    requires Bounds(e) && e.reading.Some? && e.reading.value.frame.kind == DATA
    requires var Reading(k, f) := e.reading.value;
             h == HandleData(e.conns[k].rx, kept, f.id, f.index, f.count, f.body, now)
    ensures var Reading(k, f) := e.reading.value;
            var put := if h.delivered.Some? then [Delivery(k, f.id, h.delivered.value)] else [];
            var c := e.conns[k].(rx := h.next, history := e.conns[k].history + put);
            HandleFrame(e, now, kept) ==
            Acted(e.(reading := None, conns := e.conns[k := c], log := e.log + put),
                  if h.ack then Some(Frame(ACK, f.id, 0, 1, e.epoch, [])) else None)
  {
  }

  /** A fragment that completes a message. */
  lemma {:induction false} DeliveringKeeps(e: Endpoint, now: int, kept: Table, mtu: nat, peer: Transfers,
                                           peerLog: seq<Delivery>, h: Handled)
    requires mtu > HEADER_SIZE && EndOk(e, mtu, peer, peerLog) && e.reading.Some? && e.reading.value.frame.kind == DATA
    requires var Reading(k, f) := e.reading.value;
             && h == HandleData(e.conns[k].rx, kept, f.id, f.index, f.count, f.body, now) && f.id != 0
             && TableOk(h.next.reasm, mtu, peer) && h.delivered.Some? && f.id in peer && peer[f.id].payload.Message?
             && TookFragment(e.conns[k].rx, h, f.id, peer[f.id].payload.msg)
    ensures Kept(e, HandleFrame(e, now, kept), mtu, peer, peerLog)
  {
    var Reading(k, f) := e.reading.value;
    var d := Delivery(k, f.id, h.delivered.value);
    DeliverKeeps(e, k, h.next, d, mtu, peer, peerLog);
    IdsAppend(e.log, d);
    DataFrameIs(e, now, kept, h);
  }

  /** A fragment that does not; an ack then names a message delivered before. */
  lemma {:induction false} CollectingKeeps(e: Endpoint, now: int, kept: Table, mtu: nat, peer: Transfers,
                                           peerLog: seq<Delivery>, h: Handled)
    requires mtu > HEADER_SIZE && EndOk(e, mtu, peer, peerLog) && e.reading.Some? && e.reading.value.frame.kind == DATA
    requires var Reading(k, f) := e.reading.value;
             var c := e.conns[k];
             && h == HandleData(c.rx, kept, f.id, f.index, f.count, f.body, now) && h.delivered.None?
             && TableOk(h.next.reasm, mtu, peer) && h.next.seen == c.rx.seen && h.next.inbox == c.rx.inbox
             && (h.ack ==> f.id in IdSeq(c.history))
    ensures Kept(e, HandleFrame(e, now, kept), mtu, peer, peerLog)
  {
    var Reading(k, f) := e.reading.value;
    var c := e.conns[k];
    assert ConnOk(c, mtu, e.transfers, e.log, peer, peerLog);
    ReplaceConnKeeps(e, k, c.(rx := h.next), e.log, mtu, peer, peerLog);
    if h.ack {
      HistoryLogged(c, e.log, f.id);
    }
    DataFrameIs(e, now, kept, h);
    assert c.history + [] == c.history && e.log + [] == e.log;
  }

  lemma {:induction false} DataKeeps(e: Endpoint, now: int, kept: Table, mtu: nat, peer: Transfers,
                                     peerLog: seq<Delivery>)
    requires mtu > HEADER_SIZE && EndOk(e, mtu, peer, peerLog)
    requires forall id :: id in peer ==> id != 0
    requires e.reading.Some? && e.reading.value.frame.kind == DATA
    requires var Reading(k, f) := e.reading.value;
             var rx := e.conns[k].rx;
             Wanted(rx, f.id, f.index, f.count) && f.id !in rx.reasm ==> Collected(rx.reasm, now, kept)
    ensures Kept(e, HandleFrame(e, now, kept), mtu, peer, peerLog)
  {
    var Reading(k, f) := e.reading.value;
    var c := e.conns[k];
    assert ConnOk(c, mtu, e.transfers, e.log, peer, peerLog);
    var h := HandleData(c.rx, kept, f.id, f.index, f.count, f.body, now);
    ReceiverKeeps(c, kept, f, now, mtu, peer);
    if h.delivered.Some? {
      DeliveringKeeps(e, now, kept, mtu, peer, peerLog, h);
    } else {
      CollectingKeeps(e, now, kept, mtu, peer, peerLog, h);
    }
  }

  lemma {:induction false} SignalKeeps(e: Endpoint, now: int, kept: Table, mtu: nat, peer: Transfers,
                                       peerLog: seq<Delivery>)
    requires mtu > HEADER_SIZE && EndOk(e, mtu, peer, peerLog)
    requires e.reading.Some? && e.reading.value.frame.kind != DATA
    ensures Kept(e, HandleFrame(e, now, kept), mtu, peer, peerLog)
  {
    var Reading(k, f) := e.reading.value;
    var c := e.conns[k];
    assert ConnOk(c, mtu, e.transfers, e.log, peer, peerLog);
    if f.kind == PING {
      ReplaceConnKeeps(e, k, c, e.log, mtu, peer, peerLog);
    } else {
      var c' := if f.id in c.pending then c.(pending := c.pending[f.id := true]) else c;
      ReplaceConnKeeps(e, k, c', e.log, mtu, peer, peerLog);
    }
    assert e.conns[k := c] == e.conns;
  }

  lemma {:induction false} WriteKeeps(e: Endpoint, id: U64, mtu: nat, peer: Transfers, peerLog: seq<Delivery>)
    requires mtu > HEADER_SIZE && EndOk(e, mtu, peer, peerLog) && Enabled(e, mtu, Write(id))
    ensures Kept(e, Act(e, mtu, Write(id)), mtu, peer, peerLog)
  {
    var r, t := Act(e, mtu, Write(id)), e.transfers[id];
    RestageKeeps(e, id, r.next.transfers[id], mtu, peer, peerLog);
  }

  lemma {:induction false} ActKeeps(e: Endpoint, mtu: nat, a: Action, peer: Transfers, peerLog: seq<Delivery>)
    requires mtu > HEADER_SIZE && EndOk(e, mtu, peer, peerLog) && LogOk(peerLog, e.transfers)
    requires forall id :: id in peer ==> id != 0
    requires Enabled(e, mtu, a)
    requires a.Demux? && Parse(a.datagram).Some? ==> Honest(Parse(a.datagram).value, mtu, peer, peerLog, e.transfers)
    ensures Kept(e, Act(e, mtu, a), mtu, peer, peerLog)
  {
    match a
    case StartSend(k, id, msg) => BeginKeeps(e, k, id, Message(msg), mtu, peer, peerLog);
    case Dial(id) =>
      ConnectKeeps(e, mtu, peer, peerLog);
      BeginKeeps(Connect(e), Connect(e).current.value, id, Probe, mtu, peer, peerLog);
    case Write(id) => WriteKeeps(e, id, mtu, peer, peerLog);
    case Timer(id) => RestageKeeps(e, id, Act(e, mtu, a).next.transfers[id], mtu, peer, peerLog);
    case Return(id, r) => EndKeeps(e, id, r, mtu, peer, peerLog);
    case Demux(d) =>
      if Parse(d).Some? {
        RouteKeeps(e, Parse(d).value, mtu, peer, peerLog);
      }
    case Handle(now, kept) =>
      if e.reading.value.frame.kind == DATA {
        DataKeeps(e, now, kept, mtu, peer, peerLog);
      } else {
        SignalKeeps(e, now, kept, mtu, peer, peerLog);
      }
    case Recv(k) => RecvKeeps(e, k, mtu, peer, peerLog);
    case Close(k) => CloseKeeps(e, k, mtu, peer, peerLog);
    case Restart(epoch) => RebornKeeps(e, epoch, mtu, peer, peerLog);
  }
}
