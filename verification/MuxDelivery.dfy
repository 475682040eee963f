/**
 Runs that can be made to happen: from any reachable state in which the read loops are idle, a
 message can be written, delivered and acknowledged.
 */
module MuxDelivery {
  import opened Bytes
  import opened MuxFrame
  import opened Dedupe
  import opened MuxConn
  import opened Mux
  import opened MuxRun
  import opened MuxOrder

  ghost predicate Continues(states: seq<System>, steps: seq<Step>, states': seq<System>, steps': seq<Step>) {
    states <= states' && steps <= steps'
  }

  lemma {:induction false} RunBounds(states: seq<System>, steps: seq<Step>, s: System, side: Side)
    requires Reaches(states, steps, s)
    ensures s.mtu > HEADER_SIZE && Bounds(At(s, side))
    ensures TransfersOk(At(s, side).transfers, s.mtu, At(s, Other(side)).log)
  {
    RunKeeps(states, steps, |steps|);
    assert SideOk(s, side);
  }

  // ----- writing a message

  function Restaged(e: Endpoint, id: U64, stage: Stage): Endpoint
    requires id in e.transfers
  {
    e.(transfers := e.transfers[id := e.transfers[id].(stage := stage)])
  }

  function StageAfter(p: Payload, mtu: nat, i: nat): Stage
    requires mtu > HEADER_SIZE
  {
    if i < FrameCount(p, mtu) then Writing(i) else Awaiting
  }

  lemma {:induction false} WriteActs(e: Endpoint, mtu: nat, id: U64, i: nat)
    requires mtu > HEADER_SIZE && Bounds(e) && id in e.transfers && Sendable(e.transfers[id].payload, mtu)
    requires i < FrameCount(e.transfers[id].payload, mtu) && e.transfers[id].stage == Writing(i)
    ensures Enabled(e, mtu, Write(id))
    ensures var p := e.transfers[id].payload;
            Act(e, mtu, Write(id)) ==
            Acted(Restaged(e, id, StageAfter(p, mtu, i + 1)), Some(FrameOf(p, mtu, id, e.epoch, i)))
  {
  }

  /** The first i frames of the transfer are on the wire and it is about to write the next. */
  ghost predicate Writes(s: System, side: Side, id: U64, p: Payload, i: nat) {
    var e := At(s, side);
    && s.mtu > HEADER_SIZE && Bounds(e) && id in e.transfers && e.transfers[id].payload == p
    && Sendable(p, s.mtu) && i <= FrameCount(p, s.mtu) && e.transfers[id].stage == StageAfter(p, s.mtu, i)
    && OnWire(s, side, id, p, e.epoch, 0, i)
  }

  /** Only the stage of this transfer is another; the network may hold more. */
  ghost predicate Beside(s: System, s': System, side: Side, id: U64) {
    && s'.mtu == s.mtu && s.net <= s'.net && At(s', Other(side)) == At(s, Other(side))
    && id in At(s, side).transfers && id in At(s', side).transfers
    && At(s', side) == Restaged(At(s, side), id, At(s', side).transfers[id].stage)
  }

  lemma {:induction false} RestagedTwice(e: Endpoint, id: U64, a: Stage, b: Stage)
    requires id in e.transfers
    ensures Restaged(Restaged(e, id, a), id, b) == Restaged(e, id, b)
    ensures Bounds(e) ==> Bounds(Restaged(e, id, a))
  {
  }

  lemma {:induction false} BesideAgain(s: System, s1: System, s2: System, side: Side, id: U64)
    requires Beside(s, s1, side, id) && Beside(s1, s2, side, id)
    ensures Beside(s, s2, side, id)
  {
    RestagedTwice(At(s, side), id, At(s1, side).transfers[id].stage, At(s2, side).transfers[id].stage);
  }

  lemma {:induction false} WriteOne(s: System, side: Side, id: U64, p: Payload, i: nat)
    requires Writes(s, side, id, p, i) && i < FrameCount(p, s.mtu)
    ensures CanStep(s, Step(side, Write(id)))
    ensures var s' := Next(s, Step(side, Write(id))); Writes(s', side, id, p, i + 1) && Beside(s, s', side, id)
  {
    var e := At(s, side);
    WriteActs(e, s.mtu, id, i);
    var e', f := Restaged(e, id, StageAfter(p, s.mtu, i + 1)), FrameOf(p, s.mtu, id, e.epoch, i);
    RestagedTwice(e, id, StageAfter(p, s.mtu, i + 1), Awaiting);
    Acts(s, side, Write(id), Acted(e', Some(f)));
  }

  /** A transfer that is being written can be written out. */
  lemma {:induction false} WrittenOut(states: seq<System>, steps: seq<Step>, s: System, side: Side, id: U64,
                                      p: Payload, i: nat)
    returns (states': seq<System>, steps': seq<Step>, s': System)
    requires Reaches(states, steps, s) && Writes(s, side, id, p, i)
    ensures Reaches(states', steps', s') && Continues(states, steps, states', steps')
    ensures s.mtu == s'.mtu > HEADER_SIZE && Beside(s, s', side, id) && Writes(s', side, id, p, FrameCount(p, s.mtu))
    decreases FrameCount(p, s.mtu) - i
  {
    states', steps', s' := states, steps, s;
    if i < FrameCount(p, s.mtu) {
      WriteOne(s, side, id, p, i);
      states', steps', s' := Extend(states, steps, s, Step(side, Write(id)));
      var s1 := s';
      states', steps', s' := WrittenOut(states', steps', s1, side, id, p, i + 1);
      BesideAgain(s, s1, s', side, id);
    } else {
      assert Restaged(At(s, side), id, At(s, side).transfers[id].stage) == At(s, side);
    }
  }

  function AfterSend(e: Endpoint, c: nat, id: U64, msg: seq<Byte>): Endpoint
    requires c < |e.conns|
  {
    Restaged(Begin(e, c, id, Message(msg)), id, Awaiting)
  }

  lemma {:induction false} BeginBounds(e: Endpoint, c: nat, id: U64, p: Payload)
    requires Bounds(e) && c < |e.conns|
    ensures Bounds(Begin(e, c, id, p))
  {
  }

  lemma {:induction false} StartActs(s: System, side: Side, c: nat, id: U64, msg: seq<Byte>)
    requires s.mtu > HEADER_SIZE && Bounds(At(s, side)) && c < |At(s, side).conns|
    requires id != 0 && id !in At(s, side).transfers && Sendable(Message(msg), s.mtu)
    ensures CanStep(s, Step(side, StartSend(c, id, msg)))
    ensures var s' := Next(s, Step(side, StartSend(c, id, msg)));
            s' == Put(s, side, Begin(At(s, side), c, id, Message(msg))) && Writes(s', side, id, Message(msg), 0)
  {
    var e := At(s, side);
    BeginBounds(e, c, id, Message(msg));
    Acts(s, side, StartSend(c, id, msg), Acted(Begin(e, c, id, Message(msg)), None));
  }

  /** A Send can be started and written out. */
  lemma {:induction false} Sent(states: seq<System>, steps: seq<Step>, s: System, side: Side, c: nat, id: U64,
                                msg: seq<Byte>)
    returns (states': seq<System>, steps': seq<Step>, s': System)
    requires Reaches(states, steps, s) && s.mtu > HEADER_SIZE && Bounds(At(s, side)) && c < |At(s, side).conns|
    requires id != 0 && id !in At(s, side).transfers && Sendable(Message(msg), s.mtu)
    ensures Reaches(states', steps', s') && Continues(states, steps, states', steps')
    ensures s.mtu == s'.mtu && s.net <= s'.net && At(s', Other(side)) == At(s, Other(side))
    ensures At(s', side) == AfterSend(At(s, side), c, id, msg)
    ensures OnWire(s', side, id, Message(msg), At(s, side).epoch, 0, FrameCount(Message(msg), s.mtu))
  {
    StartActs(s, side, c, id, msg);
    states', steps', s' := Extend(states, steps, s, Step(side, StartSend(c, id, msg)));
    states', steps', s' := WrittenOut(states', steps', s', side, id, Message(msg), 0);
  }

  // ----- reading one frame

  /** The connection a frame of this epoch is routed to. */
  function Target(e: Endpoint, epoch: Byte): nat {
    if e.current.Some? && !PeerRestarted(e, epoch) then e.current.value else |e.conns|
  }

  function ConnAt(e: Endpoint, k: nat): Conn {
    if k < |e.conns| then e.conns[k] else NewConn()
  }

  function NotedEpoch(c: Conn, epoch: Byte): Byte {
    if c.remoteEpoch == 0 then epoch else c.remoteEpoch
  }

  /** The read loop holds f for connection k; nothing else of that connection but its epoch is another. */
  ghost predicate Held(e: Endpoint, e': Endpoint, k: nat, f: Frame) {
    var c := ConnAt(e, k);
    && Bounds(e') && e'.reading == Some(Reading(k, f)) && e'.current == Some(k) && e'.epoch == e.epoch
    && k < |e'.conns| && |e'.conns| == (if k < |e.conns| then |e.conns| else k + 1)
    && e'.transfers == e.transfers && e'.conns[k].history == c.history && e'.conns[k].pending == c.pending
    && e'.conns[k].remoteEpoch == NotedEpoch(c, f.epoch)
  }

  /** Connecting makes the current connection, with the state it had or that of a new one. */
  lemma {:induction false} ConnectGives(e: Endpoint, k: nat, c: Conn)
    requires Bounds(e) && k == (if e.current.Some? then e.current.value else |e.conns|)
    requires c == ConnAt(e, k) && c.rx.seen.next < |c.rx.seen.order|
    ensures var e' := Connect(e);
            && Bounds(e') && e'.current == Some(k) && k < |e'.conns| && e'.conns[k] == c && e'.epoch == e.epoch
            && |e'.conns| == (if k < |e.conns| then |e.conns| else k + 1) && e'.transfers == e.transfers
  {
  }

  lemma {:induction false} NoteHolds(e: Endpoint, k: nat, f: Frame)
    requires Bounds(e) && e.current == Some(k)
    ensures Held(e, NoteFrame(e, f), k, f) && NoteFrame(e, f).conns[k].rx == e.conns[k].rx
  {
  }

  lemma {:induction false} ConnAtRing(e: Endpoint, k: nat)
    requires Bounds(e)
    ensures var r := ConnAt(e, k).rx.seen; r.next < |r.order|
  {
  }

  lemma {:induction false} RouteHolds(e: Endpoint, f: Frame)
    requires Bounds(e)
    ensures var k := Target(e, f.epoch);
            Held(e, Route(e, f), k, f) && Route(e, f).conns[k].rx == ConnAt(e, k).rx
  {
    var k := Target(e, f.epoch);
    var e1 := if PeerRestarted(e, f.epoch) then CloseConn(e, e.current.value) else e;
    assert Bounds(e1) && ConnAt(e1, k) == ConnAt(e, k) && |e1.conns| == |e.conns|;
    ConnAtRing(e1, k);
    ConnectGives(e1, k, ConnAt(e1, k));
    NoteHolds(Connect(e1), k, f);
  }

  lemma {:induction false} DemuxStep(s: System, side: Side, f: Frame)
    requires s.mtu > HEADER_SIZE && Bounds(At(s, side)) && At(s, side).reading.None?
    requires Packet(Other(side), Serialize(f)) in s.net
    ensures var st := Step(side, Demux(Serialize(f)));
            CanStep(s, st) && Next(s, st) == Put(s, side, Route(At(s, side), f))
  {
    ParseSerialize(f);
    Acts(s, side, Demux(Serialize(f)), Acted(Route(At(s, side), f), None));
  }

  // ----- making room

  function WithInbox(e: Endpoint, k: nat, inbox: seq<seq<Byte>>): Endpoint
    requires k < |e.conns|
  {
    e.(conns := e.conns[k := e.conns[k].(rx := e.conns[k].rx.(inbox := inbox))])
  }

  lemma {:induction false} RecvActs(s: System, r: Side, k: nat)
    requires s.mtu > HEADER_SIZE && Bounds(At(s, r)) && k < |At(s, r).conns| && At(s, r).conns[k].rx.inbox != []
    ensures var st, inbox := Step(r, Recv(k)), At(s, r).conns[k].rx.inbox[1..];
            CanStep(s, st) && Next(s, st) == Put(s, r, WithInbox(At(s, r), k, inbox)) &&
            Bounds(WithInbox(At(s, r), k, inbox))
  {
    Acts(s, r, Recv(k), Acted(WithInbox(At(s, r), k, At(s, r).conns[k].rx.inbox[1..]), None));
  }

  /** The application reads until the inbox has room. */
  lemma {:induction false} Drain(states: seq<System>, steps: seq<Step>, s: System, r: Side, k: nat)
    returns (states': seq<System>, steps': seq<Step>, s': System, inbox: seq<seq<Byte>>)
    requires Reaches(states, steps, s) && s.mtu > HEADER_SIZE && Bounds(At(s, r)) && k < |At(s, r).conns|
    ensures Reaches(states', steps', s') && Continues(states, steps, states', steps')
    ensures |inbox| < INBOX_SIZE && s' == Put(s, r, WithInbox(At(s, r), k, inbox)) && Bounds(At(s', r))
    decreases |At(s, r).conns[k].rx.inbox|
  {
    inbox := At(s, r).conns[k].rx.inbox;
    if |inbox| < INBOX_SIZE {
      states', steps', s' := states, steps, s;
      assert At(s, r).conns[k := At(s, r).conns[k]] == At(s, r).conns;
    } else {
      RecvActs(s, r, k);
      states', steps', s' := Extend(states, steps, s, Step(r, Recv(k)));
      states', steps', s', inbox := Drain(states', steps', s', r, k);
    }
  }

  // ----- taking in one fragment

  /** The receiver's connection k has taken in f with outcome h and the read loop is idle. */
  ghost predicate Fed(e: Endpoint, e': Endpoint, k: nat, f: Frame, h: Handled) {
    var c := ConnAt(e, k);
    var put := if h.delivered.Some? then [Delivery(k, f.id, h.delivered.value)] else [];
    && Bounds(e') && e'.reading.None? && e'.current == Some(k) && e'.epoch == e.epoch && e'.transfers == e.transfers
    && k < |e'.conns| && |e'.conns| == (if k < |e.conns| then |e.conns| else k + 1)
    && e'.conns[k].rx == h.next && e'.conns[k].history == c.history + put
    && e'.conns[k].remoteEpoch == NotedEpoch(c, f.epoch)
  }

  lemma {:induction false} HandleFeeds(e: Endpoint, e1: Endpoint, k: nat, f: Frame, kept: Table, h: Handled)
    requires Held(e, e1, k, f) && f.kind == DATA
    requires h == HandleData(e1.conns[k].rx, kept, f.id, f.index, f.count, f.body, 0)
    requires h.next.seen.next < |h.next.seen.order|
    ensures Fed(e, HandleFrame(e1, 0, kept).next, k, f, h)
    ensures h.ack ==> HandleFrame(e1, 0, kept).written == Some(Frame(ACK, f.id, 0, 1, e.epoch, []))
    ensures !h.ack ==> HandleFrame(e1, 0, kept).written == None
  {
    DataFrameIs(e1, 0, kept, h);
  }

  lemma {:induction false} RingStays(r: Receiver, kept: Table, id: U64, index: nat, count: nat, body: seq<Byte>,
                                     now: int)
    requires r.seen.next < |r.seen.order|
    ensures var n := HandleData(r, kept, id, index, count, body, now).next.seen; n.next < |n.order|
  {
  }

  lemma {:induction false} HandleStep(s: System, e: Endpoint, r: Side, k: nat, f: Frame, kept: Table, h: Handled)
    requires s.mtu > HEADER_SIZE && Held(e, At(s, r), k, f) && f.kind == DATA
    requires h == HandleData(At(s, r).conns[k].rx, kept, f.id, f.index, f.count, f.body, 0)
    requires Collected(At(s, r).conns[k].rx.reasm, 0, kept)
    ensures var st := Step(r, Handle(0, kept));
            CanStep(s, st) &&
            var s' := Next(s, st);
            && s'.mtu == s.mtu && s.net <= s'.net && At(s', Other(r)) == At(s, Other(r)) && Fed(e, At(s', r), k, f, h)
            && (h.ack ==> Packet(r, Serialize(Frame(ACK, f.id, 0, 1, e.epoch, []))) in s'.net)
  {
    RingStays(At(s, r).conns[k].rx, kept, f.id, f.index, f.count, f.body, 0);
    HandleFeeds(e, At(s, r), k, f, kept, h);
    Acts(s, r, Handle(0, kept), HandleFrame(At(s, r), 0, kept));
  }

  /** A fragment on the wire can be read, with room in the inbox, and taken in. */
  lemma {:induction false} FeedOne(states: seq<System>, steps: seq<Step>, s: System, side: Side, f: Frame)
    returns (states': seq<System>, steps': seq<Step>, s': System, rx: Receiver, kept: Table, h: Handled)
    requires Reaches(states, steps, s) && s.mtu > HEADER_SIZE && f.kind == DATA
    requires Bounds(At(s, Other(side))) && At(s, Other(side)).reading.None? && Packet(side, Serialize(f)) in s.net
    ensures Reaches(states', steps', s') && Continues(states, steps, states', steps')
    ensures s'.mtu == s.mtu && s.net <= s'.net && At(s', side) == At(s, side)
    ensures var e := At(s, Other(side));
            var k := Target(e, f.epoch);
            && rx == ConnAt(e, k).rx.(inbox := rx.inbox) && |rx.inbox| < INBOX_SIZE && rx.seen.next < |rx.seen.order|
            && h == HandleData(rx, kept, f.id, f.index, f.count, f.body, 0) && Fed(e, At(s', Other(side)), k, f, h)
            && (h.ack ==> Packet(Other(side), Serialize(Frame(ACK, f.id, 0, 1, e.epoch, []))) in s'.net)
  {
    var r := Other(side);
    var e := At(s, r);
    var k := Target(e, f.epoch);
    RouteHolds(e, f);
    DemuxStep(s, r, f);
    states', steps', s' := Extend(states, steps, s, Step(r, Demux(Serialize(f))));
    var inbox;
    states', steps', s', inbox := Drain(states', steps', s', r, k);
    rx := At(s', r).conns[k].rx;
    kept := CanCollect(rx.reasm, 0);
    h := HandleData(rx, kept, f.id, f.index, f.count, f.body, 0);
    HandleStep(s', e, r, k, f, kept, h);
    states', steps', s' := Extend(states', steps', s', Step(r, Handle(0, kept)));
  }

  // ----- taking in a message

  /** The message is not delivered yet; what there is of it is its own, and its first i fragments are there. */
  ghost predicate Missing(r: Receiver, id: U64, msg: seq<Byte>, size: nat, i: nat)
    requires size > 0
  {
    && r.seen.next < |r.seen.order| && !Has(r.seen, id)
    && (id in r.reasm ==> PartialOf(r.reasm[id], msg, size))
    && (i > 0 ==> id in r.reasm && msg != [] && HasFragments(r.reasm[id], Fragments(msg, size), i))
  }

  ghost predicate HasFragments(p: Partial, fs: seq<seq<Byte>>, i: nat) {
    |p.frags| == |fs| && i <= |fs| && forall j :: 0 <= j < i ==> p.frags[j] == fs[j]
  }

  lemma {:induction false} RecordsNext(p: Partial, msg: seq<Byte>, size: nat, i: nat)
    requires size > 0 && PartialOf(p, msg, size) && i < |Fragments(msg, size)|
    requires i > 0 ==> msg != [] && HasFragments(p, Fragments(msg, size), i)
    ensures var p' := Record(p, i, Fragments(msg, size)[i]);
            && PartialOf(p', msg, size)
            && (if p'.have >= |p'.frags| then Concat(p'.frags) == msg
                else msg != [] && i + 1 < |Fragments(msg, size)| && HasFragments(p', Fragments(msg, size), i + 1))
  {
    RecordKeeps(p, msg, size, i);
    FilledAll(Record(p, i, Fragments(msg, size)[i]).frags);
  }

  /** The next fragment is one more or completes the message. */
  lemma {:induction false} FeedsNext(r: Receiver, kept: Table, id: U64, msg: seq<Byte>, size: nat, i: nat)
    requires size > 0 && Missing(r, id, msg, size, i) && |r.inbox| < INBOX_SIZE && |msg| <= MAX_MESSAGE_SIZE
    requires i < |Fragments(msg, size)| <= MAX_FRAGMENTS
    ensures var fs := Fragments(msg, size);
            var h := HandleData(r, kept, id, i, |fs|, fs[i], 0);
            if h.delivered.None? then Missing(h.next, id, msg, size, i + 1) && i + 1 < |fs|
            else h.delivered == Some(msg) && h.ack
  {
    var fs := Fragments(msg, size);
    FreshPartialOf(msg, size, 0);
    var p := if id in r.reasm then r.reasm[id] else Partial(NoFragments(|fs|), 0, 0);
    RecordsNext(p, msg, size, i);
  }

  lemma {:induction false} FeedsFrame(r: Receiver, kept: Table, id: U64, msg: seq<Byte>, mtu: nat, epoch: Byte, i: nat)
    requires mtu > HEADER_SIZE && Sendable(Message(msg), mtu) && i < FrameCount(Message(msg), mtu)
    requires Missing(r, id, msg, mtu - HEADER_SIZE, i) && |r.inbox| < INBOX_SIZE
    ensures var f := FrameOf(Message(msg), mtu, id, epoch, i);
            var h := HandleData(r, kept, f.id, f.index, f.count, f.body, 0);
            && f.kind == DATA && f.id == id && f.epoch == epoch
            && (if h.delivered.None?
                then Missing(h.next, id, msg, mtu - HEADER_SIZE, i + 1) && i + 1 < FrameCount(Message(msg), mtu)
                else h.delivered == Some(msg) && h.ack)
  {
    FeedsNext(r, kept, id, msg, mtu - HEADER_SIZE, i);
  }

  /** Connection k was given this message, and nothing else, and the read loop is idle. */
  ghost predicate Given(e: Endpoint, e': Endpoint, k: nat, id: U64, msg: seq<Byte>, epoch: Byte) {
    && Bounds(e') && e'.reading.None? && e'.current == Some(k) && e'.epoch == e.epoch && e'.transfers == e.transfers
    && k < |e'.conns| && |e'.conns| == (if k < |e.conns| then |e.conns| else k + 1)
    && e'.conns[k].history == ConnAt(e, k).history + [Delivery(k, id, msg)]
    && e'.conns[k].remoteEpoch == NotedEpoch(ConnAt(e, k), epoch)
  }

  ghost predicate Deliverable(s: System, side: Side, id: U64, msg: seq<Byte>, epoch: Byte, i: nat) {
    var e := At(s, Other(side));
    && s.mtu > HEADER_SIZE && Bounds(e) && e.reading.None? && Sendable(Message(msg), s.mtu)
    && i < FrameCount(Message(msg), s.mtu)
    && OnWire(s, side, id, Message(msg), epoch, i, FrameCount(Message(msg), s.mtu))
    && Missing(ConnAt(e, Target(e, epoch)).rx, id, msg, s.mtu - HEADER_SIZE, i)
  }

  /** After a fragment that does not complete the message the next one goes to the same connection. */
  lemma {:induction false} FedStays(e: Endpoint, e': Endpoint, f: Frame, h: Handled)
    requires Bounds(e) && Fed(e, e', Target(e, f.epoch), f, h)
    ensures Target(e', f.epoch) == Target(e, f.epoch) && ConnAt(e', Target(e, f.epoch)) == e'.conns[Target(e, f.epoch)]
    ensures NotedEpoch(e'.conns[Target(e, f.epoch)], f.epoch) == NotedEpoch(ConnAt(e, Target(e, f.epoch)), f.epoch)
  {
  }

  lemma {:induction false} FedGives(e: Endpoint, e': Endpoint, k: nat, f: Frame, h: Handled, msg: seq<Byte>)
    requires Fed(e, e', k, f, h) && h.delivered == Some(msg)
    ensures Given(e, e', k, f.id, msg, f.epoch)
  {
  }

  lemma {:induction false} GivenLater(e: Endpoint, e1: Endpoint, e2: Endpoint, f: Frame, h: Handled, msg: seq<Byte>)
    requires Bounds(e) && Fed(e, e1, Target(e, f.epoch), f, h) && h.delivered.None?
    requires Given(e1, e2, Target(e, f.epoch), f.id, msg, f.epoch)
    ensures Given(e, e2, Target(e, f.epoch), f.id, msg, f.epoch)
  {
    FedStays(e, e1, f, h);
  }

  lemma {:induction false} NextDeliverable(s: System, s': System, side: Side, id: U64, msg: seq<Byte>, epoch: Byte,
                                           i: nat, h: Handled)
    requires Deliverable(s, side, id, msg, epoch, i) && s'.mtu == s.mtu && s.net <= s'.net
    requires var f, e := FrameOf(Message(msg), s.mtu, id, epoch, i), At(s, Other(side));
             Fed(e, At(s', Other(side)), Target(e, epoch), f, h)
    requires Missing(h.next, id, msg, s.mtu - HEADER_SIZE, i + 1) && i + 1 < FrameCount(Message(msg), s.mtu)
    ensures Deliverable(s', side, id, msg, epoch, i + 1)
  {
    FedStays(At(s, Other(side)), At(s', Other(side)), FrameOf(Message(msg), s.mtu, id, epoch, i), h);
  }

  /** Fragment i can be taken in: it completes the message or leaves it deliverable from the next one on. */
  lemma {:induction false} FeedFragment(states: seq<System>, steps: seq<Step>, s: System, side: Side, id: U64,
                                        msg: seq<Byte>, epoch: Byte, i: nat)
    returns (states': seq<System>, steps': seq<Step>, s': System, h: Handled)
    requires Reaches(states, steps, s) && Deliverable(s, side, id, msg, epoch, i)
    ensures Reaches(states', steps', s') && Continues(states, steps, states', steps')
    ensures s'.mtu == s.mtu && s.net <= s'.net && At(s', side) == At(s, side)
    ensures var f, e, e' := FrameOf(Message(msg), s.mtu, id, epoch, i), At(s, Other(side)), At(s', Other(side));
            if h.delivered.None?
            then Fed(e, e', Target(e, epoch), f, h) && Deliverable(s', side, id, msg, epoch, i + 1)
            else Given(e, e', Target(e, epoch), id, msg, epoch) &&
                 Packet(Other(side), Serialize(Frame(ACK, id, 0, 1, e.epoch, []))) in s'.net
  {
    var r, f := Other(side), FrameOf(Message(msg), s.mtu, id, epoch, i);
    var rx, kept;
    assert Packet(side, Serialize(f)) in s.net;
    states', steps', s', rx, kept, h := FeedOne(states, steps, s, side, f);
    FeedsFrame(rx, kept, id, msg, s.mtu, epoch, i);
    if h.delivered.None? {
      NextDeliverable(s, s', side, id, msg, epoch, i, h);
    } else {
      FedGives(At(s, r), At(s', r), Target(At(s, r), epoch), f, h, msg);
    }
  }

  /** All fragments of a message are on the wire: it can be delivered. */
  lemma {:induction false} Delivered(states: seq<System>, steps: seq<Step>, s: System, side: Side, id: U64,
                                     msg: seq<Byte>, epoch: Byte, i: nat)
    returns (states': seq<System>, steps': seq<Step>, s': System)
    requires Reaches(states, steps, s) && Deliverable(s, side, id, msg, epoch, i)
    ensures Reaches(states', steps', s') && Continues(states, steps, states', steps')
    ensures s'.mtu == s.mtu && s.net <= s'.net && At(s', side) == At(s, side)
    ensures var e := At(s, Other(side));
            && Given(e, At(s', Other(side)), Target(e, epoch), id, msg, epoch)
            && Packet(Other(side), Serialize(Frame(ACK, id, 0, 1, e.epoch, []))) in s'.net
    decreases FrameCount(Message(msg), s.mtu) - i
  {
    var h;
    states', steps', s', h := FeedFragment(states, steps, s, side, id, msg, epoch, i);
    if h.delivered.None? {
      var r, s1, f := Other(side), s', FrameOf(Message(msg), s.mtu, id, epoch, i);
      FedStays(At(s, r), At(s1, r), f, h);
      states', steps', s' := Delivered(states', steps', s1, side, id, msg, epoch, i + 1);
      GivenLater(At(s, r), At(s1, r), At(s', r), f, h, msg);
    }
  }

  // ----- the acknowledgement comes back

  /** The transfer waits on the connection that frames of this epoch are routed to. */
  ghost predicate Waiting(e: Endpoint, id: U64, epoch: Byte) {
    && Bounds(e) && e.reading.None? && id in e.transfers && e.transfers[id].stage == Awaiting
    && e.transfers[id].conn < |e.conns| && Target(e, epoch) == e.transfers[id].conn
    && id in e.conns[e.transfers[id].conn].pending
  }

  /** The acknowledgement has been signalled to the transfer. */
  ghost predicate Signalled(e: Endpoint, e': Endpoint, id: U64, c: nat) {
    && Bounds(e') && e'.reading.None? && e'.transfers == e.transfers && e'.epoch == e.epoch && e'.current == Some(c)
    && c < |e'.conns| && id in e'.conns[c].pending && e'.conns[c].pending[id]
  }

  lemma {:induction false} AckHandled(e: Endpoint, e1: Endpoint, f: Frame, c: nat)
    requires Held(e, e1, c, f) && c < |e.conns| && f.kind == ACK && f.id in e.conns[c].pending
    ensures Signalled(e, HandleFrame(e1, 0, map[]).next, f.id, c) && HandleFrame(e1, 0, map[]).written == None
  {
  }

  lemma {:induction false} AckHandleStep(s: System, e: Endpoint, side: Side, f: Frame, c: nat)
    requires s.mtu > HEADER_SIZE && Held(e, At(s, side), c, f) && c < |e.conns| && f.kind == ACK
    requires f.id in e.conns[c].pending
    ensures var st := Step(side, Handle(0, map[]));
            CanStep(s, st) && Next(s, st) == Put(s, side, At(Next(s, st), side)) &&
            Signalled(e, At(Next(s, st), side), f.id, c)
  {
    AckHandled(e, At(s, side), f, c);
    Acts(s, side, Handle(0, map[]), HandleFrame(At(s, side), 0, map[]));
  }

  lemma {:induction false} ReturnActs(s: System, side: Side, id: U64)
    requires s.mtu > HEADER_SIZE && Bounds(At(s, side)) && id in At(s, side).transfers
    requires var e := At(s, side);
             var t := e.transfers[id];
             t.stage == Awaiting && id in e.conns[t.conn].pending && e.conns[t.conn].pending[id]
    ensures var st := Step(side, Return(id, Acked));
            CanStep(s, st) && Next(s, st) == Put(s, side, End(At(s, side), id, Acked))
  {
    Acts(s, side, Return(id, Acked), Acted(End(At(s, side), id, Acked), None));
  }

  /** A Send whose acknowledgement is on the wire can return nil. */
  lemma {:induction false} Acknowledged(states: seq<System>, steps: seq<Step>, s: System, side: Side, id: U64, f: Frame)
    returns (states': seq<System>, steps': seq<Step>, s': System)
    requires Reaches(states, steps, s) && s.mtu > HEADER_SIZE && Waiting(At(s, side), id, f.epoch)
    requires f.kind == ACK && f.id == id && Packet(Other(side), Serialize(f)) in s.net
    ensures Reaches(states', steps', s') && Continues(states, steps, states', steps')
    ensures s'.mtu == s.mtu && s'.net == s.net && At(s', Other(side)) == At(s, Other(side))
    ensures At(s', side).transfers == At(s, side).transfers[id := At(s, side).transfers[id].(stage := Returned(Acked))]
    ensures At(s', side).epoch == At(s, side).epoch && At(s', side).reading.None?
    ensures At(s', side).current == Some(At(s, side).transfers[id].conn)
  {
    var e := At(s, side);
    RouteHolds(e, f);
    DemuxStep(s, side, f);
    states', steps', s' := Extend(states, steps, s, Step(side, Demux(Serialize(f))));
    AckHandleStep(s', e, side, f, e.transfers[id].conn);
    states', steps', s' := Extend(states', steps', s', Step(side, Handle(0, map[])));
    ReturnActs(s', side, id);
    states', steps', s' := Extend(states', steps', s', Step(side, Return(id, Acked)));
  }

  // ----- every message can arrive

  /** A message its receiver's connection was not given can still be taken in there. */
  lemma {:induction false} NotGivenIsMissing(c: Conn, mtu: nat, own: Transfers, log: seq<Delivery>, peer: Transfers,
                                             peerLog: seq<Delivery>, id: U64, msg: seq<Byte>)
    requires mtu > HEADER_SIZE && ConnOk(c, mtu, own, log, peer, peerLog) && id != 0 && !Mentions(c.history, id)
    requires id in peer ==> peer[id].payload == Message(msg)
    ensures Missing(c.rx, id, msg, mtu - HEADER_SIZE, 0)
  {
    HasIffRecent(c.rx.seen, IdSeq(c.history), id);
    assert id in c.rx.reasm ==> EntryOk(id, c.rx.reasm[id], mtu, peer);
    assert forall i :: 0 <= i < |c.history| ==> IdSeq(c.history)[i] != id;
  }

  lemma {:induction false} ConnAtOk(states: seq<System>, steps: seq<Step>, s: System, side: Side, k: nat)
    requires Reaches(states, steps, s)
    ensures s.mtu > HEADER_SIZE
    ensures var e, p := At(s, side), At(s, Other(side));
            ConnOk(ConnAt(e, k), s.mtu, e.transfers, e.log, p.transfers, p.log)
  {
    RunKeeps(states, steps, |steps|);
    assert SideOk(s, side);
    var e, p := At(s, side), At(s, Other(side));
    NewConnOk(s.mtu, e.transfers, e.log, p.transfers, p.log);
  }

  /** What is on the wire and was not given to the connection it is routed to can be delivered there. */
  lemma {:induction false} IsDeliverable(states: seq<System>, steps: seq<Step>, s: System, side: Side, id: U64,
                                         msg: seq<Byte>, epoch: Byte)
    requires Reaches(states, steps, s) && s.mtu > HEADER_SIZE && Sendable(Message(msg), s.mtu) && id != 0
    requires At(s, Other(side)).reading.None?
    requires OnWire(s, side, id, Message(msg), epoch, 0, FrameCount(Message(msg), s.mtu))
    requires id in At(s, side).transfers && At(s, side).transfers[id].payload == Message(msg)
    requires var e := At(s, Other(side)); !Mentions(ConnAt(e, Target(e, epoch)).history, id)
    ensures Deliverable(s, side, id, msg, epoch, 0)
  {
    var r := Other(side);
    var e, p := At(s, r), At(s, side);
    var k := Target(e, epoch);
    RunBounds(states, steps, s, r);
    ConnAtOk(states, steps, s, r, k);
    NotGivenIsMissing(ConnAt(e, k), s.mtu, e.transfers, e.log, p.transfers, p.log, id, msg);
  }

  lemma {:induction false} UnsentIsNotGiven(states: seq<System>, steps: seq<Step>, s: System, side: Side, id: U64,
                                            k: nat)
    requires Reaches(states, steps, s) && id !in At(s, side).transfers
    ensures !Mentions(ConnAt(At(s, Other(side)), k).history, id)
  {
    var e := At(s, Other(side));
    if k < |e.conns| {
      forall x | 0 <= x < |e.conns[k].history|
        ensures e.conns[k].history[x].id != id
      {
        HistoryIsSent(states, steps, |steps|, side, k, x);
      }
    }
  }

  /** A new message can be sent on the sender's connection c and delivered where its frames are routed to. */
  lemma {:induction false} SentAndDelivered(states: seq<System>, steps: seq<Step>, s: System, side: Side, c: nat,
                                            id: U64, msg: seq<Byte>)
    returns (states': seq<System>, steps': seq<Step>, s': System)
    requires Reaches(states, steps, s) && s.mtu > HEADER_SIZE && c < |At(s, side).conns|
    requires id != 0 && id !in At(s, side).transfers && Sendable(Message(msg), s.mtu)
    requires At(s, Other(side)).reading.None?
    ensures Reaches(states', steps', s') && Continues(states, steps, states', steps')
    ensures s'.mtu == s.mtu && s.net <= s'.net && At(s', side) == AfterSend(At(s, side), c, id, msg)
    ensures var e, epoch := At(s, Other(side)), At(s, side).epoch;
            && Given(e, At(s', Other(side)), Target(e, epoch), id, msg, epoch)
            && Packet(Other(side), Serialize(Frame(ACK, id, 0, 1, e.epoch, []))) in s'.net
  {
    var epoch := At(s, side).epoch;
    RunBounds(states, steps, s, side);
    UnsentIsNotGiven(states, steps, s, side, id, Target(At(s, Other(side)), epoch));
    states', steps', s' := Sent(states, steps, s, side, c, id, msg);
    IsDeliverable(states', steps', s', side, id, msg, epoch);
    states', steps', s' := Delivered(states', steps', s', side, id, msg, epoch, 0);
  }

  /** The read loops are idle and what the other side writes is routed to the sender's connection c. */
  ghost predicate Ready(s: System, side: Side, c: nat) {
    && At(s, side).reading.None? && At(s, Other(side)).reading.None? && c < |At(s, side).conns|
    && Target(At(s, side), At(s, Other(side)).epoch) == c
  }

  lemma {:induction false} SenderWaits(e: Endpoint, c: nat, id: U64, msg: seq<Byte>, epoch: Byte)
    requires Bounds(e) && e.reading.None? && c < |e.conns| && Target(e, epoch) == c
    ensures Waiting(AfterSend(e, c, id, msg), id, epoch)
  {
    BeginBounds(e, c, id, Message(msg));
    RestagedTwice(Begin(e, c, id, Message(msg)), id, Awaiting, Awaiting);
  }

  /** From any reachable state that is ready every message Send accepts can be delivered, and Send return nil. */
  lemma {:induction false} EveryMessageCanArrive(states: seq<System>, steps: seq<Step>, s: System, side: Side,
                                                 c: nat, id: U64, msg: seq<Byte>)
    returns (states': seq<System>, steps': seq<Step>, s': System)
    requires Reaches(states, steps, s) && Ready(s, side, c)
    requires id != 0 && id !in At(s, side).transfers && s.mtu > HEADER_SIZE && Sendable(Message(msg), s.mtu)
    ensures Reaches(states', steps', s') && Continues(states, steps, states', steps') && s.net <= s'.net
    ensures s'.mtu == s.mtu && At(s', side).epoch == At(s, side).epoch
    ensures At(s', side).transfers.Keys == At(s, side).transfers.Keys + {id}
    ensures id in Succeeded(At(s', side).transfers) && At(s', side).transfers[id].payload == Message(msg)
    ensures At(s', side).transfers[id].epoch == At(s, side).epoch
    ensures var e, epoch := At(s, Other(side)), At(s, side).epoch;
            Given(e, At(s', Other(side)), Target(e, epoch), id, msg, epoch)
  {
    RunBounds(states, steps, s, side);
    states', steps', s' := SentAndDelivered(states, steps, s, side, c, id, msg);
    var epoch := At(s, Other(side)).epoch;
    SenderWaits(At(s, side), c, id, msg, epoch);
    states', steps', s' := Acknowledged(states', steps', s', side, id, Frame(ACK, id, 0, 1, epoch, []));
  }
}
