/** Step by step: where a frame goes, what it is answered with, whom an answer wakes, what a transfer writes. */
module MuxAnswers {
  import opened Bytes
  import opened MuxFrame
  import opened Dedupe
  import opened MuxConn
  import opened Mux
  import opened MuxRun
  import opened MuxOrder
  import opened MuxEpoch

  /** The frame a step hands to the socket. */
  ghost function Handed(s: System, st: Step): Option<Frame>
    requires CanStep(s, st)
  {
    Act(At(s, st.side), s.mtu, st.action).written
  }

  /** One of the last 1024 messages given to the connection has this id. */
  ghost predicate LatelyGiven(c: Conn, id: U64) {
    exists x :: 0 <= x < |c.history| && |c.history| - 1024 <= x && c.history[x].id == id
  }

  lemma {:induction false} LatelyIsLast(c: Conn, id: U64)
    ensures LatelyGiven(c, id) <==> id in Last(IdSeq(c.history), 1024)
  {
    var h := IdSeq(c.history);
    LatelyIff(h, id, 1024);
    if LatelyGiven(c, id) {
      var x :| 0 <= x < |c.history| && |c.history| - 1024 <= x && c.history[x].id == id;
      assert h[x] == id;
    }
  }

  predicate WellFormed(f: Frame) {
    f.kind == DATA && f.id != 0 && f.index < f.count <= 4
  }

  /** The answer to a frame, given the connection as it is after handling it. */
  ghost function Answer(f: Frame, c: Conn, epoch: Byte): Option<Frame> {
    if WellFormed(f) && LatelyGiven(c, f.id) then Some(Frame(ACK, f.id, 0, 1, epoch, []))
    else if f.kind == PING then Some(Frame(PONG, f.id, 0, 1, epoch, []))
    else None
  }

  lemma {:induction false} AckAnswers(c: Conn, c': Conn, f: Frame, now: int, kept: Table, h: Handled)
    requires Remembers(c.rx.seen, IdSeq(c.history)) && |c.rx.seen.order| == 1024 && f.kind == DATA && f.id != 0
    requires h == HandleData(c.rx, kept, f.id, f.index, f.count, f.body, now)
    requires IdSeq(c'.history) == IdSeq(c.history) + if h.delivered.Some? then [f.id] else []
    ensures h.ack <==> WellFormed(f) && LatelyGiven(c', f.id)
  {
    if WellFormed(f) {
      AckIff(c.rx, kept, f.id, f.index, f.count, f.body, now, IdSeq(c.history));
      assert IdSeq(c.history) + [] == IdSeq(c.history);
      LatelyIsLast(c', f.id);
    } else {
      MalformedIgnored(c.rx, kept, f.id, f.index, f.count, f.body, now);
    }
  }

  lemma {:induction false} DataAnswered(e: Endpoint, now: int, kept: Table)
    requires Bounds(e) && e.reading.Some? && e.reading.value.frame.kind == DATA && e.reading.value.frame.id != 0
    requires FilterOk(e.conns[e.reading.value.conn])
    ensures var Reading(k, f) := e.reading.value;
            var r := HandleFrame(e, now, kept);
            k < |r.next.conns| && r.written == Answer(f, r.next.conns[k], e.epoch)
  {
    var Reading(k, f) := e.reading.value;
    var c := e.conns[k];
    var h := HandleData(c.rx, kept, f.id, f.index, f.count, f.body, now);
    DataFrameIs(e, now, kept, h);
    var c' := HandleFrame(e, now, kept).next.conns[k];
    assert IdSeq(c'.history) == IdSeq(c.history) + if h.delivered.Some? then [f.id] else [];
    AckAnswers(c, c', f, now, kept, h);
  }

  lemma {:induction false} OtherAnswered(e: Endpoint, now: int, kept: Table)
    requires Bounds(e) && e.reading.Some? && e.reading.value.frame.kind != DATA
    ensures var Reading(k, f) := e.reading.value;
            var r := HandleFrame(e, now, kept);
            k < |r.next.conns| && r.written == Answer(f, r.next.conns[k], e.epoch)
  {
  }

  /** What a run knows of the frame its read loop holds. */
  lemma {:induction false} ReadingKnown(states: seq<System>, steps: seq<Step>, i: nat, side: Side)
    requires Run(states, steps) && i < |states| && At(states[i], side).reading.Some?
    ensures Bounds(At(states[i], side))
    ensures var (e, f) := (At(states[i], side), At(states[i], side).reading.value.frame);
            FilterOk(e.conns[e.reading.value.conn]) && (f.kind == DATA ==> f.id != 0)
  {
    RunKeeps(states, steps, i);
    var s := states[i];
    assert SideOk(s, side) && SideOk(s, Other(side));
    var e, p := At(s, side), At(s, Other(side));
    var Reading(k, f) := e.reading.value;
    assert ConnOk(e.conns[k], s.mtu, e.transfers, e.log, p.transfers, p.log);
    if f.kind == DATA {
      assert TransferOk(f.id, p.transfers[f.id], s.mtu, e.log);
    }
  }

  lemma {:induction false} HandleStepIs(s: System, s': System, st: Step)
    requires CanStep(s, st) && s' == Next(s, st) && st.action.Handle?
    ensures At(s, st.side).reading.Some?
    ensures var r := HandleFrame(At(s, st.side), st.action.now, st.action.kept);
            At(s', st.side) == r.next && Handed(s, st) == r.written
  {
  }

  /** In every run a ping is answered by a pong, a fragment by an ack exactly when its message was lately given. */
  lemma {:induction false} AnsweredExactly(states: seq<System>, steps: seq<Step>, i: nat)
    requires Run(states, steps) && i < |steps| && steps[i].action.Handle?
    ensures CanStep(states[i], steps[i]) && At(states[i], steps[i].side).reading.Some? && |states| == |steps| + 1
    ensures var e, e' := At(states[i], steps[i].side), At(states[i + 1], steps[i].side);
            var Reading(k, f) := e.reading.value;
            k < |e'.conns| && Handed(states[i], steps[i]) == Answer(f, e'.conns[k], e.epoch)
  {
    assert StepAt(states, steps, i);
    var side, a := steps[i].side, steps[i].action;
    HandleStepIs(states[i], states[i + 1], steps[i]);
    ReadingKnown(states, steps, i, side);
    if At(states[i], side).reading.value.frame.kind == DATA {
      DataAnswered(At(states[i], side), a.now, a.kept);
    } else {
      OtherAnswered(At(states[i], side), a.now, a.kept);
    }
  }

  /** And an ack or a pong is signalled to the transfer that waits for it on the connection, and to no other. */
  lemma {:induction false} SignalledExactly(states: seq<System>, steps: seq<Step>, i: nat, k: nat, id: U64)
    requires Run(states, steps) && i < |steps| && steps[i].action.Handle?
    requires k < |At(states[i], steps[i].side).conns|
    requires id in At(states[i], steps[i].side).conns[k].pending
    ensures At(states[i], steps[i].side).reading.Some? && |states| == |steps| + 1
    ensures var e, e' := At(states[i], steps[i].side), At(states[i + 1], steps[i].side);
            var r := e.reading.value;
            && k < |e'.conns| && id in e'.conns[k].pending
            && (e'.conns[k].pending[id] <==>
                  e.conns[k].pending[id] || (r.conn == k && r.frame.id == id && r.frame.kind in {ACK, PONG}))
  {
    assert StepAt(states, steps, i);
    HandleStepIs(states[i], states[i + 1], steps[i]);
    HandleSignals(At(states[i], steps[i].side), steps[i].action.now, steps[i].action.kept, k, id);
  }

  lemma {:induction false} HandleSignals(e: Endpoint, now: int, kept: Table, k: nat, id: U64)
    requires Bounds(e) && e.reading.Some? && k < |e.conns| && id in e.conns[k].pending
    ensures var e', r := HandleFrame(e, now, kept).next, e.reading.value;
            && k < |e'.conns| && id in e'.conns[k].pending
            && (e'.conns[k].pending[id] <==>
                  e.conns[k].pending[id] || (r.conn == k && r.frame.id == id && r.frame.kind in {ACK, PONG}))
  {
  }

  // ----- which transfers are waited for, and where frames go

  /** A transfer that has not returned is registered on its connection, and nothing else is, but for crashed ones. */
  ghost predicate Registers(e: Endpoint) {
    forall k, id :: 0 <= k < |e.conns| ==> (RegisteredOn(e, k, id) <==> ActiveOn(e, k, id))
  }

  predicate RegisteredOn(e: Endpoint, k: nat, id: U64) {
    k < |e.conns| && id in e.conns[k].pending
  }

  predicate ActiveOn(e: Endpoint, k: nat, id: U64) {
    id in e.transfers && e.transfers[id].conn == k &&
    (e.transfers[id].stage.Returned? ==> e.transfers[id].stage.result.Crashed?)
  }

  /** Neither the registration nor the transfer's activity changes. */
  ghost predicate SameWaits(e: Endpoint, e': Endpoint) {
    forall k: nat, id :: (RegisteredOn(e', k, id) <==> RegisteredOn(e, k, id)) &&
                         (ActiveOn(e', k, id) <==> ActiveOn(e, k, id))
  }

  lemma {:induction false} SameRegisters(e: Endpoint, e': Endpoint)
    requires Registers(e) && SameWaits(e, e') && TransfersWithin(e.transfers, |e.conns|)
    ensures Registers(e')
  {
    forall k, id | 0 <= k < |e'.conns|
      ensures RegisteredOn(e', k, id) <==> ActiveOn(e', k, id)
    {
      assert k < |e.conns| ==> (RegisteredOn(e, k, id) <==> ActiveOn(e, k, id));
    }
  }

  lemma {:induction false} HandleWaits(e: Endpoint, now: int, kept: Table)
    requires Bounds(e) && e.reading.Some?
    ensures SameWaits(e, HandleFrame(e, now, kept).next)
  {
  }

  lemma {:induction false} SameWaitsTransitive(a: Endpoint, b: Endpoint, c: Endpoint)
    requires SameWaits(a, b) && SameWaits(b, c)
    ensures SameWaits(a, c)
  {
    forall k: nat, id
      ensures (RegisteredOn(c, k, id) <==> RegisteredOn(a, k, id)) && (ActiveOn(c, k, id) <==> ActiveOn(a, k, id))
    {
      assert (RegisteredOn(b, k, id) <==> RegisteredOn(a, k, id)) && (ActiveOn(b, k, id) <==> ActiveOn(a, k, id));
      assert (RegisteredOn(c, k, id) <==> RegisteredOn(b, k, id)) && (ActiveOn(c, k, id) <==> ActiveOn(b, k, id));
    }
  }

  lemma {:induction false} CloseWaits(e: Endpoint, k: nat)
    requires k < |e.conns|
    ensures SameWaits(e, CloseConn(e, k))
  {
  }

  lemma {:induction false} ConnectWaits(e: Endpoint)
    ensures SameWaits(e, Connect(e))
  {
  }

  lemma {:induction false} NoteWaits(e: Endpoint, f: Frame)
    requires e.current.Some? && e.current.value < |e.conns|
    ensures SameWaits(e, NoteFrame(e, f))
  {
  }

  lemma {:induction false} RouteWaits(e: Endpoint, f: Frame)
    requires Bounds(e)
    ensures SameWaits(e, Route(e, f))
  {
    var e1 := if PeerRestarted(e, f.epoch) then CloseConn(e, e.current.value) else e;
    if PeerRestarted(e, f.epoch) {
      CloseWaits(e, e.current.value);
    }
    ConnectWaits(e1);
    SameWaitsTransitive(e, e1, Connect(e1));
    NoteWaits(Connect(e1), f);
    SameWaitsTransitive(e, Connect(e1), Route(e, f));
  }

  lemma {:induction false} ReceivingWaits(e: Endpoint, mtu: nat, a: Action)
    requires mtu > HEADER_SIZE && Bounds(e) && Enabled(e, mtu, a) && Receives(a) && Registers(e)
    ensures Registers(Act(e, mtu, a).next)
  {
    var e' := Act(e, mtu, a).next;
    if a.Handle? {
      HandleWaits(e, a.now, a.kept);
    } else if a.Demux? && Parse(a.datagram).Some? {
      RouteWaits(e, Parse(a.datagram).value);
    }
    assert SameWaits(e, e');
    SameRegisters(e, e');
  }

  lemma {:induction false} BeginRegisters(e: Endpoint, c: nat, id: U64, p: Payload)
    requires Registers(e) && TransfersWithin(e.transfers, |e.conns|) && c < |e.conns| && id !in e.transfers
    ensures Registers(Begin(e, c, id, p))
  {
    var e' := Begin(e, c, id, p);
    forall k, x | 0 <= k < |e'.conns|
      ensures RegisteredOn(e', k, x) <==> ActiveOn(e', k, x)
    {
      assert RegisteredOn(e, k, x) <==> ActiveOn(e, k, x);
    }
  }

  lemma {:induction false} EndRegisters(e: Endpoint, id: U64, r: Result)
    requires Registers(e) && id in e.transfers && e.transfers[id].conn < |e.conns| && !r.Crashed?
    ensures Registers(End(e, id, r))
  {
    var e' := End(e, id, r);
    forall k, x | 0 <= k < |e'.conns|
      ensures RegisteredOn(e', k, x) <==> ActiveOn(e', k, x)
    {
      assert RegisteredOn(e, k, x) <==> ActiveOn(e, k, x);
    }
  }

  lemma {:induction false} RebornRegisters(e: Endpoint, epoch: Byte)
    requires Registers(e) && TransfersWithin(e.transfers, |e.conns|)
    ensures Registers(Reborn(e, epoch))
  {
    assert SameWaits(e, Reborn(e, epoch));
    SameRegisters(e, Reborn(e, epoch));
  }

  /** Writing and waiting change neither connections nor which transfers have returned. */
  lemma {:induction false} TryingRegisters(e: Endpoint, mtu: nat, a: Action)
    requires mtu > HEADER_SIZE && Bounds(e) && Enabled(e, mtu, a) && (a.Write? || a.Timer?) && Registers(e)
    ensures Registers(Act(e, mtu, a).next)
  {
    assert SameWaits(e, Act(e, mtu, a).next);
    SameRegisters(e, Act(e, mtu, a).next);
  }

  lemma {:induction false} DialRegisters(e: Endpoint, id: U64)
    requires Registers(e) && Bounds(e) && id !in e.transfers
    ensures Registers(Begin(Connect(e), Connect(e).current.value, id, Probe))
  {
    ConnectWaits(e);
    SameRegisters(e, Connect(e));
    BeginRegisters(Connect(e), Connect(e).current.value, id, Probe);
  }

  lemma {:induction false} ActRegisters(e: Endpoint, mtu: nat, a: Action)
    requires mtu > HEADER_SIZE && Bounds(e) && Enabled(e, mtu, a) && Registers(e)
    ensures Registers(Act(e, mtu, a).next)
  {
    if Receives(a) {
      ReceivingWaits(e, mtu, a);
    } else {
      match a
      case StartSend(k, id, msg) => BeginRegisters(e, k, id, Message(msg));
      case Dial(id) => DialRegisters(e, id);
      case Return(id, r) => EndRegisters(e, id, r);
      case Restart(epoch) => RebornRegisters(e, epoch);
      case _ => TryingRegisters(e, mtu, a);
    }
  }

  lemma {:induction false} StepRegisters(s: System, st: Step, side: Side)
    requires CanStep(s, st) && Registers(At(s, side))
    ensures Registers(At(Next(s, st), side))
  {
    if st.side == side {
      ActRegisters(At(s, side), s.mtu, st.action);
    }
  }

  /** In every run exactly the transfers that have not returned are registered, each on its own connection. */
  lemma {:induction false} RegisteredExactly(states: seq<System>, steps: seq<Step>, i: nat, side: Side)
    requires Run(states, steps) && i < |states|
    ensures Registers(At(states[i], side))
  {
    if i > 0 {
      RegisteredExactly(states, steps, i - 1, side);
      RunKeeps(states, steps, i - 1);
      assert StepAt(states, steps, i - 1) && SideOk(states[i - 1], side);
      StepRegisters(states[i - 1], steps[i - 1], side);
    }
  }

  /** The frame may belong to the process the connection has been hearing. */
  predicate Continues(c: Conn, f: Frame) {
    f.epoch == 0 || c.remoteEpoch == 0 || c.remoteEpoch == f.epoch
  }

  /** Where a frame goes, and what becomes of the connections. */
  ghost predicate Routed(e: Endpoint, e': Endpoint, f: Frame) {
    if e.current.Some? && e.current.value < |e.conns| && Continues(e.conns[e.current.value], f)
    then RoutedTo(e, e', f, e.current.value) && |e'.conns| == |e.conns| &&
         forall j :: 0 <= j < |e.conns| && e.current != Some(j) ==> e'.conns[j] == e.conns[j]
    else RoutedTo(e, e', f, |e.conns|) && |e'.conns| == |e.conns| + 1 &&
         forall j :: 0 <= j < |e.conns| ==>
                       e'.conns[j] == if e.current == Some(j) then e.conns[j].(closed := true) else e.conns[j]
  }

  /** The frame is read on connection k, which notes its epoch if it has noted none. */
  ghost predicate RoutedTo(e: Endpoint, e': Endpoint, f: Frame, k: nat) {
    && k < |e'.conns| && e'.current == Some(k) && e'.reading == Some(Reading(k, f))
    && (k < |e.conns| ==> e'.conns[k].closed == e.conns[k].closed)
    && e'.conns[k].remoteEpoch ==
       (if k < |e.conns| && e.conns[k].remoteEpoch != 0 then e.conns[k].remoteEpoch else f.epoch)
  }

  lemma {:induction false} RouteIs(e: Endpoint, f: Frame)
    requires Bounds(e)
    ensures Routed(e, Route(e, f), f)
  {
  }

  lemma {:induction false} DemuxStepIs(s: System, s': System, st: Step)
    requires CanStep(s, st) && s' == Next(s, st) && st.action.Demux? && Bounds(At(s, st.side))
    ensures At(s', st.side) == match Parse(st.action.datagram)
                               case None => At(s, st.side)
                               case Some(f) => Route(At(s, st.side), f)
  {
  }

  /**
   In every run a frame goes to the current connection if it may belong to the same process; otherwise
   that connection is closed and a new one opened for it. The connection notes the first epoch other than 0.
   */
  lemma {:induction false} RoutedExactly(states: seq<System>, steps: seq<Step>, i: nat)
    requires Run(states, steps) && i < |steps| && steps[i].action.Demux?
    ensures |states| == |steps| + 1
    ensures var e, e' := At(states[i], steps[i].side), At(states[i + 1], steps[i].side);
            match Parse(steps[i].action.datagram)
            case None => e' == e
            case Some(f) => Routed(e, e', f)
  {
    RunKeeps(states, steps, i);
    assert StepAt(states, steps, i) && SideOk(states[i], steps[i].side);
    DemuxStepIs(states[i], states[i + 1], steps[i]);
    var d := Parse(steps[i].action.datagram);
    if d.Some? {
      RouteIs(At(states[i], steps[i].side), d.value);
    }
  }

  // ----- what a transfer writes, and what a restart leaves

  /** In every run a write hands over the transfer's next frame: its ping, or its fragment of that number. */
  lemma {:induction false} WrittenExactly(states: seq<System>, steps: seq<Step>, i: nat, id: U64)
    requires Run(states, steps) && i < |steps| && steps[i].action == Write(id)
    ensures CanStep(states[i], steps[i]) && id in At(states[i], steps[i].side).transfers
    ensures states[i].mtu > 13 && At(states[i], steps[i].side).transfers[id].stage.Writing?
    ensures var (t, epoch) := (At(states[i], steps[i].side).transfers[id], At(states[i], steps[i].side).epoch);
            match t.payload
            case Probe => Handed(states[i], steps[i]) == Some(Frame(PING, id, 0, 1, epoch, []))
            case Message(msg) =>
              var fs := Fragments(msg, states[i].mtu - 13);
              t.stage.next < |fs| <= 4 &&
              Handed(states[i], steps[i]) == Some(Frame(DATA, id, t.stage.next, |fs|, epoch, fs[t.stage.next]))
  {
    assert StepAt(states, steps, i);
  }

  /** After a restart all connections are closed, no frame is being read, and transfers under way have crashed. */
  lemma {:induction false} RestartedExactly(states: seq<System>, steps: seq<Step>, i: nat)
    requires Run(states, steps) && i < |steps| && steps[i].action.Restart?
    ensures |states| == |steps| + 1
    ensures var e, e' := At(states[i], steps[i].side), At(states[i + 1], steps[i].side);
            && e'.epoch == steps[i].action.epoch && e'.current.None? && e'.reading.None? && e'.log == e.log
            && |e'.conns| == |e.conns| && e'.transfers.Keys == e.transfers.Keys
            && (forall k :: 0 <= k < |e.conns| ==> e'.conns[k] == e.conns[k].(closed := true))
            && forall id :: id in e.transfers ==>
                 e'.transfers[id] == if e.transfers[id].stage.Returned? then e.transfers[id]
                                     else e.transfers[id].(stage := Returned(Crashed))
  {
    assert StepAt(states, steps, i);
  }
}
