/** Epochs over whole runs: which process wrote a message's frames, and which connections can be given it. */
module MuxEpoch {
  import opened Bytes
  import opened MuxFrame
  import opened MuxConn
  import opened Mux
  import opened MuxRun
  import opened MuxOrder

  /** Transfers that have not returned run under the endpoint's own epoch. */
  ghost predicate Running(e: Endpoint) {
    e.epoch != 0 && forall id :: id in e.transfers ==> RunsUnder(e.transfers[id], e.epoch)
  }

  predicate RunsUnder(t: Transfer, epoch: Byte) {
    t.epoch != 0 && (t.stage.Returned? || t.epoch == epoch)
  }

  /** A fragment carries the epoch its transfer runs under. */
  predicate EpochFits(f: Frame, peer: Transfers) {
    f.kind == DATA ==> f.id in peer && peer[f.id].epoch == f.epoch != 0
  }

  /** What a connection was given was written under the epoch it has noted. */
  ghost predicate GivenFits(c: Conn, peer: Transfers) {
    forall d :: d in c.history ==> d.id in peer && peer[d.id].epoch == c.remoteEpoch != 0
  }

  ghost predicate ReceivesFit(e: Endpoint, peer: Transfers) {
    && (forall k :: 0 <= k < |e.conns| ==> GivenFits(e.conns[k], peer))
    && (e.reading.Some? ==> e.reading.value.conn < |e.conns| &&
                            ReadingFits(e.conns[e.reading.value.conn], e.reading.value.frame, peer))
  }

  predicate ReadingFits(c: Conn, f: Frame, peer: Transfers) {
    EpochFits(f, peer) && (f.kind == DATA ==> c.remoteEpoch == f.epoch)
  }

  ghost predicate WiresFit(s: System) {
    forall p :: p in s.net && Parse(p.bytes).Some? ==> EpochFits(Parse(p.bytes).value, At(s, p.from).transfers)
  }

  ghost predicate SideFits(s: System, side: Side) {
    Running(At(s, side)) && ReceivesFit(At(s, side), At(s, Other(side)).transfers)
  }

  ghost predicate EpochsFit(s: System) {
    s.mtu > HEADER_SIZE && WiresFit(s) && SideFits(s, Left) && SideFits(s, Right)
  }

  // ----- one endpoint

  lemma {:induction false} RunningKept(e: Endpoint, mtu: nat, a: Action)
    requires mtu > HEADER_SIZE && Bounds(e) && Enabled(e, mtu, a) && Running(e)
    ensures Running(Act(e, mtu, a).next)
  {
    if Receives(a) {
      ReceivingKeepsTransfers(e, mtu, a);
      ReceivingKeepsEpoch(e, mtu, a);
    }
  }

  lemma {:induction false} ReceivingKeepsEpoch(e: Endpoint, mtu: nat, a: Action)
    requires mtu > HEADER_SIZE && Bounds(e) && Enabled(e, mtu, a) && Receives(a)
    ensures Act(e, mtu, a).next.epoch == e.epoch
  {
  }

  lemma {:induction false} HistoriesFit(e: Endpoint, e': Endpoint, peer: Transfers)
    requires (forall k :: 0 <= k < |e.conns| ==> GivenFits(e.conns[k], peer)) && KeepsHistories(e, e')
    ensures forall k :: 0 <= k < |e'.conns| ==> GivenFits(e'.conns[k], peer)
  {
    forall k | 0 <= k < |e'.conns|
      ensures GivenFits(e'.conns[k], peer)
    {
      if k < |e.conns| {
        assert GivenFits(e.conns[k], peer) && KeepsHistory(e.conns[k], e'.conns[k]);
      }
    }
  }

  /** What the read loop holds is what it held, for a connection whose noted epoch stays. */
  lemma {:induction false} ReadingStays(e: Endpoint, mtu: nat, a: Action)
    requires mtu > HEADER_SIZE && Bounds(e) && Enabled(e, mtu, a) && !a.Demux? && !a.Handle? && !a.Restart?
    ensures Act(e, mtu, a).next.reading == e.reading
  {
  }

  lemma {:induction false} NoteFits(e: Endpoint, f: Frame, peer: Transfers)
    requires Bounds(e) && e.current.Some? && EpochFits(f, peer) && !PeerRestarted(e, f.epoch)
    ensures var e', k := NoteFrame(e, f), e.current.value;
            e'.reading == Some(Reading(k, f)) && k < |e'.conns| && ReadingFits(e'.conns[k], f, peer)
  {
  }

  lemma {:induction false} RouteFits(e: Endpoint, f: Frame, peer: Transfers)
    requires Bounds(e) && ReceivesFit(e, peer) && EpochFits(f, peer)
    ensures ReceivesFit(Route(e, f), peer)
  {
    RouteKeepsHistories(e, f);
    HistoriesFit(e, Route(e, f), peer);
    var e1 := if PeerRestarted(e, f.epoch) then CloseConn(e, e.current.value) else e;
    ConnectIsFresh(e1, f);
    NoteFits(Connect(e1), f, peer);
  }

  lemma {:induction false} ConnectIsFresh(e: Endpoint, f: Frame)
    requires Bounds(e) && !PeerRestarted(e, f.epoch)
    ensures Bounds(Connect(e)) && !PeerRestarted(Connect(e), f.epoch)
  {
  }

  lemma {:induction false} HandleFits(e: Endpoint, now: int, kept: Table, peer: Transfers)
    requires Bounds(e) && e.reading.Some? && ReceivesFit(e, peer)
    ensures ReceivesFit(HandleFrame(e, now, kept).next, peer)
  {
    var Reading(k, f) := e.reading.value;
    var r := HandleFrame(e, now, kept).next;
    assert r.reading.None? && |r.conns| == |e.conns|;
    forall i | 0 <= i < |r.conns|
      ensures GivenFits(r.conns[i], peer)
    {
      assert GivenFits(e.conns[i], peer);
    }
  }

  lemma {:induction false} ReceivesFitKept(e: Endpoint, mtu: nat, a: Action, peer: Transfers)
    requires mtu > HEADER_SIZE && Bounds(e) && Enabled(e, mtu, a) && ReceivesFit(e, peer)
    requires a.Demux? && Parse(a.datagram).Some? ==> EpochFits(Parse(a.datagram).value, peer)
    ensures ReceivesFit(Act(e, mtu, a).next, peer)
  {
    if a.Handle? {
      HandleFits(e, a.now, a.kept, peer);
    } else if a.Demux? {
      if Parse(a.datagram).Some? {
        RouteFits(e, Parse(a.datagram).value, peer);
      }
    } else {
      OtherActionsKeep(e, mtu, a);
      HistoriesFit(e, Act(e, mtu, a).next, peer);
      if !a.Restart? {
        ReadingStays(e, mtu, a);
      }
    }
  }

  lemma {:induction false} PeerGrowthFits(e: Endpoint, peer: Transfers, peer': Transfers)
    requires ReceivesFit(e, peer) && Extends(peer, peer')
    ensures ReceivesFit(e, peer')
  {
    forall k | 0 <= k < |e.conns|
      ensures GivenFits(e.conns[k], peer')
    {
      assert GivenFits(e.conns[k], peer);
    }
  }

  /** The one kind of action that writes a fragment writes it under the epoch of its transfer. */
  lemma {:induction false} WrittenFits(e: Endpoint, mtu: nat, a: Action)
    requires mtu > HEADER_SIZE && Bounds(e) && Enabled(e, mtu, a) && Running(e)
    ensures var r := Act(e, mtu, a); r.written.Some? ==> EpochFits(r.written.value, r.next.transfers)
  {
    if Receives(a) {
      ReceivingWritesNoData(e, mtu, a);
    }
  }

  lemma {:induction false} ReceivingWritesNoData(e: Endpoint, mtu: nat, a: Action)
    requires mtu > HEADER_SIZE && Bounds(e) && Enabled(e, mtu, a) && Receives(a)
    ensures Act(e, mtu, a).written.Some? ==> Act(e, mtu, a).written.value.kind != DATA
  {
  }

  // ----- every run

  lemma {:induction false} WiresFitKept(s: System, side: Side, e: Endpoint, written: Option<Frame>)
    requires WiresFit(s) && Extends(At(s, side).transfers, e.transfers)
    requires written.Some? ==> EpochFits(written.value, e.transfers)
    ensures WiresFit(Wrote(s, side, e, written))
  {
    var s' := Wrote(s, side, e, written);
    if written.Some? {
      ParseSerialize(written.value);
    }
    forall p | p in s'.net && Parse(p.bytes).Some?
      ensures EpochFits(Parse(p.bytes).value, At(s', p.from).transfers)
    {
      if p in s.net {
        assert EpochFits(Parse(p.bytes).value, At(s, p.from).transfers);
      }
    }
  }

  lemma {:induction false} StepFits(s: System, st: Step)
    requires EpochsFit(s) && CanStep(s, st)
    ensures EpochsFit(Next(s, st))
  {
    var e, p := At(s, st.side), At(s, Other(st.side));
    assert SideFits(s, st.side) && SideFits(s, Other(st.side));
    var r := Act(e, s.mtu, st.action);
    RunningKept(e, s.mtu, st.action);
    ReceivesFitKept(e, s.mtu, st.action, p.transfers);
    ActAdvances(e, s.mtu, st.action);
    assert Extends(e.transfers, r.next.transfers);
    PeerGrowthFits(p, e.transfers, r.next.transfers);
    WrittenFits(e, s.mtu, st.action);
    WiresFitKept(s, st.side, r.next, r.written);
    assert SideFits(Next(s, st), st.side) && SideFits(Next(s, st), Other(st.side));
  }

  lemma {:induction false} RunFits(states: seq<System>, steps: seq<Step>, i: nat)
    requires Run(states, steps) && i < |states|
    ensures EpochsFit(states[i])
  {
    if i > 0 {
      RunFits(states, steps, i - 1);
      assert StepAt(states, steps, i - 1);
      StepFits(states[i - 1], steps[i - 1]);
    }
  }

  /** In every run a connection is given only messages written under the epoch it has noted. */
  lemma {:induction false} GivenUnderEpoch(states: seq<System>, steps: seq<Step>, i: nat, side: Side, k: nat, x: nat)
    requires Run(states, steps) && i < |states| && k < |At(states[i], Other(side)).conns|
    requires x < |History(states[i], Other(side), k)|
    ensures var d := History(states[i], Other(side), k)[x];
            d.id in At(states[i], side).transfers &&
            At(states[i], side).transfers[d.id].epoch == At(states[i], Other(side)).conns[k].remoteEpoch != 0
  {
    RunFits(states, steps, i);
    var s := states[i];
    assert SideFits(s, Other(side));
    var c := At(s, Other(side)).conns[k];
    assert GivenFits(c, At(s, side).transfers) && c.history[x] in c.history;
  }

  lemma {:induction false} ActKeepsRemote(e: Endpoint, mtu: nat, a: Action, k: nat)
    requires mtu > HEADER_SIZE && Bounds(e) && Enabled(e, mtu, a) && k < |e.conns| && e.conns[k].remoteEpoch != 0
    ensures k < |Act(e, mtu, a).next.conns| && Act(e, mtu, a).next.conns[k].remoteEpoch == e.conns[k].remoteEpoch
  {
    if !a.Handle? {
      OtherActionsKeep(e, mtu, a);
      assert KeepsHistory(e.conns[k], Act(e, mtu, a).next.conns[k]);
    } else {
      HandleKeepsRemote(e, a.now, a.kept, k);
    }
  }

  lemma {:induction false} HandleKeepsRemote(e: Endpoint, now: int, kept: Table, k: nat)
    requires Bounds(e) && e.reading.Some? && k < |e.conns|
    ensures var cs := HandleFrame(e, now, kept).next.conns; k < |cs| && cs[k].remoteEpoch == e.conns[k].remoteEpoch
  {
  }

  /** The epoch a connection has noted is final, and so is the epoch of a transfer. */
  lemma {:induction false} EpochsAreFinal(states: seq<System>, steps: seq<Step>, g: nat, i: nat, side: Side, k: nat)
    requires Run(states, steps) && g <= i < |states| && k < |At(states[g], side).conns|
    requires At(states[g], side).conns[k].remoteEpoch != 0
    ensures k < |At(states[i], side).conns|
    ensures At(states[i], side).conns[k].remoteEpoch == At(states[g], side).conns[k].remoteEpoch
    decreases i
  {
    if g < i {
      EpochsAreFinal(states, steps, g, i - 1, side, k);
      assert StepAt(states, steps, i - 1);
      StepKeepsRemote(states[i - 1], steps[i - 1], side, k);
    }
  }

  lemma {:induction false} StepKeepsRemote(s: System, st: Step, side: Side, k: nat)
    requires CanStep(s, st) && k < |At(s, side).conns| && At(s, side).conns[k].remoteEpoch != 0
    ensures var cs := At(Next(s, st), side).conns; k < |cs| && cs[k].remoteEpoch == At(s, side).conns[k].remoteEpoch
  {
    if st.side == side {
      ActKeepsRemote(At(s, side), s.mtu, st.action, k);
    }
  }

  lemma {:induction false} TransfersPersist(states: seq<System>, steps: seq<Step>, g: nat, i: nat, side: Side, id: U64)
    requires Run(states, steps) && g <= i < |states| && id in At(states[g], side).transfers
    ensures id in At(states[i], side).transfers
    ensures SameTransfer(At(states[g], side).transfers[id], At(states[i], side).transfers[id])
    decreases i
  {
    if g < i {
      TransfersPersist(states, steps, g, i - 1, side, id);
      assert StepAt(states, steps, i - 1);
      var s, st := states[i - 1], steps[i - 1];
      if st.side == side {
        ActAdvances(At(s, side), s.mtu, st.action);
        assert GoesOn(At(s, side).transfers[id], At(Next(s, st), side).transfers[id]);
      }
    }
  }

  // ----- what has been written stays on the wire

  /** How many frames of the transfer are known to be on the wire. */
  function Out(t: Transfer, mtu: nat): nat
    requires mtu > HEADER_SIZE
  {
    if t.stage == Awaiting || t.stage == Returned(Acked) || t.attempt > 0 then FrameCount(t.payload, mtu)
    else if t.stage.Writing? then t.stage.next
    else 0
  }

  ghost predicate IsOut(s: System, side: Side, id: U64, t: Transfer) {
    && s.mtu > HEADER_SIZE && Sendable(t.payload, s.mtu) && Out(t, s.mtu) <= FrameCount(t.payload, s.mtu)
    && OnWire(s, side, id, t.payload, t.epoch, 0, Out(t, s.mtu))
  }

  ghost predicate AllOut(s: System, side: Side, own: Transfers) {
    forall id :: id in own ==> IsOut(s, side, id, own[id])
  }

  lemma {:induction false} OutStays(s: System, s': System, side: Side, own: Transfers)
    requires AllOut(s, side, own) && s'.mtu == s.mtu && s.net <= s'.net
    ensures AllOut(s', side, own)
  {
    forall id | id in own
      ensures IsOut(s', side, id, own[id])
    {
      assert IsOut(s, side, id, own[id]);
    }
  }

  /** A transfer of which no more is said to be out than before. */
  lemma {:induction false} NoMoreOut(s: System, side: Side, id: U64, t: Transfer, t': Transfer)
    requires IsOut(s, side, id, t) && SameTransfer(t, t') && Out(t', s.mtu) <= Out(t, s.mtu)
    ensures IsOut(s, side, id, t')
  {
  }

  lemma {:induction false} SetOut(s: System, side: Side, own: Transfers, id: U64, t: Transfer)
    requires AllOut(s, side, own) && IsOut(s, side, id, t)
    ensures AllOut(s, side, own[id := t])
  {
  }

  lemma {:induction false} WriteOut(s: System, side: Side, id: U64, s': System)
    requires s.mtu > HEADER_SIZE && Bounds(At(s, side)) && Running(At(s, side))
    requires Enabled(At(s, side), s.mtu, Write(id))
    requires IsOut(s, side, id, At(s, side).transfers[id])
    requires var r := Act(At(s, side), s.mtu, Write(id)); s' == Wrote(s, side, r.next, r.written)
    ensures IsOut(s', side, id, At(s', side).transfers[id])
  {
    var t := At(s, side).transfers[id];
    assert RunsUnder(t, At(s, side).epoch);
  }

  lemma {:induction false} RebornOut(s: System, side: Side, e: Endpoint, epoch: Byte)
    requires AllOut(s, side, e.transfers)
    ensures AllOut(s, side, Reborn(e, epoch).transfers)
  {
    var t := Reborn(e, epoch).transfers;
    forall id | id in t
      ensures IsOut(s, side, id, t[id])
    {
      NoMoreOut(s, side, id, e.transfers[id], t[id]);
    }
  }

  lemma {:induction false} NewIsOut(s: System, side: Side, id: U64, t: Transfer)
    requires s.mtu > HEADER_SIZE && Sendable(t.payload, s.mtu) && t.stage == Writing(0) && t.attempt == 0
    ensures IsOut(s, side, id, t)
  {
  }

  lemma {:induction false} SendingOut(s: System, st: Step)
    requires CanStep(s, st) && Running(At(s, st.side)) && AllOut(s, st.side, At(s, st.side).transfers)
    requires !Receives(st.action) && !st.action.Restart?
    ensures AllOut(Next(s, st), st.side, At(Next(s, st), st.side).transfers)
  {
    var e, a, s' := At(s, st.side), st.action, Next(s, st);
    var t, t' := e.transfers, At(s', st.side).transfers;
    OutStays(s, s', st.side, t);
    match a
    case StartSend(_, id, _) => NewIsOut(s', st.side, id, t'[id]);
    case Dial(id) => NewIsOut(s', st.side, id, t'[id]);
    case Write(id) => WriteOut(s, st.side, id, s');
    case Timer(id) => NoMoreOut(s', st.side, id, t[id], t'[id]);
    case Return(id, _) => NoMoreOut(s', st.side, id, t[id], t'[id]);
    SetOut(s', st.side, t, a.id, t'[a.id]);
  }

  lemma {:induction false} StepOut(s: System, st: Step, side: Side)
    requires CanStep(s, st) && Running(At(s, side)) && AllOut(s, side, At(s, side).transfers)
    ensures AllOut(Next(s, st), side, At(Next(s, st), side).transfers)
  {
    var e, s' := At(s, side), Next(s, st);
    OutStays(s, s', side, e.transfers);
    if st.side == side {
      if Receives(st.action) {
        ReceivingKeepsTransfers(e, s.mtu, st.action);
      } else if st.action.Restart? {
        RebornOut(s', side, e, st.action.epoch);
      } else {
        SendingOut(s, st);
      }
    }
  }

  lemma {:induction false} RunOut(states: seq<System>, steps: seq<Step>, i: nat, side: Side)
    requires Run(states, steps) && i < |states|
    ensures AllOut(states[i], side, At(states[i], side).transfers)
  {
    if i > 0 {
      RunOut(states, steps, i - 1, side);
      RunFits(states, steps, i - 1);
      assert SideFits(states[i - 1], side) && StepAt(states, steps, i - 1);
      StepOut(states[i - 1], steps[i - 1], side);
    }
  }

  /** The frames of a Send that returned nil are all on the wire, under the epoch it ran in. */
  lemma {:induction false} SucceededOnWire(states: seq<System>, steps: seq<Step>, i: nat, side: Side, id: U64)
    requires Run(states, steps) && i < |states| && id in Succeeded(At(states[i], side).transfers)
    ensures var s, t := states[i], At(states[i], side).transfers[id];
            s.mtu > HEADER_SIZE && Sendable(t.payload, s.mtu) &&
            OnWire(s, side, id, t.payload, t.epoch, 0, FrameCount(t.payload, s.mtu))
  {
    RunOut(states, steps, i, side);
    assert IsOut(states[i], side, id, At(states[i], side).transfers[id]);
  }
}
