/** The retransmission schedule: how often a transfer has handed each of its frames to the socket. */
module MuxTransmit {
  import opened Bytes
  import opened MuxFrame
  import opened Mux
  import opened MuxRun
  import opened MuxEpoch
  import opened MuxAnswers

  /** Step i of the run hands this frame to the socket of this side. */
  ghost predicate Hands(states: seq<System>, steps: seq<Step>, i: nat, side: Side, f: Frame)
    requires Run(states, steps) && i < |steps|
  {
    assert StepAt(states, steps, i);
    steps[i].side == side && Handed(states[i], steps[i]) == Some(f)
  }

  /** How many of the first i steps do. */
  ghost function TimesHanded(states: seq<System>, steps: seq<Step>, i: nat, side: Side, f: Frame): nat
    requires Run(states, steps) && i <= |steps|
  {
    if i == 0 then 0
    else TimesHanded(states, steps, i - 1, side, f) + if Hands(states, steps, i - 1, side, f) then 1 else 0
  }

  /** The transfer has not ended between two of its writes. */
  predicate Whole(t: Transfer) {
    t.stage.Returned? ==> t.stage.result in {Acked, TimedOut, ConnClosed, Cancelled}
  }

  /** What the schedule asks for: every attempt hands over every frame once, in order. */
  function Tries(t: Transfer, n: nat): nat {
    t.attempt + if t.stage.Writing? && n >= t.stage.next then 0 else 1
  }

  function FrameOfTransfer(t: Transfer, mtu: nat, id: U64, n: nat): Frame
    requires mtu > HEADER_SIZE && Sendable(t.payload, mtu) && n < FrameCount(t.payload, mtu)
  {
    FrameOf(t.payload, mtu, id, t.epoch, n)
  }

  /** Only writing the transfer hands over one of its frames: the next. */
  lemma {:induction false} HandedIs(e: Endpoint, mtu: nat, a: Action, id: U64, n: nat, p: Payload, epoch: Byte)
    requires mtu > HEADER_SIZE && Bounds(e) && Enabled(e, mtu, a) && Running(e)
    requires Sendable(p, mtu) && n < FrameCount(p, mtu)
    requires id in e.transfers ==> e.transfers[id].payload == p && e.transfers[id].epoch == epoch
    ensures Act(e, mtu, a).written == Some(FrameOf(p, mtu, id, epoch, n)) <==>
            a == Write(id) && id in e.transfers && e.transfers[id].stage == Writing(n)
  {
    if Receives(a) {
      ReceivingWritesAnswers(e, mtu, a);
    } else if a.Write? {
      WrittenIs(e, mtu, a.id);
      if a.id == id {
        FramesDiffer(p, mtu, id, epoch, e.transfers[id].stage.next, n);
      }
    }
  }

  lemma {:induction false} ReceivingWritesAnswers(e: Endpoint, mtu: nat, a: Action)
    requires mtu > HEADER_SIZE && Bounds(e) && Enabled(e, mtu, a) && Receives(a)
    ensures Act(e, mtu, a).written.Some? ==> Act(e, mtu, a).written.value.kind in {ACK, PONG}
  {
  }

  lemma {:induction false} WrittenIs(e: Endpoint, mtu: nat, id: U64)
    requires mtu > HEADER_SIZE && Bounds(e) && Enabled(e, mtu, Write(id)) && Running(e)
    ensures var t := e.transfers[id];
            Act(e, mtu, Write(id)).written == Some(FrameOf(t.payload, mtu, id, t.epoch, t.stage.next))
  {
    assert RunsUnder(e.transfers[id], e.epoch);
  }

  lemma {:induction false} FramesDiffer(p: Payload, mtu: nat, id: U64, epoch: Byte, m: nat, n: nat)
    requires mtu > HEADER_SIZE && Sendable(p, mtu) && m < FrameCount(p, mtu) && n < FrameCount(p, mtu)
    ensures FrameOf(p, mtu, id, epoch, m) == FrameOf(p, mtu, id, epoch, n) <==> m == n
  {
  }

  // ----- one action

  predicate Scheduled(t: Transfer) {
    t.attempt <= 4 && (t.stage == Returned(TimedOut) ==> t.attempt == 4)
  }

  lemma {:induction false} TriesStep(e: Endpoint, mtu: nat, a: Action, id: U64, n: nat)
    requires mtu > HEADER_SIZE && Bounds(e) && Enabled(e, mtu, a) && !Receives(a) && id in e.transfers
    requires Sendable(e.transfers[id].payload, mtu) && n < FrameCount(e.transfers[id].payload, mtu)
    ensures id in Act(e, mtu, a).next.transfers
    ensures var t, t' := e.transfers[id], Act(e, mtu, a).next.transfers[id];
            && (Whole(t') ==> Whole(t) &&
                              Tries(t', n) == Tries(t, n) + if a == Write(id) && t.stage == Writing(n) then 1 else 0)
            && (Scheduled(t) ==> Scheduled(t'))
  {
  }

  lemma {:induction false} NewTries(e: Endpoint, mtu: nat, a: Action, id: U64)
    requires mtu > HEADER_SIZE && Bounds(e) && Enabled(e, mtu, a) && id !in e.transfers
    ensures var t := Act(e, mtu, a).next.transfers;
            id in t ==> Whole(t[id]) && Scheduled(t[id]) && t[id].attempt == 0 && t[id].stage == Writing(0)
  {
    if Receives(a) {
      ReceivingKeepsTransfers(e, mtu, a);
    }
  }

  // ----- every run

  /** What a run knows of the side that acts. */
  lemma {:induction false} SideKnown(states: seq<System>, steps: seq<Step>, i: nat, side: Side)
    requires Run(states, steps) && i < |states|
    ensures var s := states[i];
            && s.mtu > HEADER_SIZE && Bounds(At(s, side)) && Running(At(s, side))
            && TransfersOk(At(s, side).transfers, s.mtu, At(s, Other(side)).log)
  {
    RunKeeps(states, steps, i);
    RunFits(states, steps, i);
    assert SideOk(states[i], side) && SideFits(states[i], side);
  }

  lemma {:induction false} SameMtu(states: seq<System>, steps: seq<Step>, i: nat)
    requires Run(states, steps) && i < |states|
    ensures states[i].mtu == states[0].mtu > HEADER_SIZE
  {
    if i > 0 {
      SameMtu(states, steps, i - 1);
      assert StepAt(states, steps, i - 1);
    }
  }

  /** The step writes frame n of this transfer. */
  predicate WritesNext(s: System, st: Step, side: Side, id: U64, n: nat) {
    st == Step(side, Write(id)) && id in At(s, side).transfers && At(s, side).transfers[id].stage == Writing(n)
  }

  /** A frame of the transfer is handed over by the step that writes it and by no other. */
  lemma {:induction false} StepHands(states: seq<System>, steps: seq<Step>, i: nat, side: Side, id: U64, n: nat,
                                     p: Payload, epoch: Byte)
    requires Run(states, steps) && i < |steps|
    requires states[i].mtu > HEADER_SIZE && Sendable(p, states[i].mtu) && n < FrameCount(p, states[i].mtu)
    requires var own := At(states[i], side).transfers; id in own ==> own[id].payload == p && own[id].epoch == epoch
    ensures Hands(states, steps, i, side, FrameOf(p, states[i].mtu, id, epoch, n)) <==>
            WritesNext(states[i], steps[i], side, id, n)
  {
    assert StepAt(states, steps, i);
    SideKnown(states, steps, i, side);
    if steps[i].side == side {
      HandedIs(At(states[i], side), states[i].mtu, steps[i].action, id, n, p, epoch);
    }
  }

  /** A transfer that has not begun has handed over nothing. */
  lemma {:induction false} NothingBefore(states: seq<System>, steps: seq<Step>, i: nat, side: Side, id: U64, n: nat,
                                         p: Payload, epoch: Byte)
    requires Run(states, steps) && i <= |steps| && id !in At(states[i], side).transfers
    requires states[i].mtu > HEADER_SIZE && Sendable(p, states[i].mtu) && n < FrameCount(p, states[i].mtu)
    ensures TimesHanded(states, steps, i, side, FrameOf(p, states[i].mtu, id, epoch, n)) == 0
  {
    if i > 0 {
      SameMtu(states, steps, i - 1);
      SameMtu(states, steps, i);
      if id in At(states[i - 1], side).transfers {
        TransfersPersist(states, steps, i - 1, i, side, id);
      }
      assert states[i - 1].mtu == states[i].mtu && id !in At(states[i - 1], side).transfers;
      NothingBefore(states, steps, i - 1, side, id, n, p, epoch);
      StepHands(states, steps, i - 1, side, id, n, p, epoch);
    }
  }

  /** The transfer after one more step. */
  lemma {:induction false} StepTries(states: seq<System>, steps: seq<Step>, i: nat, side: Side, id: U64, n: nat)
    requires Run(states, steps) && i < |steps| && id in At(states[i], side).transfers
    requires states[i].mtu > HEADER_SIZE && Sendable(At(states[i], side).transfers[id].payload, states[i].mtu)
    requires n < FrameCount(At(states[i], side).transfers[id].payload, states[i].mtu)
    ensures id in At(states[i + 1], side).transfers
    ensures var t, t' := At(states[i], side).transfers[id], At(states[i + 1], side).transfers[id];
            && SameTransfer(t, t') && (Scheduled(t) ==> Scheduled(t'))
            && (Whole(t') ==>
                  Whole(t) && Tries(t', n) == Tries(t, n) +
                    if Hands(states, steps, i, side, FrameOfTransfer(t, states[i].mtu, id, n)) then 1 else 0)
  {
    assert StepAt(states, steps, i);
    var t := At(states[i], side).transfers[id];
    StepHands(states, steps, i, side, id, n, t.payload, t.epoch);
    NextTries(states[i], steps[i], side, id, n);
  }

  lemma {:induction false} NextTries(s: System, st: Step, side: Side, id: U64, n: nat)
    requires CanStep(s, st) && id in At(s, side).transfers && Sendable(At(s, side).transfers[id].payload, s.mtu)
    requires n < FrameCount(At(s, side).transfers[id].payload, s.mtu)
    ensures id in At(Next(s, st), side).transfers
    ensures var t, t' := At(s, side).transfers[id], At(Next(s, st), side).transfers[id];
            && SameTransfer(t, t') && (Scheduled(t) ==> Scheduled(t'))
            && (Whole(t') ==> Whole(t) && Tries(t', n) == Tries(t, n) + if WritesNext(s, st, side, id, n) then 1 else 0)
  {
    if st.side == side {
      ActAdvances(At(s, side), s.mtu, st.action);
      assert GoesOn(At(s, side).transfers[id], At(Next(s, st), side).transfers[id]);
      if Receives(st.action) {
        ReceivingKeepsTransfers(At(s, side), s.mtu, st.action);
      } else {
        TriesStep(At(s, side), s.mtu, st.action, id, n);
      }
    }
  }

  /** In every run a Send or ping has handed over each of its frames exactly as often as its schedule says. */
  lemma {:induction false} TriesExactly(states: seq<System>, steps: seq<Step>, i: nat, side: Side, id: U64, n: nat)
    requires Run(states, steps) && i < |states| && id in At(states[i], side).transfers
    requires states[i].mtu > HEADER_SIZE && Sendable(At(states[i], side).transfers[id].payload, states[i].mtu)
    requires n < FrameCount(At(states[i], side).transfers[id].payload, states[i].mtu)
    ensures var t := At(states[i], side).transfers[id];
            && Scheduled(t)
            && (Whole(t) ==>
                  TimesHanded(states, steps, i, side, FrameOfTransfer(t, states[i].mtu, id, n)) == Tries(t, n))
    decreases i
  {
    if i > 0 {
      SameMtu(states, steps, i - 1);
      SameMtu(states, steps, i);
      if id in At(states[i - 1], side).transfers {
        PayloadStays(states, steps, i - 1, side, id);
        TriesExactly(states, steps, i - 1, side, id, n);
        StepTries(states, steps, i - 1, side, id, n);
      } else {
        TriesAtStart(states, steps, i - 1, side, id, n);
      }
    }
  }

  lemma {:induction false} PayloadStays(states: seq<System>, steps: seq<Step>, i: nat, side: Side, id: U64)
    requires Run(states, steps) && i < |steps| && id in At(states[i], side).transfers
    ensures id in At(states[i + 1], side).transfers
    ensures SameTransfer(At(states[i], side).transfers[id], At(states[i + 1], side).transfers[id])
  {
    TransfersPersist(states, steps, i, i + 1, side, id);
  }

  lemma {:induction false} TriesAtStart(states: seq<System>, steps: seq<Step>, i: nat, side: Side, id: U64, n: nat)
    requires Run(states, steps) && i < |steps|
    requires id !in At(states[i], side).transfers && id in At(states[i + 1], side).transfers
    requires states[i + 1].mtu > HEADER_SIZE
    requires Sendable(At(states[i + 1], side).transfers[id].payload, states[i + 1].mtu)
    requires n < FrameCount(At(states[i + 1], side).transfers[id].payload, states[i + 1].mtu)
    ensures var t := At(states[i + 1], side).transfers[id];
            && Scheduled(t) && Tries(t, n) == 0
            && TimesHanded(states, steps, i + 1, side, FrameOfTransfer(t, states[i + 1].mtu, id, n)) == 0
  {
    var t := At(states[i + 1], side).transfers[id];
    SameMtu(states, steps, i);
    SameMtu(states, steps, i + 1);
    BeginsWith(states, steps, i, side, id);
    NothingBefore(states, steps, i, side, id, n, t.payload, t.epoch);
    StepHands(states, steps, i, side, id, n, t.payload, t.epoch);
  }

  lemma {:induction false} BeginsWith(states: seq<System>, steps: seq<Step>, i: nat, side: Side, id: U64)
    requires Run(states, steps) && i < |steps| && id !in At(states[i], side).transfers
    requires id in At(states[i + 1], side).transfers
    ensures var t := At(states[i + 1], side).transfers[id];
            Whole(t) && Scheduled(t) && t.attempt == 0 && t.stage == Writing(0)
  {
    assert StepAt(states, steps, i);
    NewTries(At(states[i], side), states[i].mtu, steps[i].action, id);
  }

  /** A Send or ping times out only after handing over every frame five times. */
  lemma {:induction false} TimedOutAfterFive(states: seq<System>, steps: seq<Step>, i: nat, side: Side, id: U64, n: nat)
    requires Run(states, steps) && i < |states| && id in At(states[i], side).transfers
    requires At(states[i], side).transfers[id].stage == Returned(TimedOut)
    requires states[i].mtu > HEADER_SIZE && Sendable(At(states[i], side).transfers[id].payload, states[i].mtu)
    requires n < FrameCount(At(states[i], side).transfers[id].payload, states[i].mtu)
    ensures TimesHanded(states, steps, i, side,
                        FrameOfTransfer(At(states[i], side).transfers[id], states[i].mtu, id, n)) == 5
  {
    TriesExactly(states, steps, i, side, id, n);
  }
}
