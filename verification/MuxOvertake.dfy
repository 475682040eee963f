/** When a connection is sure to be given successive Sends in order, and when it can be given them inverted. */
module MuxOvertake {
  import opened Bytes
  import opened MuxFrame
  import opened Mux
  import opened MuxRun
  import opened MuxOrder
  import opened MuxEpoch
  import opened MuxDelivery

  const PROBE_ID: U64 := 1
  const ID: U64 := 2
  const LATER_ID: U64 := 3

  // ----- a new message on the sender's current connection

  function AfterDial(e: Endpoint, id: U64): Endpoint
    requires Bounds(e)
  {
    Begin(Connect(e), Connect(e).current.value, id, Probe)
  }

  lemma {:induction false} DialActs(s: System, side: Side, id: U64)
    requires s.mtu > HEADER_SIZE && Bounds(At(s, side)) && id != 0 && id !in At(s, side).transfers
    ensures var st := Step(side, Dial(id));
            CanStep(s, st) && Next(s, st) == Put(s, side, AfterDial(At(s, side), id))
  {
    Acts(s, side, Dial(id), Acted(AfterDial(At(s, side), id), None));
  }

  lemma {:induction false} DialGives(e: Endpoint, id: U64)
    requires Bounds(e)
    ensures var e' := AfterDial(e, id);
            && Bounds(e') && e'.current.Some? && e'.current.value < |e'.conns| && e'.epoch == e.epoch
            && e'.reading == e.reading && e'.transfers.Keys == e.transfers.Keys + {id}
            && (forall x :: x in e.transfers && x != id ==> e'.transfers[x] == e.transfers[x])
  {
    var k := if e.current.Some? then e.current.value else |e.conns|;
    ConnAtRing(e, k);
    ConnectGives(e, k, ConnAt(e, k));
    BeginBounds(Connect(e), k, id, Probe);
  }

  /** The sender dials and a new message is sent and delivered where its frames are routed to. */
  lemma {:induction false} NewlyDelivered(states: seq<System>, steps: seq<Step>, s: System, side: Side, probe: U64,
                                          id: U64, msg: seq<Byte>)
    returns (states': seq<System>, steps': seq<Step>, s': System)
    requires Reaches(states, steps, s) && s.mtu > HEADER_SIZE && At(s, Other(side)).reading.None?
    requires probe != 0 && id != 0 && probe != id && probe !in At(s, side).transfers && id !in At(s, side).transfers
    requires Sendable(Message(msg), s.mtu)
    ensures Reaches(states', steps', s') && Continues(states, steps, states', steps')
    ensures s'.mtu == s.mtu && s.net <= s'.net
    ensures forall x :: x in At(s, side).transfers ==>
                          x in At(s', side).transfers && At(s', side).transfers[x] == At(s, side).transfers[x]
    ensures var e, epoch := At(s, Other(side)), At(s, side).epoch;
            Given(e, At(s', Other(side)), Target(e, epoch), id, msg, epoch)
  {
    RunBounds(states, steps, s, side);
    DialGives(At(s, side), probe);
    DialActs(s, side, probe);
    states', steps', s' := Extend(states, steps, s, Step(side, Dial(probe)));
    var c := At(s', side).current.value;
    states', steps', s' := SentAndDelivered(states', steps', s', side, c, id, msg);
  }

  // ----- when order on a connection is sure

  ghost predicate InContinuation(states: seq<System>, steps: seq<Step>, states': seq<System>, steps': seq<Step>,
                                 side: Side, second: U64, k: nat, b: nat)
  {
    && Run(states', steps') && Continues(states, steps, states', steps')
    && k < |At(states'[|steps'|], Other(side)).conns| && b < |History(states'[|steps'|], Other(side), k)|
    && History(states'[|steps'|], Other(side), k)[b].id == second
  }

  /** Wherever connection k is given the second message, in any continuation, it was given the first before. */
  ghost predicate SureOrder(states: seq<System>, steps: seq<Step>, side: Side, first: U64, second: U64, k: nat) {
    forall states', steps', b: nat ::
      InContinuation(states, steps, states', steps', side, second, k, b) ==>
        Mentions(History(states'[|steps'|], Other(side), k)[..b], first)
  }

  /** The receiver's read loop is idle and connection k is its current one. */
  predicate Listens(s: System, side: Side, k: nat) {
    var e := At(s, Other(side));
    e.reading.None? && e.current == Some(k) && k < |e.conns|
  }

  predicate EpochAdmits(c: Conn, epoch: Byte) {
    c.remoteEpoch == 0 || c.remoteEpoch == epoch
  }

  predicate Unused(e: Endpoint, probe: U64, second: U64) {
    probe != 0 && second != 0 && probe != second && probe !in e.transfers && second !in e.transfers
  }

  /**
   Order on the connection the sender's frames go to is sure exactly when that connection has been
   given the first.
   */
  lemma {:induction false} SureOrderIff(states: seq<System>, steps: seq<Step>, s: System, side: Side, first: U64,
                                        second: U64, k: nat, probe: U64)
    requires Reaches(states, steps, s) && Listens(s, side, k)
    requires EpochAdmits(At(s, Other(side)).conns[k], At(s, side).epoch)
    requires first in Succeeded(At(s, side).transfers) && Unused(At(s, side), probe, second)
    ensures SureOrder(states, steps, side, first, second, k) <==> Mentions(History(s, Other(side), k), first)
  {
    var h := History(s, Other(side), k);
    if Mentions(h, first) {
      forall states', steps', b: nat | InContinuation(states, steps, states', steps', side, second, k, b)
        ensures Mentions(History(states'[|steps'|], Other(side), k)[..b], first)
      {
        assert states'[|steps|] == s;
        StaysInOrder(states', steps', |steps|, |steps'|, side, first, second, k, b);
      }
    } else {
      RunBounds(states, steps, s, side);
      var states', steps', s' := NewlyDelivered(states, steps, s, side, probe, second, []);
      assert InContinuation(states, steps, states', steps', side, second, k, |h|);
      assert History(s', Other(side), k)[..|h|] == h;
    }
  }

  // ----- when a connection can be given the two inverted

  ghost predicate Inverted(h: seq<Delivery>, first: U64, second: U64) {
    exists b, a :: 0 <= b < a < |h| && h[b].id == second && h[a].id == first && !Mentions(h[..b], first)
  }

  /** Some continuation gives connection k the second and then the first, which it had not been given. */
  ghost predicate CanInvert(states: seq<System>, steps: seq<Step>, side: Side, first: U64, second: U64, k: nat) {
    exists states', steps' :: InvertsIn(states, steps, states', steps', side, first, second, k)
  }

  ghost predicate InvertsIn(states: seq<System>, steps: seq<Step>, states': seq<System>, steps': seq<Step>,
                            side: Side, first: U64, second: U64, k: nat)
  {
    && Run(states', steps') && Continues(states, steps, states', steps')
    && k < |At(states'[|steps'|], Other(side)).conns|
    && Inverted(History(states'[|steps'|], Other(side), k), first, second)
  }

  lemma {:induction false} NoInversion(states: seq<System>, steps: seq<Step>, s: System, side: Side, first: U64,
                                       second: U64, k: nat, states': seq<System>, steps': seq<Step>)
    requires Reaches(states, steps, s) && k < |At(s, Other(side)).conns|
    requires first in Succeeded(At(s, side).transfers) && second !in At(s, side).transfers
    requires InvertsIn(states, steps, states', steps', side, first, second, k)
    ensures !Mentions(History(s, Other(side), k), first)
    ensures EpochAdmits(At(s, Other(side)).conns[k], At(s, side).transfers[first].epoch)
  {
    var n, r := |steps'|, Other(side);
    var h := History(states'[n], r, k);
    assert states'[|steps|] == s;
    var b, a :| 0 <= b < a < |h| && h[b].id == second && h[a].id == first && !Mentions(h[..b], first);
    if Mentions(History(s, r, k), first) {
      StaysInOrder(states', steps', |steps|, n, side, first, second, k, b);
    }
    TransfersPersist(states', steps', |steps|, n, side, first);
    GivenUnderEpoch(states', steps', n, side, k, a);
    if At(s, r).conns[k].remoteEpoch != 0 {
      EpochsAreFinal(states', steps', |steps|, n, r, k);
    }
  }

  lemma {:induction false} RestartActs(s: System, side: Side, epoch: Byte)
    requires s.mtu > HEADER_SIZE && Bounds(At(s, side)) && epoch != 0
    ensures var st := Step(side, Restart(epoch));
            CanStep(s, st) && Next(s, st) == Put(s, side, Reborn(At(s, side), epoch))
  {
    Acts(s, side, Restart(epoch), Acted(Reborn(At(s, side), epoch), None));
  }

  lemma {:induction false} RebornKeepsReturned(e: Endpoint, epoch: Byte, id: U64)
    requires id in Succeeded(e.transfers)
    ensures Reborn(e, epoch).transfers[id] == e.transfers[id] && Reborn(e, epoch).transfers.Keys == e.transfers.Keys
  {
  }

  /** A late copy of a Send that returned nil is delivered on the connection its frames are routed to. */
  lemma {:induction false} LateCopy(states: seq<System>, steps: seq<Step>, s: System, side: Side, first: U64,
                                    msg: seq<Byte>)
    returns (states': seq<System>, steps': seq<Step>, s': System)
    requires Reaches(states, steps, s) && first in Succeeded(At(s, side).transfers)
    requires At(s, side).transfers[first].payload == Message(msg) && At(s, Other(side)).reading.None?
    requires var e := At(s, Other(side));
             !Mentions(ConnAt(e, Target(e, At(s, side).transfers[first].epoch)).history, first)
    ensures Reaches(states', steps', s') && Continues(states, steps, states', steps')
    ensures var e, epoch := At(s, Other(side)), At(s, side).transfers[first].epoch;
            Given(e, At(s', Other(side)), Target(e, epoch), first, msg, epoch)
  {
    var epoch := At(s, side).transfers[first].epoch;
    RunBounds(states, steps, s, side);
    assert TransferOk(first, At(s, side).transfers[first], s.mtu, At(s, Other(side)).log);
    SucceededOnWire(states, steps, |steps|, side, first);
    IsDeliverable(states, steps, s, side, first, msg, epoch);
    states', steps', s' := Delivered(states, steps, s, side, first, msg, epoch, 0);
  }

  lemma {:induction false} TwoGiven(h: seq<Delivery>, x: Delivery, y: Delivery)
    requires !Mentions(h, y.id) && x.id != y.id
    ensures Inverted(h + [x] + [y], y.id, x.id) && !Mentions(h + [x], y.id)
  {
    var all := h + [x] + [y];
    assert all[..|h|] == h && all[|h|] == x && all[|h| + 1] == y;
  }

  /** The sender restarts under the epoch of a Send that returned nil; nothing else changes. */
  lemma {:induction false} RestartUnderEpoch(states: seq<System>, steps: seq<Step>, s: System, side: Side, first: U64)
    returns (states': seq<System>, steps': seq<Step>, s': System)
    requires Reaches(states, steps, s) && first in Succeeded(At(s, side).transfers)
    ensures Reaches(states', steps', s') && Continues(states, steps, states', steps')
    ensures s'.mtu > HEADER_SIZE && At(s', Other(side)) == At(s, Other(side))
    ensures At(s', side).epoch == At(s, side).transfers[first].epoch
    ensures At(s', side).transfers.Keys == At(s, side).transfers.Keys
    ensures first in Succeeded(At(s', side).transfers) && At(s', side).transfers[first] == At(s, side).transfers[first]
  {
    var t := At(s, side).transfers[first];
    RunBounds(states, steps, s, side);
    RunFits(states, steps, |steps|);
    assert SideFits(s, side) && RunsUnder(t, At(s, side).epoch);
    RestartActs(s, side, t.epoch);
    RebornKeepsReturned(At(s, side), t.epoch, first);
    states', steps', s' := Extend(states, steps, s, Step(side, Restart(t.epoch)));
  }

  /** The sender restarts under the epoch of the first and its next message is given to connection k. */
  lemma {:induction false} SecondFirst(states: seq<System>, steps: seq<Step>, s: System, side: Side, first: U64,
                                       second: U64, k: nat, probe: U64)
    returns (states': seq<System>, steps': seq<Step>, s': System)
    requires Reaches(states, steps, s) && Listens(s, side, k) && Unused(At(s, side), probe, second)
    requires first in Succeeded(At(s, side).transfers)
    requires EpochAdmits(At(s, Other(side)).conns[k], At(s, side).transfers[first].epoch)
    ensures Reaches(states', steps', s') && Continues(states, steps, states', steps') && Listens(s', side, k)
    ensures first in Succeeded(At(s', side).transfers)
    ensures At(s', side).transfers[first] == At(s, side).transfers[first]
    ensures Target(At(s', Other(side)), At(s, side).transfers[first].epoch) == k
    ensures History(s', Other(side), k) == History(s, Other(side), k) + [Delivery(k, second, [])]
  {
    states', steps', s' := RestartUnderEpoch(states, steps, s, side, first);
    states', steps', s' := NewlyDelivered(states', steps', s', side, probe, second, []);
  }

  /** The sender restarts under the epoch of the first, sends the second, and a copy of the first comes late. */
  lemma {:induction false} Inverts(states: seq<System>, steps: seq<Step>, s: System, side: Side, first: U64,
                                   second: U64, k: nat, probe: U64)
    requires Reaches(states, steps, s) && Listens(s, side, k) && Unused(At(s, side), probe, second)
    requires first in Succeeded(At(s, side).transfers) && !Mentions(History(s, Other(side), k), first)
    requires EpochAdmits(At(s, Other(side)).conns[k], At(s, side).transfers[first].epoch)
    ensures CanInvert(states, steps, side, first, second, k)
  {
    var r, t := Other(side), At(s, side).transfers[first];
    var states', steps', s' := SecondFirst(states, steps, s, side, first, second, k, probe);
    var h, x, y := History(s, r, k), Delivery(k, second, []), Delivery(k, first, t.payload.msg);
    TwoGiven(h, x, y);
    states', steps', s' := LateCopy(states', steps', s', side, first, t.payload.msg);
    assert History(s', r, k) == h + [x] + [y];
    assert InvertsIn(states, steps, states', steps', side, first, second, k);
  }

  /**
   The current connection can be given the second and then the first exactly when it was not given
   the first and has noted no epoch or that of the first.
   */
  lemma {:induction false} CanInvertIff(states: seq<System>, steps: seq<Step>, s: System, side: Side, first: U64,
                                        second: U64, k: nat, probe: U64)
    requires Reaches(states, steps, s) && Listens(s, side, k) && Unused(At(s, side), probe, second)
    requires first in Succeeded(At(s, side).transfers)
    ensures CanInvert(states, steps, side, first, second, k) <==>
            !Mentions(History(s, Other(side), k), first) &&
            EpochAdmits(At(s, Other(side)).conns[k], At(s, side).transfers[first].epoch)
  {
    if CanInvert(states, steps, side, first, second, k) {
      var states', steps' :| InvertsIn(states, steps, states', steps', side, first, second, k);
      NoInversion(states, steps, s, side, first, second, k, states', steps');
    } else if !Mentions(History(s, Other(side), k), first) &&
              EpochAdmits(At(s, Other(side)).conns[k], At(s, side).transfers[first].epoch) {
      Inverts(states, steps, s, side, first, second, k, probe);
    }
  }

  // ----- a run without restarts

  lemma {:induction false} CloseActs(s: System, side: Side, k: nat)
    requires s.mtu > HEADER_SIZE && Bounds(At(s, side)) && k < |At(s, side).conns|
    ensures var st := Step(side, Close(k));
            CanStep(s, st) && Next(s, st) == Put(s, side, CloseConn(At(s, side), k))
  {
    Acts(s, side, Close(k), Acted(CloseConn(At(s, side), k), None));
  }

  /** The first is sent, delivered on connection 0 and acknowledged. */
  lemma {:induction false} FirstArrives(s: System, msg: seq<Byte>)
    returns (states: seq<System>, steps: seq<Step>, s': System)
    requires Init(s) && Sendable(Message(msg), s.mtu)
    ensures Reaches(states, steps, s') && s'.mtu == s.mtu && ID in Succeeded(s'.left.transfers)
    ensures s'.left.transfers[ID].payload == Message(msg) && s'.left.transfers.Keys == {PROBE_ID, ID}
    ensures s'.left.transfers[ID].epoch == s'.left.epoch
    ensures Bounds(s'.right) && s'.right.reading.None? && |s'.right.conns| == 1 && s'.right.current == Some(0)
  {
    DialGives(s.left, PROBE_ID);
    DialActs(s, Left, PROBE_ID);
    states, steps, s' := Extend([s], [], s, Step(Left, Dial(PROBE_ID)));
    assert Target(s'.left, s'.right.epoch) == 0;
    states, steps, s' := EveryMessageCanArrive(states, steps, s', Left, 0, ID, msg);
  }

  /**
   The first is delivered and acknowledged on connection 0, the receiver closes it, the second opens
   connection 1, and a delayed copy of the first gets past that connection's fresh filter.
   */
  lemma {:induction false} LateCopyOvertakes(s: System, m1: seq<Byte>, m2: seq<Byte>)
    requires Init(s) && Sendable(Message(m1), s.mtu) && Sendable(Message(m2), s.mtu)
    ensures exists states: seq<System>, steps: seq<Step>, g: nat ::
      && Successive(states, steps, g, |steps|, Left, ID, LATER_ID) && |states[|steps|].right.conns| == 2
      && History(states[|steps|], Right, 1) == [Delivery(1, LATER_ID, m2), Delivery(1, ID, m1)]
  {
    var states, steps, s' := FirstArrives(s, m1);
    var g, early := |steps|, s';
    CloseActs(s', Right, 0);
    states, steps, s' := Extend(states, steps, s', Step(Right, Close(0)));
    assert Target(s'.right, s'.left.epoch) == 1 && ConnAt(s'.right, 1).history == [];
    states, steps, s' := NewlyDelivered(states, steps, s', Left, 4, LATER_ID, m2);
    states, steps, s' := LateCopy(states, steps, s', Left, ID, m1);
    assert states[g] == early;
    assert Successive(states, steps, g, |steps|, Left, ID, LATER_ID);
  }
}
