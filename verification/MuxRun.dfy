/** Every run of two mux endpoints, and what holds in each state of it. */
module MuxRun {
  import opened Bytes
  import opened MuxFrame
  import opened Dedupe
  import opened MuxConn
  import opened Mux

  datatype Side = Left | Right

  datatype Packet = Packet(from: Side, bytes: seq<Byte>)

  datatype System = System(mtu: nat, left: Endpoint, right: Endpoint, net: set<Packet>)

  datatype Step = Step(side: Side, action: Action)

  function Other(side: Side): Side {
    if side.Left? then Right else Left
  }

  function At(s: System, side: Side): Endpoint {
    if side.Left? then s.left else s.right
  }

  function Put(s: System, side: Side, e: Endpoint): System {
    if side.Left? then s.(left := e) else s.(right := e)
  }

  function Wrote(s: System, side: Side, e: Endpoint, written: Option<Frame>): System {
    var s' := Put(s, side, e);
    if written.None? then s' else s'.(net := s.net + {Packet(side, Serialize(written.value))})
  }

  predicate Fresh(e: Endpoint) {
    e.epoch != 0 && e == Endpoint(e.epoch, [], None, map[], None, [])
  }

  predicate Init(s: System) {
    s.mtu > HEADER_SIZE && Fresh(s.left) && Fresh(s.right) && s.net == {}
  }

  /** The read loop may be handed any datagram the other side ever wrote. */
  ghost predicate CanStep(s: System, st: Step) {
    && s.mtu > HEADER_SIZE
    && Bounds(At(s, st.side))
    && Enabled(At(s, st.side), s.mtu, st.action)
    && (st.action.Demux? ==> Packet(Other(st.side), st.action.datagram) in s.net)
  }

  ghost function Next(s: System, st: Step): System
    requires CanStep(s, st)
  {
    var r := Act(At(s, st.side), s.mtu, st.action);
    Wrote(s, st.side, r.next, r.written)
  }

  ghost predicate Run(states: seq<System>, steps: seq<Step>) {
    && |states| == |steps| + 1
    && Init(states[0])
    && forall i :: 0 <= i < |steps| ==> StepAt(states, steps, i)
  }

  /** Step i leads from state i to the next. */
  ghost predicate StepAt(states: seq<System>, steps: seq<Step>, i: nat)
    requires |states| == |steps| + 1 && i < |steps|
  {
    CanStep(states[i], steps[i]) && states[i + 1] == Next(states[i], steps[i])
  }

  /** The run ends in s. */
  ghost predicate Reaches(states: seq<System>, steps: seq<Step>, s: System) {
    Run(states, steps) && states[|steps|] == s
  }

  /** A step, in terms of what the action makes of its endpoint. */
  lemma {:induction false} Acts(s: System, side: Side, a: Action, r: Acted)
    requires s.mtu > HEADER_SIZE && Bounds(At(s, side)) && Enabled(At(s, side), s.mtu, a)
    requires a.Demux? ==> Packet(Other(side), a.datagram) in s.net
    requires r == Act(At(s, side), s.mtu, a)
    ensures CanStep(s, Step(side, a)) && Next(s, Step(side, a)) == Wrote(s, side, r.next, r.written)
  {
  }

  /** One more step of a run. */
  lemma {:induction false} Extend(states: seq<System>, steps: seq<Step>, s: System, st: Step)
    returns (states': seq<System>, steps': seq<Step>, s': System)
    requires Reaches(states, steps, s) && CanStep(s, st)
    ensures s' == Next(s, st) && Reaches(states', steps', s')
    ensures states' == states + [s'] && steps' == steps + [st]
  {
    s' := Next(s, st);
    states', steps' := states + [s'], steps + [st];
    forall i | 0 <= i < |steps'|
      ensures StepAt(states', steps', i)
    {
      assert i < |steps| ==> StepAt(states, steps, i);
    }
  }

  ghost predicate NetOk(s: System)
    requires s.mtu > HEADER_SIZE
  {
    forall p :: p in s.net ==>
      && |p.bytes| <= s.mtu
      && Parse(p.bytes).Some?
      && Honest(Parse(p.bytes).value, s.mtu, At(s, p.from).transfers, At(s, p.from).log,
                At(s, Other(p.from)).transfers)
  }

  ghost predicate SideOk(s: System, side: Side)
    requires s.mtu > HEADER_SIZE
  {
    EndOk(At(s, side), s.mtu, At(s, Other(side)).transfers, At(s, Other(side)).log)
  }

  ghost predicate Inv(s: System) {
    s.mtu > HEADER_SIZE && SideOk(s, Left) && SideOk(s, Right) && NetOk(s)
  }

  /** Frames lo to hi of a payload are on the wire. */
  ghost predicate OnWire(s: System, side: Side, id: U64, p: Payload, epoch: Byte, lo: nat, hi: nat)
    requires s.mtu > HEADER_SIZE && Sendable(p, s.mtu) && hi <= FrameCount(p, s.mtu)
  {
    forall i :: lo <= i < hi ==> Packet(side, Serialize(FrameOf(p, s.mtu, id, epoch, i))) in s.net
  }

  lemma {:induction false} OrderExtends(own: Transfers, log: seq<Delivery>, log': seq<Delivery>)
    requires OrderOk(own, log) && log <= log'
    requires forall id :: id in own ==> own[id].before <= Ids(log)
    ensures OrderOk(own, log')
  {
    forall j, b | 0 <= j < |log'| && log'[j].id in own && b in own[log'[j].id].before
      ensures b in Ids(log'[..j])
    {
      if j < |log| {
        assert log'[j] == log[j] && log'[..j] == log[..j];
      } else {
        IdsGrow(log, log'[..j]);
      }
    }
  }

  lemma {:induction false} NetKeeps(s: System, side: Side, e: Endpoint, written: Option<Frame>)
    requires s.mtu > HEADER_SIZE && NetOk(s)
    requires Extends(At(s, side).transfers, e.transfers) && At(s, side).log <= e.log
    requires written.Some? ==>
               |written.value.body| <= s.mtu - HEADER_SIZE &&
               Honest(written.value, s.mtu, e.transfers, e.log, At(s, Other(side)).transfers)
    ensures NetOk(Wrote(s, side, e, written))
  {
    var s' := Wrote(s, side, e, written);
    if written.Some? {
      ParseSerialize(written.value);
    }
    forall q | q in s'.net
      ensures |q.bytes| <= s.mtu && Parse(q.bytes).Some?
      ensures Honest(Parse(q.bytes).value, s.mtu, At(s', q.from).transfers, At(s', q.from).log,
                     At(s', Other(q.from)).transfers)
    {
      if q in s.net {
        HonestGrows(Parse(q.bytes).value, s.mtu, At(s, q.from).transfers, At(s, q.from).log,
                    At(s, Other(q.from)).transfers,
                    At(s', q.from).transfers, At(s', q.from).log, At(s', Other(q.from)).transfers);
      }
    }
  }

  lemma {:induction false} StepKeeps(s: System, st: Step)
    requires Inv(s) && CanStep(s, st)
    ensures Inv(Next(s, st))
  {
    var e, p := At(s, st.side), At(s, Other(st.side));
    assert SideOk(s, st.side) && SideOk(s, Other(st.side));
    assert EndOk(p, s.mtu, e.transfers, e.log);
    forall id | id in p.transfers
      ensures id != 0 && p.transfers[id].before <= Ids(e.log)
    {
      assert TransferOk(id, p.transfers[id], s.mtu, e.log);
    }
    ActKeeps(e, s.mtu, st.action, p.transfers, p.log);
    var r := Act(e, s.mtu, st.action);
    OrderExtends(p.transfers, e.log, r.next.log);
    PeerKeeps(p, s.mtu, e.transfers, e.log, r.next.transfers, r.next.log);
    NetKeeps(s, st.side, r.next, r.written);
    assert SideOk(Next(s, st), st.side) && SideOk(Next(s, st), Other(st.side));
  }

  lemma {:induction false} RunKeeps(states: seq<System>, steps: seq<Step>, i: nat)
    requires Run(states, steps) && i < |states|
    ensures Inv(states[i])
  {
    if i > 0 {
      RunKeeps(states, steps, i - 1);
      assert StepAt(states, steps, i - 1);
      StepKeeps(states[i - 1], steps[i - 1]);
    }
  }

  // ----- the theorems

  lemma {:induction false} InboxEntry(c: Conn, m: nat) returns (d: Delivery)
    requires InboxOk(c) && m < |c.rx.inbox|
    ensures d in c.history && d.msg == c.rx.inbox[m]
  {
    d := c.history[|c.history| - |c.rx.inbox| + m];
    assert c.rx.inbox[m] == Msgs(c.history)[|c.history| - |c.rx.inbox| + m];
  }

  /** Integrity: every inbox message is byte for byte one the peer gave to Send. */
  lemma {:induction false} InboxIsSent(states: seq<System>, steps: seq<Step>, i: nat, side: Side, k: nat, m: nat)
    requires Run(states, steps) && i < |states|
    requires k < |At(states[i], side).conns| && m < |At(states[i], side).conns[k].rx.inbox|
    ensures exists id :: id in At(states[i], Other(side)).transfers &&
                         At(states[i], Other(side)).transfers[id].payload ==
                         Message(At(states[i], side).conns[k].rx.inbox[m])
  {
    RunKeeps(states, steps, i);
    var s := states[i];
    var e, c := At(s, side), At(s, side).conns[k];
    assert SideOk(s, side);
    assert ConnOk(c, s.mtu, e.transfers, e.log, At(s, Other(side)).transfers, At(s, Other(side)).log);
    var d := InboxEntry(c, m);
    assert d in e.log && d.id in At(s, Other(side)).transfers;
  }

  /** Send returns nil only after that exact message entered an inbox on the other side. */
  lemma {:induction false} AckedIsDelivered(states: seq<System>, steps: seq<Step>, i: nat, side: Side, id: U64)
    requires Run(states, steps) && i < |states|
    requires id in Succeeded(At(states[i], side).transfers)
    ensures exists d :: d in At(states[i], Other(side)).log && d.id == id &&
                        Message(d.msg) == At(states[i], side).transfers[id].payload
  {
    RunKeeps(states, steps, i);
    var s := states[i];
    assert SideOk(s, side) && SideOk(s, Other(side));
    var peerLog := At(s, Other(side)).log;
    assert TransferOk(id, At(s, side).transfers[id], s.mtu, peerLog);
    var d :| d in peerLog && d.id == id;
  }

  /** Any 1025 consecutive deliveries on one connection carry pairwise distinct ids. */
  lemma {:induction false} DeliveriesDistinct(states: seq<System>, steps: seq<Step>, i: nat, side: Side, k: nat,
                                              a: nat, b: nat)
    requires Run(states, steps) && i < |states| && k < |At(states[i], side).conns|
    requires a < b < |At(states[i], side).conns[k].history| && b - a <= 1024
    ensures At(states[i], side).conns[k].history[a].id != At(states[i], side).conns[k].history[b].id
  {
    RunKeeps(states, steps, i);
    var s := states[i];
    var e, c, p := At(s, side), At(s, side).conns[k], At(s, Other(side));
    assert SideOk(s, side);
    assert ConnOk(c, s.mtu, e.transfers, e.log, p.transfers, p.log);
    assert IdSeq(c.history)[a] != IdSeq(c.history)[b];
  }

  /** Old transfers go on, returned ones as they were; a new one remembers every earlier success. */
  ghost predicate Advance(t: Transfers, t': Transfers) {
    && (forall id :: id in t ==> id in t' && GoesOn(t[id], t'[id]))
    && (forall id :: id in t' && id !in t ==> t'[id].before == Succeeded(t))
  }

  predicate GoesOn(t: Transfer, t': Transfer) {
    SameTransfer(t, t') && (t.stage.Returned? ==> t'.stage == t.stage)
  }

  lemma {:induction false} SetAdvances(t: Transfers, id: U64, x: Transfer)
    requires if id in t then GoesOn(t[id], x) else x.before == Succeeded(t)
    ensures Advance(t, t[id := x])
  {
  }

  lemma {:induction false} RebornAdvances(e: Endpoint, epoch: Byte)
    ensures Advance(e.transfers, Reborn(e, epoch).transfers)
  {
  }

  predicate Receives(a: Action) {
    a.Demux? || a.Handle? || a.Recv? || a.Close?
  }

  lemma {:induction false} ReceivingKeepsTransfers(e: Endpoint, mtu: nat, a: Action)
    requires mtu > HEADER_SIZE && Bounds(e) && Enabled(e, mtu, a) && Receives(a)
    ensures Act(e, mtu, a).next.transfers == e.transfers
  {
  }

  lemma {:induction false} ActAdvances(e: Endpoint, mtu: nat, a: Action)
    requires mtu > HEADER_SIZE && Bounds(e) && Enabled(e, mtu, a)
    ensures Advance(e.transfers, Act(e, mtu, a).next.transfers)
  {
    if Receives(a) {
      ReceivingKeepsTransfers(e, mtu, a);
    } else if a.Restart? {
      RebornAdvances(e, a.epoch);
    } else {
      SendingAdvances(e, mtu, a);
    }
  }

  lemma {:induction false} SendingAdvances(e: Endpoint, mtu: nat, a: Action)
    requires mtu > HEADER_SIZE && Bounds(e) && Enabled(e, mtu, a) && !Receives(a) && !a.Restart?
    ensures Advance(e.transfers, Act(e, mtu, a).next.transfers)
  {
    var t := Act(e, mtu, a).next.transfers;
    SetAdvances(e.transfers, a.id, t[a.id]);
  }

  /** A returned transfer is final, and a new one remembers every earlier success. */
  lemma {:induction false} SuccessIsFinal(e: Endpoint, mtu: nat, a: Action, first: U64, id: U64)
    requires mtu > HEADER_SIZE && Bounds(e) && Enabled(e, mtu, a)
    requires first in Succeeded(e.transfers)
    requires id in e.transfers ==> first in e.transfers[id].before
    ensures var t := Act(e, mtu, a).next.transfers;
            first in Succeeded(t) && (id in t ==> first in t[id].before)
  {
    ActAdvances(e, mtu, a);
  }

  lemma {:induction false} StepTracks(s: System, st: Step, side: Side, first: U64, id: U64)
    requires CanStep(s, st) && first in Succeeded(At(s, side).transfers)
    requires id in At(s, side).transfers ==> first in At(s, side).transfers[id].before
    ensures var t := At(Next(s, st), side).transfers;
            first in Succeeded(t) && (id in t ==> first in t[id].before)
  {
    if st.side == side {
      SuccessIsFinal(At(s, side), s.mtu, st.action, first, id);
    }
  }

  lemma {:induction false} BeforeTracks(states: seq<System>, steps: seq<Step>, g: nat, i: nat, side: Side,
                                        first: U64, id: U64)
    requires Run(states, steps) && g <= i < |states|
    requires first in Succeeded(At(states[g], side).transfers) && id !in At(states[g], side).transfers
    ensures first in Succeeded(At(states[i], side).transfers)
    ensures id in At(states[i], side).transfers ==> first in At(states[i], side).transfers[id].before
    decreases i
  {
    if g < i {
      BeforeTracks(states, steps, g, i - 1, side, first, id);
      assert StepAt(states, steps, i - 1);
      StepTracks(states[i - 1], steps[i - 1], side, first, id);
    }
  }

  /** A Send that begins after another returned nil (state g) is only delivered after it. */
  lemma {:induction false} SendsArriveInOrder(states: seq<System>, steps: seq<Step>, g: nat, i: nat, side: Side,
                                              first: U64, second: U64, j: nat)
    requires Run(states, steps) && g <= i < |states|
    requires first in Succeeded(At(states[g], side).transfers) && second !in At(states[g], side).transfers
    requires j < |At(states[i], Other(side)).log| && At(states[i], Other(side)).log[j].id == second
    ensures exists h :: 0 <= h < j && At(states[i], Other(side)).log[h].id == first
  {
    RunKeeps(states, steps, i);
    BeforeTracks(states, steps, g, i, side, first, second);
    var s := states[i];
    assert SideOk(s, side) && SideOk(s, Other(side));
    var log := At(s, Other(side)).log;
    assert log[j] in log;
    assert first in Ids(log[..j]);
    var d :| d in log[..j] && d.id == first;
  }

  /** Bounded partial state, one epoch per connection, and frames that fit the MTU. */
  lemma {:induction false} ResourcesBounded(states: seq<System>, steps: seq<Step>, i: nat, side: Side, k: nat)
    requires Run(states, steps) && i < |states| && k < |At(states[i], side).conns|
    ensures |At(states[i], side).conns[k].rx.reasm| <= 64
    ensures |At(states[i], side).conns[k].epochs| <= 1
    ensures forall p :: p in states[i].net ==> |p.bytes| <= states[i].mtu
  {
    RunKeeps(states, steps, i);
    var s := states[i];
    var e, c, p := At(s, side), At(s, side).conns[k], At(s, Other(side));
    assert SideOk(s, side);
    assert ConnOk(c, s.mtu, e.transfers, e.log, p.transfers, p.log);
    assert c.epochs <= {c.remoteEpoch};
    SetLeSize(c.epochs, {c.remoteEpoch});
  }
}
