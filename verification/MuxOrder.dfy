/** The order of deliveries inside one connection's inbox, in every run. */
module MuxOrder {
  import opened Bytes
  import opened MuxFrame
  import opened MuxConn
  import opened Mux
  import opened MuxRun

  /** The deliveries of a log that went to connection k, in order. */
  function On(log: seq<Delivery>, k: nat): seq<Delivery> {
    if log == [] then []
    else
      var d := log[|log| - 1];
      On(log[..|log| - 1], k) + if d.conn == k then [d] else []
  }

  lemma {:induction false} OnMembers(log: seq<Delivery>, k: nat)
    ensures forall d :: d in On(log, k) <==> d in log && d.conn == k
  {
    if log != [] {
      OnMembers(log[..|log| - 1], k);
      assert log == log[..|log| - 1] + [log[|log| - 1]];
    }
  }

  lemma {:induction false} OnNone(log: seq<Delivery>, k: nat)
    requires forall d :: d in log ==> d.conn != k
    ensures On(log, k) == []
  {
    if log != [] {
      OnNone(log[..|log| - 1], k);
    }
  }

  lemma {:induction false} OnPrefix(log: seq<Delivery>, log': seq<Delivery>, k: nat)
    requires log <= log'
    ensures On(log, k) <= On(log', k)
    decreases |log'|
  {
    if |log| < |log'| {
      OnPrefix(log, log'[..|log'| - 1], k);
    } else {
      assert log == log';
    }
  }

  /** Entry b on connection k is some entry j of the log, and what precedes it there is what precedes it here. */
  lemma {:induction false} OnPosition(log: seq<Delivery>, k: nat, b: nat) returns (j: nat)
    requires b < |On(log, k)|
    ensures j < |log| && log[j] == On(log, k)[b] && On(log[..j], k) == On(log, k)[..b]
  {
    var rest := log[..|log| - 1];
    if b < |On(rest, k)| {
      j := OnPosition(rest, k, b);
      assert rest[..j] == log[..j] && On(rest, k)[..b] == On(log, k)[..b];
    } else {
      j := |log| - 1;
      assert On(log, k)[..b] == On(rest, k);
    }
  }

  /** Every connection's history is its share of the endpoint's log. */
  ghost predicate Filed(e: Endpoint) {
    && (forall d :: d in e.log ==> d.conn < |e.conns|)
    && (forall k :: 0 <= k < |e.conns| ==> e.conns[k].history == On(e.log, k))
  }

  /** Old connections keep their histories and the epochs they have noted, new ones have no history. */
  ghost predicate KeepsHistories(e: Endpoint, e': Endpoint) {
    && e'.log == e.log && |e.conns| <= |e'.conns|
    && (forall k :: 0 <= k < |e.conns| ==> KeepsHistory(e.conns[k], e'.conns[k]))
    && (forall k :: |e.conns| <= k < |e'.conns| ==> e'.conns[k].history == [])
  }

  predicate KeepsHistory(c: Conn, c': Conn) {
    c'.history == c.history && (c.remoteEpoch != 0 ==> c'.remoteEpoch == c.remoteEpoch)
  }

  lemma {:induction false} KeptIsFiled(e: Endpoint, e': Endpoint)
    requires Filed(e) && KeepsHistories(e, e')
    ensures Filed(e')
  {
    forall k | 0 <= k < |e'.conns|
      ensures e'.conns[k].history == On(e'.log, k)
    {
      if k >= |e.conns| {
        OnNone(e.log, k);
      }
    }
  }

  lemma {:induction false} SetKeepsHistories(e: Endpoint, e': Endpoint, k: nat)
    requires k < |e.conns| == |e'.conns| && e'.log == e.log && KeepsHistory(e.conns[k], e'.conns[k])
    requires e'.conns == e.conns[k := e'.conns[k]]
    ensures KeepsHistories(e, e')
  {
  }

  lemma {:induction false} ConnectKeepsHistories(e: Endpoint)
    ensures KeepsHistories(e, Connect(e))
  {
  }

  lemma {:induction false} BeginKeepsHistories(e: Endpoint, k: nat, id: U64, p: Payload)
    requires k < |e.conns|
    ensures KeepsHistories(e, Begin(e, k, id, p))
  {
    SetKeepsHistories(e, Begin(e, k, id, p), k);
  }

  lemma {:induction false} RouteKeepsHistories(e: Endpoint, f: Frame)
    requires Bounds(e)
    ensures KeepsHistories(e, Route(e, f))
  {
  }

  lemma {:induction false} SendingKeepsHistories(e: Endpoint, mtu: nat, a: Action)
    requires mtu > HEADER_SIZE && Bounds(e) && Enabled(e, mtu, a) && !Receives(a) && !a.Restart?
    ensures KeepsHistories(e, Act(e, mtu, a).next)
  {
    match a
    case StartSend(k, id, msg) => BeginKeepsHistories(e, k, id, Message(msg));
    case Dial(id) =>
      ConnectKeepsHistories(e);
      BeginKeepsHistories(Connect(e), Connect(e).current.value, id, Probe);
    case Return(id, r) => SetKeepsHistories(e, End(e, id, r), e.transfers[id].conn);
    case _ =>
  }

  lemma {:induction false} OtherActionsKeep(e: Endpoint, mtu: nat, a: Action)
    requires mtu > HEADER_SIZE && Bounds(e) && Enabled(e, mtu, a) && !a.Handle?
    ensures KeepsHistories(e, Act(e, mtu, a).next)
  {
    match a
    case Demux(d) =>
      if Parse(d).Some? {
        RouteKeepsHistories(e, Parse(d).value);
      }
    case Recv(k) => SetKeepsHistories(e, Act(e, mtu, a).next, k);
    case Close(k) => SetKeepsHistories(e, CloseConn(e, k), k);
    case Restart(epoch) => assert KeepsHistories(e, Reborn(e, epoch));
    case _ => SendingKeepsHistories(e, mtu, a);
  }

  lemma {:induction false} HandleFiles(e: Endpoint, now: int, kept: Table)
    requires Bounds(e) && e.reading.Some? && Filed(e)
    ensures Filed(HandleFrame(e, now, kept).next) && e.log <= HandleFrame(e, now, kept).next.log
  {
    var r := HandleFrame(e, now, kept).next;
    if |r.log| == |e.log| {
      assert r.log == e.log;
      assert KeepsHistories(e, r);
      KeptIsFiled(e, r);
    } else {
      var d := r.log[|e.log|];
      assert r.log == e.log + [d];
      forall k | 0 <= k < |r.conns|
        ensures r.conns[k].history == On(r.log, k)
      {
        assert r.log[..|e.log|] == e.log;
      }
    }
  }

  lemma {:induction false} ActFiles(e: Endpoint, mtu: nat, a: Action)
    requires mtu > HEADER_SIZE && Bounds(e) && Enabled(e, mtu, a) && Filed(e)
    ensures Filed(Act(e, mtu, a).next) && e.log <= Act(e, mtu, a).next.log
  {
    if a.Handle? {
      HandleFiles(e, a.now, a.kept);
    } else {
      OtherActionsKeep(e, mtu, a);
      KeptIsFiled(e, Act(e, mtu, a).next);
    }
  }

  lemma {:induction false} StepFiles(s: System, st: Step, side: Side)
    requires CanStep(s, st) && Filed(At(s, side))
    ensures Filed(At(Next(s, st), side)) && At(s, side).log <= At(Next(s, st), side).log
  {
    if st.side == side {
      ActFiles(At(s, side), s.mtu, st.action);
    }
  }

  /** In every run each connection's history is its share of the log. */
  lemma {:induction false} RunFiles(states: seq<System>, steps: seq<Step>, i: nat, side: Side)
    requires Run(states, steps) && i < |states|
    ensures Filed(At(states[i], side))
  {
    if i > 0 {
      RunFiles(states, steps, i - 1, side);
      assert StepAt(states, steps, i - 1);
      StepFiles(states[i - 1], steps[i - 1], side);
    }
  }

  lemma {:induction false} LogGrows(states: seq<System>, steps: seq<Step>, g: nat, i: nat, side: Side)
    requires Run(states, steps) && g <= i < |states|
    ensures At(states[g], side).log <= At(states[i], side).log
    decreases i
  {
    if g < i {
      LogGrows(states, steps, g, i - 1, side);
      RunFiles(states, steps, i - 1, side);
      assert StepAt(states, steps, i - 1);
      StepFiles(states[i - 1], steps[i - 1], side);
    }
  }

  /** In every run the inbox is the tail of the history: what the application reads keeps the order of delivery. */
  lemma {:induction false} InboxIsTail(states: seq<System>, steps: seq<Step>, i: nat, side: Side, k: nat)
    requires Run(states, steps) && i < |states| && k < |At(states[i], side).conns|
    ensures var c := At(states[i], side).conns[k];
            |c.rx.inbox| <= |c.history| && c.rx.inbox == Msgs(c.history)[|c.history| - |c.rx.inbox|..]
  {
    RunKeeps(states, steps, i);
    var s := states[i];
    assert SideOk(s, side);
    var e, p := At(s, side), At(s, Other(side));
    assert ConnOk(e.conns[k], s.mtu, e.transfers, e.log, p.transfers, p.log);
  }

  ghost predicate Mentions(ds: seq<Delivery>, id: U64) {
    exists a :: 0 <= a < |ds| && ds[a].id == id
  }

  ghost predicate GivenOn(ds: seq<Delivery>, k: nat, id: U64) {
    exists a :: 0 <= a < |ds| && ds[a].id == id && ds[a].conn == k
  }

  /** Entry b of connection k's history h is entry j of the log, with the same predecessors on k. */
  ghost predicate Placed(log: seq<Delivery>, h: seq<Delivery>, k: nat, b: nat, j: nat)
    requires b < |h|
  {
    j < |log| && log[j] == h[b] && On(log[..j], k) == h[..b]
  }

  /** A Send of this id begins after state g, in which an earlier one had returned nil. */
  ghost predicate Successive(states: seq<System>, steps: seq<Step>, g: nat, i: nat, side: Side, first: U64,
                             second: U64) {
    && Run(states, steps) && g <= i < |states|
    && first in Succeeded(At(states[g], side).transfers) && second !in At(states[g], side).transfers
  }

  /** What connection k of the receiver was given up to state i. */
  function History(s: System, receiver: Side, k: nat): seq<Delivery>
    requires k < |At(s, receiver).conns|
  {
    At(s, receiver).conns[k].history
  }

  /**
   The second of two successive Sends, where it is put into a connection's inbox, comes after the
   first: in that same inbox exactly when one of the first's earlier deliveries was on that connection.
   */
  lemma {:induction false} OrderOnConnection(states: seq<System>, steps: seq<Step>, g: nat, i: nat, side: Side,
                                             first: U64, second: U64, k: nat, b: nat)
    requires Successive(states, steps, g, i, side, first, second)
    requires k < |At(states[i], Other(side)).conns| && b < |History(states[i], Other(side), k)|
    requires History(states[i], Other(side), k)[b].id == second
    ensures var log, h := At(states[i], Other(side)).log, History(states[i], Other(side), k);
            exists j: nat :: Placed(log, h, k, b, j) && Mentions(log[..j], first) &&
                        (Mentions(h[..b], first) <==> GivenOn(log[..j], k, first))
  {
    RunFiles(states, steps, i, Other(side));
    var log, h := At(states[i], Other(side)).log, History(states[i], Other(side), k);
    var j := OnPosition(log, k, b);
    SendsArriveInOrder(states, steps, g, i, side, first, second, j);
    var a :| 0 <= a < j && log[a].id == first;
    assert log[..j][a].id == first && Placed(log, h, k, b, j);
    MentionsIff(log[..j], k, first);
  }

  lemma {:induction false} MentionsIff(log: seq<Delivery>, k: nat, id: U64)
    ensures Mentions(On(log, k), id) <==> GivenOn(log, k, id)
  {
    OnMembers(log, k);
    if Mentions(On(log, k), id) {
      var a :| 0 <= a < |On(log, k)| && On(log, k)[a].id == id;
      assert On(log, k)[a] in On(log, k);
    }
    if GivenOn(log, k, id) {
      var a :| 0 <= a < |log| && log[a].id == id && log[a].conn == k;
      assert log[a] in On(log, k);
    }
  }

  /** While the receiver has one connection, successive Sends reach its inbox in send order. */
  lemma {:induction false} OneConnectionInOrder(states: seq<System>, steps: seq<Step>, g: nat, i: nat, side: Side,
                                                first: U64, second: U64, b: nat)
    requires Successive(states, steps, g, i, side, first, second)
    requires |At(states[i], Other(side)).conns| == 1 && b < |History(states[i], Other(side), 0)|
    requires History(states[i], Other(side), 0)[b].id == second
    ensures Mentions(History(states[i], Other(side), 0)[..b], first)
  {
    RunFiles(states, steps, i, Other(side));
    OrderOnConnection(states, steps, g, i, side, first, second, 0, b);
    var log, h := At(states[i], Other(side)).log, History(states[i], Other(side), 0);
    var j: nat :| Placed(log, h, 0, b, j) && Mentions(log[..j], first) &&
             (Mentions(h[..b], first) <==> GivenOn(log[..j], 0, first));
    var a :| 0 <= a < |log[..j]| && log[..j][a].id == first;
    assert log[a] in log && log[..j][a].conn == 0;
  }

  /** What a connection was given it keeps at the front of its history. */
  lemma {:induction false} HistoryGrows(states: seq<System>, steps: seq<Step>, g: nat, i: nat, side: Side, k: nat)
    requires Run(states, steps) && g <= i < |states|
    requires k < |At(states[g], side).conns| && k < |At(states[i], side).conns|
    ensures History(states[g], side, k) <= History(states[i], side, k)
  {
    RunFiles(states, steps, g, side);
    RunFiles(states, steps, i, side);
    LogGrows(states, steps, g, i, side);
    OnPrefix(At(states[g], side).log, At(states[i], side).log, k);
  }

  lemma {:induction false} HistoryIsSent(states: seq<System>, steps: seq<Step>, g: nat, side: Side, k: nat, x: nat)
    requires Run(states, steps) && g < |states|
    requires k < |At(states[g], Other(side)).conns| && x < |History(states[g], Other(side), k)|
    ensures History(states[g], Other(side), k)[x].id in At(states[g], side).transfers
  {
    RunKeeps(states, steps, g);
    var s, r := states[g], Other(side);
    assert SideOk(s, r);
    var e, c := At(s, r), At(s, r).conns[k];
    assert ConnOk(c, s.mtu, e.transfers, e.log, At(s, side).transfers, At(s, side).log);
    assert c.history[x] in c.history;
  }

  /** Once a connection has been given the first, it is given every later Send after it, whatever else happens. */
  lemma {:induction false} StaysInOrder(states: seq<System>, steps: seq<Step>, g: nat, i: nat, side: Side,
                                        first: U64, second: U64, k: nat, b: nat)
    requires Successive(states, steps, g, i, side, first, second)
    requires k < |At(states[g], Other(side)).conns| && Mentions(History(states[g], Other(side), k), first)
    requires k < |At(states[i], Other(side)).conns| && b < |History(states[i], Other(side), k)|
    requires History(states[i], Other(side), k)[b].id == second
    ensures Mentions(History(states[i], Other(side), k)[..b], first)
  {
    HistoryGrows(states, steps, g, i, Other(side), k);
    var was, h := History(states[g], Other(side), k), History(states[i], Other(side), k);
    if b < |was| {
      HistoryIsSent(states, steps, g, side, k, b);
    }
    var a :| 0 <= a < |was| && was[a].id == first;
    assert h[..b][a].id == first;
  }
}
