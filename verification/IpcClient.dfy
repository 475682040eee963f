/** Request/reply multiplexing over the daemon socket, in every interleaving. */
module IpcClient {
  import opened Bytes
  import opened IpcFrame

  const IDS := 0xFFFF_FFFF // request ids are 1 .. 2^32-1

  datatype Event = Got(f: Frame) | Close

  datatype Status = Pending | Answered(f: Frame) | Failed

  // One call of request: its id, what its channel was given, and what it returned.
  datatype Waiter = Waiter(id: U32, events: seq<Event>, status: Status)

  // reader: a reply taken out of the table and not yet handed over. closing: channels the
  // teardown took and has not yet closed.
  datatype Client = Client(
    nextId: U32, waiting: map<U32, nat>, closed: bool, waiters: seq<Waiter>,
    reader: Option<(nat, Frame)>, closing: set<nat>)

  datatype Step =
    | Request
    | WriteFails(k: nat)
    | Arrive(f: Frame)
    | Hand
    | Teardown
    | CloseOne(k: nat)
    | Wake(k: nat)
    | Cancel(k: nat)

  function Start(): Client {
    Client(1, map[], false, [], None, {})
  }

  predicate IsPending(c: Client, k: nat) {
    k < |c.waiters| && c.waiters[k].status.Pending?
  }

  predicate CanStep(c: Client, st: Step) {
    match st
    case Request => !c.closed
    case WriteFails(k) => IsPending(c, k)
    case Arrive(_) => c.reader.None?
    case Hand => c.reader.Some? && c.reader.value.0 < |c.waiters|
    case Teardown => !c.closed
    case CloseOne(k) => k in c.closing && k < |c.waiters|
    case Wake(k) => IsPending(c, k) && c.waiters[k].events != []
    case Cancel(k) => IsPending(c, k)
  }

  function Give(c: Client, k: nat, e: Event): Client
    requires k < |c.waiters|
  {
    c.(waiters := c.waiters[k := c.waiters[k].(events := c.waiters[k].events + [e])])
  }

  function Settle(c: Client, k: nat, s: Status): Client
    requires k < |c.waiters|
  {
    c.(waiters := c.waiters[k := c.waiters[k].(status := s)])
  }

  function Next(c: Client, st: Step): Client
    requires CanStep(c, st)
  {
    match st
    case Request =>
      var k := |c.waiters|;
      c.(nextId := if c.nextId == IDS then 1 else c.nextId + 1,
         waiting := c.waiting[c.nextId := k], waiters := c.waiters + [Waiter(c.nextId, [], Pending)])
    case WriteFails(k) => Settle(c, k, Failed).(waiting := c.waiting - {c.waiters[k].id})
    case Arrive(f) =>
      if f.id in c.waiting then c.(waiting := c.waiting - {f.id}, reader := Some((c.waiting[f.id], f))) else c
    case Hand => Give(c, c.reader.value.0, Event.Got(c.reader.value.1)).(reader := None)
    case Teardown => c.(closed := true, closing := c.closing + c.waiting.Values, waiting := map[])
    case CloseOne(k) => Give(c, k, Close).(closing := c.closing - {k})
    case Wake(k) =>
      var e := c.waiters[k].events[0];
      Settle(c, k, if e.Got? then Answered(e.f) else Failed)
    case Cancel(k) => Settle(c, k, Failed).(waiting := c.waiting - {c.waiters[k].id})
  }

  ghost predicate Run(cs: seq<Client>, steps: seq<Step>) {
    && |cs| == |steps| + 1 && cs[0] == Start()
    && forall i :: 0 <= i < |steps| ==> CanStep(cs[i], steps[i]) && cs[i + 1] == Next(cs[i], steps[i])
  }

  // ----- never two events on one channel

  predicate Registered(c: Client, k: nat) {
    k < |c.waiters| && c.waiters[k].id in c.waiting && c.waiting[c.waiters[k].id] == k
  }

  predicate Held(c: Client, k: nat) {
    c.reader.Some? && c.reader.value.0 == k
  }

  ghost predicate WaiterOk(c: Client, k: nat)
    requires k < |c.waiters|
  {
    var w := c.waiters[k];
    && |w.events| <= 1
    && (Registered(c, k) || Held(c, k) || k in c.closing ==> w.events == [])
    && !(Registered(c, k) && Held(c, k)) && !(Registered(c, k) && k in c.closing) && !(Held(c, k) && k in c.closing)
    && (forall e :: e in w.events && e.Got? ==> e.f.id == w.id)
    && (w.status.Answered? ==> w.events == [Event.Got(w.status.f)])
    && w.id == 1 + k % IDS
  }

  ghost predicate Inv(c: Client) {
    && c.nextId == 1 + |c.waiters| % IDS
    && (forall id :: id in c.waiting ==> c.waiting[id] < |c.waiters| && c.waiters[c.waiting[id]].id == id)
    && (c.reader.Some? ==> c.reader.value.0 < |c.waiters| && c.reader.value.1.id == c.waiters[c.reader.value.0].id)
    && (forall k :: k in c.closing ==> k < |c.waiters|)
    && (c.closed ==> c.waiting == map[])
    && (forall k :: 0 <= k < |c.waiters| ==> WaiterOk(c, k))
  }

  lemma NextIdSteps(n: nat)
    ensures 1 + (n + 1) % IDS == if 1 + n % IDS == IDS then 1 else 1 + n % IDS + 1
  {
  }

  lemma TeardownTakes(c: Client, k: nat)
    requires Inv(c) && k < |c.waiters|
    ensures k in c.waiting.Values <==> Registered(c, k)
  {
    if k in c.waiting.Values {
      var id :| id in c.waiting && c.waiting[id] == k;
    }
  }

  lemma WaiterKept(c: Client, st: Step, k: nat)
    requires Inv(c) && CanStep(c, st) && k < |c.waiters|
    ensures k < |Next(c, st).waiters| && WaiterOk(Next(c, st), k)
  {
    assert WaiterOk(c, k);
    if st.Teardown? {
      TeardownTakes(c, k);
    }
  }

  lemma StepKeeps(c: Client, st: Step)
    requires Inv(c) && CanStep(c, st)
    ensures Inv(Next(c, st))
  {
    var c' := Next(c, st);
    NextIdSteps(|c.waiters|);
    forall k | 0 <= k < |c'.waiters|
      ensures WaiterOk(c', k)
    {
      if k < |c.waiters| {
        WaiterKept(c, st, k);
      }
    }
    if st.Teardown? {
      forall k | k in c'.closing
        ensures k < |c'.waiters|
      {
        if k !in c.closing {
          var id :| id in c.waiting && c.waiting[id] == k;
        }
      }
    }
  }

  lemma {:induction false} RunKeeps(cs: seq<Client>, steps: seq<Step>, i: nat)
    requires Run(cs, steps) && i < |cs|
    ensures Inv(cs[i])
  {
    if i > 0 {
      RunKeeps(cs, steps, i - 1);
      StepKeeps(cs[i - 1], steps[i - 1]);
    }
  }

  /** In every interleaving a channel gets at most one frame or close,
    and a returned frame carries the caller's id. */
  lemma AtMostOneEvent(cs: seq<Client>, steps: seq<Step>, i: nat, k: nat)
    requires Run(cs, steps) && i < |cs| && k < |cs[i].waiters|
    ensures |cs[i].waiters[k].events| <= 1
    ensures cs[i].waiters[k].status.Answered? ==> cs[i].waiters[k].status.f.id == cs[i].waiters[k].id
  {
    RunKeeps(cs, steps, i);
    assert WaiterOk(cs[i], k);
    if cs[i].waiters[k].status.Answered? {
      assert Event.Got(cs[i].waiters[k].status.f) in cs[i].waiters[k].events;
    }
  }

  /** The reply is with the reader for waiter k, or in its channel. */
  predicate OnItsWay(c: Client, k: nat, f: Frame) {
    k < |c.waiters| && (c.reader == Some((k, f)) || c.waiters[k].events == [Event.Got(f)])
  }

  lemma OnItsWayStays(c: Client, st: Step, k: nat, f: Frame)
    requires Inv(c) && CanStep(c, st) && OnItsWay(c, k, f)
    ensures OnItsWay(Next(c, st), k, f)
    ensures st == Wake(k) ==> Next(c, st).waiters[k].status == Answered(f)
  {
    assert WaiterOk(c, k);
  }

  lemma {:induction false} ReplyStays(cs: seq<Client>, steps: seq<Step>, i: nat, j: nat, k: nat, f: Frame)
    requires Run(cs, steps) && i < j < |cs| && steps[i] == Arrive(f)
    requires Registered(cs[i], k) && cs[i].waiters[k].id == f.id
    ensures OnItsWay(cs[j], k, f)
  {
    RunKeeps(cs, steps, j - 1);
    assert CanStep(cs[j - 1], steps[j - 1]) && cs[j] == Next(cs[j - 1], steps[j - 1]);
    if i < j - 1 {
      ReplyStays(cs, steps, i, j - 1, k, f);
      OnItsWayStays(cs[j - 1], steps[j - 1], k, f);
    }
  }

  /**
   In every run a reply goes to the one request registered under its id, and when that request wakes
   up it returns this reply; a reply nobody is registered for changes nothing.
   */
  lemma ReplyReaches(cs: seq<Client>, steps: seq<Step>, i: nat, f: Frame)
    requires Run(cs, steps) && i < |steps| && steps[i] == Arrive(f)
    ensures (forall k: nat :: Registered(cs[i], k) ==> cs[i].waiters[k].id != f.id) ==> cs[i + 1] == cs[i]
    ensures forall j, k: nat :: i < j < |steps| && steps[j] == Wake(k) && Registered(cs[i], k) &&
                                cs[i].waiters[k].id == f.id ==>
                             k < |cs[j + 1].waiters| && cs[j + 1].waiters[k].status == Answered(f)
  {
    RunKeeps(cs, steps, i);
    assert CanStep(cs[i], steps[i]) && cs[i + 1] == Next(cs[i], steps[i]);
    if f.id in cs[i].waiting {
      assert Registered(cs[i], cs[i].waiting[f.id]);
    }
    forall j, k: nat | i < j < |steps| && steps[j] == Wake(k) && Registered(cs[i], k) && cs[i].waiters[k].id == f.id
      ensures k < |cs[j + 1].waiters| && cs[j + 1].waiters[k].status == Answered(f)
    {
      assert CanStep(cs[j], steps[j]) && cs[j + 1] == Next(cs[j], steps[j]);
      RunKeeps(cs, steps, j);
      ReplyStays(cs, steps, i, j, k, f);
      OnItsWayStays(cs[j], steps[j], k, f);
    }
  }

  // ----- nobody is left waiting, unless ids come round

  /** Fewer than 2^32-1 requests were issued since any request that is still outstanding. */
  ghost predicate Recent(c: Client) {
    forall k: nat :: IsPending(c, k) ==> |c.waiters| - k < IDS
  }

  ghost predicate Reachable(c: Client, k: nat) {
    IsPending(c, k) ==> Registered(c, k) || Held(c, k) || k in c.closing || c.waiters[k].events != []
  }

  ghost predicate NoneLost(c: Client) {
    && (forall k :: 0 <= k < |c.waiters| ==> Reachable(c, k))
    && (forall j: nat, k: nat :: j < k && IsPending(c, j) && IsPending(c, k) ==> c.waiters[j].id != c.waiters[k].id)
  }

  /** Requests j and k carry the same id: a whole number of rounds of ids lies between them. */
  predicate SameId(j: nat, k: nat) {
    (if j < k then k - j else j - k) % IDS == 0
  }

  lemma SameIdIff(j: nat, k: nat)
    ensures 1 + j % IDS == 1 + k % IDS <==> SameId(j, k)
  {
  }

  /** A new request takes the id of k, or another request with the id of k gives up. */
  predicate TakesAway(c: Client, st: Step, k: nat) {
    Registered(c, k) && (|| (st.Request? && SameId(k, |c.waiters|))
                         || ((st.Cancel? || st.WriteFails?) && st.k != k && SameId(k, st.k)))
  }

  /** Exactly when a step takes a waiting request's only way to wake up. */
  lemma StrandsIff(c: Client, st: Step, k: nat)
    requires Inv(c) && CanStep(c, st) && IsPending(c, k) && Reachable(c, k)
    ensures !Reachable(Next(c, st), k) <==> TakesAway(c, st, k)
  {
    assert WaiterOk(c, k);
    SameIdIff(k, |c.waiters|);
    if st.Cancel? || st.WriteFails? {
      assert WaiterOk(c, st.k);
      SameIdIff(k, st.k);
    }
  }

  /** What is stranded stays so until it gives up itself. */
  lemma StaysStranded(c: Client, st: Step, k: nat)
    requires Inv(c) && CanStep(c, st) && IsPending(c, k) && !Reachable(c, k)
    ensures !Reachable(Next(c, st), k) || ((st.Cancel? || st.WriteFails?) && st.k == k)
  {
  }

  lemma {:induction false} WaitersGrow(cs: seq<Client>, steps: seq<Step>, j: nat, i: nat)
    requires Run(cs, steps) && j <= i < |cs|
    ensures |cs[j].waiters| <= |cs[i].waiters|
    decreases i
  {
    if j < i {
      WaitersGrow(cs, steps, j, i - 1);
    }
  }

  /** In every run a waiting request is stranded exactly when some earlier step took its id away. */
  lemma {:induction false} StrandedIff(cs: seq<Client>, steps: seq<Step>, i: nat, k: nat)
    requires Run(cs, steps) && i < |cs| && IsPending(cs[i], k)
    ensures !Reachable(cs[i], k) <==> exists j :: 0 <= j < i && TakesAway(cs[j], steps[j], k)
  {
    var c, st := cs[i - 1], steps[i - 1];
    if k < |c.waiters| {
      assert IsPending(c, k);
      StrandedIff(cs, steps, i - 1, k);
      RunKeeps(cs, steps, i - 1);
      if Reachable(c, k) {
        StrandsIff(c, st, k);
      } else {
        StaysStranded(c, st, k);
      }
    } else {
      forall j | 0 <= j < i
        ensures !TakesAway(cs[j], steps[j], k)
      {
        WaitersGrow(cs, steps, j, i - 1);
      }
    }
  }

  lemma StepLosesNone(c: Client, st: Step)
    requires Inv(c) && NoneLost(c) && CanStep(c, st) && (st.Request? ==> Recent(c))
    ensures NoneLost(Next(c, st))
  {
    var c', n := Next(c, st), |c.waiters|;
    if st.Request? {
      forall k: nat | IsPending(c, k)
        ensures c.waiters[k].id != c.nextId
      {
        assert WaiterOk(c, k);
      }
    }
    forall k | 0 <= k < |c'.waiters|
      ensures Reachable(c', k)
    {
      if k < n {
        assert Reachable(c, k) && WaiterOk(c, k);
      }
    }
    forall j: nat, k: nat | j < k && IsPending(c', j) && IsPending(c', k)
      ensures c'.waiters[j].id != c'.waiters[k].id
    {
      assert IsPending(c, j) && (k < n ==> IsPending(c, k));
    }
  }

  lemma {:induction false} RunLosesNone(cs: seq<Client>, steps: seq<Step>, i: nat)
    requires Run(cs, steps) && i < |cs|
    requires forall j :: 0 <= j < i && steps[j].Request? ==> Recent(cs[j])
    ensures NoneLost(cs[i])
  {
    if i > 0 {
      RunLosesNone(cs, steps, i - 1);
      RunKeeps(cs, steps, i - 1);
      StepLosesNone(cs[i - 1], steps[i - 1]);
    }
  }

  ghost predicate TornDown(c: Client) {
    c.closed && c.closing == {} && c.reader.None?
  }

  /** After the teardown every request still waiting has exactly one frame or close to wake up to. */
  lemma TeardownWakesAll(cs: seq<Client>, steps: seq<Step>, i: nat, k: nat)
    requires Run(cs, steps) && i < |cs| && TornDown(cs[i]) && IsPending(cs[i], k)
    requires forall j :: 0 <= j < i && steps[j].Request? ==> Recent(cs[j])
    ensures |cs[i].waiters[k].events| == 1
  {
    RunKeeps(cs, steps, i);
    RunLosesNone(cs, steps, i);
    assert WaiterOk(cs[i], k) && Reachable(cs[i], k);
  }

  // ----- ids do come round with few requests outstanding

  /** At most two requests are outstanding: the first one ever and the latest. */
  ghost predicate FewPending(c: Client) {
    forall k: nat :: IsPending(c, k) ==> k == 0 || k == |c.waiters| - 1
  }

  ghost predicate Reaches(cs: seq<Client>, steps: seq<Step>, c: Client) {
    Run(cs, steps) && cs[|steps|] == c && forall i :: 0 <= i < |cs| ==> FewPending(cs[i])
  }

  lemma Extend(cs: seq<Client>, steps: seq<Step>, c: Client, st: Step) returns (cs': seq<Client>, steps': seq<Step>)
    requires Reaches(cs, steps, c) && CanStep(c, st) && FewPending(Next(c, st))
    ensures Reaches(cs', steps', Next(c, st))
  {
    cs', steps' := cs + [Next(c, st)], steps + [st];
  }

  /** The first request is outstanding and n later ones were cancelled. */
  ghost predicate Cycled(c: Client, n: nat) {
    && |c.waiters| == n + 1 && c.waiters[0] == Waiter(1, [], Pending)
    && (forall k :: 1 <= k <= n ==> c.waiters[k].status.Failed?)
    && c.waiting == map[1 := 0] && !c.closed && c.reader.None? && c.closing == {}
    && c.nextId == if n + 1 == IDS then 1 else n + 2
  }

  lemma {:induction false} Cycles(n: nat) returns (cs: seq<Client>, steps: seq<Step>, c: Client)
    requires n < IDS
    ensures Reaches(cs, steps, c) && Cycled(c, n)
  {
    if n == 0 {
      cs, steps := Extend([Start()], [], Start(), Request);
      c := Next(Start(), Request);
    } else {
      cs, steps, c := Cycles(n - 1);
      var c1 := Next(c, Request);
      cs, steps := Extend(cs, steps, c, Request);
      var c2 := Next(c1, Cancel(n));
      assert c2.waiting == map[1 := 0];
      cs, steps := Extend(cs, steps, c1, Cancel(n));
      c := c2;
    }
  }

  /**
   Having few requests outstanding is not enough: after 2^32-2 cancelled ones the next request
   takes the id of the first, and the first is left with no frame and no close for good.
   */
  lemma FirstIsStranded()
    ensures exists cs, steps, c ::
      Reaches(cs, steps, c) && TornDown(c) && c.waiters != [] && IsPending(c, 0) && c.waiters[0].events == []
  {
    var cs, steps, c := Cycles(IDS - 1);
    var last := |c.waiters|;
    var c1 := Next(c, Request);
    cs, steps := Extend(cs, steps, c, Request);
    assert c1.waiting == map[1 := last];
    assert c1.waiting[1] == last;
    assert forall x :: x in c1.waiting.Values <==> x == last;
    var c2 := Next(c1, Teardown);
    cs, steps := Extend(cs, steps, c1, Teardown);
    assert c2.closing == {last};
    var c3 := Next(c2, CloseOne(last));
    cs, steps := Extend(cs, steps, c2, CloseOne(last));
    assert c3.closing == {};
  }
}
