/** The cache node's single-flight fetch: concurrent callers of one key share one peer request. */
module SingleFlight {
  import opened Bytes

  const MAX_OBJECT_SIZE := 16 * 1024 * 1024

  // hash is the object's address as text: 64 lower-case hexadecimal digits.
  datatype Object = Object(typ: string, source: string, resource: string, payload: seq<Byte>, hash: string)

  // A peer's reply; body is what decoding its JSON yields, if it decodes.
  datatype Reply = Reply(isObject: bool, hash: string, body: Option<Object>)

  datatype Request = ByHash(hash: string) | ByResource(source: string, resource: string, typ: string)

  datatype Result = Found(obj: Object) | Missing | TimedOut

  // call: the shared call a caller waited on or led.
  datatype Caller =
    | Checking(req: Request)
    | Missed(req: Request)
    | Leading(req: Request, call: nat)
    | Fetched(req: Request, call: nat, result: Result)
    | Following(req: Request, call: nat)
    | Returned(req: Request, result: Result, via: Option<nat>)

  // closes: how often the call's done channel has been closed.
  datatype Call = Call(req: Request, key: string, result: Option<Result>, closes: nat)

  // files: what the store directory holds, under any name and possibly damaged.
  datatype Node = Node(
    files: map<string, Object>, index: map<string, string>, busy: map<string, nat>,
    calls: seq<Call>, callers: seq<Caller>)

  datatype Step =
    | Begin(req: Request)
    | LocalHit(k: nat, hash: string)
    | LocalMiss(k: nat)
    | Enter(k: nat)
    | Fetch(k: nat, reply: Option<Reply>, stored: bool)
    | Publish(k: nat)
    | Wake(k: nat)
    | GiveUp(k: nat)
    | Disturb(files: map<string, Object>, index: map<string, string>)

  predicate HexDigit(c: char) {
    '0' <= c <= '9' || 'a' <= c <= 'f' || 'A' <= c <= 'F'
  }

  predicate ValidHash(h: string) {
    |h| == 64 && forall i :: 0 <= i < |h| ==> HexDigit(h[i])
  }

  ghost predicate HashText(digest: seq<Byte> -> string) {
    forall b :: ValidHash(digest(b))
  }

  predicate Valid(digest: seq<Byte> -> string, o: Object) {
    && o.typ != "" && o.source != "" && o.resource != ""
    && 0 < |o.payload| <= MAX_OBJECT_SIZE
    && digest(o.payload) == o.hash
  }

  function StoreGet(digest: seq<Byte> -> string, files: map<string, Object>, hash: string): Option<Object> {
    if ValidHash(hash) && hash in files && files[hash].hash == hash && Valid(digest, files[hash])
    then Some(files[hash])
    else None
  }

  function ResourceKey(source: string, resource: string, typ: string): string {
    source + "\0" + resource + "\0" + typ
  }

  /** The key under which a request is shared; both kinds of request use one table. */
  function KeyOf(req: Request): string {
    match req
    case ByHash(h) => h
    case ByResource(s, r, t) => "resource:" + ResourceKey(s, r, t)
  }

  /** The address a request reads from the store: its own, or one the index has for the resource. */
  ghost predicate LooksUp(n: Node, req: Request, hash: string) {
    match req
    case ByHash(h) => hash == h
    case ByResource(s, r, t) =>
      if t != "" then ResourceKey(s, r, t) in n.index && n.index[ResourceKey(s, r, t)] == hash
      else exists any :: ResourceKey(s, r, any) in n.index && n.index[ResourceKey(s, r, any)] == hash
  }

  ghost predicate Misses(digest: seq<Byte> -> string, n: Node, req: Request) {
    || (forall hash :: !LooksUp(n, req, hash))
    || (exists hash :: LooksUp(n, req, hash) && StoreGet(digest, n.files, hash).None?)
  }

  /** Checks on a peer's object; the first failing one refuses it. */
  function Accept(digest: seq<Byte> -> string, req: Request, reply: Reply): Option<Object> {
    if reply.body.None? then None
    else
      var o := reply.body.value;
      if req.ByHash? && !reply.isObject then None
      else if reply.hash != "" && reply.hash != o.hash then None
      else if req.ByHash? && req.hash != "" && o.hash != req.hash then None
      else if req.ByResource? && req.source != "" &&
              (o.source != req.source || o.resource != req.resource || o.typ != req.typ) then None
      else if !Valid(digest, o) then None
      else Some(o)
  }

  ghost predicate CanStep(digest: seq<Byte> -> string, n: Node, st: Step) {
    match st
    case Begin(_) => true
    case LocalHit(k, hash) =>
      k < |n.callers| && n.callers[k].Checking? && LooksUp(n, n.callers[k].req, hash) &&
      StoreGet(digest, n.files, hash).Some?
    case LocalMiss(k) => k < |n.callers| && n.callers[k].Checking? && Misses(digest, n, n.callers[k].req)
    case Enter(k) => k < |n.callers| && n.callers[k].Missed?
    case Fetch(k, _, _) => k < |n.callers| && n.callers[k].Leading?
    case Publish(k) => k < |n.callers| && n.callers[k].Fetched? && n.callers[k].call < |n.calls|
    case Wake(k) =>
      k < |n.callers| && n.callers[k].Following? && n.callers[k].call < |n.calls| &&
      n.calls[n.callers[k].call].result.Some?
    case GiveUp(k) => k < |n.callers| && n.callers[k].Following?
    case Disturb(_, _) => true
  }

  function Become(n: Node, k: nat, c: Caller): Node
    requires k < |n.callers|
  {
    n.(callers := n.callers[k := c])
  }

  ghost function Next(digest: seq<Byte> -> string, n: Node, st: Step): Node
    requires CanStep(digest, n, st)
  {
    match st
    case Begin(req) => n.(callers := n.callers + [Checking(req)])
    case LocalHit(k, hash) =>
      Become(n, k, Returned(n.callers[k].req, Found(StoreGet(digest, n.files, hash).value), None))
    case LocalMiss(k) => Become(n, k, Missed(n.callers[k].req))
    case Enter(k) =>
      var req := n.callers[k].req;
      var key := KeyOf(req);
      if key in n.busy then Become(n, k, Following(req, n.busy[key]))
      else
        Become(n, k, Leading(req, |n.calls|)).(
          calls := n.calls + [Call(req, key, None, 0)], busy := n.busy[key := |n.calls|])
    case Fetch(k, reply, stored) =>
      var c := n.callers[k];
      var o := if reply.None? then None else Accept(digest, c.req, reply.value);
      if o.Some? && stored then
        Become(n, k, Fetched(c.req, c.call, Found(o.value))).(
          files := n.files[o.value.hash := o.value],
          index := n.index[ResourceKey(o.value.source, o.value.resource, o.value.typ) := o.value.hash])
      else Become(n, k, Fetched(c.req, c.call, Missing))
    case Publish(k) =>
      var c := n.callers[k];
      var call := n.calls[c.call];
      Become(n, k, Returned(c.req, c.result, Some(c.call))).(
        calls := n.calls[c.call := call.(result := Some(c.result), closes := call.closes + 1)],
        busy := n.busy - {call.key})
    case Wake(k) =>
      var c := n.callers[k];
      Become(n, k, Returned(c.req, n.calls[c.call].result.value, Some(c.call)))
    case GiveUp(k) => Become(n, k, Returned(n.callers[k].req, TimedOut, None))
    case Disturb(files, index) => n.(files := files, index := index)
  }

  function Start(files: map<string, Object>, index: map<string, string>): Node {
    Node(files, index, map[], [], [])
  }

  ghost predicate Run(digest: seq<Byte> -> string, nodes: seq<Node>, steps: seq<Step>) {
    && |nodes| == |steps| + 1 && nodes[0] == Start(nodes[0].files, nodes[0].index)
    && forall i :: 0 <= i < |steps| ==>
                     CanStep(digest, nodes[i], steps[i]) && nodes[i + 1] == Next(digest, nodes[i], steps[i])
  }

  // ----- the invariant

  predicate Leads(c: Caller, call: nat) {
    (c.Leading? || c.Fetched?) && c.call == call
  }

  /** What an object fetched for a request satisfies. */
  ghost predicate Answers(digest: seq<Byte> -> string, req: Request, r: Result) {
    r.Found? ==>
      && Valid(digest, r.obj)
      && (req.ByHash? && req.hash != "" ==> r.obj.hash == req.hash)
      && (req.ByResource? && req.source != "" ==>
            r.obj.source == req.source && r.obj.resource == req.resource && r.obj.typ == req.typ)
  }

  ghost predicate CallOk(digest: seq<Byte> -> string, n: Node, c: nat)
    requires c < |n.calls|
  {
    var call := n.calls[c];
    && call.key == KeyOf(call.req)
    && call.closes == (if call.result.Some? then 1 else 0)
    && (call.result.None? <==> call.key in n.busy && n.busy[call.key] == c)
    && (call.result.Some? ==> Answers(digest, call.req, call.result.value) && !call.result.value.TimedOut?)
  }

  ghost predicate CallerOk(digest: seq<Byte> -> string, n: Node, k: nat)
    requires k < |n.callers|
  {
    var c := n.callers[k];
    match c
    case Leading(req, i) => i < |n.calls| && n.calls[i].result.None? && n.calls[i].req == req
    case Fetched(req, i, r) =>
      i < |n.calls| && n.calls[i].result.None? && n.calls[i].req == req && Answers(digest, req, r) && !r.TimedOut?
    case Following(req, i) => i < |n.calls| && n.calls[i].key == KeyOf(req)
    case Returned(req, r, via) =>
      if via.Some?
      then via.value < |n.calls| && n.calls[via.value].key == KeyOf(req) && n.calls[via.value].result == Some(r)
      else !r.Missing? && (r.Found? ==> Valid(digest, r.obj) && (req.ByHash? ==> r.obj.hash == req.hash))
    case _ => true
  }

  ghost predicate Inv(digest: seq<Byte> -> string, n: Node) {
    && (forall key :: key in n.busy ==> n.busy[key] < |n.calls| && n.calls[n.busy[key]].key == key)
    && (forall c :: 0 <= c < |n.calls| ==> CallOk(digest, n, c))
    && (forall k :: 0 <= k < |n.callers| ==> CallerOk(digest, n, k))
    && (forall j, k, c :: 0 <= j < k < |n.callers| && Leads(n.callers[j], c) ==> !Leads(n.callers[k], c))
  }

  /** A caller moves on by itself: no call changes. */
  lemma MoveKeeps(digest: seq<Byte> -> string, n: Node, k: nat, c: Caller, files: map<string, Object>,
                  index: map<string, string>)
    requires Inv(digest, n) && k < |n.callers|
    requires CallerOk(digest, Become(n, k, c), k)
    requires forall i :: Leads(c, i) ==> Leads(n.callers[k], i)
    ensures Inv(digest, Become(n, k, c).(files := files, index := index))
  {
    var n' := Become(n, k, c).(files := files, index := index);
    forall i | 0 <= i < |n'.calls|
      ensures CallOk(digest, n', i)
    {
      assert CallOk(digest, n, i);
    }
    forall j | 0 <= j < |n'.callers|
      ensures CallerOk(digest, n', j)
    {
      if j != k {
        assert CallerOk(digest, n, j);
      }
    }
  }

  lemma EnterKeeps(digest: seq<Byte> -> string, n: Node, k: nat)
    requires Inv(digest, n) && CanStep(digest, n, Enter(k))
    ensures Inv(digest, Next(digest, n, Enter(k)))
  {
    var req := n.callers[k].req;
    var key := KeyOf(req);
    var n' := Next(digest, n, Enter(k));
    if key in n.busy {
      MoveKeeps(digest, n, k, Following(req, n.busy[key]), n.files, n.index);
    } else {
      forall i | 0 <= i < |n'.calls|
        ensures CallOk(digest, n', i)
      {
        if i < |n.calls| {
          assert CallOk(digest, n, i);
        }
      }
      forall j | 0 <= j < |n'.callers|
        ensures CallerOk(digest, n', j)
        ensures j != k ==> !Leads(n'.callers[j], |n.calls|)
      {
        assert CallerOk(digest, n, j);
      }
    }
  }

  lemma PublishKeeps(digest: seq<Byte> -> string, n: Node, k: nat)
    requires Inv(digest, n) && CanStep(digest, n, Publish(k))
    ensures Inv(digest, Next(digest, n, Publish(k)))
  {
    var n', c := Next(digest, n, Publish(k)), n.callers[k].call;
    assert CallerOk(digest, n, k) && CallOk(digest, n, c);
    forall i | 0 <= i < |n'.calls|
      ensures CallOk(digest, n', i)
    {
      assert CallOk(digest, n, i);
    }
    forall j | 0 <= j < |n'.callers|
      ensures CallerOk(digest, n', j)
    {
      assert CallerOk(digest, n, j);
      if j < k {
        assert !Leads(n.callers[j], c);
      } else if k < j {
        assert !Leads(n.callers[j], c);
      }
    }
  }

  /** A new caller, or the store changed by others. */
  lemma OutsideKeeps(digest: seq<Byte> -> string, n: Node, st: Step)
    requires Inv(digest, n) && CanStep(digest, n, st) && (st.Begin? || st.Disturb?)
    ensures Inv(digest, Next(digest, n, st))
  {
    var n' := Next(digest, n, st);
    forall i | 0 <= i < |n'.calls|
      ensures CallOk(digest, n', i)
    {
      assert CallOk(digest, n, i);
    }
    forall j | 0 <= j < |n'.callers|
      ensures CallerOk(digest, n', j)
    {
      if j < |n.callers| {
        assert CallerOk(digest, n, j);
      }
    }
  }

  lemma StepKeeps(digest: seq<Byte> -> string, n: Node, st: Step)
    requires Inv(digest, n) && CanStep(digest, n, st)
    ensures Inv(digest, Next(digest, n, st))
  {
    match st
    case Begin(_) | Disturb(_, _) => OutsideKeeps(digest, n, st);
    case Enter(k) => EnterKeeps(digest, n, k);
    case Publish(k) => PublishKeeps(digest, n, k);
    case _ =>
      var n' := Next(digest, n, st);
      assert CallerOk(digest, n, st.k);
      MoveKeeps(digest, n, st.k, n'.callers[st.k], n'.files, n'.index);
  }

  lemma {:induction false} RunKeeps(digest: seq<Byte> -> string, nodes: seq<Node>, steps: seq<Step>, i: nat)
    requires Run(digest, nodes, steps) && i < |nodes|
    ensures Inv(digest, nodes[i])
  {
    if i > 0 {
      RunKeeps(digest, nodes, steps, i - 1);
      StepKeeps(digest, nodes[i - 1], steps[i - 1]);
    }
  }

  // ----- the theorems

  /** At most one fetch per key is in progress, led by one caller, and every done channel closes once. */
  lemma OneFetchPerKey(digest: seq<Byte> -> string, nodes: seq<Node>, steps: seq<Step>, i: nat)
    requires Run(digest, nodes, steps) && i < |nodes|
    ensures var n := nodes[i];
            && (forall b, c :: 0 <= b < c < |n.calls| && n.calls[b].result.None? && n.calls[c].result.None? ==>
                  n.calls[b].key != n.calls[c].key)
            && (forall j, k, c :: 0 <= j < k < |n.callers| && Leads(n.callers[j], c) ==> !Leads(n.callers[k], c))
            && (forall c :: 0 <= c < |n.calls| ==> n.calls[c].closes == if n.calls[c].result.Some? then 1 else 0)
  {
    RunKeeps(digest, nodes, steps, i);
    var n := nodes[i];
    forall c | 0 <= c < |n.calls|
      ensures n.calls[c].closes == if n.calls[c].result.Some? then 1 else 0
      ensures n.calls[c].result.None? ==> n.calls[c].key in n.busy && n.busy[n.calls[c].key] == c
    {
      assert CallOk(digest, n, c);
    }
  }

  /** Every caller that came back from a shared call has the one result its leader published. */
  lemma FollowersShareResult(digest: seq<Byte> -> string, nodes: seq<Node>, steps: seq<Step>, i: nat, j: nat, k: nat)
    requires Run(digest, nodes, steps) && i < |nodes| && j < |nodes[i].callers| && k < |nodes[i].callers|
    requires nodes[i].callers[j].Returned? && nodes[i].callers[k].Returned?
    requires nodes[i].callers[j].via.Some? && nodes[i].callers[j].via == nodes[i].callers[k].via
    ensures nodes[i].callers[j].result == nodes[i].callers[k].result
    ensures !nodes[i].callers[j].result.TimedOut?
  {
    RunKeeps(digest, nodes, steps, i);
    var n := nodes[i];
    assert CallerOk(digest, n, j) && CallerOk(digest, n, k);
    assert CallOk(digest, n, n.callers[j].via.value);
  }

  /** A text that some resource request with an acceptable answer uses as its key. */
  ghost predicate ResourceShaped(h: string) {
    exists s, r, t :: h == "resource:" + ResourceKey(s, r, t) && (s == "" || (r != "" && t != ""))
  }

  /** The run ends with caller k in this state. */
  ghost predicate EndsWith(digest: seq<Byte> -> string, nodes: seq<Node>, steps: seq<Step>, k: nat, c: Caller) {
    Run(digest, nodes, steps) && k < |nodes[|steps|].callers| && nodes[|steps|].callers[k] == c
  }

  /** In no run does a lookup by h return an object of another address or with other content. */
  ghost predicate AddressHolds(digest: seq<Byte> -> string, h: string) {
    forall nodes, steps, k, o, via :: EndsWith(digest, nodes, steps, k, Returned(ByHash(h), Found(o), via)) ==>
      o.hash == h && digest(o.payload) == h
  }

  /** Whatever is returned, by either kind of lookup, has a payload that digests to its address. */
  lemma ReturnedIsValid(digest: seq<Byte> -> string, nodes: seq<Node>, steps: seq<Step>, i: nat, k: nat)
    requires Run(digest, nodes, steps) && i < |nodes| && k < |nodes[i].callers|
    requires nodes[i].callers[k].Returned? && nodes[i].callers[k].result.Found?
    ensures Valid(digest, nodes[i].callers[k].result.obj)
  {
    RunKeeps(digest, nodes, steps, i);
    assert CallerOk(digest, nodes[i], k);
    if nodes[i].callers[k].via.Some? {
      assert CallOk(digest, nodes[i], nodes[i].callers[k].via.value);
    }
  }

  /** Only the leader of a fetch reports that nothing was found, and whoever shares its call. */
  lemma MissingIsFetched(digest: seq<Byte> -> string, nodes: seq<Node>, steps: seq<Step>, i: nat, k: nat)
    requires Run(digest, nodes, steps) && i < |nodes| && k < |nodes[i].callers|
    requires nodes[i].callers[k].Returned? && nodes[i].callers[k].result.Missing?
    ensures nodes[i].callers[k].via.Some?
  {
    RunKeeps(digest, nodes, steps, i);
    assert CallerOk(digest, nodes[i], k);
  }

  lemma AddressKept(digest: seq<Byte> -> string, nodes: seq<Node>, steps: seq<Step>, k: nat)
    requires Run(digest, nodes, steps) && k < |nodes[|steps|].callers|
    requires var c := nodes[|steps|].callers[k];
             c.Returned? && c.result.Found? && c.req.ByHash? && c.req.hash != "" && !ResourceShaped(c.req.hash)
    ensures nodes[|steps|].callers[k].result.obj.hash == nodes[|steps|].callers[k].req.hash
  {
    var n := nodes[|steps|];
    RunKeeps(digest, nodes, steps, |steps|);
    assert CallerOk(digest, n, k);
    var c := n.callers[k];
    if c.via.Some? {
      assert CallOk(digest, n, c.via.value);
    }
  }

  // ----- exactly what is answered

  /** An object the cache keeps: whole, named, at most 16 MiB, and under its own address. */
  predicate Sound(digest: seq<Byte> -> string, o: Object) {
    && o.typ != "" && o.source != "" && o.resource != ""
    && 0 < |o.payload| && |o.payload| <= 16 * 1024 * 1024 && o.hash == digest(o.payload)
  }

  /** The reply carries o, and o is what was asked for. */
  predicate Suits(digest: seq<Byte> -> string, req: Request, reply: Reply, o: Object) {
    && reply.body == Some(o) && Sound(digest, o) && (reply.hash == "" || reply.hash == o.hash)
    && match req
       case ByHash(h) => reply.isObject && (h == "" || o.hash == h)
       case ByResource(s, r, t) => s == "" || (o.source == s && o.resource == r && o.typ == t)
  }

  /** A lookup by hash is answered from the store exactly when its file is sound, and goes on exactly when it is not. */
  lemma LocalIff(digest: seq<Byte> -> string, n: Node, k: nat, h: string)
    requires k < |n.callers| && n.callers[k] == Checking(ByHash(h))
    ensures var sound := ValidHash(h) && h in n.files && n.files[h].hash == h && Sound(digest, n.files[h]);
            && (CanStep(digest, n, LocalHit(k, h)) <==> sound) && (CanStep(digest, n, LocalMiss(k)) <==> !sound)
            && (sound ==> Next(digest, n, LocalHit(k, h)).callers[k] == Returned(ByHash(h), Found(n.files[h]), None))
  {
    assert LooksUp(n, ByHash(h), h);
  }

  ghost predicate FetchAt(digest: seq<Byte> -> string, nodes: seq<Node>, steps: seq<Step>, i: nat, k: nat) {
    Run(digest, nodes, steps) && i < |steps| && steps[i].Fetch? && steps[i].k == k && k < |nodes[i].callers|
  }

  /** What the fetch of step i finds: the object of a suitable reply that could be stored. */
  ghost predicate Fetches(digest: seq<Byte> -> string, req: Request, st: Step, o: Object)
    requires st.Fetch?
  {
    st.stored && st.reply.Some? && Suits(digest, req, st.reply.value, o)
  }

  function FetchResult(digest: seq<Byte> -> string, req: Request, st: Step): Result
    requires st.Fetch?
  {
    var o := if st.reply.None? then None else Accept(digest, req, st.reply.value);
    if o.Some? && st.stored then Found(o.value) else Missing
  }

  lemma FoundIff(digest: seq<Byte> -> string, req: Request, st: Step, o: Object)
    requires st.Fetch?
    ensures FetchResult(digest, req, st) == Found(o) <==> Fetches(digest, req, st, o)
  {
  }

  /** The leader of a call has this result, published or not. */
  predicate LedTo(c: Caller, req: Request, call: nat, r: Result) {
    c.req == req && ((c.Fetched? && c.call == call && c.result == r) || c == Returned(req, r, Some(call)))
  }

  lemma LedStays(digest: seq<Byte> -> string, n: Node, st: Step, k: nat, req: Request, call: nat, r: Result)
    requires CanStep(digest, n, st) && k < |n.callers| && LedTo(n.callers[k], req, call, r)
    ensures k < |Next(digest, n, st).callers| && LedTo(Next(digest, n, st).callers[k], req, call, r)
  {
  }

  /** A leader keeps what it fetched, and returns that. */
  lemma {:induction false} FetchedStays(digest: seq<Byte> -> string, nodes: seq<Node>, steps: seq<Step>, i: nat,
                                        k: nat, j: nat)
    requires FetchAt(digest, nodes, steps, i, k) && i < j < |nodes|
    ensures nodes[i].callers[k].Leading? && k < |nodes[j].callers|
    ensures var c := nodes[i].callers[k];
            LedTo(nodes[j].callers[k], c.req, c.call, FetchResult(digest, c.req, steps[i]))
  {
    assert CanStep(digest, nodes[j - 1], steps[j - 1]) && nodes[j] == Next(digest, nodes[j - 1], steps[j - 1]);
    if j > i + 1 {
      FetchedStays(digest, nodes, steps, i, k, j - 1);
      var c := nodes[i].callers[k];
      LedStays(digest, nodes[j - 1], steps[j - 1], k, c.req, c.call, FetchResult(digest, c.req, steps[i]));
    }
  }

  /**
   In every run each caller that came back from a shared call has the object of the reply to the
   one fetch of that call, exactly when the reply suits the request that led it and could be stored.
   */
  lemma AnsweredExactly(digest: seq<Byte> -> string, nodes: seq<Node>, steps: seq<Step>, i: nat, k: nat, j: nat,
                        f: nat, o: Object)
    requires FetchAt(digest, nodes, steps, i, k) && i < j < |nodes|
    requires f < |nodes[j].callers| && nodes[j].callers[f].Returned? && nodes[i].callers[k].Leading?
    requires nodes[j].callers[f].via == Some(nodes[i].callers[k].call)
    ensures nodes[j].callers[f].result == Found(o) <==> Fetches(digest, nodes[i].callers[k].req, steps[i], o)
  {
    FetchedStays(digest, nodes, steps, i, k, j);
    FoundIff(digest, nodes[i].callers[k].req, steps[i], o);
    RunKeeps(digest, nodes, steps, j);
    var n, call := nodes[j], nodes[i].callers[k].call;
    assert CallerOk(digest, n, f) && CallerOk(digest, n, k);
    assert n.calls[call].result == Some(n.callers[f].result);
  }

  /** What a fetch found is kept: the next lookup by its address or by its resource is answered from the store. */
  lemma FetchedIsServed(digest: seq<Byte> -> string, nodes: seq<Node>, steps: seq<Step>, i: nat, k: nat, o: Object,
                        c: nat, req: Request)
    requires HashText(digest) && FetchAt(digest, nodes, steps, i, k)
    requires nodes[i].callers[k].Leading? && Fetches(digest, nodes[i].callers[k].req, steps[i], o)
    requires c < |nodes[i + 1].callers| && nodes[i + 1].callers[c] == Checking(req)
    requires req == ByHash(o.hash) || req == ByResource(o.source, o.resource, o.typ)
    ensures CanStep(digest, nodes[i + 1], LocalHit(c, o.hash))
    ensures Next(digest, nodes[i + 1], LocalHit(c, o.hash)).callers[c] == Returned(req, Found(o), None)
  {
    assert CanStep(digest, nodes[i], steps[i]) && nodes[i + 1] == Next(digest, nodes[i], steps[i]);
    FoundIff(digest, nodes[i].callers[k].req, steps[i], o);
    assert nodes[i + 1].files[o.hash] == o;
    assert ValidHash(digest(o.payload));
  }

  // ----- a lookup by hash that joins a resource fetch

  ghost predicate Reaches(digest: seq<Byte> -> string, nodes: seq<Node>, steps: seq<Step>, n: Node) {
    Run(digest, nodes, steps) && nodes[|steps|] == n
  }

  lemma Extend(digest: seq<Byte> -> string, nodes: seq<Node>, steps: seq<Step>, n: Node, st: Step)
    returns (nodes': seq<Node>, steps': seq<Step>, n': Node)
    requires Reaches(digest, nodes, steps, n) && CanStep(digest, n, st)
    ensures n' == Next(digest, n, st) && Reaches(digest, nodes', steps', n')
  {
    n' := Next(digest, n, st);
    nodes', steps' := nodes + [n'], steps + [st];
  }

  /** A caller asks, misses, and enters. */
  lemma AskAndEnter(digest: seq<Byte> -> string, nodes: seq<Node>, steps: seq<Step>, n: Node, req: Request)
    returns (nodes': seq<Node>, steps': seq<Step>, n': Node)
    requires Reaches(digest, nodes, steps, n) && n.files == map[] && n.index == map[]
    ensures Reaches(digest, nodes', steps', n') && n'.files == map[] && n'.index == map[]
    ensures var k := |n.callers|;
            n' == if KeyOf(req) in n.busy
                  then n.(callers := n.callers + [Following(req, n.busy[KeyOf(req)])])
                  else n.(callers := n.callers + [Leading(req, |n.calls|)],
                          calls := n.calls + [Call(req, KeyOf(req), None, 0)],
                          busy := n.busy[KeyOf(req) := |n.calls|])
  {
    var k := |n.callers|;
    nodes', steps', n' := Extend(digest, nodes, steps, n, Begin(req));
    assert Misses(digest, n', req) by {
      if req.ByHash? {
        assert LooksUp(n', req, req.hash) && StoreGet(digest, n'.files, req.hash).None?;
      }
    }
    nodes', steps', n' := Extend(digest, nodes', steps', n', LocalMiss(k));
    nodes', steps', n' := Extend(digest, nodes', steps', n', Enter(k));
  }

  /** The leader's fetch is answered, and the follower wakes with the same object. */
  lemma FetchAndWake(digest: seq<Byte> -> string, nodes: seq<Node>, steps: seq<Step>, n: Node, lead: Request,
                     follow: Request, reply: Reply, o: Object)
    returns (nodes': seq<Node>, steps': seq<Step>)
    requires Reaches(digest, nodes, steps, n) && n.callers == [Leading(lead, 0), Following(follow, 0)] && |n.calls| == 1
    requires Accept(digest, lead, reply) == Some(o)
    ensures EndsWith(digest, nodes', steps', 0, Returned(lead, Found(o), Some(0)))
    ensures EndsWith(digest, nodes', steps', 1, Returned(follow, Found(o), Some(0)))
  {
    var n' := n;
    nodes', steps', n' := Extend(digest, nodes, steps, n', Fetch(0, Some(reply), true));
    nodes', steps', n' := Extend(digest, nodes', steps', n', Publish(0));
    nodes', steps', n' := Extend(digest, nodes', steps', n', Wake(1));
  }

  /** Every sound object can be had from a peer by its hash, by two callers at once. */
  lemma HadByHash(digest: seq<Byte> -> string, o: Object)
    requires Sound(digest, o)
    ensures exists nodes, steps ::
              && EndsWith(digest, nodes, steps, 0, Returned(ByHash(o.hash), Found(o), Some(0)))
              && EndsWith(digest, nodes, steps, 1, Returned(ByHash(o.hash), Found(o), Some(0)))
  {
    var req, start := ByHash(o.hash), Start(map[], map[]);
    var nodes, steps, n := AskAndEnter(digest, [start], [], start, req);
    nodes, steps, n := AskAndEnter(digest, nodes, steps, n, req);
    nodes, steps := FetchAndWake(digest, nodes, steps, n, req, req, Reply(true, o.hash, Some(o)), o);
  }

  lemma JoinedByResource(digest: seq<Byte> -> string, s: string, r: string, t: string)
    requires HashText(digest) && (s == "" || (r != "" && t != ""))
    ensures !AddressHolds(digest, "resource:" + ResourceKey(s, r, t))
  {
    var req := ByResource(s, r, t);
    var h := KeyOf(req);
    var payload: seq<Byte> := [0];
    var o := if s == "" then Object("t", "s", "r", payload, digest(payload))
             else Object(t, s, r, payload, digest(payload));
    var start := Start(map[], map[]);
    var nodes, steps, n := AskAndEnter(digest, [start], [], start, req);
    nodes, steps, n := AskAndEnter(digest, nodes, steps, n, ByHash(h));
    nodes, steps := FetchAndWake(digest, nodes, steps, n, req, ByHash(h), Reply(true, "", Some(o)), o);
    assert ValidHash(o.hash);
    assert h[0] == 'r';
    assert HexDigit(o.hash[0]);
  }

  /** A lookup by a non-empty hash always answers with that address, exactly when no resource key is that text. */
  lemma AddressHoldsIff(digest: seq<Byte> -> string, h: string)
    requires HashText(digest) && h != ""
    ensures AddressHolds(digest, h) <==> !ResourceShaped(h)
  {
    if ResourceShaped(h) {
      var s, r, t :| h == "resource:" + ResourceKey(s, r, t) && (s == "" || (r != "" && t != ""));
      JoinedByResource(digest, s, r, t);
    } else {
      forall nodes, steps, k, o, via | EndsWith(digest, nodes, steps, k, Returned(ByHash(h), Found(o), via))
        ensures o.hash == h && digest(o.payload) == h
      {
        AddressKept(digest, nodes, steps, k);
        ReturnedIsValid(digest, nodes, steps, |steps|, k);
      }
    }
  }

  /** Every well-formed address is safe. */
  lemma ValidHashIsSafe(h: string)
    requires ValidHash(h)
    ensures !ResourceShaped(h)
  {
    assert HexDigit(h[0]);
    forall s, r, t
      ensures h != "resource:" + ResourceKey(s, r, t)
    {
      assert ("resource:" + ResourceKey(s, r, t))[0] == 'r';
    }
  }
}
