/** Flooding stored-type envelopes through a fixed graph of daemons. */
module Flood {
  import opened Bytes
  import opened Envelope
  import opened Daemon

  // The graph: what each node is configured with and which peers its table lists.
  datatype Graph = Graph(opts: map<Key32, Options>, tables: map<Key32, seq<Peer>>, payloads: Payloads)

  datatype Packet = Packet(from: Key32, to: Key32, env: Envelope)

  // sends lists every send ever made; handled and refused are positions in it: the sends that have
  // arrived, and those a node turned away (stale, too large, rate limited, malformed).
  datatype World = World(
    nodes: map<Key32, State>, sends: seq<Packet>, handled: set<nat>, refused: set<nat>, injected: set<Hash>)

  datatype Step = Inject(node: Key32, env: Envelope, now: int) | Deliver(i: nat, now: int)

  ghost predicate WellFormed(g: Graph) {
    && g.opts.Keys == g.tables.Keys
    && (forall u, i :: u in g.tables && 0 <= i < |g.tables[u]| ==> g.tables[u][i].identity in g.tables)
    && (forall u, i, j :: u in g.tables && 0 <= i < j < |g.tables[u]| ==>
                            g.tables[u][i].identity != g.tables[u][j].identity)
  }

  /** u relays to v: relaying is on and v is a connected peer of at least neutral trust. */
  ghost predicate Edge(g: Graph, u: Key32, v: Key32) {
    u in g.opts && u in g.tables && g.opts[u].relay &&
    exists i :: 0 <= i < |g.tables[u]| && g.tables[u][i].identity == v && Relays(g.tables[u][i], None)
  }

  ghost function Edges(g: Graph): set<(Key32, Key32)> {
    set u, v | u in g.tables.Keys && v in g.tables.Keys && Edge(g, u, v) :: (u, v)
  }

  function HashOf(p: Packet): Hash {
    ContentBytes(p.env)
  }

  ghost predicate Stores(w: World, v: Key32, h: Hash) {
    v in w.nodes && h in w.nodes[v].objects
  }

  predicate InFlight(w: World, i: nat) {
    i < |w.sends| && i !in w.handled
  }

  function Outgoing(u: Key32, targets: seq<Key32>, env: Envelope): (ps: seq<Packet>)
    ensures |ps| == |targets| && forall i :: 0 <= i < |ps| ==> ps[i] == Packet(u, targets[i], env)
  {
    seq(|targets|, i requires 0 <= i < |targets| => Packet(u, targets[i], env))
  }

  ghost predicate Init(g: Graph, w: World) {
    WellFormed(g) && w == World(map u | u in g.tables :: Empty(), [], {}, {}, {})
  }

  /** An envelope is injected once: its content was never injected before. */
  ghost predicate CanStep(g: Graph, w: World, st: Step) {
    match st
    case Inject(u, env, now) =>
      && u in w.nodes && u in g.opts && u in g.tables
      && StoredType(env.kind) && ContentBytes(env) !in w.injected
      && TimestampValid(env.timestamp, now) && g.payloads.valid(env.kind, env.payload)
    case Deliver(i, now) => InFlight(w, i) && w.sends[i].to in w.nodes &&
                            w.sends[i].to in g.opts && w.sends[i].to in g.tables
  }

  /** Node u takes outcome r and its relays go onto the wire. */
  function Emit(w: World, u: Key32, r: Outcome, env: Envelope): World {
    w.(nodes := w.nodes[u := r.state], sends := w.sends + Outgoing(u, r.relayed, env))
  }

  ghost function Next(g: Graph, w: World, st: Step): World
    requires CanStep(g, w, st)
  {
    match st
    case Inject(u, env, now) =>
      Emit(w.(injected := w.injected + {ContentBytes(env)}), u,
           Submit(g.opts[u], g.payloads, g.tables[u], w.nodes[u], env, now), env)
    case Deliver(i, now) =>
      var p := w.sends[i];
      var r := Receive(g.opts[p.to], g.payloads, g.tables[p.to], w.nodes[p.to], p.env, p.from, now);
      Emit(w.(handled := w.handled + {i}, refused := if r.verdict.Rejected? then w.refused + {i} else w.refused),
           p.to, r, p.env)
  }

  ghost predicate Run(g: Graph, worlds: seq<World>, steps: seq<Step>) {
    && |worlds| == |steps| + 1 && Init(g, worlds[0])
    && forall i :: 0 <= i < |steps| ==>
                     CanStep(g, worlds[i], steps[i]) && worlds[i + 1] == Next(g, worlds[i], steps[i])
  }

  // ----- the invariant

  ghost predicate SendsOk(g: Graph, w: World) {
    forall i :: 0 <= i < |w.sends| ==>
      var p := w.sends[i];
      StoredType(p.env.kind) && Edge(g, p.from, p.to) && p.to in g.tables && Stores(w, p.from, HashOf(p))
  }

  predicate SameFlight(p: Packet, q: Packet) {
    p.from == q.from && p.to == q.to && HashOf(p) == HashOf(q)
  }

  ghost predicate SentOnce(sends: seq<Packet>) {
    forall i, j :: 0 <= i < j < |sends| ==> !SameFlight(sends[i], sends[j])
  }

  /** Send i carries h from u to v. */
  ghost predicate Carries(w: World, i: nat, u: Key32, v: Key32, h: Hash) {
    i < |w.sends| && w.sends[i].from == u && w.sends[i].to == v && HashOf(w.sends[i]) == h
  }

  ghost predicate Flying(w: World, u: Key32, v: Key32, h: Hash) {
    exists i :: Carries(w, i, u, v, h) && InFlight(w, i)
  }

  ghost predicate TurnedAway(w: World, u: Key32, v: Key32, h: Hash) {
    exists i :: Carries(w, i, u, v, h) && i in w.refused
  }

  ghost predicate Covered(w: World, u: Key32, v: Key32, h: Hash) {
    Stores(w, v, h) || Flying(w, u, v, h) || TurnedAway(w, u, v, h)
  }

  ghost predicate Sound(g: Graph, w: World) {
    && WellFormed(g) && w.nodes.Keys == g.tables.Keys
    && (forall i :: i in w.handled ==> i < |w.sends|)
    && (forall v, h :: Stores(w, v, h) ==> h in w.injected)
    && SendsOk(g, w)
    && SentOnce(w.sends)
  }

  /** Every edge out of a node that stores h is covered, but for those into v0 for h0. */
  ghost predicate CoveredBut(g: Graph, w: World, v0: Key32, h0: Hash) {
    forall u, v, h :: Stores(w, u, h) && Edge(g, u, v) ==> Covered(w, u, v, h) || (v == v0 && h == h0)
  }

  ghost predicate Inv(g: Graph, w: World) {
    Sound(g, w) && forall u, v, h :: Stores(w, u, h) && Edge(g, u, v) ==> Covered(w, u, v, h)
  }

  ghost predicate Distinct(keys: seq<Key32>) {
    forall i, j :: 0 <= i < j < |keys| ==> keys[i] != keys[j]
  }

  lemma {:induction false} RelayToDistinct(opts: Options, table: seq<Peer>, except: Option<Key32>)
    requires forall i, j :: 0 <= i < j < |table| ==> table[i].identity != table[j].identity
    ensures Distinct(RelayTo(opts, table, except))
  {
    if opts.relay && table != [] {
      RelayToDistinct(opts, table[1..], except);
      var rest := RelayTo(opts, table[1..], except);
      RelayToCharacterised(opts, table[1..], except, table[0].identity);
      assert table[0].identity !in rest;
    }
  }

  lemma RelayTargets(g: Graph, u: Key32, except: Option<Key32>, v: Key32)
    requires WellFormed(g) && u in g.tables
    ensures v in RelayTo(g.opts[u], g.tables[u], except) <==> Edge(g, u, v) && except != Some(v)
  {
    RelayToCharacterised(g.opts[u], g.tables[u], except, v);
  }

  /** Outcome r of handling env at u stores it for the first time and relays it. */
  ghost predicate FirstStore(g: Graph, w: World, u: Key32, r: Outcome, env: Envelope, except: Option<Key32>) {
    && u in w.nodes && u in g.opts && u in g.tables
    && StoredType(env.kind) && ContentBytes(env) in w.injected && !Stores(w, u, ContentBytes(env))
    && r.relayed == RelayTo(g.opts[u], g.tables[u], except)
    && r.state.objects == w.nodes[u].objects[ContentBytes(env) := env]
    && (except.Some? ==> Stores(w, except.value, ContentBytes(env)))
  }

  lemma FirstStoreOnce(g: Graph, w: World, u: Key32, r: Outcome, env: Envelope, except: Option<Key32>)
    requires Sound(g, w) && FirstStore(g, w, u, r, env, except)
    ensures SentOnce(Emit(w, u, r, env).sends)
  {
    var sends, n, ts := Emit(w, u, r, env).sends, |w.sends|, r.relayed;
    RelayToDistinct(g.opts[u], g.tables[u], except);
    assert |sends| == n + |ts|;
    forall i, j | 0 <= i < j < |sends|
      ensures !SameFlight(sends[i], sends[j])
    {
      if i >= n {
        assert sends[i] == Packet(u, ts[i - n], env) && sends[j] == Packet(u, ts[j - n], env);
        assert ts[i - n] != ts[j - n];
      } else if j >= n {
        assert Stores(w, w.sends[i].from, HashOf(w.sends[i]));
      }
    }
  }

  lemma FirstStoreSound(g: Graph, w: World, u: Key32, r: Outcome, env: Envelope, except: Option<Key32>)
    requires Sound(g, w) && FirstStore(g, w, u, r, env, except)
    ensures Sound(g, Emit(w, u, r, env))
  {
    var w' := Emit(w, u, r, env);
    var n := |w.sends|;
    forall v, h | Stores(w', v, h)
      ensures h in w'.injected
    {
      assert Stores(w, v, h) || h == ContentBytes(env);
    }
    forall i | n <= i < |w'.sends|
      ensures Edge(g, u, w'.sends[i].to) && w'.sends[i].to in g.tables
    {
      assert w'.sends[i] == Packet(u, r.relayed[i - n], env);
      RelayTargets(g, u, except, r.relayed[i - n]);
    }
    FirstStoreOnce(g, w, u, r, env, except);
    forall i | 0 <= i < n
      ensures Stores(w', w.sends[i].from, HashOf(w.sends[i]))
    {
      assert Stores(w, w.sends[i].from, HashOf(w.sends[i]));
    }
  }

  lemma CoverGrows(w: World, w': World, u: Key32, v: Key32, h: Hash)
    requires w.sends <= w'.sends && w.handled == w'.handled && w.refused <= w'.refused
    requires Stores(w, v, h) ==> Stores(w', v, h)
    requires Covered(w, u, v, h)
    ensures Covered(w', u, v, h)
  {
    if Flying(w, u, v, h) {
      var i :| Carries(w, i, u, v, h) && InFlight(w, i);
      assert Carries(w', i, u, v, h) && InFlight(w', i);
    } else if TurnedAway(w, u, v, h) {
      var i :| Carries(w, i, u, v, h) && i in w.refused;
      assert Carries(w', i, u, v, h) && i in w'.refused;
    }
  }

  lemma FirstStoreCovers(g: Graph, w: World, u: Key32, r: Outcome, env: Envelope, except: Option<Key32>)
    requires Sound(g, w) && FirstStore(g, w, u, r, env, except) && CoveredBut(g, w, u, ContentBytes(env))
    ensures var w' := Emit(w, u, r, env);
            forall x, v, h :: Stores(w', x, h) && Edge(g, x, v) ==> Covered(w', x, v, h)
  {
    var w' := Emit(w, u, r, env);
    forall x, v, h | Stores(w', x, h) && Edge(g, x, v)
      ensures Covered(w', x, v, h)
    {
      if x == u && h == ContentBytes(env) {
        RelayTargets(g, u, except, v);
        if except != Some(v) {
          var k :| 0 <= k < |r.relayed| && r.relayed[k] == v;
          var i := |w.sends| + k;
          assert w'.sends[i] == Packet(u, v, env);
          assert Carries(w', i, u, v, h) && InFlight(w', i);
        }
      } else {
        assert Stores(w, x, h);
        if Covered(w, x, v, h) {
          CoverGrows(w, w', x, v, h);
        }
      }
    }
  }

  lemma InjectKeeps(g: Graph, w: World, u: Key32, env: Envelope, now: int)
    requires Inv(g, w) && CanStep(g, w, Inject(u, env, now))
    ensures Inv(g, Next(g, w, Inject(u, env, now)))
  {
    var w1 := w.(injected := w.injected + {ContentBytes(env)});
    var r := Submit(g.opts[u], g.payloads, g.tables[u], w.nodes[u], env, now);
    assert forall v, h :: Stores(w1, v, h) <==> Stores(w, v, h);
    forall x, v, h | Covered(w, x, v, h)
      ensures Covered(w1, x, v, h)
    {
      CoverGrows(w, w1, x, v, h);
    }
    FirstStoreSound(g, w1, u, r, env, None);
    FirstStoreCovers(g, w1, u, r, env, None);
  }

  /** Taking send i off the wire leaves only its own edge uncovered. */
  lemma LandKeeps(g: Graph, w: World, i: nat, w1: World)
    requires Inv(g, w) && InFlight(w, i)
    requires w1 == w.(handled := w.handled + {i}) || w1 == w.(handled := w.handled + {i}, refused := w.refused + {i})
    ensures Sound(g, w1)
    ensures CoveredBut(g, w1, w.sends[i].to, HashOf(w.sends[i]))
    ensures i in w1.refused ==> forall x, v, h :: Stores(w1, x, h) && Edge(g, x, v) ==> Covered(w1, x, v, h)
  {
    assert forall v, h :: Stores(w1, v, h) <==> Stores(w, v, h);
    forall x, v, h | Stores(w1, x, h) && Edge(g, x, v)
      ensures Covered(w1, x, v, h) || (i !in w1.refused && v == w.sends[i].to && h == HashOf(w.sends[i]))
    {
      assert Stores(w, x, h);
      if Flying(w, x, v, h) {
        var j :| Carries(w, j, x, v, h) && InFlight(w, j);
        assert Carries(w1, j, x, v, h) && (j == i || InFlight(w1, j));
      } else if TurnedAway(w, x, v, h) {
        var j :| Carries(w, j, x, v, h) && j in w.refused;
        assert Carries(w1, j, x, v, h) && j in w1.refused;
      }
    }
  }

  /** Nothing new is stored and nothing relayed. */
  lemma QuietKeeps(g: Graph, w: World, u: Key32, st: State, env: Envelope, verdict: Verdict)
    requires Inv(g, w) && u in w.nodes && st.objects == w.nodes[u].objects
    ensures Inv(g, Emit(w, u, Outcome(st, [], verdict), env))
  {
    var w' := Emit(w, u, Outcome(st, [], verdict), env);
    assert w'.sends == w.sends;
    assert forall v, h :: Stores(w', v, h) <==> Stores(w, v, h);
    forall x, v, h | Stores(w', x, h) && Edge(g, x, v)
      ensures Covered(w', x, v, h)
    {
      CoverGrows(w, w', x, v, h);
    }
  }

  lemma DeliverKeeps(g: Graph, w: World, i: nat, now: int)
    requires Inv(g, w) && CanStep(g, w, Deliver(i, now))
    ensures Inv(g, Next(g, w, Deliver(i, now)))
  {
    var p := w.sends[i];
    var r := Receive(g.opts[p.to], g.payloads, g.tables[p.to], w.nodes[p.to], p.env, p.from, now);
    var w1 := w.(handled := w.handled + {i}, refused := if r.verdict.Rejected? then w.refused + {i} else w.refused);
    LandKeeps(g, w, i, w1);
    if r.verdict.Accepted? {
      FirstStoreSound(g, w1, p.to, r, p.env, Some(p.from));
      FirstStoreCovers(g, w1, p.to, r, p.env, Some(p.from));
    } else {
      if r.verdict.Duplicate? {
        assert Stores(w1, p.to, HashOf(p));
      }
      assert Inv(g, w1);
      QuietKeeps(g, w1, p.to, r.state, p.env, r.verdict);
    }
  }

  lemma {:induction false} RunKeeps(g: Graph, worlds: seq<World>, steps: seq<Step>, i: nat)
    requires Run(g, worlds, steps) && i < |worlds|
    ensures Inv(g, worlds[i])
  {
    if i > 0 {
      RunKeeps(g, worlds, steps, i - 1);
      match steps[i - 1]
      case Inject(u, env, now) => InjectKeeps(g, worlds[i - 1], u, env, now);
      case Deliver(k, now) => DeliverKeeps(g, worlds[i - 1], k, now);
    }
  }

  // ----- the theorems

  /** Each content crosses each relaying edge at most once, and nothing else is sent. */
  lemma AtMostOneSendPerEdge(g: Graph, worlds: seq<World>, steps: seq<Step>, i: nat)
    requires Run(g, worlds, steps) && i < |worlds|
    ensures forall a, b :: 0 <= a < b < |worlds[i].sends| ==> !SameFlight(worlds[i].sends[a], worlds[i].sends[b])
    ensures forall a :: 0 <= a < |worlds[i].sends| ==>
      (worlds[i].sends[a].from, worlds[i].sends[a].to) in Edges(g)
  {
    RunKeeps(g, worlds, steps, i);
    forall a | 0 <= a < |worlds[i].sends|
      ensures (worlds[i].sends[a].from, worlds[i].sends[a].to) in Edges(g)
    {
      var p := worlds[i].sends[a];
      assert Stores(worlds[i], p.from, HashOf(p));
      assert Edge(g, p.from, p.to);
    }
  }

  /** Distinct positions with distinct images are at most as many as the images. */
  lemma {:induction false} InjectionBound(w: World, ps: set<nat>, es: set<(Key32, Key32)>)
    requires forall a :: a in ps ==> a < |w.sends| && (w.sends[a].from, w.sends[a].to) in es
    requires forall a, b :: a in ps && b in ps && a != b ==>
      (w.sends[a].from, w.sends[a].to) != (w.sends[b].from, w.sends[b].to)
    ensures |ps| <= |es|
    decreases |ps|
  {
    if ps != {} {
      var a :| a in ps;
      InjectionBound(w, ps - {a}, es - {(w.sends[a].from, w.sends[a].to)});
    }
  }

  /** However one picks sends of one content, they are at most as many as the relaying edges. */
  lemma FloodBound(g: Graph, worlds: seq<World>, steps: seq<Step>, i: nat, h: Hash, ps: set<nat>)
    requires Run(g, worlds, steps) && i < |worlds|
    requires forall a :: a in ps ==> a < |worlds[i].sends| && HashOf(worlds[i].sends[a]) == h
    ensures |ps| <= |Edges(g)|
  {
    AtMostOneSendPerEdge(g, worlds, steps, i);
    var w := worlds[i];
    forall a, b | a in ps && b in ps && a != b
      ensures (w.sends[a].from, w.sends[a].to) != (w.sends[b].from, w.sends[b].to)
    {
      if a < b {
        assert !SameFlight(w.sends[a], w.sends[b]);
      } else {
        assert !SameFlight(w.sends[b], w.sends[a]);
      }
    }
    InjectionBound(w, ps, Edges(g));
  }

  function Deliveries(steps: seq<Step>): nat {
    if steps == [] then 0 else Deliveries(steps[..|steps| - 1]) + if steps[|steps| - 1].Deliver? then 1 else 0
  }

  /** Every delivery handles one send for good. */
  lemma {:induction false} DeliveriesHandle(g: Graph, worlds: seq<World>, steps: seq<Step>, i: nat)
    requires Run(g, worlds, steps) && i < |worlds|
    ensures Deliveries(steps[..i]) == |worlds[i].handled|
  {
    if i > 0 {
      DeliveriesHandle(g, worlds, steps, i - 1);
      assert CanStep(g, worlds[i - 1], steps[i - 1]);
      assert steps[..i][..i - 1] == steps[..i - 1];
    }
  }

  lemma {:induction false} OnlyInjectedIsSent(g: Graph, worlds: seq<World>, steps: seq<Step>, i: nat, h: Hash)
    requires Run(g, worlds, steps) && i < |worlds|
    requires forall k :: 0 <= k < i && steps[k].Inject? ==> ContentBytes(steps[k].env) == h
    ensures worlds[i].injected <= {h}
  {
    if i > 0 {
      OnlyInjectedIsSent(g, worlds, steps, i - 1, h);
    }
  }

  /** A run that injects one content once ends after at most one delivery per relaying edge. */
  lemma FloodTerminates(g: Graph, worlds: seq<World>, steps: seq<Step>, h: Hash)
    requires Run(g, worlds, steps)
    requires forall k :: 0 <= k < |steps| && steps[k].Inject? ==> ContentBytes(steps[k].env) == h
    ensures Deliveries(steps) <= |Edges(g)|
  {
    var n := |steps|;
    var w := worlds[n];
    DeliveriesHandle(g, worlds, steps, n);
    assert steps[..n] == steps;
    OnlyInjectedIsSent(g, worlds, steps, n, h);
    RunKeeps(g, worlds, steps, n);
    forall a | a in w.handled
      ensures a < |w.sends| && HashOf(w.sends[a]) == h
    {
      assert Stores(w, w.sends[a].from, HashOf(w.sends[a]));
    }
    FloodBound(g, worlds, steps, n, h, w.handled);
  }

  /** A path over relaying edges on which no node turned h away. */
  ghost predicate OpenPath(g: Graph, w: World, path: seq<Key32>, h: Hash) {
    path != [] &&
    forall k :: 0 <= k < |path| - 1 ==> Edge(g, path[k], path[k + 1]) && !TurnedAway(w, path[k], path[k + 1], h)
  }

  ghost predicate Quiet(w: World) {
    forall i :: 0 <= i < |w.sends| ==> i in w.handled
  }

  /** When nothing is in flight, whatever a storing node reaches by an open path stores it too. */
  lemma {:induction false} FloodReaches(g: Graph, worlds: seq<World>, steps: seq<Step>, i: nat, path: seq<Key32>,
                                        h: Hash)
    requires Run(g, worlds, steps) && i < |worlds| && Quiet(worlds[i])
    requires OpenPath(g, worlds[i], path, h) && Stores(worlds[i], path[0], h)
    ensures Stores(worlds[i], path[|path| - 1], h)
    decreases |path|
  {
    if |path| > 1 {
      RunKeeps(g, worlds, steps, i);
      assert Edge(g, path[0], path[1]);
      assert Covered(worlds[i], path[0], path[1], h);
      FloodReaches(g, worlds, steps, i, path[1..], h);
    }
  }

  /** An injected content is stored where it was injected, and stays there. */
  lemma {:induction false} InjectedStays(g: Graph, worlds: seq<World>, steps: seq<Step>, k: nat, i: nat)
    requires Run(g, worlds, steps) && k < i < |worlds| && steps[k].Inject?
    ensures Stores(worlds[i], steps[k].node, ContentBytes(steps[k].env))
    decreases i
  {
    RunKeeps(g, worlds, steps, i - 1);
    if i > k + 1 {
      InjectedStays(g, worlds, steps, k, i - 1);
      StoredStays(g, worlds[i - 1], steps[i - 1], steps[k].node, ContentBytes(steps[k].env));
    } else {
      assert !Stores(worlds[k], steps[k].node, ContentBytes(steps[k].env));
    }
  }

  lemma StoredStays(g: Graph, w: World, st: Step, v: Key32, h: Hash)
    requires Inv(g, w) && CanStep(g, w, st) && Stores(w, v, h)
    ensures Stores(Next(g, w, st), v, h)
  {
  }

  /**
   The flood's promise: once nothing is in flight, every node reachable from the injecting
   node over relaying edges that turned nothing away stores the envelope.
   */
  lemma FloodCompletes(g: Graph, worlds: seq<World>, steps: seq<Step>, k: nat, path: seq<Key32>)
    requires Run(g, worlds, steps) && k < |steps| && steps[k].Inject? && Quiet(worlds[|steps|])
    requires OpenPath(g, worlds[|steps|], path, ContentBytes(steps[k].env)) && path[0] == steps[k].node
    ensures Stores(worlds[|steps|], path[|path| - 1], ContentBytes(steps[k].env))
  {
    InjectedStays(g, worlds, steps, k, |steps|);
    FloodReaches(g, worlds, steps, |steps|, path, ContentBytes(steps[k].env));
  }
}
