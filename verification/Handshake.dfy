/**
 The four-step federation handshake between two honest ends, symbolically: a nonce and an
 ephemeral key are names owned by the attempt that drew them, the shared key of two ephemeral
 keys is the unordered pair of their owners, a signed message names the identity that signed it, and
 a session frame opens only under its own key and direction tag. Messages on the connection are
 never altered but may be lost, delayed, duplicated, and read by any attempt that is running at the
 receiving end.
 */
module Handshake {
  import opened Bytes

  datatype Side = Left | Right

  function Other(s: Side): Side {
    if s.Left? then Right else Left
  }

  datatype Role = Initiator | Responder

  datatype Nonce = Nonce(owner: nat)

  datatype Public = Public(owner: nat)

  datatype Key = Key(owners: set<nat>)

  datatype Tag = InitiatorToResponder | ResponderToInitiator

  // The key an attempt signs with and what it announces; any of it may change from attempt to attempt.
  datatype Config = Config(identity: nat, caps: nat, agent: string, policy: nat)

  datatype Body = Policy(policy: nat) | Traffic(data: nat)

  // sender: the identity that signed the message.
  datatype Message =
    | Hello(sender: nat, caps: nat, nonce: Nonce, agent: string)
    | HelloAck(sender: nat, caps: nat, nonce: Nonce, echo: Nonce, session: Public, agent: string)
    | Complete(sender: nat, echo: Nonce, session: Public)
    | Sealed(sender: nat, key: Key, tag: Tag, body: Body)

  datatype Session = Session(
    key: Key, sendTag: Tag, recvTag: Tag, peer: nat, caps: nat, agent: string, policy: Option<nat>)

  datatype Stage =
    AwaitHello | AwaitAck | AwaitComplete | SendingPolicy | AwaitPolicy | Established | Failed

  // What a HELLO announced and who signed it.
  datatype Heard = Silence | Heard(identity: nat, caps: nat, agent: string)

  // peer: the nonce heard from the other side. heard: its HELLO. session: once derived.
  datatype Attempt = Attempt(
    side: Side, role: Role, cfg: Config, stage: Stage, peer: Option<Nonce>, heard: Heard,
    session: Option<Session>)

  datatype Packet = Packet(from: Side, msg: Message)

  datatype World = World(attempts: seq<Attempt>, net: set<Packet>)

  datatype Step =
    | Initiate(side: Side, cfg: Config)
    | Respond(side: Side, cfg: Config)
    | Receive(a: nat, msg: Message)
    | SendPolicy(a: nat)
    | SendTraffic(a: nat, data: nat)
    | Fail(a: nat)

  /** X25519 and HKDF of a private key and the other public key; the same from either end. */
  function SharedKey(private: nat, public: Public): Key {
    Key({private, public.owner})
  }

  function DeriveSession(private: nat, public: Public, initiator: bool, peer: nat, caps: nat,
                         agent: string): Session {
    if initiator
    then Session(SharedKey(private, public), InitiatorToResponder, ResponderToInitiator, peer, caps, agent, None)
    else Session(SharedKey(private, public), ResponderToInitiator, InitiatorToResponder, peer, caps, agent, None)
  }

  /** Whether a session frame decrypts; anything else on the connection is skipped. */
  predicate Opens(s: Session, m: Message) {
    m.Sealed? && m.key == s.key && m.tag == s.recvTag
  }

  datatype Reaction = Reaction(next: Attempt, reply: Option<Message>)

  /** Attempt number a takes the next message from the connection. */
  function React(a: nat, t: Attempt, m: Message): Reaction {
    match t.stage
    case AwaitHello =>
      if m.Hello? then
        Reaction(t.(stage := AwaitComplete, peer := Some(m.nonce), heard := Heard(m.sender, m.caps, m.agent)),
                 Some(HelloAck(t.cfg.identity, t.cfg.caps, Nonce(a), m.nonce, Public(a), t.cfg.agent)))
      else Reaction(t.(stage := Failed), None)
    case AwaitAck =>
      if m.HelloAck? && m.echo == Nonce(a) then
        Reaction(t.(stage := SendingPolicy, peer := Some(m.nonce),
                    session := Some(DeriveSession(a, m.session, true, m.sender, m.caps, m.agent))),
                 Some(Complete(t.cfg.identity, m.nonce, Public(a))))
      else Reaction(t.(stage := Failed), None)
    case AwaitComplete =>
      if m.Complete? && t.heard.Heard? && m.sender == t.heard.identity && m.echo == Nonce(a) then
        var h := t.heard;
        Reaction(t.(stage := AwaitPolicy,
                    session := Some(DeriveSession(a, m.session, false, h.identity, h.caps, h.agent))), None)
      else Reaction(t.(stage := Failed), None)
    case AwaitPolicy =>
      if t.session.None? || !Opens(t.session.value, m) then Reaction(t, None)
      else if m.body.Policy? && m.sender == t.session.value.peer then
        Reaction(t.(stage := if t.role.Initiator? then Established else SendingPolicy,
                    session := Some(t.session.value.(policy := Some(m.body.policy)))), None)
      else Reaction(t.(stage := Failed), None)
    case _ => Reaction(t, None)
  }

  predicate Reading(st: Stage) {
    st.AwaitHello? || st.AwaitAck? || st.AwaitComplete? || st.AwaitPolicy?
  }

  predicate CanStep(w: World, st: Step) {
    match st
    case Initiate(_, _) => true
    case Respond(_, _) => true
    case Receive(a, m) =>
      a < |w.attempts| && Reading(w.attempts[a].stage) && Packet(Other(w.attempts[a].side), m) in w.net
    case SendPolicy(a) => a < |w.attempts| && w.attempts[a].stage.SendingPolicy? && w.attempts[a].session.Some?
    case SendTraffic(a, _) => a < |w.attempts| && w.attempts[a].stage.Established? && w.attempts[a].session.Some?
    case Fail(a) => a < |w.attempts| && !w.attempts[a].stage.Established?
  }

  function Frame(t: Attempt, body: Body): Message
    requires t.session.Some?
  {
    Sealed(t.cfg.identity, t.session.value.key, t.session.value.sendTag, body)
  }

  function Next(w: World, st: Step): World
    requires CanStep(w, st)
  {
    match st
    case Initiate(side, cfg) =>
      World(w.attempts + [Attempt(side, Initiator, cfg, AwaitAck, None, Silence, None)],
            w.net + {Packet(side, Hello(cfg.identity, cfg.caps, Nonce(|w.attempts|), cfg.agent))})
    case Respond(side, cfg) =>
      w.(attempts := w.attempts + [Attempt(side, Responder, cfg, AwaitHello, None, Silence, None)])
    case Receive(a, m) =>
      var t := w.attempts[a];
      var r := React(a, t, m);
      World(w.attempts[a := r.next], if r.reply.None? then w.net else w.net + {Packet(t.side, r.reply.value)})
    case SendPolicy(a) =>
      var t := w.attempts[a];
      World(w.attempts[a := t.(stage := if t.role.Initiator? then AwaitPolicy else Established)],
            w.net + {Packet(t.side, Frame(t, Policy(t.cfg.policy)))})
    case SendTraffic(a, data) =>
      var t := w.attempts[a];
      w.(net := w.net + {Packet(t.side, Frame(t, Traffic(data)))})
    case Fail(a) => w.(attempts := w.attempts[a := w.attempts[a].(stage := Failed)])
  }

  ghost predicate Run(worlds: seq<World>, steps: seq<Step>) {
    && |worlds| == |steps| + 1 && worlds[0] == World([], {})
    && forall i :: 0 <= i < |steps| ==> CanStep(worlds[i], steps[i]) && worlds[i + 1] == Next(worlds[i], steps[i])
  }

  // ----- the invariant

  /** Attempt i is an initiator on this side. */
  ghost predicate Initiates(ts: seq<Attempt>, i: nat, side: Side) {
    i < |ts| && ts[i].side == side && ts[i].role.Initiator?
  }

  /** Attempt j is a responder on this side that has answered a HELLO. */
  ghost predicate Responds(ts: seq<Attempt>, j: nat, side: Side) {
    j < |ts| && ts[j].side == side && ts[j].role.Responder? && ts[j].peer.Some?
  }

  ghost predicate Genuine(ts: seq<Attempt>, p: Packet) {
    match p.msg
    case Hello(sender, caps, nonce, agent) =>
      Initiates(ts, nonce.owner, p.from) &&
      var c := ts[nonce.owner].cfg;
      sender == c.identity && caps == c.caps && agent == c.agent
    case HelloAck(sender, caps, nonce, echo, session, agent) =>
      Responds(ts, nonce.owner, p.from) &&
      var t := ts[nonce.owner];
      && sender == t.cfg.identity && caps == t.cfg.caps && agent == t.cfg.agent
      && session == Public(nonce.owner) && t.peer == Some(echo)
    case Complete(sender, echo, session) =>
      Initiates(ts, session.owner, p.from) &&
      sender == ts[session.owner].cfg.identity && ts[session.owner].peer == Some(echo)
    case Sealed(_, _, _, _) => exists a :: Wrote(ts, a, p)
  }

  ghost predicate Wrote(ts: seq<Attempt>, a: nat, p: Packet) {
    p.msg.Sealed? && a < |ts| && ts[a].side == p.from && p.msg.sender == ts[a].cfg.identity && ts[a].session.Some? &&
    p.msg.key == ts[a].session.value.key && p.msg.tag == ts[a].session.value.sendTag &&
    (p.msg.body.Policy? ==> p.msg.body.policy == ts[a].cfg.policy)
  }

  /** A policy that was received is the partner's, and the partner has its session too. */
  ghost predicate PolicyKnown(s: Session, theirs: Attempt) {
    s.policy.Some? ==> s.policy.value == theirs.cfg.policy && theirs.session.Some?
  }

  function HeardFrom(c: Config): Heard {
    Heard(c.identity, c.caps, c.agent)
  }

  ghost predicate InitiatorOk(ts: seq<Attempt>, i: nat)
    requires i < |ts|
  {
    var t := ts[i];
    && !t.stage.AwaitHello? && !t.stage.AwaitComplete?
    && (t.peer.Some? <==> t.session.Some?)
    && (t.stage.AwaitAck? ==> t.peer.None?)
    && (t.stage.SendingPolicy? || t.stage.AwaitPolicy? || t.stage.Established? ==> t.session.Some?)
    && (t.stage.Established? ==> t.session.Some? && t.session.value.policy.Some?)
    && (t.peer.Some? ==>
          var j := t.peer.value.owner;
          && Responds(ts, j, Other(t.side)) && ts[j].peer == Some(Nonce(i))
          && t.session.value.(policy := None) ==
             DeriveSession(i, Public(j), true, ts[j].cfg.identity, ts[j].cfg.caps, ts[j].cfg.agent)
          && PolicyKnown(t.session.value, ts[j]))
  }

  ghost predicate ResponderOk(ts: seq<Attempt>, j: nat)
    requires j < |ts|
  {
    var t := ts[j];
    && !t.stage.AwaitAck?
    && (t.stage.AwaitHello? ==> t.peer.None?)
    && (t.stage.AwaitComplete? ==> t.session.None? && t.peer.Some?)
    && (t.stage.SendingPolicy? || t.stage.AwaitPolicy? || t.stage.Established? ==> t.session.Some?)
    && (t.stage.SendingPolicy? || t.stage.Established? ==> t.session.Some? && t.session.value.policy.Some?)
    && (t.session.Some? ==> t.peer.Some?)
    && (t.peer.Some? ==>
          var i := t.peer.value.owner;
          && Initiates(ts, i, Other(t.side)) && t.heard == HeardFrom(ts[i].cfg)
          && (t.session.Some? ==>
                && ts[i].peer == Some(Nonce(j))
                && t.session.value.(policy := None) ==
                   DeriveSession(j, Public(i), false, ts[i].cfg.identity, ts[i].cfg.caps, ts[i].cfg.agent)
                && PolicyKnown(t.session.value, ts[i])))
  }

  ghost predicate AttemptOk(ts: seq<Attempt>, a: nat)
    requires a < |ts|
  {
    if ts[a].role.Initiator? then InitiatorOk(ts, a) else ResponderOk(ts, a)
  }

  ghost predicate Inv(w: World) {
    && (forall a :: 0 <= a < |w.attempts| ==> AttemptOk(w.attempts, a))
    && (forall p :: p in w.net ==> Genuine(w.attempts, p))
  }

  /** Attempts only learn: what the invariant says of the others survives a step of one of them. */
  ghost predicate Grew(t: Attempt, t': Attempt) {
    && t'.side == t.side && t'.role == t.role && t'.cfg == t.cfg
    && (t.peer.Some? ==> t'.peer == t.peer)
    && (t.session.Some? ==> t'.session.Some? && t'.session.value.key == t.session.value.key &&
                            t'.session.value.sendTag == t.session.value.sendTag)
  }

  ghost predicate AllGrew(ts: seq<Attempt>, ts': seq<Attempt>) {
    |ts| <= |ts'| && forall a :: 0 <= a < |ts| ==> Grew(ts[a], ts'[a])
  }

  lemma GenuineStays(ts: seq<Attempt>, ts': seq<Attempt>, p: Packet)
    requires AllGrew(ts, ts') && Genuine(ts, p)
    ensures Genuine(ts', p)
  {
    if p.msg.Sealed? {
      var a: nat :| Wrote(ts, a, p);
      assert Grew(ts[a], ts'[a]);
      assert Wrote(ts', a, p);
    }
  }

  lemma OthersStay(ts: seq<Attempt>, ts': seq<Attempt>, a: nat)
    requires AllGrew(ts, ts') && a < |ts| && ts'[a] == ts[a] && AttemptOk(ts, a)
    ensures AttemptOk(ts', a)
  {
    if ts[a].peer.Some? {
      assert Grew(ts[ts[a].peer.value.owner], ts'[ts[a].peer.value.owner]);
    }
  }

  /** A frame that opens in an attempt's session was written by the attempt it is paired with. */
  lemma OpenedByPartner(ts: seq<Attempt>, a: nat, b: nat, p: Packet)
    requires a < |ts| && AttemptOk(ts, a) && ts[a].session.Some?
    requires b < |ts| && AttemptOk(ts, b) && Wrote(ts, b, p)
    requires p.from == Other(ts[a].side) && Opens(ts[a].session.value, p.msg)
    ensures ts[a].peer.Some? && b == ts[a].peer.value.owner
  {
    var q, r := ts[a].peer.value.owner, ts[b].peer.value.owner;
    assert ts[a].session.value.key == Key({a, q});
    assert ts[b].session.value.key == Key({b, r});
    assert b in {a, q};
  }

  lemma KeepAll(w: World, w': World, c: nat)
    requires Inv(w) && AllGrew(w.attempts, w'.attempts)
    requires |w.attempts| == |w'.attempts| && c < |w.attempts|
    requires forall a :: 0 <= a < |w.attempts| && a != c ==> w'.attempts[a] == w.attempts[a]
    requires AttemptOk(w'.attempts, c)
    requires forall p :: p in w'.net ==> p in w.net || Genuine(w'.attempts, p)
    ensures Inv(w')
  {
    forall a | 0 <= a < |w'.attempts|
      ensures AttemptOk(w'.attempts, a)
    {
      if a != c {
        OthersStay(w.attempts, w'.attempts, a);
      }
    }
    forall p | p in w'.net
      ensures Genuine(w'.attempts, p)
    {
      if p in w.net {
        GenuineStays(w.attempts, w'.attempts, p);
      }
    }
  }

  lemma BeginKeeps(w: World, st: Step)
    requires Inv(w) && (st.Initiate? || st.Respond?)
    ensures Inv(Next(w, st))
  {
    var w' := Next(w, st);
    forall a | 0 <= a < |w'.attempts|
      ensures AttemptOk(w'.attempts, a)
    {
      if a < |w.attempts| {
        OthersStay(w.attempts, w'.attempts, a);
      }
    }
    forall p | p in w'.net
      ensures Genuine(w'.attempts, p)
    {
      if p in w.net {
        GenuineStays(w.attempts, w'.attempts, p);
      }
    }
  }

  lemma ReaderGrew(ts: seq<Attempt>, a: nat, m: Message)
    requires a < |ts| && AttemptOk(ts, a)
    ensures AllGrew(ts, ts[a := React(a, ts[a], m).next])
  {
  }

  /** The attempt that reads a genuine handshake message is still in order. */
  lemma HandshakeReaderOk(ts: seq<Attempt>, a: nat, m: Message)
    requires a < |ts| && AttemptOk(ts, a) && !ts[a].stage.AwaitPolicy? && Genuine(ts, Packet(Other(ts[a].side), m))
    requires m.Complete? && m.session.owner < |ts| ==> AttemptOk(ts, m.session.owner)
    ensures AttemptOk(ts[a := React(a, ts[a], m).next], a)
  {
    assert Initiates(ts, a, ts[a].side) || ts[a].role.Responder?;
  }

  /** So is one that waits for the policy: a frame it opens is its partner's. */
  lemma PolicyReaderOk(w: World, a: nat, m: Message)
    requires Inv(w) && CanStep(w, Receive(a, m)) && w.attempts[a].stage.AwaitPolicy?
    ensures AttemptOk(w.attempts[a := React(a, w.attempts[a], m).next], a)
  {
    var t := w.attempts[a];
    var p := Packet(Other(t.side), m);
    assert Genuine(w.attempts, p) && AttemptOk(w.attempts, a);
    if Opens(t.session.value, m) {
      var b: nat :| Wrote(w.attempts, b, p);
      assert AttemptOk(w.attempts, b);
      OpenedByPartner(w.attempts, a, b, p);
    }
  }

  lemma ReceiveKeeps(w: World, a: nat, m: Message)
    requires Inv(w) && CanStep(w, Receive(a, m))
    ensures Inv(Next(w, Receive(a, m)))
  {
    assert AttemptOk(w.attempts, a);
    assert Genuine(w.attempts, Packet(Other(w.attempts[a].side), m));
    ReaderGrew(w.attempts, a, m);
    if w.attempts[a].stage.AwaitPolicy? {
      PolicyReaderOk(w, a, m);
    } else {
      HandshakeReaderOk(w.attempts, a, m);
    }
    KeepAll(w, Next(w, Receive(a, m)), a);
  }

  lemma WriteKeeps(w: World, st: Step)
    requires Inv(w) && CanStep(w, st) && (st.SendPolicy? || st.SendTraffic? || st.Fail?)
    ensures Inv(Next(w, st))
  {
    var w', t := Next(w, st), w.attempts[st.a];
    assert AttemptOk(w.attempts, st.a);
    assert AttemptOk(w'.attempts, st.a);
    if st.SendPolicy? {
      assert Wrote(w'.attempts, st.a, Packet(t.side, Frame(t, Policy(t.cfg.policy))));
    } else if st.SendTraffic? {
      assert Wrote(w'.attempts, st.a, Packet(t.side, Frame(t, Traffic(st.data))));
    }
    KeepAll(w, w', st.a);
  }

  lemma {:induction false} RunKeeps(worlds: seq<World>, steps: seq<Step>, i: nat)
    requires Run(worlds, steps) && i < |worlds|
    ensures Inv(worlds[i])
  {
    if i > 0 {
      RunKeeps(worlds, steps, i - 1);
      var w, st := worlds[i - 1], steps[i - 1];
      match st
      case Initiate(_, _) => BeginKeeps(w, st);
      case Respond(_, _) => BeginKeeps(w, st);
      case Receive(a, m) => ReceiveKeeps(w, a, m);
      case _ => WriteKeeps(w, st);
    }
  }

  // ----- the theorems

  /** Initiator i and responder j, on opposite sides, hold the same session key. */
  ghost predicate Matched(ts: seq<Attempt>, i: nat, j: nat) {
    && i < |ts| && j < |ts| && ts[i].role.Initiator? && ts[j].role.Responder? && ts[i].side == Other(ts[j].side)
    && SharesKey(ts, i, j)
  }

  ghost predicate SharesKey(ts: seq<Attempt>, a: nat, b: nat) {
    && a < |ts| && b < |ts| && ts[a].session.Some? && ts[b].session.Some?
    && ts[a].session.value.key == ts[b].session.value.key
  }

  /** The two ends of one session agree on everything they exchanged. */
  ghost predicate Agree(t: Attempt, u: Attempt) {
    t.session.Some? && u.session.Some? &&
    var s, r := t.session.value, u.session.value;
    && s.key == r.key
    && s.sendTag == r.recvTag && s.recvTag == r.sendTag && s.sendTag != s.recvTag
    && s.peer == u.cfg.identity && r.peer == t.cfg.identity
    && s.caps == u.cfg.caps && s.agent == u.cfg.agent && r.caps == t.cfg.caps && r.agent == t.cfg.agent
    && s.policy == Some(u.cfg.policy) && r.policy == Some(t.cfg.policy)
  }

  /** Two attempts that hold one key heard each other's nonces. */
  lemma KeyPairs(ts: seq<Attempt>, a: nat, b: nat)
    requires a != b && SharesKey(ts, a, b) && AttemptOk(ts, a) && AttemptOk(ts, b)
    ensures ts[a].peer == Some(Nonce(b)) && ts[b].peer == Some(Nonce(a))
    ensures Matched(ts, a, b) || Matched(ts, b, a)
  {
    var q, r := ts[a].peer.value.owner, ts[b].peer.value.owner;
    assert ts[a].session.value.key == Key({a, q});
    assert ts[b].session.value.key == Key({b, r});
    assert b in {a, q} && a in {b, r};
  }

  /** An attempt that got its peer's policy shares its key with the attempt whose nonce it heard. */
  lemma CompletedShares(ts: seq<Attempt>, a: nat)
    requires a < |ts| && AttemptOk(ts, a) && ts[a].stage.Established?
    requires forall b :: 0 <= b < |ts| ==> AttemptOk(ts, b)
    ensures ts[a].peer.Some? && ts[a].peer.value.owner != a && SharesKey(ts, a, ts[a].peer.value.owner)
  {
    var b := ts[a].peer.value.owner;
    assert AttemptOk(ts, b);
    assert {a, b} == {b, a};
  }

  /**
   Each completed attempt is matched to one of the other role, and no third attempt holds
   their key: attempts of the two ends pair off one to one.
   */
  lemma CompletedMatched(worlds: seq<World>, steps: seq<Step>, n: nat, a: nat)
    requires Run(worlds, steps) && n < |worlds| && a < |worlds[n].attempts|
    requires worlds[n].attempts[a].stage.Established?
    ensures var ts := worlds[n].attempts;
            exists b :: (if ts[a].role.Initiator? then Matched(ts, a, b) else Matched(ts, b, a)) &&
                        forall c :: SharesKey(ts, a, c) ==> c == a || c == b
  {
    RunKeeps(worlds, steps, n);
    var ts := worlds[n].attempts;
    CompletedShares(ts, a);
    var b := ts[a].peer.value.owner;
    KeyPairs(ts, a, b);
    forall c | SharesKey(ts, a, c)
      ensures c == a || c == b
    {
      if c != a {
        KeyPairs(ts, a, c);
      }
    }
  }

  /** Each completed Respond is matched to exactly one Initiate attempt: nobody else holds its session key. */
  lemma RespondMatched(worlds: seq<World>, steps: seq<Step>, n: nat, j: nat)
    requires Run(worlds, steps) && n < |worlds| && j < |worlds[n].attempts|
    requires worlds[n].attempts[j].role.Responder? && worlds[n].attempts[j].stage.Established?
    ensures var ts := worlds[n].attempts;
            exists i :: Matched(ts, i, j) && forall a :: SharesKey(ts, j, a) ==> a == j || a == i
  {
    CompletedMatched(worlds, steps, n, j);
  }

  /** And each completed Initiate to exactly one Respond attempt. */
  lemma InitiateMatched(worlds: seq<World>, steps: seq<Step>, n: nat, i: nat)
    requires Run(worlds, steps) && n < |worlds| && i < |worlds[n].attempts|
    requires worlds[n].attempts[i].role.Initiator? && worlds[n].attempts[i].stage.Established?
    ensures var ts := worlds[n].attempts;
            exists j :: Matched(ts, i, j) && forall a :: SharesKey(ts, i, a) ==> a == i || a == j
  {
    CompletedMatched(worlds, steps, n, i);
  }

  /** When both ends of a matched pair complete, they hold one session and each other's announcements. */
  lemma BothComplete(worlds: seq<World>, steps: seq<Step>, n: nat, i: nat, j: nat)
    requires Run(worlds, steps) && n < |worlds| && Matched(worlds[n].attempts, i, j)
    requires worlds[n].attempts[i].stage.Established? && worlds[n].attempts[j].stage.Established?
    ensures Agree(worlds[n].attempts[i], worlds[n].attempts[j])
  {
    RunKeeps(worlds, steps, n);
    var ts := worlds[n].attempts;
    assert AttemptOk(ts, i) && AttemptOk(ts, j);
    KeyPairs(ts, i, j);
    var s, r, c, d := ts[i].session.value, ts[j].session.value, ts[i].cfg, ts[j].cfg;
    assert s.(policy := None) == DeriveSession(i, Public(j), true, d.identity, d.caps, d.agent);
    assert r.(policy := None) == DeriveSession(j, Public(i), false, c.identity, c.caps, c.agent);
  }

  /** Whatever an established session opens was sent through the matched session, never reflected. */
  lemma SessionAuthentic(worlds: seq<World>, steps: seq<Step>, n: nat, a: nat, p: Packet)
    requires Run(worlds, steps) && n < |worlds| && a < |worlds[n].attempts| && p in worlds[n].net
    requires worlds[n].attempts[a].stage.Established? && worlds[n].attempts[a].session.Some?
    requires p.from == Other(worlds[n].attempts[a].side) && Opens(worlds[n].attempts[a].session.value, p.msg)
    ensures exists b :: Wrote(worlds[n].attempts, b, p) &&
                        (Matched(worlds[n].attempts, a, b) || Matched(worlds[n].attempts, b, a))
  {
    RunKeeps(worlds, steps, n);
    var ts := worlds[n].attempts;
    assert Genuine(ts, p);
    var b: nat :| Wrote(ts, b, p);
    assert AttemptOk(ts, a) && AttemptOk(ts, b);
    KeyPairs(ts, a, b);
  }

  // ----- which messages move an attempt on

  /** The message that takes an attempt on, whoever wrote it: any other ends the attempt, or is skipped. */
  predicate Awaited(a: nat, t: Attempt, m: Message) {
    match t.stage
    case AwaitHello => m.Hello?
    case AwaitAck => m.HelloAck? && m.echo == Nonce(a)
    case AwaitComplete => m.Complete? && m.echo == Nonce(a) && t.heard.Heard? && t.heard.identity == m.sender
    case AwaitPolicy =>
      t.session.Some? && Opens(t.session.value, m) && m.body.Policy? && m.sender == t.session.value.peer
    case _ => false
  }

  predicate Skipped(t: Attempt, m: Message) {
    t.stage.AwaitPolicy? && (t.session.None? || !Opens(t.session.value, m))
  }

  /** Reading takes an attempt on exactly for the awaited message, and ends it exactly for one not skipped. */
  lemma ReadIff(a: nat, t: Attempt, m: Message)
    requires Reading(t.stage)
    ensures var t' := React(a, t, m).next;
            && (t' == t <==> Skipped(t, m))
            && (t'.stage.Failed? <==> !Awaited(a, t, m) && !Skipped(t, m))
  {
  }

  /** In every run a HELLO-ACK or COMPLETE takes an attempt on exactly when its writer heard that attempt's nonce. */
  lemma HandshakeReadExactly(worlds: seq<World>, steps: seq<Step>, n: nat, a: nat, m: Message)
    requires Run(worlds, steps) && n < |steps| && steps[n] == Receive(a, m)
    ensures a < |worlds[n].attempts| && a < |worlds[n + 1].attempts|
    ensures var (ts, stage) := (worlds[n].attempts, worlds[n + 1].attempts[a].stage);
            && (ts[a].stage.AwaitHello? ==> stage == if m.Hello? then AwaitComplete else Failed)
            && (ts[a].stage.AwaitAck? ==>
                  stage == if m.HelloAck? && HeardNonce(ts, m.nonce.owner, a) then SendingPolicy else Failed)
            && (ts[a].stage.AwaitComplete? ==>
                  stage == if m.Complete? && HeardNonce(ts, m.session.owner, a) then AwaitPolicy else Failed)
  {
    RunKeeps(worlds, steps, n);
    assert CanStep(worlds[n], steps[n]) && worlds[n + 1] == Next(worlds[n], steps[n]);
    var ts := worlds[n].attempts;
    assert Genuine(ts, Packet(Other(ts[a].side), m));
    if m.Complete? {
      assert AttemptOk(ts, m.session.owner) && AttemptOk(ts, a);
    }
  }

  /** Attempt b took attempt a's nonce for its peer's. */
  predicate HeardNonce(ts: seq<Attempt>, b: nat, a: nat) {
    b < |ts| && ts[b].peer == Some(Nonce(a))
  }

  /**
   In every run an attempt that waits for the policy takes its partner's, with the value the partner
   announces, fails on traffic of its partner, and is left as it was by everything else.
   */
  lemma PolicyReadExactly(worlds: seq<World>, steps: seq<Step>, n: nat, a: nat, m: Message)
    requires Run(worlds, steps) && n < |steps| && steps[n] == Receive(a, m)
    requires a < |worlds[n].attempts| && worlds[n].attempts[a].stage.AwaitPolicy?
    ensures a < |worlds[n + 1].attempts| && worlds[n + 1].net == worlds[n].net
    ensures exists b ::
              HeardNonce(worlds[n].attempts, a, b) &&
              TakesPolicy(worlds[n].attempts, a, b, m, worlds[n + 1].attempts[a])
  {
    RunKeeps(worlds, steps, n);
    assert CanStep(worlds[n], steps[n]) && worlds[n + 1] == Next(worlds[n], steps[n]);
    var ts := worlds[n].attempts;
    assert AttemptOk(ts, a);
    var p, b := Packet(Other(ts[a].side), m), ts[a].peer.value.owner;
    assert Genuine(ts, p);
    assert ts[a].session.value.key == Key({a, b});
    if Opens(ts[a].session.value, m) {
      var c: nat :| Wrote(ts, c, p);
      assert AttemptOk(ts, c);
      OpenedByPartner(ts, a, c, p);
    }
    assert HeardNonce(ts, a, b);
    assert TakesPolicy(ts, a, b, m, worlds[n + 1].attempts[a]);
  }

  /** What becomes of attempt a, paired with b, when it waits for b's policy and reads m. */
  ghost predicate TakesPolicy(ts: seq<Attempt>, a: nat, b: nat, m: Message, after: Attempt)
    requires a < |ts|
  {
    b < |ts| && ts[a].session.Some? &&
    var fromPartner := m.Sealed? && m.key == Key({a, b}) &&
                       m.tag == if ts[a].role.Initiator? then ResponderToInitiator else InitiatorToResponder;
    if fromPartner && m.body.Policy?
    then after == ts[a].(stage := if ts[a].role.Initiator? then Established else SendingPolicy,
                         session := Some(ts[a].session.value.(policy := Some(ts[b].cfg.policy))))
    else if fromPartner then after == ts[a].(stage := Failed)
    else after == ts[a]
  }

  // ----- the handshake can complete

  ghost predicate Reaches(worlds: seq<World>, steps: seq<Step>, w: World) {
    Run(worlds, steps) && worlds[|steps|] == w
  }

  lemma Extend(worlds: seq<World>, steps: seq<Step>, w: World, st: Step)
    requires Reaches(worlds, steps, w) && CanStep(w, st)
    ensures Reaches(worlds + [Next(w, st)], steps + [st], Next(w, st))
  {
  }

  lemma HelloAndAck(c0: Config, c1: Config) returns (worlds: seq<World>, steps: seq<Step>, w: World)
    ensures Reaches(worlds, steps, w)
    ensures w.attempts ==
            [Attempt(Left, Initiator, c0, AwaitAck, None, Silence, None),
             Attempt(Right, Responder, c1, AwaitComplete, Some(Nonce(0)), HeardFrom(c0), None)]
    ensures Packet(Right, HelloAck(c1.identity, c1.caps, Nonce(1), Nonce(0), Public(1), c1.agent)) in w.net
  {
    worlds, steps, w := [World([], {})], [], World([], {});
    var s0, s1 := Initiate(Left, c0), Respond(Right, c1);
    var s2 := Receive(1, Hello(c0.identity, c0.caps, Nonce(0), c0.agent));
    Extend(worlds, steps, w, s0);
    worlds, steps, w := worlds + [Next(w, s0)], steps + [s0], Next(w, s0);
    Extend(worlds, steps, w, s1);
    worlds, steps, w := worlds + [Next(w, s1)], steps + [s1], Next(w, s1);
    Extend(worlds, steps, w, s2);
    worlds, steps, w := worlds + [Next(w, s2)], steps + [s2], Next(w, s2);
  }

  lemma KeysDerived(c0: Config, c1: Config) returns (worlds: seq<World>, steps: seq<Step>, w: World)
    ensures Reaches(worlds, steps, w)
    ensures w.attempts ==
            [Attempt(Left, Initiator, c0, SendingPolicy, Some(Nonce(1)), Silence,
                     Some(DeriveSession(0, Public(1), true, c1.identity, c1.caps, c1.agent))),
             Attempt(Right, Responder, c1, AwaitPolicy, Some(Nonce(0)), HeardFrom(c0),
                     Some(DeriveSession(1, Public(0), false, c0.identity, c0.caps, c0.agent)))]
  {
    worlds, steps, w := HelloAndAck(c0, c1);
    var s0 := Receive(0, HelloAck(c1.identity, c1.caps, Nonce(1), Nonce(0), Public(1), c1.agent));
    Extend(worlds, steps, w, s0);
    worlds, steps, w := worlds + [Next(w, s0)], steps + [s0], Next(w, s0);
    var s1 := Receive(1, Complete(c0.identity, Nonce(1), Public(0)));
    Extend(worlds, steps, w, s1);
    worlds, steps, w := worlds + [Next(w, s1)], steps + [s1], Next(w, s1);
  }

  lemma PoliciesExchanged(worlds: seq<World>, steps: seq<Step>, w: World, c0: Config, c1: Config)
    returns (worlds': seq<World>, steps': seq<Step>, w': World)
    requires Reaches(worlds, steps, w) && |w.attempts| == 2
    requires var t, u := w.attempts[0], w.attempts[1];
             && t.side.Left? && t.role.Initiator? && t.stage.SendingPolicy? && t.cfg == c0
             && u.side.Right? && u.role.Responder? && u.stage.AwaitPolicy? && u.cfg == c1
             && t.session.Some? && u.session.Some?
             && t.session.value.peer == c1.identity && u.session.value.peer == c0.identity
             && t.session.value.key == u.session.value.key
             && t.session.value.sendTag == u.session.value.recvTag &&
                t.session.value.recvTag == u.session.value.sendTag
    ensures Reaches(worlds', steps', w') && |w'.attempts| == 2
    ensures var t, u := w'.attempts[0], w'.attempts[1];
            && t.stage.Established? && u.stage.Established? && t.cfg == c0 && u.cfg == c1
            && t.role == w.attempts[0].role && u.role == w.attempts[1].role
  {
    var s0, s1 := SendPolicy(0), Receive(1, Frame(w.attempts[0], Policy(c0.policy)));
    Extend(worlds, steps, w, s0);
    worlds', steps', w' := worlds + [Next(w, s0)], steps + [s0], Next(w, s0);
    Extend(worlds', steps', w', s1);
    worlds', steps', w' := worlds' + [Next(w', s1)], steps' + [s1], Next(w', s1);
    var s2, s3 := SendPolicy(1), Receive(0, Frame(w.attempts[1], Policy(c1.policy)));
    Extend(worlds', steps', w', s2);
    worlds', steps', w' := worlds' + [Next(w', s2)], steps' + [s2], Next(w', s2);
    Extend(worlds', steps', w', s3);
    worlds', steps', w' := worlds' + [Next(w', s3)], steps' + [s3], Next(w', s3);
  }

  /** Any two configurations have a run in which both ends complete, and then they agree. */
  lemma CompletingRun(c0: Config, c1: Config)
    ensures exists worlds, steps, w ::
      && Reaches(worlds, steps, w) && |w.attempts| == 2
      && w.attempts[0].cfg == c0 && w.attempts[1].cfg == c1
      && w.attempts[0].stage.Established? && w.attempts[1].stage.Established?
      && Agree(w.attempts[0], w.attempts[1])
  {
    var worlds, steps, w := KeysDerived(c0, c1);
    assert {0, 1} == {1, 0};
    worlds, steps, w := PoliciesExchanged(worlds, steps, w, c0, c1);
    RunKeeps(worlds, steps, |steps|);
    assert AttemptOk(w.attempts, 0) && AttemptOk(w.attempts, 1);
    assert Matched(w.attempts, 0, 1);
    BothComplete(worlds, steps, |steps|, 0, 1);
  }
}
