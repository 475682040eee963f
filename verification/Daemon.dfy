/** The node daemon: object store, delete rule, profiles, rate windows, relaying. */
module Daemon {
  import opened Bytes
  import opened Envelope

  const SECOND := 1_000_000_000 // times are in nanoseconds
  const MINUTE := 60 * SECOND
  const HOUR := 60 * MINUTE
  const MAX_LIVE_AGE := 5 * MINUTE
  const MAX_CLOCK_SKEW := 10 * SECOND
  const STATUS_MAX_AGE := 24 * HOUR
  const PROFILE_TTL := 7 * 24 * HOUR
  const RATE_WINDOW_TTL := 10 * MINUTE
  const TRUST_NEUTRAL := 1

  // A content hash stands for the bytes it digests (see Envelope.ContentIdIff).
  type Hash = seq<Byte>

  datatype ProfileEntry = ProfileEntry(hash: Hash, lastSeen: int)

  datatype RateWindow = RateWindow(start: int, count: nat)

  datatype State = State(
    objects: map<Hash, Envelope>, profiles: map<Key32, ProfileEntry>, rates: map<Key32, RateWindow>)

  datatype Peer = Peer(identity: Key32, trust: Byte, connected: bool)

  datatype Options = Options(relay: bool, maxMessageAge: int, maxPayloadSize: nat, rateLimit: int)

  // Payload decoding: validity per type, the hash a delete names, the profile a guestbook entry is on.
  datatype Payloads = Payloads(
    valid: (Byte, seq<Byte>) -> bool, deleteTarget: seq<Byte> -> Option<Hash>,
    guestbookOwner: seq<Byte> -> Option<Key32>)

  datatype Verdict = Rejected | Duplicate | Accepted

  datatype Outcome = Outcome(state: State, relayed: seq<Key32>, verdict: Verdict)

  function Empty(): State {
    State(map[], map[], map[])
  }

  predicate StoredType(kind: Byte) {
    kind in {MSG_CHAT, MSG_POST, MSG_THREAD, MSG_REPLY, MSG_PROFILE, MSG_GUESTBOOK, MSG_STATUS, MSG_SEALED}
  }

  predicate AckType(kind: Byte) {
    kind == MSG_ACK || kind == MSG_SEALED_ACK
  }

  predicate TimestampValid(ts: int, now: int) {
    now - ts <= MAX_LIVE_AGE && ts - now <= MAX_CLOCK_SKEW
  }

  function AllowRate(rates: map<Key32, RateWindow>, peer: Key32, limit: int, now: int)
    : (map<Key32, RateWindow>, bool)
  {
    if limit <= 0 then (rates, true)
    else if peer !in rates || now - rates[peer].start > MINUTE then (rates[peer := RateWindow(now, 1)], true)
    else
      var w := rates[peer].(count := rates[peer].count + 1);
      (rates[peer := w], w.count <= limit)
  }

  function Put(objects: map<Hash, Envelope>, env: Envelope): map<Hash, Envelope> {
    var h := ContentBytes(env);
    if h in objects then objects else objects[h := env]
  }

  function RecordProfile(st: State, env: Envelope, now: int): State {
    var known := env.sender in st.profiles;
    var existing := if known then st.profiles[env.sender] else ProfileEntry([], 0);
    if known && existing.hash in st.objects && st.objects[existing.hash].timestamp >= env.timestamp
    then st.(profiles := st.profiles[env.sender := existing.(lastSeen := now)])
    else st.(profiles := st.profiles[env.sender := ProfileEntry(ContentBytes(env), now)])
  }

  /** Only the author, or the owner of the profile a guestbook entry is on, may delete. */
  predicate MayDelete(p: Payloads, sender: Key32, target: Envelope) {
    || target.sender == sender
    || (target.kind == MSG_GUESTBOOK && p.guestbookOwner(target.payload) == Some(sender))
  }

  function HandleDelete(p: Payloads, st: State, env: Envelope): Option<State> {
    match p.deleteTarget(env.payload)
    case None => None
    case Some(h) =>
      if h in st.objects && MayDelete(p, env.sender, st.objects[h]) then Some(st.(objects := st.objects - {h}))
      else None
  }

  predicate Relays(peer: Peer, except: Option<Key32>) {
    peer.connected && peer.trust >= TRUST_NEUTRAL && except != Some(peer.identity)
  }

  function RelayTo(opts: Options, table: seq<Peer>, except: Option<Key32>): seq<Key32> {
    if !opts.relay || table == [] then []
    else (if Relays(table[0], except) then [table[0].identity] else []) + RelayTo(opts, table[1..], except)
  }

  function Receive(opts: Options, p: Payloads, table: seq<Peer>, st: State, env: Envelope, from: Key32, now: int)
    : Outcome
  {
    if !TimestampValid(env.timestamp, now) || |env.payload| > opts.maxPayloadSize then Outcome(st, [], Rejected)
    else
      var (rates, allowed) := AllowRate(st.rates, from, opts.rateLimit, now);
      var st1 := st.(rates := rates);
      var targets := RelayTo(opts, table, Some(from));
      if !allowed then Outcome(st1, [], Rejected)
      else if StoredType(env.kind) then
        if !p.valid(env.kind, env.payload) then Outcome(st1, [], Rejected)
        else if ContentBytes(env) in st1.objects then Outcome(st1, [], Duplicate)
        else
          var st2 := st1.(objects := Put(st1.objects, env));
          Outcome(if env.kind == MSG_PROFILE then RecordProfile(st2, env, now) else st2, targets, Accepted)
      else if AckType(env.kind) then
        if p.valid(env.kind, env.payload) then Outcome(st1, targets, Accepted) else Outcome(st1, [], Rejected)
      else if env.kind == MSG_DELETE then
        match HandleDelete(p, st1, env)
        case None => Outcome(st1, [], Rejected)
        case Some(st2) => Outcome(st2, targets, Accepted)
      else Outcome(st1, [], Rejected)
  }

  /** An envelope submitted by the local client; a duplicate is stored once but relayed again. */
  function Submit(opts: Options, p: Payloads, table: seq<Peer>, st: State, env: Envelope, now: int): Outcome {
    var targets := RelayTo(opts, table, None);
    if !TimestampValid(env.timestamp, now) || !p.valid(env.kind, env.payload) then Outcome(st, [], Rejected)
    else if StoredType(env.kind) then
      var st1 := st.(objects := Put(st.objects, env));
      Outcome(if env.kind == MSG_PROFILE then RecordProfile(st1, env, now) else st1, targets, Accepted)
    else if AckType(env.kind) then Outcome(st, targets, Accepted)
    else if env.kind == MSG_DELETE then
      match HandleDelete(p, st, env)
      case None => Outcome(st, [], Rejected)
      case Some(st1) => Outcome(st1, targets, Accepted)
    else Outcome(st, [], Rejected)
  }

  function AgeLimit(kind: Byte, maxAge: int): int {
    if kind == MSG_STATUS && STATUS_MAX_AGE < maxAge then STATUS_MAX_AGE else maxAge
  }

  function Prune(objects: map<Hash, Envelope>, maxAge: int, now: int): map<Hash, Envelope> {
    map h | h in objects && now - objects[h].timestamp <= AgeLimit(objects[h].kind, maxAge) :: objects[h]
  }

  /** Older than the configured limit, or a status more than a day old. */
  predicate PastLimit(opts: Options, e: Envelope, now: int) {
    now - e.timestamp > opts.maxMessageAge || (e.kind == MSG_STATUS && now - e.timestamp > 24 * HOUR)
  }

  function Evict(st: State, now: int): State {
    st.(profiles := EvictProfiles(st.profiles, now), rates := EvictRates(st.rates, now))
  }

  function EvictProfiles(profiles: map<Key32, ProfileEntry>, now: int): map<Key32, ProfileEntry> {
    map k | k in profiles && now - profiles[k].lastSeen <= PROFILE_TTL :: profiles[k]
  }

  function EvictRates(rates: map<Key32, RateWindow>, now: int): map<Key32, RateWindow> {
    map k | k in rates && now - rates[k].start <= RATE_WINDOW_TTL :: rates[k]
  }

  function Profile(st: State, pubkey: Key32): Option<Envelope> {
    if pubkey in st.profiles && st.profiles[pubkey].hash in st.objects
    then Some(st.objects[st.profiles[pubkey].hash])
    else None
  }

  lemma RelayToStep(opts: Options, table: seq<Peer>, i: nat, except: Option<Key32>, sent: seq<Key32>)
    requires opts.relay && i < |table|
    ensures sent + RelayTo(opts, table[i..], except) ==
            (if Relays(table[i], except) then sent + [table[i].identity] else sent) +
            RelayTo(opts, table[i + 1..], except)
  {
    assert table[i..][0] == table[i] && table[i..][1..] == table[i + 1..];
  }

  lemma RelayToCharacterised(opts: Options, table: seq<Peer>, except: Option<Key32>, k: Key32)
    ensures k in RelayTo(opts, table, except) <==>
            opts.relay && exists i :: 0 <= i < |table| && table[i].identity == k && Relays(table[i], except)
  {
    if opts.relay && table != [] {
      RelayToCharacterised(opts, table[1..], except, k);
      assert forall i :: 1 <= i < |table| ==> table[i] == table[1..][i - 1];
    }
  }

  // ----- what one envelope can do to the store

  /** The envelope is a delete of the object at h by someone who may delete it. */
  predicate Deletes(p: Payloads, env: Envelope, h: Hash, target: Envelope) {
    && env.kind == MSG_DELETE && p.deleteTarget(env.payload) == Some(h)
    && (|| env.sender == target.sender
        || (target.kind == MSG_GUESTBOOK && p.guestbookOwner(target.payload) == Some(env.sender)))
  }

  /** The envelope may be stored: a stored type, a valid payload, at most 5 minutes old and 10 seconds early. */
  predicate Storable(p: Payloads, env: Envelope, now: int) {
    && StoredType(env.kind) && p.valid(env.kind, env.payload)
    && now - env.timestamp <= 5 * MINUTE && env.timestamp - now <= 10 * SECOND
  }

  /** Only a rightful delete takes an object out, only a storable envelope comes in, nothing is replaced. */
  ghost predicate Proper(p: Payloads, before: map<Hash, Envelope>, after: map<Hash, Envelope>, env: Envelope,
                         now: int) {
    && (forall h :: h in before && h !in after ==> Deletes(p, env, h, before[h]))
    && (forall h :: h in before && h in after ==> after[h] == before[h])
    && (forall h :: h in after && h !in before ==> h == ContentBytes(env) && after[h] == env && Storable(p, env, now))
  }

  lemma PutProper(p: Payloads, objects: map<Hash, Envelope>, env: Envelope, now: int)
    requires Storable(p, env, now)
    ensures Proper(p, objects, Put(objects, env), env, now)
  {
  }

  lemma DeleteProper(p: Payloads, st: State, env: Envelope, now: int)
    requires env.kind == MSG_DELETE && HandleDelete(p, st, env).Some?
    ensures Proper(p, st.objects, HandleDelete(p, st, env).value.objects, env, now)
  {
  }

  lemma ReceiveProper(opts: Options, p: Payloads, table: seq<Peer>, st: State, env: Envelope, from: Key32, now: int)
    ensures var r := Receive(opts, p, table, st, env, from, now);
            Proper(p, st.objects, r.state.objects, env, now) && from !in r.relayed
  {
    RelayToCharacterised(opts, table, Some(from), from);
    var st1 := st.(rates := AllowRate(st.rates, from, opts.rateLimit, now).0);
    if Storable(p, env, now) {
      PutProper(p, st.objects, env, now);
    } else if env.kind == MSG_DELETE && HandleDelete(p, st1, env).Some? {
      DeleteProper(p, st1, env, now);
    }
  }

  lemma SubmitProper(opts: Options, p: Payloads, table: seq<Peer>, st: State, env: Envelope, now: int)
    ensures Proper(p, st.objects, Submit(opts, p, table, st, env, now).state.objects, env, now)
  {
    if Storable(p, env, now) {
      PutProper(p, st.objects, env, now);
    } else if env.kind == MSG_DELETE && HandleDelete(p, st, env).Some? {
      DeleteProper(p, st, env, now);
    }
  }

  // ----- exactly what one envelope does

  /** At most 5 minutes old and 10 seconds early. */
  predicate Fresh(env: Envelope, now: int) {
    now - env.timestamp <= 300_000_000_000 && env.timestamp - now <= 10_000_000_000
  }

  /** Chat, post, thread, reply, profile, guestbook, status and sealed messages. */
  predicate Keepable(kind: Byte) {
    kind in {0x01, 0x02, 0x03, 0x04, 0x09, 0x0A, 0x0D, 0x10}
  }

  /** Acknowledgements and acknowledgements of sealed messages. */
  predicate Acknowledges(kind: Byte) {
    kind in {0x0C, 0x11}
  }

  /** A deletion of this stored object by its author or, for a guestbook entry, by the owner of the profile. */
  predicate RightfulDelete(p: Payloads, objects: map<Hash, Envelope>, env: Envelope, h: Hash) {
    && env.kind == 0x12 && p.deleteTarget(env.payload) == Some(h) && h in objects
    && (|| env.sender == objects[h].sender
        || (objects[h].kind == 0x0A && p.guestbookOwner(objects[h].payload) == Some(env.sender)))
  }

  /** A peer that is sent what comes from elsewhere. */
  predicate IsTold(opts: Options, table: seq<Peer>, source: Option<Key32>, k: Key32) {
    opts.relay && source != Some(k) &&
    exists i :: 0 <= i < |table| && table[i].identity == k && table[i].connected && table[i].trust >= 1
  }

  lemma ToldExactly(opts: Options, table: seq<Peer>, source: Option<Key32>)
    ensures forall k :: k in RelayTo(opts, table, source) <==> IsTold(opts, table, source, k)
  {
    forall k
      ensures k in RelayTo(opts, table, source) <==> IsTold(opts, table, source, k)
    {
      RelayToCharacterised(opts, table, source, k);
    }
  }

  /** What a node takes in from a peer: within age, size and rate, and new, an ack, or a rightful deletion. */
  predicate TakesIn(opts: Options, p: Payloads, st: State, env: Envelope, from: Key32, now: int) {
    && Fresh(env, now) && |env.payload| <= opts.maxPayloadSize && AllowRate(st.rates, from, opts.rateLimit, now).1
    && (|| (Keepable(env.kind) && p.valid(env.kind, env.payload) && ContentBytes(env) !in st.objects)
        || (Acknowledges(env.kind) && p.valid(env.kind, env.payload))
        || (p.deleteTarget(env.payload).Some? &&
            RightfulDelete(p, st.objects, env, p.deleteTarget(env.payload).value)))
  }

  /** The store after an envelope that is taken in. */
  function StoreAfter(p: Payloads, objects: map<Hash, Envelope>, env: Envelope): map<Hash, Envelope> {
    if Keepable(env.kind) && ContentBytes(env) !in objects then objects[ContentBytes(env) := env]
    else if env.kind == 0x12 && p.deleteTarget(env.payload).Some? then objects - {p.deleteTarget(env.payload).value}
    else objects
  }

  /**
   An envelope from a peer is stored, deleted for or passed by exactly when it is taken in, and told to all
   relaying peers but that one; otherwise the store stays and nobody is told.
   */
  lemma ReceiveExactly(opts: Options, p: Payloads, table: seq<Peer>, st: State, env: Envelope, from: Key32, now: int)
    ensures var r := Receive(opts, p, table, st, env, from, now);
            if TakesIn(opts, p, st, env, from, now)
            then r.verdict.Accepted? && r.state.objects == StoreAfter(p, st.objects, env) &&
                 forall k :: k in r.relayed <==> IsTold(opts, table, Some(from), k)
            else !r.verdict.Accepted? && r.state.objects == st.objects && r.relayed == []
  {
    ToldExactly(opts, table, Some(from));
  }

  /** What a node takes in from its own client: repeats too, but nothing of another type. */
  predicate TakesFromClient(p: Payloads, st: State, env: Envelope, now: int) {
    && Fresh(env, now) && p.valid(env.kind, env.payload)
    && (|| Keepable(env.kind) || Acknowledges(env.kind)
        || (p.deleteTarget(env.payload).Some? &&
            RightfulDelete(p, st.objects, env, p.deleteTarget(env.payload).value)))
  }

  lemma SubmitExactly(opts: Options, p: Payloads, table: seq<Peer>, st: State, env: Envelope, now: int)
    ensures var r := Submit(opts, p, table, st, env, now);
            if TakesFromClient(p, st, env, now)
            then r.verdict.Accepted? && r.state.objects == StoreAfter(p, st.objects, env) &&
                 forall k :: k in r.relayed <==> IsTold(opts, table, None, k)
            else r.verdict.Rejected? && r.state == st && r.relayed == []
  {
    ToldExactly(opts, table, None);
  }

  // ----- the daemon as the program keeps it

  class Node {
    const opts: Options
    const payloads: Payloads
    var table: seq<Peer>
    var objects: map<Hash, Envelope>
    var profiles: map<Key32, ProfileEntry>
    var rates: map<Key32, RateWindow>

    ghost function View(): State
      reads this
    {
      State(objects, profiles, rates)
    }

    constructor (opts: Options, payloads: Payloads)
      ensures this.opts == opts && this.payloads == payloads && table == [] && View() == Empty()
    {
      this.opts, this.payloads := opts, payloads;
      table, objects, profiles, rates := [], map[], map[], map[];
    }

    method CheckRate(peer: Key32, now: int) returns (ok: bool)
      modifies this`rates
      ensures (rates, ok) == AllowRate(old(rates), peer, opts.rateLimit, now)
    {
      if opts.rateLimit <= 0 {
        return true;
      }
      if peer !in rates || now - rates[peer].start > MINUTE {
        rates := rates[peer := RateWindow(now, 1)];
        return true;
      }
      var w := RateWindow(rates[peer].start, rates[peer].count + 1);
      rates := rates[peer := w];
      ok := w.count <= opts.rateLimit;
    }

    method Store(env: Envelope) returns (existed: bool)
      modifies this`objects
      ensures existed == (ContentBytes(env) in old(objects)) && objects == Put(old(objects), env)
    {
      var h := ContentBytes(env);
      existed := h in objects;
      if !existed {
        objects := objects[h := env];
      }
    }

    method NoteProfile(env: Envelope, now: int)
      modifies this`profiles
      ensures View() == RecordProfile(old(View()), env, now)
    {
      if env.sender in profiles {
        var existing := profiles[env.sender];
        if existing.hash in objects && objects[existing.hash].timestamp >= env.timestamp {
          profiles := profiles[env.sender := existing.(lastSeen := now)];
          return;
        }
      }
      profiles := profiles[env.sender := ProfileEntry(ContentBytes(env), now)];
    }

    method DeleteObject(env: Envelope) returns (ok: bool)
      modifies this`objects
      ensures ok == HandleDelete(payloads, old(View()), env).Some?
      ensures View() == if ok then HandleDelete(payloads, old(View()), env).value else old(View())
    {
      var target := payloads.deleteTarget(env.payload);
      if target.None? || target.value !in objects {
        return false;
      }
      var found := objects[target.value];
      var owner := found.sender == env.sender;
      if !owner && found.kind == MSG_GUESTBOOK {
        owner := payloads.guestbookOwner(found.payload) == Some(env.sender);
      }
      if !owner {
        return false;
      }
      objects := objects - {target.value};
      ok := true;
    }

    method Relay(except: Option<Key32>) returns (sent: seq<Key32>)
      ensures sent == RelayTo(opts, table, except)
    {
      sent := [];
      if !opts.relay {
        return;
      }
      var peers := table;
      for i := 0 to |peers|
        invariant sent + RelayTo(opts, peers[i..], except) == RelayTo(opts, peers, except)
      {
        RelayToStep(opts, peers, i, except, sent);
        if peers[i].connected && peers[i].trust >= TRUST_NEUTRAL && except != Some(peers[i].identity) {
          sent := sent + [peers[i].identity];
        }
      }
      assert peers[|peers|..] == [];
      assert sent + [] == sent;
    }

    method Process(env: Envelope, from: Key32, now: int) returns (sent: seq<Key32>)
      modifies this`objects, this`profiles, this`rates
      ensures View() == Receive(opts, payloads, table, old(View()), env, from, now).state
      ensures sent == Receive(opts, payloads, table, old(View()), env, from, now).relayed
    {
      sent := [];
      if !TimestampValid(env.timestamp, now) || |env.payload| > opts.maxPayloadSize {
        return;
      }
      var allowed := CheckRate(from, now);
      if !allowed {
        return;
      }
      if StoredType(env.kind) {
        if !payloads.valid(env.kind, env.payload) {
          return;
        }
        var existed := Store(env);
        if existed {
          return;
        }
        if env.kind == MSG_PROFILE {
          NoteProfile(env, now);
        }
        sent := Relay(Some(from));
      } else if AckType(env.kind) {
        if payloads.valid(env.kind, env.payload) {
          sent := Relay(Some(from));
        }
      } else if env.kind == MSG_DELETE {
        var ok := DeleteObject(env);
        if ok {
          sent := Relay(Some(from));
        }
      }
    }

    /** One envelope from a peer; it never goes back to that peer. */
    method HandleEnvelope(env: Envelope, from: Key32, now: int) returns (sent: seq<Key32>)
      modifies this`objects, this`profiles, this`rates
      ensures View() == Receive(opts, payloads, table, old(View()), env, from, now).state
      ensures sent == Receive(opts, payloads, table, old(View()), env, from, now).relayed
      ensures Proper(payloads, old(objects), objects, env, now) && from !in sent
    {
      ReceiveProper(opts, payloads, table, View(), env, from, now);
      sent := Process(env, from, now);
    }

    method HandleSend(env: Envelope, now: int) returns (sent: seq<Key32>, ok: bool)
      modifies this`objects, this`profiles
      ensures View() == Submit(opts, payloads, table, old(View()), env, now).state
      ensures sent == Submit(opts, payloads, table, old(View()), env, now).relayed
      ensures ok <==> Submit(opts, payloads, table, old(View()), env, now).verdict.Accepted?
      ensures Proper(payloads, old(objects), objects, env, now)
    {
      SubmitProper(opts, payloads, table, View(), env, now);
      sent, ok := [], false;
      if !TimestampValid(env.timestamp, now) || !payloads.valid(env.kind, env.payload) {
        return;
      }
      if StoredType(env.kind) {
        var _ := Store(env);
        if env.kind == MSG_PROFILE {
          NoteProfile(env, now);
        }
      } else if env.kind == MSG_DELETE {
        var deleted := DeleteObject(env);
        if !deleted {
          return;
        }
      } else if !AckType(env.kind) {
        return;
      }
      sent := Relay(None);
      ok := true;
    }

    method PruneProfiles(now: int)
      modifies this`profiles
      ensures profiles == EvictProfiles(old(profiles), now)
    {
      var keys := profiles.Keys;
      while keys != {}
        invariant keys <= profiles.Keys <= old(profiles).Keys
        invariant forall k :: k in profiles ==> profiles[k] == old(profiles)[k]
        invariant forall k :: k in old(profiles) && k !in keys ==>
          (k in profiles <==> now - old(profiles)[k].lastSeen <= PROFILE_TTL)
        decreases |keys|
      {
        var k :| k in keys;
        keys := keys - {k};
        if now - profiles[k].lastSeen > PROFILE_TTL {
          profiles := profiles - {k};
        }
      }
    }

    method PruneRates(now: int)
      modifies this`rates
      ensures rates == EvictRates(old(rates), now)
    {
      var keys := rates.Keys;
      while keys != {}
        invariant keys <= rates.Keys <= old(rates).Keys
        invariant forall k :: k in rates ==> rates[k] == old(rates)[k]
        invariant forall k :: k in old(rates) && k !in keys ==>
          (k in rates <==> now - old(rates)[k].start <= RATE_WINDOW_TTL)
        decreases |keys|
      {
        var k :| k in keys;
        keys := keys - {k};
        if now - rates[k].start > RATE_WINDOW_TTL {
          rates := rates - {k};
        }
      }
    }

    method PruneTrackedPeerState(now: int)
      modifies this`profiles, this`rates
      ensures View() == Evict(old(View()), now)
    {
      PruneProfiles(now);
      PruneRates(now);
    }
  }
}
