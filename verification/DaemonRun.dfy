/** Every run of one daemon: who can make an object leave, and which profile is served. */
module DaemonRun {
  import opened Bytes
  import opened Envelope
  import opened Daemon

  datatype Step =
    | Receiving(env: Envelope, from: Key32, now: int)
    | Sending(env: Envelope, now: int)
    | Pruning(now: int)
    | Evicting(now: int)

  // What a node is configured with; the peer table may differ from step to step.
  datatype Setup = Setup(opts: Options, payloads: Payloads, tables: seq<seq<Peer>>)

  function Next(opts: Options, p: Payloads, table: seq<Peer>, st: State, step: Step): State {
    match step
    case Receiving(env, from, now) => Receive(opts, p, table, st, env, from, now).state
    case Sending(env, now) => Submit(opts, p, table, st, env, now).state
    case Pruning(now) => st.(objects := Prune(st.objects, opts.maxMessageAge, now))
    case Evicting(now) => Evict(st, now)
  }

  ghost predicate Run(c: Setup, states: seq<State>, steps: seq<Step>) {
    && |states| == |steps| + 1 && |c.tables| == |steps|
    && states[0] == Empty()
    && forall i :: 0 <= i < |steps| ==> states[i + 1] == Next(c.opts, c.payloads, c.tables[i], states[i], steps[i])
  }

  /** The clock does not go back. */
  ghost predicate ClockRuns(steps: seq<Step>, from: int) {
    && (forall i :: 0 <= i < |steps| ==> from <= steps[i].now)
    && (forall i, j :: 0 <= i < j < |steps| ==> steps[i].now <= steps[j].now)
  }

  // ----- an object leaves only by age or by right

  predicate DeletedBy(p: Payloads, step: Step, h: Hash, target: Envelope) {
    (step.Receiving? || step.Sending?) && Deletes(p, step.env, h, target)
  }

  predicate AgedOut(opts: Options, step: Step, target: Envelope) {
    step.Pruning? && PastLimit(opts, target, step.now)
  }

  /** One step: a removed object was deleted by right or had aged out; the others are untouched. */
  lemma StepRemoves(opts: Options, p: Payloads, table: seq<Peer>, st: State, step: Step, h: Hash)
    requires h in st.objects
    ensures var st' := Next(opts, p, table, st, step);
            if h in st'.objects then st'.objects[h] == st.objects[h]
            else DeletedBy(p, step, h, st.objects[h]) || AgedOut(opts, step, st.objects[h])
  {
    match step
    case Receiving(env, from, now) => ReceiveProper(opts, p, table, st, env, from, now);
    case Sending(env, now) => SubmitProper(opts, p, table, st, env, now);
    case _ =>
  }

  /** In every run an object that left the store left at a step that had the right to remove it. */
  lemma {:induction false} LeavesOnlyByRight(c: Setup, states: seq<State>, steps: seq<Step>, i: nat, j: nat, h: Hash)
    requires Run(c, states, steps) && i <= j < |states|
    requires h in states[i].objects && h !in states[j].objects
    ensures exists k :: i <= k < j && h in states[k].objects && states[k].objects[h] == states[i].objects[h] &&
                        (|| DeletedBy(c.payloads, steps[k], h, states[i].objects[h])
                         || AgedOut(c.opts, steps[k], states[i].objects[h]))
    decreases j - i
  {
    StepRemoves(c.opts, c.payloads, c.tables[i], states[i], steps[i], h);
    if h in states[i + 1].objects {
      LeavesOnlyByRight(c, states, steps, i + 1, j, h);
    }
  }

  /** Conversely a delete that passes the daemon's checks removes its target exactly when it has the right. */
  lemma DeleteRemovesIff(opts: Options, p: Payloads, table: seq<Peer>, st: State, env: Envelope, now: int, h: Hash)
    requires h in st.objects && env.kind == MSG_DELETE && p.deleteTarget(env.payload) == Some(h)
    requires TimestampValid(env.timestamp, now) && p.valid(env.kind, env.payload)
    ensures h !in Submit(opts, p, table, st, env, now).state.objects <==>
            DeletedBy(p, Sending(env, now), h, st.objects[h])
    ensures Submit(opts, p, table, st, env, now).verdict == Accepted <==>
            DeletedBy(p, Sending(env, now), h, st.objects[h])
  {
  }

  /** Pruning removes exactly the objects past their limit. */
  lemma PruneRemovesIff(opts: Options, p: Payloads, table: seq<Peer>, st: State, now: int, h: Hash)
    requires h in st.objects
    ensures h !in Next(opts, p, table, st, Pruning(now)).objects <==> AgedOut(opts, Pruning(now), st.objects[h])
  {
  }

  // ----- the served profile is the newest stored one

  ghost predicate Addressed(st: State) {
    forall h :: h in st.objects ==> h == ContentBytes(st.objects[h])
  }

  predicate ProfileOf(e: Envelope, k: Key32) {
    e.kind == MSG_PROFILE && e.sender == k
  }

  ghost predicate Newest(st: State, k: Key32, e: Envelope) {
    ProfileOf(e, k) && ContentBytes(e) in st.objects && st.objects[ContentBytes(e)] == e &&
    forall h :: h in st.objects && ProfileOf(st.objects[h], k) ==> st.objects[h].timestamp <= e.timestamp
  }

  ghost predicate ServesNewestOf(st: State, k: Key32) {
    match Profile(st, k)
    case Some(e) => Newest(st, k, e)
    case None => k !in st.profiles && forall h :: h in st.objects ==> !ProfileOf(st.objects[h], k)
  }

  /** Whoever has a stored profile is served one that no stored profile of theirs is newer than. */
  ghost predicate ServesNewest(st: State) {
    forall k: Key32 :: ServesNewestOf(st, k)
  }

  /** Receipts and sends of anything but deletions; no prune, no eviction. */
  predicate Plain(step: Step) {
    (step.Receiving? || step.Sending?) && step.env.kind != MSG_DELETE
  }

  lemma RecordServesSender(st: State, env: Envelope, now: int)
    requires Addressed(st) && ServesNewestOf(st, env.sender) && env.kind == MSG_PROFILE
    ensures ServesNewestOf(RecordProfile(st.(objects := Put(st.objects, env)), env, now), env.sender)
  {
    var st1 := st.(objects := Put(st.objects, env));
    var h := ContentBytes(env);
    if h in st.objects {
      ContentBytesInjective(env, st.objects[h]);
    }
    assert SameContent(st1.objects[h], env);
    var st2 := RecordProfile(st1, env, now);
    if st2.profiles[env.sender].hash == h {
      assert Newest(st2, env.sender, st1.objects[h]);
    } else {
      assert Newest(st, env.sender, Profile(st, env.sender).value);
    }
  }

  lemma RecordServesNewest(st: State, env: Envelope, now: int)
    requires Addressed(st) && ServesNewest(st)
    ensures var st1 := st.(objects := Put(st.objects, env));
            && Addressed(st1)
            && ServesNewest(if env.kind == MSG_PROFILE then RecordProfile(st1, env, now) else st1)
  {
    var st1 := st.(objects := Put(st.objects, env));
    var st2 := if env.kind == MSG_PROFILE then RecordProfile(st1, env, now) else st1;
    forall k: Key32
      ensures ServesNewestOf(st2, k)
    {
      assert ServesNewestOf(st, k);
      if ProfileOf(env, k) {
        RecordServesSender(st, env, now);
      } else {
        assert ServesNewestOf(st1, k);
      }
    }
  }

  lemma RatesDoNotMatter(st: State, rates: map<Key32, RateWindow>)
    requires Addressed(st) && ServesNewest(st)
    ensures Addressed(st.(rates := rates)) && ServesNewest(st.(rates := rates))
  {
    forall k: Key32
      ensures ServesNewestOf(st.(rates := rates), k)
    {
      assert ServesNewestOf(st, k);
    }
  }

  lemma PlainServesNewest(opts: Options, p: Payloads, table: seq<Peer>, st: State, step: Step)
    requires Addressed(st) && ServesNewest(st) && Plain(step)
    ensures Addressed(Next(opts, p, table, st, step)) && ServesNewest(Next(opts, p, table, st, step))
  {
    var st1 := st;
    if step.Receiving? {
      st1 := st.(rates := AllowRate(st.rates, step.from, opts.rateLimit, step.now).0);
      RatesDoNotMatter(st, st1.rates);
    }
    if StoredType(step.env.kind) {
      RecordServesNewest(st1, step.env, step.now);
    }
  }

  lemma {:induction false} RunServesNewest(c: Setup, states: seq<State>, steps: seq<Step>, i: nat)
    requires Run(c, states, steps) && i < |states| && forall k :: 0 <= k < i ==> Plain(steps[k])
    ensures Addressed(states[i]) && ServesNewest(states[i])
  {
    if i > 0 {
      RunServesNewest(c, states, steps, i - 1);
      PlainServesNewest(c.opts, c.payloads, c.tables[i - 1], states[i - 1], steps[i - 1]);
    }
  }

  ghost predicate SameProfiles(a: State, b: State, k: Key32) {
    && (forall h :: h in a.objects && ProfileOf(a.objects[h], k) ==>
                      h in b.objects && SameContent(a.objects[h], b.objects[h]))
    && (forall h :: h in b.objects && ProfileOf(b.objects[h], k) ==>
                      h in a.objects && SameContent(a.objects[h], b.objects[h]))
  }

  /** The newest timestamp among the stored profiles of k is held by one content. */
  ghost predicate OneNewest(a: State, k: Key32) {
    forall g, h :: g in a.objects && h in a.objects && Newest(a, k, a.objects[g]) && Newest(a, k, a.objects[h]) ==>
                     g == h
  }

  /** The two nodes answer alike for k: both with the newest profile, or both with none because there is none. */
  ghost predicate SameAnswer(a: State, b: State, k: Key32) {
    match Profile(a, k)
    case None => Profile(b, k).None? && forall h :: h in a.objects ==> !ProfileOf(a.objects[h], k)
    case Some(e) => Newest(a, k, e) && Profile(b, k).Some? && SameContent(Profile(b, k).value, e)
  }

  lemma NewestAgree(a: State, b: State, k: Key32)
    requires Addressed(a) && Addressed(b) && ServesNewest(a) && ServesNewest(b)
    requires SameProfiles(a, b, k) && OneNewest(a, k)
    ensures SameAnswer(a, b, k)
  {
    assert ServesNewestOf(a, k) && ServesNewestOf(b, k);
    if Profile(a, k).Some? {
      var e := Profile(a, k).value;
      var h := ContentBytes(e);
      assert h in b.objects && ProfileOf(b.objects[h], k);
      var f := Profile(b, k).value;
      var g := ContentBytes(f);
      assert g in a.objects && ProfileOf(a.objects[g], k);
      assert a.objects[g].timestamp <= e.timestamp && b.objects[h].timestamp <= f.timestamp;
      assert Newest(a, k, a.objects[g]) && Newest(a, k, a.objects[h]);
    }
  }

  /**
   Two nodes that accepted the same profiles of a sender, one of them newer than the others, serve
   that one, whatever else they received and in whatever order and with what repeats.
   */
  lemma ProfilesConverge(c1: Setup, s1: seq<State>, t1: seq<Step>, c2: Setup, s2: seq<State>, t2: seq<Step>, k: Key32)
    requires Run(c1, s1, t1) && Run(c2, s2, t2)
    requires (forall i :: 0 <= i < |t1| ==> Plain(t1[i])) && forall i :: 0 <= i < |t2| ==> Plain(t2[i])
    requires SameProfiles(s1[|t1|], s2[|t2|], k) && OneNewest(s1[|t1|], k)
    ensures SameAnswer(s1[|t1|], s2[|t2|], k)
  {
    RunServesNewest(c1, s1, t1, |t1|);
    RunServesNewest(c2, s2, t2, |t2|);
    NewestAgree(s1[|t1|], s2[|t2|], k);
  }

  /** With equal timestamps the first arrival wins, so two arrival orders serve different profiles. */
  lemma TiesDependOnOrder(a: Envelope, b: Envelope, now: int)
    requires a.kind == MSG_PROFILE && b.kind == MSG_PROFILE && a.sender == b.sender
    requires a.timestamp == b.timestamp && a.payload != b.payload
    requires TimestampValid(a.timestamp, now)
    ensures var p := Payloads((_, _) => true, _ => None, _ => None);
            var o := Options(false, 0, 0, 0);
            var ab := Submit(o, p, [], Submit(o, p, [], Empty(), a, now).state, b, now).state;
            var ba := Submit(o, p, [], Submit(o, p, [], Empty(), b, now).state, a, now).state;
            Profile(ab, a.sender) == Some(a) && Profile(ba, a.sender) == Some(b)
  {
    ContentBytesInjective(a, b);
  }

  // ----- how long a profile is remembered

  /** Evicting forgets exactly the profiles not heard of for 7 days and the windows opened over 10 minutes ago. */
  lemma EvictsExactly(st: State, now: int)
    ensures var st' := Evict(st, now);
            && st'.objects == st.objects
            && (forall k :: k in st'.profiles <==>
                              k in st.profiles && now - st.profiles[k].lastSeen <= 7 * 24 * 3600 * 1_000_000_000)
            && (forall k :: k in st'.profiles ==> st'.profiles[k] == st.profiles[k])
            && (forall k :: k in st'.rates <==> k in st.rates && now - st.rates[k].start <= 600_000_000_000)
            && (forall k :: k in st'.rates ==> st'.rates[k] == st.rates[k])
  {
  }

  /** The step takes in a profile of k. */
  predicate Notes(opts: Options, p: Payloads, st: State, step: Step, k: Key32) {
    match step
    case Receiving(env, from, now) => TakesIn(opts, p, st, env, from, now) && ProfileOf(env, k)
    case Sending(env, now) => TakesFromClient(p, st, env, now) && ProfileOf(env, k)
    case _ => false
  }

  /** When k's profile was last taken in, unless an eviction 7 days later or more forgot it. */
  ghost function LastHeard(c: Setup, states: seq<State>, steps: seq<Step>, i: nat, k: Key32): Option<int>
    requires Run(c, states, steps) && i <= |steps|
  {
    if i == 0 then None
    else
      var before, step := LastHeard(c, states, steps, i - 1, k), steps[i - 1];
      if Notes(c.opts, c.payloads, states[i - 1], step, k) then Some(step.now)
      else if step.Evicting? && before.Some? && step.now - before.value > 7 * 24 * 3600 * 1_000_000_000 then None
      else before
  }

  lemma StepHears(opts: Options, p: Payloads, table: seq<Peer>, st: State, step: Step, k: Key32)
    ensures var st' := Next(opts, p, table, st, step);
            if Notes(opts, p, st, step, k) then k in st'.profiles && st'.profiles[k].lastSeen == step.now
            else if step.Evicting? then
              (k in st'.profiles <==> k in st.profiles && step.now - st.profiles[k].lastSeen <= 7 * 24 * HOUR) &&
              (k in st'.profiles ==> st'.profiles[k] == st.profiles[k])
            else (k in st'.profiles <==> k in st.profiles) && (k in st.profiles ==> st'.profiles[k] == st.profiles[k])
  {
  }

  /** In every run a node has an entry for k exactly while k is remembered, and it says when k was last heard. */
  lemma {:induction false} RemembersExactly(c: Setup, states: seq<State>, steps: seq<Step>, i: nat, k: Key32)
    requires Run(c, states, steps) && i < |states|
    ensures match LastHeard(c, states, steps, i, k)
            case None => k !in states[i].profiles
            case Some(t) => k in states[i].profiles && states[i].profiles[k].lastSeen == t
  {
    if i > 0 {
      RemembersExactly(c, states, steps, i - 1, k);
      StepHears(c.opts, c.payloads, c.tables[i - 1], states[i - 1], steps[i - 1], k);
    }
  }
}
