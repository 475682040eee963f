/**
 Profiles when handlers run concurrently: storing an envelope and recording it as its sender's
 profile are two steps, and the steps of any number of handlers interleave.
 */
module ProfileRun {
  import opened Bytes
  import opened Envelope
  import opened Daemon
  import opened DaemonRun

  // pending: profiles a handler has stored and not yet recorded. recorded: what was recorded so far.
  datatype Node = Node(st: State, pending: multiset<Envelope>, recorded: set<Hash>)

  // local: the envelope comes from the local client, whose handler records duplicates too.
  datatype Step = Storing(env: Envelope, local: bool) | Recording(env: Envelope, now: int)

  predicate CanStep(n: Node, step: Step) {
    match step
    case Storing(env, _) => StoredType(env.kind)
    case Recording(env, _) => env in n.pending
  }

  function Next(n: Node, step: Step): Node
    requires CanStep(n, step)
  {
    match step
    case Storing(env, local) =>
      var goesOn := env.kind == MSG_PROFILE && (local || ContentBytes(env) !in n.st.objects);
      n.(st := n.st.(objects := Put(n.st.objects, env)),
         pending := if goesOn then n.pending + multiset{env} else n.pending)
    case Recording(env, now) =>
      Node(RecordProfile(n.st, env, now), n.pending - multiset{env}, n.recorded + {ContentBytes(env)})
  }

  ghost predicate Run(nodes: seq<Node>, steps: seq<Step>) {
    && |nodes| == |steps| + 1 && nodes[0] == Node(Empty(), multiset{}, {})
    && forall i :: 0 <= i < |steps| ==> CanStep(nodes[i], steps[i]) && nodes[i + 1] == Next(nodes[i], steps[i])
  }

  /** What k is served is the newest of k's recorded profiles, and nothing when there is none. */
  ghost predicate ServesRecorded(n: Node, k: Key32) {
    match Profile(n.st, k)
    case Some(e) =>
      && ProfileOf(e, k) && ContentBytes(e) in n.recorded
      && forall h :: h in n.recorded && h in n.st.objects && ProfileOf(n.st.objects[h], k) ==>
                       n.st.objects[h].timestamp <= e.timestamp
    case None =>
      k !in n.st.profiles && forall h :: h in n.recorded && h in n.st.objects ==> !ProfileOf(n.st.objects[h], k)
  }

  ghost predicate IsPending(n: Node, h: Hash) {
    exists e :: e in n.pending && ContentBytes(e) == h
  }

  ghost predicate Inv(n: Node) {
    && Addressed(n.st)
    && (forall e :: e in n.pending ==> e.kind == MSG_PROFILE && ContentBytes(e) in n.st.objects)
    && (forall h :: h in n.recorded ==> h in n.st.objects)
    && AllAccounted(n)
    && (forall k: Key32 :: ServesRecorded(n, k))
  }

  /** Every stored profile is recorded or about to be. */
  ghost predicate AllAccounted(n: Node) {
    forall h :: h in n.st.objects && n.st.objects[h].kind == MSG_PROFILE ==> h in n.recorded || IsPending(n, h)
  }

  lemma StoringAccounts(n: Node, env: Envelope, local: bool)
    requires AllAccounted(n) && StoredType(env.kind)
    ensures AllAccounted(Next(n, Storing(env, local)))
  {
    var n' := Next(n, Storing(env, local));
    forall h | h in n'.st.objects && n'.st.objects[h].kind == MSG_PROFILE
      ensures h in n'.recorded || IsPending(n', h)
    {
      if h in n.st.objects {
        if h !in n.recorded {
          var e :| e in n.pending && ContentBytes(e) == h;
          assert e in n'.pending;
        }
      } else {
        assert env in n'.pending;
      }
    }
  }

  lemma StoringServes(n: Node, env: Envelope, local: bool, k: Key32)
    requires ServesRecorded(n, k) && StoredType(env.kind) && forall h :: h in n.recorded ==> h in n.st.objects
    ensures ServesRecorded(Next(n, Storing(env, local)), k)
  {
    var n' := Next(n, Storing(env, local));
    assert Profile(n'.st, k) == Profile(n.st, k);
  }

  lemma StoringKeeps(n: Node, env: Envelope, local: bool)
    requires Inv(n) && CanStep(n, Storing(env, local))
    ensures Inv(Next(n, Storing(env, local)))
  {
    StoringAccounts(n, env, local);
    forall k: Key32
      ensures ServesRecorded(Next(n, Storing(env, local)), k)
    {
      StoringServes(n, env, local, k);
    }
  }

  lemma RecordingServesOthers(n: Node, env: Envelope, now: int, k: Key32)
    requires ServesRecorded(n, k) && env in n.pending && k != env.sender
    requires ContentBytes(env) in n.st.objects && n.st.objects[ContentBytes(env)].sender == env.sender
    ensures ServesRecorded(Next(n, Recording(env, now)), k)
  {
    assert Profile(Next(n, Recording(env, now)).st, k) == Profile(n.st, k);
  }

  lemma RecordingServesSender(n: Node, env: Envelope, now: int)
    requires ServesRecorded(n, env.sender) && env in n.pending && ContentBytes(env) in n.st.objects
    requires SameContent(n.st.objects[ContentBytes(env)], env) && env.kind == MSG_PROFILE && Addressed(n.st)
    ensures ServesRecorded(Next(n, Recording(env, now)), env.sender)
  {
    var n', h := Next(n, Recording(env, now)), ContentBytes(env);
    if n'.st.profiles[env.sender].hash == h {
      assert Profile(n'.st, env.sender) == Some(n.st.objects[h]);
    } else {
      assert Profile(n'.st, env.sender) == Profile(n.st, env.sender);
    }
  }

  lemma RecordingServes(n: Node, env: Envelope, now: int, k: Key32)
    requires Inv(n) && CanStep(n, Recording(env, now))
    ensures ServesRecorded(Next(n, Recording(env, now)), k)
  {
    assert ServesRecorded(n, k);
    ContentBytesInjective(env, n.st.objects[ContentBytes(env)]);
    if k == env.sender {
      RecordingServesSender(n, env, now);
    } else {
      RecordingServesOthers(n, env, now, k);
    }
  }

  lemma RecordingAccounts(n: Node, env: Envelope, now: int)
    requires AllAccounted(n) && env in n.pending
    ensures AllAccounted(Next(n, Recording(env, now)))
  {
    var n' := Next(n, Recording(env, now));
    forall h | h in n'.st.objects && n'.st.objects[h].kind == MSG_PROFILE
      ensures h in n'.recorded || IsPending(n', h)
    {
      if h !in n'.recorded {
        var e :| e in n.pending && ContentBytes(e) == h;
        assert e in n'.pending;
      }
    }
  }

  lemma RecordingKeeps(n: Node, env: Envelope, now: int)
    requires Inv(n) && CanStep(n, Recording(env, now))
    ensures Inv(Next(n, Recording(env, now)))
  {
    RecordingAccounts(n, env, now);
    forall k: Key32
      ensures ServesRecorded(Next(n, Recording(env, now)), k)
    {
      RecordingServes(n, env, now, k);
    }
  }

  lemma {:induction false} RunKeeps(nodes: seq<Node>, steps: seq<Step>, i: nat)
    requires Run(nodes, steps) && i < |nodes|
    ensures Inv(nodes[i])
  {
    if i > 0 {
      RunKeeps(nodes, steps, i - 1);
      match steps[i - 1]
      case Storing(env, local) => StoringKeeps(nodes[i - 1], env, local);
      case Recording(env, now) => RecordingKeeps(nodes[i - 1], env, now);
    }
  }

  /** At any moment of any interleaving, the newest recorded profile is served, and what is newer is pending. */
  lemma ServedIsNewestRecorded(nodes: seq<Node>, steps: seq<Step>, i: nat, k: Key32)
    requires Run(nodes, steps) && i < |nodes|
    ensures ServesRecorded(nodes[i], k)
    ensures forall h :: h in nodes[i].st.objects && ProfileOf(nodes[i].st.objects[h], k) &&
                        (Profile(nodes[i].st, k).None? ||
                         Profile(nodes[i].st, k).value.timestamp < nodes[i].st.objects[h].timestamp) ==>
                          IsPending(nodes[i], h)
  {
    RunKeeps(nodes, steps, i);
    assert ServesRecorded(nodes[i], k);
  }

  /** No profile of k that is pending is newer than the one served; with none served, none is pending. */
  ghost predicate NothingNewerPending(n: Node, k: Key32) {
    forall e :: e in n.pending && ProfileOf(e, k) ==>
                  Profile(n.st, k).Some? && e.timestamp <= Profile(n.st, k).value.timestamp
  }

  lemma PendingIsStored(n: Node, e: Envelope)
    requires Inv(n) && e in n.pending
    ensures ContentBytes(e) in n.st.objects && SameContent(e, n.st.objects[ContentBytes(e)])
  {
    ContentBytesInjective(e, n.st.objects[ContentBytes(e)]);
  }

  lemma NewestIfNothingNewer(n: Node, k: Key32)
    requires Inv(n) && NothingNewerPending(n, k)
    ensures ServesNewestOf(n.st, k)
  {
    assert ServesRecorded(n, k);
    forall h | h in n.st.objects && ProfileOf(n.st.objects[h], k) && h !in n.recorded
      ensures Profile(n.st, k).Some? && n.st.objects[h].timestamp <= Profile(n.st, k).value.timestamp
    {
      var e :| e in n.pending && ContentBytes(e) == h;
      PendingIsStored(n, e);
    }
  }

  /** In every run k is served the newest stored profile exactly when nothing newer of k is pending. */
  lemma ServesNewestIff(nodes: seq<Node>, steps: seq<Step>, i: nat, k: Key32)
    requires Run(nodes, steps) && i < |nodes|
    ensures ServesNewestOf(nodes[i].st, k) <==> NothingNewerPending(nodes[i], k)
  {
    RunKeeps(nodes, steps, i);
    var n := nodes[i];
    if NothingNewerPending(n, k) {
      NewestIfNothingNewer(n, k);
    } else {
      var e :| e in n.pending && ProfileOf(e, k) &&
               !(Profile(n.st, k).Some? && e.timestamp <= Profile(n.st, k).value.timestamp);
      PendingIsStored(n, e);
      assert ProfileOf(n.st.objects[ContentBytes(e)], k);
    }
  }

  /** Whenever no handler is between its two steps, the newest stored profile is served. */
  lemma QuietServesNewest(nodes: seq<Node>, steps: seq<Step>, i: nat)
    requires Run(nodes, steps) && i < |nodes| && nodes[i].pending == multiset{}
    ensures ServesNewest(nodes[i].st)
  {
    forall k: Key32
      ensures ServesNewestOf(nodes[i].st, k)
    {
      ServesNewestIff(nodes, steps, i, k);
    }
  }

  /** Two quiet nodes with the same profiles of a sender, one newer than the others, serve that one. */
  lemma QuietNodesAgree(n1: seq<Node>, t1: seq<Step>, n2: seq<Node>, t2: seq<Step>, k: Key32)
    requires Run(n1, t1) && Run(n2, t2)
    requires n1[|t1|].pending == multiset{} && n2[|t2|].pending == multiset{}
    requires SameProfiles(n1[|t1|].st, n2[|t2|].st, k) && OneNewest(n1[|t1|].st, k)
    ensures SameAnswer(n1[|t1|].st, n2[|t2|].st, k)
  {
    RunKeeps(n1, t1, |t1|);
    RunKeeps(n2, t2, |t2|);
    QuietServesNewest(n1, t1, |t1|);
    QuietServesNewest(n2, t2, |t2|);
    NewestAgree(n1[|t1|].st, n2[|t2|].st, k);
  }

  /** While a newer profile is pending the older one is still served. */
  lemma BehindWhilePending(n: Node, env: Envelope, local: bool)
    requires Inv(n) && env.kind == MSG_PROFILE && ContentBytes(env) !in n.st.objects
    requires Profile(n.st, env.sender).Some? && Profile(n.st, env.sender).value.timestamp < env.timestamp
    ensures var n' := Next(n, Storing(env, local));
            Profile(n'.st, env.sender) == Profile(n.st, env.sender) && !ServesNewestOf(n'.st, env.sender)
  {
    assert ProfileOf(Next(n, Storing(env, local)).st.objects[ContentBytes(env)], env.sender);
  }
}
