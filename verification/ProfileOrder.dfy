/** Exactly which sets of profiles are served alike by all nodes, in whatever order they arrive. */
module ProfileOrder {
  import opened Bytes
  import opened Envelope
  import opened Daemon
  import opened DaemonRun

  /** The newest timestamp in the set is held by one content. */
  ghost predicate OneIsNewest(s: set<Envelope>) {
    forall e, f :: IsNewest(s, e) && IsNewest(s, f) ==> SameContent(e, f)
  }

  ghost predicate IsNewest(s: set<Envelope>, e: Envelope) {
    e in s && forall f :: f in s ==> f.timestamp <= e.timestamp
  }

  /** The profiles of k that the node stores are those of the set. */
  ghost predicate Holds(a: State, k: Key32, s: set<Envelope>) {
    && (forall e :: e in s ==> ContentBytes(e) in a.objects)
    && (forall h :: h in a.objects && ProfileOf(a.objects[h], k) ==> HasContent(s, h))
  }

  ghost predicate HasContent(s: set<Envelope>, h: Hash) {
    exists e :: e in s && ContentBytes(e) == h
  }

  datatype Trace = Trace(setup: Setup, states: seq<State>, steps: seq<Step>)

  /** A run in clock order, of receipts and sends other than deletions. */
  ghost predicate PlainRun(r: Trace) {
    && Run(r.setup, r.states, r.steps) && (exists from :: ClockRuns(r.steps, from))
    && forall i :: 0 <= i < |r.steps| ==> Plain(r.steps[i])
  }

  /** Such a run of a node with these payload rules, after which the node holds the set. */
  ghost predicate Gathers(r: Trace, p: Payloads, k: Key32, s: set<Envelope>) {
    PlainRun(r) && r.setup.payloads == p && Holds(r.states[|r.steps|], k, s)
  }

  ghost predicate EndAlike(a: Trace, b: Trace, k: Key32)
    requires |a.states| == |a.steps| + 1 && |b.states| == |b.steps| + 1
  {
    SameAnswer(a.states[|a.steps|], b.states[|b.steps|], k)
  }

  /** Any two nodes that come to hold the set answer alike. */
  ghost predicate AlwaysAgree(k: Key32, s: set<Envelope>, p: Payloads) {
    forall a, b :: Gathers(a, p, k, s) && Gathers(b, p, k, s) ==> EndAlike(a, b, k)
  }

  // ----- one newest: they agree

  lemma HeldContent(a: State, k: Key32, s: set<Envelope>, h: Hash) returns (e: Envelope)
    requires Addressed(a) && Holds(a, k, s) && h in a.objects && ProfileOf(a.objects[h], k)
    ensures e in s && ContentBytes(e) == h && SameContent(e, a.objects[h])
  {
    e :| e in s && ContentBytes(e) == h;
    ContentBytesInjective(e, a.objects[h]);
  }

  lemma HeldAlike(a: State, b: State, k: Key32, s: set<Envelope>)
    requires Addressed(a) && Addressed(b) && Holds(a, k, s) && Holds(b, k, s)
    ensures SameProfiles(a, b, k)
  {
    forall h | h in a.objects && ProfileOf(a.objects[h], k)
      ensures h in b.objects && SameContent(a.objects[h], b.objects[h])
    {
      var e := HeldContent(a, k, s, h);
      ContentBytesInjective(a.objects[h], b.objects[h]);
    }
    forall h | h in b.objects && ProfileOf(b.objects[h], k)
      ensures h in a.objects && SameContent(a.objects[h], b.objects[h])
    {
      var e := HeldContent(b, k, s, h);
      ContentBytesInjective(a.objects[h], b.objects[h]);
    }
  }

  lemma HeldNewest(a: State, k: Key32, s: set<Envelope>, h: Hash) returns (e: Envelope)
    requires Addressed(a) && Holds(a, k, s) && (forall f :: f in s ==> ProfileOf(f, k))
    requires h in a.objects && Newest(a, k, a.objects[h])
    ensures IsNewest(s, e) && ContentBytes(e) == h
  {
    e := HeldContent(a, k, s, h);
    forall f | f in s
      ensures f.timestamp <= e.timestamp
    {
      ContentBytesInjective(f, a.objects[ContentBytes(f)]);
    }
  }

  lemma HeldOneNewest(a: State, k: Key32, s: set<Envelope>)
    requires Addressed(a) && Holds(a, k, s) && (forall f :: f in s ==> ProfileOf(f, k)) && OneIsNewest(s)
    ensures OneNewest(a, k)
  {
    forall g, h | g in a.objects && h in a.objects && Newest(a, k, a.objects[g]) && Newest(a, k, a.objects[h])
      ensures g == h
    {
      var e := HeldNewest(a, k, s, g);
      var f := HeldNewest(a, k, s, h);
      ContentBytesInjective(e, f);
    }
  }

  lemma GatherersAgree(a: Trace, b: Trace, p: Payloads, k: Key32, s: set<Envelope>)
    requires OneIsNewest(s) && (forall e :: e in s ==> ProfileOf(e, k)) && Gathers(a, p, k, s) && Gathers(b, p, k, s)
    ensures EndAlike(a, b, k)
  {
    var x, y := a.states[|a.steps|], b.states[|b.steps|];
    RunServesNewest(a.setup, a.states, a.steps, |a.steps|);
    RunServesNewest(b.setup, b.states, b.steps, |b.steps|);
    HeldAlike(x, y, k, s);
    HeldOneNewest(x, k, s);
    NewestAgree(x, y, k);
  }

  lemma OneNewestAgrees(k: Key32, s: set<Envelope>, p: Payloads)
    requires OneIsNewest(s) && forall e :: e in s ==> ProfileOf(e, k)
    ensures AlwaysAgree(k, s, p)
  {
    forall a, b | Gathers(a, p, k, s) && Gathers(b, p, k, s)
      ensures EndAlike(a, b, k)
    {
      GatherersAgree(a, b, p, k, s);
    }
  }

  // ----- a tie: two orders of the same set disagree

  /** The node after the local client sent these profiles, each at its own time. */
  function After(o: Options, p: Payloads, es: seq<Envelope>): State {
    if es == [] then Empty()
    else
      var e := es[|es| - 1];
      Submit(o, p, [], After(o, p, es[..|es| - 1]), e, e.timestamp).state
  }

  ghost predicate Sendable(p: Payloads, k: Key32, e: Envelope) {
    ProfileOf(e, k) && p.valid(e.kind, e.payload)
  }

  ghost predicate Ascending(es: seq<Envelope>) {
    forall i, j :: 0 <= i < j < |es| ==> es[i].timestamp <= es[j].timestamp
  }

  function SetupOf(o: Options, p: Payloads, n: nat): Setup {
    Setup(o, p, seq(n, _ => []))
  }

  function StatesOf(o: Options, p: Payloads, es: seq<Envelope>): seq<State> {
    seq(|es| + 1, i requires 0 <= i <= |es| => After(o, p, es[..i]))
  }

  function StepsOf(es: seq<Envelope>): seq<Step> {
    seq(|es|, i requires 0 <= i < |es| => Sending(es[i], es[i].timestamp))
  }

  lemma SentIsRun(o: Options, p: Payloads, es: seq<Envelope>)
    ensures Run(SetupOf(o, p, |es|), StatesOf(o, p, es), StepsOf(es))
  {
    var states, steps := StatesOf(o, p, es), StepsOf(es);
    forall i | 0 <= i < |steps|
      ensures states[i + 1] == Next(o, p, [], states[i], steps[i])
    {
      assert es[..i + 1][..i] == es[..i];
    }
  }

  lemma SendsArePlain(p: Payloads, k: Key32, es: seq<Envelope>)
    requires forall e :: e in es ==> Sendable(p, k, e)
    ensures forall i :: 0 <= i < |es| ==> Plain(StepsOf(es)[i])
  {
    assert forall i :: 0 <= i < |es| ==> es[i] in es;
  }

  lemma StoredOnce(o: Options, p: Payloads, k: Key32, es: seq<Envelope>)
    requires es != [] && Sendable(p, k, es[|es| - 1])
    ensures var e := es[|es| - 1];
            After(o, p, es).objects == Put(After(o, p, es[..|es| - 1]).objects, e)
  {
  }

  /** What was sent is what is stored. */
  lemma {:induction false} SentIsStored(o: Options, p: Payloads, k: Key32, es: seq<Envelope>)
    requires forall e :: e in es ==> Sendable(p, k, e)
    ensures forall e :: e in es ==> ContentBytes(e) in After(o, p, es).objects
    ensures forall h :: h in After(o, p, es).objects ==>
                          After(o, p, es).objects[h] in es && ContentBytes(After(o, p, es).objects[h]) == h
  {
    if es != [] {
      var before := es[..|es| - 1];
      assert es == before + [es[|es| - 1]];
      SentIsStored(o, p, k, before);
      StoredOnce(o, p, k, es);
    }
  }

  /** What is served for k is this content. */
  ghost predicate Serves(a: State, k: Key32, e: Envelope) {
    Profile(a, k).Some? && SameContent(Profile(a, k).value, e)
  }

  lemma SentServesNewest(o: Options, p: Payloads, k: Key32, es: seq<Envelope>)
    requires forall e :: e in es ==> Sendable(p, k, e)
    ensures Addressed(After(o, p, es)) && ServesNewestOf(After(o, p, es), k)
  {
    SentIsRun(o, p, es);
    SendsArePlain(p, k, es);
    RunServesNewest(SetupOf(o, p, |es|), StatesOf(o, p, es), StepsOf(es), |es|);
    assert es[..|es|] == es;
  }

  /** One that is newer than all before it is served. */
  lemma NewerIsServed(o: Options, p: Payloads, k: Key32, es: seq<Envelope>, e: Envelope)
    requires (forall f :: f in es ==> Sendable(p, k, f) && f.timestamp < e.timestamp) && Sendable(p, k, e)
    ensures Serves(After(o, p, es + [e]), k, e)
  {
    SentIsStored(o, p, k, es);
    SentServesNewest(o, p, k, es);
    assert (es + [e])[..|es|] == es;
    var before, h := After(o, p, es), ContentBytes(e);
    if h in before.objects {
      ContentBytesInjective(e, before.objects[h]);
    }
  }

  /** Once served it stays served while nothing newer is sent. */
  lemma NotNewerChangesNothing(o: Options, p: Payloads, k: Key32, es: seq<Envelope>, e: Envelope, f: Envelope)
    requires (forall x :: x in es ==> Sendable(p, k, x)) && Sendable(p, k, f) && f.timestamp <= e.timestamp
    requires Serves(After(o, p, es), k, e)
    ensures Serves(After(o, p, es + [f]), k, e)
  {
    assert (es + [f])[..|es|] == es;
  }

  lemma {:induction false} FirstStays(o: Options, p: Payloads, k: Key32, es: seq<Envelope>, e: Envelope,
                                      more: seq<Envelope>)
    requires (forall x :: x in es + more ==> Sendable(p, k, x)) && Serves(After(o, p, es), k, e)
    requires forall f :: f in more ==> f.timestamp <= e.timestamp
    ensures Serves(After(o, p, es + more), k, e)
    decreases |more|
  {
    if more == [] {
      assert es + more == es;
    } else {
      var f, rest := more[0], more[1..];
      assert more == [f] + rest && es + more == (es + [f]) + rest;
      NotNewerChangesNothing(o, p, k, es, e, f);
      FirstStays(o, p, k, es + [f], e, rest);
    }
  }

  lemma {:induction false} Latest(s: set<Envelope>) returns (e: Envelope)
    requires s != {}
    ensures IsNewest(s, e)
    decreases |s|
  {
    e :| e in s;
    var rest := s - {e};
    assert s == rest + {e};
    if rest != {} {
      var other := Latest(rest);
      if e.timestamp < other.timestamp {
        e := other;
      }
    }
  }

  lemma {:induction false} Listed(s: set<Envelope>) returns (es: seq<Envelope>)
    ensures (forall e :: e in es <==> e in s) && Ascending(es)
    decreases |s|
  {
    if s == {} {
      es := [];
    } else {
      var e := Latest(s);
      es := Listed(s - {e});
      es := es + [e];
    }
  }

  lemma TiedAt(early: seq<Envelope>, e: Envelope, rest: seq<Envelope>, j: nat)
    requires |early| <= j < |early + [e] + rest| && forall f :: f in rest ==> f.timestamp == e.timestamp
    ensures (early + [e] + rest)[j].timestamp == e.timestamp
  {
    if j > |early| {
      assert (early + [e] + rest)[j] == rest[j - |early| - 1];
    }
  }

  /** The set in clock order with e as the first of the newest. */
  lemma FirstAmongNewest(s: set<Envelope>, e: Envelope) returns (early: seq<Envelope>, rest: seq<Envelope>)
    requires IsNewest(s, e)
    ensures forall f :: f in early + [e] + rest <==> f in s
    ensures (forall f :: f in early ==> f.timestamp < e.timestamp) && Ascending(early + [e] + rest)
  {
    var older := set f | f in s && f.timestamp < e.timestamp;
    early := Listed(older);
    rest := Listed(s - older - {e});
    var es := early + [e] + rest;
    forall i, j | 0 <= i < j < |es|
      ensures es[i].timestamp <= es[j].timestamp
    {
      assert es[j] in es && es[j] in s;
      if i >= |early| {
        TiedAt(early, e, rest, j);
      } else if j < |early| {
        assert es[i] == early[i] && es[j] == early[j];
      } else {
        assert es[i] in early;
        TiedAt(early, e, rest, j);
      }
    }
  }

  lemma SentGathers(o: Options, p: Payloads, k: Key32, es: seq<Envelope>, s: set<Envelope>)
    requires es != [] && Ascending(es) && (forall e :: e in es <==> e in s) && forall e :: e in s ==> Sendable(p, k, e)
    ensures Gathers(Trace(SetupOf(o, p, |es|), StatesOf(o, p, es), StepsOf(es)), p, k, s)
  {
    SentIsRun(o, p, es);
    SendsArePlain(p, k, es);
    SentIsStored(o, p, k, es);
    assert es[..|es|] == es;
    assert ClockRuns(StepsOf(es), es[0].timestamp);
  }

  lemma FirstServedStays(o: Options, p: Payloads, k: Key32, early: seq<Envelope>, e: Envelope, rest: seq<Envelope>,
                         s: set<Envelope>)
    requires (forall f :: f in early + [e] + rest <==> f in s) && (forall f :: f in s ==> Sendable(p, k, f))
    requires IsNewest(s, e) && Serves(After(o, p, early + [e]), k, e)
    ensures Serves(After(o, p, early + [e] + rest), k, e)
  {
    forall f | f in rest
      ensures f.timestamp <= e.timestamp
    {
      assert f in early + [e] + rest;
    }
    FirstStays(o, p, k, early + [e], e, rest);
  }

  /** A run that gathers the set and then serves e. */
  lemma GathersServing(k: Key32, s: set<Envelope>, p: Payloads, e: Envelope)
    returns (r: Trace)
    requires (forall f :: f in s ==> Sendable(p, k, f)) && IsNewest(s, e)
    ensures Gathers(r, p, k, s) && Serves(r.states[|r.steps|], k, e)
  {
    var o := Options(false, 0, 0, 0);
    var early, rest := FirstAmongNewest(s, e);
    var es := early + [e] + rest;
    r := Trace(SetupOf(o, p, |es|), StatesOf(o, p, es), StepsOf(es));
    SentGathers(o, p, k, es, s);
    assert es[..|es|] == es;
    assert forall x :: x in early ==> x in es;
    NewerIsServed(o, p, k, early, e);
    FirstServedStays(o, p, k, early, e, rest, s);
  }

  lemma TieDisagrees(k: Key32, s: set<Envelope>, p: Payloads, e: Envelope, f: Envelope)
    requires forall x :: x in s ==> Sendable(p, k, x)
    requires IsNewest(s, e) && IsNewest(s, f) && !SameContent(e, f)
    ensures !AlwaysAgree(k, s, p)
  {
    var a := GathersServing(k, s, p, e);
    var b := GathersServing(k, s, p, f);
    assert !EndAlike(a, b, k);
  }

  /** Nodes that come to hold the same profiles always answer alike exactly when one of these is the newest. */
  lemma AlwaysAgreeIff(k: Key32, s: set<Envelope>, p: Payloads)
    requires forall e :: e in s ==> Sendable(p, k, e)
    ensures AlwaysAgree(k, s, p) <==> OneIsNewest(s)
  {
    if OneIsNewest(s) {
      OneNewestAgrees(k, s, p);
    } else {
      var e, f :| IsNewest(s, e) && IsNewest(s, f) && !SameContent(e, f);
      TieDisagrees(k, s, p, e, f);
    }
  }
}
