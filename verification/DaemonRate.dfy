/** Whole runs of a daemon: how much one peer gets through, and how objects come to be stored. */
module DaemonRate {
  import opened Envelope
  import opened Daemon
  import opened DaemonRun
  import W = RateWindow

  /** Step i is a message of this peer that the node took in, stored or found stored already. */
  ghost predicate GetsThrough(c: Setup, states: seq<State>, steps: seq<Step>, i: nat, peer: Key32)
    requires Run(c, states, steps) && i < |steps|
  {
    steps[i].Receiving? && steps[i].from == peer &&
    !Receive(c.opts, c.payloads, c.tables[i], states[i], steps[i].env, peer, steps[i].now).verdict.Rejected?
  }

  /** When messages of this peer got through, from step i on. */
  ghost function Through(c: Setup, states: seq<State>, steps: seq<Step>, i: nat, peer: Key32): seq<int>
    requires Run(c, states, steps) && i <= |steps|
    decreases |steps| - i
  {
    if i == |steps| then []
    else
      (if GetsThrough(c, states, steps, i, peer) then [steps[i].now] else []) +
      Through(c, states, steps, i + 1, peer)
  }

  /** What a step means to the rate windows. */
  function EventOf(opts: Options, step: Step): seq<W.Event> {
    match step
    case Receiving(env, from, now) =>
      if TimestampValid(env.timestamp, now) && |env.payload| <= opts.maxPayloadSize then [W.Attempt(from,
        now)] else []
    case Sending(_, _) => []
    case Pruning(_) => []
    case Evicting(now) => [W.Evicting(now)]
  }

  function Events(opts: Options, steps: seq<Step>): seq<W.Event> {
    if steps == [] then [] else EventOf(opts, steps[0]) + Events(opts, steps[1..])
  }

  lemma {:induction false} EventsOrdered(opts: Options, steps: seq<Step>, from: int)
    requires ClockRuns(steps, from)
    ensures W.Ordered(Events(opts, steps), from)
    decreases |steps|
  {
    if steps != [] {
      var rest := steps[1..];
      assert ClockRuns(rest, steps[0].now);
      EventsOrdered(opts, rest, steps[0].now);
    }
  }

  lemma StepRates(opts: Options, p: Payloads, table: seq<Peer>, st: State, step: Step)
    ensures Next(opts, p, table, st, step).rates ==
            var es := EventOf(opts, step); if es == [] then st.rates else W.After(st.rates, opts.rateLimit, es[0])
  {
  }

  lemma CountPut(put: seq<int>, rest: seq<int>, lo: int, hi: int)
    requires |put| <= 1
    ensures W.Count(put + rest, lo, hi) == W.Count(put, lo, hi) + W.Count(rest, lo, hi)
  {
    if put == [] {
      assert put + rest == rest;
    } else {
      assert (put + rest)[1..] == rest;
    }
  }

  /** The times of this peer's messages that one event lets through. */
  function Let(rates: W.Rates, limit: int, es: seq<W.Event>, peer: Key32): seq<int> {
    if |es| == 1 && es[0] == W.Attempt(peer, es[0].now) && AllowRate(rates, peer, limit, es[0].now).1 then [es[0].now]
    else []
  }

  lemma AcceptedStep(rates: W.Rates, limit: int, es: seq<W.Event>, rest: seq<W.Event>, peer: Key32)
    requires |es| <= 1
    ensures W.Accepted(rates, limit, es + rest, peer) ==
            Let(rates, limit, es, peer) +
            W.Accepted(if es == [] then rates else W.After(rates, limit, es[0]), limit, rest, peer)
  {
    if es == [] {
      assert es + rest == rest;
    } else {
      assert (es + rest)[1..] == rest;
    }
  }

  lemma {:induction false} ThroughIsAllowed(c: Setup, states: seq<State>, steps: seq<Step>, i: nat, peer: Key32,
                                            lo: int, hi: int)
    requires Run(c, states, steps) && i <= |steps|
    ensures W.Count(Through(c, states, steps, i, peer), lo, hi) <=
            W.Count(W.Accepted(states[i].rates, c.opts.rateLimit, Events(c.opts, steps[i..]), peer), lo, hi)
    decreases |steps| - i
  {
    if i < |steps| {
      var st, limit, now := states[i], c.opts.rateLimit, steps[i].now;
      var es, rest := EventOf(c.opts, steps[i]), Events(c.opts, steps[i + 1..]);
      assert steps[i..][0] == steps[i] && steps[i..][1..] == steps[i + 1..];
      StepRates(c.opts, c.payloads, c.tables[i], st, steps[i]);
      AcceptedStep(st.rates, limit, es, rest, peer);
      var put := if GetsThrough(c, states, steps, i, peer) then [now] else [];
      CountPut(put, Through(c, states, steps, i + 1, peer), lo, hi);
      CountPut(Let(st.rates, limit, es, peer), W.Accepted(states[i + 1].rates, limit, rest, peer), lo, hi);
      ThroughIsAllowed(c, states, steps, i + 1, peer, lo, hi);
    }
  }

  /** In every run of a node, no closed minute holds more than 2 * limit - 1 messages of one peer that got through. */
  lemma NodeMinuteBound(c: Setup, states: seq<State>, steps: seq<Step>, from: int, peer: Key32, t: int)
    requires Run(c, states, steps) && ClockRuns(steps, from) && c.opts.rateLimit >= 1
    ensures W.InMinute(Through(c, states, steps, 0, peer), t) <= 2 * c.opts.rateLimit - 1
  {
    ThroughIsAllowed(c, states, steps, 0, peer, t, t + MINUTE);
    assert steps[0..] == steps;
    EventsOrdered(c.opts, steps, from);
    W.MinuteBound(c.opts.rateLimit, Events(c.opts, steps), peer, from, t);
  }

  // ----- what is stored

  /** The step handed the node this envelope, which it may store. */
  predicate Admits(p: Payloads, step: Step, e: Envelope) {
    (step.Receiving? || step.Sending?) && step.env == e && Storable(p, e, step.now)
  }

  lemma StepAdmits(opts: Options, p: Payloads, table: seq<Peer>, st: State, step: Step, h: Hash)
    requires h in Next(opts, p, table, st, step).objects
    ensures var e := Next(opts, p, table, st, step).objects[h];
            if h in st.objects then st.objects[h] == e else Admits(p, step, e) && h == ContentBytes(e)
  {
    match step
    case Receiving(env, from, now) => ReceiveProper(opts, p, table, st, env, from, now);
    case Sending(env, now) => SubmitProper(opts, p, table, st, env, now);
    case _ =>
  }

  /** In every run whatever is stored is stored under its own content and came in valid and fresh. */
  lemma {:induction false} EntersOnlyFresh(c: Setup, states: seq<State>, steps: seq<Step>, i: nat, h: Hash)
    requires Run(c, states, steps) && i < |states| && h in states[i].objects
    ensures h == ContentBytes(states[i].objects[h])
    ensures exists k :: 0 <= k < i && Admits(c.payloads, steps[k], states[i].objects[h])
  {
    if i > 0 {
      StepAdmits(c.opts, c.payloads, c.tables[i - 1], states[i - 1], steps[i - 1], h);
      if h in states[i - 1].objects {
        EntersOnlyFresh(c, states, steps, i - 1, h);
      }
    }
  }
}
