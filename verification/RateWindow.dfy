/** The per-peer fixed window of the daemon, over every run of attempts and evictions. */
module RateWindow {
  import opened Envelope
  import opened Daemon

  type Rates = map<Key32, Daemon.RateWindow>

  datatype Event = Attempt(peer: Key32, now: int) | Evicting(now: int)

  ghost predicate Ordered(events: seq<Event>, from: int) {
    forall i :: 0 <= i < |events| ==> from <= events[i].now && (i > 0 ==> events[i - 1].now <= events[i].now)
  }

  function After(rates: Rates, limit: int, e: Event): Rates {
    if e.Attempt? then AllowRate(rates, e.peer, limit, e.now).0 else EvictRates(rates, e.now)
  }

  /** The answers to the attempts, in order. */
  function Verdicts(rates: Rates, limit: int, events: seq<Event>): seq<bool>
    decreases |events|
  {
    if events == [] then []
    else
      var e := events[0];
      (if e.Attempt? then [AllowRate(rates, e.peer, limit, e.now).1] else []) +
      Verdicts(After(rates, limit, e), limit, events[1..])
  }

  /** The times at which messages of one peer are accepted. */
  function Accepted(rates: Rates, limit: int, events: seq<Event>, peer: Key32): seq<int>
    decreases |events|
  {
    if events == [] then []
    else
      var e := events[0];
      (if e.Attempt? && e.peer == peer && AllowRate(rates, e.peer, limit, e.now).1 then [e.now] else []) +
      Accepted(After(rates, limit, e), limit, events[1..], peer)
  }

  function Attempts(events: seq<Event>): seq<Event> {
    if events == [] then []
    else (if events[0].Attempt? then [events[0]] else []) + Attempts(events[1..])
  }

  // ----- evictions change no verdict

  /** few is many without some windows that are too old to count. */
  ghost predicate OnlyStaleMissing(few: Rates, many: Rates, now: int) {
    && (forall k :: k in few ==> k in many && many[k] == few[k])
    && (forall k :: k in many && k !in few ==> now - many[k].start > MINUTE)
  }

  lemma {:induction false} EvictionsInvisible(few: Rates, many: Rates, limit: int, events: seq<Event>, now: int)
    requires OnlyStaleMissing(few, many, now) && Ordered(events, now)
    ensures Verdicts(few, limit, events) == Verdicts(many, limit, Attempts(events))
    decreases |events|
  {
    if events != [] {
      var e, rest := events[0], events[1..];
      OrderedRest(events, now);
      if e.Attempt? {
        EvictionsInvisible(After(few, limit, e), After(many, limit, e), limit, rest, e.now);
        assert Attempts(events)[0] == e && Attempts(events)[1..] == Attempts(rest);
      } else {
        EvictionsInvisible(After(few, limit, e), many, limit, rest, e.now);
        assert Attempts(events) == Attempts(rest);
      }
    }
  }

  lemma OrderedRest(events: seq<Event>, from: int)
    requires events != [] && Ordered(events, from)
    ensures Ordered(events[1..], events[0].now)
  {
    var i := 1;
    while i < |events|
      invariant 1 <= i <= |events| && events[0].now <= events[i - 1].now
      invariant forall j :: 0 <= j < i - 1 ==> events[0].now <= events[1..][j].now
    {
      i := i + 1;
    }
  }

  /** Interleaving evictions anywhere changes no later verdict. */
  lemma PruningNeverChangesVerdict(rates: Rates, limit: int, events: seq<Event>, from: int)
    requires Ordered(events, from)
    ensures Verdicts(rates, limit, events) == Verdicts(rates, limit, Attempts(events))
  {
    EvictionsInvisible(rates, rates, limit, events, from);
  }

  // ----- how many messages one minute can hold

  function Count(times: seq<int>, lo: int, hi: int): nat {
    if times == [] then 0 else (if lo <= times[0] <= hi then 1 else 0) + Count(times[1..], lo, hi)
  }

  function CountFrom(times: seq<int>, lo: int): nat {
    if times == [] then 0 else (if lo <= times[0] then 1 else 0) + CountFrom(times[1..], lo)
  }

  lemma {:induction false} CountAppend(times: seq<int>, x: int, lo: int, hi: int)
    ensures Count(times + [x], lo, hi) == Count(times, lo, hi) + if lo <= x <= hi then 1 else 0
    ensures CountFrom(times + [x], lo) == CountFrom(times, lo) + if lo <= x then 1 else 0
  {
    if times != [] {
      CountAppend(times[1..], x, lo, hi);
      assert (times + [x])[1..] == times[1..] + [x];
    }
  }

  lemma {:induction false} CountSplit(times: seq<int>, lo: int, mid: int, hi: int)
    ensures Count(times, lo, hi) <= Count(times, lo, mid - 1) + CountFrom(times, mid)
  {
    if times != [] {
      CountSplit(times[1..], lo, mid, hi);
    }
  }

  lemma {:induction false} CountNarrow(times: seq<int>, lo: int, lo': int, hi: int)
    requires lo <= lo'
    ensures Count(times, lo', hi) <= Count(times, lo, hi)
    ensures Count(times, lo', hi) <= CountFrom(times, lo)
  {
    if times != [] {
      CountNarrow(times[1..], lo, lo', hi);
    }
  }

  /** How many of the times lie in the closed minute that begins at t. */
  function InMinute(times: seq<int>, t: int): nat {
    Count(times, t, t + MINUTE)
  }

  ghost predicate MinutesHold(times: seq<int>, bound: int) {
    forall t :: InMinute(times, t) <= bound
  }

  lemma {:induction false} FromMonotone(times: seq<int>, lo: int, lo': int)
    requires lo <= lo'
    ensures CountFrom(times, lo') <= CountFrom(times, lo)
  {
    if times != [] {
      FromMonotone(times[1..], lo, lo');
    }
  }

  /**
   past: the times accepted so far, of which the last window began at s. That window
   accepted at s itself, so the minute before a later window holds one fewer than limit.
   */
  ghost predicate Windowed(past: seq<int>, limit: int, s: int) {
    && CountFrom(past, s + 1) + 1 <= CountFrom(past, s) <= limit
    && CountFrom(past, s + MINUTE + 1) == 0
    && Count(past, s - MINUTE, s - 1) <= limit - 1
    && MinutesHold(past, 2 * limit - 1)
  }

  lemma OpenFirst(limit: int, now: int)
    requires limit >= 1
    ensures Windowed([now], limit, now)
  {
    forall t
      ensures InMinute([now], t) <= 1
    {
      assert Count([now][1..], t, t + MINUTE) == 0;
    }
  }

  lemma OpenNext(past: seq<int>, limit: int, s: int, now: int)
    requires limit >= 1 && now - s > MINUTE && Windowed(past, limit, s)
    ensures Windowed(past + [now], limit, now)
  {
    FromMonotone(past, s + MINUTE + 1, now);
    FromMonotone(past, now, now + 1);
    FromMonotone(past, now, now + MINUTE + 1);
    CountAppend(past, now, now, now);
    CountAppend(past, now, now + 1, now);
    CountAppend(past, now, now + MINUTE + 1, now);
    CountAppend(past, now, now - MINUTE, now - 1);
    CountNarrow(past, s + 1, now - MINUTE, now - 1);
    forall t
      ensures InMinute(past + [now], t) <= 2 * limit - 1
    {
      CountAppend(past, now, t, t + MINUTE);
      assert InMinute(past, t) <= 2 * limit - 1;
      if t <= now <= t + MINUTE {
        CountSplit(past, t, now, t + MINUTE);
        CountNarrow(past, s + 1, t, now - 1);
      }
    }
  }

  lemma StayInWindow(past: seq<int>, limit: int, s: int, now: int)
    requires limit >= 1 && s <= now <= s + MINUTE && Windowed(past, limit, s)
    requires CountFrom(past, s) < limit
    ensures Windowed(past + [now], limit, s)
    ensures CountFrom(past + [now], s) == CountFrom(past, s) + 1
  {
    CountAppend(past, now, s, s);
    CountAppend(past, now, s + 1, s);
    CountAppend(past, now, s + MINUTE + 1, s);
    CountAppend(past, now, s - MINUTE, s - 1);
    forall t
      ensures InMinute(past + [now], t) <= 2 * limit - 1
    {
      CountAppend(past, now, t, t + MINUTE);
      assert InMinute(past, t) <= 2 * limit - 1;
      if t <= now <= t + MINUTE {
        CountSplit(past, t, s, t + MINUTE);
        CountNarrow(past, s - MINUTE, t, s - 1);
      }
    }
  }

  /** What the rate table says about the peer, against what was accepted. */
  ghost predicate Paced(rates: Rates, peer: Key32, limit: int, past: seq<int>, s: int, now: int) {
    if past == [] then peer !in rates
    else
      && Windowed(past, limit, s)
      && s <= now
      && (peer in rates ==> rates[peer].start == s && CountFrom(past, s) <= rates[peer].count)
      && (peer !in rates ==> now - s > MINUTE)
  }

  /** One accepted attempt: in a first window, in the next window, or in the same one. */
  lemma AttemptPaced(rates: Rates, limit: int, peer: Key32, past: seq<int>, s: int, now: int, t: int)
    returns (s': int)
    requires limit >= 1 && now <= t && Paced(rates, peer, limit, past, s, now) && AllowRate(rates, peer, limit, t).1
    ensures Paced(AllowRate(rates, peer, limit, t).0, peer, limit, past + [t], s', t)
  {
    s' := s;
    if past == [] {
      OpenFirst(limit, t);
      assert past + [t] == [t];
      s' := t;
    } else if peer !in rates || t - rates[peer].start > MINUTE {
      OpenNext(past, limit, s, t);
      FromMonotone(past, s + MINUTE + 1, t);
      CountAppend(past, t, t, t);
      s' := t;
    } else {
      StayInWindow(past, limit, s, t);
    }
  }

  /** An event that is no accepted attempt of the peer leaves its pace. */
  lemma IdlePaced(rates: Rates, limit: int, e: Event, peer: Key32, past: seq<int>, s: int, now: int)
    requires limit >= 1 && now <= e.now && Paced(rates, peer, limit, past, s, now)
    requires !(e.Attempt? && e.peer == peer && AllowRate(rates, peer, limit, e.now).1)
    ensures Paced(After(rates, limit, e), peer, limit, past, s, e.now)
  {
  }

  lemma {:induction false} AcceptedPaced(rates: Rates, limit: int, events: seq<Event>, peer: Key32, past: seq<int>,
                                         s: int, now: int)
    requires limit >= 1 && Ordered(events, now) && Paced(rates, peer, limit, past, s, now)
    ensures MinutesHold(past + Accepted(rates, limit, events, peer), 2 * limit - 1)
    decreases |events|
  {
    if events == [] {
      assert past + [] == past;
    } else {
      var e, rest := events[0], events[1..];
      OrderedRest(events, now);
      var rates' := After(rates, limit, e);
      var later := Accepted(rates', limit, rest, peer);
      if e.Attempt? && e.peer == peer && AllowRate(rates, peer, limit, e.now).1 {
        var s' := AttemptPaced(rates, limit, peer, past, s, now, e.now);
        AcceptedPaced(rates', limit, rest, peer, past + [e.now], s', e.now);
        assert past + ([e.now] + later) == (past + [e.now]) + later;
      } else {
        IdlePaced(rates, limit, e, peer, past, s, now);
        AcceptedPaced(rates', limit, rest, peer, past, s, e.now);
        assert [] + later == later;
      }
    }
  }

  /** Any closed minute holds at most 2 * limit - 1 messages accepted from one peer, in every run. */
  lemma MinuteBound(limit: int, events: seq<Event>, peer: Key32, from: int, t: int)
    requires limit >= 1 && Ordered(events, from)
    ensures InMinute(Accepted(map[], limit, events, peer), t) <= 2 * limit - 1
  {
    AcceptedPaced(map[], limit, events, peer, [], 0, from);
    assert [] + Accepted(map[], limit, events, peer) == Accepted(map[], limit, events, peer);
  }

  // ----- the bound is reached

  function Burst(peer: Key32, n: nat, now: int): seq<Event> {
    if n == 0 then [] else [Attempt(peer, now)] + Burst(peer, n - 1, now)
  }

  function Counted(rates: Rates, peer: Key32, n: nat): Rates
    requires peer in rates
  {
    rates[peer := rates[peer].(count := rates[peer].count + n)]
  }

  lemma CountedTwice(rates: Rates, peer: Key32, m: nat, n: nat)
    requires peer in rates
    ensures Counted(Counted(rates, peer, m), peer, n) == Counted(rates, peer, m + n)
  {
  }

  function Times(n: nat, now: int): seq<int> {
    seq(n, _ => now)
  }

  /** A burst that fits the open window is accepted whole. */
  lemma {:induction false} BurstAccepted(rates: Rates, limit: int, peer: Key32, n: nat, now: int, more: seq<Event>)
    requires peer in rates && 0 <= now - rates[peer].start <= MINUTE && rates[peer].count + n <= limit
    ensures Accepted(rates, limit, Burst(peer, n, now) + more, peer) ==
            Times(n, now) + Accepted(Counted(rates, peer, n), limit, more, peer)
    decreases n
  {
    if n == 0 {
      assert Burst(peer, n, now) + more == more;
      assert Counted(rates, peer, 0) == rates;
    } else {
      var rest := Burst(peer, n - 1, now) + more;
      BurstCons(peer, n, now, more);
      BurstAccepted(Counted(rates, peer, 1), limit, peer, n - 1, now, more);
      CountedTwice(rates, peer, 1, n - 1);
      TimesCons(n, now, Accepted(Counted(rates, peer, n), limit, more, peer));
    }
  }

  lemma BurstCons(peer: Key32, n: nat, now: int, more: seq<Event>)
    requires n > 0
    ensures Burst(peer, n, now) + more == [Attempt(peer, now)] + (Burst(peer, n - 1, now) + more)
  {
  }

  lemma TimesCons(n: nat, now: int, more: seq<int>)
    requires n > 0
    ensures [now] + (Times(n - 1, now) + more) == Times(n, now) + more
  {
  }

  lemma {:induction false} CountAll(times: seq<int>, lo: int, hi: int)
    requires forall i :: 0 <= i < |times| ==> lo <= times[i] <= hi
    ensures Count(times, lo, hi) == |times|
  {
    if times != [] {
      CountAll(times[1..], lo, hi);
    }
  }

  lemma BurstAlone(rates: Rates, limit: int, peer: Key32, n: nat, now: int)
    requires peer in rates && 0 <= now - rates[peer].start <= MINUTE && rates[peer].count + n <= limit
    ensures Accepted(rates, limit, Burst(peer, n, now), peer) == Times(n, now)
  {
    BurstAccepted(rates, limit, peer, n, now, []);
    var burst, times := Burst(peer, n, now), Times(n, now);
    assert burst + [] == burst && times + [] == times;
  }

  lemma BurstOpens(rates: Rates, limit: int, peer: Key32, n: nat, now: int)
    requires limit >= 1 && (peer !in rates || now - rates[peer].start > MINUTE) && n > 0
    ensures Accepted(rates, limit, Burst(peer, n, now), peer) ==
            [now] + Accepted(rates[peer := RateWindow(now, 1)], limit, Burst(peer, n - 1, now), peer)
  {
    assert Burst(peer, n, now)[1..] == Burst(peer, n - 1, now);
  }

  /** A full new window opened at t by one message and filled by a burst. */
  lemma FullWindow(rates: Rates, limit: nat, peer: Key32, t: int)
    requires limit >= 1 && (peer !in rates || t - rates[peer].start > MINUTE)
    ensures Accepted(rates, limit, Burst(peer, limit, t), peer) == Times(limit, t)
  {
    BurstOpens(rates, limit, peer, limit, t);
    BurstAlone(rates[peer := RateWindow(t, 1)], limit, peer, limit - 1, t);
    assert [t] + Times(limit - 1, t) == Times(limit, t);
  }

  /** A message that opens a window. */
  lemma OpenAccepted(rates: Rates, limit: int, peer: Key32, now: int, more: seq<Event>)
    requires limit >= 1 && (peer !in rates || now - rates[peer].start > MINUTE)
    ensures Accepted(rates, limit, [Attempt(peer, now)] + more, peer) ==
            [now] + Accepted(rates[peer := RateWindow(now, 1)], limit, more, peer)
  {
    assert ([Attempt(peer, now)] + more)[1..] == more;
  }

  lemma {:induction false} BurstOrdered(peer: Key32, n: nat, now: int)
    ensures |Burst(peer, n, now)| == n && forall i :: 0 <= i < n ==> Burst(peer, n, now)[i].now == now
  {
    if n > 0 {
      BurstOrdered(peer, n - 1, now);
    }
  }

  /** One message, a minute later the rest of the window, right after that a full new window. */
  function Worst(limit: nat, peer: Key32): seq<Event>
    requires limit >= 1
  {
    [Attempt(peer, 0)] + (Burst(peer, limit - 1, MINUTE) + Burst(peer, limit, MINUTE + 1))
  }

  lemma WorstAccepted(limit: nat, peer: Key32)
    requires limit >= 1
    ensures Accepted(map[], limit, Worst(limit, peer), peer) ==
            [0] + (Times(limit - 1, MINUTE) + Times(limit, MINUTE + 1))
  {
    var second := Burst(peer, limit, MINUTE + 1);
    var r0: Rates := map[peer := RateWindow(0, 1)];
    OpenAccepted(map[], limit, peer, 0, Burst(peer, limit - 1, MINUTE) + second);
    BurstAccepted(r0, limit, peer, limit - 1, MINUTE, second);
    FullWindow(Counted(r0, peer, limit - 1), limit, peer, MINUTE + 1);
  }

  /** For every limit there is a run of attempts in clock order that reaches the bound. */
  lemma MinuteBoundIsReached(limit: nat, peer: Key32)
    requires limit >= 1
    ensures Ordered(Worst(limit, peer), 0)
    ensures InMinute(Accepted(map[], limit, Worst(limit, peer), peer), MINUTE) == 2 * limit - 1
  {
    BurstOrdered(peer, limit - 1, MINUTE);
    BurstOrdered(peer, limit, MINUTE + 1);
    WorstAccepted(limit, peer);
    var late := Times(limit - 1, MINUTE) + Times(limit, MINUTE + 1);
    assert ([0] + late)[1..] == late;
    CountAll(late, MINUTE, 2 * MINUTE);
  }

  // ----- exactly which attempts are allowed

  /** The times of one peer's attempts. */
  function TimesOf(peer: Key32, events: seq<Event>): seq<int> {
    if events == [] then []
    else
      var e := events[|events| - 1];
      TimesOf(peer, events[..|events| - 1]) + if e.Attempt? && e.peer == peer then [e.now] else []
  }

  /** Where the current window opens: an attempt more than a minute after the last opening opens the next. */
  function Opening(times: seq<int>): (i: nat)
    requires times != []
    ensures i < |times|
  {
    if |times| == 1 then 0
    else
      var i := Opening(times[..|times| - 1]);
      if times[|times| - 1] - times[i] > 60_000_000_000 then |times| - 1 else i
  }

  /** The place of the last attempt in its window, counted from 1. */
  function Place(times: seq<int>): nat
    requires times != []
  {
    |times| - Opening(times)
  }

  function RatesAfter(limit: int, events: seq<Event>): Rates {
    if events == [] then map[]
    else After(RatesAfter(limit, events[..|events| - 1]), limit, events[|events| - 1])
  }

  /** The table holds the peer's window, or has forgotten one that is over. */
  ghost predicate Tracks(rates: Rates, peer: Key32, times: seq<int>, now: int) {
    if times == [] then peer !in rates
    else if peer in rates then rates[peer] == Daemon.RateWindow(times[Opening(times)], Place(times))
    else now - times[Opening(times)] > 60_000_000_000
  }

  lemma OpeningNext(times: seq<int>, t: int)
    requires times != []
    ensures Opening(times + [t]) == if t - times[Opening(times)] > 60_000_000_000 then |times| else Opening(times)
  {
    assert (times + [t])[..|times|] == times;
  }

  /** An attempt is allowed exactly when its place in its window is within the limit. */
  lemma AttemptTracks(rates: Rates, limit: int, peer: Key32, times: seq<int>, now: int, t: int)
    requires limit > 0 && now <= t && Tracks(rates, peer, times, now)
    ensures Tracks(AllowRate(rates, peer, limit, t).0, peer, times + [t], t)
    ensures AllowRate(rates, peer, limit, t).1 <==> Place(times + [t]) <= limit
  {
    if times == [] {
      assert times + [t] == [t];
    } else {
      OpeningNext(times, t);
    }
  }

  lemma EventTracks(rates: Rates, limit: int, peer: Key32, times: seq<int>, now: int, e: Event)
    requires limit > 0 && now <= e.now && Tracks(rates, peer, times, now) && !(e.Attempt? && e.peer == peer)
    ensures Tracks(After(rates, limit, e), peer, times, e.now)
  {
  }

  lemma {:induction false} RunTracks(limit: int, peer: Key32, events: seq<Event>, from: int)
    requires limit > 0 && Ordered(events, from)
    ensures Tracks(RatesAfter(limit, events), peer, TimesOf(peer, events),
                   if events == [] then from else events[|events| - 1].now)
  {
    if events != [] {
      var before, e := events[..|events| - 1], events[|events| - 1];
      RunTracks(limit, peer, before, from);
      var times, now := TimesOf(peer, before), if before == [] then from else before[|before| - 1].now;
      if e.Attempt? && e.peer == peer {
        AttemptTracks(RatesAfter(limit, before), limit, peer, times, now, e.now);
      } else {
        EventTracks(RatesAfter(limit, before), limit, peer, times, now, e);
        assert times + [] == times;
      }
    }
  }

  /**
   In every run of attempts of all peers and evictions, an attempt is allowed exactly when its place among the
   same peer's attempts of its window is within the limit, and always when there is no limit.
   */
  lemma AllowedIff(limit: int, peer: Key32, events: seq<Event>, from: int, t: int)
    requires Ordered(events + [Attempt(peer, t)], from)
    ensures AllowRate(RatesAfter(limit, events), peer, limit, t).1 <==>
            limit <= 0 || Place(TimesOf(peer, events) + [t]) <= limit
  {
    if limit > 0 {
      var all, n := events + [Attempt(peer, t)], |events|;
      assert forall i :: 0 <= i < n ==> events[i] == all[i];
      assert all[n].now == t;
      RunTracks(limit, peer, events, from);
      AttemptTracks(RatesAfter(limit, events), limit, peer, TimesOf(peer, events),
                    if events == [] then from else events[n - 1].now, t);
    }
  }
}
