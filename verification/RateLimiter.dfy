/** The rolling-window limiter for upstream requests: gap, hourly and daily ceilings. */
module RateLimiter {
  import opened Bytes

  const HOUR := 3_600_000_000_000 // nanoseconds
  const DAY := 24 * HOUR

  datatype Limits = Limits(gap: int, perHour: int, perDay: int)

  /** Drop the leading requests older than a day. */
  function Prune(rs: seq<int>, now: int): seq<int> {
    if rs != [] && rs[0] < now - DAY then Prune(rs[1..], now) else rs
  }

  function InHour(rs: seq<int>, now: int): nat {
    if rs == [] then 0 else (if rs[0] > now - HOUR then 1 else 0) + InHour(rs[1..], now)
  }

  /** How long until the first request inside the window leaves it; 0 when none is inside. */
  function RequestDelay(rs: seq<int>, now: int, window: int): int {
    if rs == [] then 0
    else if rs[0] > now - window && rs[0] + window - now > 0 then rs[0] + window - now
    else RequestDelay(rs[1..], now, window)
  }

  function GapWait(c: Limits, rs: seq<int>, now: int): int {
    if rs == [] then 0 else Max(0, c.gap - (now - rs[|rs| - 1]))
  }

  function HourWait(c: Limits, rs: seq<int>, now: int): int {
    if InHour(rs, now) >= c.perHour then RequestDelay(rs, now, HOUR) else 0
  }

  function DayWait(c: Limits, rs: seq<int>, now: int): int {
    if |rs| >= c.perDay then RequestDelay(rs, now, DAY) else 0
  }

  /** The wait one pass over the pruned requests asks for; 0 is a grant. */
  function WaitTime(c: Limits, rs: seq<int>, now: int): int {
    Max(Max(GapWait(c, rs, now), HourWait(c, rs, now)), DayWait(c, rs, now))
  }

  predicate Granted(c: Limits, rs: seq<int>, now: int) {
    WaitTime(c, Prune(rs, now), now) == 0
  }

  function After(c: Limits, rs: seq<int>, now: int): seq<int> {
    if Granted(c, rs, now) then Prune(rs, now) + [now] else Prune(rs, now)
  }

  /** The grants of a run: each pass of any caller reads the clock under the lock. */
  function Grants(c: Limits, rs: seq<int>, nows: seq<int>): seq<int>
    decreases |nows|
  {
    if nows == [] then []
    else (if Granted(c, rs, nows[0]) then [nows[0]] else []) + Grants(c, After(c, rs, nows[0]), nows[1..])
  }

  ghost predicate Sorted(s: seq<int>) {
    forall i, j :: 0 <= i < j < |s| ==> s[i] <= s[j]
  }

  /** Entries n or more places apart are at least w apart. */
  ghost predicate Spaced(s: seq<int>, n: int, w: int) {
    forall i, j :: 0 <= i <= j < |s| && j - i >= n ==> s[j] - s[i] >= w
  }

  /** How many entries lie in the half-open window (t, t + w]. */
  function CountIn(s: seq<int>, t: int, w: int): nat {
    if s == [] then 0 else (if t < s[0] <= t + w then 1 else 0) + CountIn(s[1..], t, w)
  }

  ghost predicate WindowsHold(s: seq<int>, w: int, n: int) {
    forall t :: CountIn(s, t, w) <= n
  }

  ghost predicate GapsHold(s: seq<int>, gap: int) {
    forall i :: 0 < i < |s| ==> s[i] - s[i - 1] >= gap
  }

  // ----- counting in sorted sequences

  lemma {:induction false} CountNone(s: seq<int>, t: int, w: int)
    requires forall i :: 0 <= i < |s| ==> s[i] > t + w
    ensures CountIn(s, t, w) == 0
  {
    if s != [] {
      CountNone(s[1..], t, w);
    }
  }

  lemma {:induction false} CountPrefix(s: seq<int>, t: int, w: int)
    requires Sorted(s) && s != [] && s[0] > t
    ensures CountIn(s, t, w) <= |s|
    ensures forall k :: 0 <= k < |s| && s[k] <= t + w ==> CountIn(s, t, w) > k
    ensures forall k :: 0 <= k < |s| && s[k] > t + w ==> CountIn(s, t, w) <= k
  {
    if s[0] > t + w {
      CountNone(s, t, w);
    } else if |s| > 1 {
      CountPrefix(s[1..], t, w);
      forall k | 1 <= k < |s|
        ensures s[k] <= t + w ==> CountIn(s, t, w) > k
        ensures s[k] > t + w ==> CountIn(s, t, w) <= k
      {
        assert s[k] == s[1..][k - 1];
      }
    }
  }

  lemma {:induction false} SpacedWindow(s: seq<int>, n: int, w: int, t: int)
    requires Sorted(s) && n >= 1 && Spaced(s, n, w)
    ensures CountIn(s, t, w) <= n
  {
    if s != [] {
      if s[0] <= t {
        SpacedWindow(s[1..], n, w, t);
      } else {
        CountPrefix(s, t, w);
        if n < |s| {
          assert s[n] - s[0] >= w;
        }
      }
    }
  }

  lemma {:induction false} CountAtLeast(s: seq<int>, t: int, w: int, i: nat, j: nat)
    requires Sorted(s) && i <= j < |s| && t < s[i] && s[j] <= t + w
    ensures CountIn(s, t, w) >= j - i + 1
  {
    if i > 0 {
      CountAtLeast(s[1..], t, w, i - 1, j - 1);
    } else {
      CountPrefix(s, t, w);
    }
  }

  /** The index form and the window form of a ceiling say the same. */
  lemma SpacedIffWindows(s: seq<int>, n: int, w: int)
    requires Sorted(s) && n >= 1
    ensures Spaced(s, n, w) <==> WindowsHold(s, w, n)
  {
    if Spaced(s, n, w) {
      forall t
        ensures CountIn(s, t, w) <= n
      {
        SpacedWindow(s, n, w, t);
      }
    } else {
      var i, j :| 0 <= i <= j < |s| && j - i >= n && s[j] - s[i] < w;
      CountAtLeast(s, s[j] - w, w, i, j);
    }
  }

  // ----- what one pass knows

  lemma {:induction false} PruneIs(rs: seq<int>, now: int)
    ensures |Prune(rs, now)| <= |rs| && Prune(rs, now) == rs[|rs| - |Prune(rs, now)|..]
    ensures forall i :: 0 <= i < |rs| - |Prune(rs, now)| ==> rs[i] < now - DAY
    ensures Prune(rs, now) != [] ==> Prune(rs, now)[0] >= now - DAY
  {
    if rs != [] && rs[0] < now - DAY {
      PruneIs(rs[1..], now);
    }
  }

  lemma {:induction false} DelayZeroIff(rs: seq<int>, now: int, w: int)
    requires w > 0
    ensures RequestDelay(rs, now, w) >= 0
    ensures RequestDelay(rs, now, w) == 0 <==> forall i :: 0 <= i < |rs| ==> rs[i] <= now - w
  {
    if rs != [] {
      DelayZeroIff(rs[1..], now, w);
      assert forall i :: 1 <= i < |rs| ==> rs[i] == rs[1..][i - 1];
    }
  }

  lemma {:induction false} InHourAtLeast(rs: seq<int>, now: int, k: nat)
    requires k <= |rs| && forall i :: k <= i < |rs| ==> rs[i] > now - HOUR
    ensures InHour(rs, now) >= |rs| - k
  {
    if rs != [] {
      InHourAtLeast(rs[1..], now, if k > 0 then k - 1 else 0);
    }
  }

  lemma {:induction false} InHourIsWindow(rs: seq<int>, now: int)
    requires forall i :: 0 <= i < |rs| ==> rs[i] <= now
    ensures InHour(rs, now) == CountIn(rs, now - HOUR, HOUR)
  {
    if rs != [] {
      InHourIsWindow(rs[1..], now);
    }
  }

  /** rs is what is remembered of the grants g; everything forgotten is older than a day. */
  ghost predicate Remembers(g: seq<int>, rs: seq<int>, now: int) {
    && |rs| <= |g| && rs == g[|g| - |rs|..]
    && Sorted(g)
    && (forall i :: 0 <= i < |g| - |rs| ==> g[i] < now - DAY)
    && (forall i :: 0 <= i < |g| ==> g[i] <= now)
  }

  ghost predicate Obeys(c: Limits, g: seq<int>) {
    Spaced(g, 1, c.gap) && Spaced(g, c.perHour, HOUR) && Spaced(g, c.perDay, DAY)
  }

  lemma PruneRemembers(g: seq<int>, rs: seq<int>, now: int, now': int)
    requires Remembers(g, rs, now) && now <= now'
    ensures Remembers(g, Prune(rs, now'), now')
  {
    PruneIs(rs, now');
  }

  lemma ExtendSpaced(g: seq<int>, now: int, n: int, w: int)
    requires n >= 1 && Sorted(g) && Spaced(g, n, w)
    requires n <= |g| ==> now - g[|g| - n] >= w
    ensures Spaced(g + [now], n, w)
  {
  }

  /** A pass that asks for no wait found the last perHour grants an hour old. */
  lemma HourClear(c: Limits, g: seq<int>, rs: seq<int>, now: int)
    requires 1 <= c.perHour <= |g| && Remembers(g, rs, now) && HourWait(c, rs, now) == 0
    ensures now - g[|g| - c.perHour] >= HOUR
  {
    var n, m := |g|, |rs|;
    DelayZeroIff(rs, now, HOUR);
    if now - g[n - c.perHour] < HOUR {
      assert n - c.perHour >= n - m;
      forall i | m - c.perHour <= i < m
        ensures rs[i] > now - HOUR
      {
        assert rs[i] == g[n - m + i];
      }
      InHourAtLeast(rs, now, m - c.perHour);
    }
  }

  lemma DayClear(c: Limits, g: seq<int>, rs: seq<int>, now: int)
    requires 1 <= c.perDay <= |g| && Remembers(g, rs, now) && DayWait(c, rs, now) == 0
    ensures now - g[|g| - c.perDay] >= DAY
  {
    var n, m := |g|, |rs|;
    DelayZeroIff(rs, now, DAY);
    assert m >= c.perDay ==> rs[m - c.perDay] == g[n - c.perDay];
  }

  lemma WaitZero(c: Limits, rs: seq<int>, now: int)
    ensures WaitTime(c, rs, now) == 0 <==>
            GapWait(c, rs, now) == 0 && HourWait(c, rs, now) == 0 && DayWait(c, rs, now) == 0
    ensures WaitTime(c, rs, now) >= 0
    ensures WaitTime(c, rs, now) >= HourWait(c, rs, now) && WaitTime(c, rs, now) >= DayWait(c, rs, now)
  {
    DelayZeroIff(rs, now, HOUR);
    DelayZeroIff(rs, now, DAY);
  }

  /** Pruning never hides a grant that matters: a grant obeys all three limits with respect to all grants. */
  lemma GrantObeys(c: Limits, g: seq<int>, rs: seq<int>, now: int)
    requires c.perHour >= 1 && c.perDay >= 1 && c.gap <= DAY + 1
    requires Remembers(g, rs, now) && Obeys(c, g) && WaitTime(c, rs, now) == 0
    ensures Obeys(c, g + [now])
  {
    WaitZero(c, rs, now);
    if g != [] {
      assert rs != [] ==> rs[|rs| - 1] == g[|g| - 1];
      assert now - g[|g| - 1] >= c.gap;
    }
    if c.perHour <= |g| {
      HourClear(c, g, rs, now);
    }
    if c.perDay <= |g| {
      DayClear(c, g, rs, now);
    }
    ExtendSpaced(g, now, 1, c.gap);
    ExtendSpaced(g, now, c.perHour, HOUR);
    ExtendSpaced(g, now, c.perDay, DAY);
  }

  ghost predicate ClockRuns(nows: seq<int>, from: int) {
    Sorted(nows) && forall i :: 0 <= i < |nows| ==> from <= nows[i]
  }

  lemma RememberGrant(g: seq<int>, p: seq<int>, t: int)
    requires Remembers(g, p, t)
    ensures Remembers(g + [t], p + [t], t)
  {
    var g', p' := g + [t], p + [t];
    assert |g'| - |p'| == |g| - |p|;
    assert g'[|g| - |p|..] == g[|g| - |p|..] + [t];
  }

  lemma Regroup(g: seq<int>, t: seq<int>, rest: seq<int>)
    ensures g + (t + rest) == (g + t) + rest
  {
  }

  lemma PassObeys(c: Limits, g: seq<int>, rs: seq<int>, now: int, t: int)
    requires c.perHour >= 1 && c.perDay >= 1 && c.gap <= DAY + 1
    requires Remembers(g, rs, now) && Obeys(c, g) && now <= t
    ensures var g' := if Granted(c, rs, t) then g + [t] else g;
            Remembers(g', After(c, rs, t), t) && Obeys(c, g')
  {
    PruneRemembers(g, rs, now, t);
    var p := Prune(rs, t);
    if Granted(c, rs, t) {
      GrantObeys(c, g, p, t);
      RememberGrant(g, p, t);
    }
  }

  lemma {:induction false} RunObeys(c: Limits, g: seq<int>, rs: seq<int>, nows: seq<int>, now: int)
    requires c.perHour >= 1 && c.perDay >= 1 && c.gap <= DAY + 1
    requires Remembers(g, rs, now) && Obeys(c, g) && ClockRuns(nows, now)
    ensures Obeys(c, g + Grants(c, rs, nows)) && Sorted(g + Grants(c, rs, nows))
    decreases |nows|
  {
    if nows == [] {
      assert g + [] == g;
    } else {
      var t := nows[0];
      PassObeys(c, g, rs, now, t);
      var g' := if Granted(c, rs, t) then g + [t] else g;
      RunObeys(c, g', After(c, rs, t), nows[1..], t);
      var here := if Granted(c, rs, t) then [t] else [];
      Regroup(g, here, Grants(c, After(c, rs, t), nows[1..]));
      assert g + [] == g;
    }
  }

  ghost predicate AllHold(c: Limits, g: seq<int>) {
    GapsHold(g, c.gap) && WindowsHold(g, HOUR, c.perHour) && WindowsHold(g, DAY, c.perDay)
  }

  /** Over any run: the gap between grants, and at most perHour and perDay grants per window. */
  lemma LimitsHold(c: Limits, nows: seq<int>, from: int)
    requires c.perHour >= 1 && c.perDay >= 1 && c.gap <= DAY + 1 && ClockRuns(nows, from)
    ensures AllHold(c, Grants(c, [], nows))
  {
    RunObeys(c, [], [], nows, from);
    var g := Grants(c, [], nows);
    assert [] + g == g;
    SpacedIffWindows(g, c.perHour, HOUR);
    SpacedIffWindows(g, c.perDay, DAY);
    forall i | 0 < i < |g|
      ensures g[i] - g[i - 1] >= c.gap
    {
      assert i - (i - 1) >= 1;
    }
  }

  /** Outside those settings some run breaks a limit: the first grant is free, and a day forgets it. */
  lemma LimitsBreak(c: Limits)
    requires c.perHour < 1 || c.perDay < 1 || c.gap > DAY + 1
    ensures ClockRuns([0, DAY + 1], 0) && !AllHold(c, Grants(c, [], [0, DAY + 1]))
  {
    var nows := [0, DAY + 1];
    assert nows[1..] == [DAY + 1] && [DAY + 1][1..] == [];
    assert Prune([0], DAY + 1) == Prune([], DAY + 1) == [];
    assert After(c, [], 0) == [0] && Granted(c, [0], DAY + 1);
    var later := Grants(c, [0], [DAY + 1]);
    assert later == [DAY + 1] + Grants(c, After(c, [0], DAY + 1), []);
    var g := Grants(c, [], nows);
    assert g == [0] + later == [0, DAY + 1];
    if c.perHour < 1 {
      assert CountIn(g, -1, HOUR) >= 1;
    } else if c.perDay < 1 {
      assert CountIn(g, -1, DAY) >= 1;
    }
  }

  /** The limiter keeps its three promises in every run exactly for these settings. */
  lemma LimitsHoldIff(c: Limits)
    ensures (forall nows, from :: ClockRuns(nows, from) ==> AllHold(c, Grants(c, [], nows))) <==>
            c.perHour >= 1 && c.perDay >= 1 && c.gap <= DAY + 1
  {
    if c.perHour >= 1 && c.perDay >= 1 && c.gap <= DAY + 1 {
      forall nows, from | ClockRuns(nows, from)
        ensures AllHold(c, Grants(c, [], nows))
      {
        LimitsHold(c, nows, from);
      }
    } else {
      LimitsBreak(c);
    }
  }

  // ----- one caller sleeps at most twice

  predicate Usable(c: Limits) {
    c.perHour >= 1 && c.perDay >= 1
  }

  /** The limits the program really applies: no ceiling below one. */
  function Effective(c: Limits): (e: Limits)
    ensures Usable(e)
  {
    c.(perHour := Max(1, c.perHour), perDay := Max(1, c.perDay))
  }

  /** A ceiling of zero or less makes callers wait exactly as a ceiling of one does. */
  lemma CeilingBelowOneIsOne(c: Limits, rs: seq<int>, now: int)
    ensures WaitTime(c, rs, now) == WaitTime(Effective(c), rs, now)
  {
    if InHour(rs, now) == 0 {
      NoneInHour(rs, now);
    }
  }

  lemma {:induction false} NoneInHour(rs: seq<int>, now: int)
    requires InHour(rs, now) == 0
    ensures RequestDelay(rs, now, HOUR) == 0
  {
    if rs != [] {
      NoneInHour(rs[1..], now);
    }
  }

  /** What holds of the remembered requests in every reachable state. */
  ghost predicate Orderly(c: Limits, rs: seq<int>, now: int) {
    && Sorted(rs)
    && (forall i :: 0 <= i < |rs| ==> rs[i] <= now)
    && Spaced(rs, c.perHour, HOUR)
    && Spaced(rs, c.perDay, DAY)
  }

  lemma PruneOrderly(c: Limits, rs: seq<int>, now: int, t: int)
    requires Orderly(c, rs, now) && now <= t
    ensures Orderly(c, Prune(rs, t), t)
  {
    PruneIs(rs, t);
  }

  lemma GrantOrderly(c: Limits, p: seq<int>, now: int)
    requires Usable(c) && Orderly(c, p, now) && WaitTime(c, p, now) == 0
    ensures Orderly(c, p + [now], now)
  {
    WaitZero(c, p, now);
    if c.perHour <= |p| {
      HourClear(c, p, p, now);
    }
    if c.perDay <= |p| {
      DayClear(c, p, p, now);
    }
    ExtendSpaced(p, now, c.perHour, HOUR);
    ExtendSpaced(p, now, c.perDay, DAY);
    ExtendSorted(p, now);
  }

  lemma ExtendSorted(p: seq<int>, now: int)
    requires Sorted(p) && forall i :: 0 <= i < |p| ==> p[i] <= now
    ensures Sorted(p + [now]) && forall i :: 0 <= i < |p + [now]| ==> (p + [now])[i] <= now
  {
  }

  lemma {:induction false} DelayIs(p: seq<int>, now: int, w: int, k: nat)
    requires Sorted(p) && k < |p| && p[k] > now - w && (k > 0 ==> p[k - 1] <= now - w)
    ensures RequestDelay(p, now, w) == p[k] + w - now
  {
    if k > 0 {
      assert p[0] <= p[k - 1];
      DelayIs(p[1..], now, w, k - 1);
    }
  }

  /** Fewer than n requests in the last hour: the n-th from the end is an hour old. */
  predicate HourFree(p: seq<int>, now: int, n: int) {
    n >= 1 && (|p| < n || p[|p| - n] <= now - HOUR)
  }

  lemma {:induction false} HourFreeIff(p: seq<int>, now: int, n: int)
    requires Sorted(p) && n >= 1
    ensures InHour(p, now) < n <==> HourFree(p, now, n)
    ensures InHour(p, now) <= |p|
  {
    if p != [] {
      HourFreeIff(p[1..], now, n);
      if |p| == n && p[0] > now - HOUR {
        InHourAtLeast(p, now, 0);
      }
    }
  }

  lemma HourFreeStays(p: seq<int>, now: int, t: int, n: int)
    requires HourFree(p, now, n) && now <= t
    ensures HourFree(Prune(p, t), t, n)
  {
    PruneIs(p, t);
  }

  lemma HourFreeAfterSleep(c: Limits, p: seq<int>, now: int, t: int)
    requires Usable(c) && Orderly(c, p, now) && t >= now + WaitTime(c, p, now)
    ensures HourFree(Prune(p, t), t, c.perHour)
  {
    var n := c.perHour;
    WaitZero(c, p, now);
    HourFreeIff(p, now, n);
    if HourFree(p, now, n) {
      HourFreeStays(p, now, t, n);
    } else {
      var k := |p| - n;
      if k > 0 {
        assert p[|p| - 1] - p[k - 1] >= HOUR;
      }
      DelayIs(p, now, HOUR, k);
      PruneIs(p, t);
    }
  }

  lemma GapAfterSleep(c: Limits, p: seq<int>, now: int, t: int)
    requires t >= now + WaitTime(c, p, now)
    ensures GapWait(c, Prune(p, t), t) == 0
  {
    PruneIs(p, t);
    var q := Prune(p, t);
    assert q != [] ==> q[|q| - 1] == p[|p| - 1];
  }

  /** A day wait is over, or one request is exactly a day old: kept by pruning, skipped by the delay. */
  predicate DayNearlyFree(p: seq<int>, now: int, n: int) {
    |p| < n || (|p| == n && n >= 1 && p[0] == now - DAY)
  }

  lemma DayAfterSleep(c: Limits, rs: seq<int>, now: int, t: int)
    requires Usable(c) && Orderly(c, Prune(rs, now), now)
    requires WaitTime(c, Prune(rs, now), now) > 0 && t >= now + WaitTime(c, Prune(rs, now), now)
    ensures DayNearlyFree(Prune(Prune(rs, now), t), t, c.perDay)
  {
    var p, n := Prune(rs, now), c.perDay;
    WaitZero(c, p, now);
    PruneIs(rs, now);
    PruneIs(p, t);
    if |p| >= n {
      var k := |p| - n;
      if p[k] > now - DAY {
        if k > 0 {
          assert p[|p| - 1] - p[k - 1] >= DAY;
        }
        DelayIs(p, now, DAY, k);
      }
    }
  }

  lemma DayAfterSecondSleep(p: seq<int>, now: int, t: int, n: int)
    requires DayNearlyFree(p, now, n) && now < t
    ensures |Prune(p, t)| < n
  {
    PruneIs(p, t);
  }

  lemma ThirdPassGrantsUsable(c: Limits, rs: seq<int>, t0: int, t1: int, t2: int)
    requires Usable(c) && Orderly(c, rs, t0)
    requires var p0 := Prune(rs, t0);
             var p1 := Prune(p0, t1);
             && WaitTime(c, p0, t0) > 0 && t1 >= t0 + WaitTime(c, p0, t0)
             && WaitTime(c, p1, t1) > 0 && t2 >= t1 + WaitTime(c, p1, t1)
    ensures Granted(c, Prune(Prune(rs, t0), t1), t2)
  {
    var p0 := Prune(rs, t0);
    var p1 := Prune(p0, t1);
    var p2 := Prune(p1, t2);
    PruneOrderly(c, rs, t0, t0);
    PruneOrderly(c, p0, t0, t1);
    PruneOrderly(c, p1, t1, t2);
    HourFreeAfterSleep(c, p0, t0, t1);
    HourFreeStays(p1, t1, t2, c.perHour);
    HourFreeIff(p2, t2, c.perHour);
    GapAfterSleep(c, p1, t1, t2);
    DayAfterSleep(c, rs, t0, t1);
    DayAfterSecondSleep(p1, t1, t2, c.perDay);
    WaitZero(c, p2, t2);
  }

  // ----- the wait is the least that meets the limits

  /** The last request is the gap old, and the hour and the day up to t have room for one more. */
  predicate Met(c: Limits, p: seq<int>, t: int) {
    && (p == [] || t - p[|p| - 1] >= c.gap)
    && CountIn(p, t - 3_600_000_000_000, 3_600_000_000_000) < c.perHour
    && CountIn(p, t - 86_400_000_000_000, 86_400_000_000_000) < c.perDay
  }

  /**
   The exception: a request exactly a day old still counts against the day until the first of the
   younger ones is a day old too.
   */
  predicate DayOldBlocks(c: Limits, p: seq<int>, now: int, d: int) {
    && |p| >= c.perDay && p != [] && p[0] == now - DAY
    && (exists i :: 0 <= i < |p| && p[i] > now - DAY)
    && (forall i :: 0 <= i < |p| && p[i] > now - DAY ==> p[i] > now + d - DAY)
  }

  /** k is where the requests inside the window begin. */
  ghost predicate InsideFrom(p: seq<int>, now: int, w: int, k: nat) {
    k <= |p| && (forall i :: 0 <= i < k ==> p[i] <= now - w) && (forall i :: k <= i < |p| ==> now - w < p[i] <= now)
  }

  lemma {:induction false} InsideCount(p: seq<int>, now: int, w: int, k: nat)
    requires InsideFrom(p, now, w, k)
    ensures CountIn(p, now - w, w) == |p| - k
  {
    if p != [] {
      InsideCount(p[1..], now, w, if k > 0 then k - 1 else 0);
    }
  }

  lemma InsideExists(p: seq<int>, now: int, w: int, from: nat) returns (k: nat)
    requires Sorted(p) && from <= |p| && forall i :: 0 <= i < |p| ==> p[i] <= now
    requires forall i :: 0 <= i < from ==> p[i] <= now - w
    ensures from <= k && InsideFrom(p, now, w, k)
  {
    k := from;
    while k < |p| && p[k] <= now - w
      invariant from <= k <= |p| && forall i :: 0 <= i < k ==> p[i] <= now - w
    {
      k := k + 1;
    }
  }

  lemma {:induction false} NoneInside(p: seq<int>, now: int, w: int)
    requires InsideFrom(p, now, w, |p|)
    ensures RequestDelay(p, now, w) == 0
  {
    if p != [] {
      NoneInside(p[1..], now, w);
    }
  }

  /** d later the first of them is out exactly when it is w old, and then one less is inside. */
  lemma InsideLater(p: seq<int>, now: int, w: int, k: nat, d: int)
    requires Sorted(p) && w > 0 && d >= 0 && InsideFrom(p, now, w, k)
    ensures k < |p| && p[k] > now + d - w ==> CountIn(p, now + d - w, w) == |p| - k
    ensures k < |p| && p[k] <= now + d - w ==> CountIn(p, now + d - w, w) < |p| - k
    ensures k == |p| ==> CountIn(p, now + d - w, w) == 0
  {
    var j := InsideExists(p, now + d, w, k);
    InsideCount(p, now + d, w, j);
  }

  /** A window of n has room d later exactly when d is at least the delay the program computes. */
  lemma WindowWait(p: seq<int>, now: int, w: int, n: int, d: int)
    requires Sorted(p) && (forall i :: 0 <= i < |p| ==> p[i] <= now) && n >= 1 && w > 0 && d >= 0 && Spaced(p, n, w)
    ensures CountIn(p, now + d - w, w) < n <==>
            d >= if CountIn(p, now - w, w) >= n then RequestDelay(p, now, w) else 0
  {
    var k := InsideExists(p, now, w, 0);
    InsideCount(p, now, w, k);
    InsideLater(p, now, w, k, d);
    SpacedWindow(p, n, w, now - w);
    if k < |p| {
      DelayIs(p, now, w, k);
    }
  }

  lemma DayWaitIs(c: Limits, p: seq<int>, now: int, d: int)
    requires Usable(c) && Orderly(c, p, now) && d >= 0 && forall i :: 0 <= i < |p| ==> p[i] >= now - DAY
    ensures d >= DayWait(c, p, now) <==> CountIn(p, now + d - DAY, DAY) < c.perDay && !DayOldBlocks(c, p, now, d)
  {
    var k := InsideExists(p, now, DAY, 0);
    InsideCount(p, now, DAY, k);
    InsideLater(p, now, DAY, k, d);
    SpacedWindow(p, c.perDay, DAY, now - DAY);
    if k < |p| {
      DelayIs(p, now, DAY, k);
      assert forall i :: k <= i < |p| ==> p[k] <= p[i];
    } else {
      NoneInside(p, now, DAY);
    }
  }

  /** The wait is the least d after which the limits are met; a request exactly a day old is the one exception. */
  lemma WaitIsLeast(c: Limits, p: seq<int>, now: int, d: int)
    requires Orderly(Effective(c), p, now) && d >= 0 && forall i :: 0 <= i < |p| ==> p[i] >= now - DAY
    ensures d >= WaitTime(c, p, now) <==> Met(Effective(c), p, now + d) && !DayOldBlocks(Effective(c), p, now, d)
  {
    var e := Effective(c);
    CeilingBelowOneIsOne(c, p, now);
    InHourIsWindow(p, now);
    WindowWait(p, now, HOUR, e.perHour, d);
    DayWaitIs(e, p, now, d);
  }

  /** With one caller and sleeps that last at least as long as asked, the third pass grants, whatever the limits. */
  lemma ThirdPassGrants(c: Limits, rs: seq<int>, t0: int, t1: int, t2: int)
    requires Orderly(Effective(c), rs, t0)
    requires var p0 := Prune(rs, t0);
             var p1 := Prune(p0, t1);
             && WaitTime(c, p0, t0) > 0 && t1 >= t0 + WaitTime(c, p0, t0)
             && WaitTime(c, p1, t1) > 0 && t2 >= t1 + WaitTime(c, p1, t1)
    ensures Granted(c, Prune(Prune(rs, t0), t1), t2)
  {
    var p0 := Prune(rs, t0);
    var p1 := Prune(p0, t1);
    CeilingBelowOneIsOne(c, p0, t0);
    CeilingBelowOneIsOne(c, p1, t1);
    CeilingBelowOneIsOne(c, Prune(p1, t2), t2);
    ThirdPassGrantsUsable(Effective(c), rs, t0, t1, t2);
  }

  /**
   After one full sleep the second pass still waits exactly when the remembered requests fill the
   day, the oldest is exactly a day old (kept by pruning, skipped by the delay) and the newest is younger.
   */
  lemma SecondSleepIff(c: Limits, rs: seq<int>, t0: int, t1: int)
    requires Orderly(Effective(c), rs, t0)
    requires WaitTime(c, Prune(rs, t0), t0) > 0 && t1 >= t0 + WaitTime(c, Prune(rs, t0), t0)
    ensures var p, n := Prune(Prune(rs, t0), t1), Effective(c).perDay;
            !Granted(c, Prune(rs, t0), t1) <==> |p| == n && p[0] == t1 - DAY < p[n - 1]
  {
    CeilingBelowOneIsOne(c, Prune(rs, t0), t0);
    CeilingBelowOneIsOne(c, Prune(Prune(rs, t0), t1), t1);
    SecondSleepUsable(Effective(c), rs, t0, t1);
  }

  lemma SecondSleepUsable(c: Limits, rs: seq<int>, t0: int, t1: int)
    requires Usable(c) && Orderly(c, rs, t0)
    requires WaitTime(c, Prune(rs, t0), t0) > 0 && t1 >= t0 + WaitTime(c, Prune(rs, t0), t0)
    ensures var p := Prune(Prune(rs, t0), t1);
            !Granted(c, Prune(rs, t0), t1) <==> |p| == c.perDay && p[0] == t1 - DAY < p[c.perDay - 1]
  {
    var p0 := Prune(rs, t0);
    PruneOrderly(c, rs, t0, t0);
    PruneOrderly(c, p0, t0, t1);
    OnlyDayLeft(c, p0, t0, t1);
    DayAfterSleep(c, rs, t0, t1);
    NearlyFreeWaits(c, Prune(p0, t1), t1);
  }

  /** After a full sleep neither the gap nor the hour asks for more. */
  lemma OnlyDayLeft(c: Limits, p: seq<int>, now: int, t: int)
    requires Usable(c) && Orderly(c, p, now) && now <= t && t >= now + WaitTime(c, p, now)
    ensures WaitTime(c, Prune(p, t), t) == DayWait(c, Prune(p, t), t)
  {
    PruneOrderly(c, p, now, t);
    HourFreeAfterSleep(c, p, now, t);
    HourFreeIff(Prune(p, t), t, c.perHour);
    GapAfterSleep(c, p, now, t);
    WaitZero(c, Prune(p, t), t);
  }

  lemma NearlyFreeWaits(c: Limits, p: seq<int>, now: int)
    requires Usable(c) && Sorted(p) && DayNearlyFree(p, now, c.perDay)
    ensures DayWait(c, p, now) != 0 <==> |p| == c.perDay && p[0] == now - DAY < p[c.perDay - 1]
    ensures DayWait(c, p, now) >= 0
  {
    DelayZeroIff(p, now, DAY);
  }

  /** The second sleep can be needed: a request a day old is kept, and the next one is waited for. */
  lemma TwoSleepsNeeded()
    ensures var c := Limits(1, 60, 2);
            var rs := [0, 10 * HOUR];
            var t0 := 12 * HOUR;
            var t1 := t0 + WaitTime(c, Prune(rs, t0), t0);
            Orderly(Effective(c), rs, t0) && !Granted(c, rs, t0) && !Granted(c, Prune(rs, t0), t1)
  {
    var c, rs := Limits(1, 60, 2), [0, 10 * HOUR];
    assert Prune(rs, 12 * HOUR) == rs && Prune(rs, DAY) == rs;
    DelayIs(rs, 12 * HOUR, DAY, 0);
    HourFreeIff(rs, 12 * HOUR, 60);
    SecondSleepIff(c, rs, 12 * HOUR, DAY);
  }

  ghost predicate Suffix(p: seq<int>, rs: seq<int>) {
    |p| <= |rs| && p == rs[|rs| - |p|..]
  }

  lemma SuffixPrune(p: seq<int>, rs: seq<int>, now: int)
    requires Suffix(p, rs)
    ensures Suffix(Prune(p, now), rs)
  {
    PruneIs(p, now);
  }

  /** The limiter as the program keeps it, with the clock it is given. */
  class Limiter {
    const limits: Limits
    var requests: seq<int>
    var clock: int

    constructor (limits: Limits, clock: int)
      ensures this.limits == limits && this.clock == clock && requests == []
      ensures Orderly(Effective(limits), requests, clock)
    {
      this.limits, this.clock, requests := limits, clock, [];
    }

    /** Reading the clock: it does not go back. */
    method Now() returns (now: int)
      modifies this`clock
      ensures now == clock >= old(clock)
    {
      var passed: nat :| true;
      clock := clock + passed;
      now := clock;
    }

    /** Sleeping takes at least as long as asked, unless it is cut short by cancellation. */
    method Sleep(d: int) returns (ok: bool)
      requires d > 0
      modifies this`clock
      ensures clock >= old(clock) && (ok ==> clock >= old(clock) + d)
    {
      ok := *;
      var more: nat :| true;
      clock := clock + more + if ok then d else 0;
    }

    method PruneRequests(now: int)
      modifies this`requests
      ensures requests == Prune(old(requests), now)
    {
      var i := 0;
      while i < |requests| && requests[i] < now - DAY
        modifies {}
        invariant 0 <= i <= |requests|
        invariant Prune(requests[i..], now) == Prune(requests, now)
      {
        assert requests[i..][1..] == requests[i + 1..];
        i := i + 1;
      }
      requests := requests[i..];
    }

    method Delay(now: int, window: int) returns (d: int)
      ensures d == RequestDelay(requests, now, window)
    {
      for i := 0 to |requests|
        invariant RequestDelay(requests[i..], now, window) == RequestDelay(requests, now, window)
      {
        assert requests[i..][1..] == requests[i + 1..];
        if requests[i] > now - window {
          d := requests[i] + window - now;
          if d > 0 {
            return;
          }
        }
      }
      d := 0;
    }

    method CountHour(now: int) returns (n: nat)
      ensures n == InHour(requests, now)
      ensures (forall i :: 0 <= i < |requests| ==> requests[i] <= now) ==> n == CountIn(requests, now - HOUR, HOUR)
    {
      if forall i :: 0 <= i < |requests| ==> requests[i] <= now {
        InHourIsWindow(requests, now);
      }
      n := 0;
      for i := 0 to |requests|
        invariant n + InHour(requests[i..], now) == InHour(requests, now)
      {
        assert requests[i..][1..] == requests[i + 1..];
        if requests[i] > now - HOUR {
          n := n + 1;
        }
      }
    }

    method RequiredWait(now: int) returns (wait: int)
      ensures wait == WaitTime(limits, requests, now)
    {
      wait := 0;
      if |requests| > 0 {
        wait := limits.gap - (now - requests[|requests| - 1]);
        if wait < 0 {
          wait := 0;
        }
      }
      var hourCount := CountHour(now);
      if hourCount >= limits.perHour {
        var d := Delay(now, HOUR);
        if d > wait {
          wait := d;
        }
      }
      if |requests| >= limits.perDay {
        var d := Delay(now, DAY);
        if d > wait {
          wait := d;
        }
      }
      DelayZeroIff(requests, now, HOUR);
      DelayZeroIff(requests, now, DAY);
    }

    /** One pass under the lock: prune, measure, and record a grant when nothing is to wait for. */
    method Pass() returns (wait: int)
      modifies this`requests, this`clock
      ensures clock >= old(clock)
      ensures wait == WaitTime(limits, Prune(old(requests), clock), clock) >= 0
      ensures requests == After(limits, old(requests), clock)
    {
      var now := Now();
      PruneRequests(now);
      wait := RequiredWait(now);
      WaitZero(limits, requests, now);
      if wait == 0 {
        requests := requests + [now];
      }
    }

    /** Wait for a grant, with this as the only caller; a cancelled sleep ends it without one. */
    method Wait() returns (ok: bool, sleeps: nat)
      requires Orderly(Effective(limits), requests, clock)
      modifies this`requests, this`clock
      ensures sleeps <= 2 && clock >= old(clock) && Orderly(Effective(limits), requests, clock)
      ensures ok ==> requests != [] &&
                     var pruned := requests[..|requests| - 1];
                     Suffix(pruned, old(requests)) && requests == pruned + [clock] &&
                     WaitTime(limits, pruned, clock) == 0
      ensures !ok ==> Suffix(requests, old(requests))
    {
      ok, sleeps := false, 0;
      ghost var c := Effective(limits);
      ghost var rs0, t0, t1 := requests, clock, clock;
      while true
        invariant clock >= old(clock) && Orderly(c, requests, clock) && sleeps <= 2
        invariant Suffix(requests, old(requests))
        invariant sleeps == 1 ==>
          && Orderly(c, rs0, t0) && requests == Prune(rs0, t0)
          && WaitTime(c, requests, t0) > 0 && clock >= t0 + WaitTime(c, requests, t0)
        invariant sleeps == 2 ==>
          && Orderly(c, rs0, t0) && requests == Prune(Prune(rs0, t0), t1)
          && WaitTime(c, Prune(rs0, t0), t0) > 0 && t1 >= t0 + WaitTime(c, Prune(rs0, t0), t0)
          && WaitTime(c, requests, t1) > 0 && clock >= t1 + WaitTime(c, requests, t1)
        decreases 2 - sleeps
      {
        ghost var before := requests;
        ghost var was := clock;
        var wait := Pass();
        ghost var pruned := Prune(before, clock);
        CeilingBelowOneIsOne(limits, pruned, clock);
        PruneOrderly(c, before, was, clock);
        SuffixPrune(before, old(requests), clock);
        if wait == 0 {
          GrantOrderly(c, pruned, clock);
          assert requests[..|requests| - 1] == pruned;
          return true, sleeps;
        }
        if sleeps == 0 {
          rs0, t0 := before, clock;
        } else if sleeps == 1 {
          t1 := clock;
        } else {
          ThirdPassGrantsUsable(c, rs0, t0, t1, clock);
          assert false;
        }
        ghost var woke := clock;
        ok := Sleep(wait);
        if !ok {
          return;
        }
        sleeps := sleeps + 1;
      }
    }
  }
}
