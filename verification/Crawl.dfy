/** Batched discovery of subforums: a worklist kept across calls, with a cap. */
module Crawl {
  import opened Bytes

  datatype Url = Url(text: string)

  ghost predicate IsPath(seeds: seq<Url>, children: Url -> seq<Url>, p: seq<Url>) {
    p != [] && p[0] in seeds && forall i :: 0 <= i < |p| - 1 ==> p[i + 1] in children(p[i])
  }

  ghost predicate Reachable(seeds: seq<Url>, children: Url -> seq<Url>, u: Url) {
    exists p :: IsPath(seeds, children, p) && p[|p| - 1] == u
  }

  lemma SeedReachable(seeds: seq<Url>, children: Url -> seq<Url>, u: Url)
    requires u in seeds
    ensures Reachable(seeds, children, u)
  {
    assert IsPath(seeds, children, [u]);
  }

  lemma ChildReachable(seeds: seq<Url>, children: Url -> seq<Url>, u: Url, v: Url)
    requires Reachable(seeds, children, u) && v in children(u)
    ensures Reachable(seeds, children, v)
  {
    var p :| IsPath(seeds, children, p) && p[|p| - 1] == u;
    var q := p + [v];
    forall i | 0 <= i < |q| - 1
      ensures q[i + 1] in children(q[i])
    {
      if i < |p| - 1 {
        assert q[i] == p[i] && q[i + 1] == p[i + 1];
      }
    }
    assert IsPath(seeds, children, q);
  }

  ghost predicate Closed(children: Url -> seq<Url>, s: set<Url>) {
    forall u, v :: u in s && v in children(u) ==> v in s
  }

  /** A set that holds the seeds and is closed under children holds everything reachable. */
  lemma {:induction false} ClosedHoldsPath(seeds: seq<Url>, children: Url -> seq<Url>, s: set<Url>, p: seq<Url>)
    requires Closed(children, s) && (forall u :: u in seeds ==> u in s) && IsPath(seeds, children, p)
    ensures p[|p| - 1] in s
    decreases |p|
  {
    if |p| > 1 {
      var q := p[..|p| - 1];
      ClosedHoldsPath(seeds, children, s, q);
      assert p[|p| - 2 + 1] in children(p[|p| - 2]);
    }
  }

  lemma ClosedIsReachable(seeds: seq<Url>, children: Url -> seq<Url>, s: set<Url>)
    requires Closed(children, s) && (forall u :: u in seeds ==> u in s)
    requires forall u :: u in s ==> Reachable(seeds, children, u)
    ensures forall u :: u in s <==> Reachable(seeds, children, u)
  {
    forall u | Reachable(seeds, children, u)
      ensures u in s
    {
      var p :| IsPath(seeds, children, p) && p[|p| - 1] == u;
      ClosedHoldsPath(seeds, children, s, p);
    }
  }

  /** Everything waiting in the queue. */
  function Waiting(queue: seq<Url>): set<Url> {
    set u | u in queue
  }

  // capped: whether the cap ever cut a listing short.
  datatype Front = Front(known: set<Url>, queue: seq<Url>, capped: bool)

  /** Take in listed children until the cap is reached. */
  function Discover(f: Front, kids: seq<Url>, max: int): Front
    decreases |kids|
  {
    if kids == [] then f
    else if |f.known| >= max && max > 0 then f.(capped := true)
    else if kids[0] in f.known then Discover(f, kids[1..], max)
    else Discover(Front(f.known + {kids[0]}, f.queue + [kids[0]], f.capped), kids[1..], max)
  }

  lemma WaitingAppend(queue: seq<Url>, u: Url)
    ensures Waiting(queue + [u]) == Waiting(queue) + {u}
    ensures Waiting([u] + queue) == Waiting(queue) + {u}
  {
  }

  lemma {:induction false} DiscoverAdds(f: Front, kids: seq<Url>, max: int)
    ensures var r := Discover(f, kids, max);
            && f.known <= r.known
            && (forall u :: u in r.known ==> u in f.known || u in kids)
            && (forall u :: u in r.queue <==> u in f.queue || (u in r.known && u !in f.known))
            && (f.capped ==> r.capped)
            && (!r.capped ==> forall u :: u in kids ==> u in r.known)
            && (max > 0 ==> |r.known| <= Max(max, |f.known|))
    decreases |kids|
  {
    if kids != [] && !(|f.known| >= max && max > 0) {
      var v := kids[0];
      if v in f.known {
        DiscoverAdds(f, kids[1..], max);
      } else {
        var g := Front(f.known + {v}, f.queue + [v], f.capped);
        DiscoverAdds(g, kids[1..], max);
      }
    }
  }

  /** Only a set that has reached the cap cuts a listing short. */
  lemma {:induction false} CappedIsFull(f: Front, kids: seq<Url>, max: int)
    requires f.capped ==> max > 0 && |f.known| >= max
    ensures var r := Discover(f, kids, max); r.capped ==> max > 0 && |r.known| >= max
    decreases |kids|
  {
    if kids != [] && !(|f.known| >= max && max > 0) {
      var v := kids[0];
      CappedIsFull(if v in f.known then f else Front(f.known + {v}, f.queue + [v], f.capped), kids[1..], max);
    }
  }

  // expanded: forums all of whose children were taken in. lost: those whose fetch failed; both of this pass.
  datatype Progress = Progress(front: Front, expanded: set<Url>, lost: set<Url>)

  ghost predicate Sound(seeds: seq<Url>, children: Url -> seq<Url>, max: int, f: Front) {
    && (forall u :: u in f.known ==> Reachable(seeds, children, u))
    && (forall u :: u in f.queue ==> u in f.known)
    && (forall u :: u in seeds ==> u in f.known)
    && (max > 0 ==> |f.known| <= Max(max, |seeds|))
    && (f.capped ==> max > 0 && |f.known| >= max)
  }

  /** Nothing else is missed so far: what is known is waiting, expanded or lost, and expansions are complete. */
  ghost predicate Complete(children: Url -> seq<Url>, p: Progress) {
    && (forall u :: u in p.front.known ==> u in p.expanded || u in p.front.queue || u in p.lost)
    && (forall u, v :: u in p.expanded && v in children(u) ==> v in p.front.known)
  }

  ghost predicate Ok(seeds: seq<Url>, children: Url -> seq<Url>, max: int, p: Progress) {
    Sound(seeds, children, max, p.front) && (!p.front.capped ==> Complete(children, p))
  }

  /** Expand the head of the queue. */
  function Expand(children: Url -> seq<Url>, max: int, p: Progress): Progress
    requires p.front.queue != []
  {
    var u := p.front.queue[0];
    Progress(Discover(p.front.(queue := p.front.queue[1..]), children(u), max), p.expanded + {u}, p.lost)
  }

  /** A failed fetch drops the head of the queue. */
  function Lose(p: Progress): Progress
    requires p.front.queue != []
  {
    p.(front := p.front.(queue := p.front.queue[1..]), lost := p.lost + {p.front.queue[0]})
  }

  lemma LoseKeeps(seeds: seq<Url>, children: Url -> seq<Url>, max: int, p: Progress)
    requires Ok(seeds, children, max, p) && p.front.queue != []
    ensures Ok(seeds, children, max, Lose(p))
  {
  }

  lemma ExpandSound(seeds: seq<Url>, children: Url -> seq<Url>, max: int, p: Progress)
    requires Sound(seeds, children, max, p.front) && p.front.queue != []
    ensures Sound(seeds, children, max, Expand(children, max, p).front)
  {
    var u, rest := p.front.queue[0], p.front.queue[1..];
    assert p.front.queue == [u] + rest;
    var f, r := p.front.(queue := rest), Expand(children, max, p).front;
    DiscoverAdds(f, children(u), max);
    CappedIsFull(f, children(u), max);
    forall v | v in r.known
      ensures Reachable(seeds, children, v)
    {
      if v !in f.known {
        ChildReachable(seeds, children, u, v);
      }
    }
  }

  lemma ExpandComplete(children: Url -> seq<Url>, max: int, p: Progress)
    requires Complete(children, p) && p.front.queue != [] && !Expand(children, max, p).front.capped
    ensures Complete(children, Expand(children, max, p))
  {
    var u, rest := p.front.queue[0], p.front.queue[1..];
    assert p.front.queue == [u] + rest;
    DiscoverAdds(p.front.(queue := rest), children(u), max);
  }

  lemma ExpandKeeps(seeds: seq<Url>, children: Url -> seq<Url>, max: int, p: Progress)
    requires Ok(seeds, children, max, p) && p.front.queue != []
    ensures Ok(seeds, children, max, Expand(children, max, p))
    ensures p.front.known <= Expand(children, max, p).front.known
    ensures p.front.capped ==> Expand(children, max, p).front.capped
  {
    DiscoverAdds(p.front.(queue := p.front.queue[1..]), children(p.front.queue[0]), max);
    ExpandSound(seeds, children, max, p);
    if !Expand(children, max, p).front.capped {
      ExpandComplete(children, max, p);
    }
  }

  /** A queue that runs dry with nothing cut short and nothing failed leaves exactly the reachable forums known. */
  lemma DrainedIsReachable(seeds: seq<Url>, children: Url -> seq<Url>, max: int, p: Progress)
    requires Ok(seeds, children, max, p) && p.front.queue == [] && !p.front.capped && p.lost == {}
    ensures forall u :: u in p.front.known <==> Reachable(seeds, children, u)
  {
    ClosedIsReachable(seeds, children, p.front.known);
  }

  /** Reachable without passing through one of the lost forums. */
  ghost predicate ReachableBeside(seeds: seq<Url>, children: Url -> seq<Url>, lost: set<Url>, u: Url) {
    exists p :: IsPath(seeds, children, p) && p[|p| - 1] == u && forall i :: 0 <= i < |p| - 1 ==> p[i] !in lost
  }

  lemma {:induction false} ClosedBesideHoldsPath(seeds: seq<Url>, children: Url -> seq<Url>, lost: set<Url>,
                                                 s: set<Url>, p: seq<Url>)
    requires forall u, v :: u in s && u !in lost && v in children(u) ==> v in s
    requires (forall u :: u in seeds ==> u in s) && IsPath(seeds, children, p)
    requires forall i :: 0 <= i < |p| - 1 ==> p[i] !in lost
    ensures p[|p| - 1] in s
    decreases |p|
  {
    if |p| > 1 {
      ClosedBesideHoldsPath(seeds, children, lost, s, p[..|p| - 1]);
      assert p[|p| - 2 + 1] in children(p[|p| - 2]);
    }
  }

  /** A failed fetch costs no more than what lies behind it: all else that is reachable is known. */
  lemma DrainedMissesBehindLost(seeds: seq<Url>, children: Url -> seq<Url>, max: int, p: Progress)
    requires Ok(seeds, children, max, p) && p.front.queue == [] && !p.front.capped
    ensures forall u :: ReachableBeside(seeds, children, p.lost, u) ==> u in p.front.known
  {
    forall u | ReachableBeside(seeds, children, p.lost, u)
      ensures u in p.front.known
    {
      var path :| IsPath(seeds, children, path) && path[|path| - 1] == u &&
                  forall i :: 0 <= i < |path| - 1 ==> path[i] !in p.lost;
      ClosedBesideHoldsPath(seeds, children, p.lost, p.front.known, path);
    }
  }

  lemma {:induction false} WaitingSize(queue: seq<Url>)
    ensures |Waiting(queue)| <= |queue|
  {
    if queue != [] {
      var front, u := queue[..|queue| - 1], queue[|queue| - 1];
      assert queue == front + [u];
      WaitingSize(front);
      WaitingAppend(front, u);
    }
  }

  /** The crawl as it begins. */
  lemma SeedsOk(seeds: seq<Url>, children: Url -> seq<Url>, max: int)
    ensures Ok(seeds, children, max, Progress(Front(Waiting(seeds), seeds, false), {}, {}))
  {
    WaitingSize(seeds);
    forall u | u in Waiting(seeds)
      ensures Reachable(seeds, children, u)
    {
      SeedReachable(seeds, children, u);
    }
  }

  // ----- the order of URLs

  predicate LessText(a: string, b: string) {
    b != [] && (a == [] || a[0] < b[0] || (a[0] == b[0] && LessText(a[1..], b[1..])))
  }

  predicate Less(u: Url, v: Url) {
    LessText(u.text, v.text)
  }

  ghost predicate Ascending(us: seq<Url>) {
    forall i, j :: 0 <= i < j < |us| ==> Less(us[i], us[j])
  }

  lemma {:induction false} TextsCompare(a: string, b: string)
    ensures LessText(a, b) || a == b || LessText(b, a)
  {
    if a != [] && b != [] && a[0] == b[0] {
      TextsCompare(a[1..], b[1..]);
      assert a == [a[0]] + a[1..] && b == [b[0]] + b[1..];
    }
  }

  lemma {:induction false} TextsChain(a: string, b: string, c: string)
    requires LessText(a, b) && LessText(b, c)
    ensures LessText(a, c)
  {
    if a != [] && a[0] == b[0] && b[0] == c[0] {
      TextsChain(a[1..], b[1..], c[1..]);
    }
  }

  /** The URL that comes before all others of the set. */
  method LeastOf(us: set<Url>) returns (u: Url)
    requires us != {}
    ensures u in us && forall v :: v in us ==> v == u || Less(u, v)
  {
    u :| u in us;
    var todo := us - {u};
    while todo != {}
      invariant todo <= us && u in us && u !in todo
      invariant forall v :: v in us && v !in todo ==> v == u || Less(u, v)
      decreases |todo|
    {
      var w :| w in todo;
      todo := todo - {w};
      TextsCompare(u.text, w.text);
      if Less(w, u) {
        forall v | v in us && v !in todo && v != w
          ensures Less(w, v)
        {
          if v != u {
            TextsChain(w.text, u.text, v.text);
          }
        }
        u := w;
      }
    }
  }

  /** The URLs of a set, each once, in order. */
  method InOrder(us: set<Url>) returns (order: seq<Url>)
    ensures (forall u :: u in order <==> u in us) && Ascending(order) && |order| == |us|
  {
    var todo := us;
    order := [];
    while todo != {}
      invariant todo <= us && |order| + |todo| == |us|
      invariant forall u :: u in order <==> u in us && u !in todo
      invariant Ascending(order) && forall i, v :: 0 <= i < |order| && v in todo ==> Less(order[i], v)
      decreases |todo|
    {
      var u := LeastOf(todo);
      todo, order := todo - {u}, order + [u];
    }
  }

  class OriginSync {
    const seeds: seq<Url>
    const maxForums: int
    const batchSize: int
    // What page 1 of each forum lists; the site does not change during the crawl.
    const children: Url -> seq<Url>
    var known: set<Url>
    var queue: seq<Url>
    var started: bool
    ghost var expanded: set<Url>
    ghost var capped: bool
    ghost var lost: set<Url>

    ghost function View(): Progress
      reads this
    {
      Progress(Front(known, queue, capped), expanded, lost)
    }

    ghost predicate Valid()
      reads this
    {
      if started then Ok(seeds, children, maxForums, View())
      else View() == Progress(Front({}, [], false), {}, {})
    }

    constructor (seeds: seq<Url>, maxForums: int, batchSize: int, children: Url -> seq<Url>)
      ensures this.seeds == seeds && this.maxForums == maxForums
      ensures this.batchSize == batchSize && this.children == children
      ensures Valid() && !started
    {
      this.seeds, this.maxForums, this.batchSize, this.children := seeds, maxForums, batchSize, children;
      known, queue, started := {}, [], false;
      expanded, capped, lost := {}, false, {};
    }

    method Seed()
      requires Valid() && !started
      modifies this`known, this`queue, this`started
      ensures Valid() && started && known == Waiting(seeds) && queue == seeds
    {
      for i := 0 to |seeds|
        invariant known == Waiting(seeds[..i]) && queue == seeds[..i]
      {
        assert seeds[..i + 1] == seeds[..i] + [seeds[i]];
        WaitingAppend(seeds[..i], seeds[i]);
        known := known + {seeds[i]};
        queue := queue + [seeds[i]];
      }
      assert seeds[..|seeds|] == seeds;
      started := true;
      SeedsOk(seeds, children, maxForums);
    }

    /** An empty queue starts another pass over everything known, in the order of the URLs. */
    method Refill()
      requires Valid() && started && queue == []
      modifies this`queue, this`expanded, this`lost
      ensures Valid() && (forall u :: u in queue <==> u in known) && Ascending(queue) && |queue| == |known|
      ensures expanded == {} && lost == {}
    {
      queue := InOrder(known);
      expanded, lost := {}, {};
    }

    /** Fetching a forum fails or lists its children. */
    method Fetch(u: Url) returns (ok: bool, kids: seq<Url>)
      ensures ok ==> kids == children(u)
    {
      ok := *;
      kids := if ok then children(u) else [];
    }

    method TakeIn(kids: seq<Url>)
      modifies this`known, this`queue, this`capped
      ensures Front(known, queue, capped) == Discover(old(Front(known, queue, capped)), kids, maxForums)
    {
      ghost var goal := Discover(Front(known, queue, capped), kids, maxForums);
      for i := 0 to |kids|
        invariant Discover(Front(known, queue, capped), kids[i..], maxForums) == goal
      {
        assert kids[i..][1..] == kids[i + 1..];
        if |known| >= maxForums && maxForums > 0 {
          capped := true;
          return;
        }
        if kids[i] in known {
          continue;
        }
        known := known + {kids[i]};
        queue := queue + [kids[i]];
      }
    }

    /** Fetch the head of the queue and take in what it lists; a failed fetch loses the head. */
    method ExpandHead() returns (ok: bool)
      requires Valid() && started && queue != []
      modifies this`known, this`queue, this`capped, this`expanded, this`lost
      ensures Valid() && started && old(known) <= known && (old(capped) ==> capped)
      ensures ok ==> View() == Expand(children, maxForums, old(View()))
      ensures !ok ==> View() == Lose(old(View()))
    {
      ExpandKeeps(seeds, children, maxForums, View());
      LoseKeeps(seeds, children, maxForums, View());
      ok := TakeHead();
    }

    method TakeHead() returns (ok: bool)
      requires queue != []
      modifies this`known, this`queue, this`capped, this`expanded, this`lost
      ensures ok ==> View() == Expand(children, maxForums, old(View()))
      ensures !ok ==> View() == Lose(old(View()))
    {
      var u := queue[0];
      queue := queue[1..];
      var kids;
      ok, kids := Fetch(u);
      if ok {
        TakeIn(kids);
        expanded := expanded + {u};
      } else {
        lost := lost + {u};
      }
    }

    /** Seed the first call; an empty queue begins a new pass, in which nothing is lost yet. */
    method Prepare()
      requires Valid()
      modifies this`known, this`queue, this`started, this`expanded, this`lost
      ensures Valid() && started && old(known) <= known
      ensures lost == if old(queue) != [] then old(lost) else {}
    {
      if !started {
        Seed();
      }
      if queue == [] {
        Refill();
      }
    }

    lemma Drained()
      requires Valid() && started
      ensures queue == [] && !capped ==> forall u :: ReachableBeside(seeds, children, lost, u) ==> u in known
      ensures queue == [] && !capped && lost == {} ==> forall u :: u in known <==> Reachable(seeds, children, u)
    {
      if queue == [] && !capped {
        DrainedMissesBehindLost(seeds, children, maxForums, View());
        if lost == {} {
          DrainedIsReachable(seeds, children, maxForums, View());
        }
      }
    }

    /** One batch; what holds afterwards holds however the work was split into batches. */
    method SyncDiscovered() returns (stored: nat, ok: bool)
      requires Valid()
      modifies this
      ensures Valid() && started && old(known) <= known
      ensures old(capped) ==> capped
      ensures var before := if old(queue) != [] then old(lost) else {};
              if ok then lost == before else exists u :: u in known && lost == before + {u}
      ensures stored <= if batchSize < 1 then 10 else batchSize
      ensures ok ==> queue == [] || stored == if batchSize < 1 then 10 else batchSize
      ensures forall u :: u in known ==> Reachable(seeds, children, u)
      ensures maxForums > 0 ==> |known| <= Max(maxForums, |seeds|)
      ensures queue == [] && !capped ==> forall u :: ReachableBeside(seeds, children, lost, u) ==> u in known
      ensures queue == [] && !capped && lost == {} ==> forall u :: u in known <==> Reachable(seeds, children, u)
      ensures capped ==> maxForums > 0 && |known| >= maxForums
    {
      Prepare();
      ghost var lostBefore := lost;
      var batch := if batchSize < 1 then 10 else batchSize;
      stored, ok := 0, true;
      while |queue| > 0 && stored < batch
        invariant Valid() && started && old(known) <= known && stored <= batch
        invariant (old(capped) ==> capped) && lost == lostBefore
        decreases batch - stored
      {
        ok := ExpandHead();
        if !ok {
          Drained();
          return;
        }
        stored := stored + 1;
      }
      Drained();
    }
  }
}
