/** The receiving half of one peer connection: reassembly, duplicate suppression, inbox. */
module MuxConn {
  import opened Bytes
  import opened MuxFrame
  import opened Dedupe

  const REASSEMBLY_TIMEOUT := 30_000_000_000 // nanoseconds
  const MAX_REASSEMBLIES := 64
  const INBOX_SIZE := 128

  // A fragment slot that holds no bytes is the source's nil slot: copying an
  // empty body into a slot leaves it nil.
  datatype Partial = Partial(frags: seq<seq<Byte>>, have: nat, created: int)

  type Table = map<U64, Partial>

  function Unexpired(t: Table, now: int): Table {
    map id | id in t && now - t[id].created <= REASSEMBLY_TIMEOUT :: t[id]
  }

  ghost predicate Oldest(t: Table, id: U64) {
    id in t && forall k :: k in t ==> t[id].created <= t[k].created
  }

  /** after is what collecting garbage may leave: no expired entry, and room for one more. */
  ghost predicate Collected(before: Table, now: int, after: Table) {
    var live := Unexpired(before, now);
    if |live| < MAX_REASSEMBLIES then after == live
    else exists id :: Oldest(live, id) && after == live - {id}
  }

  lemma {:induction false} MapLeSize(small: Table, big: Table)
    requires small.Keys <= big.Keys
    ensures |small| <= |big|
  {
    SetLeSize(small.Keys, big.Keys);
  }

  lemma {:induction false} SetLeSize<T>(small: set<T>, big: set<T>)
    requires small <= big
    ensures |small| <= |big|
  {
    if small != {} {
      var x :| x in small;
      SetLeSize(small - {x}, big - {x});
    }
  }

  lemma {:induction false} CollectedLeavesRoom(before: Table, now: int, after: Table)
    requires |before| <= MAX_REASSEMBLIES && Collected(before, now, after)
    ensures |after| < MAX_REASSEMBLIES
    ensures forall id :: id in after ==> id in before && after[id] == before[id]
  {
    var live := Unexpired(before, now);
    MapLeSize(live, before);
    if |live| >= MAX_REASSEMBLIES {
      var id :| Oldest(live, id) && after == live - {id};
      assert after.Keys == live.Keys - {id};
      assert |after.Keys| == |live.Keys| - 1;
    }
  }

  /** The entry is at most 30 seconds old. */
  predicate Live(t: Table, now: int, id: U64) {
    id in t && now - t[id].created <= 30_000_000_000
  }

  /**
   Collection keeps exactly the entries at most 30 seconds old, except that of 64 or more of these it
   gives up one, and none of the others is older.
   */
  lemma {:induction false} CollectedExactly(before: Table, now: int, after: Table)
    requires Collected(before, now, after)
    ensures forall id :: id in after ==> Live(before, now, id) && after[id] == before[id]
    ensures forall id :: Live(before, now, id) && id !in after ==>
                           && |after| + 1 >= 64
                           && (forall k :: Live(before, now, k) ==> before[id].created <= before[k].created)
                           && (forall k :: Live(before, now, k) && k !in after ==> k == id)
  {
    var live := Unexpired(before, now);
    if |live| >= MAX_REASSEMBLIES {
      var id :| Oldest(live, id) && after == live - {id};
      assert after.Keys == live.Keys - {id};
      assert |after.Keys| == |live.Keys| - 1;
    }
  }

  lemma {:induction false} OldestExists(t: Table) returns (id: U64)
    requires t != map[]
    ensures Oldest(t, id)
    decreases |t|
  {
    id :| id in t;
    var rest := t - {id};
    assert |rest.Keys| == |t.Keys| - 1;
    if rest != map[] {
      var other := OldestExists(rest);
      assert forall k :: k in t ==> k == id || k in rest;
      if t[other].created < t[id].created {
        id := other;
      }
    }
  }

  /** Collecting garbage always has an outcome. */
  lemma {:induction false} CanCollect(t: Table, now: int) returns (kept: Table)
    ensures Collected(t, now, kept) && kept.Keys <= t.Keys
  {
    var live := Unexpired(t, now);
    if |live| < MAX_REASSEMBLIES {
      kept := live;
    } else {
      var id := OldestExists(live);
      kept := live - {id};
    }
  }

  function Record(p: Partial, index: nat, body: seq<Byte>): Partial
    requires index < |p.frags|
  {
    if p.frags[index] == [] then p.(frags := p.frags[index := body], have := p.have + 1) else p
  }

  function NoFragments(count: nat): (slots: seq<seq<Byte>>)
    ensures |slots| == count && forall i :: 0 <= i < count ==> slots[i] == []
  {
    seq(count, _ => [])
  }

  datatype Reassembled = Reassembled(table: Table, msg: Option<seq<Byte>>)

  /** kept is the table garbage collection left, used only when the id is new. */
  function Reassemble(t: Table, kept: Table, id: U64, index: nat, count: nat, body: seq<Byte>, now: int)
    : Reassembled
    requires index < count
  {
    var t1 := if id in t then t else kept[id := Partial(NoFragments(count), 0, now)];
    var p := t1[id];
    if count != |p.frags| then Reassembled(t1 - {id}, None)
    else
      var p' := Record(p, index, body);
      Reassembled(t1[id := p'], if p'.have < |p'.frags| then None else Some(Concat(p'.frags)))
  }

  datatype Receiver = Receiver(reasm: Table, seen: Ring, inbox: seq<seq<Byte>>)

  datatype Handled = Handled(next: Receiver, ack: bool, delivered: Option<seq<Byte>>)

  /** The fragment is well formed and not one of a remembered message. */
  predicate Wanted(r: Receiver, id: U64, index: nat, count: nat) {
    0 < count <= MAX_FRAGMENTS && index < count && !Has(r.seen, id)
  }

  function HandleData(r: Receiver, kept: Table, id: U64, index: nat, count: nat, body: seq<Byte>, now: int)
    : Handled
    requires r.seen.next < |r.seen.order|
  {
    if count == 0 || count > MAX_FRAGMENTS || index >= count then Handled(r, false, None)
    else if Has(r.seen, id) then Handled(r, true, None)
    else
      var a := Reassemble(r.reasm, kept, id, index, count, body, now);
      if a.msg.None? then Handled(r.(reasm := a.table), false, None)
      else if |a.msg.value| > MAX_MESSAGE_SIZE then Handled(r.(reasm := a.table - {id}), false, None)
      else if |r.inbox| < INBOX_SIZE then
        Handled(Receiver(a.table - {id}, Add(r.seen, id), r.inbox + [a.msg.value]), true, a.msg)
      else Handled(r.(reasm := a.table), false, None)
  }

  // ----- when a fragment is acknowledged

  /** A well-formed fragment is acknowledged exactly when its id is among the last delivered, itself included. */
  lemma {:induction false} AckIff(r: Receiver, kept: Table, id: U64, index: nat, count: nat, body: seq<Byte>, now: int,
                                  h: seq<U64>)
    requires Remembers(r.seen, h) && id != 0 && index < count <= 4
    ensures var x := HandleData(r, kept, id, index, count, body, now);
            x.ack <==> id in Last(if x.delivered.Some? then h + [id] else h, |r.seen.order|)
  {
    HasIffRecent(r.seen, h, id);
    assert (h + [id])[|h|] == id;
    if HandleData(r, kept, id, index, count, body, now).delivered.Some? {
      LastOne(h, id, |r.seen.order|);
    }
  }

  lemma {:induction false} LastOne(h: seq<U64>, id: U64, n: nat)
    requires n > 0
    ensures id in Last(h + [id], n)
  {
    var l := Last(h + [id], n);
    assert l[|l| - 1] == id;
  }

  /** Any other fragment changes nothing and is not acknowledged. */
  lemma {:induction false} MalformedIgnored(r: Receiver, kept: Table, id: U64, index: nat, count: nat, body: seq<Byte>,
                                            now: int)
    requires r.seen.next < |r.seen.order| && (count == 0 || count > 4 || index >= count)
    ensures HandleData(r, kept, id, index, count, body, now) == Handled(r, false, None)
  {
  }

  /**
   A fragment that disagrees with its entry's count, or completes a message over the limit, drops the
   entry; nothing is delivered or acknowledged and the filter and the inbox stay.
   */
  lemma {:induction false} BadEntryDropped(r: Receiver, kept: Table, id: U64, index: nat, count: nat, body: seq<Byte>,
                                           now: int)
    requires r.seen.next < |r.seen.order| && Wanted(r, id, index, count) && id in r.reasm
    requires var frags := r.reasm[id].frags;
             || count != |frags|
             || (frags[index] == [] && r.reasm[id].have + 1 >= count &&
                 |Concat(frags[index := body])| > Envelope.MAX_MESSAGE_SIZE)
    ensures HandleData(r, kept, id, index, count, body, now) == Handled(r.(reasm := r.reasm - {id}), false, None)
  {
    var frags := r.reasm[id].frags;
    if count == |frags| {
      assert Reassemble(r.reasm, kept, id, index, count, body, now).msg == Some(Concat(frags[index := body]));
      assert r.reasm[id := Record(r.reasm[id], index, body)] - {id} == r.reasm - {id};
    }
  }

  /**
   A message that completes while the inbox is full is neither acknowledged nor forgotten: any later
   copy of that fragment delivers it once there is room.
   */
  lemma {:induction false} FullInboxWaits(r: Receiver, kept: Table, kept': Table, id: U64, index: nat, count: nat,
                                          body: seq<Byte>, now: int, now': int, msg: seq<Byte>,
                                          room: seq<seq<Byte>>)
    requires r.seen.next < |r.seen.order| && |r.inbox| >= 128 > |room|
    requires HandleData(r.(inbox := room), kept, id, index, count, body, now).delivered == Some(msg)
    ensures var h := HandleData(r, kept, id, index, count, body, now);
            && !h.ack && h.delivered.None? && h.next.inbox == r.inbox && h.next.seen == r.seen && id in h.next.reasm
            && HandleData(h.next.(inbox := room), kept', id, index, count, body, now').delivered == Some(msg)
  {
    var a := Reassemble(r.reasm, kept, id, index, count, body, now);
    var again := Reassemble(a.table, kept', id, index, count, body, now');
    assert id in a.table && |a.table[id].frags| == count && a.msg == Some(Concat(a.table[id].frags));
    assert Record(a.table[id], index, body).frags == a.table[id].frags;
    assert again.msg == a.msg;
  }

  // ----- what a table holds while the peer sends fragments of msg under an id

  function Filled(frags: seq<seq<Byte>>): nat {
    if frags == [] then 0 else (if frags[0] == [] then 0 else 1) + Filled(frags[1..])
  }

  ghost predicate PartialOf(p: Partial, msg: seq<Byte>, size: nat)
    requires size > 0
  {
    var fs := Fragments(msg, size);
    && |p.frags| == |fs|
    && (forall i :: 0 <= i < |fs| ==> p.frags[i] == [] || p.frags[i] == fs[i])
    && (msg != [] ==> p.have == Filled(p.frags))
  }

  lemma {:induction false} FilledUpdate(frags: seq<seq<Byte>>, i: nat, body: seq<Byte>)
    requires i < |frags| && frags[i] == [] && body != []
    ensures Filled(frags[i := body]) == Filled(frags) + 1
  {
    var g := frags[i := body];
    if i == 0 {
      assert g[1..] == frags[1..];
    } else {
      FilledUpdate(frags[1..], i - 1, body);
      assert g[1..] == frags[1..][i - 1 := body];
    }
  }

  lemma {:induction false} FilledAll(frags: seq<seq<Byte>>)
    ensures Filled(frags) <= |frags|
    ensures Filled(frags) == |frags| <==> forall i :: 0 <= i < |frags| ==> frags[i] != []
  {
    if frags != [] {
      FilledAll(frags[1..]);
      assert forall i :: 1 <= i < |frags| ==> frags[i] == frags[1..][i - 1];
    }
  }

  lemma {:induction false} FilledNone(frags: seq<seq<Byte>>)
    requires forall i :: 0 <= i < |frags| ==> frags[i] == []
    ensures Filled(frags) == 0
  {
    if frags != [] {
      FilledNone(frags[1..]);
    }
  }

  lemma {:induction false} FreshPartialOf(msg: seq<Byte>, size: nat, now: int)
    requires size > 0
    ensures PartialOf(Partial(NoFragments(|Fragments(msg, size)|), 0, now), msg, size)
  {
    FilledNone(NoFragments(|Fragments(msg, size)|));
  }

  /** Recording a true fragment keeps the partial true, and a complete one is the message. */
  lemma {:induction false} RecordKeeps(p: Partial, msg: seq<Byte>, size: nat, i: nat)
    requires size > 0 && PartialOf(p, msg, size) && i < |p.frags|
    ensures var p' := Record(p, i, Fragments(msg, size)[i]);
            && PartialOf(p', msg, size)
            && (p'.have >= |p'.frags| ==> Concat(p'.frags) == msg)
  {
    var fs := Fragments(msg, size);
    var p' := Record(p, i, fs[i]);
    if p.frags[i] == [] && msg != [] {
      FilledUpdate(p.frags, i, fs[i]);
    }
    FilledAll(p'.frags);
    FragmentsConcat(msg, size);
    if p'.have >= |p'.frags| {
      assert p'.frags == fs;
    }
  }

  // ----- a message is completed fragment by fragment

  /** The receiver holds exactly the fragments of msg whose index is in got, and not all of them. */
  ghost predicate Collecting(r: Receiver, id: U64, msg: seq<Byte>, size: nat, got: set<nat>)
    requires size > 0
  {
    var fs := Fragments(msg, size);
    && r.seen.next < |r.seen.order| && !Has(r.seen, id)
    && msg != [] && |msg| <= MAX_MESSAGE_SIZE && |fs| <= MAX_FRAGMENTS
    && id in r.reasm && PartialOf(r.reasm[id], msg, size)
    && (forall i :: 0 <= i < |fs| ==> (r.reasm[id].frags[i] == fs[i] <==> i in got))
    && (exists i :: 0 <= i < |fs| && i !in got)
  }

  /** The message went into the inbox and its id into the filter. */
  ghost predicate Completed(r: Receiver, h: Handled, id: U64, msg: seq<Byte>) {
    && r.seen.next < |r.seen.order| && h.ack && h.delivered == Some(msg)
    && h.next.inbox == r.inbox + [msg] && h.next.seen == Add(r.seen, id)
  }

  ghost predicate Unfinished(r: Receiver, h: Handled) {
    h.delivered == None && h.next.inbox == r.inbox && h.next.seen == r.seen
  }

  lemma {:induction false} OneMore(r: Receiver, kept: Table, id: U64, msg: seq<Byte>, size: nat, got: set<nat>,
                                   i: nat, now: int)
    requires size > 0 && Collecting(r, id, msg, size, got) && |r.inbox| < INBOX_SIZE && i < |Fragments(msg, size)|
    ensures var fs := Fragments(msg, size);
            var h := HandleData(r, kept, id, i, |fs|, fs[i], now);
            if forall k :: 0 <= k < |fs| ==> k in got + {i} then Completed(r, h, id, msg)
            else Unfinished(r, h) && Collecting(h.next, id, msg, size, got + {i})
  {
    var fs, p := Fragments(msg, size), r.reasm[id];
    RecordKeeps(p, msg, size, i);
    var p' := Record(p, i, fs[i]);
    FilledAll(p'.frags);
    GotOneMore(p, fs, got, i);
    assert Reassemble(r.reasm, kept, id, i, |fs|, fs[i], now) ==
           Reassembled(r.reasm[id := p'], if p'.have < |p'.frags| then None else Some(Concat(p'.frags)));
  }

  lemma {:induction false} GotOneMore(p: Partial, fs: seq<seq<Byte>>, got: set<nat>, i: nat)
    requires |p.frags| == |fs| && i < |fs|
    requires forall k :: 0 <= k < |fs| ==> fs[k] != [] && (p.frags[k] == [] || p.frags[k] == fs[k])
    requires forall k :: 0 <= k < |fs| ==> (p.frags[k] == fs[k] <==> k in got)
    ensures var p' := Record(p, i, fs[i]);
            && |p'.frags| == |fs|
            && (forall k :: 0 <= k < |fs| ==> (p'.frags[k] == fs[k] <==> k in got + {i}))
            && (forall k :: 0 <= k < |fs| ==> (p'.frags[k] != [] <==> k in got + {i}))
  {
  }

  lemma {:induction false} OnlyFragment(r: Receiver, kept: Table, id: U64, msg: seq<Byte>, size: nat, now: int)
    requires size > 0 && |msg| <= MAX_MESSAGE_SIZE && |Fragments(msg, size)| == 1
    requires r.seen.next < |r.seen.order| && !Has(r.seen, id) && id !in r.reasm && |r.inbox| < INBOX_SIZE
    ensures Completed(r, HandleData(r, kept, id, 0, 1, Fragments(msg, size)[0], now), id, msg)
  {
    var p := Partial(NoFragments(1), 0, now);
    FreshPartialOf(msg, size, now);
    RecordKeeps(p, msg, size, 0);
    assert Record(p, 0, Fragments(msg, size)[0]).have == 1;
  }

  lemma {:induction false} FirstOfMany(r: Receiver, kept: Table, id: U64, msg: seq<Byte>, size: nat, i: nat, now: int)
    requires size > 0 && |msg| <= MAX_MESSAGE_SIZE && 1 < |Fragments(msg, size)| <= MAX_FRAGMENTS
    requires i < |Fragments(msg, size)|
    requires r.seen.next < |r.seen.order| && !Has(r.seen, id) && id !in r.reasm && |r.inbox| < INBOX_SIZE
    ensures var fs := Fragments(msg, size);
            var h := HandleData(r, kept, id, i, |fs|, fs[i], now);
            Unfinished(r, h) && Collecting(h.next, id, msg, size, {i})
  {
    var p := Partial(NoFragments(|Fragments(msg, size)|), 0, now);
    var ready := r.(reasm := kept[id := p]);
    var none: set<nat> := {};
    FreshPartialOf(msg, size, now);
    assert 0 !in none && none + {i} == {i};
    OneMore(ready, kept, id, msg, size, none, i, now);
    assert (if i == 0 then 1 else 0) !in {i};
  }

  /** The receiver as the program keeps it. */
  class Inbound {
    var reasm: Table
    const seen: Filter
    var inbox: seq<seq<Byte>>

    ghost predicate Valid()
      reads this, seen, seen.order
    {
      seen.Valid()
    }

    ghost function View(): Receiver
      reads this, seen, seen.order
    {
      Receiver(reasm, seen.View(), inbox)
    }

    constructor ()
      ensures Valid() && fresh(seen) && fresh(seen.order)
      ensures View() == Receiver(map[], Empty(WINDOW), [])
    {
      reasm, inbox := map[], [];
      seen := new Filter(WINDOW);
    }

    /** Drop expired partials and, still at capacity, one of the oldest. */
    method GcReassemblies(now: int)
      modifies this`reasm
      ensures Collected(old(reasm), now, reasm)
    {
      ghost var before := reasm;
      var todo := reasm.Keys;
      while todo != {}
        invariant todo <= before.Keys
        invariant forall id :: id in reasm <==>
          id in before && (id in todo || now - before[id].created <= REASSEMBLY_TIMEOUT)
        invariant forall id :: id in reasm ==> reasm[id] == before[id]
        decreases |todo|
      {
        var id :| id in todo;
        todo := todo - {id};
        if now - reasm[id].created > REASSEMBLY_TIMEOUT {
          reasm := reasm - {id};
        }
      }
      assert reasm == Unexpired(before, now);
      if |reasm| < MAX_REASSEMBLIES {
        return;
      }
      todo := reasm.Keys;
      assert |todo| == |reasm|;
      var oldest :| oldest in todo;
      while todo != {}
        invariant todo <= reasm.Keys && oldest in reasm
        invariant forall id :: id in reasm && id !in todo ==> reasm[oldest].created <= reasm[id].created
        decreases |todo|
      {
        var id :| id in todo;
        todo := todo - {id};
        if reasm[id].created < reasm[oldest].created {
          oldest := id;
        }
      }
      assert Oldest(Unexpired(before, now), oldest);
      reasm := reasm - {oldest};
    }

    method ReassembleFragment(id: U64, index: nat, count: nat, body: seq<Byte>, now: int)
      returns (msg: Option<seq<Byte>>, ghost kept: Table)
      requires index < count
      modifies this`reasm
      ensures id !in old(reasm) ==> Collected(old(reasm), now, kept)
      ensures Reassembled(reasm, msg) == Reassemble(old(reasm), kept, id, index, count, body, now)
    {
      kept := reasm;
      if id !in reasm {
        GcReassemblies(now);
        kept := reasm;
        reasm := reasm[id := Partial(NoFragments(count), 0, now)];
      }
      var p := reasm[id];
      if count != |p.frags| {
        reasm := reasm - {id};
        return None, kept;
      }
      if p.frags[index] == [] {
        p := p.(frags := p.frags[index := body], have := p.have + 1);
      }
      reasm := reasm[id := p];
      if p.have < |p.frags| {
        return None, kept;
      }
      var whole: seq<Byte> := [];
      for i := 0 to |p.frags|
        modifies {}
        invariant whole == Concat(p.frags[..i])
      {
        ConcatAppend(p.frags[..i], p.frags[i]);
        assert p.frags[..i + 1] == p.frags[..i] + [p.frags[i]];
        whole := whole + p.frags[i];
      }
      assert p.frags[..|p.frags|] == p.frags;
      return Some(whole), kept;
    }

    /** Process one DATA fragment; ack says whether an acknowledgement is written. */
    method Receive(id: U64, index: nat, count: nat, body: seq<Byte>, now: int)
      returns (ack: bool, ghost delivered: Option<seq<Byte>>, ghost kept: Table)
      requires Valid()
      modifies this, seen, seen.order
      ensures Valid()
      ensures old(Wanted(View(), id, index, count)) && id !in old(reasm) ==> Collected(old(reasm), now, kept)
      ensures Handled(View(), ack, delivered) ==
              HandleData(old(View()), kept, id, index, count, body, now)
    {
      kept, ack, delivered := reasm, false, None;
      if count == 0 || count > MAX_FRAGMENTS || index >= count {
        return;
      }
      var duplicate := seen.Contains(id);
      if duplicate {
        ack := true;
        return;
      }
      var msg;
      msg, kept := ReassembleFragment(id, index, count, body, now);
      if msg.None? {
        return;
      }
      if |msg.value| > MAX_MESSAGE_SIZE {
        reasm := reasm - {id};
        return;
      }
      if |inbox| < INBOX_SIZE {
        inbox := inbox + [msg.value];
        seen.Insert(id);
        reasm := reasm - {id};
        ack, delivered := true, msg;
      }
    }
  }
}
