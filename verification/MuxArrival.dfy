/** One message among others at one receiver: its fragments put exactly one copy into the inbox. */
module MuxArrival {
  import opened Bytes
  import opened MuxFrame
  import opened Dedupe
  import opened MuxConn

  // A fragment of any message, with the clock and what collecting garbage leaves if its id is new; or
  // the application reads the inbox.
  datatype Input = Fragment(id: U64, index: nat, count: nat, body: seq<Byte>, now: int, kept: Table) | Read

  function Take(r: Receiver, x: Input): (h: Handled)
    requires r.seen.next < |r.seen.order|
    ensures h.next.seen.next < |h.next.seen.order| == |r.seen.order|
  {
    match x
    case Fragment(id, index, count, body, now, kept) => HandleData(r, kept, id, index, count, body, now)
    case Read => Handled(r.(inbox := if r.inbox == [] then [] else r.inbox[1..]), false, None)
  }

  /** The messages put into the inbox under an id, in order. */
  function Copies(r: Receiver, ins: seq<Input>, id: U64): seq<seq<Byte>>
    requires r.seen.next < |r.seen.order|
    decreases |ins|
  {
    if ins == [] then []
    else
      var x, h := ins[0], Take(r, ins[0]);
      (if x.Fragment? && x.id == id && h.delivered.Some? then [h.delivered.value] else []) +
      Copies(h.next, ins[1..], id)
  }

  /**
   The input is one a receiver may meet; fragments of the message in question are its own and find
   room in the inbox, and collecting garbage for another message spares it.
   */
  ghost predicate Benign(r: Receiver, x: Input, id: U64, fs: seq<seq<Byte>>) {
    x.Fragment? ==>
      && x.id != 0
      && (Wanted(r, x.id, x.index, x.count) && x.id !in r.reasm ==>
            Collected(r.reasm, x.now, x.kept) && (id in r.reasm ==> id in x.kept))
      && (x.id == id ==> x.count == |fs| && x.index < x.count && x.body == fs[x.index] && |r.inbox| < INBOX_SIZE)
  }

  ghost predicate AllBenign(r: Receiver, ins: seq<Input>, id: U64, fs: seq<seq<Byte>>)
    requires r.seen.next < |r.seen.order|
    decreases |ins|
  {
    ins == [] || (Benign(r, ins[0], id, fs) && AllBenign(Take(r, ins[0]).next, ins[1..], id, fs))
  }

  ghost predicate Arrives(ins: seq<Input>, id: U64, k: nat) {
    exists x :: 0 <= x < |ins| && ins[x].Fragment? && ins[x].id == id && ins[x].index == k
  }

  lemma {:induction false} CollectedIsPart(before: Table, now: int, after: Table)
    requires Collected(before, now, after)
    ensures forall id :: id in after ==> id in before && after[id] == before[id]
  {
    var live := Unexpired(before, now);
    if |live| >= MAX_REASSEMBLIES {
      var id :| Oldest(live, id) && after == live - {id};
    }
  }

  /** What a step of another message leaves of this one. */
  ghost predicate Aside(r: Receiver, r': Receiver, id: U64) {
    && (id in r'.reasm <==> id in r.reasm) && (id in r.reasm ==> r'.reasm[id] == r.reasm[id])
    && (Has(r'.seen, id) ==> Has(r.seen, id))
  }

  /** The table after a fragment of another message holds this one as before. */
  lemma {:induction false} ReassembleAside(t: Table, kept: Table, other: U64, index: nat, count: nat, body: seq<Byte>,
                                           now: int, id: U64)
    requires index < count && other != id
    requires other !in t ==> Collected(t, now, kept) && (id in t ==> id in kept)
    ensures var t' := Reassemble(t, kept, other, index, count, body, now).table;
            && (id in t' <==> id in t) && (id in t ==> t'[id] == t[id])
            && (id in t' - {other} <==> id in t) && (id in t ==> (t' - {other})[id] == t[id])
  {
    if other !in t {
      CollectedIsPart(t, now, kept);
    }
  }

  lemma {:induction false} OthersStandAside(r: Receiver, x: Input, id: U64, fs: seq<seq<Byte>>)
    requires r.seen.next < |r.seen.order| && Benign(r, x, id, fs) && (x.Fragment? ==> x.id != id)
    ensures Aside(r, Take(r, x).next, id)
  {
    if x.Fragment? && Wanted(r, x.id, x.index, x.count) {
      ReassembleAside(r.reasm, x.kept, x.id, x.index, x.count, x.body, x.now, id);
    }
  }

  lemma {:induction false} TakeSeen(r: Receiver, x: Input)
    requires r.seen.next < |r.seen.order|
    ensures Take(r, x).delivered.None? ==> Take(r, x).next.seen == r.seen
    ensures Take(r, x).delivered.Some? ==>
              x.Fragment? && !Has(r.seen, x.id) && Take(r, x).next.seen == Add(r.seen, x.id)
  {
  }

  /** The filter after one input remembers what it did, and one id more when one was delivered. */
  lemma {:induction false} FilterStep(r: Receiver, x: Input, h: seq<U64>) returns (h': seq<U64>)
    requires Remembers(r.seen, h) && (x.Fragment? ==> x.id != 0)
    ensures Remembers(Take(r, x).next.seen, h')
    ensures h' == h || (x.Fragment? && h' == h + [x.id])
    ensures x.Fragment? && Take(r, x).delivered.Some? ==> h' == h + [x.id]
  {
    h' := h;
    TakeSeen(r, x);
    if Take(r, x).delivered.Some? {
      h' := h + [x.id];
      AddRemembers(r.seen, h, x.id);
    }
  }

  lemma {:induction false} LastGrows(h: seq<U64>, id: U64, x: U64, n: nat)
    requires id in Last(h, n)
    ensures id in Last(h, n + 1) && id in Last(h + [x], n + 1)
  {
    LatelyIff(h, id, n);
    LatelyIff(h, id, n + 1);
    LatelyIff(h + [x], id, n + 1);
    var k :| 0 <= k < |h| && |h| - n <= k && h[k] == id;
    assert (h + [x])[k] == id;
  }

  /** Once delivered, the id is remembered while fewer inputs follow than the filter has slots. */
  lemma {:induction false} NoSecondCopy(r: Receiver, ins: seq<Input>, id: U64, fs: seq<seq<Byte>>, h: seq<U64>)
    requires Remembers(r.seen, h) && AllBenign(r, ins, id, fs) && id != 0
    requires |ins| <= |r.seen.order| && id in Last(h, |r.seen.order| - |ins|)
    ensures Copies(r, ins, id) == []
    decreases |ins|
  {
    if ins != [] {
      var n := |r.seen.order| - |ins|;
      HasIffRecent(r.seen, h, id);
      var h' := FilterStep(r, ins[0], h);
      LastGrows(h, id, if ins[0].Fragment? then ins[0].id else 0, n);
      NoSecondCopy(Take(r, ins[0]).next, ins[1..], id, fs, h');
    }
  }

  /** Before the message is complete: nothing of it came yet, or exactly the fragments in got. */
  ghost predicate Gathering(r: Receiver, id: U64, msg: seq<Byte>, size: nat, got: set<nat>)
    requires size > 0
  {
    && r.seen.next < |r.seen.order| && !Has(r.seen, id)
    && |msg| <= MAX_MESSAGE_SIZE && |Fragments(msg, size)| <= MAX_FRAGMENTS
    && (if got == {} then id !in r.reasm else Collecting(r, id, msg, size, got))
  }

  lemma {:induction false} GatheringOther(r: Receiver, x: Input, id: U64, msg: seq<Byte>, size: nat, got: set<nat>)
    requires size > 0 && Gathering(r, id, msg, size, got) && Benign(r, x, id, Fragments(msg, size))
    requires x.Fragment? ==> x.id != id
    ensures Gathering(Take(r, x).next, id, msg, size, got)
  {
    OthersStandAside(r, x, id, Fragments(msg, size));
  }

  /** Its first fragment completes the message or is the first of several. */
  lemma {:induction false} GatheringFirst(r: Receiver, x: Input, id: U64, msg: seq<Byte>, size: nat)
    requires size > 0 && Gathering(r, id, msg, size, {}) && Benign(r, x, id, Fragments(msg, size))
    requires x.Fragment? && x.id == id
    ensures var h := Take(r, x);
            if |Fragments(msg, size)| == 1 then Completed(r, h, id, msg)
            else h.delivered.None? && Gathering(h.next, id, msg, size, {x.index})
  {
    if |Fragments(msg, size)| == 1 {
      OnlyFragment(r, x.kept, id, msg, size, x.now);
    } else {
      FirstOfMany(r, x.kept, id, msg, size, x.index, x.now);
    }
  }

  /** Later ones complete it or are one more. */
  lemma {:induction false} GatheringNext(r: Receiver, x: Input, id: U64, msg: seq<Byte>, size: nat, got: set<nat>)
    requires size > 0 && got != {} && Gathering(r, id, msg, size, got) && Benign(r, x, id, Fragments(msg, size))
    requires x.Fragment? && x.id == id
    ensures var h, n := Take(r, x), |Fragments(msg, size)|;
            if forall k :: 0 <= k < n ==> k in got + {x.index} then Completed(r, h, id, msg)
            else h.delivered.None? && Gathering(h.next, id, msg, size, got + {x.index})
  {
    OneMore(r, x.kept, id, msg, size, got, x.index, x.now);
  }

  ghost predicate Full(got: set<nat>, n: nat) {
    forall k :: 0 <= k < n ==> k in got
  }

  lemma {:induction false} GatheringOwn(r: Receiver, x: Input, id: U64, msg: seq<Byte>, size: nat, got: set<nat>)
    requires size > 0 && Gathering(r, id, msg, size, got) && Benign(r, x, id, Fragments(msg, size))
    requires x.Fragment? && x.id == id
    ensures if Full(got + {x.index}, |Fragments(msg, size)|) then Completed(r, Take(r, x), id, msg)
            else Take(r, x).delivered.None? && Gathering(Take(r, x).next, id, msg, size, got + {x.index})
  {
    if got == {} {
      assert got + {x.index} == {x.index};
      GatheringFirst(r, x, id, msg, size);
      OneIsFull(x.index, |Fragments(msg, size)|);
    } else {
      GatheringNext(r, x, id, msg, size, got);
    }
  }

  lemma {:induction false} OneIsFull(i: nat, n: nat)
    requires i < n
    ensures Full({i}, n) <==> n == 1
  {
    if n > 1 {
      var one: set<nat> := {i};
      assert (if i == 0 then 1 else 0) !in one;
    }
  }

  ghost predicate Covered(ins: seq<Input>, id: U64, got: set<nat>, n: nat) {
    forall k :: 0 <= k < n ==> k in got || Arrives(ins, id, k)
  }

  lemma {:induction false} CoveredLater(ins: seq<Input>, id: U64, got: set<nat>, n: nat)
    requires Covered(ins, id, got, n) && !Full(got, n)
    ensures ins != []
    ensures var x := ins[0];
            Covered(ins[1..], id, if x.Fragment? && x.id == id then got + {x.index} else got, n)
  {
    var missing: nat :| missing < n && missing !in got;
    assert Arrives(ins, id, missing);
    forall k | 0 <= k < n && k !in got
      ensures (ins[0].Fragment? && ins[0].id == id && ins[0].index == k) || Arrives(ins[1..], id, k)
    {
      var x :| 0 <= x < |ins| && ins[x].Fragment? && ins[x].id == id && ins[x].index == k;
      if x > 0 {
        assert ins[1..][x - 1] == ins[x];
      }
    }
  }

  /** Right after its delivery there is no other copy to come. */
  lemma {:induction false} NoneAfterDelivery(r: Receiver, rest: seq<Input>, id: U64, fs: seq<seq<Byte>>, h: seq<U64>)
    requires Remembers(r.seen, h + [id]) && id != 0 && AllBenign(r, rest, id, fs) && |rest| < |r.seen.order|
    ensures Copies(r, rest, id) == []
  {
    assert (h + [id])[|h|] == id;
    assert id in Last(h + [id], |r.seen.order| - |rest|);
    NoSecondCopy(r, rest, id, fs, h + [id]);
  }

  lemma {:induction false} RestDeliversOnce(r: Receiver, ins: seq<Input>, id: U64, msg: seq<Byte>, size: nat,
                                            got: set<nat>, h: seq<U64>)
    requires size > 0 && Gathering(r, id, msg, size, got) && Remembers(r.seen, h) && id != 0
    requires AllBenign(r, ins, id, Fragments(msg, size)) && |ins| <= |r.seen.order|
    requires Covered(ins, id, got, |Fragments(msg, size)|) && !Full(got, |Fragments(msg, size)|)
    ensures Copies(r, ins, id) == [msg]
    decreases |ins|
  {
    var fs := Fragments(msg, size);
    CoveredLater(ins, id, got, |fs|);
    var x, rest := ins[0], ins[1..];
    var r' := Take(r, x).next;
    var h' := FilterStep(r, x, h);
    if x.Fragment? && x.id == id {
      GatheringOwn(r, x, id, msg, size, got);
      if Full(got + {x.index}, |fs|) {
        NoneAfterDelivery(r', rest, id, fs, h);
      } else {
        RestDeliversOnce(r', rest, id, msg, size, got + {x.index}, h');
      }
    } else {
      GatheringOther(r, x, id, msg, size, got);
      RestDeliversOnce(r', rest, id, msg, size, got, h');
    }
  }

  /**
   The fragments of a message, in any order and with any repeats, among fragments of any other
   messages, garbage collections and reads, put exactly one copy into the inbox.
   */
  lemma {:induction false} AllFragmentsDeliverOnce(r: Receiver, ins: seq<Input>, id: U64, msg: seq<Byte>, size: nat,
                                                   h: seq<U64>)
    requires size > 0 && |msg| <= MAX_MESSAGE_SIZE && |Fragments(msg, size)| <= MAX_FRAGMENTS
    requires Remembers(r.seen, h) && id != 0 && !Has(r.seen, id) && id !in r.reasm
    requires AllBenign(r, ins, id, Fragments(msg, size)) && |ins| <= |r.seen.order|
    requires forall k :: 0 <= k < |Fragments(msg, size)| ==> Arrives(ins, id, k)
    ensures Copies(r, ins, id) == [msg]
  {
    var none: set<nat> := {};
    assert 0 !in none;
    assert !Full(none, |Fragments(msg, size)|);
    RestDeliversOnce(r, ins, id, msg, size, none, h);
  }
}
