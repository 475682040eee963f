/** The fixed-size filter of recently delivered message ids. */
module Dedupe {
  import opened Bytes

  const WINDOW := 1024

  datatype Ring = Ring(ids: set<U64>, order: seq<U64>, next: nat)

  function Empty(size: nat): Ring {
    Ring({}, Zeros(size), 0)
  }

  predicate Has(r: Ring, id: U64) {
    id in r.ids
  }

  function Add(r: Ring, id: U64): Ring
    requires r.next < |r.order|
  {
    if Has(r, id) then r
    else
      var evicted := r.order[r.next];
      Ring((if evicted != 0 then r.ids - {evicted} else r.ids) + {id},
           r.order[r.next := id],
           (r.next + 1) % |r.order|)
  }

  /** The slots read oldest first. */
  function Rotation(r: Ring): seq<U64>
    requires r.next <= |r.order|
  {
    r.order[r.next..] + r.order[..r.next]
  }

  function Last(s: seq<U64>, n: nat): seq<U64> {
    if |s| <= n then s else s[|s| - n..]
  }

  /** One of the last n entries is id. */
  ghost predicate Lately(s: seq<U64>, id: U64, n: nat) {
    exists x :: 0 <= x < |s| && |s| - n <= x && s[x] == id
  }

  lemma LatelyIff(s: seq<U64>, id: U64, n: nat)
    ensures id in Last(s, n) <==> Lately(s, id, n)
  {
    var l, skip := Last(s, n), if |s| <= n then 0 else |s| - n;
    if id in l {
      var k :| 0 <= k < |l| && l[k] == id;
      assert s[skip + k] == id;
    }
    if Lately(s, id, n) {
      var x :| 0 <= x < |s| && |s| - n <= x && s[x] == id;
      assert l[x - skip] == id;
    }
  }

  ghost predicate DistinctIds(s: seq<U64>) {
    forall i, j :: 0 <= i < j < |s| && s[i] != 0 ==> s[i] != s[j]
  }

  function NonZero(s: seq<U64>): set<U64> {
    set x | x in s && x != 0
  }

  /** r is the filter after the ids of h were added in that order. */
  ghost predicate Remembers(r: Ring, h: seq<U64>) {
    && r.next < |r.order|
    && Rotation(r) == Last(Zeros(|r.order|) + h, |r.order|)
    && r.ids == NonZero(Rotation(r))
    && DistinctIds(Rotation(r))
    && 0 !in h
  }

  /** Any |window|+1 consecutive entries are pairwise distinct. */
  ghost predicate DistinctWithin(h: seq<U64>, window: nat) {
    forall i, j :: 0 <= i < j < |h| && j - i <= window ==> h[i] != h[j]
  }

  /** The filter holds exactly the ids of the last |order| deliveries. */
  lemma HasIffRecent(r: Ring, h: seq<U64>, id: U64)
    requires Remembers(r, h) && id != 0
    ensures Has(r, id) <==> id in Last(h, |r.order|)
  {
    var n := |r.order|;
    var all := Zeros(n) + h;
    assert Rotation(r) == all[|h|..];
    if |h| <= n {
      assert all[|h|..] == Zeros(n - |h|) + h;
    } else {
      assert all[|h|..] == h[|h| - n..];
    }
  }

  lemma NextSlot(next: nat, size: nat)
    requires next < size
    ensures (next + 1) % size == if next + 1 == size then 0 else next + 1
  {
  }

  lemma RotationAfterAdd(r: Ring, id: U64)
    requires r.next < |r.order| && !Has(r, id)
    ensures Rotation(Add(r, id)) == Rotation(r)[1..] + [id]
  {
    NextSlot(r.next, |r.order|);
    var o := r.order[r.next := id];
    var r' := Add(r, id);
    assert r'.order == o;
    assert o[r.next + 1..] == r.order[r.next + 1..];
    assert o[..r.next] == r.order[..r.next];
    assert Rotation(r)[1..] == r.order[r.next + 1..] + r.order[..r.next];
    if r.next + 1 == |r.order| {
      assert o == o[..r.next] + [id];
      assert Rotation(r') == o;
    } else {
      assert o[..r.next + 1] == o[..r.next] + [id];
    }
  }

  lemma SlideIds(rot: seq<U64>, id: U64)
    requires rot != [] && DistinctIds(rot) && id != 0 && id !in rot
    ensures NonZero(rot[1..] + [id]) == (if rot[0] != 0 then NonZero(rot) - {rot[0]} else NonZero(rot)) + {id}
    ensures DistinctIds(rot[1..] + [id])
  {
    assert rot == [rot[0]] + rot[1..];
    if rot[0] != 0 {
      assert rot[0] !in rot[1..];
    }
  }

  lemma AddRemembers(r: Ring, h: seq<U64>, id: U64)
    requires Remembers(r, h) && id != 0 && !Has(r, id)
    ensures Remembers(Add(r, id), h + [id])
  {
    var n := |r.order|;
    RotationAfterAdd(r, id);
    SlideIds(Rotation(r), id);
    assert Zeros(n) + (h + [id]) == (Zeros(n) + h) + [id];
  }

  lemma DistinctExtends(r: Ring, h: seq<U64>, id: U64)
    requires Remembers(r, h) && id != 0 && !Has(r, id)
    requires DistinctWithin(h, |r.order|)
    ensures DistinctWithin(h + [id], |r.order|)
  {
    HasIffRecent(r, h, id);
    forall i | 0 <= i < |h| && |h| - i <= |r.order|
      ensures h[i] != id
    {
      var recent := Last(h, |r.order|);
      assert h[i] == recent[i - (|h| - |recent|)];
    }
  }

  /** The filter as the program keeps it: a set, a slot array and a cursor. */
  class Filter {
    var ids: set<U64>
    const order: array<U64>
    var next: nat

    ghost predicate Valid()
      reads this, order
    {
      next < order.Length
    }

    ghost function View(): Ring
      reads this, order
    {
      Ring(ids, order[..], next)
    }

    constructor (size: nat)
      requires size > 0
      ensures Valid() && fresh(order) && order.Length == size
      ensures View() == Empty(size)
    {
      ids, next := {}, 0;
      order := new U64[size](_ => 0);
      new;
      assert order[..] == Zeros(size);
    }

    method Contains(id: U64) returns (found: bool)
      requires Valid()
      ensures found <==> Has(View(), id)
    {
      found := id in ids;
    }

    method Insert(id: U64)
      requires Valid()
      modifies this`ids, this`next, order
      ensures Valid() && View() == Add(old(View()), id)
    {
      if id in ids {
        return;
      }
      var evicted := order[next];
      if evicted != 0 {
        ids := ids - {evicted};
      }
      order[next] := id;
      ids := ids + {id};
      next := (next + 1) % order.Length;
    }
  }
}
