/** Bytes, optional values, big-endian integers and a maximum, shared by the other modules. */
module Bytes {

  type Byte = x: int | 0 <= x < 256

  type U32 = x: int | 0 <= x < 0x1_0000_0000

  type U64 = x: int | 0 <= x < 0x1_0000_0000_0000_0000

  datatype Option<+T> = None | Some(value: T)

  function Zeros(n: nat): (z: seq<Byte>)
    ensures |z| == n && forall i :: 0 <= i < n ==> z[i] == 0
  {
    seq(n, _ => 0)
  }

  function Max(a: int, b: int): int {
    if a > b then a else b
  }

  function Pow256(width: nat): (p: nat)
    ensures p >= 1
  {
    if width == 0 then 1 else 256 * Pow256(width - 1)
  }

  /** The `width` low-order bytes of n, most significant first. */
  function PutBE(n: nat, width: nat): (b: seq<Byte>)
    ensures |b| == width
  {
    if width == 0 then [] else PutBE(n / 256, width - 1) + [n % 256]
  }

  function GetBE(b: seq<Byte>): (n: nat)
    ensures n < Pow256(|b|)
  {
    if b == [] then 0 else 256 * GetBE(b[..|b| - 1]) + b[|b| - 1]
  }

  lemma {:induction false} GetPutBE(n: nat, width: nat)
    requires n < Pow256(width)
    ensures GetBE(PutBE(n, width)) == n
  {
    if width > 0 {
      GetPutBE(n / 256, width - 1);
      assert PutBE(n, width)[..width - 1] == PutBE(n / 256, width - 1);
    }
  }

  lemma {:induction false} PutGetBE(b: seq<Byte>)
    ensures PutBE(GetBE(b), |b|) == b
  {
    if b != [] {
      var high, low := GetBE(b[..|b| - 1]), b[|b| - 1];
      PutGetBE(b[..|b| - 1]);
      assert (256 * high + low) / 256 == high && (256 * high + low) % 256 == low;
      assert b == b[..|b| - 1] + [low];
    }
  }

  /** The first byte is the most significant one. */
  lemma {:induction false} MostSignificantFirst(x: Byte, rest: seq<Byte>)
    ensures GetBE([x] + rest) == x * Pow256(|rest|) + GetBE(rest)
  {
    if rest == [] {
      assert [x] + rest == [x];
      assert GetBE([x]) == x && Pow256(0) == 1;
    } else {
      MostSignificantFirst(x, rest[..|rest| - 1]);
      assert ([x] + rest)[..|rest|] == [x] + rest[..|rest| - 1];
      assert Pow256(|rest|) == 256 * Pow256(|rest| - 1);
      assert x * Pow256(|rest|) == 256 * (x * Pow256(|rest| - 1));
    }
  }

  /** The widths the wire formats use hold exactly the unsigned integers of that size. */
  lemma Widths()
    ensures Pow256(4) == 0x1_0000_0000
    ensures Pow256(8) == 0x1_0000_0000_0000_0000
  {
    assert Pow256(2) == 0x1_0000;
    assert Pow256(4) == 256 * (256 * Pow256(2));
    assert Pow256(6) == 256 * (256 * Pow256(4));
    assert Pow256(8) == 256 * (256 * Pow256(6));
  }

  function Concat(parts: seq<seq<Byte>>): (b: seq<Byte>)
  {
    if parts == [] then [] else parts[0] + Concat(parts[1..])
  }

  lemma {:induction false} ConcatAppend(parts: seq<seq<Byte>>, last: seq<Byte>)
    ensures Concat(parts + [last]) == Concat(parts) + last
  {
    if parts == [] {
      assert Concat([last]) == last + Concat([last][1..]);
    } else {
      ConcatAppend(parts[1..], last);
      assert (parts + [last])[1..] == parts[1..] + [last];
    }
  }
}
