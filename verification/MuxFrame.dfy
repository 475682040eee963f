/** The 13-byte datagram header and the fragments of one message. */
module MuxFrame {
  import opened Bytes
  import Envelope

  const MAGIC: Byte := 0x47
  const HEADER_SIZE := 13
  const DATA: Byte := 0x01
  const ACK: Byte := 0x02
  const PING: Byte := 0x03
  const PONG: Byte := 0x04
  const MAX_FRAGMENTS := 4
  // One maximal envelope.
  const MAX_MESSAGE_SIZE := Envelope.MAX_MESSAGE_SIZE

  datatype Frame = Frame(kind: Byte, id: U64, index: Byte, count: Byte, epoch: Byte, body: seq<Byte>)

  function Serialize(f: Frame): (d: seq<Byte>)
    ensures |d| == HEADER_SIZE + |f.body|
  {
    [MAGIC, f.kind] + PutBE(f.id, 8) + [f.index, f.count, f.epoch] + f.body
  }

  function Parse(d: seq<Byte>): Option<Frame> {
    if |d| < HEADER_SIZE || d[0] != MAGIC then None
    else
      Widths();
      Some(Frame(d[1], GetBE(d[2..10]), d[10], d[11], d[12], d[13..]))
  }

  lemma ParseSerialize(f: Frame)
    ensures Parse(Serialize(f)) == Some(f)
  {
    var d := Serialize(f);
    Widths();
    GetPutBE(f.id, 8);
    assert d[2..10] == PutBE(f.id, 8);
    assert d[13..] == f.body;
  }

  /** Every datagram the reader accepts is the serialization of the frame it read. */
  lemma SerializeParse(d: seq<Byte>)
    requires Parse(d).Some?
    ensures Serialize(Parse(d).value) == d
    ensures var f := Parse(d).value;
            && d[0] == 0x47 && d[1] == f.kind && GetBE(d[2..10]) == f.id
            && d[10] == f.index && d[11] == f.count && d[12] == f.epoch && d[13..] == f.body
  {
    PutGetBE(d[2..10]);
    assert d == [d[0], d[1]] + d[2..10] + [d[10], d[11], d[12]] + d[13..];
  }

  /** The datagram writer fills the header in place and copies the body behind it. */
  method WriteFrame(kind: Byte, id: U64, index: Byte, count: Byte, epoch: Byte, body: seq<Byte>)
    returns (frame: array<Byte>)
    ensures fresh(frame)
    ensures Parse(frame[..]) == Some(Frame(kind, id, index, count, epoch, body))
    ensures frame[..] == Serialize(Frame(kind, id, index, count, epoch, body))
  {
    var f := Frame(kind, id, index, count, epoch, body);
    var be := PutBE(id, 8);
    frame := new Byte[HEADER_SIZE + |body|](_ => 0);
    frame[0], frame[1] := MAGIC, kind;
    for i := 0 to 8
      invariant frame[0] == MAGIC && frame[1] == kind
      invariant forall k :: 0 <= k < i ==> frame[2 + k] == be[k]
    {
      frame[2 + i] := be[i];
    }
    frame[10], frame[11], frame[12] := index, count, epoch;
    for i := 0 to |body|
      invariant frame[..HEADER_SIZE] == [MAGIC, kind] + be + [index, count, epoch]
      invariant forall k :: 0 <= k < i ==> frame[HEADER_SIZE + k] == body[k]
    {
      frame[HEADER_SIZE + i] := body[i];
    }
    assert frame[..] == frame[..HEADER_SIZE] + body;
    ParseSerialize(f);
  }

  /** Reference definition: cut size bytes off the front until the rest fits. */
  function Fragments(msg: seq<Byte>, size: nat): (fs: seq<seq<Byte>>)
    requires size > 0
    ensures |fs| >= 1
    ensures forall i :: 0 <= i < |fs| ==> |fs[i]| <= size
    ensures msg != [] ==> forall i :: 0 <= i < |fs| ==> fs[i] != []
  {
    if |msg| <= size then [msg] else [msg[..size]] + Fragments(msg[size..], size)
  }

  lemma {:induction false} FragmentsConcat(msg: seq<Byte>, size: nat)
    requires size > 0
    ensures Concat(Fragments(msg, size)) == msg
  {
    var fs := Fragments(msg, size);
    if |msg| <= size {
      assert fs[1..] == [];
    } else {
      FragmentsConcat(msg[size..], size);
      assert fs[1..] == Fragments(msg[size..], size);
      assert msg == msg[..size] + msg[size..];
    }
  }

  /** How many fragments Send computes by rounding up, with one for the empty message. */
  function FragCount(len: nat, size: nat): nat
    requires size > 0
  {
    var n := (len + size - 1) / size;
    if n == 0 then 1 else n
  }

  lemma DivStep(len: nat, size: nat)
    requires 0 < size <= len
    ensures len / size == (len - size) / size + 1
  {
    var q, r := (len - size) / size, (len - size) % size;
    assert len == size * (q + 1) + r;
    DivUnique(len, size, q + 1, r);
  }

  lemma {:induction false} MulGrows(d: nat, lo: nat, hi: nat)
    requires lo < hi
    ensures d * hi >= d * lo + d
    decreases hi
  {
    assert d * hi == d * (hi - 1) + d;
    if lo < hi - 1 {
      MulGrows(d, lo, hi - 1);
    }
  }

  lemma DivUnique(n: nat, d: nat, q: nat, r: nat)
    requires d > 0 && r < d && n == d * q + r
    ensures n / d == q
  {
    var q' := n / d;
    if q < q' {
      MulGrows(d, q, q');
    } else if q' < q {
      MulGrows(d, q', q);
    }
  }

  lemma {:induction false} FragCountIsLength(msg: seq<Byte>, size: nat)
    requires size > 0
    ensures |Fragments(msg, size)| == FragCount(|msg|, size)
  {
    if |msg| <= size {
      if msg != [] {
        DivUnique(|msg| + size - 1, size, 1, |msg| - 1);
      } else {
        DivUnique(size - 1, size, 0, size - 1);
      }
    } else {
      FragCountIsLength(msg[size..], size);
      DivStep(|msg| + size - 1, size);
      assert (|msg[size..]| + size - 1) / size >= 1 by {
        DivStep(|msg[size..]| + size - 1, size);
      }
    }
  }

  lemma {:induction false} FragmentStep(msg: seq<Byte>, size: nat, i: nat)
    requires size > 0 && i < |Fragments(msg, size)|
    ensures i * size <= |msg|
    ensures Fragments(msg, size)[i] ==
            msg[i * size..if i * size + size < |msg| then i * size + size else |msg|]
  {
    if |msg| > size && i > 0 {
      FragmentStep(msg[size..], size, i - 1);
      assert i * size == (i - 1) * size + size;
    }
  }

  /** Fragment i, sliced at multiples of the fragment size. */
  method WriteFragment(msg: seq<Byte>, size: nat, id: U64, i: Byte, count: Byte, epoch: Byte)
    returns (frame: seq<Byte>)
    requires size > 0 && i < |Fragments(msg, size)|
    ensures |frame| <= HEADER_SIZE + size
    ensures Parse(frame) == Some(Frame(DATA, id, i, count, epoch, Fragments(msg, size)[i]))
  {
    FragmentStep(msg, size, i);
    var start := i * size;
    var end := if start + size < |msg| then start + size else |msg|;
    var buffer := WriteFrame(DATA, id, i, count, epoch, msg[start..end]);
    frame := buffer[..];
  }

  /** Send's write closure: slice the message at multiples of the fragment size. */
  method WriteFragments(msg: seq<Byte>, mtu: nat, id: U64, epoch: Byte)
    returns (sent: Option<seq<seq<Byte>>>)
    requires mtu > HEADER_SIZE
    ensures sent.Some? <==>
            |msg| <= MAX_MESSAGE_SIZE && |Fragments(msg, mtu - HEADER_SIZE)| <= MAX_FRAGMENTS
    ensures sent.Some? ==>
              var fs := Fragments(msg, mtu - HEADER_SIZE);
              && |sent.value| == |fs|
              && forall i :: 0 <= i < |fs| ==>
                   && |sent.value[i]| <= mtu
                   && Parse(sent.value[i]) == Some(Frame(DATA, id, i, |fs|, epoch, fs[i]))
  {
    var size := mtu - HEADER_SIZE;
    FragCountIsLength(msg, size);
    if |msg| > MAX_MESSAGE_SIZE {
      return None;
    }
    var count := FragCount(|msg|, size);
    if count > MAX_FRAGMENTS {
      return None;
    }
    ghost var fs := Fragments(msg, size);
    var out: seq<seq<Byte>> := [];
    for i := 0 to count
      invariant |out| == i
      invariant forall k :: 0 <= k < i ==>
        |out[k]| <= mtu && Parse(out[k]) == Some(Frame(DATA, id, k, count, epoch, fs[k]))
    {
      var frame := WriteFragment(msg, size, id, i, count, epoch);
      out := out + [frame];
    }
    sent := Some(out);
  }
}
