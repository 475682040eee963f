/** Frames on the daemon socket. */
module IpcFrame {
  import opened Bytes

  const MAGIC: Byte := 0x49
  const HEADER_SIZE := 10
  const MAX_FRAME_PAYLOAD := 1024 * 1024

  datatype Frame = Frame(kind: Byte, id: U32, payload: seq<Byte>)

  datatype ReadError = ShortRead | BadFrame | FrameTooBig

  datatype ReadResult = Got(frame: Frame, rest: seq<Byte>) | Refused(error: ReadError)

  predicate Fits(f: Frame) {
    |f.payload| <= MAX_FRAME_PAYLOAD
  }

  function Wire(f: Frame): seq<Byte> {
    [MAGIC, f.kind] + PutBE(f.id, 4) + PutBE(|f.payload|, 4) + f.payload
  }

  function WireAll(fs: seq<Frame>): seq<Byte> {
    if fs == [] then [] else Wire(fs[0]) + WireAll(fs[1..])
  }

  function Read(s: seq<Byte>): ReadResult {
    if |s| < HEADER_SIZE then Refused(ShortRead)
    else if s[0] != MAGIC then Refused(BadFrame)
    else
      Widths();
      var n := GetBE(s[6..10]);
      if n > MAX_FRAME_PAYLOAD then Refused(FrameTooBig)
      else if |s| < HEADER_SIZE + n then Refused(ShortRead)
      else Got(Frame(s[1], GetBE(s[2..6]), s[HEADER_SIZE..HEADER_SIZE + n]), s[HEADER_SIZE + n..])
  }

  /** Read until a frame is refused. */
  function ReadAll(s: seq<Byte>): (seq<Frame>, ReadError)
    decreases |s|
  {
    match Read(s)
    case Refused(e) => ([], e)
    case Got(f, rest) => var (fs, e) := ReadAll(rest); ([f] + fs, e)
  }

  lemma ReadWire(f: Frame, rest: seq<Byte>)
    requires Fits(f)
    ensures Read(Wire(f) + rest) == Got(f, rest)
  {
    Widths();
    GetPutBE(f.id, 4);
    GetPutBE(|f.payload|, 4);
    var s := Wire(f) + rest;
    assert s[2..6] == PutBE(f.id, 4);
    assert s[6..10] == PutBE(|f.payload|, 4);
    assert s[HEADER_SIZE..HEADER_SIZE + |f.payload|] == f.payload;
    assert s[HEADER_SIZE + |f.payload|..] == rest;
  }

  /** Whatever is read was written that way: the bytes consumed are the frame's own encoding. */
  lemma WireRead(s: seq<Byte>)
    requires Read(s).Got?
    ensures Fits(Read(s).frame) && Wire(Read(s).frame) + Read(s).rest == s
  {
    var n := |Read(s).frame.payload|;
    PutGetBE(s[2..6]);
    PutGetBE(s[6..10]);
    assert s == [s[0], s[1]] + s[2..6] + s[6..10] + s[HEADER_SIZE..HEADER_SIZE + n] + s[HEADER_SIZE + n..];
  }

  /** A frame's place on the wire, and which bytes are refused and why. */
  lemma ReadIff(s: seq<Byte>)
    ensures var n := if |s| >= 10 then GetBE(s[6..10]) else 0;
            match Read(s)
            case Got(f, rest) =>
              && |s| >= 10 + n && s[0] == 0x49 && n <= 1024 * 1024 && s[1] == f.kind && GetBE(s[2..6]) == f.id
              && s[10..10 + n] == f.payload && s[10 + n..] == rest
            case Refused(BadFrame) => |s| >= 10 && s[0] != 0x49
            case Refused(FrameTooBig) => |s| >= 10 && s[0] == 0x49 && n > 1024 * 1024
            case Refused(ShortRead) => |s| < 10 || (s[0] == 0x49 && n <= 1024 * 1024 && |s| < 10 + n)
  {
  }

  /** Reading the concatenation of any written frames yields the same frames in order. */
  lemma {:induction false} ReadAllWireAll(fs: seq<Frame>)
    requires forall i :: 0 <= i < |fs| ==> Fits(fs[i])
    ensures ReadAll(WireAll(fs)) == (fs, ShortRead)
  {
    if fs != [] {
      ReadWire(fs[0], WireAll(fs[1..]));
      ReadAllWireAll(fs[1..]);
      assert fs == [fs[0]] + fs[1..];
    }
  }

  /** The socket: bytes written so far and how many of them have been read. */
  class Stream {
    var data: seq<Byte>
    var pos: nat

    ghost predicate Valid()
      reads this
    {
      pos <= |data|
    }

    constructor ()
      ensures Valid() && data == [] && pos == 0
    {
      data, pos := [], 0;
    }

    method Write(b: seq<Byte>)
      requires Valid()
      modifies this`data
      ensures Valid() && data == old(data) + b
    {
      data := data + b;
    }

    method ReadFull(n: nat) returns (b: Option<seq<Byte>>)
      requires Valid()
      modifies this`pos
      ensures Valid()
      ensures if |data| - old(pos) < n then b.None? && pos == |data|
              else b == Some(data[old(pos)..old(pos) + n]) && pos == old(pos) + n
    {
      if |data| - pos < n {
        pos := |data|;
        return None;
      }
      b := Some(data[pos..pos + n]);
      pos := pos + n;
    }

    method WriteFrame(f: Frame) returns (ok: bool)
      requires Valid()
      modifies this`data
      ensures Valid() && ok == Fits(f)
      ensures data == old(data) + if ok then Wire(f) else []
    {
      if |f.payload| > MAX_FRAME_PAYLOAD {
        return false;
      }
      var hdr := [MAGIC, f.kind] + PutBE(f.id, 4) + PutBE(|f.payload|, 4);
      Write(hdr);
      if |f.payload| > 0 {
        Write(f.payload);
      }
      assert Wire(f) == hdr + f.payload;
      ok := true;
    }

    method ReadFrame() returns (r: Option<Frame>)
      requires Valid()
      modifies this`pos
      ensures Valid()
      ensures match Read(data[old(pos)..])
              case Got(f, rest) => r == Some(f) && data[pos..] == rest
              case Refused(_) => r.None?
    {
      ghost var s := data[pos..];
      var hdr := ReadFull(HEADER_SIZE);
      if hdr.None? || hdr.value[0] != MAGIC {
        return None;
      }
      assert hdr.value == s[..HEADER_SIZE];
      assert hdr.value[2..6] == s[2..6] && hdr.value[6..10] == s[6..10];
      Widths();
      var n := GetBE(hdr.value[6..10]);
      if n > MAX_FRAME_PAYLOAD {
        return None;
      }
      var payload := ReadFull(n);
      if payload.None? {
        return None;
      }
      assert payload.value == s[HEADER_SIZE..HEADER_SIZE + n];
      r := Some(Frame(hdr.value[1], GetBE(hdr.value[2..6]), payload.value));
    }
  }
}
