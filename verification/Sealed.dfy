/** Sealed messages: padded inner layout, Seal, Open, and what a relay may check. */
module Sealed {
  import opened Bytes
  import opened Envelope

  const BLOCK := 1024
  const MAX_CONTENT := 63 * BLOCK
  const OVERHEAD := 16
  const HEADER_MIN := 32 + 1 + 4
  const HEADER_MAX := HEADER_MIN + 64
  const PRIVATE_KEY_SIZE := 64

  // What the padded plaintext holds; the signature is absent from a deniable message.
  datatype Inner = Inner(sender: Key32, signature: Option<Sig64>, kind: Byte, content: seq<Byte>)

  datatype Box = Box(ephemeral: Key32, nonce: seq<Byte>, deniable: bool, ciphertext: seq<Byte>)

  datatype Opened = Opened(sender: Key32, kind: Byte, content: seq<Byte>, deniable: bool)

  datatype Failure = BadKey | TooLarge | NoKey | DecryptFailed | Corrupt | BadInnerSignature

  datatype Outcome<+T> = Done(value: T) | Failed(why: Failure)

  // The cryptographic primitives, as functions of their inputs. An Ed25519 private key is 64 bytes.
  datatype Suite = Suite(
    public: seq<Byte> -> Key32, toX: Key32 -> Option<Key32>, toXPrivate: seq<Byte> -> Key32, xPublic: Key32 -> Key32,
    derive: (Key32, Key32) -> Option<Key32>, encrypt: (Key32, seq<Byte>, seq<Byte>) -> seq<Byte>,
    decrypt: (Key32, seq<Byte>, seq<Byte>) -> Option<seq<Byte>>, digest: seq<Byte> -> seq<Byte>,
    sign: (seq<Byte>, seq<Byte>) -> Sig64, verify: (Key32, seq<Byte>, Sig64) -> bool)

  ghost predicate DecryptUndoesEncrypt(s: Suite) {
    forall k, n, p :: s.decrypt(k, n, s.encrypt(k, n, p)) == Some(p) && |s.encrypt(k, n, p)| == |p| + OVERHEAD
  }

  /** Diffie-Hellman commutes, also through the conversion of the recipient's signing key. */
  ghost predicate KeysAgree(s: Suite) {
    forall e, r :: s.toX(s.public(r)).Some? ==>
      s.derive(e, s.toX(s.public(r)).value) == s.derive(s.toXPrivate(r), s.xPublic(e))
  }

  ghost predicate VerifyAcceptsSign(s: Suite) {
    forall k, d :: s.verify(s.public(k), d, s.sign(k, d))
  }

  ghost predicate Lawful(s: Suite) {
    DecryptUndoesEncrypt(s) && KeysAgree(s) && VerifyAcceptsSign(s)
  }

  function HeaderLen(deniable: bool): nat {
    if deniable then HEADER_MIN else HEADER_MAX
  }

  function PaddedLen(n: nat): nat {
    if n == 0 then BLOCK else (n + BLOCK - 1) / BLOCK * BLOCK
  }

  function Header(i: Inner): seq<Byte> {
    i.sender + (if i.signature.Some? then i.signature.value else []) + [i.kind] + PutBE(|i.content|, 4)
  }

  /** The canonical plaintext: header, content, zeros to the next block boundary. */
  function Pack(i: Inner): seq<Byte> {
    var raw := Header(i) + i.content;
    raw + Zeros(PaddedLen(|raw|) - |raw|)
  }

  function Unpack(plain: seq<Byte>, deniable: bool): Option<Inner> {
    if |plain| % BLOCK != 0 || |plain| < HeaderLen(deniable) then None
    else
      var off := HeaderLen(deniable);
      var n := GetBE(plain[off - 4..off]);
      if n > |plain| - off then None
      else if exists i :: off + n <= i < |plain| && plain[i] != 0 then None
      else
        Some(Inner(plain[..32], if deniable then None else Some(plain[32..96]), plain[off - 5], plain[off..off + n]))
  }

  function InnerDigest(s: Suite, recipient: Key32, kind: Byte, content: seq<Byte>): seq<Byte> {
    s.digest(Ascii("gandr-sealed-inner-v1") + recipient + [kind] + content)
  }

  function Ascii(text: string): seq<Byte> {
    seq(|text|, i requires 0 <= i < |text| => (text[i] as int) % 256)
  }

  /** ephemeral and nonce are the random values the sealing draws. */
  function Seal(s: Suite, sender: seq<Byte>, recipient: Key32, kind: Byte, content: seq<Byte>, deniable: bool,
                ephemeral: Key32, nonce: seq<Byte>): Outcome<Box>
  {
    if |sender| != PRIVATE_KEY_SIZE then Failed(BadKey)
    else if |content| > MAX_CONTENT then Failed(TooLarge)
    else if s.toX(recipient).None? then Failed(NoKey)
    else
      var key := s.derive(ephemeral, s.toX(recipient).value);
      if key.None? then Failed(NoKey)
      else
        var signature := if deniable then None else Some(s.sign(sender, InnerDigest(s, recipient, kind, content)));
        var plain := Pack(Inner(s.public(sender), signature, kind, content));
        Done(Box(s.xPublic(ephemeral), nonce, deniable, s.encrypt(key.value, nonce, plain)))
  }

  function Open(s: Suite, recipient: seq<Byte>, box: Box): Outcome<Opened> {
    var key := s.derive(s.toXPrivate(recipient), box.ephemeral);
    if key.None? then Failed(NoKey)
    else
      var plain := s.decrypt(key.value, box.nonce, box.ciphertext);
      if plain.None? then Failed(DecryptFailed)
      else
        match Unpack(plain.value, box.deniable)
        case None => Failed(Corrupt)
        case Some(i) =>
          if i.signature.Some? &&
             !s.verify(i.sender, InnerDigest(s, s.public(recipient), i.kind, i.content), i.signature.value)
          then Failed(BadInnerSignature)
          else Done(Opened(i.sender, i.kind, i.content, box.deniable))
  }

  /** What a relaying node checks of a ciphertext. */
  predicate RelayAccepts(ciphertext: seq<Byte>) {
    var inner := |ciphertext| - OVERHEAD;
    inner >= BLOCK && inner % BLOCK == 0
  }

  lemma PaddedLenIs(n: nat)
    ensures PaddedLen(n) % BLOCK == 0 && PaddedLen(n) >= n && PaddedLen(n) >= BLOCK
    ensures n > 0 ==> PaddedLen(n) < n + BLOCK
  {
    var q, r := (n + BLOCK - 1) / BLOCK, (n + BLOCK - 1) % BLOCK;
    assert n + BLOCK - 1 == q * BLOCK + r;
    assert (q * BLOCK) % BLOCK == 0;
  }

  lemma PaddedLenLeast(n: nat, m: nat)
    requires 0 < n <= m && m % BLOCK == 0
    ensures PaddedLen(n) <= m && (m - PaddedLen(n)) % BLOCK == 0
  {
  }

  lemma HeaderParts(i: Inner)
    ensures var (h, off) := (Header(i), HeaderLen(i.signature.None?));
            && |h| == off && h[..32] == i.sender && h[off - 5] == i.kind && h[off - 4..] == PutBE(|i.content|, 4)
            && (i.signature.Some? ==> h[32..96] == i.signature.value)
  {
  }

  lemma ReadsBack(i: Inner, k: nat)
    requires |i.content| < 0x1_0000_0000
    requires (|Header(i)| + |i.content| + k) % BLOCK == 0
    ensures Unpack(Header(i) + i.content + Zeros(k), i.signature.None?) == Some(i)
  {
    var off, len := HeaderLen(i.signature.None?), |i.content|;
    var plain := Header(i) + i.content + Zeros(k);
    HeaderParts(i);
    Widths();
    GetPutBE(len, 4);
    assert plain[..off] == Header(i);
    assert plain[..32] == Header(i)[..32];
    assert plain[off - 4..off] == Header(i)[off - 4..];
    assert plain[off..off + len] == i.content;
    if i.signature.Some? {
      assert plain[32..96] == Header(i)[32..96];
    }
  }

  /** Whole blocks of zeros after a packing change nothing. */
  lemma UnpackPadded(i: Inner, n: nat)
    requires |i.content| < 0x1_0000_0000 && n % BLOCK == 0
    ensures Unpack(Pack(i) + Zeros(n), i.signature.None?) == Some(i)
  {
    var raw := Header(i) + i.content;
    var k := PaddedLen(|raw|) - |raw|;
    PaddedLenIs(|raw|);
    WholeBlocks(PaddedLen(|raw|), n);
    ReadsBack(i, k + n);
    assert Pack(i) + Zeros(n) == raw + Zeros(k + n);
  }

  lemma WholeBlocks(a: nat, b: nat)
    requires a % BLOCK == 0 && b % BLOCK == 0
    ensures (a + b) % BLOCK == 0
  {
    assert a + b == BLOCK * (a / BLOCK + b / BLOCK);
  }

  lemma UnpackPack(i: Inner)
    requires |i.content| <= MAX_CONTENT
    ensures Unpack(Pack(i), i.signature.None?) == Some(i)
  {
    UnpackPadded(i, 0);
    assert Pack(i) + Zeros(0) == Pack(i);
  }

  /** Any plaintext Open accepts is the canonical packing plus whole blocks of zeros. */
  lemma PackUnpack(plain: seq<Byte>, deniable: bool)
    requires Unpack(plain, deniable).Some?
    ensures var i := Unpack(plain, deniable).value;
            && i.signature.None? == deniable
            && |Pack(i)| <= |plain| && (|plain| - |Pack(i)|) % BLOCK == 0
            && plain == Pack(i) + Zeros(|plain| - |Pack(i)|)
  {
    var i := Unpack(plain, deniable).value;
    var off, n := HeaderLen(deniable), |i.content|;
    PutGetBE(plain[off - 4..off]);
    HeaderIs(plain, deniable, i);
    PackIs(plain, i, off, n);
  }

  /** A plaintext of whole blocks that is header, content and zeros is the packing and whole zero blocks. */
  lemma PackIs(plain: seq<Byte>, i: Inner, off: nat, n: nat)
    requires 0 < off && off + n <= |plain| && |plain| % BLOCK == 0
    requires Header(i) == plain[..off] && i.content == plain[off..off + n]
    requires forall k :: off + n <= k < |plain| ==> plain[k] == 0
    ensures |Pack(i)| <= |plain| && (|plain| - |Pack(i)|) % BLOCK == 0
    ensures plain == Pack(i) + Zeros(|plain| - |Pack(i)|)
  {
    PaddedLenIs(off + n);
    PaddedLenLeast(off + n, |plain|);
    assert plain[..off] + plain[off..off + n] == plain[..off + n];
    ZeroTail(plain, off + n, PaddedLen(off + n));
  }

  lemma ZeroTail(plain: seq<Byte>, n: nat, padded: nat)
    requires n <= padded <= |plain| && forall i :: n <= i < |plain| ==> plain[i] == 0
    ensures plain == (plain[..n] + Zeros(padded - n)) + Zeros(|plain| - padded)
  {
  }

  lemma HeaderIs(plain: seq<Byte>, deniable: bool, i: Inner)
    requires |plain| >= HeaderLen(deniable)
    requires i.sender == plain[..32] && i.signature == if deniable then None else Some(plain[32..96])
    requires i.kind == plain[HeaderLen(deniable) - 5]
    requires PutBE(|i.content|, 4) == plain[HeaderLen(deniable) - 4..HeaderLen(deniable)]
    ensures Header(i) == plain[..HeaderLen(deniable)]
  {
    var off := HeaderLen(deniable);
    if deniable {
      assert plain[..off] == plain[..32] + [plain[off - 5]] + plain[off - 4..off];
    } else {
      assert plain[..off] == plain[..32] + plain[32..96] + [plain[off - 5]] + plain[off - 4..off];
    }
  }

  /** Opening what was sealed returns exactly the sender, type, content and deniable flag. */
  lemma OpenSeal(s: Suite, sender: seq<Byte>, recipient: seq<Byte>, kind: Byte, content: seq<Byte>, deniable: bool,
                 ephemeral: Key32, nonce: seq<Byte>)
    requires Lawful(s)
    requires Seal(s, sender, s.public(recipient), kind, content, deniable, ephemeral, nonce).Done?
    ensures var box := Seal(s, sender, s.public(recipient), kind, content, deniable, ephemeral, nonce).value;
            Open(s, recipient, box) == Done(Opened(s.public(sender), kind, content, deniable))
  {
    var d := InnerDigest(s, s.public(recipient), kind, content);
    var signature := if deniable then None else Some(s.sign(sender, d));
    UnpackPack(Inner(s.public(sender), signature, kind, content));
    assert s.verify(s.public(sender), d, s.sign(sender, d));
  }

  // ----- exactly what is sealed and what is opened

  /** Seal refuses exactly a sender key that is not 64 bytes, more than 63 KiB, and keys that do not convert. */
  lemma SealIff(s: Suite, sender: seq<Byte>, recipient: Key32, kind: Byte, content: seq<Byte>, deniable: bool,
                ephemeral: Key32, nonce: seq<Byte>)
    ensures Seal(s, sender, recipient, kind, content, deniable, ephemeral, nonce).Done? <==>
            && |sender| == 64 && |content| <= 63 * 1024
            && s.toX(recipient).Some? && s.derive(ephemeral, s.toX(recipient).value).Some?
  {
  }

  /** The plaintext is a packing of these, followed by whole zero blocks. */
  ghost predicate Packs(plain: seq<Byte>, i: Inner) {
    exists n: nat :: plain == Pack(i) + Zeros(n) && n % 1024 == 0
  }

  /** A plaintext unpacks to something exactly when it is its packing and whole zero blocks. */
  lemma UnpackIff(plain: seq<Byte>, deniable: bool, i: Inner)
    requires |i.content| < 0x1_0000_0000
    ensures Unpack(plain, deniable) == Some(i) <==> i.signature.None? == deniable && Packs(plain, i)
  {
    if Unpack(plain, deniable) == Some(i) {
      PackUnpack(plain, deniable);
    }
    if i.signature.None? == deniable && Packs(plain, i) {
      var n: nat :| plain == Pack(i) + Zeros(n) && n % 1024 == 0;
      UnpackPadded(i, n);
    }
  }

  /** The signature is the sender's, over the tag, the recipient, the type and the content. */
  predicate Signed(s: Suite, recipient: Key32, i: Inner)
    requires i.signature.Some?
  {
    s.verify(i.sender, s.digest(Ascii("gandr-sealed-inner-v1") + recipient + [i.kind] + i.content), i.signature.value)
  }

  /** The box decrypts, under the key derived for it, to a packing of these and whole zero blocks. */
  ghost predicate Holds(s: Suite, recipient: seq<Byte>, box: Box, i: Inner) {
    var key := s.derive(s.toXPrivate(recipient), box.ephemeral);
    && key.Some? && s.decrypt(key.value, box.nonce, box.ciphertext).Some?
    && Packs(s.decrypt(key.value, box.nonce, box.ciphertext).value, i) && i.signature.None? == box.deniable
    && |i.content| < 0x1_0000_0000
  }

  predicate Carries(i: Inner, m: Opened) {
    i.sender == m.sender && i.kind == m.kind && i.content == m.content
  }

  /** Open returns a message exactly when the box holds it and it is deniable or signed by its sender. */
  lemma OpenIff(s: Suite, recipient: seq<Byte>, box: Box, m: Opened)
    ensures Open(s, recipient, box) == Done(m) <==>
            && m.deniable == box.deniable
            && exists i :: Holds(s, recipient, box, i) && Carries(i, m) &&
                           (i.signature.Some? ==> Signed(s, s.public(recipient), i))
  {
    var key := s.derive(s.toXPrivate(recipient), box.ephemeral);
    if key.Some? && s.decrypt(key.value, box.nonce, box.ciphertext).Some? {
      UnpacksHeld(s, recipient, box);
    }
  }

  /** A box holds exactly what its plaintext unpacks to. */
  lemma UnpacksHeld(s: Suite, recipient: seq<Byte>, box: Box)
    requires var key := s.derive(s.toXPrivate(recipient), box.ephemeral);
             key.Some? && s.decrypt(key.value, box.nonce, box.ciphertext).Some?
    ensures var key := s.derive(s.toXPrivate(recipient), box.ephemeral).value;
            var plain := s.decrypt(key, box.nonce, box.ciphertext).value;
            forall i :: Holds(s, recipient, box, i) <==> Unpack(plain, box.deniable) == Some(i)
  {
    var plain := s.decrypt(s.derive(s.toXPrivate(recipient), box.ephemeral).value, box.nonce, box.ciphertext).value;
    if Unpack(plain, box.deniable).Some? {
      UnpackedShort(plain, box.deniable);
      UnpackIff(plain, box.deniable, Unpack(plain, box.deniable).value);
    }
    forall i | Holds(s, recipient, box, i)
      ensures Unpack(plain, box.deniable) == Some(i)
    {
      UnpackIff(plain, box.deniable, i);
    }
  }

  /** It refuses for the signature exactly when the box is whole but not signed by the sender it names. */
  lemma SignatureRefusedIff(s: Suite, recipient: seq<Byte>, box: Box)
    ensures Open(s, recipient, box) == Failed(BadInnerSignature) <==>
            exists i :: Holds(s, recipient, box, i) && i.signature.Some? && !Signed(s, s.public(recipient), i)
  {
    var key := s.derive(s.toXPrivate(recipient), box.ephemeral);
    if key.Some? && s.decrypt(key.value, box.nonce, box.ciphertext).Some? {
      UnpacksHeld(s, recipient, box);
    }
  }

  lemma UnpackedShort(plain: seq<Byte>, deniable: bool)
    requires Unpack(plain, deniable).Some?
    ensures |Unpack(plain, deniable).value.content| < 0x1_0000_0000
  {
    Widths();
  }

  /** A ciphertext's length tells only the block bucket, and a relay accepts it. */
  lemma LengthHidesContent(s: Suite, sender: seq<Byte>, recipient: Key32, kind: Byte, content: seq<Byte>,
                           deniable: bool, ephemeral: Key32, nonce: seq<Byte>)
    requires Lawful(s)
    requires Seal(s, sender, recipient, kind, content, deniable, ephemeral, nonce).Done?
    ensures var box := Seal(s, sender, recipient, kind, content, deniable, ephemeral, nonce).value;
            && |box.ciphertext| == (HeaderLen(deniable) + |content| + BLOCK - 1) / BLOCK * BLOCK + OVERHEAD
            && RelayAccepts(box.ciphertext)
  {
    var signature := if deniable then None else Some(s.sign(sender, InnerDigest(s, recipient, kind, content)));
    var i := Inner(s.public(sender), signature, kind, content);
    assert |Header(i)| == HeaderLen(deniable);
    PaddedLenIs(HeaderLen(deniable) + |content|);
  }

  // ----- the buffers as the program fills and scans them

  /** A zero-filled buffer of this size after done has been copied to its front. */
  ghost predicate Filled(buffer: seq<Byte>, done: seq<Byte>) {
    |done| <= |buffer| && buffer == done + Zeros(|buffer| - |done|)
  }

  method Copy(dst: array<Byte>, off: nat, src: seq<Byte>, ghost done: seq<Byte>) returns (end: nat)
    requires off == |done| && off + |src| <= dst.Length && Filled(dst[..], done)
    modifies dst
    ensures end == off + |src| && Filled(dst[..], done + src)
  {
    for i := 0 to |src|
      invariant Filled(dst[..], done + src[..i])
    {
      dst[off + i] := src[i];
      assert done + src[..i + 1] == done + src[..i] + [src[i]];
      assert dst[..] == done + src[..i + 1] + Zeros(dst.Length - (off + i + 1));
    }
    assert src[..|src|] == src;
    end := off + |src|;
  }

  method FillPlain(i: Inner) returns (plain: array<Byte>)
    ensures fresh(plain) && plain[..] == Pack(i)
  {
    var n := HeaderLen(i.signature.None?) + |i.content|;
    PaddedLenIs(n);
    plain := new Byte[PaddedLen(n)](_ => 0);
    assert plain[..] == [] + Zeros(plain.Length);
    var off := Copy(plain, 0, i.sender, []);
    ghost var done := [] + i.sender;
    if i.signature.Some? {
      off := Copy(plain, off, i.signature.value, done);
      done := done + i.signature.value;
    }
    off := Copy(plain, off, [i.kind], done);
    done := done + [i.kind];
    off := Copy(plain, off, PutBE(|i.content|, 4), done);
    done := done + PutBE(|i.content|, 4);
    assert done == Header(i);
    off := Copy(plain, off, i.content, done);
  }

  method ScanPlain(plain: seq<Byte>, deniable: bool) returns (inner: Option<Inner>)
    ensures inner == Unpack(plain, deniable)
  {
    if |plain| % BLOCK != 0 || |plain| < HeaderLen(deniable) {
      return None;
    }
    var off := HeaderLen(deniable);
    var n := GetBE(plain[off - 4..off]);
    if n > |plain| - off {
      return None;
    }
    for i := off + n to |plain|
      invariant forall k :: off + n <= k < i ==> plain[k] == 0
    {
      if plain[i] != 0 {
        return None;
      }
    }
    var signature := if deniable then None else Some(plain[32..96]);
    inner := Some(Inner(plain[..32], signature, plain[off - 5], plain[off..off + n]));
  }
}
