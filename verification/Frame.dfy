/** One WebSocket frame: its header on the wire, its length fields and its mask (Frame.go, FrameOpcode.go). */
module Frames {
  import opened Bytes

  const OPCODE_CONTINUATION: byte := 0x0
  const OPCODE_TEXT: byte := 0x1
  const OPCODE_BINARY: byte := 0x2
  const OPCODE_CLOSE: byte := 0x8
  const OPCODE_PING: byte := 0x9
  const OPCODE_PONG: byte := 0xA

  predicate IsControl(opcode: byte) {
    opcode == OPCODE_CLOSE || opcode == OPCODE_PING || opcode == OPCODE_PONG
  }

  predicate IsData(opcode: byte) {
    opcode == OPCODE_CONTINUATION || opcode == OPCODE_TEXT || opcode == OPCODE_BINARY
  }

  const MAX_CONTROL_PAYLOAD: nat := 125

  /** A frame as a value. `payload` is always unmasked. */
  datatype Frame = Frame(
    fin: bool, rsv1: bool, rsv2: bool, rsv3: bool, opcode: byte, mask: bool,
    payloadLength: byte, extendedLength: uint64, maskingKey: Key, payload: seq<byte>)

  /** The length the header declares. */
  function DeclaredLength(f: Frame): uint64 {
    if f.payloadLength == 127 || f.payloadLength == 126 then f.extendedLength else f.payloadLength
  }

  function ExtendedWidth(payloadLength: byte): nat {
    if payloadLength == 126 then 2 else if payloadLength == 127 then 8 else 0
  }

  function HeaderSize(f: Frame): nat {
    2 + ExtendedWidth(f.payloadLength) + if f.mask then 4 else 0
  }

  function Bit(b: bool): nat {
    if b then 1 else 0
  }

  function FirstByte(f: Frame): byte {
    128 * Bit(f.fin) + 64 * Bit(f.rsv1) + 32 * Bit(f.rsv2) + 16 * Bit(f.rsv3) + f.opcode % 16
  }

  /** The MASK bit or-ed into the seven bit length. */
  function SecondByte(f: Frame): byte {
    if f.mask && f.payloadLength < 128 then 128 + f.payloadLength else f.payloadLength
  }

  function SealedHeader(f: Frame): (s: seq<byte>)
    ensures |s| == HeaderSize(f)
  {
    [FirstByte(f), SecondByte(f)]
    + BigEndian(f.extendedLength, ExtendedWidth(f.payloadLength))
    + if f.mask then f.maskingKey else []
  }

  /** Byte-at-a-time masking: what the word-at-a-time loop has to agree with. */
  function Masked(payload: seq<byte>, key: Key): (s: seq<byte>)
    ensures |s| == |payload|
  {
    seq(|payload|, i requires 0 <= i < |payload| => XorByte(payload[i], key[i % 4]))
  }

  function Body(f: Frame): seq<byte> {
    if f.mask then Masked(f.payload, f.maskingKey) else f.payload
  }

  /** The bytes of f on the wire. */
  function Wire(f: Frame): (s: seq<byte>)
    ensures |s| == HeaderSize(f) + |f.payload|
  {
    SealedHeader(f) + Body(f)
  }

  function Wires(fs: seq<Frame>): seq<seq<byte>> {
    seq(|fs|, i requires 0 <= i < |fs| => Wire(fs[i]))
  }

  /** The bytes of frames sent back to back. */
  function WireAll(fs: seq<Frame>): seq<byte> {
    Flatten(Wires(fs))
  }

  /** The length fields RFC 6455 section 5.2 asks for. */
  function FillLength(f: Frame): Frame
    requires |f.payload| < TWO_TO_64
  {
    if |f.payload| <= 125 then f.(payloadLength := |f.payload|, extendedLength := 0)
    else if |f.payload| <= 65535 then f.(payloadLength := 126, extendedLength := |f.payload|)
    else f.(payloadLength := 127, extendedLength := |f.payload|)
  }

  /** Ready to go on the wire: lengths settled, and no stray key on an unmasked frame. */
  predicate Sealed(f: Frame) {
    && |f.payload| < TWO_TO_64
    && f == FillLength(f)
    && (!f.mask ==> f.maskingKey == ZERO_KEY)
  }

  lemma WireAllAppend(fs: seq<Frame>, gs: seq<Frame>)
    ensures WireAll(fs + gs) == WireAll(fs) + WireAll(gs)
  {
    assert Wires(fs + gs) == Wires(fs) + Wires(gs);
    FlattenAppend(Wires(fs), Wires(gs));
  }

  lemma WireAllCons(f: Frame, fs: seq<Frame>)
    ensures WireAll([f] + fs) == Wire(f) + WireAll(fs)
  {
    assert Wires([f] + fs)[1..] == Wires(fs);
  }

  lemma WireAllSnoc(fs: seq<Frame>, f: Frame)
    ensures WireAll(fs + [f]) == WireAll(fs) + Wire(f)
  {
    WireAllAppend(fs, [f]);
    assert Wires([f]) == [Wire(f)];
    FlattenOne(Wire(f));
  }

  // ----- masking

  lemma MaskTwice(payload: seq<byte>, key: Key)
    ensures Masked(Masked(payload, key), key) == payload
  {
    forall i | 0 <= i < |payload| ensures Masked(Masked(payload, key), key)[i] == payload[i] {
      XorTwice(payload[i], key[i % 4]);
    }
  }

  lemma KeyPhase(i: nat, q: nat)
    ensures (4 * q + i) % 4 == i % 4
  {}

  lemma MaskWholeKeys(a: seq<byte>, b: seq<byte>, key: Key)
    requires |a| % 4 == 0
    ensures Masked(a + b, key) == Masked(a, key) + Masked(b, key)
  {
    hide XorByte;
    var q := |a| / 4;
    forall i | 0 <= i < |a + b|
      ensures Masked(a + b, key)[i] == (Masked(a, key) + Masked(b, key))[i]
    {
      if |a| <= i {
        KeyPhase(i - |a|, q);
      }
    }
  }

  /**
   Masking piece by piece agrees with masking at once, whatever the key, exactly when the cut falls on a whole key.
   */
  lemma MaskSplitsExactlyOnWholeKeys(a: seq<byte>, b: seq<byte>)
    ensures (forall key: Key :: Masked(a + b, key) == Masked(a, key) + Masked(b, key))
            <==> |a| % 4 == 0 || b == []
  {
    if |a| % 4 == 0 {
      forall key: Key ensures Masked(a + b, key) == Masked(a, key) + Masked(b, key) {
        MaskWholeKeys(a, b, key);
      }
    } else if b == [] {
      assert a + b == a;
      forall key: Key ensures Masked(a + b, key) == Masked(a, key) + Masked(b, key) {
        assert Masked(b, key) == [];
      }
    } else {
      var key: Key := [1, 0, 0, 0];
      assert Masked(a + b, key)[|a|] == XorByte(b[0], 0);
      assert (Masked(a, key) + Masked(b, key))[|a|] == XorByte(b[0], 1);
      XorOneDiffers(b[0]);
    }
  }

  const TWO_TO_32: nat := 0x1_0000_0000

  /** The key as a little endian word, repeated to fill 64 bits. */
  function KeyWord(key: Key): nat {
    FromLittleEndian(key) + TWO_TO_32 * FromLittleEndian(key)
  }

  lemma {:induction false} KeyWordIsKeyTwice(key: Key)
    ensures KeyWord(key) == FromLittleEndian(key + key)
  {
    var t := FromLittleEndian(key);
    assert FromLittleEndian(key[3..] + key) == key[3] + 256 * t by {
      assert (key[3..] + key)[1..] == key;
    }
    assert FromLittleEndian(key[2..] + key) == key[2] + 256 * FromLittleEndian(key[3..] + key) by {
      assert (key[2..] + key)[1..] == key[3..] + key;
    }
    assert FromLittleEndian(key[1..] + key) == key[1] + 256 * FromLittleEndian(key[2..] + key) by {
      assert (key[1..] + key)[1..] == key[2..] + key;
    }
    assert FromLittleEndian(key + key) == key[0] + 256 * FromLittleEndian(key[1..] + key) by {
      assert (key + key)[1..] == key[1..] + key;
    }
    assert t == key[0] + 256 * FromLittleEndian(key[1..]);
    assert FromLittleEndian(key[1..]) == key[1] + 256 * FromLittleEndian(key[2..]);
    assert FromLittleEndian(key[2..]) == key[2] + 256 * FromLittleEndian(key[3..]);
    assert FromLittleEndian(key[3..]) == key[3] + 256 * FromLittleEndian(key[4..]);
  }

  /** One word xored with the key word is eight bytes masked from key[0]. */
  lemma {:induction false} WordMask(word: seq<byte>, key: Key)
    requires |word| == 8
    ensures LittleEndian(Xor(FromLittleEndian(word), KeyWord(key)), 8) == Masked(word, key)
  {
    hide Xor;
    var masked := XorBytes(word, key + key);
    assert Xor(FromLittleEndian(word), KeyWord(key)) == FromLittleEndian(masked) by {
      KeyWordIsKeyTwice(key);
      XorWords(word, key + key);
    }
    LittleEndianRoundTrip(masked);
    forall i | 0 <= i < 8 ensures masked[i] == Masked(word, key)[i] {
      XorBytesAt(word, key + key, i);
    }
  }

  method PutBytes(a: array<byte>, at: nat, s: seq<byte>)
    requires at + |s| <= a.Length
    modifies a
    ensures a[..] == old(a[..at]) + s + old(a[at + |s|..])
  {
    for i := 0 to |s|
      invariant a[..] == old(a[..at]) + s[..i] + old(a[at + i..])
    {
      a[at + i] := s[i];
    }
  }

  /** s with its bytes from lo to hi masked, starting on key[0]. */
  function Patched(s: seq<byte>, lo: nat, hi: nat, key: Key): (r: seq<byte>)
    requires lo <= hi <= |s|
    ensures |r| == |s|
  {
    s[..lo] + Masked(s[lo..hi], key) + s[hi..]
  }

  lemma PatchedAt(s: seq<byte>, lo: nat, hi: nat, key: Key, j: nat)
    requires lo <= hi <= |s| && j < |s|
    ensures Patched(s, lo, hi, key)[j] == if lo <= j < hi then XorByte(s[j], key[(j - lo) % 4]) else s[j]
  {}

  lemma PatchedNothing(s: seq<byte>, lo: nat, key: Key)
    requires lo <= |s|
    ensures Patched(s, lo, lo, key) == s
  {}

  /** Whole keys later, masking goes on as if it had never stopped. */
  lemma PatchedInPieces(s: seq<byte>, lo: nat, q: nat, hi: nat, key: Key)
    requires lo + 4 * q <= hi <= |s|
    ensures Patched(Patched(s, lo, lo + 4 * q, key), lo + 4 * q, hi, key) == Patched(s, lo, hi, key)
  {
    hide *;
    var at := lo + 4 * q;
    var first := Patched(s, lo, at, key);
    forall j | 0 <= j < |s| ensures Patched(first, at, hi, key)[j] == Patched(s, lo, hi, key)[j] {
      PatchedAt(first, at, hi, key, j);
      PatchedAt(s, lo, at, key, j);
      PatchedAt(s, lo, hi, key, j);
      if at <= j {
        KeyPhase(j - at, q);
      }
    }
  }

  /** One round of the word loop: eight bytes read as a word, masked and written back. */
  method MaskWord(a: array<byte>, at: nat, key: Key)
    requires at + 8 <= a.Length
    modifies a
    ensures a[..] == Patched(old(a[..]), at, at + 8, key)
  {
    ghost var s := a[..];
    assert s[at..at + 8] == a[at..at + 8];
    var masked := Xor(FromLittleEndian(a[at..at + 8]), KeyWord(key));
    WordMask(a[at..at + 8], key);
    PutBytes(a, at, LittleEndian(masked, 8));
  }

  method MaskTail(a: array<byte>, at: nat, hi: nat, key: Key)
    requires at <= hi <= a.Length
    modifies a
    ensures a[..] == Patched(old(a[..]), at, hi, key)
  {
    for i := 0 to hi - at
      invariant forall j | 0 <= j < a.Length && !(at <= j < at + i) :: a[j] == old(a[j])
      invariant forall j | at <= j < at + i :: a[j] == XorByte(old(a[j]), key[(j - at) % 4])
    {
      a[at + i] := XorByte(a[at + i], key[i % 4]);
    }
  }

  /** Masks a[lo..hi] in place, eight bytes at a time and then the tail. */
  method MaskPayload(a: array<byte>, lo: nat, hi: nat, maskingKey: Key)
    requires lo <= hi <= a.Length
    modifies a
    ensures a[..] == Patched(old(a[..]), lo, hi, maskingKey)
  {
    hide Patched;
    ghost var s, rounds := a[..], 0;
    PatchedNothing(s, lo, maskingKey);
    var at := lo;
    while hi - at >= 8
      invariant at == lo + 8 * rounds && at <= hi
      invariant a[..] == Patched(s, lo, at, maskingKey)
    {
      MaskWord(a, at, maskingKey);
      PatchedInPieces(s, lo, 2 * rounds, at + 8, maskingKey);
      at, rounds := at + 8, rounds + 1;
    }
    MaskTail(a, at, hi, maskingKey);
    PatchedInPieces(s, lo, 2 * rounds, hi, maskingKey);
  }

  // ----- the mutable frame

  function NewFrame(opcode: byte, fin: bool, payload: seq<byte>): Frame {
    Frame(fin, false, false, false, opcode, false, 0, 0, ZERO_KEY, payload)
  }

  /** A frame as senders and the reader hold it, settled in place. Its payload is the slice data[from..to]. */
  class FrameRef {
    var fin: bool
    var rsv1: bool
    var rsv2: bool
    var rsv3: bool
    var opcode: byte
    var mask: bool
    var payloadLength: byte
    var extendedLength: uint64
    var maskingKey: Key
    var data: array<byte>
    var from: nat
    var to: nat

    predicate Valid()
      reads this
    {
      from <= to <= data.Length && to - from < TWO_TO_64
    }

    function Value(): Frame
      requires Valid()
      reads this, data
    {
      Frame(fin, rsv1, rsv2, rsv3, opcode, mask, payloadLength, extendedLength, maskingKey, data[from..to])
    }

    /** A frame whose payload is a slice of data, as NewFrame makes it. */
    constructor (opcode: byte, fin: bool, data: array<byte>, from: nat, to: nat)
      requires from <= to <= data.Length && to - from < TWO_TO_64
      ensures Valid() && this.data == data && this.from == from && this.to == to
      ensures Value() == NewFrame(opcode, fin, data[from..to])
    {
      this.opcode, this.fin := opcode, fin;
      this.rsv1, this.rsv2, this.rsv3 := false, false, false;
      this.mask, this.payloadLength, this.extendedLength, this.maskingKey := false, 0, 0, ZERO_KEY;
      this.data, this.from, this.to := data, from, to;
    }

    method FillPayloadLength()
      requires Valid()
      modifies this`payloadLength, this`extendedLength
      ensures Valid()
      ensures Value() == FillLength(old(Value()))
    {
      var dataLength := to - from;
      if dataLength <= 125 {
        payloadLength, extendedLength := dataLength, 0;
      } else if dataLength <= 65535 {
        payloadLength, extendedLength := 126, dataLength;
      } else {
        payloadLength, extendedLength := 127, dataLength;
      }
    }

    /** The header's bytes, part after part. */
    method SealHeader() returns (header: seq<byte>)
      requires Valid()
      ensures header == SealedHeader(Value())
    {
      header := [FirstByte(Value()), SecondByte(Value())];
      if payloadLength == 126 {
        header := header + BigEndian(extendedLength, 2);
      } else if payloadLength == 127 {
        header := header + BigEndian(extendedLength, 8);
      }
      if mask {
        header := header + maskingKey;
      }
    }

    /** The header follows buffer[..at]: in the buffer itself if it has room, else in a copy that does. */
    method AppendSealedHeader(buffer: array<byte>, at: nat) returns (out: array<byte>, end: nat)
      requires Valid() && buffer != data && at <= buffer.Length
      modifies buffer
      ensures end == at + HeaderSize(Value()) <= out.Length
      ensures out[..end] == old(buffer[..at]) + SealedHeader(Value())
      ensures if at + HeaderSize(Value()) <= buffer.Length then out == buffer && buffer[end..] == old(buffer[end..])
              else fresh(out) && buffer[..] == old(buffer[..])
    {
      var header := SealHeader();
      hide SealedHeader, HeaderSize;
      out, end := buffer, at + |header|;
      if end > buffer.Length {
        out := new byte[end](_ => 0);
        PutBytes(out, 0, buffer[..at]);
      }
      PutBytes(out, at, header);
    }
  }
}
