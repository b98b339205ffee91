/** Reading frames back off a byte stream (FrameRead.go), and the codec laws that tie reading to sealing. */
module FrameReading {
  import opened Bytes
  import opened Frames

  datatype ReadResult =
    | ReadOk(frame: Frame, rest: seq<byte>)
    | ReadTooLong(rest: seq<byte>)
    | ReadShort

  /** Extended length and masking key: what follows the first two bytes. */
  function RestHeaderLength(second: byte): nat {
    ExtendedWidth(second % 128) + if second / 128 == 1 then 4 else 0
  }

  function ExtendedLength(s: seq<byte>): uint64
    requires |s| == 0 || |s| == 2 || |s| == 8
  {
    FromBigEndianRoundTrip(s);
    Widths();
    FromBigEndian(s)
  }

  predicate HasHeader(s: seq<byte>) {
    |s| >= 2 && |s| >= 2 + RestHeaderLength(s[1])
  }

  /** What the first two bytes say. */
  function FirstTwo(first: byte, second: byte): Frame {
    Frame(first / 128 == 1, first / 64 % 2 == 1, first / 32 % 2 == 1, first / 16 % 2 == 1, first % 16,
          second / 128 == 1, second % 128, 0, ZERO_KEY, [])
  }

  /** The frame with the header fields that follow the first two bytes, if it has them. */
  function WithRest(f: Frame, rest: seq<byte>): Frame
    requires |rest| >= HeaderSize(f) - 2
  {
    var width := ExtendedWidth(f.payloadLength);
    f.(extendedLength := if width > 0 then ExtendedLength(rest[..width]) else f.extendedLength,
       maskingKey := if f.mask then rest[width..width + 4] else f.maskingKey)
  }

  function ReadHeader(s: seq<byte>): (f: Frame)
    requires HasHeader(s)
    ensures HeaderSize(f) == 2 + RestHeaderLength(s[1]) <= |s|
  {
    WithRest(FirstTwo(s[0], s[1]), s[2..])
  }

  /** The frame with header h whose payload arrived as raw. */
  function WithPayload(h: Frame, raw: seq<byte>): Frame {
    h.(payload := if h.mask then Masked(raw, h.maskingKey) else raw)
  }

  /** One frame off the front of s; a limit of 0 is no limit. */
  function ReadFrame(s: seq<byte>, maxByteLength: uint64): ReadResult {
    if !HasHeader(s) then ReadShort
    else
      var f := ReadHeader(s);
      var n, rest := DeclaredLength(f), s[HeaderSize(f)..];
      if maxByteLength > 0 && n > maxByteLength then ReadTooLong(rest)
      else if |rest| < n then ReadShort
      else ReadOk(WithPayload(f, rest[..n]), rest[n..])
  }

  lemma ReadProgresses(s: seq<byte>)
    ensures var r := ReadFrame(s, 0); r.ReadOk? ==> |r.rest| < |s|
  {}

  /** Frames read back to back, with no limit, until the stream runs short. */
  function ReadAll(s: seq<byte>): seq<Frame>
    decreases |s|
  {
    match ReadFrame(s, 0)
    case ReadOk(f, rest) => ReadProgresses(s); [f] + ReadAll(rest)
    case _ => []
  }

  /** The wire carries four bits of the opcode. */
  function OnWire(f: Frame): Frame {
    f.(opcode := f.opcode % 16)
  }

  // ----- sealing, then reading

  /** A frame whose length fields say how long its payload is, shortest form or not. */
  predicate Declares(f: Frame) {
    && f.payloadLength < 128 && DeclaredLength(f) == |f.payload|
    && (ExtendedWidth(f.payloadLength) == 0 ==> f.extendedLength == 0)
    && (f.payloadLength == 126 ==> f.extendedLength < 0x1_0000)
    && (!f.mask ==> f.maskingKey == ZERO_KEY)
  }

  lemma SealedDeclares(f: Frame)
    requires Sealed(f)
    ensures Declares(f)
  {}

  lemma SecondByteBits(f: Frame)
    requires Declares(f)
    ensures SecondByte(f) % 128 == f.payloadLength && (SecondByte(f) / 128 == 1 <==> f.mask)
  {}

  lemma SplitBits(a: nat, b: nat, c: nat, d: nat, low: nat)
    requires a < 2 && b < 2 && c < 2 && d < 2 && low < 16
    ensures var n := 128 * a + 64 * b + 32 * c + 16 * d + low;
            n / 128 == a && n / 64 % 2 == b && n / 32 % 2 == c && n / 16 % 2 == d && n % 16 == low
  {}

  lemma FirstByteBits(f: Frame)
    ensures var b := FirstByte(f);
            && (b / 128 == 1 <==> f.fin) && (b / 64 % 2 == 1 <==> f.rsv1) && (b / 32 % 2 == 1 <==> f.rsv2)
            && (b / 16 % 2 == 1 <==> f.rsv3) && b % 16 == f.opcode % 16
  {
    SplitBits(Bit(f.fin), Bit(f.rsv1), Bit(f.rsv2), Bit(f.rsv3), f.opcode % 16);
  }

  lemma FirstTwoRoundTrip(f: Frame)
    requires Declares(f)
    ensures FirstTwo(FirstByte(f), SecondByte(f))
            == OnWire(f).(extendedLength := 0, maskingKey := ZERO_KEY, payload := [])
    ensures RestHeaderLength(SecondByte(f)) == HeaderSize(f) - 2
  {
    SecondByteBits(f);
    FirstByteBits(f);
  }

  lemma Middle<T>(a: seq<T>, b: seq<T>, c: seq<T>)
    ensures (a + (b + c))[..|a|] == a && (a + (b + c))[|a|..|a| + |b|] == b
  {}

  lemma AfterTwo<T>(two: seq<T>, rest: seq<T>)
    requires |two| == 2
    ensures (two + rest)[2..] == rest && (two + rest)[0] == two[0] && (two + rest)[1] == two[1]
  {}

  lemma Layout<T>(two: seq<T>, extended: seq<T>, key: seq<T>, tail: seq<T>)
    requires |two| == 2
    ensures var s, w, k := two + extended + key + tail, |extended|, |key|;
            && |s| == 2 + w + k + |tail| && s[0] == two[0] && s[1] == two[1]
            && s[2..][..w] == extended && s[2..][w..w + k] == key
  {
    AppendAssociates(two, extended, key);
    AppendAssociates(two, extended + key, tail);
    AppendAssociates(extended, key, tail);
    Middle(extended, key, tail);
    AfterTwo(two, extended + (key + tail));
  }

  lemma WidthsFit(f: Frame)
    requires Declares(f)
    ensures var width := ExtendedWidth(f.payloadLength);
            && (width == 0 ==> f.extendedLength == 0) && (!f.mask ==> f.maskingKey == ZERO_KEY)
            && (width == 2 ==> f.extendedLength < 0x1_0000) && (width == 0 || width == 2 || width == 8)
  {}

  lemma {:induction false} ExtendedRoundTrip(n: uint64, width: nat)
    requires (width == 2 && n < 0x1_0000) || width == 8
    ensures ExtendedLength(BigEndian(n, width)) == n
  {
    Widths();
    BigEndianRoundTrip(n, width);
  }

  lemma RestRoundTrip(f: Frame, rest: seq<byte>)
    requires Declares(f)
    requires var width := ExtendedWidth(f.payloadLength);
             && |rest| >= HeaderSize(f) - 2
             && rest[..width] == BigEndian(f.extendedLength, width)
             && (f.mask ==> rest[width..width + 4] == f.maskingKey)
    ensures WithRest(OnWire(f).(extendedLength := 0, maskingKey := ZERO_KEY, payload := []), rest)
            == OnWire(f).(payload := [])
  {
    WidthsFit(f);
    var width := ExtendedWidth(f.payloadLength);
    if width > 0 {
      ExtendedRoundTrip(f.extendedLength, width);
    }
    hide BigEndian, FromBigEndian, Declares, ExtendedLength;
  }

  lemma HeaderRoundTrip(f: Frame, tail: seq<byte>)
    requires Declares(f)
    ensures HasHeader(SealedHeader(f) + tail)
    ensures ReadHeader(SealedHeader(f) + tail) == OnWire(f).(payload := [])
  {
    hide FirstByte, SecondByte, FirstTwo, BigEndian, FromBigEndian, WithRest, RestHeaderLength, Declares,
         ExtendedWidth;
    var two, key := [FirstByte(f), SecondByte(f)], if f.mask then f.maskingKey else [];
    Layout(two, BigEndian(f.extendedLength, ExtendedWidth(f.payloadLength)), key, tail);
    FirstTwoRoundTrip(f);
    RestRoundTrip(f, (SealedHeader(f) + tail)[2..]);
  }

  lemma ReadFrameOf(s: seq<byte>, raw: seq<byte>, rest: seq<byte>, maxByteLength: uint64)
    requires HasHeader(s)
    requires s[HeaderSize(ReadHeader(s))..] == raw + rest && |raw| == DeclaredLength(ReadHeader(s))
    ensures ReadFrame(s, maxByteLength)
            == if maxByteLength == 0 || |raw| <= maxByteLength
               then ReadOk(WithPayload(ReadHeader(s), raw), rest)
               else ReadTooLong(raw + rest)
  {}

  /**
   Reading undoes sealing, and consumes exactly the frame's own bytes; of the length only what it says matters, not in
   which form it is written.
   */
  lemma ReadUndoesSeal(f: Frame, rest: seq<byte>, maxByteLength: uint64)
    requires Declares(f)
    ensures var r := ReadFrame(Wire(f) + rest, maxByteLength);
            if maxByteLength == 0 || |f.payload| <= maxByteLength
            then r == ReadOk(OnWire(f), rest)
            else r == ReadTooLong(Body(f) + rest)
  {
    var s, raw := Wire(f) + rest, Body(f);
    assert s == SealedHeader(f) + (raw + rest);
    HeaderRoundTrip(f, raw + rest);
    MaskTwice(f.payload, f.maskingKey);
    assert WithPayload(ReadHeader(s), raw) == OnWire(f);
    hide SealedHeader, ReadHeader, Wire, Masked, HasHeader;
    ReadFrameOf(s, raw, rest, maxByteLength);
  }

  lemma HeaderOfCut(f: Frame, cut: seq<byte>)
    requires Declares(f) && cut < Wire(f) && HasHeader(cut)
    ensures HeaderSize(f) <= |cut| && cut <= SealedHeader(f) + Body(f)
  {}

  /** A frame cut short anywhere reads as short, never as another frame. */
  lemma CutFrameReadsShort(f: Frame, cut: seq<byte>)
    requires Declares(f) && cut < Wire(f)
    ensures ReadFrame(cut, 0) == ReadShort
  {
    if HasHeader(cut) {
      HeaderOfCut(f, cut);
      hide SealedHeader, Wire, HasHeader;
      PrefixOfConcat(cut, SealedHeader(f), Body(f));
      var tail := cut[HeaderSize(f)..];
      HeaderRoundTrip(f, tail);
      hide ReadHeader;
    }
  }

  function OnWireAll(fs: seq<Frame>): seq<Frame> {
    seq(|fs|, i requires 0 <= i < |fs| => OnWire(fs[i]))
  }

  predicate AllSealed(fs: seq<Frame>) {
    forall f | f in fs :: Sealed(f)
  }

  lemma {:induction false} ReadAllCons(f: Frame, rest: seq<byte>)
    requires Sealed(f)
    ensures ReadAll(Wire(f) + rest) == [OnWire(f)] + ReadAll(rest)
  {
    SealedDeclares(f);
    ReadUndoesSeal(f, rest, 0);
  }

  lemma OnWireAllCons(f: Frame, fs: seq<Frame>)
    ensures OnWireAll([f] + fs) == [OnWire(f)] + OnWireAll(fs)
  {}

  lemma {:induction false} ReadAllShort(s: seq<byte>)
    requires ReadFrame(s, 0) == ReadShort
    ensures ReadAll(s) == []
  {}

  /**
   Frames sent back to back, the stream cut anywhere: reading gives back a prefix of them, and
   all of them when nothing was cut.
   */
  lemma {:induction false} ReadAllOfCutStream(fs: seq<Frame>, s: seq<byte>)
    requires AllSealed(fs) && s <= WireAll(fs)
    ensures ReadAll(s) <= OnWireAll(fs)
    ensures s == WireAll(fs) ==> ReadAll(s) == OnWireAll(fs)
  {
    if fs == [] {
      assert WireAll(fs) == [];
    } else {
      var f, tail := fs[0], fs[1..];
      assert fs == [f] + tail;
      WireAllCons(f, tail);
      OnWireAllCons(f, tail);
      hide Wire, WireAll, OnWireAll, ReadAll, Sealed;
      PrefixOfConcat(s, Wire(f), WireAll(tail));
      if |s| < |Wire(f)| {
        SealedDeclares(f);
        CutFrameReadsShort(f, s);
        ReadAllShort(s);
      } else {
        var rest := s[|Wire(f)|..];
        ReadAllCons(f, rest);
        ReadAllOfCutStream(tail, rest);
      }
    }
  }

  lemma OnWireIsIdentity(fs: seq<Frame>)
    requires forall f | f in fs :: f.opcode < 16
    ensures OnWireAll(fs) == fs
  {}

  // ----- reading, then sealing

  lemma HeaderParts(s: seq<byte>, width: nat, key: nat)
    requires 2 + width + key <= |s|
    ensures s[..2 + width + key] == [s[0], s[1]] + s[2..][..width] + s[2..][width..width + key]
  {}

  lemma FirstByteFromBits(b: byte)
    ensures b == 128 * Bit(b / 128 == 1) + 64 * Bit(b / 64 % 2 == 1) + 32 * Bit(b / 32 % 2 == 1)
                 + 16 * Bit(b / 16 % 2 == 1) + b % 16
  {}

  lemma HeaderReseals(s: seq<byte>)
    requires HasHeader(s)
    ensures SealedHeader(ReadHeader(s)) == s[..HeaderSize(ReadHeader(s))]
  {
    var f := ReadHeader(s);
    var width, rest := ExtendedWidth(f.payloadLength), s[2..];
    assert FirstByte(f) == s[0] && SecondByte(f) == s[1] by {
      FirstByteFromBits(s[0]);
    }
    hide FirstByte, SecondByte;
    FromBigEndianRoundTrip(rest[..width]);
    assert BigEndian(f.extendedLength, width) == rest[..width];
    hide BigEndian, ExtendedLength;
    HeaderParts(s, width, HeaderSize(f) - 2 - width);
  }

  lemma CutTwice<T>(s: seq<T>, k: nat, n: nat)
    requires k + n <= |s|
    ensures s == (s[..k] + s[k..][..n]) + s[k..][n..]
  {}

  lemma SealedHeaderIgnoresPayload(f: Frame, payload: seq<byte>)
    ensures SealedHeader(f.(payload := payload)) == SealedHeader(f)
  {}

  lemma PayloadReseals(h: Frame, raw: seq<byte>)
    ensures var f := WithPayload(h, raw);
            && Wire(f) == SealedHeader(h) + raw
            && |f.payload| == |raw| && DeclaredLength(f) == DeclaredLength(h)
  {
    SealedHeaderIgnoresPayload(h, WithPayload(h, raw).payload);
    MaskTwice(raw, h.maskingKey);
    hide SealedHeader, Masked;
  }

  /** A frame as read, with the length fields it arrived in, seals back to the very bytes it was read from. */
  lemma ReadThenSeal(s: seq<byte>, maxByteLength: uint64)
    requires ReadFrame(s, maxByteLength).ReadOk?
    ensures var r := ReadFrame(s, maxByteLength);
            && s == Wire(r.frame) + r.rest
            && |r.frame.payload| == DeclaredLength(r.frame)
  {
    var h := ReadHeader(s);
    HeaderReseals(s);
    hide ReadHeader, HasHeader;
    var k, n := HeaderSize(h), DeclaredLength(h);
    PayloadReseals(h, s[k..][..n]);
    hide Wire, SealedHeader, WithPayload;
    CutTwice(s, k, n);
  }

  /** RFC 6455 section 5.2: the minimal number of bytes encodes the length. */
  predicate ShortestLength(f: Frame) {
    && (f.payloadLength == 126 ==> f.extendedLength > 125)
    && (f.payloadLength == 127 ==> f.extendedLength > 65535)
  }

  /** Lengths are written most significant byte first. */
  lemma {:induction false} TwoByteLength(n: nat)
    requires n < 0x1_0000
    ensures BigEndian(n, 2) == [n / 256, n % 256]
  {
    assert BigEndian(n / 256, 1) == BigEndian(0, 0) + [n / 256];
  }

  lemma {:induction false} EightByteLength(n: nat)
    requires n < 0x100_0000
    ensures BigEndian(n, 8) == [0, 0, 0, 0, 0, n / 0x1_0000, n / 256 % 256, n % 256]
  {
    assert BigEndian(n, 8) == BigEndian(n / 256, 7) + [n % 256];
    assert BigEndian(n / 256, 7) == BigEndian(n / 0x1_0000, 6) + [n / 256 % 256];
    assert BigEndian(n / 0x1_0000, 6) == BigEndian(0, 5) + [n / 0x1_0000];
    assert BigEndian(0, 5) == [0, 0, 0, 0, 0];
  }

  lemma LongFormIsLonger(f: Frame)
    requires |f.payload| == DeclaredLength(f) && !ShortestLength(f)
    ensures HeaderSize(FillLength(f)) < HeaderSize(f)
  {}

  lemma ReadLengthFields(s: seq<byte>)
    requires ReadFrame(s, 0).ReadOk?
    ensures var f := ReadFrame(s, 0).frame;
            && f.payloadLength < 128
            && (f.payloadLength < 126 ==> f.extendedLength == 0)
            && (f.payloadLength == 126 ==> f.extendedLength < 0x1_0000)
  {
    Widths();
    if s[1] % 128 == 126 {
      FromBigEndianRoundTrip(s[2..][..2]);
    }
  }

  /**
   A send rewrites the length fields, so sealing a frame that was read gives back its bytes
   exactly when they carried the length in its shortest form.
   */
  lemma ResealIffShortest(s: seq<byte>)
    requires ReadFrame(s, 0).ReadOk?
    ensures var r := ReadFrame(s, 0);
            && |r.frame.payload| == DeclaredLength(r.frame)
            && (s == Wire(FillLength(r.frame)) + r.rest <==> ShortestLength(r.frame))
  {
    var r := ReadFrame(s, 0);
    ReadThenSeal(s, 0);
    ReadLengthFields(s);
    hide ReadFrame, Wire;
    if ShortestLength(r.frame) {
      assert r.frame == FillLength(r.frame);
    } else {
      LongFormIsLonger(r.frame);
      assert |Wire(FillLength(r.frame))| < |Wire(r.frame)|;
    }
  }

  /** The length of a short payload written in two bytes is read like any other, and cannot be sealed back. */
  lemma LongFormIsRead(b: byte)
    ensures var s := [0x82, 126, 0, 1, b];
            && ReadFrame(s, 0).ReadOk? && ReadFrame(s, 0).frame.payload == [b]
            && s != Wire(FillLength(ReadFrame(s, 0).frame)) + ReadFrame(s, 0).rest
  {
    var f := NewFrame(OPCODE_BINARY, true, [b]).(payloadLength := 126, extendedLength := 1);
    var s := [0x82, 126, 0, 1, b];
    TwoByteLength(1);
    assert s == Wire(f) + [];
    ReadUndoesSeal(f, [], 0);
    ResealIffShortest(s);
  }

  // ----- section 5.7 of RFC 6455

  const HELLO: seq<byte> := [0x48, 0x65, 0x6c, 0x6c, 0x6f]

  /** A frame as it goes out, unmasked and masked. */
  function Plainly(opcode: byte, fin: bool, payload: seq<byte>): seq<byte>
    requires |payload| < TWO_TO_64
  {
    Wire(FillLength(NewFrame(opcode, fin, payload)))
  }

  function WithKey(opcode: byte, fin: bool, payload: seq<byte>, key: Key): seq<byte>
    requires |payload| < TWO_TO_64
  {
    Wire(FillLength(NewFrame(opcode, fin, payload).(mask := true, maskingKey := key)))
  }

  lemma ShortFrame(opcode: byte, fin: bool, payload: seq<byte>, key: Key)
    requires opcode < 16 && |payload| <= 125
    ensures var first := opcode + if fin then 128 else 0;
            && Plainly(opcode, fin, payload) == [first, |payload|] + payload
            && WithKey(opcode, fin, payload, key) == [first, 128 + |payload|] + key + Masked(payload, key)
  {
    hide Masked;
  }

  lemma ShortExamples()
    ensures Plainly(OPCODE_TEXT, true, HELLO) == [0x81, 0x05] + HELLO
    ensures Plainly(OPCODE_TEXT, false, HELLO[..3]) == [0x01, 0x03] + HELLO[..3]
    ensures Plainly(OPCODE_CONTINUATION, true, HELLO[3..]) == [0x80, 0x02] + HELLO[3..]
    ensures Plainly(OPCODE_PING, true, HELLO) == [0x89, 0x05] + HELLO
  {
    hide Plainly;
    ShortFrame(OPCODE_TEXT, true, HELLO, ZERO_KEY);
    ShortFrame(OPCODE_TEXT, false, HELLO[..3], ZERO_KEY);
    ShortFrame(OPCODE_CONTINUATION, true, HELLO[3..], ZERO_KEY);
    ShortFrame(OPCODE_PING, true, HELLO, ZERO_KEY);
  }

  /** Where there is nothing to hide the key itself shows, byte after byte from the first. */
  lemma MaskedZeroes(key: Key)
    ensures WithKey(OPCODE_PONG, true, [0, 0, 0, 0, 0], key)
            == [0x8a, 0x85] + key + [key[0], key[1], key[2], key[3], key[0]]
  {
    hide WithKey, XorByte;
    var zeroes := [0, 0, 0, 0, 0];
    forall i | 0 <= i < 5 ensures Masked(zeroes, key)[i] == key[i % 4] {
      XorWithZero(key[i % 4]);
    }
    assert Masked(zeroes, key) == [key[0], key[1], key[2], key[3], key[0]];
    ShortFrame(OPCODE_PONG, true, zeroes, key);
  }

  lemma LongExamples(bytes: seq<byte>)
    ensures |bytes| == 256 ==> Plainly(OPCODE_BINARY, true, bytes) == [0x82, 0x7E, 0x01, 0x00] + bytes
    ensures |bytes| == 0x1_0000 ==>
              Plainly(OPCODE_BINARY, true, bytes) == [0x82, 0x7F, 0, 0, 0, 0, 0, 1, 0, 0] + bytes
  {
    TwoByteLength(256);
    EightByteLength(0x1_0000);
    hide BigEndian;
  }

  /** No header that declares the same length is shorter than the one a send seals. */
  lemma SealedLengthIsShortest(f: Frame, other: Frame)
    requires Sealed(f) && other.mask == f.mask
    requires other.payloadLength < 128 && DeclaredLength(other) == |f.payload|
    requires other.payloadLength == 126 ==> other.extendedLength < 0x1_0000
    ensures ShortestLength(f) && HeaderSize(f) <= HeaderSize(other)
  {}

  // ----- the reader itself

  datatype ReadError = NoError | StreamEnded | FrameByteLengthExceeded

  /** What a connection still has to deliver: its stream ends where the socket does. */
  class Reader {
    var pending: seq<byte>

    constructor (stream: seq<byte>)
      ensures pending == stream
    {
      pending := stream;
    }

    /** io.ReadFull into a fresh buffer: all n bytes, or an error that has swallowed what there was. */
    method ReadFull(n: uint64) returns (bytes: array<byte>, ok: bool)
      modifies this
      ensures fresh(bytes) && bytes.Length == n
      ensures ok == (n <= |old(pending)|)
      ensures ok ==> bytes[..] == old(pending)[..n] && pending == old(pending)[n..]
      ensures !ok ==> pending == []
    {
      bytes := new byte[n](_ => 0);
      ok := n <= |pending|;
      if ok {
        PutBytes(bytes, 0, pending[..n]);
        pending := pending[n..];
      } else {
        pending := [];
      }
    }

    method ReadFirstTwo(f: FrameRef) returns (ok: bool)
      requires f.Valid() && f.from == f.to && f.extendedLength == 0 && f.maskingKey == ZERO_KEY
      modifies this, f
      ensures f.Valid() && f.data == old(f.data)
      ensures var s := old(pending);
              && ok == (|s| >= 2)
              && (if ok then f.Value() == FirstTwo(s[0], s[1]) && pending == s[2..] else pending == [])
    {
      var firstSec;
      firstSec, ok := ReadFull(2);
      if !ok {
        return;
      }
      var first, second := firstSec[0], firstSec[1];
      assert firstSec[..] == [first, second] == old(pending)[..2];
      f.fin := first / 128 == 1;
      f.rsv1 := first / 64 % 2 == 1;
      f.rsv2 := first / 32 % 2 == 1;
      f.rsv3 := first / 16 % 2 == 1;
      f.opcode := first % 16;
      f.payloadLength := second % 128;
      f.mask := second / 128 == 1;
      hide ExtendedWidth;
      assert f.data[f.from..f.to] == [];
    }

    /** Takes as many bytes as the first two promised: the rest of the header, in one read. */
    method ReadRestHeader(f: FrameRef) returns (ok: bool)
      requires f.Valid()
      modifies this, f`extendedLength, f`maskingKey
      ensures f.Valid()
      ensures var s, h := old(pending), old(f.Value());
              var n := HeaderSize(h) - 2;
              && ok == (n <= |s|)
              && (if ok then f.Value() == WithRest(h, s) && pending == s[n..] else pending == [])
    {
      ghost var s := pending;
      var width := ExtendedWidth(f.payloadLength);
      var restHeaderLength := width;
      if f.mask {
        restHeaderLength := restHeaderLength + 4;
      }
      ok := true;
      if restHeaderLength > 0 {
        var restHeader;
        restHeader, ok := ReadFull(restHeaderLength);
        if !ok {
          return;
        }
        hide ExtendedLength;
        assert restHeader[..] == s[..restHeaderLength];
        if width > 0 {
          assert restHeader[..width] == s[..width];
          f.extendedLength := ExtendedLength(restHeader[..width]);
        }
        if f.mask {
          f.maskingKey := restHeader[restHeaderLength - 4..];
          assert f.maskingKey == s[width..width + 4];
        }
      }
    }

    method ReadHeaderInto(f: FrameRef) returns (ok: bool)
      requires f.Valid() && f.from == f.to && f.extendedLength == 0 && f.maskingKey == ZERO_KEY
      modifies this, f
      ensures f.Valid() && f.data == old(f.data)
      ensures ok == HasHeader(old(pending))
      ensures if ok
              then f.Value() == ReadHeader(old(pending)) && pending == old(pending)[HeaderSize(f.Value())..]
              else pending == []
    {
      ok := ReadFirstTwo(f);
      if ok {
        ok := ReadRestHeader(f);
      }
    }

    /** Reads the declared payload and unmasks it where it landed. */
    method ReadPayloadInto(f: FrameRef) returns (ok: bool)
      requires f.Valid()
      modifies this, f`data, f`from, f`to
      ensures f.Valid() && fresh(f.data)
      ensures var s, h := old(pending), old(f.Value());
              var n := DeclaredLength(h);
              && ok == (n <= |s|)
              && (if ok then f.Value() == WithPayload(h, s[..n]) && pending == s[n..] else pending == [])
    {
      var declared := DeclaredLength(f.Value());
      var payload;
      payload, ok := ReadFull(declared);
      f.data, f.from, f.to := payload, 0, declared;
      if ok && f.mask {
        MaskPayload(payload, 0, declared, f.maskingKey);
      }
    }

    /** What ReadFrame says of the pending bytes; of a frame over the limit only the header is consumed. */
    method GetFrame(maxByteLength: uint64) returns (f: FrameRef, err: ReadError)
      modifies this
      ensures fresh(f) && fresh(f.data) && f.Valid()
      ensures match ReadFrame(old(pending), maxByteLength)
              case ReadOk(frame, rest) => err == NoError && f.Value() == frame && pending == rest
              case ReadTooLong(rest) => err == FrameByteLengthExceeded && pending == rest
              case ReadShort => err == StreamEnded && pending == []
    {
      var empty := new byte[0];
      f := new FrameRef(0, false, empty, 0, 0);
      var ok := ReadHeaderInto(f);
      if !ok {
        return f, StreamEnded;
      }
      hide ReadHeader, HasHeader, WithPayload;
      if maxByteLength > 0 && DeclaredLength(f.Value()) > maxByteLength {
        return f, FrameByteLengthExceeded;
      }
      ok := ReadPayloadInto(f);
      if !ok {
        return f, StreamEnded;
      }
      return f, NoError;
    }
  }
}
