/** Bytes, 64 bit integers, exclusive or, and the two byte orders the code uses. */
module Bytes {
  type byte = n: nat | n < 256

  const TWO_TO_64: nat := 0x1_0000_0000_0000_0000

  type uint64 = n: nat | n < 0x1_0000_0000_0000_0000

  /** A masking key: always four bytes. */
  type Key = k: seq<byte> | |k| == 4 witness [0, 0, 0, 0]

  const ZERO_KEY: Key := [0, 0, 0, 0]

  function Flatten<T>(ss: seq<seq<T>>): seq<T> {
    if ss == [] then [] else ss[0] + Flatten(ss[1..])
  }

  lemma {:induction false} FlattenAppend<T>(ss: seq<seq<T>>, ts: seq<seq<T>>)
    ensures Flatten(ss + ts) == Flatten(ss) + Flatten(ts)
    decreases ss
  {
    if ss == [] {
      assert ss + ts == ts;
    } else {
      calc {
        Flatten(ss + ts);
        { assert (ss + ts)[1..] == ss[1..] + ts; }
        ss[0] + Flatten(ss[1..] + ts);
        { FlattenAppend(ss[1..], ts); }
        ss[0] + (Flatten(ss[1..]) + Flatten(ts));
        (ss[0] + Flatten(ss[1..])) + Flatten(ts);
        Flatten(ss) + Flatten(ts);
      }
    }
  }

  lemma {:induction false} FlattenCons<T>(s: seq<T>, ss: seq<seq<T>>)
    ensures Flatten([s] + ss) == s + Flatten(ss)
  {}

  lemma AppendAssociates<T>(a: seq<T>, b: seq<T>, c: seq<T>)
    ensures (a + b) + c == a + (b + c)
  {}

  lemma FlattenOne<T>(s: seq<T>)
    ensures Flatten([s]) == s
  {}

  /** A prefix of w + t either stops inside w or goes on into t. */
  lemma SameTail<T>(a: seq<T>, b: seq<T>, c: seq<T>)
    requires a + b == a + c
    ensures b == c
  {
    assert (a + b)[|a|..] == b && (a + c)[|a|..] == c;
  }

  lemma PrefixOfConcat<T>(s: seq<T>, w: seq<T>, t: seq<T>)
    requires s <= w + t
    ensures |s| < |w| ==> s < w
    ensures |s| >= |w| ==> s == w + s[|w|..] && s[|w|..] <= t
  {}

  // ----- exclusive or

  /** Bitwise exclusive or of unsigned integers of any width. */
  function Xor(a: nat, b: nat): nat
    decreases a + b
  {
    if a == 0 && b == 0 then 0 else 2 * Xor(a / 2, b / 2) + (a + b) % 2
  }

  function Pow2(k: nat): (p: nat)
    ensures p > 0
  {
    if k == 0 then 1 else 2 * Pow2(k - 1)
  }

  lemma {:induction false} XorBound(a: nat, b: nat, k: nat)
    requires a < Pow2(k) && b < Pow2(k)
    ensures Xor(a, b) < Pow2(k)
  {
    if k > 0 {
      XorBound(a / 2, b / 2, k - 1);
    }
  }

  lemma EightBits()
    ensures Pow2(8) == 256
  {}

  function XorByte(a: byte, b: byte): byte {
    EightBits();
    XorBound(a, b, 8);
    Xor(a, b)
  }

  lemma SameParity(x: nat, a: nat, b: nat)
    requires x % 2 == (a + b) % 2
    ensures (x + b) % 2 == a % 2
  {}

  lemma {:induction false} XorHalves(a: nat, b: nat)
    ensures Xor(a, b) / 2 == Xor(a / 2, b / 2) && Xor(a, b) % 2 == (a + b) % 2
  {}

  lemma XorOfNothing()
    ensures Xor(0, 0) == 0
  {}

  /** Bit k of n. */
  function BitOf(n: nat, k: nat): nat {
    if k == 0 then n % 2 else BitOf(n / 2, k - 1)
  }

  /** Bit by bit, exclusive or is addition without carry. */
  lemma {:induction false} XorBit(a: nat, b: nat, k: nat)
    ensures BitOf(Xor(a, b), k) == (BitOf(a, k) + BitOf(b, k)) % 2
  {
    XorHalves(a, b);
    hide Xor;
    if k > 0 {
      XorBit(a / 2, b / 2, k - 1);
    }
  }

  lemma {:induction false} XorOfHalves(a: nat, b: nat, c: nat, d: nat, p: nat)
    requires a / 2 == c && b / 2 == d && (a + b) % 2 == p
    ensures Xor(a, b) == 2 * Xor(c, d) + p
  {}

  lemma {:induction false} XorTwice(a: nat, b: nat)
    ensures Xor(Xor(a, b), b) == a
    decreases a + b
  {
    if a + b > 0 {
      hide Xor;
      XorTwice(a / 2, b / 2);
      XorHalves(a, b);
      SameParity(Xor(a, b), a, b);
      XorOfHalves(Xor(a, b), b, Xor(a / 2, b / 2), b / 2, a % 2);
    }
  }

  lemma XorOneDiffers(b: byte)
    ensures XorByte(b, 0) != XorByte(b, 1)
  {}

  lemma {:induction false} ZeroXor(b: nat)
    ensures Xor(0, b) == b
    decreases b
  {
    if b > 0 {
      ZeroXor(b / 2);
    }
  }

  lemma XorWithZero(b: byte)
    ensures XorByte(0, b) == b
  {
    ZeroXor(b);
  }

  /** k doublings of n. */
  function Shift(n: nat, k: nat): nat {
    if k == 0 then n else 2 * Shift(n, k - 1)
  }

  lemma HalvesOfSum(a: nat, c: nat)
    ensures (a + 2 * c) / 2 == a / 2 + c && (a + 2 * c) % 2 == a % 2
  {}

  lemma XorStep(a: nat, b: nat, c: nat, d: nat, x: nat)
    requires Xor(a / 2 + c, b / 2 + d) == Xor(a / 2, b / 2) + x
    ensures Xor(a + 2 * c, b + 2 * d) == Xor(a, b) + 2 * x
  {
    hide Xor;
    var p := (a + b) % 2;
    HalvesOfSum(a, c);
    HalvesOfSum(b, d);
    HalvesOfSum(a + b, c + d);
    XorOfHalves(a, b, a / 2, b / 2, p);
    XorOfHalves(a + 2 * c, b + 2 * d, a / 2 + c, b / 2 + d, p);
  }

  /** Exclusive or works on the low k bits and on the rest separately. */
  lemma {:induction false} XorSplit(a: nat, b: nat, c: nat, d: nat, k: nat)
    requires a < Pow2(k) && b < Pow2(k)
    ensures Xor(a + Shift(c, k), b + Shift(d, k)) == Xor(a, b) + Shift(Xor(c, d), k)
  {
    if k > 0 {
      hide Xor;
      XorSplit(a / 2, b / 2, c, d, k - 1);
      XorStep(a, b, Shift(c, k - 1), Shift(d, k - 1), Shift(Xor(c, d), k - 1));
    }
  }

  lemma {:induction false} ShiftByte(n: nat)
    ensures Shift(n, 8) == 256 * n
  {
    assert Shift(n, 1) == 2 * n;
    assert Shift(n, 3) == 2 * Shift(n, 2) == 8 * n;
    assert Shift(n, 5) == 2 * Shift(n, 4) == 32 * n;
    assert Shift(n, 7) == 2 * Shift(n, 6) == 128 * n;
  }

  // ----- big endian

  function Pow256(k: nat): (p: nat)
    ensures p > 0
  {
    if k == 0 then 1 else 256 * Pow256(k - 1)
  }

  /** The low k bytes of n, most significant first. */
  function BigEndian(n: nat, k: nat): (s: seq<byte>)
    ensures |s| == k
  {
    if k == 0 then [] else BigEndian(n / 256, k - 1) + [n % 256]
  }

  function FromBigEndian(s: seq<byte>): nat {
    if s == [] then 0 else FromBigEndian(s[..|s| - 1]) * 256 + s[|s| - 1]
  }

  lemma {:induction false} BigEndianRoundTrip(n: nat, k: nat)
    requires n < Pow256(k)
    ensures FromBigEndian(BigEndian(n, k)) == n
  {
    if k > 0 {
      BigEndianRoundTrip(n / 256, k - 1);
      assert BigEndian(n, k)[..k - 1] == BigEndian(n / 256, k - 1);
    }
  }

  lemma {:induction false} FromBigEndianRoundTrip(s: seq<byte>)
    ensures FromBigEndian(s) < Pow256(|s|)
    ensures BigEndian(FromBigEndian(s), |s|) == s
  {
    if s != [] {
      FromBigEndianRoundTrip(s[..|s| - 1]);
      assert BigEndian(FromBigEndian(s), |s|) == s[..|s| - 1] + [s[|s| - 1]];
    }
  }

  lemma FromTwoBytes(s: seq<byte>)
    requires |s| >= 2
    ensures var high: nat := s[0]; FromBigEndian(s[..2]) == 256 * high + s[1]
  {
    var two := s[..2];
    assert two[..1] == [s[0]] && FromBigEndian([]) == 0;
    assert FromBigEndian(two[..1]) == FromBigEndian([]) * 256 + s[0] by {
      assert two[..1][..0] == [];
    }
  }

  /** The two widths a header uses: 16 and 64 bits. */
  lemma Widths()
    ensures Pow256(2) == 0x1_0000
    ensures Pow256(8) == TWO_TO_64
  {}

  // ----- little endian

  /** The low k bytes of n, least significant first. */
  function LittleEndian(n: nat, k: nat): (s: seq<byte>)
    ensures |s| == k
  {
    if k == 0 then [] else [n % 256] + LittleEndian(n / 256, k - 1)
  }

  function FromLittleEndian(s: seq<byte>): nat {
    if s == [] then 0 else s[0] + 256 * FromLittleEndian(s[1..])
  }

  lemma LowByte(b: byte, n: nat)
    ensures (b + 256 * n) % 256 == b && (b + 256 * n) / 256 == n
  {}

  lemma {:induction false} LittleEndianRoundTrip(s: seq<byte>)
    ensures LittleEndian(FromLittleEndian(s), |s|) == s
  {
    if s != [] {
      LowByte(s[0], FromLittleEndian(s[1..]));
      LittleEndianRoundTrip(s[1..]);
      assert s == [s[0]] + s[1..];
    }
  }

  function XorBytes(s: seq<byte>, t: seq<byte>): (r: seq<byte>)
    requires |s| == |t|
    ensures |r| == |s|
  {
    if s == [] then [] else [XorByte(s[0], t[0])] + XorBytes(s[1..], t[1..])
  }

  /** Exclusive or of two words is exclusive or of their bytes. */
  lemma {:induction false} XorWords(s: seq<byte>, t: seq<byte>)
    requires |s| == |t|
    ensures Xor(FromLittleEndian(s), FromLittleEndian(t)) == FromLittleEndian(XorBytes(s, t))
  {
    hide Xor;
    if s == [] {
      XorOfNothing();
    } else {
      XorWords(s[1..], t[1..]);
      var x, y := FromLittleEndian(s[1..]), FromLittleEndian(t[1..]);
      EightBits();
      XorSplit(s[0], t[0], x, y, 8);
      ShiftByte(x);
      ShiftByte(y);
      ShiftByte(Xor(x, y));
      assert XorBytes(s, t)[1..] == XorBytes(s[1..], t[1..]);
    }
  }

  lemma {:induction false} XorBytesAt(s: seq<byte>, t: seq<byte>, i: nat)
    requires i < |s| == |t|
    ensures XorBytes(s, t)[i] == XorByte(s[i], t[i])
  {
    if i > 0 {
      XorBytesAt(s[1..], t[1..], i - 1);
    }
  }
}
