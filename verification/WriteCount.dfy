/** How many socket writes one masked frame costs (ConnectionWrite.go; the table in SENDING_README.md). */
module WriteCount {
  import opened Frames
  import opened ConnectionWrite

  /** Whole keys a buffer of `size` holds, in bytes. */
  function WholeKeys(size: nat): (c: nat)
    ensures c <= size && size - c < 4
  {
    size - size % 4
  }

  lemma MulSign(c: int, d: int)
    requires c > 0
    ensures d > 0 ==> c * d >= c
    ensures d < 0 ==> c * d + c <= 0
  {}

  lemma Quotient(x: nat, c: nat, q: nat)
    requires c > 0
    ensures c * q <= x ==> q <= x / c
    ensures c * q <= x < c * q + c ==> x / c == q
  {
    MulSign(c, x / c - q);
    assert c * (x / c) + x % c == x;
    assert c * (x / c - q) == c * (x / c) - c * q;
  }

  lemma OneMoreTime(x: nat, c: nat)
    requires c > 0
    ensures (x + c) / c == x / c + 1
  {
    var q := x / c;
    assert c * q + x % c == x;
    assert c * (q + 1) == c * q + c;
    Quotient(x + c, c, q + 1);
  }

  /** The loop as it goes on when the payload does not fit: whole keys into the free space, then a flush. */
  lemma FlushesUnfold(size: nat, available: nat, left: nat)
    requires 4 <= size && available <= size
    ensures LoopFlushes(size, available, left)
            == if left <= available then 0 else 1 + LoopFlushes(size, size, left - WholeKeys(available))
  {}

  /** The flushes a payload of `left` bytes needs when the loop starts on an empty buffer. */
  function FullBufferFlushes(size: nat, left: nat): nat
    requires 4 <= size
  {
    if left <= size then 0 else (left - size - 1) / WholeKeys(size) + 1
  }

  lemma FullBufferStep(size: nat, left: nat)
    requires 4 <= size < left
    ensures FullBufferFlushes(size, left) == 1 + FullBufferFlushes(size, left - WholeKeys(size))
  {
    var c, x := WholeKeys(size), left - size - 1;
    if x >= c {
      OneMoreTime(x - c, c);
    } else {
      Quotient(x, c, 0);
    }
  }

  lemma {:induction false} FromEmptyBuffer(size: nat, left: nat)
    requires 4 <= size
    ensures LoopFlushes(size, size, left) == FullBufferFlushes(size, left)
    decreases left
  {
    FlushesUnfold(size, size, left);
    if left > size {
      FromEmptyBuffer(size, left - WholeKeys(size));
      FullBufferStep(size, left);
      hide *;
    }
  }

  /** The loop's flushes in closed form, whatever room the header left. */
  lemma {:induction false} FlushesInClosedForm(size: nat, available: nat, left: nat)
    requires 4 <= size && available <= size
    ensures LoopFlushes(size, available, left)
            == if left <= available then 0 else 1 + FullBufferFlushes(size, left - WholeKeys(available))
  {
    FlushesUnfold(size, available, left);
    if left > available {
      FromEmptyBuffer(size, left - WholeKeys(available));
    }
  }

  /** Every flush of a full buffer takes whole keys with it. */
  lemma {:induction false} EachFlushWholeKeys(size: nat, left: nat)
    requires 4 <= size
    ensures WholeKeys(size) * LoopFlushes(size, size, left) <= left
    decreases left
  {
    FlushesUnfold(size, size, left);
    if left > size {
      var c := WholeKeys(size);
      EachFlushWholeKeys(size, left - c);
      var k := LoopFlushes(size, size, left - c);
      assert c * (1 + k) == c + c * k;
    }
  }

  lemma {:induction false} FlushBound(size: nat, available: nat, left: nat)
    requires 4 <= size && available <= size
    ensures LoopFlushes(size, available, left) <= 1 + left / WholeKeys(size)
  {
    FlushesUnfold(size, available, left);
    var c := WholeKeys(size);
    if left > available {
      var rest := left - WholeKeys(available);
      EachFlushWholeKeys(size, rest);
      hide *;
      Quotient(left, c, LoopFlushes(size, size, rest));
    } else {
      hide *;
      Quotient(left, c, 0);
    }
  }

  /** A masked send through an empty buffer costs at most two writes and one more for every bufferful of whole keys. */
  lemma WriteBound(g: Frame, size: nat, writes: int)
    requires g.mask && SendingWrites(g, size, writes)
    ensures 1 <= writes <= 2 + |g.payload| / WholeKeys(size)
  {
    FlushBound(size, size - HeaderSize(g), |g.payload|);
  }

  lemma {:induction false} EachFlushOneBuffer(size: nat, available: nat, left: nat)
    requires 4 <= size && available <= size
    ensures left <= available + size * LoopFlushes(size, available, left)
    decreases left, if available < 4 then 1 else 0
  {
    LoopFlushesStep(size, available, left);
    var n := Piece(available, left);
    if left > 0 && n == 0 {
      EachFlushOneBuffer(size, size, left);
      var k := LoopFlushes(size, size, left);
      assert size * (1 + k) == size + size * k;
    } else if left > 0 {
      EachFlushOneBuffer(size, available - n, left - n);
    }
  }

  /** Nor can it cost fewer than its bytes need: a write carries one buffer at most. */
  lemma WriteFloor(g: Frame, size: nat, writes: int)
    requires g.mask && SendingWrites(g, size, writes)
    ensures HeaderSize(g) + |g.payload| <= size * writes
  {
    var left, available := |g.payload|, size - HeaderSize(g);
    EachFlushOneBuffer(size, available, left);
    var k := LoopFlushes(size, available, left);
    assert size * (1 + k) == size + size * k;
  }

  /** The documented counts for one masked message of 1 MB: 87,383 writes at 14 bytes, 257 at 4096, 17 at 64 KB. */
  lemma OneMegabyte(g: Frame, size: nat, writes: int)
    requires g.mask && |g.payload| == 0x10_0000 && Sealed(g) && SendingWrites(g, size, writes)
    ensures size == 14 ==> writes == 87_383
    ensures size == 4096 ==> writes == 257
    ensures size == 0x1_0000 ==> writes == 17
  {
    FlushesInClosedForm(size, size - HeaderSize(g), |g.payload|);
  }
}
