/** The write path of a connection (ConnectionWrite.go, Connection.go). */
module ConnectionWrite {
  import opened Bytes
  import opened Frames
  import opened Writers
  import opened Sending

  const MIN_WRITER_SIZE: nat := 14

  lemma HeaderFits(f: Frame)
    ensures HeaderSize(f) <= MIN_WRITER_SIZE
  {}

  /** No smaller buffer would do. */
  lemma LongestHeader(f: Frame)
    requires f.mask && f.payloadLength == 127
    ensures HeaderSize(f) == MIN_WRITER_SIZE == 14
  {}

  // ----- how often a masked payload is flushed

  /** The bytes the payload loop takes next: whole keys only, unless the rest fits. */
  function Piece(available: nat, left: nat): (n: nat)
    ensures n <= available && n <= left
  {
    if left <= available then left else available - available % 4
  }

  /** The flushes the payload loop makes with `available` bytes free in a buffer of `size`. */
  function LoopFlushes(size: nat, available: nat, left: nat): nat
    requires 4 <= size && available <= size
    decreases left, if available < 4 then 1 else 0
  {
    if left == 0 then 0
    else
      var n := Piece(available, left);
      if n == 0 then 1 + LoopFlushes(size, size, left) else LoopFlushes(size, available - n, left - n)
  }

  /** The socket writes it may take to buffer g through an empty buffer of `size`, n bytes being left in it. */
  predicate BufferingWrites(g: Frame, size: nat, writes: int, n: nat) {
    && MIN_WRITER_SIZE <= size && HeaderSize(g) <= MIN_WRITER_SIZE
    && (g.mask ==> n > 0 && writes == LoopFlushes(size, size - HeaderSize(g), |g.payload|))
    && (!g.mask ==> writes + (if n > 0 then 1 else 0) <= 2)
  }

  /** The socket writes of one successful send through an empty buffer of `size`. */
  predicate SendingWrites(g: Frame, size: nat, writes: int) {
    && MIN_WRITER_SIZE <= size && HeaderSize(g) <= MIN_WRITER_SIZE
    && (g.mask ==> writes == 1 + LoopFlushes(size, size - HeaderSize(g), |g.payload|))
    && (!g.mask ==> writes <= 2)
  }

  /** A fresh masking key, if there was randomness for one. */
  method FillMaskingKey() returns (draw: Option<Key>) {
    draw := *;
  }

  /** Where the header has room it stays in the buffer, behind what was there, and no write is made. */
  method SealHeader(f: FrameRef, w: Writer, ghost g: Frame) returns (ok: bool)
    requires f.Valid() && g == f.Value()
    requires w.Valid() && HeaderSize(g) <= w.Available() && f.data != w.buf
    modifies w, w.buf, w.sock
    ensures w.Valid() && ok == !w.failed == !old(w.failed) && w.sock.wire == old(w.sock.wire)
    ensures w.Out() == if ok then old(w.Out()) + SealedHeader(g) else old(w.Out())
    ensures w.sock.writes == old(w.sock.writes) && (ok ==> w.n == old(w.n) + HeaderSize(g))
  {
    hide SealedHeader, HeaderSize;
    var at := w.n;
    ghost var filled := w.buf[..at];
    var _, end := f.AppendSealedHeader(w.buf, at);
    assert w.buf[..at] == filled && w.buf[at..end] == SealedHeader(g);
    var nn;
    nn, ok := w.Write(w.buf, at, end);
  }

  /** Out grows by the sealed header, at the cost of one flush, and that only if it does not fit. */
  method WriteFrameHeader(f: FrameRef, w: Writer, ghost g: Frame) returns (ok: bool)
    requires f.Valid() && g == f.Value()
    requires w.Valid() && w.buf.Length >= MIN_WRITER_SIZE && f.data != w.buf
    modifies w, w.buf, w.sock
    ensures w.Valid() && ok == !w.failed && old(w.sock.wire) <= w.sock.wire
    ensures w.Out() == if ok then old(w.Out()) + SealedHeader(g) else old(w.Out())
    ensures old(w.failed) ==> w.failed && w.sock.wire == old(w.sock.wire)
    ensures ok && old(w.n) == 0 ==> w.n == HeaderSize(g) && w.sock.writes == old(w.sock.writes)
    ensures w.sock.writes
            == old(w.sock.writes) + if old(w.failed) || HeaderSize(g) <= old(w.Available()) then 0 else 1
  {
    HeaderFits(g);
    if w.Available() < HeaderSize(f.Value()) {
      ok := w.Flush();
      if !ok {
        return;
      }
    }
    assert g == f.Value();
    ok := SealHeader(f, w, g);
  }

  /** Out grows by n bytes of the payload, masked from the first byte of the key on. */
  method WritePiece(f: FrameRef, w: Writer, at: nat, n: nat) returns (ok: bool)
    requires f.Valid() && w.Valid() && f.data != w.buf
    requires at + n <= f.data.Length && n <= w.Available()
    modifies w, w.buf, w.sock
    ensures w.Valid() && ok == !w.failed && w.failed == old(w.failed)
    ensures w.sock.wire == old(w.sock.wire)
    ensures ok ==> w.Out() == old(w.Out()) + Masked(f.data[at..at + n], f.maskingKey)
                   && w.n == old(w.n) + n && w.sock.writes == old(w.sock.writes)
    ensures !ok ==> w.Out() == old(w.Out())
  {
    var start, end := w.n, w.n + n;
    ghost var before := w.buf[..];
    for i := 0 to n
      modifies w.buf
      invariant forall j | 0 <= j < start :: w.buf[j] == before[j]
      invariant forall j | start <= j < start + i :: w.buf[j] == f.data[at + (j - start)]
    {
      w.buf[start + i] := f.data[at + i];
    }
    assert w.buf[start..end] == f.data[at..at + n] && w.buf[..start] == before[..start];
    ghost var copied := w.buf[..];
    MaskPayload(w.buf, start, end, f.maskingKey);
    assert w.buf[..start] == copied[..start];
    assert w.buf[start..end] == Masked(copied[start..end], f.maskingKey);
    var nn;
    nn, ok := w.Write(w.buf, start, end);
  }

  lemma MaskedGrows(out: seq<byte>, payload: seq<byte>, done: nat, to: nat, q: nat, key: Key)
    requires done <= to <= |payload| && done == 4 * q
    ensures (out + Masked(payload[..done], key)) + Masked(payload[done..to], key) == out + Masked(payload[..to], key)
  {
    hide Masked;
    var a, b := payload[..done], payload[done..to];
    assert a + b == payload[..to];
    MaskWholeKeys(a, b, key);
    AppendAssociates(out, Masked(a, key), Masked(b, key));
  }

  /** The socket writes made so far and those the payload loop still has to make. */
  ghost function Due(w: Writer, left: nat): nat
    requires w.Valid() && w.buf.Length >= 4
    reads w, w.sock
  {
    w.sock.writes + LoopFlushes(w.buf.Length, w.Available(), left)
  }

  lemma MaskedNothing(s: seq<byte>, key: Key)
    requires s == []
    ensures Masked(s, key) == []
  {}

  /**
   `sent` bytes of the payload are through: what that means for the bytes handed over and the writes still to come.
   */
  ghost predicate Midway(w: Writer, wire: seq<byte>, out: seq<byte>, payload: seq<byte>, key: Key,
                         sent: nat, q: nat, total: nat)
    requires w.buf.Length >= 4
    reads w, w.buf, w.sock
  {
    && w.Valid() && sent <= |payload| && wire <= w.sock.wire
    && (sent == |payload| || sent == 4 * q)
    && w.Out() == out + Masked(payload[..sent], key)
    && Due(w, |payload| - sent) == total
  }

  method PieceLength(available: nat, left: nat) returns (n: nat, ghost keys: nat)
    ensures n == Piece(available, left) && (n == 4 * keys || n == left)
    ensures n == 0 ==> keys == 0
  {
    n := if available < left then available else left;
    if n < left {
      n := n - n % 4;
    }
    keys := n / 4;
  }

  lemma LoopFlushesStep(size: nat, available: nat, left: nat)
    requires 4 <= size && available <= size
    ensures LoopFlushes(size, available, left)
            == if left == 0 then 0
               else if Piece(available, left) == 0 then 1 + LoopFlushes(size, size, left)
               else LoopFlushes(size, available - Piece(available, left), left - Piece(available, left))
  {}

  method FlushForPiece(w: Writer, left: nat) returns (ok: bool)
    requires w.Valid() && w.buf.Length >= 4 && !w.failed
    requires left > 0 && Piece(w.Available(), left) == 0
    modifies w, w.buf, w.sock
    ensures w.Valid() && ok == !w.failed && old(w.sock.wire) <= w.sock.wire && w.Out() == old(w.Out())
    ensures ok ==> Due(w, left) == old(Due(w, left)) && w.n == 0 < old(w.n)
  {
    LoopFlushesStep(w.buf.Length, w.Available(), left);
    hide LoopFlushes;
    ok := w.Flush();
  }

  method WriteNextPiece(f: FrameRef, w: Writer, done: nat, n: nat, ghost payload: seq<byte>) returns (ok: bool)
    requires f.Valid() && w.Valid() && w.buf.Length >= 4 && f.data != w.buf && !w.failed
    requires payload == f.data[f.from..f.to] && done < |payload|
    requires n == Piece(w.Available(), |payload| - done) > 0
    modifies w, w.buf, w.sock
    ensures w.Valid() && ok == !w.failed && w.sock.wire == old(w.sock.wire)
    ensures ok ==> w.Out() == old(w.Out()) + Masked(payload[done..done + n], f.maskingKey)
    ensures !ok ==> w.Out() == old(w.Out())
    ensures ok ==> Due(w, |payload| - (done + n)) == old(Due(w, |payload| - done)) && w.n > 0
  {
    LoopFlushesStep(w.buf.Length, w.Available(), |payload| - done);
    hide LoopFlushes, Masked, Writer.Out;
    var at := f.from + done;
    assert f.data[at..at + n] == payload[done..done + n];
    ok := WritePiece(f, w, at, n);
  }

  lemma MidwayAtStart(w: Writer, payload: seq<byte>, key: Key)
    requires w.Valid() && w.buf.Length >= 4
    ensures Midway(w, w.sock.wire, w.Out(), payload, key, 0, 0, Due(w, |payload|))
  {
    hide LoopFlushes;
    MaskedNothing(payload[..0], key);
  }

  /** One turn of the loop: the next piece, or a flush when not one whole key fits. */
  method WriteMore(f: FrameRef, w: Writer, sent: nat, ghost wire: seq<byte>, ghost out: seq<byte>,
                   ghost payload: seq<byte>, ghost q: nat, ghost total: nat)
    returns (n: nat, ok: bool, ghost keys: nat)
    requires f.Valid() && w.buf.Length >= 4 && f.data != w.buf && !w.failed
    requires payload == f.data[f.from..f.to] && sent < |payload|
    requires Midway(w, wire, out, payload, f.maskingKey, sent, q, total)
    modifies w, w.buf, w.sock
    ensures ok == !w.failed
    ensures ok ==> Midway(w, wire, out, payload, f.maskingKey, sent + n, q + keys, total)
    ensures ok ==> sent + n <= |payload| && if n == 0 then w.n == 0 < old(w.n) else w.n > 0
    ensures !ok ==> w.Valid() && wire <= w.sock.wire && w.Out() == out + Masked(payload[..sent], f.maskingKey)
  {
    hide Due, Writer.Out, Masked, Piece, LoopFlushes;
    var left := f.to - (f.from + sent);
    n, keys := PieceLength(w.Available(), left);
    if n == 0 {
      ok := FlushForPiece(w, left);
    } else {
      ok := WriteNextPiece(f, w, sent, n, payload);
      MaskedGrows(out, payload, sent, sent + n, q, f.maskingKey);
    }
  }

  lemma MidwayAtEnd(w: Writer, wire: seq<byte>, out: seq<byte>, payload: seq<byte>, key: Key, q: nat, total: nat)
    requires w.buf.Length >= 4 && Midway(w, wire, out, payload, key, |payload|, q, total)
    ensures w.Valid() && wire <= w.sock.wire
    ensures w.Out() == out + Masked(payload[..|payload|], key)
    ensures w.sock.writes == total
  {}

  method WriteMaskedPayload(f: FrameRef, w: Writer, ghost payload: seq<byte>) returns (ok: bool, ghost done: nat)
    requires f.Valid() && w.Valid() && w.buf.Length >= 4 && f.data != w.buf && !w.failed
    requires payload == f.data[f.from..f.to]
    modifies w, w.buf, w.sock
    ensures w.Valid() && ok == !w.failed && old(w.sock.wire) <= w.sock.wire
    ensures done <= |payload| && (ok ==> done == |payload|)
    ensures w.Out() == old(w.Out()) + Masked(payload[..done], f.maskingKey)
    ensures ok ==> w.sock.writes == old(Due(w, |payload|))
    ensures ok && old(w.n) > 0 ==> w.n > 0
  {
    hide Midway, Masked, LoopFlushes, Due, Writer.Out;
    var length, sent := f.to - f.from, 0;
    ghost var total := Due(w, length);
    ghost var wire, out, q := w.sock.wire, w.Out(), 0;
    MidwayAtStart(w, payload, f.maskingKey);
    while sent < length
      invariant sent <= length && !w.failed && (old(w.n) > 0 ==> w.n > 0 || sent < length)
      invariant Midway(w, wire, out, payload, f.maskingKey, sent, q, total)
      decreases length - sent, w.n
    {
      var n;
      ghost var keys;
      n, ok, keys := WriteMore(f, w, sent, wire, out, payload, q, total);
      if !ok {
        return false, sent;
      }
      sent, q := sent + n, q + keys;
    }
    MidwayAtEnd(w, wire, out, payload, f.maskingKey, q, total);
    return true, sent;
  }

  lemma SliceStart<T>(s: seq<T>, from: nat, to: nat, n: nat)
    requires from + n <= to <= |s|
    ensures s[from..from + n] == s[from..to][..n] && s[from..to][..n] <= s[from..to]
  {}

  lemma MaskedPrefix(payload: seq<byte>, n: nat, key: Key)
    requires n <= |payload|
    ensures Masked(payload[..n], key) <= Masked(payload, key)
  {}

  /** Out grows by the body of g, or by a prefix of it if the socket fails; f's own bytes are outside the frame. */
  method WriteFramePayload(f: FrameRef, w: Writer, ghost g: Frame) returns (ok: bool)
    requires f.Valid() && g == f.Value()
    requires w.Valid() && w.buf.Length >= 4 && f.data != w.buf && !w.failed
    modifies w, w.buf, w.sock
    ensures w.Valid() && ok == !w.failed && old(w.sock.wire) <= w.sock.wire
    ensures ok ==> w.Out() == old(w.Out()) + Body(g)
    ensures !ok ==> old(w.Out()) <= w.Out() <= old(w.Out()) + Body(g)
    ensures ok && g.mask ==>
              w.sock.writes == old(w.sock.writes) + LoopFlushes(w.buf.Length, old(w.Available()), |g.payload|)
    ensures ok && g.mask && old(w.n) > 0 ==> w.n > 0
    ensures ok && !g.mask ==> w.sock.writes + (if w.n > 0 then 1 else 0) <= old(w.sock.writes) + 2
  {
    hide LoopFlushes;
    if f.mask {
      ghost var done;
      ok, done := WriteMaskedPayload(f, w, g.payload);
      MaskedPrefix(g.payload, done, g.maskingKey);
      assert ok ==> g.payload[..done] == g.payload;
    } else {
      var nn;
      nn, ok := w.Write(f.data, f.from, f.to);
      SliceStart(f.data[..], f.from, f.to, nn);
      if ok {
        assert f.from + nn == f.to;
      }
    }
  }

  /** fitWriter: `fitted` has room for every header; ok is false only if a replaced w kept bytes. */
  method FitWriter(sock: Socket, w: Writer) returns (fitted: Writer, ok: bool)
    requires w.Valid() && w.sock == sock
    modifies w, w.buf, sock
    ensures fitted.Valid() && fitted.sock == sock && fitted.buf.Length >= MIN_WRITER_SIZE
    ensures w.Valid() && w.Out() == old(w.Out()) && old(sock.wire) <= sock.wire
    ensures w.buf.Length >= MIN_WRITER_SIZE ==>
              fitted == w && ok && w.n == old(w.n) && w.failed == old(w.failed) && sock.wire == old(sock.wire)
    ensures w.buf.Length < MIN_WRITER_SIZE ==>
              && fresh(fitted) && fresh(fitted.buf) && fitted.n == 0 && !fitted.failed
              && ok == !w.failed && (ok ==> w.n == 0)
    ensures old(w.n) == 0 ==> w.failed == old(w.failed) && sock.wire == old(sock.wire)
  {
    if w.buf.Length >= MIN_WRITER_SIZE {
      return w, true;
    }
    fitted := new Writer(sock, MIN_WRITER_SIZE);
    ok := w.Flush();
  }

  lemma TwoParts<T>(out: seq<T>, h: seq<T>, b: seq<T>, t: seq<T>)
    requires t == out || (out + h <= t && t <= (out + h) + b)
    ensures (out + h) + b == out + (h + b)
    ensures out <= t <= out + (h + b)
  {}

  /** Header, then payload, of a frame already settled for sending. */
  method WriteFrame(f: FrameRef, w: Writer, ghost g: Frame) returns (ok: bool)
    requires f.Valid() && g == f.Value()
    requires w.Valid() && w.buf.Length >= MIN_WRITER_SIZE && f.data != w.buf
    modifies w, w.buf, w.sock
    ensures w.Valid() && ok == !w.failed && old(w.sock.wire) <= w.sock.wire
    ensures ok ==> w.Out() == old(w.Out()) + Wire(g)
    ensures !ok ==> old(w.Out()) <= w.Out() <= old(w.Out()) + Wire(g)
    ensures old(w.failed) ==> w.failed && w.sock.wire == old(w.sock.wire) && w.Out() == old(w.Out())
    ensures ok && old(w.n) == 0 ==> BufferingWrites(g, w.buf.Length, w.sock.writes - old(w.sock.writes), w.n)
  {
    ghost var out := w.Out();
    HeaderFits(g);
    hide LoopFlushes, SealedHeader, Body, HeaderSize, Writer.Out;
    ok := WriteFrameHeader(f, w, g);
    if ok {
      ok := WriteFramePayload(f, w, g);
    }
    TwoParts(out, SealedHeader(g), Body(g), w.Out());
  }
}
