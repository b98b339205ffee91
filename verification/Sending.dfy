/** What one hold of the write lock does to a connection, as relations between states. */
module Sending {
  import opened Bytes
  import opened Frames

  datatype SendError =
    | CloseAlreadySent
    | ControlFramePayloadTooLong
    | NoMaskingKey
    | SocketFailed
    | ContinuationFrameWithoutMsg
    | NotDataFrameOpcode
    | NotControlFrameOpcode
    | LongDataTransmissionNotStarted

  /** What a send call comes to; Waiting has done nothing yet, because another goroutine holds dataFramesWriteLocker. */
  datatype Outcome = Sent | Refused(error: SendError) | Waiting

  /**
   The send side of a connection. `log` is every frame that was let through to the writer, in order:
   the bytes on the wire and in the buffer are theirs, up to where the socket failed.
   */
  datatype ConnState = ConnState(
    masks: bool, closeSent: bool, wire: seq<byte>, buffered: seq<byte>, failed: bool, log: seq<Frame>)
  {
    function Out(): seq<byte> {
      wire + buffered
    }
  }

  datatype Option<T> = None | Some(value: T)

  /** validateSendFrame: what must not be sent. */
  function Refusal(f: Frame, closeSent: bool): Option<SendError> {
    if closeSent && (IsData(f.opcode) || f.opcode == OPCODE_CLOSE) then Some(CloseAlreadySent)
    else if IsControl(f.opcode) && |f.payload| > MAX_CONTROL_PAYLOAD then Some(ControlFramePayloadTooLong)
    else None
  }

  /** prepareSendFrame: what the header will carry. */
  function Prepare(f: Frame, masks: bool, key: Key): (g: Frame)
    requires |f.payload| < TWO_TO_64
    ensures Sealed(g) && g.mask == masks
    ensures g.opcode == f.opcode && g.payload == f.payload && g.fin == (f.fin || IsControl(f.opcode))
    ensures g.rsv1 == f.rsv1 && g.rsv2 == f.rsv2 && g.rsv3 == f.rsv3
  {
    FillLength(f.(maskingKey := if masks then key else ZERO_KEY, mask := masks, fin := f.fin || IsControl(f.opcode)))
  }

  predicate Prepared(f: Frame, masks: bool, g: Frame) {
    |f.payload| < TWO_TO_64 && g == Prepare(f, masks, g.maskingKey)
  }

  /** g's bytes follow everything handed over before. */
  predicate Appended(s: ConnState, g: Frame, t: ConnState) {
    && !s.failed
    && t == s.(wire := t.wire, buffered := t.buffered, log := s.log + [g])
    && s.wire <= t.wire
    && t.Out() == s.Out() + Wire(g)
  }

  /** The socket failed: now, somewhere inside g's bytes, or on an earlier frame. */
  predicate Broken(s: ConnState, g: Frame, t: ConnState) {
    if s.failed then t == s
    else
      && t == s.(wire := t.wire, buffered := t.buffered, failed := true, log := s.log + [g])
      && s.wire <= t.wire
      && s.Out() <= t.Out() <= s.Out() + Wire(g)
  }

  /** bufferedWriteFrame of f, settled as g. */
  predicate BufferedWrite(s: ConnState, f: Frame, g: Frame, t: ConnState, r: Outcome) {
    match Refusal(f, s.closeSent)
    case Some(error) => r == Refused(error) && t == s
    case None =>
      || (r == Refused(NoMaskingKey) && s.masks && t == s)
      || (r == Sent && Prepared(f, s.masks, g) && Appended(s, g, t))
      || (r == Refused(SocketFailed) && Prepared(f, s.masks, g) && Broken(s, g, t))
  }

  /** A flush of the write buffer. */
  predicate Flushed(s: ConnState, t: ConnState, r: Outcome) {
    || (r == Sent && !s.failed && t == s.(wire := s.Out(), buffered := []))
    || (r == Refused(SocketFailed) && s.failed && t == s)
    || (r == Refused(SocketFailed) && !s.failed
        && t == s.(wire := t.wire, buffered := t.buffered, failed := true)
        && s.wire <= t.wire && t.Out() == s.Out())
  }

  /** sendFrame, under one hold of the lock: closeSent moves only if the whole close reached the wire. */
  predicate FrameSent(s: ConnState, f: Frame, g: Frame, t: ConnState, r: Outcome) {
    match Refusal(f, s.closeSent)
    case Some(error) => r == Refused(error) && t == s
    case None =>
      || (r == Refused(NoMaskingKey) && s.masks && t == s)
      || (r == Sent && !s.failed && Prepared(f, s.masks, g)
          && t == s.(wire := s.Out() + Wire(g), buffered := [], log := s.log + [g],
                     closeSent := s.closeSent || f.opcode == OPCODE_CLOSE))
      || (r == Refused(SocketFailed) && Prepared(f, s.masks, g) && Broken(s, g, t))
  }

  /** What is refused unsent, and why; nothing is written then. */
  lemma RefusedIsExact(s: ConnState, f: Frame, g: Frame, t: ConnState, r: Outcome)
    requires FrameSent(s, f, g, t, r)
    ensures r == Refused(CloseAlreadySent) <==> s.closeSent && (f.opcode <= 2 || f.opcode == 0x8)
    ensures r == Refused(ControlFramePayloadTooLong) <==>
              0x8 <= f.opcode <= 0xA && |f.payload| > 125 && !(s.closeSent && f.opcode == 0x8)
    ensures r == Refused(CloseAlreadySent) || r == Refused(ControlFramePayloadTooLong) || r == Refused(NoMaskingKey) ==>
              t == s
    ensures r == Sent ==> t.closeSent == (s.closeSent || f.opcode == 0x8)
  {
    hide Wire, Prepared;
  }

  lemma SendIsWriteThenFlush(s: ConnState, f: Frame, g: Frame, m: ConnState, t: ConnState, r: Outcome)
    requires BufferedWrite(s, f, g, m, Sent) && Flushed(m, t, r)
    ensures r == Sent ==>
              FrameSent(s, f, g, t.(closeSent := t.closeSent || f.opcode == OPCODE_CLOSE), r)
    ensures r != Sent ==> FrameSent(s, f, g, t, r)
  {}

  /** The opcode a stream's next frame carries: the message's own opens it, 0 continues it. */
  function StreamOpcode(current: byte, begun: bool): byte {
    if begun then OPCODE_CONTINUATION else current
  }

  // ----- what every hold keeps

  /** Every byte handed over belongs to the logged frames, in order; none is missing unless the socket failed. */
  predicate Accounted(s: ConnState) {
    && (forall g | g in s.log :: Sealed(g) && g.mask == s.masks)
    && s.Out() <= WireAll(s.log)
    && (!s.failed ==> s.Out() == WireAll(s.log))
  }

  /** At most one close, and no data frame after it. */
  predicate ClosesOnce(fs: seq<Frame>) {
    forall i, j | 0 <= i < j < |fs| && fs[i].opcode == OPCODE_CLOSE ::
      fs[j].opcode != OPCODE_CLOSE && !IsData(fs[j].opcode)
  }

  predicate HasClose(fs: seq<Frame>) {
    exists f | f in fs :: f.opcode == OPCODE_CLOSE
  }

  /** closeSent says a close is out; one that is in the log without it took the socket down with it. */
  predicate CloseKnown(s: ConnState) {
    && ClosesOnce(s.log)
    && (s.closeSent ==> HasClose(s.log))
    && (HasClose(s.log) ==> s.closeSent || s.failed)
  }

  predicate Sound(s: ConnState) {
    Accounted(s) && CloseKnown(s)
  }

  lemma AppendKeepsAccounted(s: ConnState, g: Frame, t: ConnState)
    requires Accounted(s) && Sealed(g) && g.mask == s.masks
    requires Appended(s, g, t) || Broken(s, g, t)
    ensures Accounted(t)
  {
    WireAllSnoc(s.log, g);
    hide Wire, WireAll, Sealed;
    if !s.failed && t.failed {
      assert t.Out() <= s.Out() + Wire(g);
    }
  }

  lemma AppendKeepsCloseKnown(s: ConnState, g: Frame, t: ConnState)
    requires CloseKnown(s) && !s.failed && t.log == s.log + [g] && Refusal(g, s.closeSent).None?
    requires s.closeSent ==> t.closeSent
    requires t.closeSent ==> s.closeSent || g.opcode == OPCODE_CLOSE
    requires g.opcode == OPCODE_CLOSE ==> t.closeSent || t.failed
    ensures CloseKnown(t)
  {}

  lemma RefusalOfPrepared(f: Frame, key: Key, masks: bool, closeSent: bool)
    requires |f.payload| < TWO_TO_64
    ensures Refusal(Prepare(f, masks, key), closeSent) == Refusal(f, closeSent)
  {}

  /** A send under one hold of the lock keeps the log sound, whatever fails in it. */
  lemma FrameSentKeepsSound(s: ConnState, f: Frame, g: Frame, t: ConnState, r: Outcome)
    requires Sound(s) && FrameSent(s, f, g, t, r)
    ensures Sound(t)
  {
    if t != s {
      RefusalOfPrepared(f, g.maskingKey, s.masks, s.closeSent);
      hide Wire, WireAll, Sealed, Prepared;
      if r == Sent {
        WireAllSnoc(s.log, g);
      } else {
        AppendKeepsAccounted(s, g, t);
      }
      AppendKeepsCloseKnown(s, g, t);
    }
  }

  /** So does buffering a data frame, or a ping or a pong. */
  lemma BufferedWriteKeepsSound(s: ConnState, f: Frame, g: Frame, t: ConnState, r: Outcome)
    requires Sound(s) && BufferedWrite(s, f, g, t, r) && f.opcode != OPCODE_CLOSE
    ensures Sound(t)
  {
    if t != s {
      RefusalOfPrepared(f, g.maskingKey, s.masks, s.closeSent);
      AppendKeepsAccounted(s, g, t);
      hide Wire, WireAll, Sealed, Prepared;
      AppendKeepsCloseKnown(s, g, t);
    }
  }

  lemma FlushKeepsSound(s: ConnState, t: ConnState, r: Outcome)
    requires Sound(s) && Flushed(s, t, r)
    ensures Sound(t) && t.log == s.log
  {}
}
