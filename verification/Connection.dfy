/**
 A connection's send side: one writer, one close, one message at a time (Connection.go and the files named
 Connection*).
 */
module Connections {
  import opened Bytes
  import opened Frames
  import opened Writers
  import opened Sending
  import opened Messages
  import opened FrameControl
  import opened ConnectionWrite
  import opened Interleaving

  class Conn {
    const sock: Socket
    const maskSendFrame: bool
    var writer: Writer
    var closeSent: bool
    var currentTransmitDataMsgOpcode: byte   // 0: no stream is open
    var currentTransmitDataMsgOpened: bool   // a frame of its message is out
    ghost var log: seq<Frame>
    ghost var keyless: bool                  // a masking key could not be had
    var dataFramesLocked: bool               // a stream holds dataFramesWriteLocker

    ghost predicate Valid()
      reads this, writer, writer.sock
    {
      writer.Valid() && writer.sock == sock && writer.buf.Length >= MIN_WRITER_SIZE
    }

    ghost function State(): ConnState
      requires Valid()
      reads this, writer, writer.buf, sock
    {
      ConnState(maskSendFrame, closeSent, sock.wire, writer.buf[..writer.n], writer.failed, log)
    }

    /** A connection over a writer that is large enough already. */
    constructor (fitted: Writer, maskSendFrame: bool)
      requires fitted.Valid() && fitted.buf.Length >= MIN_WRITER_SIZE
      ensures Valid() && sock == fitted.sock && writer == fitted && this.maskSendFrame == maskSendFrame
      ensures !closeSent && log == [] && !keyless
      ensures !dataFramesLocked && currentTransmitDataMsgOpcode == 0 && !currentTransmitDataMsgOpened
    {
      sock, this.maskSendFrame, writer := fitted.sock, maskSendFrame, fitted;
      closeSent, currentTransmitDataMsgOpcode, currentTransmitDataMsgOpened := false, 0, false;
      dataFramesLocked, log, keyless := false, [], false;
    }

    /** NewConn, on a socket whose handshake is over: no connection if w is too small and cannot be flushed. */
    static method NewConn(sock: Socket, w: Writer, maskSendFrame: bool) returns (c: Conn?)
      requires w.Valid() && w.sock == sock
      modifies w, w.buf, sock
      ensures c == null ==> w.buf.Length < MIN_WRITER_SIZE && w.failed && sock.down
      ensures c != null ==>
                && fresh(c) && c.Valid() && c.sock == sock && c.maskSendFrame == maskSendFrame
                && c.writer.failed == (w.buf.Length >= MIN_WRITER_SIZE && old(w.failed))
                && c.State() == ConnState(maskSendFrame, false, sock.wire, c.writer.buf[..c.writer.n],
                    c.writer.failed, [])
                && c.State().Out() == old(w.Out()) && old(sock.wire) <= sock.wire
                && !c.dataFramesLocked && c.currentTransmitDataMsgOpcode == 0 && !c.currentTransmitDataMsgOpened
      ensures c != null && w.buf.Length >= MIN_WRITER_SIZE ==> c.writer == w && sock.wire == old(sock.wire)
      ensures c != null && w.buf.Length < MIN_WRITER_SIZE ==> fresh(c.writer) && fresh(c.writer.buf) && c.writer.n == 0
    {
      var fitted, ok := FitWriter(sock, w);
      if !ok {
        return null;
      }
      c := new Conn(fitted, maskSendFrame);
    }

    /** Header, then payload, of a frame already settled for sending. */
    method WritePrepared(f: FrameRef, ghost g: Frame) returns (ok: bool)
      requires Valid() && f.Valid() && g == f.Value() && f.data != writer.buf
      modifies this`log, writer, writer.buf, sock
      ensures Valid()
      ensures if ok then Appended(old(State()), g, State()) else Broken(old(State()), g, State())
      ensures old(writer.n) == 0 && ok ==>
                BufferingWrites(g, writer.buf.Length, sock.writes - old(sock.writes), writer.n)
    {
      hide BufferingWrites, Wire;
      ghost var s := State();
      if !writer.failed {
        log := log + [g];
      }
      ok := WriteFrame(f, writer, g);
      assert s.Out() == old(writer.Out()) && State().Out() == writer.Out();
      if s.failed {
        SameTail(s.wire, s.buffered, State().buffered);
      }
    }

    /**
     prepareSendFrame: on success f is settled, with the key that was drawn, and nothing but its header fields has
     moved; without a key it fails.
     */
    method PrepareSendFrame(f: FrameRef) returns (ok: bool, ghost draw: Option<Key>)
      requires f.Valid()
      modifies this`keyless, f`maskingKey, f`mask, f`payloadLength, f`extendedLength, f`fin
      ensures f.Valid() && (ok ==> Prepared(old(f.Value()), maskSendFrame, f.Value()))
      ensures if maskSendFrame then ok == draw.Some? && (ok ==> f.maskingKey == draw.value)
              else ok && f.maskingKey == ZERO_KEY
      ensures keyless == (old(keyless) || !ok)
    {
      ok, draw := true, None;
      if maskSendFrame {
        var key := FillMaskingKey();
        draw := key;
        match key {
          case Some(k) => f.maskingKey := k;
          case None =>
            keyless := true;
            return false, draw;
        }
      } else {
        f.maskingKey := ZERO_KEY;
      }
      f.mask := maskSendFrame;
      f.FillPayloadLength();
      if IsControl(f.opcode) {
        f.fin := true;
      }
    }

    /** bufferedWriteFrame: which of its outcomes came about, and the bytes each of them leaves. */
    method BufferedWriteFrame(f: FrameRef) returns (r: Outcome)
      requires Valid() && f.Valid() && f.data != writer.buf
      modifies this`log, this`keyless, writer, writer.buf, sock
      modifies f`maskingKey, f`mask, f`payloadLength, f`extendedLength, f`fin
      ensures Valid() && f.Valid() && (r == Refused(NoMaskingKey) ==> keyless)
      ensures BufferedWrite(old(State()), old(f.Value()), f.Value(), State(), r)
      ensures old(writer.n) == 0 && r == Sent ==>
                BufferingWrites(f.Value(), writer.buf.Length, sock.writes - old(sock.writes), writer.n)
    {
      hide BufferingWrites, Prepared, Wire;
      match Refusal(f.Value(), closeSent) {
        case Some(error) => return Refused(error);
        case None =>
      }
      var keyed, _ := PrepareSendFrame(f);
      if !keyed {
        return Refused(NoMaskingKey);
      }
      ghost var g := f.Value();
      var ok := WritePrepared(f, g);
      assert g == f.Value();
      r := if ok then Sent else Refused(SocketFailed);
    }

    method FlushWriter() returns (r: Outcome)
      requires Valid()
      modifies writer, writer.buf, sock
      ensures Valid() && Flushed(old(State()), State(), r) && (old(sock.down) ==> sock.down)
      ensures sock.writes <= old(sock.writes) + (if old(writer.n) > 0 then 1 else 0)
      ensures r == Sent && old(writer.n) > 0 ==> sock.writes == old(sock.writes) + 1
    {
      ghost var s := State();
      var ok := writer.Flush();
      assert s.Out() == old(writer.Out()) && State().Out() == writer.Out();
      if s.failed {
        SameTail(s.wire, s.buffered, State().buffered);
      }
      r := if ok then Sent else Refused(SocketFailed);
    }

    /** sendFrame: one frame, written and flushed. */
    method SendFrame(f: FrameRef) returns (r: Outcome)
      requires Valid() && f.Valid() && f.data != writer.buf
      modifies this`log, this`keyless, this`closeSent, writer, writer.buf, sock
      modifies f`maskingKey, f`mask, f`payloadLength, f`extendedLength, f`fin
      ensures Valid() && f.Valid() && (r == Refused(NoMaskingKey) ==> keyless)
      ensures FrameSent(old(State()), old(f.Value()), f.Value(), State(), r)
      ensures !sock.down && !keyless && Refusal(old(f.Value()), old(closeSent)).None? ==> r == Sent
      ensures old(writer.n) == 0 && r == Sent ==>
                SendingWrites(f.Value(), writer.buf.Length, sock.writes - old(sock.writes))
    {
      hide Prepared, Wire;
      ghost var s, v := State(), f.Value();
      r := BufferedWriteFrame(f);
      if r != Sent {
        return;
      }
      ghost var m, g := State(), f.Value();
      r := FlushWriter();
      assert g == f.Value();
      SendIsWriteThenFlush(s, v, g, m, State(), r);
      if r == Sent && f.opcode == OPCODE_CLOSE {
        closeSent := true;
        assert g == f.Value();
      }
    }

    /** SendClose, SendPing and SendPong: one control frame. */
    method SendControl(opcode: byte, payload: seq<byte>) returns (r: Outcome, ghost g: Frame)
      requires Valid()
      modifies this`log, this`keyless, this`closeSent, writer, writer.buf, sock
      ensures Valid()
      ensures match NewControlFrame(opcode, payload)
              case NotBuilt(error) => r == Refused(error) && State() == old(State())
              case Built(f) => FrameSent(old(State()), f, g, State(), r)
      ensures r == Refused(NoMaskingKey) ==> keyless
      ensures !sock.down && !keyless && IsControl(opcode) && |payload| <= MAX_CONTROL_PAYLOAD
              && !(opcode == OPCODE_CLOSE && old(closeSent)) ==>
                r == Sent
    {
      g := NewFrame(opcode, true, payload);
      if !IsControl(opcode) {
        return Refused(NotControlFrameOpcode), g;
      }
      if |payload| > MAX_CONTROL_PAYLOAD {
        return Refused(ControlFramePayloadTooLong), g;
      }
      var data := new byte[|payload|](i requires 0 <= i < |payload| => payload[i]);
      assert data[0..|payload|] == payload;
      var f := new FrameRef(opcode, true, data, 0, |payload|);
      assert f.Value() == g;
      r := SendFrame(f);
      g := f.Value();
    }

    /** The second half of RenewWriter. */
    method SwapWriter(w: Writer, ghost held: seq<byte>) returns (r: Outcome)
      requires Valid() && w.Valid() && w.sock == sock && (w.buf == writer.buf ==> w == writer)
      requires writer.n == 0 && !writer.failed && w.buf[..w.n] == held
      modifies this`writer, sock, w, w.buf
      ensures Valid() && old(sock.wire) <= sock.wire
      ensures r != Sent ==> r == Refused(SocketFailed) && writer == old(writer)
      ensures r != Sent ==> w.buf.Length < MIN_WRITER_SIZE && w.failed && sock.down
      ensures r == Sent ==>
                && sock.wire + writer.buf[..writer.n] == old(sock.wire) + held
                && writer.failed == (w.buf.Length >= MIN_WRITER_SIZE && old(w.failed))
                && if w.buf.Length >= MIN_WRITER_SIZE then writer == w
                   else fresh(writer) && fresh(writer.buf) && writer.n == 0
      ensures held == [] && !old(w.failed) ==> r == Sent && sock.wire == old(sock.wire) && writer.n == 0
    {
      var fitted, ok := FitWriter(sock, w);
      if !ok {
        return Refused(SocketFailed);
      }
      writer := fitted;
      r := Sent;
    }

    /**
     The old writer is flushed, and only then does w take over, fitted to the longest header. m is the connection
     between the two. With the writer it has already, a connection is only flushed.
     */
    method RenewWriter(w: Writer) returns (r: Outcome, ghost flushed: Outcome, ghost m: ConnState)
      requires Valid() && w.Valid() && w.sock == sock && (w.buf == writer.buf ==> w == writer)
      modifies this`writer, writer, writer.buf, sock, w, w.buf
      ensures Valid() && Flushed(old(State()), m, flushed)
      ensures w == old(writer) ==> r == flushed && State() == m && writer == w
      ensures flushed != Sent ==> r == flushed && State() == m
      ensures flushed != Sent && w != old(writer) ==> w.n == old(w.n) && w.failed == old(w.failed)
      ensures State() == m.(wire := State().wire, buffered := State().buffered, failed := State().failed)
      ensures m.wire <= State().wire
      ensures r != Sent ==> r == Refused(SocketFailed) && writer == old(writer) && sock.down
      ensures r != Sent && flushed == Sent ==> w.buf.Length < MIN_WRITER_SIZE && w.failed
      ensures r == Sent && w != old(writer) ==>
                && flushed == Sent && State().Out() == m.Out() + old(w.buf[..w.n])
                && State().failed == (w.buf.Length >= MIN_WRITER_SIZE && old(w.failed))
                && if w.buf.Length >= MIN_WRITER_SIZE then writer == w
                   else fresh(writer) && fresh(writer.buf) && State().buffered == []
      ensures old(w.n) == 0 && !old(w.failed) ==> r == flushed && State() == m
    {
      ghost var before := w.buf[..w.n];
      r := FlushWriter();
      flushed, m := r, State();
      if r != Sent {
        return;
      }
      assert w != writer ==> w.buf[..w.n] == before;
      r := SwapWriter(w, w.buf[..w.n]);
    }

    // ----- a whole message

    /** One call of another goroutine, as its own method does it. */
    method RunOther(call: OtherCall) returns (r: Outcome, ghost g: Frame)
      requires Valid()
      modifies this`log, this`keyless, this`closeSent, this`writer, writer, writer.buf, sock
      ensures Valid() && OtherDone(call, old(State()), g, State(), r) && (r == Refused(NoMaskingKey) ==> keyless)
      ensures (writer == old(writer) || fresh(writer)) && (writer.buf == old(writer.buf) || fresh(writer.buf))
    {
      hide FrameSent;
      match call
      case SendsControl(opcode, payload) =>
        r, g := SendControl(opcode, payload);
      case RenewsWriter(size) =>
        var w := new Writer(sock, size);
        ghost var flushed, m;
        r, flushed, m := RenewWriter(w);
        g := NewFrame(0, false, []);
    }

    /** Other goroutines' calls, one after another, and what each came to. */
    method RunOthers(calls: seq<OtherCall>) returns (ghost rs: seq<Outcome>, ghost cut: seq<Frame>)
      requires Valid() && Sound(State())
      modifies this`log, this`keyless, this`closeSent, this`writer, writer, writer.buf, sock
      ensures Valid() && Grew(old(State()), State()) && DataPart(log) == DataPart(old(log))
      ensures OthersDone(calls, rs, cut, old(State()), State())
      ensures (writer == old(writer) || fresh(writer)) && (writer.buf == old(writer.buf) || fresh(writer.buf))
    {
      hide Sound, Grew, OthersDone, OtherDone, OtherPart, DataPart;
      ghost var s := State();
      rs, cut := [], [];
      GrewNot(s);
      NoOthers(s, s);
      assert calls[..0] == [];
      for i := 0 to |calls|
        invariant Valid() && Grew(s, State()) && DataPart(log) == DataPart(s.log)
        invariant OthersDone(calls[..i], rs, cut, s, State())
        invariant (writer == old(writer) || fresh(writer)) && (writer.buf == old(writer.buf) || fresh(writer.buf))
      {
        ghost var m := State();
        GrewIsSound(s, m);
        var r;
        ghost var g;
        r, g := RunOther(calls[i]);
        ghost var more := OneOther(calls[i], m, g, State(), r);
        OthersTwice(calls[..i], rs, cut, s, m, [calls[i]], [r], more, State());
        GrewTwice(s, m, State());
        assert calls[..i + 1] == calls[..i] + [calls[i]];
        rs, cut := rs + [r], cut + more;
      }
      assert calls[..|calls|] == calls;
    }

    /** One frame of a message, buffered under the lock. */
    method SendFragment(f: FrameRef, fin: bool, from: nat, to: nat, ghost fragment: Fragment)
      returns (r: Outcome, ghost issued: bool)
      requires Valid() && Sound(State()) && f.data != writer.buf
      requires from <= to <= f.data.Length && to - from < TWO_TO_64
      requires IsData(f.opcode) && !f.rsv1 && !f.rsv2 && !f.rsv3
      requires fragment == Fragment(f.opcode, fin, f.data[from..to])
      modifies this`log, this`keyless, writer, writer.buf, sock
      modifies f`maskingKey, f`mask, f`payloadLength, f`extendedLength, f`fin, f`from, f`to
      ensures Valid() && Grew(old(State()), State()) && OthersDone([], [], [], old(State()), State())
      ensures DataPart(log) == DataPart(old(log)) + if issued then [fragment] else []
      ensures (r == Sent ==> issued) && Excused(State(), r) && (r == Refused(NoMaskingKey) ==> keyless)
    {
      f.fin, f.from, f.to := fin, from, to;
      ghost var s, v := State(), f.Value();
      assert FragmentOf(v) == fragment && Legal(v);
      hide Sound, BufferedWrite, Legal, Grew, IsData, OthersDone, DataPart, Excused;
      r := BufferedWriteFrame(f);
      FragmentGrows(s, v, f.Value(), State(), r);
      issued := log != s.log;
    }

    /**
     i frames of the message are through, each after its turn of the others; from `at` on the payload is still to be
     cut.
     */
    ghost predicate MidMessage(f: FrameRef, s: ConnState, data: seq<byte>, chunkSize: int, opcode: byte,
                               others: nat -> seq<OtherCall>, at: nat, fin: bool, p: Progress)
      reads this, writer, writer.buf, writer.sock, sock, f
    {
      var cs := Chunks(data, chunkSize);
      && Valid() && CameTo(s, State(), cs, opcode, others, p) && p.turns == p.sent
      && at <= |data| && (fin <==> p.sent == |cs|)
      && !f.rsv1 && !f.rsv2 && !f.rsv3
      && f.opcode == (if p.sent == 0 then opcode else OPCODE_CONTINUATION)
      && (!fin ==> cs[p.sent..] == Chunks(data[at..], chunkSize))
    }

    /** The others' turn before the next frame, or before the final flush. */
    method OthersGo(calls: seq<OtherCall>, ghost s: ConnState, ghost cs: seq<seq<byte>>, ghost opcode: byte,
                    ghost others: nat -> seq<OtherCall>, ghost p: Progress)
      returns (ghost q: Progress)
      requires Valid() && CameTo(s, State(), cs, opcode, others, p) && p.turns == p.sent && calls == others(p.turns)
      modifies this`log, this`keyless, this`closeSent, this`writer, writer, writer.buf, sock
      ensures Valid() && CameTo(s, State(), cs, opcode, others, q) && q.sent == p.sent && q.turns == p.turns + 1
      ensures (writer == old(writer) || fresh(writer)) && (writer.buf == old(writer.buf) || fresh(writer.buf))
    {
      ghost var m := State();
      GrewIsSound(s, m);
      hide CameTo, Grew, OthersDone, DataPart;
      ghost var rs, cut;
      rs, cut := RunOthers(calls);
      OthersTurn(s, m, State(), cs, opcode, others, p, rs, cut);
      q := p.(turns := p.turns + 1, outcomes := p.outcomes + rs, cut := p.cut + cut);
    }

    /** The message's own part of the turn. */
    method SendFragmentOf(f: FrameRef, fin: bool, from: nat, to: nat, ghost s: ConnState, ghost cs: seq<seq<byte>>,
                          ghost opcode: byte, ghost others: nat -> seq<OtherCall>, ghost p: Progress)
      returns (r: Outcome, ghost q: Progress)
      requires Valid() && CameTo(s, State(), cs, opcode, others, p) && p.turns == p.sent + 1 && p.sent < |cs|
      requires OpensMessage(opcode) && f.opcode == (if p.sent == 0 then opcode else OPCODE_CONTINUATION)
      requires f.data != writer.buf && !f.rsv1 && !f.rsv2 && !f.rsv3
      requires from <= to <= f.data.Length && to - from < TWO_TO_64 && f.data[from..to] == cs[p.sent]
      requires fin <==> p.sent + 1 == |cs|
      modifies this`log, this`keyless, writer, writer.buf, sock
      modifies f`maskingKey, f`mask, f`payloadLength, f`extendedLength, f`fin, f`from, f`to
      ensures Valid() && CameTo(s, State(), cs, opcode, others, q)
      ensures Excused(State(), r) && (r == Refused(NoMaskingKey) ==> keyless)
      ensures r == Sent ==> q.turns == q.sent == p.sent + 1
    {
      ghost var m := State();
      GrewIsSound(s, m);
      hide CameTo, Sound, Excused, OthersDone, Grew, DataPart;
      ghost var issued;
      r, issued := SendFragment(f, fin, from, to, Fragment(f.opcode, fin, cs[p.sent]));
      FrameTurn(s, m, State(), cs, opcode, others, p, fin, issued);
      q := if issued then p.(sent := p.sent + 1) else p;
    }

    lemma {:induction false} MidMessageTurns(f: FrameRef, s: ConnState, data: seq<byte>, chunkSize: int, opcode: byte,
                                             others: nat -> seq<OtherCall>, at: nat, fin: bool, p: Progress)
      requires MidMessage(f, s, data, chunkSize, opcode, others, at, fin, p)
      ensures p.turns == p.sent && CameTo(s, State(), Chunks(data, chunkSize), opcode, others, p)
      ensures p.sent <= |Chunks(data, chunkSize)| && (fin <==> p.sent == |Chunks(data, chunkSize)|)
    {}

    /** One turn of the chunking loop. */
    method SendNextChunk(f: FrameRef, chunkSize: int, at: nat, calls: seq<OtherCall>, ghost s: ConnState,
                         ghost data: seq<byte>, ghost opcode: byte, ghost others: nat -> seq<OtherCall>,
                         ghost p: Progress)
      returns (r: Outcome, fin: bool, end: nat, ghost q: Progress)
      requires f.data != writer.buf && f.data[..] == data && |data| < TWO_TO_64 && OpensMessage(opcode)
      requires MidMessage(f, s, data, chunkSize, opcode, others, at, false, p) && calls == others(p.turns)
      modifies this`log, this`keyless, this`closeSent, this`writer, writer, writer.buf, sock, f
      ensures Valid() && f.data == old(f.data)
      ensures (writer == old(writer) || fresh(writer)) && (writer.buf == old(writer.buf) || fresh(writer.buf))
      ensures p.sent < |Chunks(data, chunkSize)|
      ensures r == Sent ==> MidMessage(f, s, data, chunkSize, opcode, others, end, fin, q) && q.sent == p.sent + 1
      ensures CameTo(s, State(), Chunks(data, chunkSize), opcode, others, q)
      ensures Excused(State(), r) && (r == Refused(NoMaskingKey) ==> keyless)
    {
      hide CameTo, Chunks, Sound, Excused, OthersDone, Grew;
      ghost var cs := Chunks(data, chunkSize);
      MidMessageTurns(f, s, data, chunkSize, opcode, others, at, false, p);
      fin := chunkSize <= 0 || f.data.Length - at <= chunkSize;
      end := if fin then f.data.Length else at + chunkSize;
      NextChunk(data, at, chunkSize, cs, p.sent);
      assert f.data[at..end] == cs[p.sent];
      q := OthersGo(calls, s, cs, opcode, others, p);
      r, q := SendFragmentOf(f, fin, at, end, s, cs, opcode, others, q);
      f.opcode := OPCODE_CONTINUATION;
    }

    lemma MidMessageAtStart(f: FrameRef, s: ConnState, data: seq<byte>, chunkSize: int, opcode: byte,
                            others: nat -> seq<OtherCall>)
      requires Valid() && Sound(s) && s == State() && f.opcode == opcode && !f.rsv1 && !f.rsv2 && !f.rsv3
      ensures MidMessage(f, s, data, chunkSize, opcode, others, 0, false, Progress(0, 0, [], []))
    {
      hide CameTo, Sound;
      NothingYet(s, Chunks(data, chunkSize), opcode, others);
      assert data[0..] == data;
    }

    /** The chunking loop: every frame is buffered, each under its own hold of the lock. */
    method SendChunks(opcode: byte, payload: array<byte>, chunkSize: int, others: nat -> seq<OtherCall>)
      returns (r: Outcome, frames: nat, ghost p: Progress)
      requires Valid() && Sound(State()) && payload != writer.buf && payload.Length < TWO_TO_64 && OpensMessage(opcode)
      modifies this`log, this`keyless, this`closeSent, this`writer, writer, writer.buf, sock
      ensures Valid() && CameTo(old(State()), State(), Chunks(payload[..], chunkSize), opcode, others, p)
      ensures (writer == old(writer) || fresh(writer)) && (writer.buf == old(writer.buf) || fresh(writer.buf))
      ensures Excused(State(), r) && (r == Refused(NoMaskingKey) ==> keyless)
      ensures r == Sent ==> p.turns == p.sent == frames == |Chunks(payload[..], chunkSize)|
    {
      hide MidMessage, CameTo, Chunks, Sound, Excused;
      var f := new FrameRef(opcode, false, payload, 0, 0);
      ghost var data, s := payload[..], State();
      var fin, at := false, 0;
      frames, p := 0, Progress(0, 0, [], []);
      MidMessageAtStart(f, s, data, chunkSize, opcode, others);
      while !fin
        invariant Valid() && f.data == payload && f.data != writer.buf && p.sent == frames
        invariant (writer == old(writer) || fresh(writer)) && (writer.buf == old(writer.buf) || fresh(writer.buf))
        invariant MidMessage(f, s, data, chunkSize, opcode, others, at, fin, p)
        decreases |Chunks(data, chunkSize)| - frames
      {
        MidMessageTurns(f, s, data, chunkSize, opcode, others, at, fin, p);
        r, fin, at, p := SendNextChunk(f, chunkSize, at, others(frames), s, data, opcode, others, p);
        if r != Sent {
          return;
        }
        frames := frames + 1;
      }
      MidMessageTurns(f, s, data, chunkSize, opcode, others, at, fin, p);
      NoExcuse(State());
      r := Sent;
    }

    /**
     SendData, every other goroutine's calls included: those of `others(i)` run just before frame i takes the lock,
     and one more turn of them before the final flush. p says how far the message came and what those calls came to.
     */
    method SendData(opcode: byte, payload: array<byte>, chunkSize: int, others: nat -> seq<OtherCall>)
      returns (r: Outcome, ghost p: Progress)
      requires Valid() && Sound(State()) && payload != writer.buf && payload.Length < TWO_TO_64
      modifies this`log, this`keyless, this`closeSent, this`writer, writer, writer.buf, sock
      ensures Valid()
      ensures opcode == OPCODE_CONTINUATION ==> r == Refused(ContinuationFrameWithoutMsg) && State() == old(State())
      ensures opcode != OPCODE_CONTINUATION && dataFramesLocked ==> r == Waiting && State() == old(State())
      ensures !dataFramesLocked && opcode != OPCODE_CONTINUATION && !IsData(opcode) ==>
                r == Refused(NotDataFrameOpcode) && State() == old(State())
      ensures !dataFramesLocked && OpensMessage(opcode) ==>
                CameTo(old(State()), State(), Chunks(payload[..], chunkSize), opcode, others, p) && Excused(State(), r)
      ensures r == Sent ==>
                && !dataFramesLocked && OpensMessage(opcode)
                && p.sent == |Chunks(payload[..], chunkSize)| && p.turns == p.sent + 1
                && State().wire == WireAll(log) && State().buffered == [] && !State().failed
      ensures !dataFramesLocked && OpensMessage(opcode) && !sock.down && !keyless && !closeSent ==> r == Sent
    {
      p := Progress(0, 0, [], []);
      if opcode == OPCODE_CONTINUATION {
        return Refused(ContinuationFrameWithoutMsg), p;
      }
      if dataFramesLocked {
        return Waiting, p;
      }
      if !IsData(opcode) {
        return Refused(NotDataFrameOpcode), p;
      }
      hide CameTo, Chunks, Sound, Excused, WireAll;
      ghost var s, cs := State(), Chunks(payload[..], chunkSize);
      var frames;
      r, frames, p := SendChunks(opcode, payload, chunkSize, others);
      if r != Sent {
        return;
      }
      p := OthersGo(others(frames), s, cs, opcode, others, p);
      ghost var m := State();
      r := FlushWriter();
      FlushTurn(s, m, State(), cs, opcode, others, p, r);
    }

    // ----- a message streamed call by call

    /** Waiting once the checks are through, if another stream has not been released. */
    method StartLongDataTransmission(opcode: byte) returns (r: Outcome)
      modifies this`currentTransmitDataMsgOpcode, this`dataFramesLocked
      ensures r == if opcode == OPCODE_CONTINUATION then Refused(ContinuationFrameWithoutMsg)
                   else if !OpensMessage(opcode) then Refused(NotDataFrameOpcode)
                   else if closeSent then Refused(CloseAlreadySent)
                   else if old(dataFramesLocked) then Waiting
                   else Sent
      ensures dataFramesLocked == (old(dataFramesLocked) || r == Sent)
      ensures currentTransmitDataMsgOpcode == if r == Sent then opcode else old(currentTransmitDataMsgOpcode)
    {
      if opcode == OPCODE_CONTINUATION {
        return Refused(ContinuationFrameWithoutMsg);
      }
      if !IsData(opcode) {
        return Refused(NotDataFrameOpcode);
      }
      if closeSent {
        return Refused(CloseAlreadySent);
      }
      if dataFramesLocked {
        return Waiting;
      }
      dataFramesLocked, currentTransmitDataMsgOpcode := true, opcode;
      return Sent;
    }

    /** Sends data[from..to] as the stream's next frame. */
    method SendStreamFrame(data: array<byte>, from: nat, to: nat, fin: bool) returns (r: Outcome, ghost g: Frame)
      requires Valid() && data != writer.buf && from <= to <= data.Length && to - from < TWO_TO_64
      modifies this`log, this`keyless, this`closeSent, writer, writer.buf, sock
      ensures Valid()
      ensures var opcode := StreamOpcode(currentTransmitDataMsgOpcode, currentTransmitDataMsgOpened);
              FrameSent(old(State()), NewFrame(opcode, fin, data[from..to]), g, State(), r)
      ensures r == Refused(NoMaskingKey) ==> keyless
      ensures OpensMessage(currentTransmitDataMsgOpcode) && !sock.down && !keyless && !old(closeSent) ==> r == Sent
    {
      var opcode := StreamOpcode(currentTransmitDataMsgOpcode, currentTransmitDataMsgOpened);
      var f := new FrameRef(opcode, fin, data, from, to);
      r := SendFrame(f);
      g := f.Value();
    }

    method TransmitData(data: array<byte>, from: nat, to: nat) returns (r: Outcome, ghost g: Frame)
      requires Valid() && data != writer.buf && from <= to <= data.Length && to - from < TWO_TO_64
      modifies this`log, this`keyless, this`closeSent, this`currentTransmitDataMsgOpened, writer, writer.buf, sock
      ensures Valid()
      ensures currentTransmitDataMsgOpcode == 0 ==> r == Refused(LongDataTransmissionNotStarted)
      ensures currentTransmitDataMsgOpcode != 0 && from == to ==> r == Sent
      ensures currentTransmitDataMsgOpcode == 0 || from == to ==>
                State() == old(State()) && currentTransmitDataMsgOpened == old(currentTransmitDataMsgOpened)
      ensures currentTransmitDataMsgOpcode != 0 && from < to ==>
                var opcode := StreamOpcode(currentTransmitDataMsgOpcode, old(currentTransmitDataMsgOpened));
                && FrameSent(old(State()), NewFrame(opcode, false, data[from..to]), g, State(), r)
                && currentTransmitDataMsgOpened == (old(currentTransmitDataMsgOpened) || r == Sent)
      ensures r == Refused(NoMaskingKey) ==> keyless
      ensures OpensMessage(currentTransmitDataMsgOpcode) && !sock.down && !keyless && !old(closeSent) ==> r == Sent
    {
      g := NewFrame(0, false, []);
      if currentTransmitDataMsgOpcode == 0 {
        return Refused(LongDataTransmissionNotStarted), g;
      }
      if from == to {
        return Sent, g;
      }
      r, g := SendStreamFrame(data, from, to, false);
      if r == Sent {
        currentTransmitDataMsgOpened := true;
      }
    }

    method EndLongDataTransmission(data: array<byte>, from: nat, to: nat) returns (r: Outcome, ghost g: Frame)
      requires Valid() && data != writer.buf && from <= to <= data.Length && to - from < TWO_TO_64
      modifies this`log, this`keyless, this`closeSent, writer, writer.buf, sock
      ensures Valid()
      ensures currentTransmitDataMsgOpcode == 0 ==>
                r == Refused(LongDataTransmissionNotStarted) && State() == old(State())
      ensures currentTransmitDataMsgOpcode != 0 ==>
                var opcode := StreamOpcode(currentTransmitDataMsgOpcode, currentTransmitDataMsgOpened);
                FrameSent(old(State()), NewFrame(opcode, true, data[from..to]), g, State(), r)
      ensures r == Refused(NoMaskingKey) ==> keyless
      ensures OpensMessage(currentTransmitDataMsgOpcode) && !sock.down && !keyless && !old(closeSent) ==> r == Sent
    {
      if currentTransmitDataMsgOpcode == 0 {
        g := NewFrame(0, false, []);
        return Refused(LongDataTransmissionNotStarted), g;
      }
      r, g := SendStreamFrame(data, from, to, true);
    }

    method ReleaseLongDataTransmission()
      requires dataFramesLocked
      modifies this`currentTransmitDataMsgOpcode, this`currentTransmitDataMsgOpened, this`dataFramesLocked
      ensures !dataFramesLocked && currentTransmitDataMsgOpcode == 0 && !currentTransmitDataMsgOpened
    {
      currentTransmitDataMsgOpcode, currentTransmitDataMsgOpened, dataFramesLocked := 0, false, false;
    }
  }
}
