/** What a call comes to when nothing fails and nobody comes between (ConnectionDataFrame.go and its neighbours). */
module SenderCalls {
  import opened Bytes
  import opened Frames
  import opened Sending
  import opened Messages
  import opened Senders

  // ----- runs, step by step

  lemma Onwards(ss: seq<State>, i: nat, a: Action, t: State) returns (tt: seq<State>)
    requires Behaves(ss) && Step(ss[|ss| - 1], i, a, t)
    ensures Behaves(tt) && tt == ss + [t]
  {
    hide Step, Init;
    tt := ss + [t];
    assert Next(ss[|ss| - 1], t);
    forall k | 0 < k < |tt| ensures Next(tt[k - 1], tt[k]) {
      if k < |ss| {
        assert tt[k - 1] == ss[k - 1] && tt[k] == ss[k];
      }
    }
  }

  /** A call is made. */
  lemma Begins(ss: seq<State>, i: nat, c: Call) returns (tt: seq<State>)
    requires Behaves(ss) && i < |ss[|ss| - 1].pcs| && Begin(ss[|ss| - 1].pcs[i], c).Some?
    ensures Behaves(tt) && ss < tt
    ensures var s := ss[|ss| - 1]; tt[|tt| - 1] == s.(pcs := s.pcs[i := Begin(s.pcs[i], c).value])
  {
    var s := ss[|ss| - 1];
    hide Behaves, Begin;
    tt := Onwards(ss, i, Calls(c), s.(pcs := s.pcs[i := Begin(s.pcs[i], c).value]));
  }

  lemma Locked(s: State, i: nat) returns (t: State)
    requires i < |s.pcs| && s.writeOwner == None && UsesWriteLock(s.pcs[i]) && !s.pcs[i].locked
    ensures t == s.(writeOwner := Some(i), pcs := s.pcs[i := s.pcs[i].(locked := true)])
    ensures Step(s, i, LocksWrite, t)
  {
    t := s.(writeOwner := Some(i), pcs := s.pcs[i := s.pcs[i].(locked := true)]);
  }

  lemma Worked(s: State, i: nat, g: Frame, c: ConnState, r: Outcome) returns (t: State)
    requires i < |s.pcs| && HoldsWriteLock(s.pcs[i]) && Effect(s, s.pcs[i], g, c, r)
    ensures t == s.(conn := c, writeOwner := None, pcs := s.pcs[i := After(s.pcs[i], |s.conn.log|, r)],
                    begun := s.begun || (s.pcs[i].StreamSend? && !s.pcs[i].fin && r == Sent),
                    clean := s.clean && !Misused(s.pcs[i], s.conn, c, r))
    ensures Step(s, i, Works(g, r), t)
  {
    hide Effect, After, Misused;
    t := s.(conn := c, writeOwner := None, pcs := s.pcs[i := After(s.pcs[i], |s.conn.log|, r)],
            begun := s.begun || (s.pcs[i].StreamSend? && !s.pcs[i].fin && r == Sent),
            clean := s.clean && !Misused(s.pcs[i], s.conn, c, r));
  }

  /** One hold of the write lock by goroutine i, which does this to the connection. */
  lemma Holds(ss: seq<State>, i: nat, g: Frame, c: ConnState, r: Outcome) returns (tt: seq<State>)
    requires Behaves(ss) && i < |ss[|ss| - 1].pcs| && ss[|ss| - 1].writeOwner == None
    requires var s := ss[|ss| - 1];
             UsesWriteLock(s.pcs[i]) && !s.pcs[i].locked && Effect(s, s.pcs[i].(locked := true), g, c, r)
    ensures Behaves(tt) && ss < tt
    ensures var s := ss[|ss| - 1];
            var pc := s.pcs[i].(locked := true);
            tt[|tt| - 1] == s.(conn := c, pcs := s.pcs[i := After(pc, |s.conn.log|, r)],
                               begun := s.begun || (pc.StreamSend? && !pc.fin && r == Sent),
                               clean := s.clean && !Misused(pc, s.conn, c, r))
  {
    var s := ss[|ss| - 1];
    var a := Locked(s, i);
    tt := Onwards(ss, i, LocksWrite, a);
    assert Effect(a, a.pcs[i], g, c, r) by {
      hide BufferedWrite, FrameSent, Flushed;
    }
    var t := Worked(a, i, g, c, r);
    hide Effect, After, Misused, Behaves, Step;
    tt := Onwards(tt, i, Works(g, r), t);
    assert a.pcs[i := After(a.pcs[i], |s.conn.log|, r)] == s.pcs[i := After(a.pcs[i], |s.conn.log|, r)];
  }

  // ----- SendData

  /** c with these frames in its buffer. */
  function Buffering(c: ConnState, gs: seq<Frame>): ConnState {
    c.(buffered := c.buffered + WireAll(gs), log := c.log + gs)
  }

  lemma NothingBuffered(c: ConnState)
    ensures Buffering(c, []) == c
  {
    assert WireAll([]) == [] && c.buffered + [] == c.buffered && c.log + [] == c.log;
  }

  lemma BufferedOneMore(c: ConnState, g: Frame, gs: seq<Frame>)
    ensures Buffering(c.(buffered := c.buffered + Wire(g), log := c.log + [g]), gs) == Buffering(c, [g] + gs)
  {
    WireAllCons(g, gs);
    hide Wire, WireAll;
    AppendAssociates(c.buffered, Wire(g), WireAll(gs));
    AppendAssociates(c.log, [g], gs);
  }

  /** A data frame goes into the buffer as it is. */
  lemma Buffers(c: ConnState, f: Frame) returns (g: Frame)
    requires !c.failed && !c.closeSent && IsData(f.opcode) && |f.payload| < TWO_TO_64
    ensures BufferedWrite(c, f, g, c.(buffered := c.buffered + Wire(g), log := c.log + [g]), Sent)
    ensures IsData(g.opcode) && FragmentOf(g) == FragmentOf(f)
  {
    g := Prepare(f, c.masks, ZERO_KEY);
    hide Wire, Prepare;
    AppendAssociates(c.wire, c.buffered, Wire(g));
  }

  /** Data frames that carry these fragments. */
  predicate Carries(gs: seq<Frame>, ms: seq<Fragment>) {
    |gs| == |ms| && forall j | 0 <= j < |gs| :: IsData(gs[j].opcode) && FragmentOf(gs[j]) == ms[j]
  }

  lemma CarriesCons(g: Frame, gs: seq<Frame>, m: Fragment, ms: seq<Fragment>)
    requires IsData(g.opcode) && FragmentOf(g) == m && Carries(gs, ms)
    ensures Carries([g] + gs, [m] + ms)
  {}

  lemma CarriesNothing(ms: seq<Fragment>, n: nat)
    requires n == |ms|
    ensures Carries([], ms[n..])
  {}

  lemma {:induction false} CarriedIsDataPart(gs: seq<Frame>, ms: seq<Fragment>)
    requires Carries(gs, ms)
    ensures DataPart(gs) == ms
  {
    if gs != [] {
      CarriedIsDataPart(gs[1..], ms[1..]);
      assert ms == [ms[0]] + ms[1..];
    }
  }

  /** One chunk, under one hold of the lock. */
  lemma ChunkGoes(ss: seq<State>, i: nat, op: byte, chunks: seq<seq<byte>>, marks: seq<nat>)
    returns (tt: seq<State>, g: Frame)
    requires Behaves(ss) && OpensMessage(op) && FitsHeader(chunks) && |marks| < |chunks|
    requires var s := ss[|ss| - 1];
             && i < |s.pcs| && s.pcs[i] == DataHeld(op, chunks, marks, false)
             && s.writeOwner == None && !s.conn.failed && !s.conn.closeSent
    ensures Behaves(tt) && ss < tt && IsData(g.opcode)
    ensures FragmentOf(g) == MessageOf(op, chunks, true)[|marks|]
    ensures var s := ss[|ss| - 1];
            tt[|tt| - 1] == s.(conn := s.conn.(buffered := s.conn.buffered + Wire(g), log := s.conn.log + [g]),
                               pcs := s.pcs[i := DataHeld(op, chunks, marks + [|s.conn.log|], false)])
  {
    var s := ss[|ss| - 1];
    hide Behaves, BufferedWrite, Wire;
    g := Buffers(s.conn, ChunkFrame(op, chunks, |marks|));
    tt := Holds(ss, i, g, s.conn.(buffered := s.conn.buffered + Wire(g), log := s.conn.log + [g]), Sent);
  }

  /** The chunks not yet out, one hold after another. */
  lemma {:induction false} ChunksGo(ss: seq<State>, i: nat, op: byte, chunks: seq<seq<byte>>, marks: seq<nat>)
    returns (tt: seq<State>, gs: seq<Frame>, all: seq<nat>)
    requires Behaves(ss) && OpensMessage(op) && FitsHeader(chunks) && |marks| <= |chunks|
    requires var s := ss[|ss| - 1];
             && i < |s.pcs| && s.pcs[i] == DataHeld(op, chunks, marks, false)
             && s.writeOwner == None && !s.conn.failed && !s.conn.closeSent
    ensures Behaves(tt) && ss <= tt && |all| == |chunks|
    ensures Carries(gs, MessageOf(op, chunks, true)[|marks|..])
    ensures var s := ss[|ss| - 1];
            tt[|tt| - 1] == s.(conn := Buffering(s.conn, gs), pcs := s.pcs[i := DataHeld(op, chunks, all, false)])
    decreases |chunks| - |marks|
  {
    var s, ms := ss[|ss| - 1], MessageOf(op, chunks, true);
    hide Behaves, WireAll, Wire, MessageOf, FitsHeader, FragmentOf, IsData, Carries;
    if |marks| == |chunks| {
      tt, gs, all := ss, [], marks;
      NothingBuffered(s.conn);
      CarriesNothing(ms, |marks|);
      hide Buffering;
      assert s.pcs[i := s.pcs[i]] == s.pcs;
    } else {
      var g, rest;
      tt, g := ChunkGoes(ss, i, op, chunks, marks);
      var t := tt[|tt| - 1];
      tt, rest, all := ChunksGo(tt, i, op, chunks, marks + [|s.conn.log|]);
      gs := [g] + rest;
      BufferedOneMore(s.conn, g, rest);
      hide Buffering;
      assert ms[|marks|..] == [ms[|marks|]] + ms[|marks| + 1..];
      CarriesCons(g, rest, ms[|marks|], ms[|marks| + 1..]);
      assert t.pcs[i := DataHeld(op, chunks, all, false)] == s.pcs[i := DataHeld(op, chunks, all, false)];
    }
  }

  /** t is s with these frames on the wire behind everything else, and every goroutine where it was. */
  predicate Delivered(s: State, t: State, gs: seq<Frame>) {
    && t.conn == s.conn.(wire := s.conn.Out() + WireAll(gs), buffered := [], log := s.conn.log + gs)
    && t.pcs == s.pcs && t.writeOwner == s.writeOwner && t.dataOwner == None
    && t.current == 0 && !t.begun && t.clean == s.clean
  }

  /** No call is under way on the send side, nothing has failed and no close is out. */
  predicate Clear(s: State, i: nat) {
    && i < |s.pcs| && s.pcs[i].Idle? && s.writeOwner == None && s.dataOwner == None
    && !s.conn.failed && !s.conn.closeSent
  }

  lemma FlushOf(c: ConnState, gs: seq<Frame>)
    requires !c.failed
    ensures var b := Buffering(c, gs);
            && b.Out() == c.Out() + WireAll(gs)
            && Flushed(b, b.(wire := b.Out(), buffered := []), Sent)
  {
    AppendAssociates(c.wire, c.buffered, WireAll(gs));
  }

  lemma ReachedFields(ss: seq<State>)
    requires Behaves(ss)
    ensures ss != [] && StreamFields(ss[|ss| - 1])
  {
    AlwaysInv(ss);
  }

  lemma CarriesAsMany(gs: seq<Frame>, op: byte, ps: seq<seq<byte>>)
    requires Carries(gs, MessageOf(op, ps, true))
    ensures |gs| == |ps|
  {}

  /** SendData enters, taking the message lock. */
  lemma DataEnters(ss: seq<State>, i: nat, op: byte, payload: seq<byte>, chunkSize: int) returns (tt: seq<State>)
    requires Behaves(ss) && Clear(ss[|ss| - 1], i) && OpensMessage(op) && |payload| < TWO_TO_64
    ensures Behaves(tt) && ss < tt
    ensures var s, chunks := ss[|ss| - 1], Chunks(payload, chunkSize);
            tt[|tt| - 1] == s.(dataOwner := Some(i), taken := |s.conn.log|, base := DataPart(s.conn.log),
                               pcs := s.pcs[i := DataHeld(op, chunks, [], false)])
  {
    var s, chunks := ss[|ss| - 1], Chunks(payload, chunkSize);
    hide Behaves, Chunks, DataPart;
    tt := Begins(ss, i, Call.SendData(op, payload, chunkSize));
    var t := tt[|tt| - 1].(dataOwner := Some(i), taken := |s.conn.log|, base := DataPart(s.conn.log),
                           pcs := s.pcs[i := DataHeld(op, chunks, [], false)]);
    assert tt[|tt| - 1].pcs[i := DataHeld(op, chunks, [], false)] == t.pcs;
    tt := Onwards(tt, i, LocksData, t);
  }

  /** The final flush, and the message lock is free again. */
  lemma DataReturns(ss: seq<State>, i: nat, op: byte, chunks: seq<seq<byte>>, marks: seq<nat>) returns (tt: seq<State>)
    requires Behaves(ss) && |marks| == |chunks|
    requires var s := ss[|ss| - 1];
             && i < |s.pcs| && s.pcs[i] == DataHeld(op, chunks, marks, false) && s.writeOwner == None && !s.conn.failed
    ensures Behaves(tt) && ss < tt && |tt| >= 2 && |tt[|tt| - 2].pcs| == |ss[|ss| - 1].pcs|
    ensures tt[|tt| - 2].pcs[i] == DataDone(op, chunks, marks, Sent)
    ensures var s := ss[|ss| - 1];
            tt[|tt| - 1] == s.(conn := s.conn.(wire := s.conn.Out(), buffered := []), dataOwner := None,
                               pcs := s.pcs[i := Idle])
  {
    var s := ss[|ss| - 1];
    hide Behaves;
    tt := Holds(ss, i, NewFrame(0, false, []), s.conn.(wire := s.conn.Out(), buffered := []), Sent);
    var d := tt[|tt| - 1];
    var t := d.(dataOwner := None, pcs := d.pcs[i := Idle]);
    tt := Onwards(tt, i, Returns, t);
    assert t.pcs == s.pcs[i := Idle];
  }

  /** Nothing in its way, SendData returns nil with its whole message on the wire, cut as asked. */
  lemma SendDataSucceeds(ss: seq<State>, i: nat, op: byte, payload: seq<byte>, chunkSize: int)
    returns (tt: seq<State>, gs: seq<Frame>)
    requires Behaves(ss) && Clear(ss[|ss| - 1], i) && OpensMessage(op) && |payload| < TWO_TO_64
    ensures Behaves(tt) && ss < tt && |tt| >= 2
    ensures i < |tt[|tt| - 2].pcs| && tt[|tt| - 2].pcs[i].DataDone? && tt[|tt| - 2].pcs[i].r == Sent
    ensures Delivered(ss[|ss| - 1], tt[|tt| - 1], gs)
    ensures DataPart(gs) == MessageOf(op, Chunks(payload, chunkSize), true) && |gs| == |Chunks(payload, chunkSize)|
  {
    var s, chunks := ss[|ss| - 1], Chunks(payload, chunkSize);
    ReachedFields(ss);
    ChunksFit(payload, chunkSize);
    hide Behaves, Chunks, DataPart, WireAll, MessageOf, Flushed;
    tt := DataEnters(ss, i, op, payload, chunkSize);
    var a, marks := tt[|tt| - 1], [];
    tt, gs, marks := ChunksGo(tt, i, op, chunks, []);
    assert MessageOf(op, chunks, true)[0..] == MessageOf(op, chunks, true);
    CarriedIsDataPart(gs, MessageOf(op, chunks, true));
    CarriesAsMany(gs, op, chunks);
    var b := tt[|tt| - 1];
    tt := DataReturns(tt, i, op, chunks, marks);
    FlushOf(s.conn, gs);
    hide Flushed;
    var t := tt[|tt| - 1];
    assert t.pcs == s.pcs;
  }

  // ----- a stream

  /** A data frame goes out with everything before it. */
  lemma Sends(c: ConnState, f: Frame) returns (g: Frame)
    requires !c.failed && !c.closeSent && IsData(f.opcode) && |f.payload| < TWO_TO_64
    ensures FrameSent(c, f, g, c.(wire := c.Out() + Wire(g), buffered := [], log := c.log + [g]), Sent)
    ensures IsData(g.opcode) && FragmentOf(g) == FragmentOf(f)
  {
    g := Prepare(f, c.masks, ZERO_KEY);
    hide Wire, Prepare;
  }

  /** The stream is open, and its fields say how far its message is. */
  predicate Streaming(s: State, i: nat, op: byte, sent: seq<seq<byte>>) {
    && i < |s.pcs| && s.pcs[i] == Stream(op, sent, Open) && OpensMessage(op)
    && s.writeOwner == None && !s.conn.failed && !s.conn.closeSent
    && s.current == op && (s.begun <==> sent != [])
  }

  /** One frame of it, the last if fin: TransmitData with something to send, or EndLongDataTransmission. */
  lemma StreamGoes(ss: seq<State>, i: nat, op: byte, sent: seq<seq<byte>>, data: seq<byte>, fin: bool)
    returns (tt: seq<State>, g: Frame)
    requires Behaves(ss) && Streaming(ss[|ss| - 1], i, op, sent) && |data| < TWO_TO_64 && (!fin ==> data != [])
    ensures Behaves(tt) && ss < tt && IsData(g.opcode)
    ensures FragmentOf(g) == Fragment(if sent == [] then op else OPCODE_CONTINUATION, fin, data)
    ensures var s := ss[|ss| - 1];
            tt[|tt| - 1] == s.(conn := s.conn.(wire := s.conn.Out() + Wire(g), buffered := [], log := s.conn.log + [g]),
                               pcs := s.pcs[i := Stream(op, sent + [data], if fin then Ended else Open)],
                               begun := s.begun || !fin)
  {
    var s := ss[|ss| - 1];
    hide Behaves, FrameSent, Wire;
    tt := Begins(ss, i, if fin then End(data) else Transmit(data));
    var a := tt[|tt| - 1];
    assert a.pcs[i] == StreamSend(op, sent, data, fin, false);
    g := Sends(s.conn, NewFrame(StreamOpcode(s.current, s.begun), fin, data));
    tt := Holds(tt, i, g, s.conn.(wire := s.conn.Out() + Wire(g), buffered := [], log := s.conn.log + [g]), Sent);
    var pc := Stream(op, sent + [data], if fin then Ended else Open);
    assert a.pcs[i := pc] == s.pcs[i := pc];
  }

  /** What TransmitData sends of these chunks: the empty ones are left out. */
  function Sendable(chunks: seq<seq<byte>>): seq<seq<byte>> {
    if chunks == [] then [] else (if chunks[0] == [] then [] else [chunks[0]]) + Sendable(chunks[1..])
  }

  lemma SentNothing(c: ConnState)
    requires c.buffered == []
    ensures c.(wire := c.wire + WireAll([]), log := c.log + []) == c
  {
    assert WireAll([]) == [] && c.wire + [] == c.wire && c.log + [] == c.log;
  }

  lemma {:induction false} SendableStep(chunks: seq<seq<byte>>)
    requires chunks != []
    ensures Sendable(chunks) == (if chunks[0] == [] then [] else [chunks[0]]) + Sendable(chunks[1..])
  {}

  /** t is s with these frames out, and the stream that much further. */
  predicate Streamed(s: State, i: nat, op: byte, sent: seq<seq<byte>>, gs: seq<Frame>, t: State) {
    && i < |s.pcs|
    && t == s.(conn := s.conn.(wire := s.conn.wire + WireAll(gs), log := s.conn.log + gs),
               pcs := s.pcs[i := Stream(op, sent, Open)], begun := sent != [])
  }

  lemma StreamedNothing(s: State, i: nat, op: byte, sent: seq<seq<byte>>)
    requires Streaming(s, i, op, sent) && s.conn.buffered == []
    ensures Streamed(s, i, op, sent, [], s)
  {
    SentNothing(s.conn);
    assert s.pcs[i := s.pcs[i]] == s.pcs;
  }

  lemma StreamedOneMore(s: State, i: nat, op: byte, sent: seq<seq<byte>>, g: Frame, m: State, all: seq<seq<byte>>,
                        gs: seq<Frame>, t: State)
    requires s.conn.buffered == [] && Streamed(s, i, op, sent, [g], m) && Streamed(m, i, op, all, gs, t)
    ensures Streamed(s, i, op, all, [g] + gs, t)
  {
    WireAllAppend([g], gs);
    hide WireAll;
    AppendAssociates(s.conn.wire, WireAll([g]), WireAll(gs));
    AppendAssociates(s.conn.log, [g], gs);
    assert m.pcs[i := t.pcs[i]] == s.pcs[i := t.pcs[i]];
  }

  /** The fragments a stream adds to what it has sent. */
  function Further(op: byte, sent: seq<seq<byte>>, more: seq<seq<byte>>): seq<Fragment> {
    MessageOf(op, sent + more, false)[|sent|..]
  }

  /** From s on the stream has put out these chunks, as the frames that carry them. */
  predicate CameOn(s: State, i: nat, op: byte, sent: seq<seq<byte>>, more: seq<seq<byte>>, gs: seq<Frame>, t: State) {
    Streamed(s, i, op, sent + more, gs, t) && Carries(gs, Further(op, sent, more))
  }

  /** A run that has come to an open stream with nothing in the buffer. */
  ghost predicate InStream(ss: seq<State>, i: nat, op: byte, sent: seq<seq<byte>>) {
    Behaves(ss) && Streaming(ss[|ss| - 1], i, op, sent) && ss[|ss| - 1].conn.buffered == []
  }

  lemma CameOnNot(ss: seq<State>, i: nat, op: byte, sent: seq<seq<byte>>)
    requires InStream(ss, i, op, sent)
    ensures ss != [] && CameOn(ss[|ss| - 1], i, op, sent, Sendable([]), [], ss[|ss| - 1])
    ensures sent + Sendable([]) == sent
  {
    assert sent + [] == sent;
    StreamedNothing(ss[|ss| - 1], i, op, sent);
  }

  lemma FurtherStep(op: byte, sent: seq<seq<byte>>, p: seq<byte>, more: seq<seq<byte>>)
    ensures sent + ([p] + more) == (sent + [p]) + more
    ensures Further(op, sent, [p]) == [Fragment(if sent == [] then op else OPCODE_CONTINUATION, false, p)]
    ensures Further(op, sent, [p] + more) == Further(op, sent, [p]) + Further(op, sent + [p], more)
  {
    assert sent + ([p] + more) == (sent + [p]) + more;
  }

  /** One chunk, then more. */
  lemma CameFurther(ss: seq<State>, i: nat, op: byte, sent: seq<seq<byte>>, p: seq<byte>, g: Frame, m: State,
                    more: seq<seq<byte>>, gs: seq<Frame>, t: State)
    requires InStream(ss, i, op, sent)
    requires CameOn(ss[|ss| - 1], i, op, sent, [p], [g], m) && CameOn(m, i, op, sent + [p], more, gs, t)
    ensures CameOn(ss[|ss| - 1], i, op, sent, [p] + more, [g] + gs, t)
    ensures sent + ([p] + more) == (sent + [p]) + more
  {
    var s := ss[|ss| - 1];
    hide Behaves, Streamed, Further, FragmentOf;
    FurtherStep(op, sent, p, more);
    StreamedOneMore(s, i, op, sent + [p], g, m, (sent + [p]) + more, gs, t);
  }

  lemma OneIsStreamed(s: State, i: nat, op: byte, sent: seq<seq<byte>>, p: seq<byte>, g: Frame, t: State)
    requires i < |s.pcs| && s.conn.buffered == []
    requires t == s.(conn := s.conn.(wire := s.conn.Out() + Wire(g), buffered := [], log := s.conn.log + [g]),
                     pcs := s.pcs[i := Stream(op, sent + [p], Open)], begun := true)
    ensures Streamed(s, i, op, sent + [p], [g], t)
  {
    WireAllSnoc([], g);
    assert WireAll([]) == [] && [] + [g] == [g];
    hide Wire, WireAll;
    assert s.conn.Out() == s.conn.wire;
  }

  /** TransmitData with nothing to send. */
  lemma TransmitsNothing(ss: seq<State>, i: nat, op: byte, sent: seq<seq<byte>>) returns (tt: seq<State>)
    requires InStream(ss, i, op, sent)
    ensures InStream(tt, i, op, sent) && ss != [] && ss < tt && tt[|tt| - 1] == ss[|ss| - 1]
  {
    var s := ss[|ss| - 1];
    hide Behaves;
    tt := Begins(ss, i, Transmit([]));
    assert s.pcs[i := s.pcs[i]] == s.pcs;
  }

  /** TransmitData with a chunk to send. */
  lemma ChunkStreams(ss: seq<State>, i: nat, op: byte, sent: seq<seq<byte>>, p: seq<byte>)
    returns (tt: seq<State>, g: Frame)
    requires InStream(ss, i, op, sent) && p != [] && |p| < TWO_TO_64
    ensures InStream(tt, i, op, sent + [p]) && ss != [] && ss < tt
    ensures CameOn(ss[|ss| - 1], i, op, sent, [p], [g], tt[|tt| - 1])
  {
    var s := ss[|ss| - 1];
    hide Behaves, Wire, WireAll;
    tt, g := StreamGoes(ss, i, op, sent, p, false);
    OneIsStreamed(s, i, op, sent, p, g, tt[|tt| - 1]);
    hide FragmentOf;
    FurtherStep(op, sent, p, []);
  }

  /** TransmitData, chunk after chunk: a frame for each that is not empty. */
  lemma {:induction false} ChunksStream(ss: seq<State>, i: nat, op: byte, sent: seq<seq<byte>>,
                                        chunks: seq<seq<byte>>)
    returns (tt: seq<State>, gs: seq<Frame>)
    requires InStream(ss, i, op, sent) && FitsHeader(chunks)
    ensures InStream(tt, i, op, sent + Sendable(chunks)) && ss != [] && tt != [] && ss <= tt
    ensures CameOn(ss[|ss| - 1], i, op, sent, Sendable(chunks), gs, tt[|tt| - 1])
    decreases |chunks|
  {
    hide InStream, CameOn, Sendable;
    if chunks == [] {
      tt, gs := ss, [];
      CameOnNot(ss, i, op, sent);
    } else {
      SendableStep(chunks);
      var p, rest := chunks[0], chunks[1..];
      assert FitsHeader(rest);
      if p == [] {
        tt := TransmitsNothing(ss, i, op, sent);
        assert [] + Sendable(rest) == Sendable(rest);
        tt, gs := ChunksStream(tt, i, op, sent, rest);
      } else {
        var g;
        tt, g := ChunkStreams(ss, i, op, sent, p);
        var m := tt[|tt| - 1];
        tt, gs := ChunksStream(tt, i, op, sent + [p], rest);
        CameFurther(ss, i, op, sent, p, g, m, Sendable(rest), gs, tt[|tt| - 1]);
        gs := [g] + gs;
      }
    }
  }

  /** StartLongDataTransmission opens the stream. */
  lemma StreamStarts(ss: seq<State>, i: nat, op: byte) returns (tt: seq<State>)
    requires Behaves(ss) && Clear(ss[|ss| - 1], i) && OpensMessage(op) && ss[|ss| - 1].conn.buffered == []
    ensures InStream(tt, i, op, []) && ss < tt
    ensures var s := ss[|ss| - 1];
            tt[|tt| - 1] == s.(dataOwner := Some(i), taken := |s.conn.log|, base := DataPart(s.conn.log), current := op,
                               begun := false, pcs := s.pcs[i := Stream(op, [], Open)])
  {
    var s := ss[|ss| - 1];
    ReachedFields(ss);
    hide Behaves, DataPart;
    tt := Begins(ss, i, Start(op));
    tt := Holds(tt, i, NewFrame(0, false, []), s.conn, Sent);
    var a := tt[|tt| - 1];
    var t := a.(dataOwner := Some(i), taken := |s.conn.log|, base := DataPart(s.conn.log), current := op,
                pcs := a.pcs[i := Stream(op, [], Open)]);
    assert a.pcs[i] == StartWait(op);
    tt := Onwards(tt, i, LocksData, t);
    assert t.pcs == s.pcs[i := Stream(op, [], Open)];
  }

  /** EndLongDataTransmission and ReleaseLongDataTransmission. */
  lemma StreamEnds(ss: seq<State>, i: nat, op: byte, sent: seq<seq<byte>>, last: seq<byte>)
    returns (tt: seq<State>, g: Frame)
    requires InStream(ss, i, op, sent) && |last| < TWO_TO_64
    ensures Behaves(tt) && ss < tt && ss != [] && IsData(g.opcode)
    ensures FragmentOf(g) == Fragment(if sent == [] then op else OPCODE_CONTINUATION, true, last)
    ensures var s := ss[|ss| - 1];
            tt[|tt| - 1] == s.(conn := s.conn.(wire := s.conn.wire + Wire(g), log := s.conn.log + [g]),
                               pcs := s.pcs[i := Idle], dataOwner := None, current := 0, begun := false)
  {
    var s := ss[|ss| - 1];
    hide Behaves, Wire, FragmentOf;
    tt, g := StreamGoes(ss, i, op, sent, last, true);
    assert s.conn.Out() == s.conn.wire;
    var a := tt[|tt| - 1];
    var t := a.(dataOwner := None, current := 0, begun := false, pcs := a.pcs[i := Idle]);
    tt := Onwards(tt, i, Releases, t);
    assert t.pcs == s.pcs[i := Idle];
  }

  lemma {:induction false} LastCarried(op: byte, sent: seq<seq<byte>>, last: seq<byte>, gs: seq<Frame>, g: Frame)
    requires Carries(gs, Further(op, [], sent)) && IsData(g.opcode)
    requires FragmentOf(g) == Fragment(if sent == [] then op else OPCODE_CONTINUATION, true, last)
    ensures DataPart(gs + [g]) == MessageOf(op, sent + [last], true)
  {
    assert [] + sent == sent;
    MessageOfSnoc(op, sent, last, true);
    CarriedIsDataPart(gs, MessageOf(op, sent, false));
    DataPartSnoc(gs, g);
  }

  /**
   Nothing in its way, a stream puts one frame on the wire for each chunk that is not empty and one for its end, which
   together are a message, and leaves everything else as it was.
   */
  lemma StreamSucceeds(ss: seq<State>, i: nat, op: byte, chunks: seq<seq<byte>>, last: seq<byte>)
    returns (tt: seq<State>, gs: seq<Frame>)
    requires Behaves(ss) && Clear(ss[|ss| - 1], i) && ss[|ss| - 1].conn.buffered == [] && OpensMessage(op)
    requires FitsHeader(chunks) && |last| < TWO_TO_64
    ensures Behaves(tt) && ss < tt && Delivered(ss[|ss| - 1], tt[|tt| - 1], gs)
    ensures DataPart(gs) == MessageOf(op, Sendable(chunks) + [last], true)
  {
    var s := ss[|ss| - 1];
    ReachedFields(ss);
    hide Behaves, Wire, WireAll, DataPart, FragmentOf, Sendable, Further, FitsHeader, MessageOf, InStream, Carries;
    tt := StreamStarts(ss, i, op);
    var hs, g;
    tt, hs := ChunksStream(tt, i, op, [], chunks);
    var sent := Sendable(chunks);
    assert [] + sent == sent;
    tt, g := StreamEnds(tt, i, op, sent, last);
    gs := hs + [g];
    LastCarried(op, sent, last, hs, g);
    WireAllSnoc(hs, g);
    AppendAssociates(s.conn.wire, WireAll(hs), Wire(g));
    AppendAssociates(s.conn.log, hs, [g]);
    assert s.conn.Out() == s.conn.wire;
    assert tt[|tt| - 1].pcs == s.pcs;
  }

  // ----- one frame, one flush

  /** Nothing in its way, SendFrame puts its frame on the wire behind everything else, and a close counts at once. */
  lemma FrameSucceeds(ss: seq<State>, i: nat, f: Frame) returns (tt: seq<State>, g: Frame)
    requires Behaves(ss) && |f.payload| < TWO_TO_64
    requires var s := ss[|ss| - 1];
             && i < |s.pcs| && s.pcs[i].Idle? && s.writeOwner == None && !s.conn.failed
             && Refusal(f, s.conn.closeSent).None?
    ensures Behaves(tt) && ss < tt && g == Prepare(f, ss[|ss| - 1].conn.masks, ZERO_KEY)
    ensures var s := ss[|ss| - 1];
            tt[|tt| - 1] == s.(conn := s.conn.(wire := s.conn.Out() + Wire(g), buffered := [], log := s.conn.log + [g],
                                               closeSent := s.conn.closeSent || f.opcode == 0x8),
                               clean := s.clean && !IsData(f.opcode))
  {
    var s := ss[|ss| - 1];
    hide Behaves, Wire, Prepare, Refusal;
    g := Prepare(f, s.conn.masks, ZERO_KEY);
    var c := s.conn.(wire := s.conn.Out() + Wire(g), buffered := [], log := s.conn.log + [g],
                     closeSent := s.conn.closeSent || f.opcode == OPCODE_CLOSE);
    tt := Begins(ss, i, Call.SendFrame(f));
    tt := Holds(tt, i, g, c, Sent);
    assert s.pcs[i := FrameSend(f, false)][i := Idle] == s.pcs;
  }

  /** Nothing in its way, RenewWriter leaves nothing in the buffer. */
  lemma RenewSucceeds(ss: seq<State>, i: nat) returns (tt: seq<State>)
    requires Behaves(ss)
    requires var s := ss[|ss| - 1];
             i < |s.pcs| && s.pcs[i].Idle? && s.writeOwner == None && !s.conn.failed
    ensures Behaves(tt) && ss < tt
    ensures var s := ss[|ss| - 1]; tt[|tt| - 1] == s.(conn := s.conn.(wire := s.conn.Out(), buffered := []))
  {
    var s := ss[|ss| - 1];
    hide Behaves;
    tt := Begins(ss, i, Call.RenewWriter);
    tt := Holds(tt, i, NewFrame(0, false, []), s.conn.(wire := s.conn.Out(), buffered := []), Sent);
    assert s.pcs[i := Renew(false)][i := Idle] == s.pcs;
  }

  /** After a close a stream is not opened, and a message is given up, nothing more of it being sent. */
  lemma ClosedRefuses(s: State, i: nat, g: Frame, r: Outcome, t: State)
    requires s.conn.closeSent && Step(s, i, Works(g, r), t)
    ensures s.pcs[i].StartCheck? ==> t == s.(writeOwner := None, pcs := s.pcs[i := Idle])
    ensures s.pcs[i].DataHeld? && |s.pcs[i].marks| < |s.pcs[i].chunks| && OpensMessage(s.pcs[i].op) ==>
              && r == Refused(CloseAlreadySent) && t.conn == s.conn
              && t.pcs[i] == DataDone(s.pcs[i].op, s.pcs[i].chunks, s.pcs[i].marks, r)
    ensures s.pcs[i].StreamSend? && OpensMessage(s.current) ==>
              && r == Refused(CloseAlreadySent) && t.conn == s.conn && t.begun == s.begun
              && t.pcs[i] == Stream(s.pcs[i].op, s.pcs[i].sent, if s.pcs[i].fin then EndFailed else Open)
  {
    hide Prepared, Wire;
  }

  /** Opcodes that open no message are turned away: before any lock is taken, or with nothing sent. */
  lemma BadOpcodesSendNothing(s: State, i: nat, a: Action, t: State)
    requires Step(s, i, a, t)
    ensures a.Calls? && a.call.SendData? && a.call.op == 0 ==> t.pcs[i] == Idle
    ensures a.Calls? && a.call.Start? && a.call.op != 1 && a.call.op != 2 ==> t.pcs[i] == Idle
    ensures a.LocksData? && s.pcs[i].DataWait? && s.pcs[i].op > 2 ==>
              t.pcs[i] == DataDone(s.pcs[i].op, s.pcs[i].chunks, [], Refused(NotDataFrameOpcode)) && t.conn == s.conn
    ensures a.Calls? || a.LocksData? || a.LocksWrite? || a.Returns? || a.Releases? ==> t.conn == s.conn
  {
    hide Effect, Chunks, DataPart;
  }

  /** Exactly what callers must not do: send data past the message lock, or give up a message others could take over. */
  lemma CleanIsExact(s: State, i: nat, a: Action, t: State)
    requires Sound(s.conn) && AllSensible(s) && Step(s, i, a, t) && s.clean
    ensures var pc := s.pcs[i];
            !t.clean <==>
              || (a.Works? && pc.FrameSend? && IsData(pc.frame.opcode) && t.conn != s.conn)
              || (a.Works? && pc.DataHeld? && pc.marks != [] && a.r == Refused(NoMaskingKey))
              || (a.Releases? && pc.sent != [] && !pc.phase.Ended? && !s.conn.closeSent && !s.conn.failed)
  {
    hide Sound, Prepared, Wire, Chunks, DataPart;
    if a.Works? && s.pcs[i].DataHeld? {
      assert Sensible(s.pcs[i]);
    }
  }
}
