/**
 Every goroutine sending on one connection, interleaved (ConnectionWrite.go, ConnectionDataFrame.go,
 ConnectionLongDataTransmission.go). What one hold of writeLocker does is a single step.
 */
module Senders {
  import opened Bytes
  import opened Frames
  import opened Sending
  import opened Messages

  datatype StreamPhase = Open | Ended | EndFailed

  /** Where a goroutine is. `locked` says it holds writeLocker; `marks` are the log indices of its message's frames. */
  datatype PC =
    | Idle
    | DataWait(op: byte, chunks: seq<seq<byte>>)
    | DataHeld(op: byte, chunks: seq<seq<byte>>, marks: seq<nat>, locked: bool)
    | DataDone(op: byte, chunks: seq<seq<byte>>, marks: seq<nat>, r: Outcome)
    | StartCheck(op: byte, locked: bool)
    | StartWait(op: byte)
    | Stream(op: byte, sent: seq<seq<byte>>, phase: StreamPhase)
    | StreamSend(op: byte, sent: seq<seq<byte>>, data: seq<byte>, fin: bool, locked: bool)
    | FrameSend(frame: Frame, locked: bool)
    | Renew(locked: bool)

  predicate UsesWriteLock(pc: PC) {
    pc.DataHeld? || pc.StartCheck? || pc.StreamSend? || pc.FrameSend? || pc.Renew?
  }

  predicate HoldsWriteLock(pc: PC) {
    UsesWriteLock(pc) && pc.locked
  }

  predicate WaitsForDataLock(pc: PC) {
    pc.DataWait? || pc.StartWait?
  }

  predicate HoldsDataLock(pc: PC) {
    pc.DataHeld? || pc.DataDone? || pc.Stream? || pc.StreamSend?
  }

  /**
   `taken` is how long the log was when dataFramesWriteLocker was last taken, and `base` the data frames it held.
   `clean` says the callers kept their side: no data frame through SendFrame, and no message abandoned while it could
   go on.
   */
  datatype State = State(
    conn: ConnState, writeOwner: Option<nat>, dataOwner: Option<nat>, pcs: seq<PC>,
    current: byte, begun: bool, taken: nat, base: seq<Fragment>, clean: bool)

  datatype Call =
    | SendData(op: byte, payload: seq<byte>, chunkSize: int)
    | Start(op: byte)
    | Transmit(data: seq<byte>)
    | End(data: seq<byte>)
    | SendFrame(frame: Frame)
    | RenewWriter

  datatype Action =
    | Calls(call: Call)
    | LocksData
    | LocksWrite
    | Works(g: Frame, r: Outcome)
    | Returns
    | Releases

  /**
   Where a call leaves its goroutine, if it can be made there: streams are continued by the goroutine that started
   them.
   */
  function Begin(pc: PC, c: Call): Option<PC> {
    match c
    case SendData(op, payload, chunkSize) =>
      if !pc.Idle? || |payload| >= TWO_TO_64 then None
      else Some(if op == OPCODE_CONTINUATION then Idle else DataWait(op, Chunks(payload, chunkSize)))
    case Start(op) =>
      if !pc.Idle? then None else Some(if OpensMessage(op) then StartCheck(op, false) else Idle)
    case Transmit(data) =>
      if !pc.Stream? || !pc.phase.Open? || |data| >= TWO_TO_64 then None
      else Some(if data == [] then pc else StreamSend(pc.op, pc.sent, data, false, false))
    case End(data) =>
      if !pc.Stream? || !pc.phase.Open? || |data| >= TWO_TO_64 then None
      else Some(StreamSend(pc.op, pc.sent, data, true, false))
    case SendFrame(f) =>
      if !pc.Idle? || |f.payload| >= TWO_TO_64 then None else Some(FrameSend(f, false))
    case RenewWriter =>
      if !pc.Idle? then None else Some(Renew(false))
  }

  /** Where taking dataFramesWriteLocker leaves the goroutine. */
  function Entered(pc: PC): PC
    requires WaitsForDataLock(pc)
  {
    match pc
    case DataWait(op, chunks) =>
      if IsData(op) then DataHeld(op, chunks, [], false) else DataDone(op, chunks, [], Refused(NotDataFrameOpcode))
    case StartWait(op) => Stream(op, [], Open)
  }

  function ChunkFrame(op: byte, chunks: seq<seq<byte>>, i: nat): Frame
    requires i < |chunks|
  {
    NewFrame(if i == 0 then op else OPCODE_CONTINUATION, i + 1 == |chunks|, chunks[i])
  }

  /** What the goroutine does to the connection under writeLocker. */
  predicate Effect(s: State, pc: PC, g: Frame, c: ConnState, r: Outcome) {
    match pc
    case DataHeld(op, chunks, marks, _) =>
      if |marks| < |chunks| then BufferedWrite(s.conn, ChunkFrame(op, chunks, |marks|), g, c, r)
      else Flushed(s.conn, c, r)
    case StreamSend(_, _, data, fin, _) =>
      FrameSent(s.conn, NewFrame(StreamOpcode(s.current, s.begun), fin, data), g, c, r)
    case FrameSend(f, _) => FrameSent(s.conn, f, g, c, r)
    case Renew(_) => Flushed(s.conn, c, r)
    case StartCheck(_, _) => c == s.conn && r == if c.closeSent then Refused(CloseAlreadySent) else Sent
    case _ => false
  }

  /** Where it goes from there, `at` being the length of the log it found. */
  function After(pc: PC, at: nat, r: Outcome): PC {
    match pc
    case DataHeld(op, chunks, marks, _) =>
      if |marks| < |chunks| && r == Sent then DataHeld(op, chunks, marks + [at], false)
      else DataDone(op, chunks, marks, r)
    case StreamSend(op, sent, data, fin, _) =>
      Stream(op, if r == Sent then sent + [data] else sent,
          if !fin then Open else if r == Sent then Ended else EndFailed)
    case StartCheck(op, _) => if r == Sent then StartWait(op) else Idle
    case _ => Idle
  }

  /** A data frame sent past the message lock, or a message given up for want of a masking key. */
  predicate Misused(pc: PC, c: ConnState, d: ConnState, r: Outcome) {
    match pc
    case DataHeld(_, chunks, marks, _) => 0 < |marks| < |chunks| && r == Refused(NoMaskingKey)
    case FrameSend(f, _) => IsData(f.opcode) && d.log != c.log
    case _ => false
  }

  predicate WorkStep(s: State, i: nat, g: Frame, r: Outcome, t: State)
    requires i < |s.pcs|
  {
    var pc := s.pcs[i];
    && HoldsWriteLock(pc)
    && Effect(s, pc, g, t.conn, r)
    && t == s.(conn := t.conn, writeOwner := None, pcs := s.pcs[i := After(pc, |s.conn.log|, r)],
               begun := s.begun || (pc.StreamSend? && !pc.fin && r == Sent),
               clean := s.clean && !Misused(pc, s.conn, t.conn, r))
  }

  /** Release may come before End: unless nothing was sent or nothing could be, that abandons the message. */
  predicate MessageOver(s: State, pc: PC)
    requires pc.Stream?
  {
    pc.sent == [] || pc.phase.Ended? || s.conn.closeSent || s.conn.failed
  }

  /** Every step but one under writeLocker. */
  predicate QuietStep(s: State, i: nat, a: Action, t: State)
    requires i < |s.pcs|
  {
    var pc := s.pcs[i];
    match a
    case Calls(c) => Begin(pc, c).Some? && t == s.(pcs := s.pcs[i := Begin(pc, c).value])
    case LocksWrite =>
      && s.writeOwner == None && UsesWriteLock(pc) && !pc.locked
      && t == s.(writeOwner := Some(i), pcs := s.pcs[i := pc.(locked := true)])
    case LocksData =>
      && s.dataOwner == None && WaitsForDataLock(pc)
      && t == s.(dataOwner := Some(i), taken := |s.conn.log|, base := DataPart(s.conn.log),
                 current := if pc.StartWait? then pc.op else s.current, pcs := s.pcs[i := Entered(pc)])
    case Returns => pc.DataDone? && t == s.(dataOwner := None, pcs := s.pcs[i := Idle])
    case Releases =>
      && pc.Stream?
      && t == s.(dataOwner := None, current := 0, begun := false, pcs := s.pcs[i := Idle],
                 clean := s.clean && MessageOver(s, pc))
    case Works(_, _) => false
  }

  predicate Step(s: State, i: nat, a: Action, t: State) {
    i < |s.pcs| && if a.Works? then WorkStep(s, i, a.g, a.r, t) else QuietStep(s, i, a, t)
  }

  predicate Init(s: State) {
    && s == State(ConnState(s.conn.masks, false, [], [], false, []), None, None, s.pcs, 0, false, 0, [], true)
    && forall i | 0 <= i < |s.pcs| :: s.pcs[i].Idle?
  }

  // ----- the two locks

  predicate Locks(s: State) {
    && (s.writeOwner.Some? ==> s.writeOwner.value < |s.pcs|)
    && (s.dataOwner.Some? ==> s.dataOwner.value < |s.pcs|)
    && (forall i | 0 <= i < |s.pcs| :: HoldsWriteLock(s.pcs[i]) <==> s.writeOwner == Some(i))
    && (forall i | 0 <= i < |s.pcs| :: HoldsDataLock(s.pcs[i]) <==> s.dataOwner == Some(i))
  }

  /** Goroutine i takes, keeps, gives back or does without each lock, and takes it only when it is free. */
  predicate MovesLocks(s: State, i: nat, t: State)
    requires i < |s.pcs|
  {
    && |t.pcs| == |s.pcs| && t.pcs == s.pcs[i := t.pcs[i]]
    && (if HoldsWriteLock(t.pcs[i]) == HoldsWriteLock(s.pcs[i]) then t.writeOwner == s.writeOwner
        else if HoldsWriteLock(t.pcs[i]) then s.writeOwner == None && t.writeOwner == Some(i)
        else t.writeOwner == None)
    && (if HoldsDataLock(t.pcs[i]) == HoldsDataLock(s.pcs[i]) then t.dataOwner == s.dataOwner
        else if HoldsDataLock(t.pcs[i]) then s.dataOwner == None && t.dataOwner == Some(i)
        else t.dataOwner == None)
  }

  lemma MovedLocks(s: State, i: nat, t: State)
    requires Locks(s) && i < |s.pcs| && MovesLocks(s, i, t)
    ensures Locks(t)
  {
    hide HoldsWriteLock, HoldsDataLock;
  }

  lemma WorkMovesLocks(s: State, i: nat, g: Frame, r: Outcome, t: State)
    requires i < |s.pcs| && WorkStep(s, i, g, r, t)
    ensures MovesLocks(s, i, t)
  {
    hide Effect, Misused;
  }

  lemma QuietStepMovesLocks(s: State, i: nat, a: Action, t: State)
    requires i < |s.pcs| && QuietStep(s, i, a, t)
    ensures MovesLocks(s, i, t)
  {
    hide Chunks, DataPart;
  }

  lemma LocksKept(s: State, i: nat, a: Action, t: State)
    requires Locks(s) && Step(s, i, a, t)
    ensures Locks(t)
  {
    hide Locks, WorkStep, QuietStep, MovesLocks;
    if a.Works? {
      WorkMovesLocks(s, i, a.g, a.r, t);
    } else {
      QuietStepMovesLocks(s, i, a, t);
    }
    MovedLocks(s, i, t);
  }

  // ----- each goroutine on its own

  predicate FitsHeader(chunks: seq<seq<byte>>) {
    forall k | 0 <= k < |chunks| :: |chunks[k]| < TWO_TO_64
  }

  predicate NoneEmpty(sent: seq<seq<byte>>) {
    forall k | 0 <= k < |sent| :: sent[k] != []
  }

  predicate Sensible(pc: PC) {
    match pc
    case DataWait(op, chunks) => op != OPCODE_CONTINUATION && chunks != [] && FitsHeader(chunks)
    case DataHeld(op, chunks, marks, _) =>
      OpensMessage(op) && chunks != [] && FitsHeader(chunks) && |marks| <= |chunks|
    case DataDone(op, chunks, marks, r) =>
      && chunks != [] && |marks| <= |chunks|
      && (marks != [] ==> OpensMessage(op))
      && (r == Sent ==> |marks| == |chunks|)
    case StreamSend(op, sent, data, fin, _) =>
      OpensMessage(op) && NoneEmpty(sent) && |data| < TWO_TO_64 && (!fin ==> data != [])
    case StartCheck(op, _) => OpensMessage(op)
    case StartWait(op) => OpensMessage(op)
    case Stream(op, sent, phase) =>
      && OpensMessage(op)
      && if phase.Ended? then sent != [] && NoneEmpty(sent[..|sent| - 1]) else NoneEmpty(sent)
    case FrameSend(f, _) => |f.payload| < TWO_TO_64
    case _ => true
  }

  predicate AllSensible(s: State) {
    forall i | 0 <= i < |s.pcs| :: Sensible(s.pcs[i])
  }

  lemma {:induction false} ChunksFit(payload: seq<byte>, chunkSize: int)
    ensures forall k | 0 <= k < |Chunks(payload, chunkSize)| :: |Chunks(payload, chunkSize)[k]| <= |payload|
    decreases |payload|
  {
    if chunkSize > 0 && |payload| > chunkSize {
      ChunksFit(payload[chunkSize..], chunkSize);
    }
  }

  lemma SensibleKept(s: State, i: nat, a: Action, t: State)
    requires AllSensible(s) && Step(s, i, a, t)
    ensures AllSensible(t)
  {
    if a.Calls? && a.call.SendData? {
      ChunksFit(a.call.payload, a.call.chunkSize);
    }
    hide Effect, Chunks, DataPart;
  }

  // ----- the stream's two fields

  /** currentTransmitDataMsgOpcode and currentTransmitDataMsgOpened say what the owner of the data lock is doing. */
  predicate StreamFields(s: State) {
    match s.dataOwner
    case None => s.current == 0 && !s.begun
    case Some(i) =>
      && i < |s.pcs|
      && match s.pcs[i]
         case Stream(op, sent, phase) => s.current == op && (phase.Open? ==> (s.begun <==> sent != []))
         case StreamSend(op, sent, _, _, _) => s.current == op && (s.begun <==> sent != [])
         case _ => s.current == 0 && !s.begun
  }

  lemma StreamFieldsKept(s: State, i: nat, a: Action, t: State)
    requires Locks(s) && StreamFields(s) && Step(s, i, a, t)
    ensures StreamFields(t)
  {
    hide Effect, Chunks, DataPart;
  }

  // ----- the connection

  lemma EffectKeepsSound(s: State, pc: PC, g: Frame, c: ConnState, r: Outcome)
    requires Sound(s.conn) && Sensible(pc) && Effect(s, pc, g, c, r)
    ensures Sound(c)
  {
    match pc
    case DataHeld(op, chunks, marks, _) =>
      if |marks| < |chunks| {
        BufferedWriteKeepsSound(s.conn, ChunkFrame(op, chunks, |marks|), g, c, r);
      } else {
        FlushKeepsSound(s.conn, c, r);
      }
    case StreamSend(_, _, data, fin, _) =>
      FrameSentKeepsSound(s.conn, NewFrame(StreamOpcode(s.current, s.begun), fin, data), g, c, r);
    case FrameSend(f, _) => FrameSentKeepsSound(s.conn, f, g, c, r);
    case Renew(_) => FlushKeepsSound(s.conn, c, r);
    case StartCheck(_, _) =>
  }

  /** Nothing is taken back: not a logged frame, not a byte on the wire, not a close, not a failure. */
  predicate Onward(c: ConnState, d: ConnState) {
    c.log <= d.log && c.wire <= d.wire && (c.closeSent ==> d.closeSent) && (c.failed ==> d.failed)
  }

  lemma EffectOnward(s: State, pc: PC, g: Frame, c: ConnState, r: Outcome)
    requires Effect(s, pc, g, c, r)
    ensures Onward(s.conn, c)
  {}

  // ----- section 5.4 over every interleaving

  /** No fragment was added: what other goroutines' holds look like to the owner of the data lock. */
  predicate Quiet(c: ConnState, d: ConnState) {
    && DataPart(d.log) == DataPart(c.log)
    && (c.closeSent ==> d.closeSent) && (c.failed ==> d.failed)
    && (d.failed || d.buffered == c.buffered || d.buffered == [])
  }

  /** Fragment m was added, which no close, and no failure, came before. */
  predicate Adds(c: ConnState, d: ConnState, m: Fragment) {
    && !c.closeSent && !c.failed && !d.closeSent
    && DataPart(d.log) == DataPart(c.log) + [m]
  }

  lemma SentAdds(c: ConnState, f: Frame, g: Frame, d: ConnState, r: Outcome)
    requires FrameSent(c, f, g, d, r)
    ensures !IsData(f.opcode) ==> Quiet(c, d)
    ensures IsData(f.opcode) ==> (r != Sent && d == c) || Adds(c, d, FragmentOf(f))
    ensures r == Sent ==> d.buffered == []
    ensures r != Sent && d != c ==> d.failed
    ensures d == c && !c.failed ==> r != Refused(SocketFailed)
  {
    hide Wire;
    if d != c {
      DataPartSnoc(c.log, g);
    }
  }

  lemma BufferedAdds(c: ConnState, f: Frame, g: Frame, d: ConnState, r: Outcome)
    requires BufferedWrite(c, f, g, d, r) && IsData(f.opcode)
    ensures (r != Sent && d == c) || (Adds(c, d, FragmentOf(f)) && (r == Sent || d.failed))
    ensures d == c && !c.failed ==> r == Refused(NoMaskingKey) || (r == Refused(CloseAlreadySent) && c.closeSent)
  {
    hide Wire;
    if d != c {
      DataPartSnoc(c.log, g);
    }
  }

  lemma FlushQuiet(c: ConnState, d: ConnState, r: Outcome)
    requires Flushed(c, d, r)
    ensures Quiet(c, d) && d.closeSent == c.closeSent
    ensures if r == Sent then !d.failed && d.buffered == [] else d.failed
  {}

  /** What the owner of the data lock has added to the messages it found. */
  predicate OwnMessage(base: seq<Fragment>, ms: seq<Fragment>, buffered: seq<byte>, closeSent: bool, pc: PC) {
    match pc
    case DataHeld(op, chunks, marks, _) =>
      && |marks| <= |chunks|
      && ms == base + MessageOf(op, chunks[..|marks|], |marks| == |chunks|)
      && (marks == [] ==> buffered == [])
    case DataDone(op, chunks, marks, r) =>
      && |marks| <= |chunks|
      && ms == base + MessageOf(op, chunks[..|marks|], |marks| == |chunks|)
      && (closeSent || r == Sent || marks == [])
      && buffered == []
    case Stream(op, sent, phase) => ms == base + MessageOf(op, sent, phase.Ended?) && buffered == []
    case StreamSend(op, sent, _, _, _) => ms == base + MessageOf(op, sent, false) && buffered == []
    case _ => false
  }

  /**
   While the callers keep their side: the data frames are section 5.4's, and what follows the last
   whole message belongs to the owner of the data lock, or a close or the socket cut it off.
   */
  predicate Framing(s: State) {
    var ms := DataPart(s.conn.log);
    s.clean ==>
      && Run(Between, ms) != Illegal
      && (s.conn.failed
          || ((s.conn.closeSent ==> s.conn.buffered == [])
              && match s.dataOwner
                 case None => (s.conn.closeSent || Run(Between, ms) == Between) && s.conn.buffered == []
                 case Some(i) =>
                   && i < |s.pcs|
                   && (s.conn.closeSent || Run(Between, s.base) == Between)
                   && OwnMessage(s.base, ms, s.conn.buffered, s.conn.closeSent, s.pcs[i])))
  }

  lemma {:induction false} RunOfOwn(base: seq<Fragment>, op: byte, ps: seq<seq<byte>>, done: bool)
    requires Run(Between, base) == Between && (OpensMessage(op) || ps == [])
    ensures Run(Between, base + MessageOf(op, ps, done)) == if ps == [] || done then Between else Inside
  {
    RunAppend(Between, base, MessageOf(op, ps, done));
    if ps != [] {
      RunMessageOf(op, ps, done);
    }
  }

  lemma OwnMessageQuiet(base: seq<Fragment>, ms: seq<Fragment>, c: ConnState, d: ConnState, pc: PC)
    requires OwnMessage(base, ms, c.buffered, c.closeSent, pc) && Quiet(c, d) && !d.failed
    ensures OwnMessage(base, ms, d.buffered, d.closeSent, pc)
  {}

  /** A hold of writeLocker by a goroutine that does not own the message lock. */
  lemma OtherWorkKeepsFraming(s: State, i: nat, g: Frame, r: Outcome, t: State)
    requires Locks(s) && Framing(s) && i < |s.pcs| && WorkStep(s, i, g, r, t) && !HoldsDataLock(s.pcs[i])
    ensures Framing(t)
  {
    var pc := s.pcs[i];
    hide Run, DataPart, FrameSent, Flushed, OwnMessage;
    match pc
    case FrameSend(f, _) => SentAdds(s.conn, f, g, t.conn, r);
    case Renew(_) => FlushQuiet(s.conn, t.conn, r);
    case StartCheck(_, _) =>
    if t.clean && !t.conn.failed && s.dataOwner.Some? {
      OwnMessageQuiet(s.base, DataPart(s.conn.log), s.conn, t.conn, s.pcs[s.dataOwner.value]);
    }
  }

  /** The owner's next frame: its opcode first and 0 after, FIN when it is the last. */
  lemma OwnGrows(base: seq<Fragment>, ms: seq<Fragment>, op: byte, ps: seq<seq<byte>>, p: seq<byte>, done: bool)
    requires Run(Between, base) == Between && OpensMessage(op) && ms == base + MessageOf(op, ps, false)
    ensures var m := Fragment(if ps == [] then op else OPCODE_CONTINUATION, done, p);
            && ms + [m] == base + MessageOf(op, ps + [p], done)
            && Run(Between, ms + [m]) != Illegal
  {
    MessageOfSnoc(op, ps, p, done);
    RunOfOwn(base, op, ps + [p], done);
    hide *;
    AppendAssociates(base, MessageOf(op, ps, false), [Fragment(if ps == [] then op else OPCODE_CONTINUATION, done, p)]);
  }

  lemma ChunkWorkKeepsFraming(s: State, i: nat, g: Frame, r: Outcome, t: State)
    requires Locks(s) && AllSensible(s) && Framing(s) && i < |s.pcs| && WorkStep(s, i, g, r, t)
    requires s.pcs[i].DataHeld? && |s.pcs[i].marks| < |s.pcs[i].chunks|
    ensures Framing(t)
  {
    hide DataPart, BufferedWrite, Run, MessageOf, HoldsWriteLock;
    var pc := s.pcs[i];
    var chunks, n := pc.chunks, |pc.marks|;
    assert Sensible(pc);
    BufferedAdds(s.conn, ChunkFrame(pc.op, chunks, n), g, t.conn, r);
    if t.clean && !s.conn.failed && t.conn != s.conn {
      assert chunks[..n + 1] == chunks[..n] + [chunks[n]];
      OwnGrows(s.base, DataPart(s.conn.log), pc.op, chunks[..n], chunks[n], n + 1 == |chunks|);
    }
  }

  lemma FlushWorkKeepsFraming(s: State, i: nat, g: Frame, r: Outcome, t: State)
    requires Locks(s) && AllSensible(s) && Framing(s) && i < |s.pcs| && WorkStep(s, i, g, r, t)
    requires s.pcs[i].DataHeld? && |s.pcs[i].marks| == |s.pcs[i].chunks|
    ensures Framing(t)
  {}

  lemma StreamWorkKeepsFraming(s: State, i: nat, g: Frame, r: Outcome, t: State)
    requires Locks(s) && AllSensible(s) && StreamFields(s) && Framing(s) && i < |s.pcs| && WorkStep(s, i, g, r, t)
    requires s.pcs[i].StreamSend?
    ensures Framing(t)
  {
    hide DataPart, FrameSent, Run, MessageOf, HoldsWriteLock;
    var pc := s.pcs[i];
    assert Sensible(pc);
    SentAdds(s.conn, NewFrame(StreamOpcode(s.current, s.begun), pc.fin, pc.data), g, t.conn, r);
    if t.clean && !s.conn.failed && t.conn != s.conn {
      OwnGrows(s.base, DataPart(s.conn.log), pc.op, pc.sent, pc.data, pc.fin);
    }
  }

  lemma NothingYet(base: seq<Fragment>, op: byte, chunks: seq<seq<byte>>)
    ensures base + MessageOf(op, [], false) == base && chunks[..0] == []
  {}

  lemma QuietStepKeepsFraming(s: State, i: nat, a: Action, t: State)
    requires Locks(s) && AllSensible(s) && Framing(s) && i < |s.pcs| && QuietStep(s, i, a, t)
    ensures Framing(t)
  {
    hide DataPart, Run, MessageOf, Chunks, HoldsWriteLock, FitsHeader;
    var pc := s.pcs[i];
    assert Sensible(pc);
    if t.clean && !s.conn.failed {
      if a.LocksData? {
        NothingYet(t.base, pc.op, if pc.DataWait? then pc.chunks else []);
      } else if a.Returns? && !s.conn.closeSent {
        RunOfOwn(s.base, pc.op, pc.chunks[..|pc.marks|], |pc.marks| == |pc.chunks|);
      } else if a.Releases? && !s.conn.closeSent {
        RunOfOwn(s.base, pc.op, pc.sent, pc.phase.Ended?);
      }
    }
  }

  // ----- where a SendData's frames are

  /** marks are the log indices, in order, of the message's first frames. */
  predicate Marks(log: seq<Frame>, op: byte, chunks: seq<seq<byte>>, marks: seq<nat>) {
    && |marks| <= |chunks|
    && (forall k | 0 <= k < |marks| ::
          marks[k] < |log| && FragmentOf(log[marks[k]]) == FragmentOf(ChunkFrame(op, chunks, k)))
    && (forall j, k | 0 <= j < k < |marks| :: marks[j] < marks[k])
  }

  /** The first n frames of the log are on the wire to the last byte. */
  predicate OnTheWire(c: ConnState, n: nat) {
    n <= |c.log| && WireAll(c.log[..n]) <= c.wire
  }

  predicate Marked(c: ConnState, pc: PC) {
    match pc
    case DataHeld(op, chunks, marks, _) => Marks(c.log, op, chunks, marks)
    case DataDone(op, chunks, marks, r) =>
      && Marks(c.log, op, chunks, marks)
      && (r == Sent ==> OpensMessage(op) && marks != [] && |marks| == |chunks| && OnTheWire(c, marks[|marks| - 1] + 1))
    case _ => true
  }

  predicate AllMarked(s: State) {
    forall i | 0 <= i < |s.pcs| :: Marked(s.conn, s.pcs[i])
  }

  lemma MarkedOnward(c: ConnState, d: ConnState, pc: PC)
    requires Marked(c, pc) && Onward(c, d)
    ensures Marked(d, pc)
  {
    hide WireAll, FragmentOf;
    if pc.DataDone? && pc.r == Sent {
      var n := pc.marks[|pc.marks| - 1] + 1;
      assert d.log[..n] == c.log[..n];
    }
  }

  lemma BufferedMark(c: ConnState, f: Frame, g: Frame, d: ConnState)
    requires BufferedWrite(c, f, g, d, Sent) && IsData(f.opcode)
    ensures d.log == c.log + [g] && FragmentOf(g) == FragmentOf(f)
  {}

  lemma NextMark(log: seq<Frame>, g: Frame, op: byte, chunks: seq<seq<byte>>, marks: seq<nat>)
    requires Marks(log, op, chunks, marks) && |marks| < |chunks|
    requires FragmentOf(g) == FragmentOf(ChunkFrame(op, chunks, |marks|))
    ensures Marks(log + [g], op, chunks, marks + [|log|])
  {}

  lemma FlushReachesAll(c: ConnState, d: ConnState, n: nat)
    requires Sound(c) && Flushed(c, d, Sent) && n <= |c.log|
    ensures OnTheWire(d, n)
  {
    WireAllAppend(c.log[..n], c.log[n..]);
    assert c.log == c.log[..n] + c.log[n..];
  }

  lemma OwnWorkKeepsMarked(s: State, i: nat, g: Frame, r: Outcome, t: State)
    requires Sound(s.conn) && i < |s.pcs| && Sensible(s.pcs[i]) && Marked(s.conn, s.pcs[i]) && WorkStep(s, i, g, r, t)
    ensures Marked(t.conn, t.pcs[i])
  {
    hide Sound, FragmentOf, BufferedWrite, FrameSent, Flushed, WireAll, HoldsWriteLock;
    var pc := s.pcs[i];
    EffectOnward(s, pc, g, t.conn, r);
    MarkedOnward(s.conn, t.conn, pc);
    if pc.DataHeld? && r == Sent {
      var n := |pc.marks|;
      if n < |pc.chunks| {
        BufferedMark(s.conn, ChunkFrame(pc.op, pc.chunks, n), g, t.conn);
        NextMark(s.conn.log, g, pc.op, pc.chunks, pc.marks);
      } else {
        FlushReachesAll(s.conn, t.conn, pc.marks[n - 1] + 1);
      }
    }
  }

  lemma MarkedKept(s: State, i: nat, a: Action, t: State)
    requires Sound(s.conn) && AllSensible(s) && AllMarked(s) && Step(s, i, a, t)
    ensures AllMarked(t)
  {
    hide Sound, Effect, Sensible;
    if a.Works? {
      hide Marked;
      EffectOnward(s, s.pcs[i], a.g, t.conn, a.r);
      OwnWorkKeepsMarked(s, i, a.g, a.r, t);
      forall j | 0 <= j < |s.pcs| && j != i ensures Marked(t.conn, t.pcs[j]) {
        MarkedOnward(s.conn, t.conn, s.pcs[j]);
      }
    }
  }

  // ----- what the owner of the message lock found

  /** The data frames the owner found are still the log's first, and were on the wire before it sent anything. */
  predicate FoundOnWire(s: State) {
    && s.taken <= |s.conn.log| && s.base == DataPart(s.conn.log[..s.taken])
    && (s.clean && !s.conn.failed && s.dataOwner.Some? ==> OnTheWire(s.conn, s.taken))
  }

  lemma OnTheWireOnward(c: ConnState, d: ConnState, n: nat)
    requires Onward(c, d) && n <= |c.log|
    ensures d.log[..n] == c.log[..n] && (OnTheWire(c, n) ==> OnTheWire(d, n))
  {
    hide WireAll;
    assert d.log[..n] == c.log[..n];
  }

  lemma AllOnTheWire(c: ConnState)
    requires Accounted(c) && !c.failed && c.buffered == []
    ensures OnTheWire(c, |c.log|)
  {
    hide WireAll;
    assert c.log[..|c.log|] == c.log && c.Out() == c.wire;
  }

  lemma SoundIsAccounted(c: ConnState)
    requires Sound(c)
    ensures Accounted(c)
  {}

  lemma FoundOnWireKept(s: State, i: nat, a: Action, t: State)
    requires Sound(s.conn) && Framing(s) && FoundOnWire(s) && Step(s, i, a, t)
    ensures FoundOnWire(t)
  {
    hide Sound, Effect, DataPart, OnTheWire, Run, OwnMessage, After, Misused, Begin, Entered, MessageOver;
    if a.Works? {
      EffectOnward(s, s.pcs[i], a.g, t.conn, a.r);
      OnTheWireOnward(s.conn, t.conn, s.taken);
    } else if a.LocksData? {
      assert s.conn.log[..|s.conn.log|] == s.conn.log;
      if s.clean && !s.conn.failed {
        SoundIsAccounted(s.conn);
        AllOnTheWire(s.conn);
      }
    }
  }

  // ----- all of it, over every run

  predicate Inv(s: State) {
    Sound(s.conn) && Locks(s) && AllSensible(s) && StreamFields(s) && Framing(s) && AllMarked(s) && FoundOnWire(s)
  }

  lemma InvAtStart(s: State)
    requires Init(s)
    ensures Inv(s)
  {}

  lemma QuietStepKeepsConn(s: State, i: nat, a: Action, t: State)
    requires i < |s.pcs| && QuietStep(s, i, a, t)
    ensures t.conn == s.conn
  {}

  lemma WorkKeepsFraming(s: State, i: nat, g: Frame, r: Outcome, t: State)
    requires Locks(s) && AllSensible(s) && StreamFields(s) && Framing(s) && i < |s.pcs| && WorkStep(s, i, g, r, t)
    ensures Framing(t)
  {
    var pc := s.pcs[i];
    assert Sensible(pc) && (pc.DataHeld? || pc.StreamSend? || !HoldsDataLock(pc));
    hide Locks, Framing, StreamFields, Effect;
    if pc.StreamSend? {
      StreamWorkKeepsFraming(s, i, g, r, t);
    } else if !pc.DataHeld? {
      OtherWorkKeepsFraming(s, i, g, r, t);
    } else if |pc.marks| < |pc.chunks| {
      ChunkWorkKeepsFraming(s, i, g, r, t);
    } else {
      FlushWorkKeepsFraming(s, i, g, r, t);
    }
  }

  lemma InvKept(s: State, i: nat, a: Action, t: State)
    requires Inv(s) && Step(s, i, a, t)
    ensures Inv(t)
  {
    LocksKept(s, i, a, t);
    SensibleKept(s, i, a, t);
    StreamFieldsKept(s, i, a, t);
    MarkedKept(s, i, a, t);
    FoundOnWireKept(s, i, a, t);
    hide FoundOnWire, Sound, Locks, StreamFields, Framing, AllMarked, Effect, QuietStep;
    if a.Works? {
      var pc := s.pcs[i];
      assert Sensible(pc);
      EffectKeepsSound(s, pc, a.g, t.conn, a.r);
      WorkKeepsFraming(s, i, a.g, a.r, t);
    } else {
      QuietStepKeepsFraming(s, i, a, t);
      QuietStepKeepsConn(s, i, a, t);
    }
  }

  ghost predicate Next(s: State, t: State) {
    exists i: nat, a :: Step(s, i, a, t)
  }

  /** A run: any goroutines, any calls, any outcomes, in any order. */
  ghost predicate Behaves(ss: seq<State>) {
    && ss != [] && Init(ss[0])
    && forall k | 0 < k < |ss| :: Next(ss[k - 1], ss[k])
  }

  lemma {:induction false} AlwaysInv(ss: seq<State>)
    requires Behaves(ss)
    ensures Inv(ss[|ss| - 1])
  {
    hide Inv, Step, Init;
    var k := |ss| - 1;
    if k == 0 {
      InvAtStart(ss[0]);
    } else {
      assert Behaves(ss[..k]);
      AlwaysInv(ss[..k]);
      assert Next(ss[k - 1], ss[k]);
      var i: nat, a :| Step(ss[k - 1], i, a, ss[k]);
      InvKept(ss[k - 1], i, a, ss[k]);
    }
  }
}
