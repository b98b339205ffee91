/** What goroutines make of a connection between them, while one of them sends a message (ConnectionDataFrame.go). */
module Interleaving {
  import opened Bytes
  import opened Frames
  import opened Sending
  import opened Messages
  import opened FrameControl

  /** A frame a receiver has nothing against, whatever message is open. */
  predicate Legal(g: Frame) {
    && !g.rsv1 && !g.rsv2 && !g.rsv3
    && (IsData(g.opcode) || (IsControl(g.opcode) && g.fin && |g.payload| <= MAX_CONTROL_PAYLOAD))
  }

  /** t comes after s: legal frames were let through, none past a failure, and nothing was taken back. */
  ghost predicate Grew(s: ConnState, t: ConnState) {
    && s.log <= t.log && (forall g | g in t.log[|s.log|..] :: Legal(g))
    && t.masks == s.masks && (s.failed ==> t.failed && t.log == s.log) && (s.closeSent ==> t.closeSent)
    && Sound(t)
  }

  lemma GrewNot(s: ConnState)
    requires Sound(s)
    ensures Grew(s, s)
  {}

  lemma GrewTwice(s: ConnState, m: ConnState, t: ConnState)
    requires Grew(s, m) && Grew(m, t)
    ensures Grew(s, t)
  {}

  lemma GrewByOne(s: ConnState, g: Frame, t: ConnState)
    requires !s.failed && t.log == s.log + [g] && Legal(g) && t.masks == s.masks && (s.closeSent ==> t.closeSent)
    requires Sound(t)
    ensures Grew(s, t)
  {
    hide Sound, Legal;
    assert t.log[|s.log|..] == [g];
  }

  /**
   A message is only given up on a close that went out, a socket that failed, or a masking key that could not be had.
   */
  predicate Excused(t: ConnState, r: Outcome) {
    match r
    case Sent => true
    case Refused(CloseAlreadySent) => t.closeSent
    case Refused(SocketFailed) => t.failed
    case Refused(NoMaskingKey) => t.masks
    case _ => false
  }

  lemma PreparedSaysTheSame(f: Frame, masks: bool, g: Frame)
    requires Prepared(f, masks, g) && Legal(f)
    ensures Legal(g) && Bare(g) == Bare(f) && FragmentOf(g) == FragmentOf(f)
  {}

  lemma NoExcuse(t: ConnState)
    ensures Excused(t, Sent)
  {}

  /** One send under one hold of the lock: what it can have done to the log. */
  lemma SentLogs(s: ConnState, f: Frame, g: Frame, t: ConnState, r: Outcome)
    requires FrameSent(s, f, g, t, r) && Legal(f)
    ensures t == s || (!s.failed && t.log == s.log + [g] && Legal(g) && Bare(g) == Bare(f))
    ensures t.masks == s.masks && (s.closeSent ==> t.closeSent) && (s.failed ==> t == s)
    ensures r == Sent ==> t != s && t.log == s.log + [g]
    ensures r != Sent && t != s ==> t.failed
    ensures r != Sent ==> Excused(t, r)
    ensures r == Refused(CloseAlreadySent) ==> IsData(f.opcode) || f.opcode == OPCODE_CLOSE
  {
    hide Wire, Prepared;
    if t != s {
      PreparedSaysTheSame(f, s.masks, g);
    }
  }

  // ----- what other goroutines may do

  /** What another goroutine may do between two holds of the write lock. */
  datatype OtherCall = SendsControl(opcode: byte, payload: seq<byte>) | RenewsWriter(size: int)

  /** What such a call makes of the connection. */
  predicate OtherDone(call: OtherCall, s: ConnState, g: Frame, t: ConnState, r: Outcome) {
    match call
    case RenewsWriter(_) => Flushed(s, t, r)
    case SendsControl(opcode, payload) =>
      match NewControlFrame(opcode, payload)
      case NotBuilt(error) => r == Refused(error) && t == s
      case Built(f) => FrameSent(s, f, g, t, r)
  }

  /** A call fails only for a reason that holds: of the frame, or of the connection afterwards. */
  predicate OtherExcused(call: OtherCall, t: ConnState, r: Outcome) {
    match r
    case Sent => true
    case Refused(SocketFailed) => t.failed
    case Refused(NoMaskingKey) => t.masks && call.SendsControl?
    case Refused(CloseAlreadySent) => t.closeSent && call.SendsControl? && call.opcode == OPCODE_CLOSE
    case Refused(NotControlFrameOpcode) => call.SendsControl? && !IsControl(call.opcode)
    case Refused(ControlFramePayloadTooLong) => call.SendsControl? && |call.payload| > MAX_CONTROL_PAYLOAD
    case _ => false
  }

  /** The control frame a call got through, if it did. */
  function ControlOf(call: OtherCall, r: Outcome): seq<Frame> {
    if call.SendsControl? && r == Sent then [NewFrame(call.opcode, true, call.payload)] else []
  }

  function ControlsOf(calls: seq<OtherCall>, rs: seq<Outcome>): seq<Frame>
    requires |calls| == |rs|
    decreases |calls|
  {
    if calls == [] then [] else ControlOf(calls[0], rs[0]) + ControlsOf(calls[1..], rs[1..])
  }

  /**
   Those calls were made, and came to rs: beside data frames, the log has exactly the control frames that got through,
   in order, and at most one more, in which the socket failed.
   */
  predicate OthersDone(calls: seq<OtherCall>, rs: seq<Outcome>, cut: seq<Frame>, s: ConnState, t: ConnState) {
    && |rs| == |calls|
    && OtherPart(t.log) == OtherPart(s.log) + ControlsOf(calls, rs) + cut
    && |cut| <= 1 && (cut != [] ==> t.failed && !s.failed)
    && (forall i | 0 <= i < |calls| :: OtherExcused(calls[i], t, rs[i]))
  }

  lemma ControlsOfOne(call: OtherCall, r: Outcome)
    ensures ControlsOf([call], [r]) == ControlOf(call, r)
  {
    assert [call][1..] == [] && [r][1..] == [] && ControlsOf([], []) == [];
  }

  lemma {:induction false} ControlsOfAppend(calls: seq<OtherCall>, rs: seq<Outcome>, more: seq<OtherCall>,
                                            ms: seq<Outcome>)
    requires |calls| == |rs| && |more| == |ms|
    ensures ControlsOf(calls + more, rs + ms) == ControlsOf(calls, rs) + ControlsOf(more, ms)
    decreases |calls|
  {
    if calls == [] {
      assert calls + more == more && rs + ms == ms;
    } else {
      assert (calls + more)[1..] == calls[1..] + more && (rs + ms)[1..] == rs[1..] + ms;
      ControlsOfAppend(calls[1..], rs[1..], more, ms);
      hide *;
    }
  }

  lemma NoOthers(s: ConnState, t: ConnState)
    requires OtherPart(t.log) == OtherPart(s.log)
    ensures OthersDone([], [], [], s, t)
  {
    assert ControlsOf([], []) == [];
  }

  lemma FourParts<T>(o: seq<T>, a: seq<T>, x: seq<T>, b: seq<T>, y: seq<T>)
    requires x == [] || b == []
    ensures ((o + a) + x) + b + y == o + (a + b) + (x + y)
  {}

  lemma NothingAdded<T>(o: seq<T>, b: seq<T>, y: seq<T>)
    requires o == o + b + y
    ensures b == [] && y == []
  {}

  lemma StaysExcused(call: OtherCall, s: ConnState, t: ConnState, r: Outcome)
    requires OtherExcused(call, s, r) && Grew(s, t)
    ensures OtherExcused(call, t, r)
  {}

  /** One stretch of calls after another. */
  lemma OthersTwice(calls: seq<OtherCall>, rs: seq<Outcome>, cut: seq<Frame>, s: ConnState, m: ConnState,
                    more: seq<OtherCall>, ms: seq<Outcome>, last: seq<Frame>, t: ConnState)
    requires OthersDone(calls, rs, cut, s, m) && OthersDone(more, ms, last, m, t)
    requires Grew(s, m) && Grew(m, t)
    ensures OthersDone(calls + more, rs + ms, cut + last, s, t)
  {
    hide Sound, Legal, OtherPart, ControlsOf, OtherExcused;
    var o, a, b := OtherPart(s.log), ControlsOf(calls, rs), ControlsOf(more, ms);
    ControlsOfAppend(calls, rs, more, ms);
    if cut != [] {
      NothingAdded(OtherPart(m.log), b, last);
    }
    FourParts(o, a, cut, b, last);
    forall i | 0 <= i < |calls + more| ensures OtherExcused((calls + more)[i], t, (rs + ms)[i]) {
      if i < |calls| {
        StaysExcused(calls[i], m, t, rs[i]);
      }
    }
  }

  lemma ControlSent(s: ConnState, f: Frame, g: Frame, t: ConnState, r: Outcome) returns (cut: seq<Frame>)
    requires Sound(s) && FrameSent(s, f, g, t, r) && f == NewFrame(f.opcode, true, f.payload)
    requires IsControl(f.opcode) && |f.payload| <= MAX_CONTROL_PAYLOAD
    ensures Grew(s, t) && DataPart(t.log) == DataPart(s.log)
    ensures OtherPart(t.log) == OtherPart(s.log) + (if r == Sent then [f] else []) + cut
    ensures |cut| <= 1 && (cut != [] ==> t.failed && !s.failed)
    ensures OtherExcused(SendsControl(f.opcode, f.payload), t, r)
  {
    hide Sound, FrameSent, OtherPart, DataPart;
    FrameSentKeepsSound(s, f, g, t, r);
    SentLogs(s, f, g, t, r);
    assert Bare(f) == f;
    if t == s {
      GrewNot(s);
      cut := [];
    } else {
      cut := if r == Sent then [] else [f];
      GrewByOne(s, g, t);
      DataPartSnoc(s.log, g);
      OtherPartSnoc(s.log, g);
    }
  }

  lemma FlushIsQuiet(s: ConnState, t: ConnState, r: Outcome)
    requires Flushed(s, t, r) && Sound(t)
    ensures Grew(s, t) && t.log == s.log && (r == Sent || (r == Refused(SocketFailed) && t.failed))
  {
    hide Sound;
  }

  /** One call: what it adds, and that no data frame is among it. */
  lemma OneOther(call: OtherCall, s: ConnState, g: Frame, t: ConnState, r: Outcome) returns (cut: seq<Frame>)
    requires OtherDone(call, s, g, t, r) && Sound(s)
    ensures Grew(s, t) && DataPart(t.log) == DataPart(s.log) && OthersDone([call], [r], cut, s, t)
  {
    hide Sound, FrameSent, Flushed, OtherPart, DataPart, ControlsOf, Bare;
    cut := [];
    ControlsOfOne(call, r);
    match call
    case RenewsWriter(_) =>
      FlushKeepsSound(s, t, r);
      FlushIsQuiet(s, t, r);
    case SendsControl(opcode, payload) =>
      if NewControlFrame(opcode, payload).NotBuilt? {
        GrewNot(s);
      } else {
        cut := ControlSent(s, NewFrame(opcode, true, payload), g, t, r);
      }
  }

  // ----- one frame of a message

  lemma BufferedLogs(s: ConnState, f: Frame, g: Frame, t: ConnState, r: Outcome)
    requires BufferedWrite(s, f, g, t, r) && Legal(f) && IsData(f.opcode)
    ensures t == s || (!s.failed && t.log == s.log + [g] && Legal(g) && FragmentOf(g) == FragmentOf(f)
             && IsData(g.opcode))
    ensures t.masks == s.masks && (s.closeSent ==> t.closeSent)
    ensures (r == Sent ==> t != s) && Excused(t, r)
  {
    hide Wire, Prepared;
    if t != s {
      PreparedSaysTheSame(f, s.masks, g);
    }
  }

  /** Buffering a data frame adds its fragment, or stops at it, and adds nothing else. */
  lemma FragmentGrows(s: ConnState, f: Frame, g: Frame, t: ConnState, r: Outcome)
    requires Sound(s) && BufferedWrite(s, f, g, t, r) && Legal(f) && IsData(f.opcode)
    ensures Grew(s, t) && OthersDone([], [], [], s, t)
    ensures DataPart(t.log) == DataPart(s.log) + if t.log == s.log then [] else [FragmentOf(f)]
    ensures (r == Sent ==> t.log != s.log) && Excused(t, r)
  {
    BufferedLogs(s, f, g, t, r);
    BufferedWriteKeepsSound(s, f, g, t, r);
    hide Sound, BufferedWrite, OtherPart, DataPart, Legal, IsData, FragmentOf;
    if t == s {
      GrewNot(s);
    } else {
      GrewByOne(s, g, t);
      DataPartSnoc(s.log, g);
      OtherPartSnoc(s.log, g);
    }
    NoOthers(s, t);
  }

  lemma FlushGrows(s: ConnState, t: ConnState, r: Outcome)
    requires Sound(s) && Flushed(s, t, r)
    ensures Grew(s, t) && OthersDone([], [], [], s, t) && t.log == s.log && Excused(t, r)
  {
    hide Sound, Flushed, OtherPart;
    FlushKeepsSound(s, t, r);
    FlushIsQuiet(s, t, r);
    NoOthers(s, t);
  }

  lemma FlushedMeansOnWire(s: ConnState, t: ConnState, r: Outcome)
    requires Sound(s) && Flushed(s, t, r)
    ensures r == Sent ==> t.wire == WireAll(t.log) && t.buffered == [] && !t.failed
  {}

  lemma MessageGrows(base: seq<Fragment>, cs: seq<seq<byte>>, opcode: byte, i: nat, fin: bool, issued: bool)
    requires i < |cs|
    ensures (base + MessageOf(opcode, cs[..i], false))
            + (if issued then [Fragment(if i == 0 then opcode else OPCODE_CONTINUATION, fin, cs[i])] else [])
            == base + if issued then MessageOf(opcode, cs[..i + 1], fin) else MessageOf(opcode, cs[..i], false)
  {}

  /** Chunk i, and what is left to cut after it. */
  lemma {:induction false} NextChunk(data: seq<byte>, at: nat, chunkSize: int, cs: seq<seq<byte>>, i: nat)
    requires at <= |data| && i < |cs| && cs[i..] == Chunks(data[at..], chunkSize)
    ensures var fin := chunkSize <= 0 || |data| - at <= chunkSize;
            var end := if fin then |data| else at + chunkSize;
            && cs[i] == data[at..end]
            && (fin <==> i + 1 == |cs|)
            && (!fin ==> cs[i + 1..] == Chunks(data[end..], chunkSize))
  {}

  // ----- a message and everything sent between its frames

  /** The calls made in the first k turns. */
  function Rounds(others: nat -> seq<OtherCall>, k: nat): seq<OtherCall> {
    if k == 0 then [] else Rounds(others, k - 1) + others(k - 1)
  }

  /** How far a message came: its frames let through, and what the calls made in so many turns came to. */
  datatype Progress = Progress(sent: nat, turns: nat, outcomes: seq<Outcome>, cut: seq<Frame>)

  /**
   From s to t the first p.sent frames of the message were let through, and nothing else of any message; and the
   calls of p.turns turns were made, one turn before each frame that was tried.
   */
  ghost predicate CameTo(s: ConnState, t: ConnState, cs: seq<seq<byte>>, opcode: byte, others: nat -> seq<OtherCall>,
                         p: Progress) {
    && Grew(s, t) && p.sent <= |cs| && p.sent <= p.turns <= p.sent + 1
    && DataPart(t.log) == DataPart(s.log) + MessageOf(opcode, cs[..p.sent], p.sent == |cs|)
    && OthersDone(Rounds(others, p.turns), p.outcomes, p.cut, s, t)
  }

  lemma NothingYet(s: ConnState, cs: seq<seq<byte>>, opcode: byte, others: nat -> seq<OtherCall>)
    requires Sound(s) && cs != []
    ensures CameTo(s, s, cs, opcode, others, Progress(0, 0, [], []))
  {
    hide Sound, OtherPart, DataPart;
    GrewNot(s);
    NoOthers(s, s);
    assert cs[..0] == [] && DataPart(s.log) + MessageOf(opcode, [], false) == DataPart(s.log);
  }

  /** A turn of the others. */
  lemma OthersTurn(s: ConnState, m: ConnState, t: ConnState, cs: seq<seq<byte>>, opcode: byte,
                   others: nat -> seq<OtherCall>, p: Progress, rs: seq<Outcome>, cut: seq<Frame>)
    requires CameTo(s, m, cs, opcode, others, p) && p.turns == p.sent && Grew(m, t)
             && DataPart(t.log) == DataPart(m.log)
    requires OthersDone(others(p.turns), rs, cut, m, t)
    ensures CameTo(s, t, cs, opcode, others, p.(turns := p.turns + 1, outcomes := p.outcomes + rs, cut := p.cut + cut))
  {
    hide OthersDone, DataPart, MessageOf, Grew;
    GrewTwice(s, m, t);
    OthersTwice(Rounds(others, p.turns), p.outcomes, p.cut, s, m, others(p.turns), rs, cut, t);
  }

  lemma QuietTurn(s: ConnState, m: ConnState, t: ConnState, calls: seq<OtherCall>, rs: seq<Outcome>, cut: seq<Frame>)
    requires OthersDone(calls, rs, cut, s, m) && Grew(s, m) && Grew(m, t) && OthersDone([], [], [], m, t)
    ensures Grew(s, t) && OthersDone(calls, rs, cut, s, t)
  {
    hide OthersDone, Grew;
    GrewTwice(s, m, t);
    OthersTwice(calls, rs, cut, s, m, [], [], [], t);
    assert calls + [] == calls && rs + [] == rs && cut + [] == cut;
  }

  /** The frame after it. */
  lemma FrameTurn(s: ConnState, m: ConnState, t: ConnState, cs: seq<seq<byte>>, opcode: byte,
                  others: nat -> seq<OtherCall>, p: Progress, fin: bool, issued: bool)
    requires CameTo(s, m, cs, opcode, others, p) && p.turns == p.sent + 1 && p.sent < |cs|
             && (fin <==> p.sent + 1 == |cs|)
    requires Grew(m, t) && OthersDone([], [], [], m, t)
    requires DataPart(t.log) == DataPart(m.log)
             + if issued then [Fragment(if p.sent == 0 then opcode else OPCODE_CONTINUATION, fin, cs[p.sent])] else []
    ensures CameTo(s, t, cs, opcode, others, if issued then p.(sent := p.sent + 1) else p)
  {
    hide DataPart, Grew;
    MessageGrows(DataPart(s.log), cs, opcode, p.sent, fin, issued);
    hide MessageOf;
    QuietTurn(s, m, t, Rounds(others, p.turns), p.outcomes, p.cut);
  }

  lemma GrewIsSound(s: ConnState, t: ConnState)
    requires Grew(s, t)
    ensures Sound(t)
  {}

  /** The final flush adds no frame. */
  lemma FlushTurn(s: ConnState, m: ConnState, t: ConnState, cs: seq<seq<byte>>, opcode: byte,
                  others: nat -> seq<OtherCall>, p: Progress, r: Outcome)
    requires CameTo(s, m, cs, opcode, others, p) && Flushed(m, t, r)
    ensures CameTo(s, t, cs, opcode, others, p) && Excused(t, r)
    ensures r == Sent ==> t.wire == WireAll(t.log) && t.buffered == [] && !t.failed
  {
    GrewIsSound(s, m);
    FlushGrows(m, t, r);
    FlushedMeansOnWire(m, t, r);
    hide OthersDone, Grew, Flushed, DataPart, MessageOf, WireAll;
    QuietTurn(s, m, t, Rounds(others, p.turns), p.outcomes, p.cut);
  }
}
