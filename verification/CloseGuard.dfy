/** Exactly which opcodes the close guard protects against (ConnectionWrite.go, Frame.go). */
module CloseGuard {
  import opened Bytes
  import opened Frames
  import opened FrameReading
  import opened Sending
  import opened Senders
  import opened SenderRuns
  import opened SenderCalls

  predicate Ready(s: State) {
    s.pcs == [Idle] && s.writeOwner == None && s.dataOwner == None && !s.conn.failed && s.conn.buffered == []
  }

  /** One goroutine sends f, and nothing fails. */
  lemma SendOne(ss: seq<State>, f: Frame) returns (tt: seq<State>)
    requires Behaves(ss) && Ready(ss[|ss| - 1]) && |f.payload| < TWO_TO_64
    requires Refusal(f, ss[|ss| - 1].conn.closeSent).None?
    ensures Behaves(tt) && tt != [] && Ready(tt[|tt| - 1])
    ensures tt[|tt| - 1].conn.log == ss[|ss| - 1].conn.log + [Prepare(f, ss[|ss| - 1].conn.masks, ZERO_KEY)]
    ensures tt[|tt| - 1].conn.masks == ss[|ss| - 1].conn.masks
    ensures tt[|tt| - 1].conn.closeSent == (ss[|ss| - 1].conn.closeSent || f.opcode == OPCODE_CLOSE)
  {
    hide Refusal, Prepare, Wire;
    var g;
    tt, g := FrameSucceeds(ss, 0, f);
  }

  lemma FirstState() returns (ss: seq<State>)
    ensures Behaves(ss) && ss != [] && Ready(ss[|ss| - 1])
    ensures var c := ss[|ss| - 1].conn; c.log == [] && !c.closeSent && !c.masks
  {
    ss := [State(ConnState(false, false, [], [], false, []), None, None, [Idle], 0, false, 0, [], true)];
  }

  lemma ReachedAccounted(ss: seq<State>)
    requires Behaves(ss)
    ensures ss != [] && Accounted(ss[|ss| - 1].conn)
  {
    AlwaysInv(ss);
  }

  lemma OnWireOfTwo(f: Frame, g: Frame)
    ensures OnWireAll([f] + [g]) == [OnWire(f), OnWire(g)]
  {}

  /** Every frame has a plain four bit opcode, or this one. */
  predicate OnlyPlainOr(log: seq<Frame>, opcode: byte) {
    forall f | f in log :: f.opcode < 16 || f.opcode == opcode
  }

  /** An opcode whose low four bits spell a close or a data frame goes out after the close. */
  lemma UnseenGoesOut(opcode: byte) returns (ss: seq<State>)
    requires !Seen(opcode)
    ensures Behaves(ss) && OnlyPlainOr(ss[|ss| - 1].conn.log, opcode)
    ensures !ClosesOnce(ReadAll(ss[|ss| - 1].conn.wire))
  {
    hide Behaves, Inv, ReadAll, OnWireAll, Accounted;
    var close, sly := NewFrame(OPCODE_CLOSE, true, []), NewFrame(opcode, true, []);
    ss := FirstState();
    ss := SendOne(ss, close);
    ss := SendOne(ss, sly);
    var c := ss[|ss| - 1].conn;
    ReachedAccounted(ss);
    WireReadsAsLog(c);
    var f, g := Prepare(close, false, ZERO_KEY), Prepare(sly, false, ZERO_KEY);
    assert c.log == [f] + [g];
    OnWireOfTwo(f, g);
    var fs := ReadAll(c.wire);
    assert fs[0].opcode == OPCODE_CLOSE && fs[1].opcode == opcode % 16;
  }

  /**
   Sending an opcode besides the plain ones keeps every close safe exactly when it is below 16 or its low
   four bits are neither a close nor a data frame.
   */
  lemma GuardIsExact(opcode: byte)
    ensures Seen(opcode)
            <==> forall ss: seq<State> | Behaves(ss) && OnlyPlainOr(ss[|ss| - 1].conn.log, opcode) ::
                   ClosesOnce(ReadAll(ss[|ss| - 1].conn.wire))
  {
    hide Init, Next, ClosesOnce, ReadAll;
    if Seen(opcode) {
      forall ss: seq<State> | Behaves(ss) && OnlyPlainOr(ss[|ss| - 1].conn.log, opcode)
        ensures ClosesOnce(ReadAll(ss[|ss| - 1].conn.wire))
      {
        CloseIsLast(ss, ss[|ss| - 1]);
      }
    } else {
      var ss := UnseenGoesOut(opcode);
    }
  }
}
