/** From a sender's call to the peer's hooks, through the bytes on the wire. */
module EndToEnd {
  import opened Bytes
  import opened Frames
  import opened Messages
  import opened FrameControl
  import opened Listeners
  import opened ListenerSpec
  import opened ListenerLaws
  import opened Interleaving
  import Connections
  import FrameReading
  import PauseChannels
  import Senders
  import SenderRuns
  import Sending

  /** What the peer's hooks are given, and where its Listener stands, once it has read everything. */
  predicate AllHeard(c: Config, log: seq<Frame>, l: Listened) {
    var ms := DataPart(log);
    && l.err == StreamEnded
    && MessagesIn(Deliveries(l.calls)) == MessagesTo(c, Complete(ms))
    && OthersIn(Deliveries(l.calls)) == OthersTo(c, log)
    && Represents(c, l.assembly, Remainder(ms))
  }

  lemma NothingBefore(ms: seq<Fragment>)
    ensures [] + ms == ms && Join([]) == []
  {}

  /** Whatever acceptable frames are sealed onto the wire, the peer's Listener hears all of them. */
  lemma {:induction false} WireIsHeard(c: Config, log: seq<Frame>, n: nat, utf8: seq<byte> -> bool)
    requires Plain(c) && FrameReading.AllSealed(log) && (forall g | g in log :: g.opcode < 16)
    requires Acceptable(c, DataPart(log), log, utf8) && Volume(log) + 2 < TWO_TO_64 && n > |log|
    ensures AllHeard(c, log, Listening(c, NO_MESSAGE, WireAll(log), n, utf8))
  {
    hide Listening, WireAll, Represents, Acceptable, DataPart, JudgeAll, TakeAll, FrameReading.OnWireAll, Join;
    ListeningTakesAll(c, NO_MESSAGE, log, n, utf8);
    FrameReading.OnWireIsIdentity(log);
    NothingRepresented(c);
    NothingBefore(DataPart(log));
    ListenerRefinesSpec(c, NO_MESSAGE, [], log, utf8);
    PlainSpec(c, [], log, utf8);
  }

  // ----- every interleaving

  lemma ReachedWire(ss: seq<Senders.State>, s: Senders.State)
    requires SenderRuns.Reaches(ss, s) && s.clean && !s.conn.failed && s.conn.buffered == []
    ensures s.conn.wire == WireAll(s.conn.log) && FrameReading.AllSealed(s.conn.log)
    ensures Conforms(DataPart(s.conn.log))
  {
    SenderRuns.ReachedInv(ss, s);
    ConformsIffLegal(DataPart(s.conn.log));
    assert Sending.Accounted(s.conn) && s.conn.Out() == s.conn.wire;
  }

  /**
   Whatever the sending goroutines did, in whatever order: if nothing failed and nothing is left in the buffer, the
   peer's hooks get exactly the whole messages and the other frames that were let through.
   */
  lemma {:induction false} EveryRunIsHeard(ss: seq<Senders.State>, s: Senders.State, c: Config, n: nat,
                                           utf8: seq<byte> -> bool)
    requires SenderRuns.Reaches(ss, s) && s.clean && !s.conn.failed && s.conn.buffered == []
    requires Plain(c) && Volume(s.conn.log) + 2 < TWO_TO_64 && n > |s.conn.log|
    requires forall g | g in s.conn.log :: g.opcode < 16 && FrameFine(c, g, utf8)
    requires forall m | m in Complete(DataPart(s.conn.log)) :: TextFine(m, utf8)
    ensures AllHeard(c, s.conn.log, Listening(c, NO_MESSAGE, s.conn.wire, n, utf8))
  {
    hide SenderRuns.Reaches, Conforms, Complete, DataPart, FrameFine, TextFine, Listening, AllHeard,
        FrameReading.AllSealed;
    ReachedWire(ss, s);
    WireIsHeard(c, s.conn.log, n, utf8);
  }

  // ----- one message, from SendData to its hook

  lemma LegalIsFine(c: Config, g: Frame, utf8: seq<byte> -> bool)
    requires Legal(g) && g.mask == c.peerIsClient && PassFault(g, utf8) == NoError
    ensures g.opcode < 16 && FrameFine(c, g, utf8)
  {
    FineIffNoRuleBroken(c, g, utf8);
    hide FrameFine, CloseRule;
  }

  lemma {:induction false} OneMessageIsAcceptable(c: Config, log: seq<Frame>, opcode: byte, cs: seq<seq<byte>>,
                                                  payload: seq<byte>, utf8: seq<byte> -> bool)
    requires OpensMessage(opcode) && cs != [] && Flatten(cs) == payload && DataPart(log) == MessageOf(opcode, cs, true)
    requires forall g | g in log :: FrameFine(c, g, utf8)
    requires opcode == OPCODE_TEXT ==> utf8(payload)
    ensures Acceptable(c, DataPart(log), log, utf8)
    ensures Complete(DataPart(log)) == [MessageOf(opcode, cs, true)] && Remainder(DataPart(log)) == []
    ensures var ms := MessageOf(opcode, cs, true); Join(ms) == payload && ms != [] && ms[0].opcode == opcode
  {
    var ms := MessageOf(opcode, cs, true);
    MessageOfIsMessage(opcode, cs);
    JoinMessageOf(opcode, cs, true);
    CompleteStep(ms, []);
    ConformsStep(ms, []);
    assert ms + [] == ms && Complete([]) == [] && Remainder([]) == [];
    hide MessageOf, Flatten, DataPart, FrameFine, WholeMessage;
  }

  /** One call of the hook the opcode names, with all the bytes. */
  function OneMessage(c: Config, opcode: byte, payload: seq<byte>): seq<Delivery> {
    if opcode == OPCODE_BINARY then When(c.binary, ToBinary(payload)) else When(c.text, ToText(payload))
  }

  lemma NoMessageIsNone(c: Config, a: Assembly)
    requires Represents(c, a, [])
    ensures a == NO_MESSAGE
  {}

  /** What the peer has heard when all data frames are one message's. */
  lemma {:induction false} OneMessageIsHeard(c: Config, log: seq<Frame>, opcode: byte, payload: seq<byte>,
                                             chunkSize: int, n: nat, utf8: seq<byte> -> bool)
    requires Plain(c) && FrameReading.AllSealed(log) && OpensMessage(opcode) && n > |log|
    requires DataPart(log) == MessageOf(opcode, Chunks(payload, chunkSize), true)
    requires forall g | g in log :: g.opcode < 16 && FrameFine(c, g, utf8)
    requires (opcode == OPCODE_TEXT ==> utf8(payload)) && Volume(log) + 2 < TWO_TO_64
    ensures var l := Listening(c, NO_MESSAGE, WireAll(log), n, utf8);
            && l.err == StreamEnded && l.assembly == NO_MESSAGE
            && MessagesIn(Deliveries(l.calls)) == OneMessage(c, opcode, payload)
            && OthersIn(Deliveries(l.calls)) == OthersTo(c, log)
  {
    hide Listening, WireAll, DataPart, FrameFine, Acceptable, MessagesTo, Complete, Remainder, Chunks, Deliveries,
         FrameReading.AllSealed, MessageOf, Flatten;
    var cs := Chunks(payload, chunkSize);
    ChunksAreTheMessage(payload, chunkSize);
    OneMessageIsAcceptable(c, log, opcode, cs, payload, utf8);
    WireIsHeard(c, log, n, utf8);
    MessagesToJust(c, MessageOf(opcode, cs, true));
    NoMessageIsNone(c, Listening(c, NO_MESSAGE, WireAll(log), n, utf8).assembly);
  }

  // ----- the calls made between the frames

  /** A delivery, its frame as what it says. */
  function BareDelivery(d: Delivery): Delivery {
    match d
    case ToPing(f) => ToPing(Bare(f))
    case ToPong(f) => ToPong(Bare(f))
    case ToClose(f) => ToClose(Bare(f))
    case ToUnknown(f) => ToUnknown(Bare(f))
    case ToData(f, opcode) => ToData(Bare(f), opcode)
    case _ => d
  }

  function BareAll(ds: seq<Delivery>): seq<Delivery> {
    seq(|ds|, i requires 0 <= i < |ds| => BareDelivery(ds[i]))
  }

  lemma BareAllAppend(xs: seq<Delivery>, ys: seq<Delivery>)
    ensures BareAll(xs + ys) == BareAll(xs) + BareAll(ys)
  {}

  lemma BarePassedTo(c: Config, f: Frame)
    ensures BareAll(PassedTo(c, f)) == PassedTo(c, Bare(f))
  {}

  lemma BareAllNone()
    ensures BareAll([]) == [] && forall ds: seq<Delivery> :: [] + ds == ds
  {}

  /** What reaches the hooks of the other frames is what those frames say. */
  lemma {:induction false} BareOthersTo(c: Config, fs: seq<Frame>)
    ensures BareAll(OthersTo(c, fs)) == OthersTo(c, OtherPart(fs))
  {
    hide PassedTo, BareAll;
    if fs == [] {
      assert BareAll([]) == [] by {
        BareAllNone();
      }
    } else {
      var f, rest := fs[0], fs[1..];
      BareOthersTo(c, rest);
      BareAllAppend(if IsData(f.opcode) then [] else PassedTo(c, f), OthersTo(c, rest));
      if IsData(f.opcode) {
        assert OtherPart(fs) == OtherPart(rest);
        BareAllNone();
      } else {
        BarePassedTo(c, f);
        assert OtherPart(fs)[1..] == OtherPart(rest) && OtherPart(fs)[0] == Bare(f);
      }
    }
  }

  lemma {:induction false} VolumeSplits(fs: seq<Frame>)
    ensures Volume(fs) == |Join(DataPart(fs))| + Volume(OtherPart(fs))
  {
    hide Join;
    if fs == [] {
      NothingBefore([]);
    } else {
      var f, rest := fs[0], fs[1..];
      VolumeSplits(rest);
      if IsData(f.opcode) {
        JoinAppend([FragmentOf(f)], DataPart(rest));
        JoinOne(FragmentOf(f));
        assert OtherPart(fs) == OtherPart(rest);
      } else {
        assert DataPart(fs) == DataPart(rest);
        assert OtherPart(fs)[1..] == OtherPart(rest) && OtherPart(fs)[0] == Bare(f);
      }
    }
  }

  lemma {:induction false} OtherIsSomeFrame(fs: seq<Frame>)
    ensures forall h | h in OtherPart(fs) :: exists g :: g in fs && !IsData(g.opcode) && h == Bare(g)
    ensures forall g | g in fs && !IsData(g.opcode) :: Bare(g) in OtherPart(fs)
  {
    if fs != [] {
      OtherIsSomeFrame(fs[1..]);
      assert fs == [fs[0]] + fs[1..];
    }
  }

  lemma {:induction false} SmallVolume(fs: seq<Frame>)
    requires forall f | f in fs :: |f.payload| <= MAX_CONTROL_PAYLOAD
    ensures Volume(fs) <= MAX_CONTROL_PAYLOAD * |fs|
  {
    if fs != [] {
      SmallVolume(fs[1..]);
    }
  }

  lemma {:induction false} ControlsAreCalls(calls: seq<OtherCall>, rs: seq<Sending.Outcome>)
    requires |calls| == |rs|
    ensures |ControlsOf(calls, rs)| <= |calls|
    ensures forall h | h in ControlsOf(calls, rs) :: SendsControl(h.opcode, h.payload) in calls
    decreases |calls|
  {
    if calls != [] {
      ControlsAreCalls(calls[1..], rs[1..]);
      assert calls == [calls[0]] + calls[1..];
    }
  }

  /** What the sender is asked for: text is text, a close has a body the peer accepts, and the sizes stay below 2^64. */
  predicate Hearable(opcode: byte, payload: seq<byte>, calls: seq<OtherCall>, utf8: seq<byte> -> bool) {
    && (opcode == OPCODE_TEXT ==> utf8(payload))
    && (forall call | call in calls && call.SendsControl? && call.opcode == OPCODE_CLOSE ::
          CloseRule(call.payload, utf8) == NoError)
    && |payload| + MAX_CONTROL_PAYLOAD * |calls| + 2 < TWO_TO_64
  }

  /** All that the sender has added is fit to be heard. */
  lemma {:induction false} AddedIsFine(c: Config, gs: seq<Frame>, opcode: byte, payload: seq<byte>,
                                       calls: seq<OtherCall>, rs: seq<Sending.Outcome>, utf8: seq<byte> -> bool)
    requires (forall g | g in gs :: Legal(g) && g.mask == c.peerIsClient) && Hearable(opcode, payload, calls, utf8)
    requires |rs| == |calls| && OtherPart(gs) == ControlsOf(calls, rs) && Join(DataPart(gs)) == payload
    ensures (forall g | g in gs :: g.opcode < 16 && FrameFine(c, g, utf8)) && Volume(gs) + 2 < TWO_TO_64
  {
    hide Join, HeaderRule, CloseRule, FrameFine;
    OtherIsSomeFrame(gs);
    ControlsAreCalls(calls, rs);
    forall g | g in gs ensures g.opcode < 16 && FrameFine(c, g, utf8) {
      if !IsData(g.opcode) {
        assert SendsControl(g.opcode, g.payload) in calls;
      }
      LegalIsFine(c, g, utf8);
    }
    VolumeSplits(gs);
    SmallVolume(OtherPart(gs));
  }

  /** The message once and whole, and the control frames that got through between its frames, in order. */
  predicate HeardWhole(c: Config, opcode: byte, payload: seq<byte>, calls: seq<OtherCall>, rs: seq<Sending.Outcome>,
                       err: ListenError, a: Assembly, heard: seq<Delivery>)
    requires |rs| == |calls|
  {
    && err == StreamEnded && a == NO_MESSAGE
    && MessagesIn(heard) == OneMessage(c, opcode, payload)
    && BareAll(OthersIn(heard)) == OthersTo(c, ControlsOf(calls, rs))
  }

  /** All that was let through is on the wire, and nothing waits in the buffer. */
  ghost predicate Quiet(s: Sending.ConnState) {
    Sending.Sound(s) && s.wire == WireAll(s.log) && s.buffered == []
  }

  /** What SendData adds when it returns nil. */
  ghost predicate WholeMessageSent(s: Sending.ConnState, t: Sending.ConnState, opcode: byte, payload: seq<byte>,
                                   chunkSize: int, calls: seq<OtherCall>, rs: seq<Sending.Outcome>)
  {
    && OpensMessage(opcode) && Grew(s, t) && s.wire == WireAll(s.log) && t.wire == WireAll(t.log)
    && DataPart(t.log) == DataPart(s.log) + MessageOf(opcode, Chunks(payload, chunkSize), true)
    && |rs| == |calls| && OtherPart(t.log) == OtherPart(s.log) + ControlsOf(calls, rs)
  }

  /** The same of the frames it added alone. */
  ghost predicate WholeMessageIn(gs: seq<Frame>, masks: bool, opcode: byte, payload: seq<byte>, chunkSize: int,
                                 calls: seq<OtherCall>, rs: seq<Sending.Outcome>)
  {
    && OpensMessage(opcode) && FrameReading.AllSealed(gs) && (forall g | g in gs :: Legal(g) && g.mask == masks)
    && DataPart(gs) == MessageOf(opcode, Chunks(payload, chunkSize), true)
    && |rs| == |calls| && OtherPart(gs) == ControlsOf(calls, rs)
  }

  lemma SentHasOutcomes(s: Sending.ConnState, t: Sending.ConnState, opcode: byte, payload: seq<byte>, chunkSize: int,
                        calls: seq<OtherCall>, rs: seq<Sending.Outcome>)
    requires WholeMessageSent(s, t, opcode, payload, chunkSize, calls, rs)
    ensures |rs| == |calls|
  {}

  lemma AddedIsWhole(s: Sending.ConnState, t: Sending.ConnState, opcode: byte, payload: seq<byte>, chunkSize: int,
                     calls: seq<OtherCall>, rs: seq<Sending.Outcome>)
    requires WholeMessageSent(s, t, opcode, payload, chunkSize, calls, rs)
    ensures s.wire <= t.wire && s.log <= t.log && t.wire[|s.wire|..] == WireAll(t.log[|s.log|..])
    ensures WholeMessageIn(t.log[|s.log|..], t.masks, opcode, payload, chunkSize, calls, rs)
  {
    hide DataPart, OtherPart, MessageOf, Chunks, ControlsOf, WireAll, Legal, Sealed, Sending.ClosesOnce,
         Sending.HasClose;
    var gs := t.log[|s.log|..];
    assert t.log == s.log + gs && forall g | g in gs :: g in t.log;
    WireAllAppend(s.log, gs);
    DataPartAppend(s.log, gs);
    OtherPartAppend(s.log, gs);
    SameTail(DataPart(s.log), DataPart(gs), MessageOf(opcode, Chunks(payload, chunkSize), true));
    SameTail(OtherPart(s.log), OtherPart(gs), ControlsOf(calls, rs));
  }

  lemma HearableText(opcode: byte, payload: seq<byte>, calls: seq<OtherCall>, utf8: seq<byte> -> bool)
    requires Hearable(opcode, payload, calls, utf8)
    ensures opcode == OPCODE_TEXT ==> utf8(payload)
  {}

  lemma {:induction false} AddedIsHeard(c: Config, gs: seq<Frame>, opcode: byte, payload: seq<byte>, chunkSize: int,
                                        calls: seq<OtherCall>, rs: seq<Sending.Outcome>, n: nat,
                                        utf8: seq<byte> -> bool)
    requires Plain(c) && Hearable(opcode, payload, calls, utf8) && n > |gs|
    requires WholeMessageIn(gs, c.peerIsClient, opcode, payload, chunkSize, calls, rs)
    ensures var l := Listening(c, NO_MESSAGE, WireAll(gs), n, utf8);
            HeardWhole(c, opcode, payload, calls, rs, l.err, l.assembly, Deliveries(l.calls))
  {
    hide WireAll, Chunks, MessageOf, Listening, FrameFine, Deliveries, OthersTo, Flatten, Join, Hearable, BareAll,
         Legal, FrameReading.AllSealed, Volume, DataPart, OtherPart, ControlsOf, MessagesIn, OthersIn, OneMessage;
    var cs := Chunks(payload, chunkSize);
    ChunksAreTheMessage(payload, chunkSize);
    JoinMessageOf(opcode, cs, true);
    AddedIsFine(c, gs, opcode, payload, calls, rs, utf8);
    HearableText(opcode, payload, calls, utf8);
    OneMessageIsHeard(c, gs, opcode, payload, chunkSize, n, utf8);
    BareOthersTo(c, gs);
  }

  lemma {:induction false} CameToTheEnd(s: Sending.ConnState, t: Sending.ConnState, opcode: byte, payload: seq<byte>,
                                        chunkSize: int, others: nat -> seq<OtherCall>, p: Progress)
    requires OpensMessage(opcode) && Quiet(s) && t.wire == WireAll(t.log) && t.buffered == [] && !t.failed
    requires CameTo(s, t, Chunks(payload, chunkSize), opcode, others, p) && p.sent == |Chunks(payload, chunkSize)|
    ensures WholeMessageSent(s, t, opcode, payload, chunkSize, Rounds(others, p.turns), p.outcomes) && Quiet(t)
    ensures forall i | 0 <= i < |p.outcomes| :: OtherExcused(Rounds(others, p.turns)[i], t, p.outcomes[i])
  {
    GrewIsSound(s, t);
    hide Grew, WireAll, Chunks, MessageOf, ControlsOf, Rounds, OtherExcused, DataPart, OtherPart, Sending.Sound;
    var cs, controls := Chunks(payload, chunkSize), ControlsOf(Rounds(others, p.turns), p.outcomes);
    assert cs[..p.sent] == cs && p.cut == [];
    assert OtherPart(s.log) + controls + [] == OtherPart(s.log) + controls;
  }

  /** A run nobody paused heard what any longer one hears. */
  lemma {:induction false} RunHearsAll(c: Config, wire: seq<byte>, j: nat, n: nat, utf8: seq<byte> -> bool)
    requires j <= n && Listening(c, NO_MESSAGE, wire, j, utf8).err != NoError
    ensures Listening(c, NO_MESSAGE, wire, j, utf8) == Listening(c, NO_MESSAGE, wire, n, utf8)
  {
    ErrorsStay(c, NO_MESSAGE, wire, j, n, utf8);
  }

  /** The socket took every write so far, and every masking key was to be had. */
  ghost predicate NothingFailed(conn: Connections.Conn)
    reads conn, conn.sock
  {
    !conn.sock.down && !conn.keyless
  }

  method SendWhole(conn: Connections.Conn, opcode: byte, payload: array<byte>, chunkSize: int,
                   others: nat -> seq<OtherCall>)
    returns (r: Sending.Outcome, ghost p: Progress)
    requires conn.Valid() && Quiet(conn.State()) && payload != conn.writer.buf && payload.Length < TWO_TO_64
    modifies conn, conn.writer, conn.writer.buf, conn.sock
    ensures conn.Valid() && payload[..] == old(payload[..])
    ensures !conn.dataFramesLocked && OpensMessage(opcode) && NothingFailed(conn) && !conn.closeSent ==>
              r == Sending.Sent
    ensures r == Sending.Sent ==>
              var calls := Rounds(others, |Chunks(payload[..], chunkSize)| + 1);
              && WholeMessageSent(old(conn.State()), conn.State(), opcode, payload[..], chunkSize, calls, p.outcomes)
              && Quiet(conn.State())
              && forall i | 0 <= i < |calls| :: OtherExcused(calls[i], conn.State(), p.outcomes[i])
  {
    hide Grew, WireAll, Chunks, MessageOf, CameTo, OtherExcused, Sending.Sound, DataPart, OtherPart, ControlsOf;
    ghost var s, data := conn.State(), payload[..];
    r, p := conn.SendData(opcode, payload, chunkSize, others);
    if r == Sending.Sent {
      CameToTheEnd(s, conn.State(), opcode, data, chunkSize, others, p);
    }
  }

  /** A Listener between messages reads all there is on a wire, and nobody pauses it. */
  method ListenToAll(wire: seq<byte>, listener: Listener) returns (end: Ended, ghost turns: nat)
    requires listener.State() == NO_MESSAGE
    modifies listener
    ensures var l := Listening(old(listener.config), NO_MESSAGE, wire, turns, listener.utf8);
            && l.err != NoError && end == ByItself(l.err)
            && listener.State() == l.assembly && listener.calls == old(listener.calls) + l.calls
    ensures listener.config == old(listener.config)
  {
    hide Listening, ReadFailsAfter;
    var peer := new FrameReading.Reader(wire);
    var frames, err;
    end, frames, err := listener.ListenFrames(peer, i => PauseChannels.Nothing, PauseChannels.Nothing);
    turns := frames + 1;
  }

  lemma {:induction false} SentRunIsHeard(c: Config, s: Sending.ConnState, t: Sending.ConnState, opcode: byte,
                                          payload: seq<byte>, chunkSize: int, calls: seq<OtherCall>,
                                          rs: seq<Sending.Outcome>, turns: nat, utf8: seq<byte> -> bool)
    requires Plain(c) && c.peerIsClient == t.masks && Hearable(opcode, payload, calls, utf8)
    requires WholeMessageSent(s, t, opcode, payload, chunkSize, calls, rs)
    requires s.wire <= t.wire && Listening(c, NO_MESSAGE, t.wire[|s.wire|..], turns, utf8).err != NoError
    ensures |rs| == |calls|
    ensures var l := Listening(c, NO_MESSAGE, t.wire[|s.wire|..], turns, utf8);
            l.err == StreamEnded
            && HeardWhole(c, opcode, payload, calls, rs, StreamEnded, l.assembly, Deliveries(l.calls))
  {
    hide Listening, Deliveries, Hearable, Grew, WireAll, DataPart, OtherPart, MessageOf, Chunks, ControlsOf;
    AddedIsWhole(s, t, opcode, payload, chunkSize, calls, rs);
    hide WholeMessageSent, WholeMessageIn;
    var gs := t.log[|s.log|..];
    var n := turns + |gs| + 1;
    RunHearsAll(c, WireAll(gs), turns, n, utf8);
    AddedIsHeard(c, gs, opcode, payload, chunkSize, calls, rs, n, utf8);
  }

  /** The Listener's half: it reads the bytes that came after s. */
  method HearAdded(added: seq<byte>, listener: Listener, ghost s: Sending.ConnState, ghost t: Sending.ConnState,
                   ghost opcode: byte, ghost payload: seq<byte>, ghost chunkSize: int, ghost calls: seq<OtherCall>,
                   ghost rs: seq<Sending.Outcome>)
    returns (end: Ended)
    requires listener.State() == NO_MESSAGE && Plain(listener.config) && listener.config.peerIsClient == t.masks
    requires WholeMessageSent(s, t, opcode, payload, chunkSize, calls, rs) && t.wire == s.wire + added
    modifies listener
    ensures listener.config == old(listener.config) && old(listener.calls) <= listener.calls && |rs| == |calls|
    ensures Hearable(opcode, payload, calls, listener.utf8) ==>
              && end == ByItself(StreamEnded)
              && HeardWhole(listener.config, opcode, payload, calls, rs, StreamEnded, listener.State(),
                            Deliveries(listener.calls[|old(listener.calls)|..]))
  {
    hide WholeMessageSent, Chunks, Hearable, HeardWhole, Listening, Deliveries;
    ghost var turns;
    end, turns := ListenToAll(added, listener);
    assert t.wire[|s.wire|..] == added;
    SentHasOutcomes(s, t, opcode, payload, chunkSize, calls, rs);
    if Hearable(opcode, payload, calls, listener.utf8) {
      SentRunIsHeard(listener.config, s, t, opcode, payload, chunkSize, calls, rs, turns, listener.utf8);
    }
  }

  /**
   SendData on one side, a Listener on the other, whatever passed between them before. It returns nil if nothing fails
   and no close goes out; and if it returns nil, the bytes it put on the wire give the peer's hooks the message once
   and whole, and exactly the pings, pongs and closes that got through between its frames, in the order they were sent.
   Those that did not had a reason: p.outcomes says which, call by call. Both sides are then as they were, ready for
   the next message.
   */
  method SendAndListen(conn: Connections.Conn, opcode: byte, payload: array<byte>, chunkSize: int,
                       others: nat -> seq<OtherCall>, listener: Listener)
    returns (r: Sending.Outcome, end: Ended, ghost p: Progress)
    requires conn.Valid() && Quiet(conn.State()) && payload != conn.writer.buf && payload.Length < TWO_TO_64
    requires Plain(listener.config) && listener.config.peerIsClient == conn.maskSendFrame
    requires listener.State() == NO_MESSAGE
    modifies conn, conn.writer, conn.writer.buf, conn.sock, listener
    ensures conn.Valid() && payload[..] == old(payload[..])
    ensures listener.config == old(listener.config) && (r == Sending.Sent ==> Quiet(conn.State()))
    ensures !conn.dataFramesLocked && OpensMessage(opcode) && NothingFailed(conn) && !conn.closeSent ==>
              r == Sending.Sent
    ensures var calls := Rounds(others, |Chunks(payload[..], chunkSize)| + 1);
            r == Sending.Sent && Hearable(opcode, payload[..], calls, listener.utf8) ==>
              && |p.outcomes| == |calls|
              && (forall i | 0 <= i < |calls| :: OtherExcused(calls[i], conn.State(), p.outcomes[i]))
              && end == ByItself(StreamEnded) && old(listener.calls) <= listener.calls
              && HeardWhole(listener.config, opcode, payload[..], calls, p.outcomes, StreamEnded,
                            listener.State(), Deliveries(listener.calls[|old(listener.calls)|..]))
  {
    hide WholeMessageSent, Chunks, Hearable, HeardWhole, Deliveries, OtherExcused, Rounds, Quiet;
    ghost var s, data := conn.State(), payload[..];
    var before := |conn.sock.wire|;
    r, p := SendWhole(conn, opcode, payload, chunkSize, others);
    end := ByItself(NoError);
    if r == Sending.Sent {
      ghost var t, calls := conn.State(), Rounds(others, |Chunks(data, chunkSize)| + 1);
      AddedIsWhole(s, t, opcode, data, chunkSize, calls, p.outcomes);
      end := HearAdded(conn.sock.wire[before..], listener, s, t, opcode, data, chunkSize, calls, p.outcomes);
      assert conn.State() == t;
    }
  }
}
