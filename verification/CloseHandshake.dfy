/**
 Two connections with the standard listener on each, and what closing one does to the other (ConnectionListener.go).
 The link between them loses nothing and keeps order; neither socket fails.
 */
module CloseHandshake {
  import opened Bytes
  import opened Frames
  import opened FrameControl
  import opened Listeners
  import Sending

  /** The send side of a connection: what it has sent, and whether a close is out. */
  datatype Voice = Voice(masks: bool, closeSent: bool, sent: seq<Frame>)

  /**
   Its Listener: how many of the peer's frames it has read, and the hooks its current run has called. `paused` says
   PauseListen has been called during the run, `parked` that the loop is past its look at the pause and waits for a
   frame of at most `limit` bytes, `desynced` that a payload was left unread.
   */
  datatype Ear = Ear(
    config: Config, assembly: Assembly, got: nat, running: bool, paused: bool, parked: bool, limit: uint64,
    desynced: bool, calls: seq<HookCall>)

  datatype End = End(voice: Voice, ear: Ear)

  datatype Side = Left | Right

  datatype State = State(left: End, right: End) {
    function At(side: Side): End {
      if side == Left then left else right
    }

    function Peer(side: Side): End {
      if side == Left then right else left
    }

    function With(side: Side, e: End): State {
      if side == Left then State(e, right) else State(left, e)
    }
  }

  datatype Action =
    | Sends(frame: Frame, key: Key)
    | Listens
    | Pauses
    | Parks
    | Stops
    | Sets(config: Config)
    | Reads(key: Key)

  /** NewStandardListener, with any limits and message hooks added. */
  predicate Standard(c: Config, masks: bool) {
    c.ping && c.pong && c.close && c.unknown && c.peerIsClient == !masks
  }

  /** A close a side may start the handshake with: through SendClose, with a body the peer accepts. */
  predicate GoodClose(f: Frame, utf8: seq<byte> -> bool) {
    && f.fin && !f.rsv1 && !f.rsv2 && !f.rsv3 && |f.payload| <= MAX_CONTROL_PAYLOAD
    && CloseFaultOf(f.payload, utf8) == NoFault
  }

  /** sendFrame, when nothing fails. */
  function Said(v: Voice, f: Frame, key: Key): Voice
    requires |f.payload| < TWO_TO_64
  {
    if Sending.Refusal(f, v.closeSent).Some? then v
    else Voice(v.masks, v.closeSent || f.opcode == OPCODE_CLOSE, v.sent + [Sending.Prepare(f, v.masks, key)])
  }

  function SaidControl(v: Voice, opcode: byte, payload: seq<byte>, key: Key): Voice {
    match NewControlFrame(opcode, payload)
    case Built(f) => Said(v, f, key)
    case NotBuilt(_) => v
  }

  /** The body RFC6455CloseHook answers with: what the close carried, or none if it cannot be read. */
  function EchoBody(f: Frame): Sending.Option<ClosePayload> {
    match GetClosePayload(f)
    case Body(p) => p
    case BadBody(_) => Sending.None
  }

  const PROTOCOL_ERROR: Sending.Option<ClosePayload> := Sending.Some(ClosePayload(CLOSE_PROTOCOL_ERROR, []))

  /** What the standard hooks send. */
  function Answer(v: Voice, call: HookCall, key: Key): Voice {
    match call
    case PingCall(f) => SaidControl(v, OPCODE_PONG, f.payload, key)
    case CloseCall(f) => SaidControl(v, OPCODE_CLOSE, PayloadBytes(EchoBody(f)), key)
    case UnknownCall(f) => SaidControl(v, OPCODE_CLOSE, PayloadBytes(PROTOCOL_ERROR), key)
    case _ => v
  }

  /** A call after which the standard hooks pause the Listener. */
  predicate Ends(call: HookCall) {
    call.CloseCall? || call.UnknownCall?
  }

  /**
   The parked loop takes f, within the limit it parked with and under the configuration of now: of that, validation
   only asks whether the peer masks, which no standard configuration changes.
   */
  function Taken(ear: Ear, f: Frame, utf8: seq<byte> -> bool): Routed {
    TakeUnder(ear.limit, ear.config, ear.config, ear.assembly, f, utf8)
  }

  /** Over the limit f leaves the stream desynced, refused it ends the run, a close or a reserved opcode pauses it. */
  function EarAfter(ear: Ear, f: Frame, utf8: seq<byte> -> bool): Ear {
    var r := Taken(ear, f, utf8);
    if 0 < ear.limit < |f.payload| then
      ear.(parked := false, running := false, desynced := true)
    else
      ear.(parked := false, got := ear.got + 1, assembly := r.assembly, calls := ear.calls + r.calls,
           running := r.err == NoError, paused := ear.paused || (r.calls != [] && Ends(r.calls[0])))
  }

  /** The reading side's turn: a route calls one hook at most, and the hook answers before the loop goes on. */
  function Heard(e: End, f: Frame, key: Key, utf8: seq<byte> -> bool): End {
    var calls := Taken(e.ear, f, utf8).calls;
    End(if calls == [] then e.voice else Answer(e.voice, calls[0], key), EarAfter(e.ear, f, utf8))
  }

  predicate Step(s: State, side: Side, a: Action, t: State, utf8: seq<byte> -> bool) {
    var e, ear, peer := s.At(side), s.At(side).ear, s.Peer(side).voice;
    match a
    case Sends(f, key) =>
      && |f.payload| < TWO_TO_64 && f.opcode < 16 && (f.opcode == OPCODE_CLOSE ==> GoodClose(f, utf8))
      && t == s.With(side, e.(voice := Said(e.voice, f, key)))
    case Listens =>
      && !ear.running && !ear.desynced
      && t == s.With(side, e.(ear := ear.(running := true, paused := false, parked := false, calls := [])))
    case Pauses => ear.running && t == s.With(side, e.(ear := ear.(paused := true)))
    case Parks =>
      && ear.running && !ear.paused && !ear.parked
      && t == s.With(side, e.(ear := ear.(parked := true, limit := NextLimit(ear.config, ear.assembly))))
    case Stops => ear.running && ear.paused && !ear.parked && t == s.With(side, e.(ear := ear.(running := false)))
    case Sets(c) => Standard(c, e.voice.masks) && t == s.With(side, e.(ear := ear.(config := c)))
    case Reads(key) =>
      && ear.running && ear.parked && ear.got < |peer.sent|
      && t == s.With(side, Heard(e, peer.sent[ear.got], key, utf8))
  }

  predicate Fresh(e: End) {
    && e == End(Voice(e.voice.masks, false, []), Ear(e.ear.config, NO_MESSAGE, 0, false, false, false, 0, false, []))
    && Standard(e.ear.config, e.voice.masks)
  }

  predicate Init(s: State) {
    Fresh(s.left) && Fresh(s.right) && s.left.voice.masks != s.right.voice.masks
  }

  // ----- what every step keeps

  /** What one side has sent: one close at most, no data frame after it, and one the peer will accept. */
  predicate SentWell(v: Voice, utf8: seq<byte> -> bool) {
    && Sending.ClosesOnce(v.sent)
    && (v.closeSent <==> Sending.HasClose(v.sent))
    && (forall g | g in v.sent :: g.mask == v.masks && (g.opcode == OPCODE_CLOSE ==> GoodClose(g, utf8)))
  }

  /** Once a close or a reserved opcode has reached its hook, that was the run's last call. */
  predicate LastCall(ear: Ear) {
    forall i | 0 <= i < |ear.calls| && Ends(ear.calls[i]) ::
      i == |ear.calls| - 1 && (!ear.running || (ear.paused && !ear.parked))
  }

  /** A close that was read was answered, or answers one's own. */
  predicate Answered(peer: seq<Frame>, got: nat, closeSent: bool) {
    got <= |peer| && (Sending.HasClose(peer[..got]) ==> closeSent)
  }

  /** A size guard that lets every control frame by. */
  predicate Grants(limit: uint64) {
    limit == 0 || limit >= MAX_CONTROL_PAYLOAD
  }

  predicate SideOk(e: End, peer: Voice, utf8: seq<byte> -> bool) {
    && Standard(e.ear.config, e.voice.masks) && e.voice.masks != peer.masks
    && SentWell(e.voice, utf8) && LastCall(e.ear) && Answered(peer.sent, e.ear.got, e.voice.closeSent)
    && Grants(e.ear.limit)
  }

  predicate Inv(s: State, utf8: seq<byte> -> bool) {
    SideOk(s.left, s.right.voice, utf8) && SideOk(s.right, s.left.voice, utf8)
  }

  /** d is v with more sent. */
  predicate SaidMore(v: Voice, d: Voice) {
    d.masks == v.masks && v.sent <= d.sent && (v.closeSent ==> d.closeSent)
  }

  lemma OneMoreSentWell(v: Voice, g: Frame, utf8: seq<byte> -> bool)
    requires SentWell(v, utf8) && g.mask == v.masks && (g.opcode == OPCODE_CLOSE ==> GoodClose(g, utf8))
    requires Sending.Refusal(g, v.closeSent).None?
    ensures SentWell(Voice(v.masks, v.closeSent || g.opcode == OPCODE_CLOSE, v.sent + [g]), utf8)
  {
    hide GoodClose;
    var sent := v.sent + [g];
    assert forall h | h in sent :: h in v.sent || h == g;
    assert g in sent && forall h | h in v.sent :: h in sent;
  }

  lemma PreparedIsGood(f: Frame, masks: bool, key: Key, utf8: seq<byte> -> bool)
    requires |f.payload| < TWO_TO_64
    ensures var g := Sending.Prepare(f, masks, key);
            && g.opcode == f.opcode && g.mask == masks && g.payload == f.payload
            && (GoodClose(f, utf8) ==> GoodClose(g, utf8))
            && forall closeSent :: Sending.Refusal(g, closeSent) == Sending.Refusal(f, closeSent)
  {
    hide CloseFaultOf;
  }

  lemma SaidKeepsSentWell(v: Voice, f: Frame, key: Key, utf8: seq<byte> -> bool)
    requires SentWell(v, utf8) && |f.payload| < TWO_TO_64 && (f.opcode == OPCODE_CLOSE ==> GoodClose(f, utf8))
    ensures SentWell(Said(v, f, key), utf8) && SaidMore(v, Said(v, f, key))
    ensures f.opcode == OPCODE_CLOSE && |f.payload| <= MAX_CONTROL_PAYLOAD ==> Said(v, f, key).closeSent
  {
    hide SentWell, GoodClose, Sending.Prepare;
    PreparedIsGood(f, v.masks, key, utf8);
    if Sending.Refusal(f, v.closeSent).None? {
      OneMoreSentWell(v, Sending.Prepare(f, v.masks, key), utf8);
    }
  }

  /** Closing with code 1002 and no reason is accepted by every peer. */
  lemma ProtocolErrorIsGood(utf8: seq<byte> -> bool)
    ensures var p := PayloadBytes(PROTOCOL_ERROR);
            |p| == 2 && CloseFaultOf(p, utf8) == NoFault
  {
    var p := PayloadBytes(PROTOCOL_ERROR);
    Widths();
    BigEndianRoundTrip(CLOSE_PROTOCOL_ERROR, 2);
    assert p == BigEndian(CLOSE_PROTOCOL_ERROR, 2) && p[..2] == p;
  }

  /** An accepted close is answered with its own body. */
  lemma EchoIsItsBody(f: Frame, utf8: seq<byte> -> bool)
    requires f.opcode == OPCODE_CLOSE && CloseFaultOf(f.payload, utf8) == NoFault
    ensures PayloadBytes(EchoBody(f)) == f.payload
  {
    EchoIsExact(f);
  }

  /** A call the standard hooks are ready for: the very frame, checked. */
  predicate Checked(call: HookCall, f: Frame, utf8: seq<byte> -> bool) {
    && (call.PingCall? ==> call.frame == f && |f.payload| <= MAX_CONTROL_PAYLOAD)
    && (call.CloseCall? ==>
          && call.frame == f && f.opcode == OPCODE_CLOSE && |f.payload| <= MAX_CONTROL_PAYLOAD
          && CloseFaultOf(f.payload, utf8) == NoFault)
  }

  /** One frame makes one call at most, and none when it is refused. */
  lemma TakeCalls(limit: uint64, c: Config, a: Assembly, f: Frame, utf8: seq<byte> -> bool)
    ensures var r := TakeUnder(limit, c, c, a, f, utf8);
            && |r.calls| <= 1 && (r.err != NoError ==> r.calls == [])
            && (forall call | call in r.calls :: Checked(call, f, utf8))
  {}

  /**
   A good close from the peer is never refused: not by a limit, which every configuration sets so, not by an open
   message, and not for a configuration replaced on the way.
   */
  lemma GoodCloseIsHeard(guard: Config, limit: uint64, check: Config, act: Config, a: Assembly, f: Frame,
                         utf8: seq<byte> -> bool)
    requires act.close && f.opcode == OPCODE_CLOSE && GoodClose(f, utf8) && f.mask == check.peerIsClient
    ensures Grants(NextLimit(guard, a))
    ensures Grants(limit) ==>
              && TakeUnder(limit, check, act, a, f, utf8) == Routed(a, [CloseCall(f)], NoError)
              && !(0 < limit < |f.payload|)
  {}

  lemma SaidControlKeepsSentWell(v: Voice, opcode: byte, payload: seq<byte>, key: Key, utf8: seq<byte> -> bool)
    requires SentWell(v, utf8) && IsControl(opcode) && |payload| <= MAX_CONTROL_PAYLOAD
    requires opcode == OPCODE_CLOSE ==> CloseFaultOf(payload, utf8) == NoFault
    ensures var d := SaidControl(v, opcode, payload, key);
            SentWell(d, utf8) && SaidMore(v, d) && (opcode == OPCODE_CLOSE ==> d.closeSent)
  {
    hide SentWell, CloseFaultOf, Said, SaidMore;
    SaidKeepsSentWell(v, NewFrame(opcode, true, payload), key, utf8);
  }

  /** A hook's answer keeps what its side has sent in order, and a close or a reserved opcode leaves a close sent. */
  lemma AnswerKeepsSentWell(v: Voice, call: HookCall, f: Frame, key: Key, utf8: seq<byte> -> bool)
    requires SentWell(v, utf8) && Checked(call, f, utf8)
    ensures var d := Answer(v, call, key);
            SentWell(d, utf8) && SaidMore(v, d) && (Ends(call) ==> d.closeSent)
  {
    hide SentWell, SaidControl, CloseFaultOf, PayloadBytes;
    match call
    case PingCall(_) => SaidControlKeepsSentWell(v, OPCODE_PONG, f.payload, key, utf8);
    case CloseCall(_) =>
      EchoIsItsBody(f, utf8);
      SaidControlKeepsSentWell(v, OPCODE_CLOSE, f.payload, key, utf8);
    case UnknownCall(_) =>
      ProtocolErrorIsGood(utf8);
      SaidControlKeepsSentWell(v, OPCODE_CLOSE, PayloadBytes(PROTOCOL_ERROR), key, utf8);
    case _ =>
  }

  lemma EarKeepsLastCall(ear: Ear, f: Frame, utf8: seq<byte> -> bool)
    requires LastCall(ear) && ear.running && ear.parked
    ensures LastCall(EarAfter(ear, f, utf8))
  {
    hide TakeUnder, Ends;
    TakeCalls(ear.limit, ear.config, ear.assembly, f, utf8);
  }

  /** Reading one more of the peer's frames: if it is a close, one's own is out. */
  lemma OneMoreAnswered(peer: seq<Frame>, got: nat, before: bool, after: bool)
    requires Answered(peer, got, before) && got < |peer| && (before ==> after)
    requires peer[got].opcode == OPCODE_CLOSE ==> after
    ensures Answered(peer, got + 1, after) && Answered(peer, got, after)
  {
    assert peer[..got + 1] == peer[..got] + [peer[got]];
  }

  lemma HeardKeepsAnswered(e: End, peer: seq<Frame>, key: Key, utf8: seq<byte> -> bool)
    requires SentWell(e.voice, utf8) && Standard(e.ear.config, e.voice.masks) && Grants(e.ear.limit)
    requires Answered(peer, e.ear.got, e.voice.closeSent) && e.ear.got < |peer|
    requires var f := peer[e.ear.got]; f.mask != e.voice.masks && (f.opcode == OPCODE_CLOSE ==> GoodClose(f, utf8))
    ensures var d := Heard(e, peer[e.ear.got], key, utf8); Answered(peer, d.ear.got, d.voice.closeSent)
  {
    hide TakeUnder, Answer, GoodClose, SentWell, Answered, Checked, Grants;
    var f, ear := peer[e.ear.got], e.ear;
    TakeCalls(ear.limit, ear.config, ear.assembly, f, utf8);
    if f.opcode == OPCODE_CLOSE {
      GoodCloseIsHeard(ear.config, ear.limit, ear.config, ear.config, ear.assembly, f, utf8);
    }
    var calls := Taken(ear, f, utf8).calls;
    if calls != [] {
      AnswerKeepsSentWell(e.voice, calls[0], f, key, utf8);
    }
    OneMoreAnswered(peer, e.ear.got, e.voice.closeSent, Heard(e, f, key, utf8).voice.closeSent);
  }

  /** The reading side. */
  lemma HeardKeepsSide(e: End, peer: Voice, key: Key, utf8: seq<byte> -> bool)
    requires SideOk(e, peer, utf8) && SentWell(peer, utf8) && e.ear.running && e.ear.parked && e.ear.got < |peer.sent|
    ensures var d := Heard(e, peer.sent[e.ear.got], key, utf8);
            SideOk(d, peer, utf8) && SaidMore(e.voice, d.voice)
  {
    var f := peer.sent[e.ear.got];
    assert f in peer.sent && (f.opcode == OPCODE_CLOSE ==> GoodClose(f, utf8));
    HeardKeepsAnswered(e, peer.sent, key, utf8);
    hide TakeUnder, Answer, GoodClose, SentWell, LastCall, Answered, Checked;
    var calls := Taken(e.ear, f, utf8).calls;
    TakeCalls(e.ear.limit, e.ear.config, e.ear.assembly, f, utf8);
    EarKeepsLastCall(e.ear, f, utf8);
    if calls != [] {
      AnswerKeepsSentWell(e.voice, calls[0], f, key, utf8);
    }
  }

  /** The other side: its peer has only added to what it sent. */
  lemma PeerStaysOk(e: End, peer: Voice, later: Voice, utf8: seq<byte> -> bool)
    requires SideOk(e, peer, utf8) && SaidMore(peer, later)
    ensures SideOk(e, later, utf8)
  {
    hide SentWell, LastCall, Standard;
    assert later.sent[..e.ear.got] == peer.sent[..e.ear.got];
  }

  lemma SideKept(s: State, side: Side, a: Action, t: State, utf8: seq<byte> -> bool)
    requires Inv(s, utf8) && Step(s, side, a, t, utf8)
    ensures SideOk(t.At(side), s.Peer(side).voice, utf8) && SaidMore(s.At(side).voice, t.At(side).voice)
    ensures t.Peer(side) == s.Peer(side)
  {
    hide Heard, Said, GoodClose, SentWell, Ends;
    var e, peer := s.At(side), s.Peer(side).voice;
    match a
    case Sends(f, key) => SaidKeepsSentWell(e.voice, f, key, utf8);
    case Reads(key) => HeardKeepsSide(e, peer, key, utf8);
    case _ =>
  }

  lemma InvKept(s: State, side: Side, a: Action, t: State, utf8: seq<byte> -> bool)
    requires Inv(s, utf8) && Step(s, side, a, t, utf8)
    ensures Inv(t, utf8)
  {
    hide SideOk, Step, SaidMore;
    SideKept(s, side, a, t, utf8);
    PeerStaysOk(s.Peer(side), s.At(side).voice, t.At(side).voice, utf8);
  }

  // ----- over every run

  ghost predicate Next(s: State, t: State, utf8: seq<byte> -> bool) {
    exists side, a :: Step(s, side, a, t, utf8)
  }

  ghost predicate Behaves(ss: seq<State>, utf8: seq<byte> -> bool) {
    && ss != [] && Init(ss[0])
    && forall k | 0 < k < |ss| :: Next(ss[k - 1], ss[k], utf8)
  }

  lemma InitInv(s: State, utf8: seq<byte> -> bool)
    requires Init(s)
    ensures Inv(s, utf8)
  {}

  lemma {:induction false} AlwaysInv(ss: seq<State>, utf8: seq<byte> -> bool)
    requires Behaves(ss, utf8)
    ensures Inv(ss[|ss| - 1], utf8)
    decreases |ss|
  {
    hide Inv, Step, Init;
    var k := |ss| - 1;
    if k == 0 {
      InitInv(ss[0], utf8);
    } else {
      assert Behaves(ss[..k], utf8);
      AlwaysInv(ss[..k], utf8);
      assert Next(ss[k - 1], ss[k], utf8);
      var side, a :| Step(ss[k - 1], side, a, ss[k], utf8);
      InvKept(ss[k - 1], side, a, ss[k], utf8);
    }
  }

  /** The Listener of this side has read the peer's close. */
  predicate HasRoutedClose(e: End, peer: Voice) {
    e.ear.got <= |peer.sent| && Sending.HasClose(peer.sent[..e.ear.got])
  }

  /** Section 5.5.1 of RFC 6455: one close each way at most, no data frame after it, and an answer to the peer's. */
  lemma OneCloseEachWay(ss: seq<State>, s: State, side: Side, utf8: seq<byte> -> bool)
    requires Behaves(ss, utf8) && s == ss[|ss| - 1]
    ensures Sending.ClosesOnce(s.At(side).voice.sent)
    ensures HasRoutedClose(s.At(side), s.Peer(side).voice) ==> Sending.HasClose(s.At(side).voice.sent)
  {
    AlwaysInv(ss, utf8);
    hide Sending.ClosesOnce, Sending.HasClose;
  }

  /**
   Once a close has been routed the run calls no further hook: the loop can neither read nor park to read before it
   has stopped.
   */
  lemma NothingAfterTheClose(ss: seq<State>, s: State, side: Side, utf8: seq<byte> -> bool)
    requires Behaves(ss, utf8) && s == ss[|ss| - 1]
    ensures forall i | 0 <= i < |s.At(side).ear.calls| && Ends(s.At(side).ear.calls[i]) ::
              (i == |s.At(side).ear.calls| - 1
               && (forall key, t :: !Step(s, side, Reads(key), t, utf8))
               && (forall t :: !Step(s, side, Parks, t, utf8)))
  {
    AlwaysInv(ss, utf8);
    hide SentWell, Heard;
  }

  /**
   The close g reaches its hook whatever limits a standard Listener has, whatever message is open there, and however
   the configuration changes while its loop is parked.
   */
  ghost predicate IsAlwaysHeard(g: Frame, masks: bool, utf8: seq<byte> -> bool) {
    forall guard, check, act, a | Standard(check, masks) && Standard(act, masks) ::
      TakeUnder(NextLimit(guard, a), check, act, a, g, utf8) == Routed(a, [CloseCall(g)], NoError)
  }

  lemma GoodCloseIsAlwaysHeard(g: Frame, masks: bool, utf8: seq<byte> -> bool)
    requires g.opcode == OPCODE_CLOSE && GoodClose(g, utf8) && g.mask == !masks
    ensures IsAlwaysHeard(g, masks, utf8)
  {
    hide TakeUnder, GoodClose, NextLimit, Grants;
    forall guard, check, act, a | Standard(check, masks) && Standard(act, masks)
      ensures TakeUnder(NextLimit(guard, a), check, act, a, g, utf8) == Routed(a, [CloseCall(g)], NoError)
    {
      GoodCloseIsHeard(guard, NextLimit(guard, a), check, act, a, g, utf8);
    }
  }

  /** What answering the good close f says: nothing after one's own close, and otherwise the same body. */
  lemma EchoOf(v: Voice, f: Frame, key: Key, utf8: seq<byte> -> bool)
    requires f.opcode == OPCODE_CLOSE && GoodClose(f, utf8)
    ensures var d := Answer(v, CloseCall(f), key);
            && d.closeSent
            && (if v.closeSent then d == v
                else
                  && |d.sent| == |v.sent| + 1 && v.sent <= d.sent
                  && var g := d.sent[|v.sent|];
                     g.opcode == OPCODE_CLOSE && g.payload == f.payload && g.mask == v.masks && GoodClose(g, utf8))
  {
    EchoIsItsBody(f, utf8);
    PreparedIsGood(NewFrame(OPCODE_CLOSE, true, f.payload), v.masks, key, utf8);
    hide CloseFaultOf, PayloadBytes, Sending.Prepare;
  }

  lemma GoodCloseOf(v: Voice, i: nat, utf8: seq<byte> -> bool)
    requires SentWell(v, utf8) && i < |v.sent|
    ensures v.sent[i].mask == v.masks && (v.sent[i].opcode == OPCODE_CLOSE ==> GoodClose(v.sent[i], utf8))
  {}

  /**
   Reading the peer's close: it reaches the close hook and stops the run; if this side had sent none, the one it sends
   now carries the same body, and reaches the peer's close hook whatever limits are set and whatever message is open
   there.
   */
  lemma CloseIsEchoed(ss: seq<State>, s: State, side: Side, key: Key, t: State, utf8: seq<byte> -> bool)
    requires Behaves(ss, utf8) && s == ss[|ss| - 1] && Step(s, side, Reads(key), t, utf8)
    requires s.Peer(side).voice.sent[s.At(side).ear.got].opcode == OPCODE_CLOSE
    ensures var e, d, f := s.At(side), t.At(side), s.Peer(side).voice.sent[s.At(side).ear.got];
            && d.ear.calls == e.ear.calls + [CloseCall(f)] && d.ear.paused && !d.ear.parked
                && d.ear.got == e.ear.got + 1
            && d.voice.closeSent
            && (if e.voice.closeSent then d.voice == e.voice
                else
                  && |d.voice.sent| == |e.voice.sent| + 1 && e.voice.sent <= d.voice.sent
                  && var g := d.voice.sent[|e.voice.sent|];
                     g.opcode == OPCODE_CLOSE && g.payload == f.payload
                     && IsAlwaysHeard(g, s.Peer(side).voice.masks, utf8))
  {
    hide Init, Next, TakeUnder, Answer, GoodClose, NextLimit, IsAlwaysHeard, LastCall, Answered, Grants;
    AlwaysInv(ss, utf8);
    var e, peer := s.At(side), s.Peer(side).voice;
    var f := peer.sent[e.ear.got];
    GoodCloseOf(peer, e.ear.got, utf8);
    GoodCloseIsHeard(e.ear.config, e.ear.limit, e.ear.config, e.ear.config, e.ear.assembly, f, utf8);
    EchoOf(e.voice, f, key, utf8);
    if !e.voice.closeSent {
      GoodCloseIsAlwaysHeard(t.At(side).voice.sent[|e.voice.sent|], peer.masks, utf8);
    }
  }

  /** A frame over the limit is not read: nothing is heard or answered, and that side is out of step for good. */
  lemma OversizedDesyncs(s: State, side: Side, key: Key, t: State, a: Action, u: State, utf8: seq<byte> -> bool)
    requires Step(s, side, Reads(key), t, utf8) && Step(t, side, a, u, utf8)
    requires 0 < s.At(side).ear.limit < |s.Peer(side).voice.sent[s.At(side).ear.got].payload|
    ensures t.At(side).ear == s.At(side).ear.(parked := false, running := false, desynced := true)
    ensures t.At(side).voice == s.At(side).voice
    ensures u.At(side).ear == t.At(side).ear.(config := u.At(side).ear.config)
  {
    hide Said, GoodClose, Standard;
  }

  /** A frame that is refused ends the run and is answered with nothing; any other keeps it going. */
  lemma RefusedEndsTheRun(s: State, side: Side, key: Key, t: State, utf8: seq<byte> -> bool)
    requires Step(s, side, Reads(key), t, utf8)
    ensures var ear, f := s.At(side).ear, s.Peer(side).voice.sent[s.At(side).ear.got];
            var r := TakeUnder(ear.limit, ear.config, ear.config, ear.assembly, f, utf8);
            ear.limit == 0 || |f.payload| <= ear.limit ==>
              && t.At(side).ear.running == (r.err == NoError) && t.At(side).ear.got == ear.got + 1
              && !t.At(side).ear.parked && t.At(side).ear.desynced == ear.desynced
              && t.At(side).ear.assembly == r.assembly
              && (r.err != NoError ==> t.At(side).voice == s.At(side).voice && t.At(side).ear.calls == ear.calls)
  {
    var ear, f := s.At(side).ear, s.Peer(side).voice.sent[s.At(side).ear.got];
    TakeCalls(ear.limit, ear.config, ear.assembly, f, utf8);
    hide TakeUnder, Answer, Ends;
  }

  /** d is v with a close of this body, its first. */
  predicate OneCloseMore(v: Voice, d: Voice, payload: seq<byte>) {
    && d.closeSent && |d.sent| == |v.sent| + 1 && v.sent <= d.sent
    && d.sent[|v.sent|].opcode == 0x8 && d.sent[|v.sent|].payload == payload
  }

  // ----- what else is answered

  /** d is v with one frame more, a whole control frame of this opcode with this body. */
  predicate SaysOne(v: Voice, d: Voice, opcode: byte, payload: seq<byte>) {
    && d.masks == v.masks && d.closeSent == (v.closeSent || opcode == 0x8)
    && |d.sent| == |v.sent| + 1 && v.sent <= d.sent
    && var g := d.sent[|v.sent|];
       g.opcode == opcode && g.payload == payload && g.mask == v.masks && g.fin && !g.rsv1 && !g.rsv2 && !g.rsv3
  }

  /**
   A ping is answered with its own payload, even after a close; a reserved opcode with code 1002, unless after one.
   */
  lemma AnswersOf(v: Voice, f: Frame, key: Key)
    ensures |f.payload| <= 125 ==> SaysOne(v, Answer(v, PingCall(f), key), 0xA, f.payload)
    ensures Answer(v, PongCall(f), key) == v
    ensures var d := Answer(v, UnknownCall(f), key); if v.closeSent then d == v else SaysOne(v, d, 0x8, [0x03, 0xEA])
  {
    assert PayloadBytes(PROTOCOL_ERROR) == [0x03, 0xEA] by {
      assert BigEndian(1002, 2) == BigEndian(3, 1) + [0xEA] && BigEndian(3, 1) == BigEndian(0, 0) + [0x03];
    }
    hide PayloadBytes, Sending.Prepare;
  }

  lemma OthersSayNothing(v: Voice, key: Key)
    ensures forall call: HookCall | !call.PingCall? && !call.CloseCall? && !call.UnknownCall? ::
              Answer(v, call, key) == v
  {}

  /** The hook each frame has to itself is called with it. */
  lemma RoutedToItsHook(limit: uint64, c: Config, a: Assembly, f: Frame, utf8: seq<byte> -> bool)
    requires c.ping && c.pong && c.unknown && f.mask == c.peerIsClient && !f.rsv1 && !f.rsv2 && !f.rsv3
    requires limit == 0 || |f.payload| <= limit
    ensures var r := TakeUnder(limit, c, c, a, f, utf8);
            && (f.opcode == 0x9 && f.fin && |f.payload| <= 125 ==> r == Routed(a, [PingCall(f)], NoError))
            && (f.opcode == 0xA && f.fin && |f.payload| <= 125 ==> r == Routed(a, [PongCall(f)], NoError))
            && (2 < f.opcode < 0x8 || f.opcode > 0xA ==> r == Routed(a, [UnknownCall(f)], NoError))
  {}

  /** Nothing else calls a hook that answers. */
  lemma QuietFrames(limit: uint64, c: Config, a: Assembly, f: Frame, utf8: seq<byte> -> bool)
    requires f.opcode <= 2 || f.opcode == 0xA
    ensures forall call | call in TakeUnder(limit, c, c, a, f, utf8).calls ::
              !call.PingCall? && !call.CloseCall? && !call.UnknownCall?
  {}

  /**
   Reading a ping: one pong with its payload goes out, whatever was sent before. A reserved opcode: one close with code
   1002, unless a close is out. A pong or a data frame: nothing.
   */
  lemma ReadIsAnswered(ss: seq<State>, s: State, side: Side, key: Key, t: State, utf8: seq<byte> -> bool)
    requires Behaves(ss, utf8) && s == ss[|ss| - 1] && Step(s, side, Reads(key), t, utf8)
    ensures var e, d, f := s.At(side), t.At(side), s.Peer(side).voice.sent[s.At(side).ear.got];
            var plain := !f.rsv1 && !f.rsv2 && !f.rsv3 && (e.ear.limit == 0 || |f.payload| <= e.ear.limit);
            && (plain && f.opcode == 0x9 && f.fin && |f.payload| <= 125 ==>
                  d.ear.calls == e.ear.calls + [PingCall(f)] && SaysOne(e.voice, d.voice, 0xA, f.payload))
            && (plain && (2 < f.opcode < 0x8 || f.opcode > 0xA) ==>
                  && d.ear.calls == e.ear.calls + [UnknownCall(f)] && d.ear.paused
                  && if e.voice.closeSent then d.voice == e.voice else SaysOne(e.voice, d.voice, 0x8, [0x03, 0xEA]))
            && (f.opcode <= 2 || f.opcode == 0xA ==> d.voice == e.voice)
  {
    hide Init, Next, TakeUnder, Answer, GoodClose, NextLimit, LastCall, Answered, Grants, SaysOne;
    AlwaysInv(ss, utf8);
    var e, peer := s.At(side), s.Peer(side).voice;
    var ear, f := e.ear, peer.sent[e.ear.got];
    GoodCloseOf(peer, ear.got, utf8);
    AnswersOf(e.voice, f, key);
    TakeCalls(ear.limit, ear.config, ear.assembly, f, utf8);
    if f.opcode <= 2 || f.opcode == 0xA {
      QuietFrames(ear.limit, ear.config, ear.assembly, f, utf8);
      OthersSayNothing(e.voice, key);
    }
    if !f.rsv1 && !f.rsv2 && !f.rsv3 && (ear.limit == 0 || |f.payload| <= ear.limit) {
      RoutedToItsHook(ear.limit, ear.config, ear.assembly, f, utf8);
    }
  }

  // ----- and a handshake can be completed

  function Other(side: Side): Side {
    if side == Left then Right else Left
  }

  lemma Continues(ss: seq<State>, side: Side, a: Action, t: State, utf8: seq<byte> -> bool) returns (tt: seq<State>)
    requires Behaves(ss, utf8) && Step(ss[|ss| - 1], side, a, t, utf8)
    ensures Behaves(tt, utf8) && ss < tt && tt[|tt| - 1] == t
  {
    hide Step, Init;
    tt := ss + [t];
    assert Next(ss[|ss| - 1], t, utf8);
    forall k | 0 < k < |tt| ensures Next(tt[k - 1], tt[k], utf8) {
      if k < |ss| {
        assert tt[k - 1] == ss[k - 1] && tt[k] == ss[k];
      }
    }
  }

  /** A side that has read all there is, and listens no more or not yet. */
  predicate Resting(e: End, peer: Voice) {
    !e.ear.running && !e.ear.desynced && e.ear.got == |peer.sent|
  }

  lemma StartsAtRest(s: State, side: Side)
    requires Init(s)
    ensures Resting(s.At(side), s.Peer(side).voice) && s.At(side).voice.sent == [] && !s.At(side).voice.closeSent
    ensures s.At(side).ear.assembly == NO_MESSAGE && s.At(side).ear.calls == []
  {}

  /** It listens, and parks. */
  lemma CanPark(ss: seq<State>, side: Side, utf8: seq<byte> -> bool) returns (tt: seq<State>)
    requires Behaves(ss, utf8) && !ss[|ss| - 1].At(side).ear.running && !ss[|ss| - 1].At(side).ear.desynced
    ensures Behaves(tt, utf8) && ss < tt
    ensures var s, t := ss[|ss| - 1], tt[|tt| - 1];
            && t.Peer(side) == s.Peer(side) && t.At(side).voice == s.At(side).voice
            && t.At(side).ear.running && t.At(side).ear.parked && t.At(side).ear.got == s.At(side).ear.got
            && t.At(side).ear.calls == [] && !t.At(side).ear.desynced
  {
    var s := ss[|ss| - 1];
    hide Behaves;
    var e := s.At(side);
    var a := s.With(side, e.(ear := e.ear.(running := true, paused := false, parked := false, calls := [])));
    tt := Continues(ss, side, Listens, a, utf8);
    e := a.At(side);
    var b := a.With(side, e.(ear := e.ear.(parked := true, limit := NextLimit(e.ear.config, e.ear.assembly))));
    tt := Continues(tt, side, Parks, b, utf8);
  }

  lemma HeardGoesOn(e: End, f: Frame, key: Key, utf8: seq<byte> -> bool)
    ensures var d := Heard(e, f, key, utf8);
            && (d.ear.got == e.ear.got + 1 ==> d.ear.desynced == e.ear.desynced)
            && (e.ear.running && d.ear.got == e.ear.got + 1 && d.ear.calls != e.ear.calls ==> d.ear.running)
  {
    TakeCalls(e.ear.limit, e.ear.config, e.ear.assembly, f, utf8);
    hide TakeUnder, Answer, Ends;
  }

  lemma GoodCloseIsShort(f: Frame, utf8: seq<byte> -> bool)
    requires GoodClose(f, utf8)
    ensures |f.payload| <= MAX_CONTROL_PAYLOAD
  {}

  lemma SaidCloses(v: Voice, f: Frame, key: Key)
    requires f.opcode == OPCODE_CLOSE && |f.payload| <= MAX_CONTROL_PAYLOAD && !v.closeSent
    ensures OneCloseMore(v, Said(v, f, key), f.payload)
  {}

  /** Parked, it reads the close the peer has sent, answers it if it must, and stops. */
  lemma CanHearClose(ss: seq<State>, side: Side, key: Key, utf8: seq<byte> -> bool) returns (tt: seq<State>)
    requires Behaves(ss, utf8)
    requires var s := ss[|ss| - 1];
             var e, peer := s.At(side), s.Peer(side).voice;
             && e.ear.running && e.ear.parked && !e.ear.desynced && e.ear.calls == []
             && e.ear.got == |peer.sent| - 1 && peer.sent[e.ear.got].opcode == OPCODE_CLOSE
    ensures Behaves(tt, utf8) && ss < tt
    ensures var s, t := ss[|ss| - 1], tt[|tt| - 1];
            var e, d, f := s.At(side), t.At(side), s.Peer(side).voice.sent[s.At(side).ear.got];
            && t.Peer(side) == s.Peer(side) && Resting(d, s.Peer(side).voice) && d.ear.calls == [CloseCall(f)]
            && (if e.voice.closeSent then d.voice == e.voice
                else
                  && d.voice.closeSent && |d.voice.sent| == |e.voice.sent| + 1 && e.voice.sent <= d.voice.sent
                  && d.voice.sent[|e.voice.sent|].opcode == OPCODE_CLOSE
                  && d.voice.sent[|e.voice.sent|].payload == f.payload)
  {
    var s := ss[|ss| - 1];
    hide Behaves, Heard, IsAlwaysHeard;
    var t := s.With(side, Heard(s.At(side), s.Peer(side).voice.sent[s.At(side).ear.got], key, utf8));
    tt := Continues(ss, side, Reads(key), t, utf8);
    CloseIsEchoed(ss, s, side, key, t, utf8);
    HeardGoesOn(s.At(side), s.Peer(side).voice.sent[s.At(side).ear.got], key, utf8);
    var e := t.At(side);
    tt := Continues(tt, side, Stops, t.With(side, e.(ear := e.ear.(running := false))), utf8);
  }

  /**
   From every reachable state in which both sides are at rest and neither has closed: either of them may start, and then
   both have sent one close, with the same body, and each has heard the other's.
   */
  lemma HandshakeCompletes(ss: seq<State>, side: Side, f: Frame, key: Key, utf8: seq<byte> -> bool)
    returns (tt: seq<State>)
    requires Behaves(ss, utf8) && f.opcode == OPCODE_CLOSE && GoodClose(f, utf8)
    requires var s := ss[|ss| - 1];
             && Resting(s.At(side), s.Peer(side).voice) && Resting(s.Peer(side), s.At(side).voice)
             && !s.At(side).voice.closeSent && !s.Peer(side).voice.closeSent
    ensures Behaves(tt, utf8) && ss < tt
    ensures var s, t := ss[|ss| - 1], tt[|tt| - 1];
            && OneCloseMore(s.At(side).voice, t.At(side).voice, f.payload)
            && OneCloseMore(s.Peer(side).voice, t.Peer(side).voice, f.payload)
            && Resting(t.At(side), t.Peer(side).voice) && Resting(t.Peer(side), t.At(side).voice)
            && |t.At(side).ear.calls| == 1 && t.At(side).ear.calls[0].CloseCall?
            && |t.Peer(side).ear.calls| == 1 && t.Peer(side).ear.calls[0].CloseCall?
  {
    GoodCloseIsShort(f, utf8);
    var other, s := Other(side), ss[|ss| - 1];
    hide Behaves, GoodClose, Said;
    tt := CanPark(ss, other, utf8);
    var t := tt[|tt| - 1];
    var e := t.At(side);
    SaidCloses(e.voice, f, key);
    tt := Continues(tt, side, Sends(f, key), t.With(side, e.(voice := Said(e.voice, f, key))), utf8);
    tt := CanHearClose(tt, other, key, utf8);
    tt := CanPark(tt, side, utf8);
    tt := CanHearClose(tt, side, key, utf8);
  }

  /** What a side that succeeds in sending does here is what its connection does under the write lock. */
  lemma SaidIsFrameSent(c: Sending.ConnState, f: Frame, g: Frame, d: Sending.ConnState, r: Sending.Outcome)
    requires Sending.FrameSent(c, f, g, d, r) && (r == Sending.Sent || Sending.Refusal(f, c.closeSent).Some?)
    requires |f.payload| < TWO_TO_64
    ensures Said(Voice(c.masks, c.closeSent, c.log), f, g.maskingKey) == Voice(d.masks, d.closeSent, d.log)
  {
    hide Wire;
  }
}
