/** What a Listener makes of each frame (Listener.go, ListenerRouter.go, ListenerConfig.go, Frames.go). */
module Listeners {
  import opened Bytes
  import opened Frames
  import opened Messages
  import opened FrameControl
  import FrameReading
  import PauseChannels

  /** A hook is there or not; what it does is its own. */
  datatype Config = Config(
    maxMsgPayloadByteLen: uint64, maxMsgFrameCount: uint64, peerIsClient: bool,
    ping: bool, pong: bool, close: bool, data: bool, text: bool, binary: bool, unknown: bool)

  datatype ListenError =
    | NoError
    | ReservedBitsSet
    | FrameNotMasked
    | FrameMasked
    | ControlFrameFragmented
    | ControlFramePayloadTooLong
    | DataFrameDuringMsg
    | ContinuationFrameWithoutMsg
    | FrameByteLengthExceeded
    | MsgFrameCountExceeded
    | InvalidUTF8
    | ClosePayloadTooShort
    | InvalidCloseStatusCode
    | StreamEnded

  /** The message in flight. */
  datatype Assembly = Assembly(frames: seq<Frame>, count: uint64, acc: uint64, opcode: byte)

  const NO_MESSAGE: Assembly := Assembly([], 0, 0, OPCODE_CONTINUATION)

  /** A hook that ran and what it was given; a data hook also sees GetCurrentMsgOpcode. */
  datatype HookCall =
    | PingCall(frame: Frame)
    | PongCall(frame: Frame)
    | CloseCall(frame: Frame)
    | UnknownCall(frame: Frame)
    | DataCall(frame: Frame, msgOpcode: byte)
    | TextCall(frames: seq<Frame>)
    | BinaryCall(frames: seq<Frame>)

  function Max(a: int, b: int): int {
    if a < b then b else a
  }

  /**
   nextFrameByteLimit: the payload length up to which the reader goes on; 0 stands for any. The difference is one of
   64 bits.
   */
  function NextLimit(c: Config, a: Assembly): uint64 {
    if c.maxMsgPayloadByteLen == 0 then 0
    else if a.acc > c.maxMsgPayloadByteLen then MAX_CONTROL_PAYLOAD
    else Max((c.maxMsgPayloadByteLen - a.acc) % TWO_TO_64, MAX_CONTROL_PAYLOAD)
  }

  /**
   What a frame may declare is what the budget has left, or 125; a budget lowered below what is in hand leaves 125.
   */
  lemma LimitIsExact(c: Config, a: Assembly)
    ensures NextLimit(c, a)
            == if c.maxMsgPayloadByteLen == 0 then 0 else Max(c.maxMsgPayloadByteLen - a.acc, MAX_CONTROL_PAYLOAD)
  {}

  /** What is wrong with f whatever message is open. */
  function HeaderFault(peerIsClient: bool, f: Frame): ListenError {
    if f.rsv1 || f.rsv2 || f.rsv3 then ReservedBitsSet
    else if f.mask != peerIsClient then (if peerIsClient then FrameNotMasked else FrameMasked)
    else if !IsControl(f.opcode) then NoError
    else if !f.fin then ControlFrameFragmented
    else if |f.payload| > MAX_CONTROL_PAYLOAD then ControlFramePayloadTooLong
    else NoError
  }

  /** validateFrame. */
  function FaultOf(c: Config, a: Assembly, f: Frame): ListenError {
    var fault := HeaderFault(c.peerIsClient, f);
    if fault != NoError then fault
    else if !IsData(f.opcode) then NoError
    else if a.count > 0 && f.opcode != OPCODE_CONTINUATION then DataFrameDuringMsg
    else if a.count == 0 && f.opcode == OPCODE_CONTINUATION then ContinuationFrameWithoutMsg
    else NoError
  }

  function FragmentsOf(fs: seq<Frame>): seq<Fragment> {
    seq(|fs|, i requires 0 <= i < |fs| => FragmentOf(fs[i]))
  }

  /** Frames.Bytes. */
  function FramesBytes(fs: seq<Frame>): seq<byte> {
    Join(FragmentsOf(fs))
  }

  datatype Routed = Routed(assembly: Assembly, calls: seq<HookCall>, err: ListenError)

  /** Fragments the router drops. */
  predicate AddsNothing(m: Fragment) {
    m.opcode == OPCODE_CONTINUATION && !m.fin && m.payload == []
  }

  function ErrorOf(fault: CloseFault): ListenError {
    match fault
    case NoFault => NoError
    case TooShort => ListenError.ClosePayloadTooShort
    case InvalidStatusCode => InvalidCloseStatusCode
    case ReasonNotUTF8 => InvalidUTF8
  }

  function If(present: bool, call: HookCall): seq<HookCall> {
    if present then [call] else []
  }

  function RouteControl(c: Config, a: Assembly, f: Frame, utf8: seq<byte> -> bool): Routed
    requires !IsData(f.opcode)
  {
    if f.opcode == OPCODE_PING then Routed(a, If(c.ping, PingCall(f)), NoError)
    else if f.opcode == OPCODE_PONG then Routed(a, If(c.pong, PongCall(f)), NoError)
    else if f.opcode == OPCODE_CLOSE then
      var err := ErrorOf(CloseFaultOf(f.payload, utf8));
      Routed(a, if err == NoError then If(c.close, CloseCall(f)) else [], err)
    else Routed(a, If(c.unknown, UnknownCall(f)), NoError)
  }

  /** A whole message leaves for the hook its first frame named. */
  function RouteMessage(c: Config, frames: seq<Frame>, opcode: byte, utf8: seq<byte> -> bool): Routed {
    if opcode == OPCODE_TEXT then
      if utf8(FramesBytes(frames)) then Routed(NO_MESSAGE, If(c.text, TextCall(frames)), NoError)
      else Routed(NO_MESSAGE, [], InvalidUTF8)
    else if opcode == OPCODE_BINARY then Routed(NO_MESSAGE, If(c.binary, BinaryCall(frames)), NoError)
    else Routed(NO_MESSAGE, [], NoError)
  }

  /** The assembly once f is counted. */
  function Counted(a: Assembly, f: Frame): Assembly {
    a.(acc := (a.acc + |f.payload|) % TWO_TO_64, count := (a.count + 1) % TWO_TO_64,
       opcode := if f.opcode != OPCODE_CONTINUATION then f.opcode else a.opcode)
  }

  lemma CountedAtMost(a: Assembly, f: Frame)
    ensures Counted(a, f).acc <= a.acc + |f.payload|
    ensures a.acc + |f.payload| < TWO_TO_64 ==> Counted(a, f).acc == a.acc + |f.payload|
    ensures a.count + 1 < TWO_TO_64 ==> Counted(a, f).count == a.count + 1
  {}

  function RouteData(c: Config, a: Assembly, f: Frame, utf8: seq<byte> -> bool): Routed {
    var b := Counted(a, f);
    if AddsNothing(FragmentOf(f)) then Routed(a, [], NoError)
    else if 0 < c.maxMsgPayloadByteLen < b.acc then Routed(NO_MESSAGE, [], FrameByteLengthExceeded)
    else if 0 < c.maxMsgFrameCount < b.count then Routed(NO_MESSAGE, [], MsgFrameCountExceeded)
    else if c.data then Routed(if f.fin then NO_MESSAGE else b, [DataCall(f, b.opcode)], NoError)
    else if !f.fin then Routed(b.(frames := a.frames + [f]), [], NoError)
    else RouteMessage(c, a.frames + [f], b.opcode, utf8)
  }

  /** routeFrame. */
  function Route(c: Config, a: Assembly, f: Frame, utf8: seq<byte> -> bool): Routed {
    if IsData(f.opcode) then RouteData(c, a, f, utf8) else RouteControl(c, a, f, utf8)
  }

  /**
   What one turn of the read loop makes of f, when the size guard granted `limit` and had seen only the header, and
   validation and routing each found a configuration of their own.
   */
  function TakeUnder(limit: uint64, check: Config, act: Config, a: Assembly, f: Frame, utf8: seq<byte> -> bool)
    : Routed
  {
    if 0 < limit < |f.payload| then Routed(a, [], FrameByteLengthExceeded)
    else if FaultOf(check, a, f) != NoError then Routed(a, [], FaultOf(check, a, f))
    else Route(act, a, f, utf8)
  }

  /** The same while the configuration stays what it is. */
  function Take(c: Config, a: Assembly, f: Frame, utf8: seq<byte> -> bool): Routed {
    TakeUnder(NextLimit(c, a), c, c, a, f, utf8)
  }

  /** Frame after frame until one is refused. */
  function TakeAll(c: Config, a: Assembly, fs: seq<Frame>, utf8: seq<byte> -> bool): Routed
    decreases |fs|
  {
    if fs == [] then Routed(a, [], NoError)
    else
      var r := Take(c, a, fs[0], utf8);
      if r.err != NoError then r
      else var rest := TakeAll(c, r.assembly, fs[1..], utf8); rest.(calls := r.calls + rest.calls)
  }

  datatype Listened = Listened(assembly: Assembly, calls: seq<HookCall>, err: ListenError, rest: seq<byte>)

  /** The read loop over the bytes s of a connection, paused after n frames if nothing ended it before. */
  function Listening(c: Config, a: Assembly, s: seq<byte>, n: nat, utf8: seq<byte> -> bool): Listened
    decreases n
  {
    if n == 0 then Listened(a, [], NoError, s)
    else
      match FrameReading.ReadFrame(s, NextLimit(c, a))
      case ReadShort => Listened(a, [], StreamEnded, [])
      case ReadTooLong(rest) => Listened(a, [], FrameByteLengthExceeded, rest)
      case ReadOk(f, rest) =>
        var fault := FaultOf(c, a, f);
        if fault != NoError then Listened(a, [], fault, rest)
        else
          var r := Route(c, a, f, utf8);
          if r.err != NoError then Listened(r.assembly, r.calls, r.err, rest)
          else var more := Listening(c, r.assembly, rest, n - 1, utf8); more.(calls := r.calls + more.calls)
  }

  /** After j frames, the next read is the one that fails. */
  predicate ReadFailsAfter(c: Config, a: Assembly, s: seq<byte>, j: nat, utf8: seq<byte> -> bool) {
    var l := Listening(c, a, s, j, utf8);
    !FrameReading.ReadFrame(l.rest, NextLimit(c, l.assembly)).ReadOk?
  }

  /** How a run ends: with what the pauser gave it, with an error of its own, or with both joined. */
  datatype Ended =
    | ByPause(pause: PauseChannels.Error)
    | ByItself(err: ListenError)
    | Joined(pause: PauseChannels.Error, err: ListenError)

  /** What a failed read comes back as, when `late` is what its second look at the pause channel finds. */
  function ReadEnded(err: ListenError, late: PauseChannels.Received): Ended {
    match late
    case Got(pause) => if pause == [] then ByItself(err) else Joined(pause, err)
    case Nothing => ByItself(err)
  }

  // ----- the Listener itself

  lemma FramesBytesSnoc(fs: seq<Frame>, f: Frame)
    ensures FramesBytes(fs + [f]) == FramesBytes(fs) + f.payload
  {
    assert FragmentsOf(fs + [f]) == FragmentsOf(fs) + [FragmentOf(f)];
    JoinAppend(FragmentsOf(fs), [FragmentOf(f)]);
    JoinOne(FragmentOf(f));
  }

  /** Frames.ByteLen. */
  method ByteLen(frames: seq<Frame>) returns (total: nat)
    ensures total == |FramesBytes(frames)|
  {
    total := 0;
    for i := 0 to |frames|
      invariant total == |FramesBytes(frames[..i])|
    {
      FramesBytesSnoc(frames[..i], frames[i]);
      assert frames[..i + 1] == frames[..i] + [frames[i]];
      total := total + |frames[i].payload|;
    }
    assert frames[..|frames|] == frames;
  }

  lemma FramesBytesPrefix(fs: seq<Frame>, n: nat)
    requires n <= |fs|
    ensures |FramesBytes(fs[..n])| <= |FramesBytes(fs)|
  {
    assert FragmentsOf(fs) == FragmentsOf(fs[..n]) + FragmentsOf(fs[n..]);
    JoinAppend(FragmentsOf(fs[..n]), FragmentsOf(fs[n..]));
  }

  /** Frames.Bytes. */
  method JoinFrames(frames: seq<Frame>) returns (bytes: array<byte>)
    ensures fresh(bytes) && bytes[..] == FramesBytes(frames)
  {
    var size := ByteLen(frames);
    bytes := new byte[size](_ => 0);
    var at := 0;
    assert frames[..|frames|] == frames;
    for i := 0 to |frames|
      invariant at == |FramesBytes(frames[..i])| <= bytes.Length
      invariant bytes[..at] == FramesBytes(frames[..i])
    {
      FramesBytesSnoc(frames[..i], frames[i]);
      FramesBytesPrefix(frames, i + 1);
      assert frames[..i + 1] == frames[..i] + [frames[i]];
      ghost var before := bytes[..at];
      PutBytes(bytes, at, frames[i].payload);
      at := at + |frames[i].payload|;
      assert bytes[..at] == before + frames[i].payload;
    }
  }

  lemma FramesBytesOne(f: Frame)
    ensures FramesBytes([f]) == f.payload
  {
    assert FragmentsOf([f]) == [FragmentOf(f)];
    JoinOne(FragmentOf(f));
  }

  /** Pausing after j frames and listening again is listening on: same state, same calls, same end. */
  lemma {:induction false} PauseIsTransparent(c: Config, a: Assembly, s: seq<byte>, j: nat, k: nat,
                                              utf8: seq<byte> -> bool)
    ensures var first := Listening(c, a, s, j, utf8);
            var whole := Listening(c, a, s, j + k, utf8);
            if first.err != NoError then whole == first
            else
              var second := Listening(c, first.assembly, first.rest, k, utf8);
              whole == second.(calls := first.calls + second.calls)
    decreases j
  {
    hide Route, FaultOf, FrameReading.ReadFrame, NextLimit;
    if j > 0 {
      match FrameReading.ReadFrame(s, NextLimit(c, a))
      case ReadShort =>
      case ReadTooLong(_) =>
      case ReadOk(f, rest) =>
        var r := Route(c, a, f, utf8);
        if FaultOf(c, a, f) == NoError && r.err == NoError {
          PauseIsTransparent(c, r.assembly, rest, j - 1, k, utf8);
          var first := Listening(c, r.assembly, rest, j - 1, utf8);
          var second := Listening(c, first.assembly, first.rest, k, utf8);
          AppendAssociates(r.calls, first.calls, second.calls);
        }
    }
  }

  lemma ReadTakesBytes(s: seq<byte>, max: uint64)
    ensures var r := FrameReading.ReadFrame(s, max); r.ReadOk? ==> |r.rest| < |s|
  {}

  class Listener {
    const utf8: seq<byte> -> bool
    var config: Config
    var currentDataFrames: seq<Frame>
    var currentDataFrameCount: uint64
    var currentDataAccLength: uint64
    var currentDataFrameOpcode: byte
    ghost var calls: seq<HookCall>

    function State(): Assembly
      reads this
    {
      Assembly(currentDataFrames, currentDataFrameCount, currentDataAccLength, currentDataFrameOpcode)
    }

    constructor (config: Config, utf8: seq<byte> -> bool)
      ensures this.config == config && this.utf8 == utf8 && State() == NO_MESSAGE && calls == []
    {
      this.config, this.utf8 := config, utf8;
      currentDataFrames, currentDataFrameCount, currentDataAccLength, currentDataFrameOpcode := [], 0, 0, 0;
      calls := [];
    }

    method SetConfig(config: Config)
      modifies this`config
      ensures this.config == config
    {
      this.config := config;
    }

    method ResetCurrentDataFrames()
      modifies this`currentDataFrames, this`currentDataFrameCount, this`currentDataAccLength,
          this`currentDataFrameOpcode
      ensures State() == NO_MESSAGE
    {
      currentDataFrames := [];
      currentDataFrameCount := 0;
      currentDataAccLength := 0;
      currentDataFrameOpcode := OPCODE_CONTINUATION;
    }

    /** validTextUTF8: the verdict is that on the joined bytes, whichever way it is come by. */
    method ValidTextUTF8(frames: seq<Frame>) returns (ok: bool)
      ensures ok == utf8(FramesBytes(frames))
    {
      if |frames| == 1 {
        FramesBytesOne(frames[0]);
        assert frames == [frames[0]];
        return utf8(frames[0].payload);
      }
      var bytes := JoinFrames(frames);
      return utf8(bytes[..]);
    }

    /** The end of routeFrame: the hook is recorded with the frames, and no message is open any more. */
    method HandOver() returns (err: ListenError)
      modifies this`currentDataFrames, this`currentDataFrameCount, this`currentDataAccLength,
               this`currentDataFrameOpcode, this`calls
      ensures var r := RouteMessage(config, old(currentDataFrames), old(currentDataFrameOpcode), utf8);
              State() == r.assembly && calls == old(calls) + r.calls && err == r.err
    {
      hide FramesBytes;
      var frames, opcode := currentDataFrames, currentDataFrameOpcode;
      ResetCurrentDataFrames();
      if opcode == OPCODE_TEXT {
        var ok := ValidTextUTF8(frames);
        if !ok {
          return InvalidUTF8;
        }
        calls := calls + If(config.text, TextCall(frames));
      } else if opcode == OPCODE_BINARY {
        calls := calls + If(config.binary, BinaryCall(frames));
      }
      return NoError;
    }

    method RouteDataFrame(f: Frame) returns (err: ListenError)
      modifies this`currentDataFrames, this`currentDataFrameCount, this`currentDataAccLength,
               this`currentDataFrameOpcode, this`calls
      ensures var r := RouteData(config, old(State()), f, utf8);
              State() == r.assembly && calls == old(calls) + r.calls && err == r.err
    {
      hide FramesBytes;
      if f.opcode == OPCODE_CONTINUATION && !f.fin && |f.payload| == 0 {
        return NoError;
      }
      currentDataAccLength := (currentDataAccLength + |f.payload|) % TWO_TO_64;
      if config.maxMsgPayloadByteLen > 0 && currentDataAccLength > config.maxMsgPayloadByteLen {
        ResetCurrentDataFrames();
        return FrameByteLengthExceeded;
      }
      currentDataFrameCount := (currentDataFrameCount + 1) % TWO_TO_64;
      if config.maxMsgFrameCount > 0 && currentDataFrameCount > config.maxMsgFrameCount {
        ResetCurrentDataFrames();
        return MsgFrameCountExceeded;
      }
      if f.opcode != OPCODE_CONTINUATION {
        currentDataFrameOpcode := f.opcode;
      }
      if config.data {
        calls := calls + [DataCall(f, currentDataFrameOpcode)];
        if f.fin {
          ResetCurrentDataFrames();
        }
        return NoError;
      }
      currentDataFrames := currentDataFrames + [f];
      if !f.fin {
        return NoError;
      }
      err := HandOver();
    }

    method RouteFrame(f: Frame) returns (err: ListenError)
      modifies this`currentDataFrames, this`currentDataFrameCount, this`currentDataAccLength,
               this`currentDataFrameOpcode, this`calls
      ensures var r := Route(config, old(State()), f, utf8);
              State() == r.assembly && calls == old(calls) + r.calls && err == r.err
    {
      if f.opcode == OPCODE_PING {
        calls := calls + If(config.ping, PingCall(f));
        return NoError;
      }
      if f.opcode == OPCODE_PONG {
        calls := calls + If(config.pong, PongCall(f));
        return NoError;
      }
      if f.opcode == OPCODE_CLOSE {
        err := ErrorOf(CloseFaultOf(f.payload, utf8));
        if err == NoError {
          calls := calls + If(config.close, CloseCall(f));
        }
        return;
      }
      if !IsData(f.opcode) {
        calls := calls + If(config.unknown, UnknownCall(f));
        return NoError;
      }
      err := RouteDataFrame(f);
    }

    /** One turn of the loop: read within the limit, validate, route. */
    method ListenFrame(conn: FrameReading.Reader) returns (err: ListenError, readFailed: bool)
      modifies conn, this`currentDataFrames, this`currentDataFrameCount, this`currentDataAccLength,
               this`currentDataFrameOpcode, this`calls
      ensures var r := Listening(config, old(State()), old(conn.pending), 1, utf8);
              && State() == r.assembly && calls == old(calls) + r.calls && err == r.err && conn.pending == r.rest
      ensures readFailed == !FrameReading.ReadFrame(old(conn.pending), NextLimit(config, old(State()))).ReadOk?
      ensures (err == NoError ==> |conn.pending| < |old(conn.pending)|) && (readFailed ==> err != NoError)
    {
      hide Route, FaultOf, FrameReading.ReadFrame, NextLimit;
      ReadTakesBytes(conn.pending, NextLimit(config, State()));
      var ref, readErr := conn.GetFrame(NextLimit(config, State()));
      if readErr == FrameReading.StreamEnded {
        return StreamEnded, true;
      }
      if readErr == FrameReading.FrameByteLengthExceeded {
        return FrameByteLengthExceeded, true;
      }
      var f := ref.Value();
      err := FaultOf(config, State(), f);
      if err != NoError {
        return err, false;
      }
      err := RouteFrame(f);
      readFailed := false;
    }

    /** i frames into a run that began with assembly a, calls `before` and bytes s still to come. */
    ghost predicate Heard(conn: FrameReading.Reader, c: Config, a: Assembly, before: seq<HookCall>, s: seq<byte>,
                          i: nat, err: ListenError)
      reads this, conn
    {
      var r := Listening(c, a, s, i, utf8);
      config == c && State() == r.assembly && calls == before + r.calls && err == r.err && conn.pending == r.rest
    }

    lemma HeardAtStart(conn: FrameReading.Reader)
      ensures Heard(conn, config, State(), calls, conn.pending, 0, NoError)
    {}

    method ListenOn(conn: FrameReading.Reader, ghost c: Config, ghost a: Assembly, ghost before: seq<HookCall>,
                    ghost s: seq<byte>, ghost i: nat)
      returns (err: ListenError, readFailed: bool)
      requires Heard(conn, c, a, before, s, i, NoError)
      modifies conn, this`currentDataFrames, this`currentDataFrameCount, this`currentDataAccLength,
               this`currentDataFrameOpcode, this`calls
      ensures Heard(conn, c, a, before, s, i + 1, err) && readFailed == ReadFailsAfter(c, a, s, i, utf8)
      ensures err == NoError ==> |conn.pending| < |old(conn.pending)|
    {
      hide Listening, NextLimit, FrameReading.ReadFrame;
      ghost var done := Listening(c, a, s, i, utf8);
      err, readFailed := ListenFrame(conn);
      PauseIsTransparent(c, a, s, i, 1, utf8);
      AppendAssociates(before, done.calls, Listening(c, done.assembly, done.rest, 1, utf8).calls);
    }

    /**
     listenFrames. `looks(i)` is what the look at the pause channel before frame i finds, `late` what the one after a
     failed read finds. Without a pause the run ends by itself: a stream ends with its socket.
     */
    method ListenFrames(conn: FrameReading.Reader, looks: nat -> PauseChannels.Received, late: PauseChannels.Received)
      returns (end: Ended, frames: nat, err: ListenError)
      modifies conn, this`currentDataFrames, this`currentDataFrameCount, this`currentDataAccLength,
               this`currentDataFrameOpcode, this`calls
      ensures forall i | 0 <= i < frames :: looks(i) == PauseChannels.Nothing
      ensures Heard(conn, old(config), old(State()), old(calls), old(conn.pending),
                    if err == NoError then frames else frames + 1, err)
      ensures match looks(frames)
              case Got(pause) => err == NoError && end == ByPause(pause)
              case Nothing =>
                && err != NoError
                && (if ReadFailsAfter(old(config), old(State()), old(conn.pending), frames, utf8)
                       && late.Got? && late.err != []
                    then end == Joined(late.err, err) else end == ByItself(err))
    {
      hide Heard, Listening, ReadFailsAfter;
      ghost var c, a, before, s := config, State(), calls, conn.pending;
      err, frames := NoError, 0;
      HeardAtStart(conn);
      while true
        invariant err == NoError && Heard(conn, c, a, before, s, frames, err)
        invariant forall i | 0 <= i < frames :: looks(i) == PauseChannels.Nothing
        decreases |conn.pending|
      {
        match looks(frames) {
          case Got(pause) => return ByPause(pause), frames, NoError;
          case Nothing =>
        }
        var readFailed;
        err, readFailed := ListenOn(conn, c, a, before, s, frames);
        if err != NoError {
          return if readFailed then ReadEnded(err, late) else ByItself(err), frames, err;
        }
        frames := frames + 1;
      }
    }
  }

  lemma {:induction false} ErrorsStay(c: Config, a: Assembly, s: seq<byte>, i: nat, n: nat, utf8: seq<byte> -> bool)
    requires i <= n && Listening(c, a, s, i, utf8).err != NoError
    ensures Listening(c, a, s, n, utf8) == Listening(c, a, s, i, utf8)
  {
    hide Listening;
    PauseIsTransparent(c, a, s, i, n - i, utf8);
  }

  function Sum(ns: seq<nat>): nat {
    if ns == [] then 0 else ns[0] + Sum(ns[1..])
  }

  /** One run after another, run k paused after cuts[k] frames. */
  function Sittings(c: Config, a: Assembly, s: seq<byte>, cuts: seq<nat>, utf8: seq<byte> -> bool): Listened
    decreases |cuts|
  {
    if cuts == [] then Listened(a, [], NoError, s)
    else
      var first := Listening(c, a, s, cuts[0], utf8);
      if first.err != NoError then first
      else var more := Sittings(c, first.assembly, first.rest, cuts[1..],
          utf8); more.(calls := first.calls + more.calls)
  }

  lemma {:induction false} ListeningNone(c: Config, a: Assembly, s: seq<byte>, utf8: seq<byte> -> bool)
    ensures Listening(c, a, s, 0, utf8) == Listened(a, [], NoError, s)
  {}

  /** However often a connection is paused and listened to again, the hooks run as in one uninterrupted run. */
  lemma {:induction false} PausesAreTransparent(c: Config, a: Assembly, s: seq<byte>, cuts: seq<nat>,
                                                utf8: seq<byte> -> bool)
    ensures Sittings(c, a, s, cuts, utf8) == Listening(c, a, s, Sum(cuts), utf8)
    decreases |cuts|
  {
    hide Listening;
    if cuts == [] {
      ListeningNone(c, a, s, utf8);
    } else {
      PauseIsTransparent(c, a, s, cuts[0], Sum(cuts[1..]), utf8);
      var first := Listening(c, a, s, cuts[0], utf8);
      PausesAreTransparent(c, first.assembly, first.rest, cuts[1..], utf8);
    }
  }

  /** A run nobody pauses ends: every frame takes bytes off a stream that ends with its socket. */
  lemma {:induction false} UnpausedRunEnds(c: Config, a: Assembly, s: seq<byte>, n: nat, utf8: seq<byte> -> bool)
    requires n > |s|
    ensures Listening(c, a, s, n, utf8).err != NoError
    decreases n
  {
    hide Route, FaultOf, NextLimit, FrameReading.ReadFrame;
    ReadTakesBytes(s, NextLimit(c, a));
    match FrameReading.ReadFrame(s, NextLimit(c, a))
    case ReadShort =>
    case ReadTooLong(_) =>
    case ReadOk(f, rest) =>
      var r := Route(c, a, f, utf8);
      UnpausedRunEnds(c, r.assembly, rest, n - 1, utf8);
  }
}
