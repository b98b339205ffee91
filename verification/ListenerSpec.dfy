/**
 What a Listener is for, said without its counters: data frames grouped as RFC 6455 section 5.4 groups
 them, every fragment joined, and every other frame passed through.
 */
module ListenerSpec {
  import opened Bytes
  import opened Frames
  import opened Messages
  import opened FrameControl
  import opened Listeners
  import FrameReading

  /** What reaches a hook: a message is its bytes, however it was cut. */
  datatype Delivery =
    | ToPing(frame: Frame)
    | ToPong(frame: Frame)
    | ToClose(frame: Frame)
    | ToUnknown(frame: Frame)
    | ToData(frame: Frame, msgOpcode: byte)
    | ToText(bytes: seq<byte>)
    | ToBinary(bytes: seq<byte>)

  function DeliveryOf(call: HookCall): Delivery {
    match call
    case PingCall(f) => ToPing(f)
    case PongCall(f) => ToPong(f)
    case CloseCall(f) => ToClose(f)
    case UnknownCall(f) => ToUnknown(f)
    case DataCall(f, opcode) => ToData(f, opcode)
    case TextCall(frames) => ToText(FramesBytes(frames))
    case BinaryCall(frames) => ToBinary(FramesBytes(frames))
  }

  function Deliveries(calls: seq<HookCall>): seq<Delivery> {
    seq(|calls|, i requires 0 <= i < |calls| => DeliveryOf(calls[i]))
  }

  /** The fragments that count against the frame budget. */
  function Kept(ms: seq<Fragment>): seq<Fragment> {
    if ms == [] then []
    else Kept(ms[..|ms| - 1]) + if AddsNothing(ms[|ms| - 1]) then [] else [ms[|ms| - 1]]
  }

  datatype Judged = Judged(message: seq<Fragment>, out: seq<Delivery>, err: ListenError)

  function When(present: bool, d: Delivery): seq<Delivery> {
    if present then [d] else []
  }

  /** The hook a control or reserved frame has to itself. */
  function PassedTo(c: Config, f: Frame): seq<Delivery> {
    if f.opcode == OPCODE_PING then When(c.ping, ToPing(f))
    else if f.opcode == OPCODE_PONG then When(c.pong, ToPong(f))
    else if f.opcode == OPCODE_CLOSE then When(c.close, ToClose(f))
    else When(c.unknown, ToUnknown(f))
  }

  /** Sections 5.1, 5.2 and 5.5: the first rule a header breaks whatever message is open. */
  function HeaderRule(peerIsClient: bool, f: Frame): ListenError {
    if f.rsv1 || f.rsv2 || f.rsv3 then ReservedBitsSet
    else if peerIsClient && !f.mask then FrameNotMasked
    else if !peerIsClient && f.mask then FrameMasked
    else if 0x8 <= f.opcode <= 0xA && !f.fin then ControlFrameFragmented
    else if 0x8 <= f.opcode <= 0xA && |f.payload| > 125 then ControlFramePayloadTooLong
    else NoError
  }

  /** The status code two bytes carry. */
  function CodeIn(first: nat, second: nat): nat {
    256 * first + second
  }

  /** Sections 5.5.1 and 7.4: the body of a close is nothing, or a status code with UTF-8 after it. */
  function CloseRule(p: seq<byte>, utf8: seq<byte> -> bool): ListenError {
    if p == [] then NoError
    else if |p| == 1 then ListenError.ClosePayloadTooShort
    else
      var code := CodeIn(p[0], p[1]);
      if !(1000 <= code <= 1003 || 1007 <= code <= 1014 || 3000 <= code <= 4999) then InvalidCloseStatusCode
      else if |p| > 2 && !utf8(p[2..]) then InvalidUTF8
      else NoError
  }

  function PassFault(f: Frame, utf8: seq<byte> -> bool): ListenError {
    if f.opcode == 0x8 then CloseRule(f.payload, utf8) else NoError
  }

  /** The whole message `ms`, to the hook its first fragment names. */
  function JudgeMessage(c: Config, ms: seq<Fragment>, utf8: seq<byte> -> bool): Judged
    requires ms != []
  {
    if ms[0].opcode == OPCODE_BINARY then Judged([], When(c.binary, ToBinary(Join(ms))), NoError)
    else if utf8(Join(ms)) then Judged([], When(c.text, ToText(Join(ms))), NoError)
    else Judged([], [], InvalidUTF8)
  }

  /** `message` is every fragment of the open message so far, empty ones included; [] when none is open. */
  function JudgeData(c: Config, message: seq<Fragment>, f: Frame, utf8: seq<byte> -> bool): Judged {
    var m := FragmentOf(f);
    var all := message + [m];
    if Advance(if message == [] then Between else Inside, m) == Illegal then
      Judged(message, [], if message == [] then ContinuationFrameWithoutMsg else DataFrameDuringMsg)
    else if AddsNothing(m) then Judged(all, [], NoError)
    else if 0 < c.maxMsgPayloadByteLen < |Join(all)| then Judged([], [], FrameByteLengthExceeded)
    else if 0 < c.maxMsgFrameCount < |Kept(all)| then Judged([], [], MsgFrameCountExceeded)
    else if c.data then Judged(if f.fin then [] else all, [ToData(f, all[0].opcode)], NoError)
    else if f.fin then JudgeMessage(c, all, utf8)
    else Judged(all, [], NoError)
  }

  /** Longer than what the message may still take, a control frame's 125 bytes always being granted. */
  predicate Oversized(c: Config, message: seq<Fragment>, f: Frame) {
    c.maxMsgPayloadByteLen > 0 && |f.payload| > Max(c.maxMsgPayloadByteLen - |Join(message)|, MAX_CONTROL_PAYLOAD)
  }

  function Judge(c: Config, message: seq<Fragment>, f: Frame, utf8: seq<byte> -> bool): Judged {
    if Oversized(c, message, f) then Judged(message, [], FrameByteLengthExceeded)
    else if HeaderRule(c.peerIsClient, f) != NoError then Judged(message, [], HeaderRule(c.peerIsClient, f))
    else if IsData(f.opcode) then JudgeData(c, message, f, utf8)
    else
      var err := PassFault(f, utf8);
      Judged(message, if err == NoError then PassedTo(c, f) else [], err)
  }

  function JudgeAll(c: Config, message: seq<Fragment>, fs: seq<Frame>, utf8: seq<byte> -> bool): Judged
    decreases |fs|
  {
    if fs == [] then Judged(message, [], NoError)
    else
      var j := Judge(c, message, fs[0], utf8);
      if j.err != NoError then j
      else var rest := JudgeAll(c, j.message, fs[1..], utf8); rest.(out := j.out + rest.out)
  }

  // ----- the counters say what the message is

  lemma {:induction false} KeptSnoc(ms: seq<Fragment>, m: Fragment)
    ensures Kept(ms + [m]) == Kept(ms) + if AddsNothing(m) then [] else [m]
  {}

  lemma JoinSnoc(ms: seq<Fragment>, m: Fragment)
    ensures Join(ms + [m]) == Join(ms) + m.payload
  {
    JoinAppend(ms, [m]);
    JoinOne(m);
  }

  /** Dropping what adds nothing leaves the bytes as they are. */
  lemma {:induction false} JoinOfKept(ms: seq<Fragment>)
    ensures Join(Kept(ms)) == Join(ms)
  {
    if ms != [] {
      var k := |ms| - 1;
      JoinOfKept(ms[..k]);
      assert ms == ms[..k] + [ms[k]];
      JoinSnoc(ms[..k], ms[k]);
      KeptSnoc(ms[..k], ms[k]);
      if AddsNothing(ms[k]) {
        assert Kept(ms) == Kept(ms[..k]);
      } else {
        JoinSnoc(Kept(ms[..k]), ms[k]);
      }
    }
  }

  /** Only the first fragment kept can be empty. */
  lemma {:induction false} KeptBound(ms: seq<Fragment>)
    requires UnfinishedMessage(ms)
    ensures 0 < |Kept(ms)| <= |Join(ms)| + 1
  {
    var k := |ms| - 1;
    assert ms == ms[..k] + [ms[k]] && ms[k] in ms;
    JoinSnoc(ms[..k], ms[k]);
    if k == 0 {
      assert Kept(ms[..0]) == [] && !AddsNothing(ms[0]);
    } else {
      assert forall m | m in ms[..k] :: m in ms;
      KeptBound(ms[..k]);
      assert ms[k].payload == [] ==> AddsNothing(ms[k]);
    }
  }

  predicate Represents(c: Config, a: Assembly, message: seq<Fragment>) {
    && (message == [] || UnfinishedMessage(message))
    && a.acc == |Join(message)|
    && a.count == |Kept(message)|
    && a.opcode == (if message == [] then OPCODE_CONTINUATION else message[0].opcode)
    && FragmentsOf(a.frames) == (if c.data then [] else Kept(message))
    && (c.maxMsgPayloadByteLen > 0 ==> a.acc <= c.maxMsgPayloadByteLen)
  }

  const MAX_SAFE_BUDGET: nat := TWO_TO_64 - 126

  /** No counter can wrap: the budget sees to it, or the message is shorter than 2^64 - 2 bytes. */
  predicate Room(c: Config, size: nat) {
    0 < c.maxMsgPayloadByteLen <= MAX_SAFE_BUDGET || size + 2 < TWO_TO_64
  }

  lemma NothingRepresented(c: Config)
    ensures Represents(c, NO_MESSAGE, [])
  {}

  lemma FragmentsOfSnoc(fs: seq<Frame>, f: Frame)
    ensures FragmentsOf(fs + [f]) == FragmentsOf(fs) + [FragmentOf(f)]
  {}

  /** The message with its next fragment. */
  lemma {:induction false} NextFragment(message: seq<Fragment>, m: Fragment)
    requires message == [] || UnfinishedMessage(message)
    requires Advance(if message == [] then Between else Inside, m) != Illegal
    ensures var all := message + [m];
            && OpensMessage(all[0].opcode) && all[0].opcode == (if message == [] then m.opcode else message[0].opcode)
            && (if m.fin then WholeMessage(all) else UnfinishedMessage(all))
            && Join(all) == Join(message) + m.payload
            && Kept(all) == Kept(message) + (if AddsNothing(m) then [] else [m])
            && |Kept(message)| <= |Join(message)| + 1
            && (message == [] <==> m.opcode != OPCODE_CONTINUATION)
            && (message == [] <==> Kept(message) == [])
  {
    KeptSnoc(message, m);
    JoinSnoc(message, m);
    if message != [] {
      KeptBound(message);
    }
    assert (message + [m])[..|message|] == message;
  }

  lemma {:induction false} RoomForOne(c: Config, a: Assembly, message: seq<Fragment>, f: Frame)
    requires Represents(c, a, message) && !Oversized(c, message, f) && Room(c, |Join(message)| + |f.payload|)
    requires |Kept(message)| <= |Join(message)| + 1
    ensures a.acc + |f.payload| < TWO_TO_64 && a.count + 1 < TWO_TO_64
  {
    hide Join, Kept, FragmentsOf, UnfinishedMessage;
  }

  lemma CountedOpcode(a: Assembly, f: Frame)
    ensures Counted(a, f).opcode == if f.opcode != OPCODE_CONTINUATION then f.opcode else a.opcode
  {}

  lemma {:induction false} CountedInRoom(c: Config, a: Assembly, message: seq<Fragment>, f: Frame)
    requires Represents(c, a, message) && !Oversized(c, message, f) && Room(c, |Join(message)| + |f.payload|)
    requires Advance(if message == [] then Between else Inside, FragmentOf(f)) != Illegal
    ensures Counted(a, f).acc == |Join(message + [FragmentOf(f)])|
    ensures !AddsNothing(FragmentOf(f)) ==> Counted(a, f).count == |Kept(message + [FragmentOf(f)])|
    ensures Counted(a, f).opcode == (message + [FragmentOf(f)])[0].opcode
  {
    NextFragment(message, FragmentOf(f));
    CountedAtMost(a, f);
    RoomForOne(c, a, message, f);
    CountedOpcode(a, f);
    hide Join, Kept, FragmentsOf, UnfinishedMessage, Advance, Oversized, Room, Counted, OpensMessage, WholeMessage;
  }

  /** A data frame in order, read within the limit, with room for it in the counters. */
  predicate InOrder(c: Config, a: Assembly, message: seq<Fragment>, f: Frame) {
    && Represents(c, a, message) && !Oversized(c, message, f) && Room(c, |Join(message)| + |f.payload|)
    && Advance(if message == [] then Between else Inside, FragmentOf(f)) != Illegal
  }

  lemma DropRefines(c: Config, a: Assembly, message: seq<Fragment>, f: Frame)
    requires InOrder(c, a, message, f) && AddsNothing(FragmentOf(f))
    ensures Represents(c, a, message + [FragmentOf(f)])
  {
    hide Join, Kept, Advance, FragmentsOf, UnfinishedMessage, WholeMessage, Oversized, Room;
    NextFragment(message, FragmentOf(f));
  }

  lemma CountedKeepsFrames(a: Assembly, f: Frame)
    ensures Counted(a, f).frames == a.frames
  {}

  /** The frame counted, and kept unless a data hook took it. */
  lemma KeepRefines(c: Config, a: Assembly, message: seq<Fragment>, f: Frame)
    requires InOrder(c, a, message, f) && !AddsNothing(FragmentOf(f)) && !f.fin
    requires c.maxMsgPayloadByteLen > 0 ==> |Join(message + [FragmentOf(f)])| <= c.maxMsgPayloadByteLen
    ensures var b := Counted(a, f);
            Represents(c, if c.data then b else b.(frames := a.frames + [f]), message + [FragmentOf(f)])
  {
    hide Join, Kept, Advance, FragmentsOf, UnfinishedMessage, WholeMessage, Oversized, Room, Counted;
    CountedInRoom(c, a, message, f);
    CountedKeepsFrames(a, f);
    NextFragment(message, FragmentOf(f));
    FragmentsOfSnoc(a.frames, f);
  }

  /** The whole message, retained frames on one side and all fragments on the other. */
  lemma {:induction false} WholeRefines(c: Config, frames: seq<Frame>, all: seq<Fragment>, utf8: seq<byte> -> bool)
    requires all != [] && OpensMessage(all[0].opcode) && FragmentsOf(frames) == Kept(all)
    ensures var r, j := RouteMessage(c, frames, all[0].opcode, utf8), JudgeMessage(c, all, utf8);
            Deliveries(r.calls) == j.out && r.err == j.err && r.assembly == NO_MESSAGE && j.message == []
  {
    hide Join, Kept, FragmentsOf;
    JoinOfKept(all);
  }

  lemma LastRefines(c: Config, a: Assembly, message: seq<Fragment>, f: Frame, utf8: seq<byte> -> bool)
    requires InOrder(c, a, message, f) && !AddsNothing(FragmentOf(f)) && f.fin && !c.data
    ensures var all := message + [FragmentOf(f)];
            var r, j := RouteMessage(c, a.frames + [f], Counted(a, f).opcode, utf8), JudgeMessage(c, all, utf8);
            Deliveries(r.calls) == j.out && r.err == j.err && r.assembly == NO_MESSAGE && j.message == []
  {
    hide Join, Kept, Advance, FragmentsOf, UnfinishedMessage, WholeMessage, Oversized, Room, Counted, RouteMessage,
        JudgeMessage;
    CountedInRoom(c, a, message, f);
    NextFragment(message, FragmentOf(f));
    FragmentsOfSnoc(a.frames, f);
    WholeRefines(c, a.frames + [f], message + [FragmentOf(f)], utf8);
  }

  lemma {:induction false} CountedInOrder(c: Config, a: Assembly, message: seq<Fragment>, f: Frame)
    requires InOrder(c, a, message, f)
    ensures Advance(if message == [] then Between else Inside, FragmentOf(f)) != Illegal
    ensures Counted(a, f).acc == |Join(message + [FragmentOf(f)])|
    ensures !AddsNothing(FragmentOf(f)) ==> Counted(a, f).count == |Kept(message + [FragmentOf(f)])|
    ensures Counted(a, f).opcode == (message + [FragmentOf(f)])[0].opcode
  {
    CountedInRoom(c, a, message, f);
    hide *;
  }

  lemma DataRefines(c: Config, a: Assembly, message: seq<Fragment>, f: Frame, utf8: seq<byte> -> bool)
    requires InOrder(c, a, message, f)
    ensures var r, j := RouteData(c, a, f, utf8), JudgeData(c, message, f, utf8);
            Deliveries(r.calls) == j.out && r.err == j.err && Represents(c, r.assembly, j.message)
  {
    CountedInOrder(c, a, message, f);
    hide InOrder, Represents, Join, Kept, Advance, Counted, RouteMessage, JudgeMessage, FragmentOf, AddsNothing;
    NothingRepresented(c);
    if AddsNothing(FragmentOf(f)) {
      DropRefines(c, a, message, f);
    } else if !f.fin {
      if !(0 < c.maxMsgPayloadByteLen < |Join(message + [FragmentOf(f)])|) {
        KeepRefines(c, a, message, f);
      }
    } else if !c.data {
      LastRefines(c, a, message, f, utf8);
    }
  }

  lemma {:induction false} MessageIsCounted(message: seq<Fragment>)
    requires message == [] || UnfinishedMessage(message)
    ensures message == [] <==> |Kept(message)| == 0
  {
    if message != [] {
      KeptBound(message);
    }
  }

  lemma SameGuard(c: Config, a: Assembly, message: seq<Fragment>, f: Frame)
    requires Represents(c, a, message)
    ensures Oversized(c, message, f) <==> 0 < NextLimit(c, a) < |f.payload|
    ensures message == [] <==> a.count == 0
  {
    MessageIsCounted(message);
    LimitIsExact(c, a);
    hide Join, Kept, FragmentsOf, UnfinishedMessage, NextLimit;
  }

  /** validateFrame finds the first rule broken, of those that need no message. */
  lemma HeaderFaultIsRule(peerIsClient: bool, f: Frame)
    ensures HeaderFault(peerIsClient, f) == HeaderRule(peerIsClient, f)
  {}

  /** validateClosePayload finds what is wrong with a close. */
  lemma CloseFaultIsRule(p: seq<byte>, utf8: seq<byte> -> bool)
    ensures ErrorOf(CloseFaultOf(p, utf8)) == CloseRule(p, utf8)
  {
    if |p| >= 2 {
      FromTwoBytes(p);
    }
  }

  lemma ControlRefines(c: Config, a: Assembly, f: Frame, utf8: seq<byte> -> bool)
    requires !IsData(f.opcode)
    ensures var r, err := RouteControl(c, a, f, utf8), PassFault(f, utf8);
            && r.assembly == a && r.err == err
            && Deliveries(r.calls) == if err == NoError then PassedTo(c, f) else []
  {
    CloseFaultIsRule(f.payload, utf8);
    hide CloseFaultOf, CloseRule, ErrorOf;
  }

  lemma OutOfOrder(c: Config, a: Assembly, message: seq<Fragment>, f: Frame)
    requires Represents(c, a, message) && HeaderRule(c.peerIsClient, f) == NoError && IsData(f.opcode)
    ensures var legal := Advance(if message == [] then Between else Inside, FragmentOf(f)) != Illegal;
            FaultOf(c, a, f) == if legal then NoError
                                else if message == [] then ContinuationFrameWithoutMsg else DataFrameDuringMsg
  {
    HeaderFaultIsRule(c.peerIsClient, f);
    hide Represents, HeaderFault, HeaderRule;
    SameGuard(c, a, message, f);
  }

  lemma JoinOfNothing()
    ensures Join([]) == []
  {}

  lemma JudgedSize(c: Config, message: seq<Fragment>, f: Frame, utf8: seq<byte> -> bool)
    ensures |Join(Judge(c, message, f, utf8).message)| <= |Join(message)| + |f.payload|
  {
    var j := Judge(c, message, f, utf8);
    assert j.message == message || j.message == [] || j.message == message + [FragmentOf(f)] by {
      hide Join, Kept, Advance;
    }
    JoinSnoc(message, FragmentOf(f));
    JoinOfNothing();
    hide *;
  }

  lemma TakeRefines(c: Config, a: Assembly, message: seq<Fragment>, f: Frame, utf8: seq<byte> -> bool)
    requires Represents(c, a, message) && Room(c, |Join(message)| + |f.payload|)
    ensures var r, j := Take(c, a, f, utf8), Judge(c, message, f, utf8);
            Deliveries(r.calls) == j.out && r.err == j.err && Represents(c, r.assembly, j.message)
  {
    hide Represents, RouteData, RouteControl, Join, Kept, Oversized, NextLimit, HeaderFault, HeaderRule, PassFault,
        PassedTo;
    SameGuard(c, a, message, f);
    HeaderFaultIsRule(c.peerIsClient, f);
    if !Oversized(c, message, f) && HeaderRule(c.peerIsClient, f) == NoError {
      if IsData(f.opcode) {
        OutOfOrder(c, a, message, f);
        if Advance(if message == [] then Between else Inside, FragmentOf(f)) != Illegal {
          DataRefines(c, a, message, f, utf8);
        }
      } else {
        ControlRefines(c, a, f, utf8);
      }
    }
  }

  /** The payload bytes of fs. */
  function Volume(fs: seq<Frame>): nat {
    if fs == [] then 0 else |fs[0].payload| + Volume(fs[1..])
  }

  /**
   The Listener is the specification: same deliveries, same first error, whatever frames arrive and
   whatever the limits and hooks are.
   */
  lemma {:induction false} ListenerRefinesSpec(c: Config, a: Assembly, message: seq<Fragment>, fs: seq<Frame>,
                                               utf8: seq<byte> -> bool)
    requires Represents(c, a, message) && Room(c, |Join(message)| + Volume(fs))
    ensures var r, j := TakeAll(c, a, fs, utf8), JudgeAll(c, message, fs, utf8);
            Deliveries(r.calls) == j.out && r.err == j.err && Represents(c, r.assembly, j.message)
    decreases |fs|
  {
    hide Represents, Take, Judge, Join;
    if fs != [] {
      TakeRefines(c, a, message, fs[0], utf8);
      JudgedSize(c, message, fs[0], utf8);
      var r, j := Take(c, a, fs[0], utf8), Judge(c, message, fs[0], utf8);
      if r.err == NoError {
        ListenerRefinesSpec(c, r.assembly, j.message, fs[1..], utf8);
        var rest := TakeAll(c, r.assembly, fs[1..], utf8);
        assert Deliveries(r.calls + rest.calls) == Deliveries(r.calls) + Deliveries(rest.calls);
      }
    }
  }

  // ----- from bytes to frames

  lemma NothingToRead(limit: uint64)
    ensures FrameReading.ReadFrame([], limit) == FrameReading.ReadShort && WireAll([]) == []
  {}

  /** Listening to frames sent back to back takes each of them in turn, then finds the stream at its end. */
  lemma {:induction false} ListeningTakesAll(c: Config, a: Assembly, fs: seq<Frame>, n: nat, utf8: seq<byte> -> bool)
    requires FrameReading.AllSealed(fs) && n > |fs|
    ensures var l := Listening(c, a, WireAll(fs), n, utf8);
            var r := TakeAll(c, a, FrameReading.OnWireAll(fs), utf8);
            && l.assembly == r.assembly && l.calls == r.calls
            && l.err == if r.err == NoError then StreamEnded else r.err
    decreases |fs|
  {
    hide Route, FaultOf, NextLimit, Wire, FrameReading.ReadFrame;
    if fs == [] {
      NothingToRead(NextLimit(c, a));
    } else {
      var f, tail, g := fs[0], fs[1..], FrameReading.OnWire(fs[0]);
      assert fs == [f] + tail;
      WireAllCons(f, tail);
      FrameReading.OnWireAllCons(f, tail);
      hide WireAll, FrameReading.OnWireAll;
      FrameReading.SealedDeclares(f);
      FrameReading.ReadUndoesSeal(f, WireAll(tail), NextLimit(c, a));
      assert ([g] + FrameReading.OnWireAll(tail))[1..] == FrameReading.OnWireAll(tail);
      ListeningTakesAll(c, Route(c, a, g, utf8).assembly, tail, n - 1, utf8);
    }
  }
}
