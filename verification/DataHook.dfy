/** Taking data frames one by one instead of the messages they make up (ListenerRouter.go, ListenerConfig.go). */
module DataHook {
  import opened Bytes
  import opened Frames
  import opened Messages
  import opened FrameControl
  import opened Listeners
  import opened ListenerSpec

  function Whole(opcode: byte, bytes: seq<byte>): Delivery {
    if opcode == OPCODE_BINARY then ToBinary(bytes) else ToText(bytes)
  }

  /** The messages a data hook would put together itself, from the frames and the opcodes it is told. */
  function Regroup(pending: seq<byte>, out: seq<Delivery>): seq<Delivery>
    decreases |out|
  {
    if out == [] then []
    else if !out[0].ToData? then [out[0]] + Regroup(pending, out[1..])
    else
      var bytes := pending + out[0].frame.payload;
      if out[0].frame.fin then [Whole(out[0].msgOpcode, bytes)] + Regroup([], out[1..]) else Regroup(bytes, out[1..])
  }

  /** What the hook still has in hand then: the bytes of the open message. */
  function Pending(pending: seq<byte>, out: seq<Delivery>): seq<byte>
    decreases |out|
  {
    if out == [] then pending
    else if !out[0].ToData? then Pending(pending, out[1..])
    else Pending(if out[0].frame.fin then [] else pending + out[0].frame.payload, out[1..])
  }

  function WithoutDataHook(c: Config): Config {
    c.(data := false, text := true, binary := true)
  }

  lemma {:induction false} RegroupOne(pending: seq<byte>, d: Delivery, rest: seq<Delivery>)
    ensures !d.ToData? ==> Regroup(pending, [d] + rest) == [d] + Regroup(pending, rest)
    ensures d.ToData? ==>
              var bytes := pending + d.frame.payload;
              Regroup(pending, [d] + rest)
              == if d.frame.fin then [Whole(d.msgOpcode, bytes)] + Regroup([], rest) else Regroup(bytes, rest)
    ensures Pending(pending, [d] + rest)
            == Pending(if !d.ToData? then pending else if d.frame.fin then [] else pending + d.frame.payload, rest)
  {
    assert ([d] + rest)[1..] == rest;
  }

  lemma {:induction false} RegroupNothing(pending: seq<byte>)
    ensures Regroup(pending, []) == [] && Pending(pending, []) == pending
  {}

  lemma {:induction false} RegroupAppend(pending: seq<byte>, out: seq<Delivery>, rest: seq<Delivery>)
    ensures Regroup(pending, out + rest) == Regroup(pending, out) + Regroup(Pending(pending, out), rest)
    decreases |out|
  {
    hide Regroup, Pending, Whole;
    if out == [] {
      RegroupNothing(pending);
      assert out + rest == rest;
    } else {
      var d, tail := out[0], out[1..];
      assert out == [d] + tail && out + rest == [d] + (tail + rest);
      RegroupOne(pending, d, tail);
      RegroupOne(pending, d, tail + rest);
      RegroupAppend(if !d.ToData? then pending else if d.frame.fin then [] else pending + d.frame.payload, tail, rest);
    }
  }

  predicate HookSees(message: seq<Fragment>, f: Frame, j: Judged, k: Judged) {
    var opcode, bytes := (message + [FragmentOf(f)])[0].opcode, Join(message) + f.payload;
    && j.err == k.err && j.message == k.message && (j.message == [] || UnfinishedMessage(j.message))
    && (if j.err == NoError && IsData(f.opcode) && !AddsNothing(FragmentOf(f)) then
          && j.out == [ToData(f, opcode)]
          && k.out == (if f.fin then [Whole(opcode, bytes)] else [])
          && Join(j.message) == (if f.fin then [] else bytes)
        else
          && j.out == k.out && (j.out == [] || (|j.out| == 1 && !j.out[0].ToData?))
          && (j.err == NoError ==> Join(j.message) == Join(message)))
  }

  lemma HookSeesData(c: Config, message: seq<Fragment>, f: Frame, utf8: seq<byte> -> bool)
    requires c.data && (message == [] || UnfinishedMessage(message)) && IsData(f.opcode)
    requires Advance(if message == [] then Between else Inside, FragmentOf(f)) != Illegal
    requires JudgeData(WithoutDataHook(c), message, f, utf8).err != InvalidUTF8
    ensures HookSees(message, f, JudgeData(c, message, f, utf8), JudgeData(WithoutDataHook(c), message, f, utf8))
  {
    hide Kept, Join, Advance, UnfinishedMessage, WholeMessage, OpensMessage;
    JoinOfNothing();
    NextFragment(message, FragmentOf(f));
  }

  /** One frame: the hook is handed its payload, and the message's own opcode, where the message would have grown. */
  lemma HookSeesEachFrame(c: Config, message: seq<Fragment>, f: Frame, utf8: seq<byte> -> bool)
    requires c.data && (message == [] || UnfinishedMessage(message))
    requires Judge(WithoutDataHook(c), message, f, utf8).err != InvalidUTF8
    ensures HookSees(message, f, Judge(c, message, f, utf8), Judge(WithoutDataHook(c), message, f, utf8))
  {
    hide Kept, HeaderRule, PassFault, Join, Advance, UnfinishedMessage;
    if IsData(f.opcode) && HeaderRule(c.peerIsClient, f) == NoError && !Oversized(c, message, f)
       && Advance(if message == [] then Between else Inside, FragmentOf(f)) != Illegal {
      HookSeesData(c, message, f, utf8);
      hide JudgeData, HookSees;
    }
  }

  lemma {:induction false} DataHookSpec(c: Config, message: seq<Fragment>, fs: seq<Frame>, utf8: seq<byte> -> bool)
    requires c.data && (message == [] || UnfinishedMessage(message))
    requires JudgeAll(WithoutDataHook(c), message, fs, utf8).err != InvalidUTF8
    ensures var j, k := JudgeAll(c, message, fs, utf8), JudgeAll(WithoutDataHook(c), message, fs, utf8);
            && j.err == k.err && j.message == k.message && Regroup(Join(message), j.out) == k.out
            && (j.err == NoError ==> Pending(Join(message), j.out) == Join(j.message))
    decreases |fs|
  {
    hide Judge, Join, WithoutDataHook, UnfinishedMessage, Regroup, Pending;
    var d := WithoutDataHook(c);
    if fs == [] {
      RegroupNothing(Join(message));
    } else {
      HookSeesEachFrame(c, message, fs[0], utf8);
      var j := Judge(c, message, fs[0], utf8);
      if j.err == NoError {
        DataHookSpec(c, j.message, fs[1..], utf8);
        var rest := JudgeAll(c, j.message, fs[1..], utf8).out;
        if j.out == [] {
          assert j.out + rest == rest;
        } else {
          assert j.out == [j.out[0]];
          RegroupOne(Join(message), j.out[0], rest);
        }
      } else {
        RegroupNothing(Join(message));
        if j.out != [] {
          assert j.out == [j.out[0]] + [];
          RegroupOne(Join(message), j.out[0], []);
        }
      }
    }
  }

  lemma SameFragments(fs: seq<Frame>)
    ensures FragmentsOf(fs) == [] ==> fs == []
  {}

  /** As long as no text is refused: same refusals, the same messages put together, and nothing retained. */
  lemma {:induction false} HookAgrees(c: Config, fs: seq<Frame>, utf8: seq<byte> -> bool)
    requires c.data && Room(c, Volume(fs))
    requires TakeAll(WithoutDataHook(c), NO_MESSAGE, fs, utf8).err != InvalidUTF8
    ensures var r, k := TakeAll(c, NO_MESSAGE, fs, utf8), TakeAll(WithoutDataHook(c), NO_MESSAGE, fs, utf8);
            && r.err == k.err
            && Regroup([], Deliveries(r.calls)) == Deliveries(k.calls)
            && r.assembly == k.assembly.(frames := [])
            && (r.err == NoError ==> Pending([], Deliveries(r.calls)) == FramesBytes(k.assembly.frames))
  {
    hide Join, JudgeAll, TakeAll, Regroup, Pending, Kept, FragmentsOf, UnfinishedMessage;
    var d := WithoutDataHook(c);
    JoinOfNothing();
    NothingRepresented(c);
    NothingRepresented(d);
    ListenerRefinesSpec(c, NO_MESSAGE, [], fs, utf8);
    ListenerRefinesSpec(d, NO_MESSAGE, [], fs, utf8);
    DataHookSpec(c, [], fs, utf8);
    SameFragments(TakeAll(c, NO_MESSAGE, fs, utf8).assembly.frames);
    JoinOfKept(JudgeAll(d, [], fs, utf8).message);
  }

  // ----- where a text that is not UTF-8 parts the two

  /** The first frame refused, and the list before it. */
  lemma {:induction false} FirstRefused(c: Config, a: Assembly, fs: seq<Frame>, utf8: seq<byte> -> bool)
    returns (p: nat)
    requires TakeAll(c, a, fs, utf8).err != NoError
    ensures p < |fs| && TakeAll(c, a, fs[..p], utf8).err == NoError
    ensures var before, k := TakeAll(c, a, fs[..p], utf8), TakeAll(c, a, fs, utf8);
            var r := Take(c, before.assembly, fs[p], utf8);
            r.err == k.err && k.calls == before.calls + r.calls
    decreases |fs|
  {
    hide Take;
    var r := Take(c, a, fs[0], utf8);
    if r.err != NoError {
      p := 0;
      assert [] + r.calls == r.calls;
    } else {
      var q := FirstRefused(c, r.assembly, fs[1..], utf8);
      p := q + 1;
      assert fs[..p][0] == fs[0] && fs[..p][1..] == fs[1..][..q];
      var tail := TakeAll(c, r.assembly, fs[1..][..q], utf8);
      AppendAssociates(r.calls, tail.calls, Take(c, tail.assembly, fs[p], utf8).calls);
    }
  }

  lemma {:induction false} VolumeOfPrefix(fs: seq<Frame>, p: nat)
    requires p <= |fs|
    ensures Volume(fs[..p]) <= Volume(fs)
    decreases p
  {
    if p > 0 {
      assert fs[..p][1..] == fs[1..][..p - 1];
      VolumeOfPrefix(fs[1..], p - 1);
    }
  }

  /**
   One frame that is refused for its UTF-8 without the hook: a close, with the hook too, or the end of a text, which
   the hook gets.
   */
  lemma BadTextGoesToTheHook(c: Config, a: Assembly, b: Assembly, f: Frame, utf8: seq<byte> -> bool)
    requires c.data && a == b.(frames := [])
    requires Take(WithoutDataHook(c), b, f, utf8).err == InvalidUTF8
    ensures Take(WithoutDataHook(c), b, f, utf8).calls == []
    ensures !IsData(f.opcode) ==> Take(c, a, f, utf8) == Routed(a, [], InvalidUTF8)
    ensures IsData(f.opcode) ==>
              && f.fin && !utf8(FramesBytes(b.frames) + f.payload)
              && Take(c, a, f, utf8) == Routed(NO_MESSAGE, [DataCall(f, OPCODE_TEXT)], NoError)
  {
    hide FramesBytes, CloseFaultOf;
    FramesBytesSnoc(b.frames, f);
  }

  lemma DeliveriesAppend(xs: seq<HookCall>, ys: seq<HookCall>)
    ensures Deliveries(xs + ys) == Deliveries(xs) + Deliveries(ys)
  {}

  /**
   Frame p is the first that the run without the hook refuses for its UTF-8, and this is what the hook makes of it.
   */
  predicate PartsAt(c: Config, fs: seq<Frame>, p: nat, utf8: seq<byte> -> bool)
    requires p < |fs|
  {
    var f, k := fs[p], TakeAll(WithoutDataHook(c), NO_MESSAGE, fs, utf8);
    var r := TakeAll(c, NO_MESSAGE, fs[..p], utf8);
    var t := Take(c, r.assembly, f, utf8);
    var text := Pending([], Deliveries(r.calls)) + f.payload;
    && r.err == NoError && r.assembly.frames == []
    && Regroup([], Deliveries(r.calls)) == Deliveries(k.calls)
    && if !IsData(f.opcode) then t.err == InvalidUTF8 && t.calls == []
       else t.err == NoError && t.assembly == NO_MESSAGE && !utf8(text)
            && Regroup([], Deliveries(r.calls + t.calls)) == Deliveries(k.calls) + [ToText(text)]
  }

  lemma {:induction false} RegroupText(pending: seq<byte>, f: Frame)
    requires f.fin
    ensures Regroup(pending, Deliveries([DataCall(f, OPCODE_TEXT)])) == [ToText(pending + f.payload)]
  {
    RegroupOne(pending, ToData(f, OPCODE_TEXT), []);
    RegroupNothing([]);
    assert Deliveries([DataCall(f, OPCODE_TEXT)]) == [ToData(f, OPCODE_TEXT)] + [];
  }

  lemma {:induction false} PartsThere(c: Config, fs: seq<Frame>, p: nat, utf8: seq<byte> -> bool)
    requires c.data && p < |fs|
    requires var d := WithoutDataHook(c);
             var r, k := TakeAll(c, NO_MESSAGE, fs[..p], utf8), TakeAll(d, NO_MESSAGE, fs[..p], utf8);
             var all := TakeAll(d, NO_MESSAGE, fs, utf8);
             var u := Take(d, k.assembly, fs[p], utf8);
             && r.err == NoError && u.err == InvalidUTF8 && all.calls == k.calls + u.calls
             && Regroup([], Deliveries(r.calls)) == Deliveries(k.calls)
             && r.assembly == k.assembly.(frames := [])
             && Pending([], Deliveries(r.calls)) == FramesBytes(k.assembly.frames)
    ensures PartsAt(c, fs, p, utf8)
  {
    hide TakeAll, Take, Regroup, Pending, Deliveries, FramesBytes;
    var f, r := fs[p], TakeAll(c, NO_MESSAGE, fs[..p], utf8);
    var k := TakeAll(WithoutDataHook(c), NO_MESSAGE, fs[..p], utf8);
    BadTextGoesToTheHook(c, r.assembly, k.assembly, f, utf8);
    assert k.calls + [] == k.calls;
    if IsData(f.opcode) {
      var last := [DataCall(f, OPCODE_TEXT)];
      DeliveriesAppend(r.calls, last);
      RegroupAppend([], Deliveries(r.calls), Deliveries(last));
      RegroupText(Pending([], Deliveries(r.calls)), f);
    }
  }

  /**
   With a data hook the Listener refuses the same frame for the same reason, what the hook is handed puts together to
   the very messages Text and Binary would have been given, and no frame is retained; up to the first text that is
   not UTF-8, which is whole when it is left to the hook.
   */
  lemma {:induction false} DataHookIsEquivalent(c: Config, fs: seq<Frame>, utf8: seq<byte> -> bool)
    requires c.data && Room(c, Volume(fs))
    ensures var r, k := TakeAll(c, NO_MESSAGE, fs, utf8), TakeAll(WithoutDataHook(c), NO_MESSAGE, fs, utf8);
            if k.err != InvalidUTF8 then
              && r.err == k.err
              && Regroup([], Deliveries(r.calls)) == Deliveries(k.calls)
              && r.assembly == k.assembly.(frames := [])
            else exists p: nat :: p < |fs| && PartsAt(c, fs, p, utf8)
  {
    hide TakeAll, Take, Regroup, Pending, Deliveries, Volume, PartsAt;
    var d := WithoutDataHook(c);
    if TakeAll(d, NO_MESSAGE, fs, utf8).err != InvalidUTF8 {
      HookAgrees(c, fs, utf8);
    } else {
      var p := FirstRefused(d, NO_MESSAGE, fs, utf8);
      VolumeOfPrefix(fs, p);
      HookAgrees(c, fs[..p], utf8);
      PartsThere(c, fs, p, utf8);
    }
  }
}
