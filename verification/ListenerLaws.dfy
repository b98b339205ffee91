/**
 Which frames a Listener accepts where no limit applies, and what its hooks then get (Listener.go, ListenerRouter.go).
 */
module ListenerLaws {
  import opened Bytes
  import opened Frames
  import opened Messages
  import opened Listeners
  import opened ListenerSpec

  /** No limits and no data hook: what is left is RFC 6455 alone. */
  predicate Plain(c: Config) {
    c.maxMsgPayloadByteLen == 0 && c.maxMsgFrameCount == 0 && !c.data
  }

  predicate IsMessage(d: Delivery) {
    d.ToText? || d.ToBinary?
  }

  function MessagesIn(out: seq<Delivery>): seq<Delivery> {
    if out == [] then [] else (if IsMessage(out[0]) then [out[0]] else []) + MessagesIn(out[1..])
  }

  function OthersIn(out: seq<Delivery>): seq<Delivery> {
    if out == [] then [] else (if IsMessage(out[0]) then [] else [out[0]]) + OthersIn(out[1..])
  }

  /** Each message to its hook. */
  function MessagesTo(c: Config, mss: seq<seq<Fragment>>): seq<Delivery> {
    if mss == [] then []
    else if mss[0] != [] && mss[0][0].opcode == OPCODE_BINARY then When(c.binary,
        ToBinary(Join(mss[0]))) + MessagesTo(c, mss[1..])
    else When(c.text, ToText(Join(mss[0]))) + MessagesTo(c, mss[1..])
  }

  /** Each control or reserved frame to its hook, in order. */
  function OthersTo(c: Config, fs: seq<Frame>): seq<Delivery> {
    if fs == [] then [] else (if IsData(fs[0].opcode) then [] else PassedTo(c, fs[0])) + OthersTo(c, fs[1..])
  }

  predicate CloseBodyFine(p: seq<byte>, utf8: seq<byte> -> bool)
    requires |p| >= 2
  {
    var code := CodeIn(p[0], p[1]);
    (1000 <= code <= 1003 || 1007 <= code <= 1014 || 3000 <= code <= 4999) && (|p| == 2 || utf8(p[2..]))
  }

  /** A frame nothing is wrong with, whatever message is open. */
  predicate FrameFine(c: Config, f: Frame, utf8: seq<byte> -> bool) {
    && !f.rsv1 && !f.rsv2 && !f.rsv3 && f.mask == c.peerIsClient
    && (0x8 <= f.opcode <= 0xA ==> f.fin && |f.payload| <= 125)
    && (f.opcode == 0x8 && f.payload != [] ==> |f.payload| >= 2 && CloseBodyFine(f.payload, utf8))
  }

  lemma FineIffNoRuleBroken(c: Config, f: Frame, utf8: seq<byte> -> bool)
    ensures FrameFine(c, f, utf8) <==> HeaderRule(c.peerIsClient, f) == NoError && PassFault(f, utf8) == NoError
  {}

  predicate TextFine(ms: seq<Fragment>, utf8: seq<byte> -> bool) {
    ms != [] && ms[0].opcode == OPCODE_TEXT ==> utf8(Join(ms))
  }

  /** Frames a receiver must accept: each fine by itself, the data frames section 5.4's, and every text UTF-8. */
  predicate Acceptable(c: Config, ms: seq<Fragment>, fs: seq<Frame>, utf8: seq<byte> -> bool) {
    && (forall f | f in fs :: FrameFine(c, f, utf8))
    && Conforms(ms)
    && (forall m | m in Complete(ms) :: TextFine(m, utf8))
  }

  lemma SplitOne(out: seq<Delivery>, rest: seq<Delivery>)
    requires |out| <= 1
    ensures MessagesIn(out + rest) == (if out != [] && IsMessage(out[0]) then out else []) + MessagesIn(rest)
    ensures OthersIn(out + rest) == (if out != [] && !IsMessage(out[0]) then out else []) + OthersIn(rest)
  {
    if out == [] {
      assert out + rest == rest;
    } else {
      assert (out + rest)[1..] == rest && out == [out[0]];
    }
  }

  /** A first whole stretch, then the rest. */
  lemma ConformsStep(first: seq<Fragment>, rest: seq<Fragment>)
    requires first != [] && NoneFinal(first[..|first| - 1]) && first[|first| - 1].fin
    ensures Conforms(first + rest) <==> WholeMessage(first) && Conforms(rest)
  {
    CompleteStep(first, rest);
    hide Complete, Remainder, WholeMessage, UnfinishedMessage;
    var all := Complete(first + rest);
    assert first in all && (forall m | m in Complete(rest) :: m in all);
  }

  /** Nothing can mend a fragment out of order. */
  lemma NeverConforms(message: seq<Fragment>, m: Fragment, rest: seq<Fragment>)
    requires message == [] || UnfinishedMessage(message)
    requires Advance(if message == [] then Between else Inside, m) == Illegal
    ensures !Conforms(message + ([m] + rest))
  {
    if message != [] {
      RunUnfinished(message);
    }
    RunSnoc(Between, message, m);
    RunAppend(Between, message + [m], rest);
    IllegalStays(rest);
    AppendAssociates(message, [m], rest);
    ConformsIffLegal(message + ([m] + rest));
  }

  lemma AcceptableCons(c: Config, ms: seq<Fragment>, f: Frame, rest: seq<Frame>, utf8: seq<byte> -> bool)
    ensures Acceptable(c, ms, [f] + rest, utf8) <==> FrameFine(c, f, utf8) && Acceptable(c, ms, rest, utf8)
  {}

  lemma AcceptableWhole(c: Config, first: seq<Fragment>, ms: seq<Fragment>, fs: seq<Frame>, utf8: seq<byte> -> bool)
    requires WholeMessage(first)
    ensures Acceptable(c, first + ms, fs, utf8) <==> TextFine(first, utf8) && Acceptable(c, ms, fs, utf8)
  {
    ConformsStep(first, ms);
    CompleteStep(first, ms);
    hide FrameFine, Conforms, Complete, TextFine;
    var all := Complete(first + ms);
    assert first in all && forall m | m in Complete(ms) :: m in all;
  }

  lemma {:induction false} MessagesToJust(c: Config, m: seq<Fragment>)
    requires m != []
    ensures MessagesTo(c, [m]) == if m[0].opcode == OPCODE_BINARY then When(c.binary, ToBinary(Join(m)))
                                  else When(c.text, ToText(Join(m)))
  {}

  /** One data frame in order, where no limit applies. */
  lemma {:induction false} PlainData(c: Config, message: seq<Fragment>, f: Frame, utf8: seq<byte> -> bool)
    requires Plain(c) && (message == [] || UnfinishedMessage(message))
    requires Advance(if message == [] then Between else Inside, FragmentOf(f)) != Illegal
    ensures var j, all := JudgeData(c, message, f, utf8), message + [FragmentOf(f)];
            && (!f.fin ==> j == Judged(all, [], NoError))
            && (f.fin ==>
                  && (j.err == NoError <==> TextFine(all, utf8))
                  && (j.err == NoError ==> j.message == [] && j.out == MessagesTo(c, [all])))
  {}

  /** One frame where no limit applies. */
  lemma PlainJudge(c: Config, message: seq<Fragment>, f: Frame, utf8: seq<byte> -> bool)
    requires Plain(c)
    ensures var j := Judge(c, message, f, utf8);
            var legal := Advance(if message == [] then Between else Inside, FragmentOf(f)) != Illegal;
            && (!FrameFine(c, f, utf8) ==> j.err != NoError)
            && (FrameFine(c, f, utf8) && !IsData(f.opcode) ==> j == Judged(message, PassedTo(c, f), NoError))
            && (IsData(f.opcode) && !legal ==> j.err != NoError)
            && (FrameFine(c, f, utf8) && IsData(f.opcode) ==> j == JudgeData(c, message, f, utf8))
  {
    FineIffNoRuleBroken(c, f, utf8);
    hide FrameFine, HeaderRule, CloseRule;
  }

  lemma PassedIsOther(c: Config, f: Frame)
    ensures |PassedTo(c, f)| <= 1 && forall d | d in PassedTo(c, f) :: !IsMessage(d)
  {}

  lemma {:induction false} MessagesToOne(c: Config, m: seq<Fragment>, mss: seq<seq<Fragment>>)
    ensures MessagesTo(c, [m] + mss) == MessagesTo(c, [m]) + MessagesTo(c, mss)
    ensures |MessagesTo(c, [m])| <= 1 && forall d | d in MessagesTo(c, [m]) :: IsMessage(d)
  {}

  predicate PlainResult(c: Config, ms: seq<Fragment>, fs: seq<Frame>, j: Judged, utf8: seq<byte> -> bool) {
    && (j.err == NoError <==> Acceptable(c, ms, fs, utf8))
    && (j.err == NoError ==>
          && j.message == Remainder(ms)
          && MessagesIn(j.out) == MessagesTo(c, Complete(ms))
          && OthersIn(j.out) == OthersTo(c, fs))
  }

  lemma PlainNone(c: Config, message: seq<Fragment>, utf8: seq<byte> -> bool)
    requires message == [] || UnfinishedMessage(message)
    ensures PlainResult(c, message, [], Judged(message, [], NoError), utf8)
  {}

  lemma PlainOther(c: Config, message: seq<Fragment>, f: Frame, rest: seq<Frame>, ms: seq<Fragment>, j: Judged,
                   utf8: seq<byte> -> bool)
    requires !IsData(f.opcode) && FrameFine(c, f, utf8) && PlainResult(c, ms, rest, j, utf8)
    ensures PlainResult(c, ms, [f] + rest, j.(out := PassedTo(c, f) + j.out), utf8)
  {
    hide FrameFine, Acceptable, Remainder, Complete, PassedTo, MessagesTo;
    AcceptableCons(c, ms, f, rest, utf8);
    PassedIsOther(c, f);
    SplitOne(PassedTo(c, f), j.out);
    assert ([f] + rest)[1..] == rest;
  }

  lemma PlainMiddle(c: Config, f: Frame, rest: seq<Frame>, ms: seq<Fragment>, j: Judged, utf8: seq<byte> -> bool)
    requires IsData(f.opcode) && FrameFine(c, f, utf8) && PlainResult(c, ms, rest, j, utf8)
    ensures PlainResult(c, ms, [f] + rest, j.(out := [] + j.out), utf8)
  {
    hide FrameFine, Acceptable, Remainder, Complete, MessagesTo;
    AcceptableCons(c, ms, f, rest, utf8);
    SplitOne([], j.out);
    assert ([f] + rest)[1..] == rest;
  }

  lemma {:induction false} PlainLast(c: Config, all: seq<Fragment>, f: Frame, rest: seq<Frame>, ms: seq<Fragment>,
                                     j: Judged, utf8: seq<byte> -> bool)
    requires IsData(f.opcode) && FrameFine(c, f, utf8) && PlainResult(c, ms, rest, j, utf8)
    requires WholeMessage(all) && TextFine(all, utf8)
    ensures PlainResult(c, all + ms, [f] + rest, j.(out := MessagesTo(c, [all]) + j.out), utf8)
  {
    AcceptableWhole(c, all, ms, [f] + rest, utf8);
    CompleteStep(all, ms);
    hide FrameFine, Acceptable, Remainder, Complete, MessagesTo, TextFine, WholeMessage;
    AcceptableCons(c, ms, f, rest, utf8);
    MessagesToOne(c, all, Complete(ms));
    SplitOne(MessagesTo(c, [all]), j.out);
    assert ([f] + rest)[1..] == rest;
  }

  lemma PlainRefused(c: Config, message: seq<Fragment>, f: Frame, rest: seq<Frame>, ds: seq<Fragment>, j: Judged,
                     utf8: seq<byte> -> bool)
    requires j.err != NoError && (message == [] || UnfinishedMessage(message))
    requires var m := FragmentOf(f);
             var legal := Advance(if message == [] then Between else Inside, m) != Illegal;
             || !FrameFine(c, f, utf8)
             || (IsData(f.opcode) && (!legal || (f.fin && !TextFine(message + [m], utf8))))
    ensures PlainResult(c, message + (if IsData(f.opcode) then [FragmentOf(f)] + ds else ds), [f] + rest, j, utf8)
  {
    var m := FragmentOf(f);
    if !FrameFine(c, f, utf8) {
      AcceptableCons(c, message + (if IsData(f.opcode) then [m] + ds else ds), f, rest, utf8);
    } else if Advance(if message == [] then Between else Inside, m) == Illegal {
      NeverConforms(message, m, ds);
    } else {
      NextFragment(message, m);
      AppendAssociates(message, [m], ds);
      AcceptableWhole(c, message + [m], ds, [f] + rest, utf8);
    }
    hide *;
  }

  /**
   Without limits the Listener accepts exactly what RFC 6455 lets a peer send, hands every whole message to
   its hook with all its bytes, and every other frame to its own hook, in order.
   */
  lemma {:induction false} PlainSpec(c: Config, message: seq<Fragment>, fs: seq<Frame>, utf8: seq<byte> -> bool)
    requires Plain(c) && (message == [] || UnfinishedMessage(message))
    ensures PlainResult(c, message + DataPart(fs), fs, JudgeAll(c, message, fs, utf8), utf8)
    decreases |fs|
  {
    hide PlainResult, Judge, JudgeData, FrameFine, UnfinishedMessage, WholeMessage, TextFine, MessagesTo, Advance;
    if fs == [] {
      PlainNone(c, message, utf8);
      assert message + DataPart(fs) == message;
    } else {
      var f, rest, m := fs[0], fs[1..], FragmentOf(fs[0]);
      assert fs == [f] + rest;
      var ds, j := DataPart(rest), Judge(c, message, f, utf8);
      PlainJudge(c, message, f, utf8);
      if IsData(f.opcode) && Advance(if message == [] then Between else Inside, m) != Illegal {
        PlainData(c, message, f, utf8);
      }
      assert [] + ds == ds;
      if j.err != NoError {
        PlainRefused(c, message, f, rest, ds, j, utf8);
      } else {
        if IsData(f.opcode) {
          NextFragment(message, m);
          AppendAssociates(message, [m], ds);
        }
        PlainSpec(c, j.message, rest, utf8);
        var k := JudgeAll(c, j.message, rest, utf8);
        if !IsData(f.opcode) {
          PlainOther(c, message, f, rest, message + ds, k, utf8);
        } else if !f.fin {
          PlainMiddle(c, f, rest, message + [m] + ds, k, utf8);
        } else {
          PlainLast(c, message + [m], f, rest, ds, k, utf8);
        }
      }
    }
  }
}
