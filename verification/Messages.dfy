/** Messages as RFC 6455 section 5.4 fragments them, and the cut SendData makes (Frames.go, ConnectionDataFrame.go). */
module Messages {
  import opened Bytes
  import opened Frames

  /** What a data frame adds to a message. */
  datatype Fragment = Fragment(opcode: byte, fin: bool, payload: seq<byte>)

  function FragmentOf(f: Frame): Fragment {
    Fragment(f.opcode, f.fin, f.payload)
  }

  /** The data frames of fs, in order: control and reserved frames never join a message. */
  function DataPart(fs: seq<Frame>): seq<Fragment> {
    if fs == [] then []
    else (if IsData(fs[0].opcode) then [FragmentOf(fs[0])] else []) + DataPart(fs[1..])
  }

  lemma {:induction false} DataPartAppend(fs: seq<Frame>, gs: seq<Frame>)
    ensures DataPart(fs + gs) == DataPart(fs) + DataPart(gs)
  {
    if fs == [] {
      assert fs + gs == gs;
    } else {
      var head := if IsData(fs[0].opcode) then [FragmentOf(fs[0])] else [];
      calc {
        DataPart(fs + gs);
        { assert (fs + gs)[1..] == fs[1..] + gs; }
        head + DataPart(fs[1..] + gs);
        { DataPartAppend(fs[1..], gs); }
        head + (DataPart(fs[1..]) + DataPart(gs));
        (head + DataPart(fs[1..])) + DataPart(gs);
        DataPart(fs) + DataPart(gs);
      }
    }
  }

  lemma {:induction false} DataPartSnoc(fs: seq<Frame>, f: Frame)
    ensures DataPart(fs + [f]) == if IsData(f.opcode) then DataPart(fs) + [FragmentOf(f)] else DataPart(fs)
  {
    DataPartAppend(fs, [f]);
    assert DataPart([f]) == (if IsData(f.opcode) then [FragmentOf(f)] else []) + DataPart([f][1..]);
  }

  /** What a frame says, without how it was masked and how its length was written. */
  function Bare(f: Frame): Frame {
    NewFrame(f.opcode, f.fin, f.payload)
  }

  /** The other frames of fs, in order, each as what it says. */
  function OtherPart(fs: seq<Frame>): seq<Frame> {
    if fs == [] then [] else (if IsData(fs[0].opcode) then [] else [Bare(fs[0])]) + OtherPart(fs[1..])
  }

  lemma {:induction false} OtherPartCons(f: Frame, fs: seq<Frame>)
    ensures OtherPart([f] + fs) == (if IsData(f.opcode) then [] else [Bare(f)]) + OtherPart(fs)
  {
    assert ([f] + fs)[1..] == fs;
  }

  lemma {:induction false} OtherPartAppend(fs: seq<Frame>, gs: seq<Frame>)
    ensures OtherPart(fs + gs) == OtherPart(fs) + OtherPart(gs)
  {
    hide Bare, IsData;
    if fs == [] {
      assert fs + gs == gs;
    } else {
      var f, rest := fs[0], fs[1..];
      assert fs + gs == [f] + (rest + gs) && fs == [f] + rest;
      OtherPartCons(f, rest + gs);
      OtherPartCons(f, rest);
      OtherPartAppend(rest, gs);
      hide OtherPart;
      AppendAssociates(if IsData(f.opcode) then [] else [Bare(f)], OtherPart(rest), OtherPart(gs));
    }
  }

  lemma {:induction false} OtherPartSnoc(fs: seq<Frame>, f: Frame)
    ensures OtherPart(fs + [f]) == OtherPart(fs) + if IsData(f.opcode) then [] else [Bare(f)]
  {
    OtherPartAppend(fs, [f]);
    OtherPartCons(f, []);
    assert [f] + [] == [f];
  }

  function Payloads(ms: seq<Fragment>): seq<seq<byte>> {
    seq(|ms|, i requires 0 <= i < |ms| => ms[i].payload)
  }

  /** The message bytes fragments carry: their payloads joined. */
  function Join(ms: seq<Fragment>): seq<byte> {
    Flatten(Payloads(ms))
  }

  lemma JoinAppend(ms: seq<Fragment>, ns: seq<Fragment>)
    ensures Join(ms + ns) == Join(ms) + Join(ns)
  {
    assert Payloads(ms + ns) == Payloads(ms) + Payloads(ns);
    FlattenAppend(Payloads(ms), Payloads(ns));
  }

  lemma JoinOne(m: Fragment)
    ensures Join([m]) == m.payload
  {
    assert Payloads([m]) == [m.payload];
    FlattenOne(m.payload);
  }

  // ----- section 5.4, declaratively

  predicate OpensMessage(opcode: byte) {
    opcode == OPCODE_TEXT || opcode == OPCODE_BINARY
  }

  /** The opcode first, 0 after. */
  predicate WellNumbered(ms: seq<Fragment>) {
    && ms != []
    && OpensMessage(ms[0].opcode)
    && forall i | 0 < i < |ms| :: ms[i].opcode == OPCODE_CONTINUATION
  }

  predicate NoneFinal(ms: seq<Fragment>) {
    forall m | m in ms :: !m.fin
  }

  /** A message: numbered as it must be, and FIN on its last fragment only. */
  predicate WholeMessage(ms: seq<Fragment>) {
    WellNumbered(ms) && NoneFinal(ms[..|ms| - 1]) && ms[|ms| - 1].fin
  }

  predicate UnfinishedMessage(ms: seq<Fragment>) {
    WellNumbered(ms) && NoneFinal(ms)
  }

  /** How many fragments lead up to and include the first FIN; all of them if there is none. */
  function ThroughFin(ms: seq<Fragment>): (n: nat)
    ensures n <= |ms|
    ensures NoneFinal(ms) ==> n == |ms|
    ensures !NoneFinal(ms) ==> n > 0 && ms[n - 1].fin && NoneFinal(ms[..n - 1])
  {
    if ms == [] then 0
    else if ms[0].fin then 1
    else
      var n := ThroughFin(ms[1..]);
      assert n > 0 ==> ms[..n] == [ms[0]] + ms[1..][..n - 1];
      1 + n
  }

  /** The stretches that end in FIN. */
  function Complete(ms: seq<Fragment>): seq<seq<Fragment>> {
    if NoneFinal(ms) then [] else [ms[..ThroughFin(ms)]] + Complete(ms[ThroughFin(ms)..])
  }

  /** What follows the last FIN. */
  function Remainder(ms: seq<Fragment>): seq<Fragment> {
    if NoneFinal(ms) then ms else Remainder(ms[ThroughFin(ms)..])
  }

  lemma CutAgain<T>(s: seq<T>, n: nat)
    requires 0 < n <= |s|
    ensures s == s[..n] + s[n..] && s[..n][n - 1] == s[n - 1] && s[..n][..n - 1] == s[..n - 1]
  {}

  lemma {:induction false} FirstCut(ms: seq<Fragment>)
    requires !NoneFinal(ms)
    ensures var n := ThroughFin(ms);
            && 0 < n <= |ms| && ms == ms[..n] + ms[n..]
            && ms[..n][n - 1].fin && ms[..n][..n - 1] == ms[..n - 1] && NoneFinal(ms[..n - 1])
  {
    hide *;
    CutAgain(ms, ThroughFin(ms));
  }

  /** Cutting after every FIN loses nothing. */
  lemma {:induction false} CompleteAndRemainder(ms: seq<Fragment>)
    ensures Flatten(Complete(ms)) + Remainder(ms) == ms
  {
    if !NoneFinal(ms) {
      FirstCut(ms);
      var n := ThroughFin(ms);
      var rest := ms[n..];
      assert Complete(ms) == [ms[..n]] + Complete(rest) && Remainder(ms) == Remainder(rest);
      CompleteAndRemainder(rest);
      hide *;
      FlattenCons(ms[..n], Complete(rest));
      AppendAssociates(ms[..n], Flatten(Complete(rest)), Remainder(rest));
    }
  }

  lemma {:induction false} RemainderUnfolds(ms: seq<Fragment>)
    ensures Remainder(ms) == if NoneFinal(ms) then ms else Remainder(ms[ThroughFin(ms)..])
  {}

  lemma {:induction false} FirstFin(ms: seq<Fragment>, ns: seq<Fragment>)
    requires !NoneFinal(ms)
    ensures !NoneFinal(ms + ns) && ThroughFin(ms + ns) == ThroughFin(ms)
  {
    var all := ms + ns;
    assert all[0] == ms[0] && all[1..] == ms[1..] + ns;
    var m :| m in ms && m.fin;
    assert m in all;
    if !ms[0].fin {
      assert m in ms[1..];
      FirstFin(ms[1..], ns);
    }
  }

  lemma {:induction false} RemainderAfter(ms: seq<Fragment>, ns: seq<Fragment>)
    requires Remainder(ms) == []
    ensures Remainder(ms + ns) == Remainder(ns)
  {
    hide Remainder, NoneFinal, ThroughFin;
    RemainderUnfolds(ms);
    if NoneFinal(ms) {
      assert ms + ns == ns;
    } else {
      var n, all := ThroughFin(ms), ms + ns;
      FirstFin(ms, ns);
      RemainderUnfolds(all);
      assert all[n..] == ms[n..] + ns;
      RemainderAfter(ms[n..], ns);
    }
  }

  /** A first stretch that ends in FIN is cut off whole. */
  lemma {:induction false} CompleteStep(first: seq<Fragment>, rest: seq<Fragment>)
    requires first != [] && NoneFinal(first[..|first| - 1]) && first[|first| - 1].fin
    ensures Complete(first + rest) == [first] + Complete(rest)
    ensures Remainder(first + rest) == Remainder(rest)
  {
    var n := ThroughFin(first);
    assert first[|first| - 1] in first;
    forall i | 0 <= i < |first| - 1 ensures !first[i].fin {
      assert first[i] == first[..|first| - 1][i];
    }
    assert n == |first|;
    FirstFin(first, rest);
    assert (first + rest)[..n] == first && (first + rest)[n..] == rest;
  }

  /** Section 5.4: whole messages one after another, then at most one unfinished message. */
  predicate Conforms(ms: seq<Fragment>) {
    && (forall m | m in Complete(ms) :: WholeMessage(m))
    && (Remainder(ms) == [] || UnfinishedMessage(Remainder(ms)))
  }

  // ----- section 5.4, one fragment at a time

  datatype Phase = Between | Inside | Illegal

  function Advance(phase: Phase, m: Fragment): Phase {
    match phase
    case Between => if !OpensMessage(m.opcode) then Illegal else if m.fin then Between else Inside
    case Inside => if m.opcode != OPCODE_CONTINUATION then Illegal else if m.fin then Between else Inside
    case Illegal => Illegal
  }

  function Run(phase: Phase, ms: seq<Fragment>): Phase {
    if ms == [] then phase else Advance(Run(phase, ms[..|ms| - 1]), ms[|ms| - 1])
  }

  lemma {:induction false} RunSnoc(phase: Phase, ms: seq<Fragment>, m: Fragment)
    ensures Run(phase, ms + [m]) == Advance(Run(phase, ms), m)
  {}

  lemma {:induction false} RunAppend(phase: Phase, ms: seq<Fragment>, ns: seq<Fragment>)
    ensures Run(phase, ms + ns) == Run(Run(phase, ms), ns)
  {
    if ns == [] {
      assert ms + ns == ms;
    } else {
      var k := |ns| - 1;
      RunAppend(phase, ms, ns[..k]);
      assert (ms + ns)[..|ms + ns| - 1] == ms + ns[..k];
    }
  }

  lemma {:induction false} IllegalStays(ms: seq<Fragment>)
    ensures Run(Illegal, ms) == Illegal
  {
    if ms != [] {
      IllegalStays(ms[..|ms| - 1]);
    }
  }

  /** What the automaton makes of fragments none of which is final. */
  lemma {:induction false} RunUnfinished(ms: seq<Fragment>)
    requires NoneFinal(ms) && ms != []
    ensures Run(Between, ms) == if WellNumbered(ms) then Inside else Illegal
  {
    var k := |ms| - 1;
    assert ms[k] in ms;
    if k == 0 {
      assert ms[..0] == [];
    } else {
      assert forall m | m in ms[..k] :: m in ms;
      RunUnfinished(ms[..k]);
      assert WellNumbered(ms) <==> WellNumbered(ms[..k]) && ms[k].opcode == OPCODE_CONTINUATION;
    }
  }

  lemma {:induction false} RunThroughFin(ms: seq<Fragment>)
    requires ms != [] && NoneFinal(ms[..|ms| - 1]) && ms[|ms| - 1].fin
    ensures Run(Between, ms) == if WholeMessage(ms) then Between else Illegal
  {
    var k := |ms| - 1;
    if k == 0 {
      assert ms[..0] == [];
    } else {
      RunUnfinished(ms[..k]);
      assert WellNumbered(ms) <==> WellNumbered(ms[..k]) && ms[k].opcode == OPCODE_CONTINUATION;
    }
  }

  /** The automaton and the declarative reading agree. */
  lemma {:induction false} ConformsIffLegal(ms: seq<Fragment>)
    ensures Conforms(ms) <==> Run(Between, ms) != Illegal
    ensures Conforms(ms) ==> (Remainder(ms) == [] <==> Run(Between, ms) == Between)
  {
    if NoneFinal(ms) {
      if ms != [] {
        RunUnfinished(ms);
      }
    } else {
      FirstCut(ms);
      var n := ThroughFin(ms);
      var first, rest := ms[..n], ms[n..];
      assert Complete(ms) == [first] + Complete(rest) && Remainder(ms) == Remainder(rest);
      RunThroughFin(first);
      RunAppend(Between, first, rest);
      ConformsIffLegal(rest);
      IllegalStays(rest);
      hide Complete, Remainder, NoneFinal, ThroughFin, Run, WholeMessage, UnfinishedMessage;
      assert forall m | m in Complete(ms) :: m == first || m in Complete(rest);
      assert first in Complete(ms) && forall m | m in Complete(rest) :: m in Complete(ms);
    }
  }

  /** A prefix of conforming fragments conforms. */
  lemma ConformsPrefix(ms: seq<Fragment>, ns: seq<Fragment>)
    requires Conforms(ms + ns)
    ensures Conforms(ms)
  {
    ConformsIffLegal(ms + ns);
    ConformsIffLegal(ms);
    RunAppend(Between, ms, ns);
    IllegalStays(ns);
  }

  // ----- how a message is cut

  /** SendData's cut: chunkSize bytes a frame, everything in one frame for 0 or less. */
  function Chunks(payload: seq<byte>, chunkSize: int): (cs: seq<seq<byte>>)
    ensures cs != []
    decreases |payload|
  {
    if chunkSize <= 0 || |payload| <= chunkSize then [payload]
    else [payload[..chunkSize]] + Chunks(payload[chunkSize..], chunkSize)
  }

  /** No byte is lost or moved, only the last chunk may be shorter, and it is empty only for an empty payload. */
  lemma {:induction false} ChunksAreTheMessage(payload: seq<byte>, chunkSize: int)
    ensures var cs := Chunks(payload, chunkSize);
            && Flatten(cs) == payload
            && (chunkSize > 0 ==> (forall i | 0 <= i < |cs| - 1 :: |cs[i]| == chunkSize) && |cs[|cs| - 1]| <= chunkSize)
            && (cs[|cs| - 1] == [] <==> payload == [])
            && (chunkSize <= 0 ==> |cs| == 1)
    decreases |payload|
  {
    if chunkSize <= 0 || |payload| <= chunkSize {
      FlattenOne(payload);
    } else {
      var rest := payload[chunkSize..];
      ChunksAreTheMessage(rest, chunkSize);
      var cs, ds := Chunks(payload, chunkSize), Chunks(rest, chunkSize);
      assert cs == [payload[..chunkSize]] + ds;
      assert cs[1..] == ds && payload == payload[..chunkSize] + rest;
      assert cs[|cs| - 1] == ds[|ds| - 1];
      forall i | 0 <= i < |cs| - 1 ensures |cs[i]| == chunkSize {
        if i > 0 {
          assert cs[i] == ds[i - 1];
        }
      }
    }
  }

  /** The fragments of a message whose payloads are ps: opcode first, 0 after, FIN on the last if it is done. */
  function MessageOf(opcode: byte, ps: seq<seq<byte>>, done: bool): seq<Fragment> {
    seq(|ps|, i requires 0 <= i < |ps| =>
      Fragment(if i == 0 then opcode else OPCODE_CONTINUATION, done && i == |ps| - 1, ps[i]))
  }

  lemma MessageOfSnoc(opcode: byte, ps: seq<seq<byte>>, p: seq<byte>, done: bool)
    ensures MessageOf(opcode, ps + [p], done)
            == MessageOf(opcode, ps, false)
               + [Fragment(if ps == [] then opcode else OPCODE_CONTINUATION, done, p)]
  {}

  lemma {:induction false} JoinMessageOf(opcode: byte, ps: seq<seq<byte>>, done: bool)
    ensures Join(MessageOf(opcode, ps, done)) == Flatten(ps)
  {
    assert Payloads(MessageOf(opcode, ps, done)) == ps;
  }

  lemma MessageOfIsMessage(opcode: byte, ps: seq<seq<byte>>)
    requires OpensMessage(opcode) && ps != []
    ensures WholeMessage(MessageOf(opcode, ps, true)) && UnfinishedMessage(MessageOf(opcode, ps, false))
  {}

  lemma RunMessageOf(opcode: byte, ps: seq<seq<byte>>, done: bool)
    requires OpensMessage(opcode)
    ensures Run(Between, MessageOf(opcode, ps, done)) == if ps == [] || done then Between else Inside
  {
    var ms := MessageOf(opcode, ps, done);
    if ps != [] {
      MessageOfIsMessage(opcode, ps);
      if done {
        RunThroughFin(ms);
      } else {
        RunUnfinished(ms);
      }
    }
  }
}
