/** What a peer can make a Listener hold (Listener.go, ListenerRouter.go). */
module ListenerBudgets {
  import opened Bytes
  import opened Frames
  import opened Listeners
  import opened ListenerSpec

  /** What holds of the message in flight under every configuration, replaced as often as one likes. */
  predicate Lean(a: Assembly) {
    a.count <= a.acc + 1 && |a.frames| <= a.count && |FramesBytes(a.frames)| <= a.acc
  }

  /** A next frame the reader may hand over is added up exactly, in bytes and in frames. */
  predicate CountsExactly(c: Config, a: Assembly, f: Frame) {
    |f.payload| <= NextLimit(c, a) ==>
      Counted(a, f).acc == a.acc + |f.payload| && Counted(a, f).count == a.count + 1
  }

  /** With a safe budget, what is in hand never passes it by more than a control frame, and neither counter wraps. */
  lemma BudgetKept(c: Config, a: Assembly, f: Frame, utf8: seq<byte> -> bool)
    requires 0 < c.maxMsgPayloadByteLen <= MAX_SAFE_BUDGET && a.acc <= c.maxMsgPayloadByteLen
    ensures NextLimit(c, a) == Max(c.maxMsgPayloadByteLen - a.acc, MAX_CONTROL_PAYLOAD)
    ensures |f.payload| <= NextLimit(c, a) ==>
              a.acc + |f.payload| <= c.maxMsgPayloadByteLen + MAX_CONTROL_PAYLOAD < TWO_TO_64
    ensures |f.payload| <= NextLimit(c, a) ==> Counted(a, f).acc == a.acc + |f.payload|
    ensures Lean(a) ==> CountsExactly(c, a, f)
    ensures Take(c, a, f, utf8).assembly.acc <= c.maxMsgPayloadByteLen
  {}

  lemma BytesOfNoFrames()
    ensures FramesBytes([]) == []
  {}

  lemma NothingIsLean()
    ensures Lean(NO_MESSAGE)
  {
    BytesOfNoFrames();
  }

  /** One more frame, whichever configurations its size guard, its validation and its routing found. */
  lemma LeanKept(limit: uint64, check: Config, act: Config, a: Assembly, f: Frame, utf8: seq<byte> -> bool)
    requires Lean(a) && a.acc + |f.payload| + 1 < TWO_TO_64
    ensures var b := TakeUnder(limit, check, act, a, f, utf8).assembly; Lean(b) && b.acc <= a.acc + |f.payload|
  {
    hide FramesBytes;
    FramesBytesSnoc(a.frames, f);
    BytesOfNoFrames();
  }

  lemma LeanUnderBudget(c: Config, a: Assembly, f: Frame, utf8: seq<byte> -> bool)
    requires 0 < c.maxMsgPayloadByteLen <= MAX_SAFE_BUDGET && a.acc <= c.maxMsgPayloadByteLen
    ensures Lean(a) ==> Lean(Take(c, a, f, utf8).assembly)
  {
    hide FramesBytes;
    FramesBytesSnoc(a.frames, f);
    BytesOfNoFrames();
  }

  /** So after any list of frames, however many bytes they come to. */
  lemma {:induction false} BudgetKeptThroughout(c: Config, a: Assembly, fs: seq<Frame>, f: Frame,
                                                utf8: seq<byte> -> bool)
    requires 0 < c.maxMsgPayloadByteLen <= MAX_SAFE_BUDGET && a.acc <= c.maxMsgPayloadByteLen
    ensures var b := TakeAll(c, a, fs, utf8).assembly;
            b.acc <= c.maxMsgPayloadByteLen && (Lean(a) ==> Lean(b) && CountsExactly(c, b, f))
    decreases |fs|
  {
    hide Take, Lean, CountsExactly;
    if fs == [] {
      BudgetKept(c, a, f, utf8);
    } else {
      BudgetKept(c, a, fs[0], utf8);
      LeanUnderBudget(c, a, fs[0], utf8);
      var r := Take(c, a, fs[0], utf8);
      if r.err == NoError {
        BudgetKeptThroughout(c, r.assembly, fs[1..], f, utf8);
      } else {
        BudgetKept(c, r.assembly, f, utf8);
      }
    }
  }

  // ----- exactly which budgets are safe

  /** No payload is longer than a slice can be. */
  predicate Fits(most: nat, fs: seq<Frame>) {
    forall f | f in fs :: |f.payload| <= most
  }

  /** Wherever an accepted list of frames leads, the next data frame is added up without wrapping. */
  predicate SumsExactly(c: Config, fs: seq<Frame>, f: Frame, utf8: seq<byte> -> bool) {
    var r := TakeAll(c, NO_MESSAGE, fs, utf8);
    && r.err == NoError && IsData(f.opcode)
    && |f.payload| <= NextLimit(c, r.assembly) && FaultOf(c, r.assembly, f) == NoError ==>
      Counted(r.assembly, f).acc == r.assembly.acc + |f.payload|
  }

  /** Wherever an accepted list of frames leads, a data frame that is accepted leaves the message within its budget. */
  predicate StaysWithin(c: Config, fs: seq<Frame>, f: Frame, utf8: seq<byte> -> bool) {
    var r := TakeAll(c, NO_MESSAGE, fs, utf8);
    r.err == NoError && Take(c, r.assembly, f, utf8).err == NoError && IsData(f.opcode) ==>
      r.assembly.acc + |f.payload| <= c.maxMsgPayloadByteLen
  }

  /** The total from which a control frame's worth wraps. */
  const BRINK: nat := TWO_TO_64 - MAX_CONTROL_PAYLOAD

  /** n frames, which is what the frame limit leaves, do not come to that total. */
  predicate FallsShort(c: Config, n: int, most: nat) {
    c.maxMsgFrameCount > 0 && n * most < BRINK
  }

  // ----- a total no frame limit keeps away

  /** `size` bytes of a message in frames of `most` bytes, the first of which has this opcode. */
  function Spending(c: Config, size: nat, most: nat, opcode: byte): seq<Frame>
    requires most > 0
    decreases size
  {
    if size == 0 then []
    else
      var n := if size < most then size else most;
      [NewFrame(opcode, false, seq(n, i => 0)).(mask := c.peerIsClient)]
      + Spending(c, size - n, most, OPCODE_CONTINUATION)
  }

  /** A continuation no longer than a control frame may be. */
  function Overspending(c: Config): Frame {
    NewFrame(OPCODE_CONTINUATION, false, seq(MAX_CONTROL_PAYLOAD, i => 0)).(mask := c.peerIsClient)
  }

  lemma {:induction false} SpendingFits(c: Config, size: nat, most: nat, opcode: byte)
    requires most > 0
    ensures Fits(most, Spending(c, size, most, opcode))
    decreases size
  {
    if size > 0 {
      SpendingFits(c, if size < most then 0 else size - most, most, OPCODE_CONTINUATION);
    }
  }

  /** A part of a message that both limits still admit. */
  lemma PartIsTaken(c: Config, a: Assembly, f: Frame, utf8: seq<byte> -> bool)
    requires f.payload != [] && !f.fin && f == NewFrame(f.opcode, false, f.payload).(mask := c.peerIsClient)
    requires f.opcode == if a.count == 0 then OPCODE_TEXT else OPCODE_CONTINUATION
    requires a.acc + |f.payload| <= c.maxMsgPayloadByteLen
    requires a.count + 1 < TWO_TO_64 && (c.maxMsgFrameCount > 0 ==> a.count < c.maxMsgFrameCount)
    ensures var r := Take(c, a, f, utf8);
            r.err == NoError && r.assembly.acc == a.acc + |f.payload| && r.assembly.count == a.count + 1
  {
    LimitIsExact(c, a);
    CountedAtMost(a, f);
    CountedKeepsFrames(a, f);
    hide FramesBytes, NextLimit, Counted;
  }

  lemma OneFewer(size: nat, left: nat, most: nat)
    requires 0 < size <= left * most
    ensures left > 0 && (size > most ==> size - most <= (left - 1) * most)
  {}

  /** Taken one after another they spend exactly `size` bytes, in no more frames than it takes. */
  lemma {:induction false} SpendingIsTaken(c: Config, a: Assembly, size: nat, most: nat, opcode: byte, left: nat,
                                           utf8: seq<byte> -> bool)
    requires most > 0 && opcode == (if a.count == 0 then OPCODE_TEXT else OPCODE_CONTINUATION)
    requires a.acc + size <= c.maxMsgPayloadByteLen && size <= left * most
    requires a.count + left < TWO_TO_64 && (c.maxMsgFrameCount > 0 ==> a.count + left <= c.maxMsgFrameCount)
    ensures var r := TakeAll(c, a, Spending(c, size, most, opcode), utf8);
            && r.err == NoError && r.assembly.acc == a.acc + size && r.assembly.count <= a.count + left
            && (size > 0 ==> r.assembly.count > 0)
    decreases size
  {
    hide Take;
    if size > 0 {
      OneFewer(size, left, most);
      var fs := Spending(c, size, most, opcode);
      PartIsTaken(c, a, fs[0], utf8);
      var n := if size < most then size else most;
      assert fs[1..] == Spending(c, size - n, most, OPCODE_CONTINUATION);
      SpendingIsTaken(c, Take(c, a, fs[0], utf8).assembly, size - n, most, OPCODE_CONTINUATION, left - 1, utf8);
    }
  }

  lemma OverspendingIsTaken(c: Config, a: Assembly, utf8: seq<byte> -> bool)
    requires c.maxMsgPayloadByteLen > MAX_SAFE_BUDGET && a.acc == BRINK && a.count > 0
    ensures |Overspending(c).payload| <= NextLimit(c, a) && FaultOf(c, a, Overspending(c)) == NoError
    ensures Counted(a, Overspending(c)).acc == 0
    ensures c.maxMsgFrameCount == 0 || a.count < c.maxMsgFrameCount ==>
              Take(c, a, Overspending(c), utf8).err == NoError
  {
    hide FramesBytes;
  }

  /** The frames that bring the total to where the next one makes it wrap. */
  function ToTheBrink(c: Config, most: nat): seq<Frame>
    requires most > 0
  {
    Spending(c, BRINK, most, OPCODE_TEXT)
  }

  lemma EnoughFrames(most: nat)
    requires most >= 1
    ensures BRINK <= BRINK * most
  {}

  /** The total is brought to the brink by no more than `left` frames, and one more payload makes it wrap. */
  lemma BrinkIsReached(c: Config, most: nat, left: nat, utf8: seq<byte> -> bool)
    requires c.maxMsgPayloadByteLen > MAX_SAFE_BUDGET && most >= MAX_CONTROL_PAYLOAD
    requires left < TWO_TO_64 && BRINK <= left * most && (c.maxMsgFrameCount > 0 ==> left <= c.maxMsgFrameCount)
    ensures !SumsExactly(c, ToTheBrink(c, most), Overspending(c), utf8)
    ensures c.maxMsgFrameCount == 0 || left < c.maxMsgFrameCount ==>
              !StaysWithin(c, ToTheBrink(c, most), Overspending(c), utf8)
  {
    hide Take, TakeAll, Counted, FaultOf, NextLimit, Spending;
    SpendingIsTaken(c, NO_MESSAGE, BRINK, most, OPCODE_TEXT, left, utf8);
    OverspendingIsTaken(c, TakeAll(c, NO_MESSAGE, ToTheBrink(c, most), utf8).assembly, utf8);
  }

  /**
   Without a safe budget, and with frames enough to reach the brink, the sum wraps; with one frame more to spare, what
   wrapped is accepted.
   */
  lemma UnsafeBudgetWraps(c: Config, most: nat, utf8: seq<byte> -> bool)
    requires c.maxMsgPayloadByteLen > MAX_SAFE_BUDGET && most >= MAX_CONTROL_PAYLOAD
    ensures Fits(most, ToTheBrink(c, most)) && |Overspending(c).payload| <= most
    ensures !FallsShort(c, c.maxMsgFrameCount, most) ==>
              !SumsExactly(c, ToTheBrink(c, most), Overspending(c), utf8)
    ensures !FallsShort(c, c.maxMsgFrameCount - 1, most) ==>
              !StaysWithin(c, ToTheBrink(c, most), Overspending(c), utf8)
  {
    hide SumsExactly, StaysWithin, Spending;
    SpendingFits(c, BRINK, most, OPCODE_TEXT);
    var n := c.maxMsgFrameCount;
    if n == 0 {
      EnoughFrames(most);
      BrinkIsReached(c, most, BRINK, utf8);
    } else {
      if !FallsShort(c, n, most) {
        BrinkIsReached(c, most, n, utf8);
      }
      if !FallsShort(c, n - 1, most) {
        BrinkIsReached(c, most, n - 1, utf8);
      }
    }
  }

  // ----- a frame limit that does keep it away

  /** Neither limit passed, and no more bytes than the frames can carry. */
  predicate Short(c: Config, a: Assembly, most: nat) {
    a.acc <= c.maxMsgPayloadByteLen && a.count <= c.maxMsgFrameCount && a.acc <= a.count * most
  }

  /** A frame that is accepted leaves the counters as they are, resets them, or is within both limits. */
  lemma AcceptedIsWithin(c: Config, a: Assembly, f: Frame, utf8: seq<byte> -> bool)
    requires 0 < c.maxMsgPayloadByteLen && 0 < c.maxMsgFrameCount && Take(c, a, f, utf8).err == NoError
    ensures var b, d := Take(c, a, f, utf8).assembly, Counted(a, f);
            && (b == a || b == NO_MESSAGE || (b.acc == d.acc && b.count == d.count))
            && (b == a || (d.acc <= c.maxMsgPayloadByteLen && d.count <= c.maxMsgFrameCount))
            && (b == a && IsData(f.opcode) && f.payload != [] ==>
                  d.acc <= c.maxMsgPayloadByteLen && d.count <= c.maxMsgFrameCount)
  {
    hide FramesBytes, NextLimit, HeaderFault;
  }

  lemma OneMore(n: nat, most: nat)
    ensures (n + 1) * most == n * most + most
  {}

  lemma ShortKept(c: Config, a: Assembly, f: Frame, most: nat, utf8: seq<byte> -> bool)
    requires 0 < c.maxMsgPayloadByteLen && 0 < c.maxMsgFrameCount < TWO_TO_64 - 1
    requires Short(c, a, most) && |f.payload| <= most && Take(c, a, f, utf8).err == NoError
    ensures Short(c, Take(c, a, f, utf8).assembly, most)
  {
    AcceptedIsWithin(c, a, f, utf8);
    CountedAtMost(a, f);
    OneMore(a.count, most);
    hide Take, Counted;
  }

  lemma {:induction false} ShortThroughout(c: Config, a: Assembly, fs: seq<Frame>, most: nat, utf8: seq<byte> -> bool)
    requires 0 < c.maxMsgPayloadByteLen && 0 < c.maxMsgFrameCount < TWO_TO_64 - 1
    requires Short(c, a, most) && Fits(most, fs) && TakeAll(c, a, fs, utf8).err == NoError
    ensures Short(c, TakeAll(c, a, fs, utf8).assembly, most)
    decreases |fs|
  {
    hide Take, Short;
    if fs != [] {
      ShortKept(c, a, fs[0], most, utf8);
      ShortThroughout(c, Take(c, a, fs[0], utf8).assembly, fs[1..], most, utf8);
    }
  }

  lemma NoMore(n: nat, m: nat, most: nat)
    requires n <= m
    ensures n * most <= m * most
  {}

  /** A sum that starts below the brink does not wrap. */
  lemma BelowTheBrink(c: Config, a: Assembly, f: Frame)
    requires 0 < c.maxMsgPayloadByteLen && a.acc <= c.maxMsgPayloadByteLen && a.acc < BRINK
    requires |f.payload| <= NextLimit(c, a)
    ensures Counted(a, f).acc == a.acc + |f.payload|
  {}

  lemma ShortSums(c: Config, a: Assembly, f: Frame, most: nat)
    requires 0 < c.maxMsgPayloadByteLen && Short(c, a, most)
    requires FallsShort(c, c.maxMsgFrameCount, most) && |f.payload| <= NextLimit(c, a)
    ensures Counted(a, f).acc == a.acc + |f.payload|
  {
    NoMore(a.count, c.maxMsgFrameCount, most);
    BelowTheBrink(c, a, f);
  }

  lemma AcceptedIsRead(c: Config, a: Assembly, f: Frame, utf8: seq<byte> -> bool)
    requires 0 < c.maxMsgPayloadByteLen && Take(c, a, f, utf8).err == NoError
    ensures |f.payload| <= NextLimit(c, a)
  {
    hide FramesBytes;
  }

  lemma ShortBinds(c: Config, a: Assembly, f: Frame, most: nat, utf8: seq<byte> -> bool)
    requires 0 < c.maxMsgPayloadByteLen && c.maxMsgFrameCount < TWO_TO_64 - 1 && Short(c, a, most)
    requires FallsShort(c, c.maxMsgFrameCount - 1, most) && Take(c, a, f, utf8).err == NoError && IsData(f.opcode)
    ensures a.acc + |f.payload| <= c.maxMsgPayloadByteLen
  {
    AcceptedIsWithin(c, a, f, utf8);
    AcceptedIsRead(c, a, f, utf8);
    hide Take, NextLimit;
    if f.payload != [] {
      assert a.count + 1 <= c.maxMsgFrameCount;
      NoMore(a.count, c.maxMsgFrameCount - 1, most);
      BelowTheBrink(c, a, f);
    }
  }

  /** A frame limit that falls short is far from where the frame count itself would wrap. */
  lemma LimitIsSmall(c: Config, n: int, most: nat)
    requires FallsShort(c, n, most) && most >= MAX_CONTROL_PAYLOAD
    ensures 0 < c.maxMsgFrameCount && n < TWO_TO_64 - 2
  {
    if n > 0 {
      NoMore(1, most, n);
    }
  }

  lemma WithinSafeBudget(c: Config, a: Assembly, f: Frame, utf8: seq<byte> -> bool)
    requires 0 < c.maxMsgPayloadByteLen <= MAX_SAFE_BUDGET && a.acc <= c.maxMsgPayloadByteLen
    ensures |f.payload| <= NextLimit(c, a) ==> Counted(a, f).acc == a.acc + |f.payload|
    ensures Take(c, a, f, utf8).err == NoError && IsData(f.opcode) ==> a.acc + |f.payload| <= c.maxMsgPayloadByteLen
  {
    hide FramesBytes;
  }

  /** What either limit, being low enough, does for every list of frames. */
  lemma LowLimitHolds(c: Config, most: nat, fs: seq<Frame>, f: Frame, utf8: seq<byte> -> bool)
    requires c.maxMsgPayloadByteLen > 0 && most >= MAX_CONTROL_PAYLOAD && Fits(most, fs) && |f.payload| <= most
    ensures c.maxMsgPayloadByteLen <= MAX_SAFE_BUDGET || FallsShort(c, c.maxMsgFrameCount, most) ==>
              SumsExactly(c, fs, f, utf8)
    ensures c.maxMsgPayloadByteLen <= MAX_SAFE_BUDGET || FallsShort(c, c.maxMsgFrameCount - 1, most) ==>
              StaysWithin(c, fs, f, utf8)
  {
    hide TakeAll, Take, FaultOf, FallsShort, NextLimit, Counted, Lean, CountsExactly;
    var r := TakeAll(c, NO_MESSAGE, fs, utf8);
    if c.maxMsgPayloadByteLen <= MAX_SAFE_BUDGET {
      NothingIsLean();
      BudgetKeptThroughout(c, NO_MESSAGE, fs, f, utf8);
      WithinSafeBudget(c, r.assembly, f, utf8);
    } else if r.err == NoError {
      if FallsShort(c, c.maxMsgFrameCount, most) {
        LimitIsSmall(c, c.maxMsgFrameCount, most);
        ShortThroughout(c, NO_MESSAGE, fs, most, utf8);
        if |f.payload| <= NextLimit(c, r.assembly) {
          ShortSums(c, r.assembly, f, most);
        }
      }
      if FallsShort(c, c.maxMsgFrameCount - 1, most) {
        LimitIsSmall(c, c.maxMsgFrameCount - 1, most);
        ShortThroughout(c, NO_MESSAGE, fs, most, utf8);
        if Take(c, r.assembly, f, utf8).err == NoError && IsData(f.opcode) {
          ShortBinds(c, r.assembly, f, most, utf8);
        }
      }
    }
  }

  /**
   No sum a peer can bring about wraps exactly when the budget leaves room for one control frame's worth, or when as
   many frames as are allowed, none of them longer than `most`, cannot come that near to 2^64.
   */
  lemma SafeBudgetIsExact(c: Config, most: nat, utf8: seq<byte> -> bool)
    requires c.maxMsgPayloadByteLen > 0 && most >= MAX_CONTROL_PAYLOAD
    ensures c.maxMsgPayloadByteLen <= MAX_SAFE_BUDGET || FallsShort(c, c.maxMsgFrameCount, most)
            <==> forall fs, f: Frame | Fits(most, fs) && |f.payload| <= most :: SumsExactly(c, fs, f, utf8)
  {
    hide SumsExactly, StaysWithin, FallsShort, Fits, Spending;
    if c.maxMsgPayloadByteLen <= MAX_SAFE_BUDGET || FallsShort(c, c.maxMsgFrameCount, most) {
      forall fs, f: Frame | Fits(most, fs) && |f.payload| <= most ensures SumsExactly(c, fs, f, utf8) {
        LowLimitHolds(c, most, fs, f, utf8);
      }
    } else {
      UnsafeBudgetWraps(c, most, utf8);
    }
  }

  /** The budget bounds every message exactly when it is safe, or when all frames but one fall short of the brink. */
  lemma BudgetBindsExactly(c: Config, most: nat, utf8: seq<byte> -> bool)
    requires c.maxMsgPayloadByteLen > 0 && most >= MAX_CONTROL_PAYLOAD
    ensures c.maxMsgPayloadByteLen <= MAX_SAFE_BUDGET || FallsShort(c, c.maxMsgFrameCount - 1, most)
            <==> forall fs, f: Frame | Fits(most, fs) && |f.payload| <= most :: StaysWithin(c, fs, f, utf8)
  {
    hide SumsExactly, StaysWithin, FallsShort, Fits, Spending;
    if c.maxMsgPayloadByteLen <= MAX_SAFE_BUDGET || FallsShort(c, c.maxMsgFrameCount - 1, most) {
      forall fs, f: Frame | Fits(most, fs) && |f.payload| <= most ensures StaysWithin(c, fs, f, utf8) {
        LowLimitHolds(c, most, fs, f, utf8);
      }
    } else {
      UnsafeBudgetWraps(c, most, utf8);
    }
  }

  // ----- what a wrap takes

  lemma RetainedKept(c: Config, a: Assembly, f: Frame, utf8: seq<byte> -> bool)
    requires !c.data && a.acc <= |FramesBytes(a.frames)|
    ensures var b := Take(c, a, f, utf8).assembly; b.acc <= |FramesBytes(b.frames)|
  {
    hide FramesBytes;
    FramesBytesSnoc(a.frames, f);
  }

  lemma {:induction false} RetainedThroughout(c: Config, a: Assembly, fs: seq<Frame>, utf8: seq<byte> -> bool)
    requires !c.data && a.acc <= |FramesBytes(a.frames)|
    ensures var b := TakeAll(c, a, fs, utf8).assembly; b.acc <= |FramesBytes(b.frames)|
    decreases |fs|
  {
    hide Take, FramesBytes;
    if fs != [] {
      RetainedKept(c, a, fs[0], utf8);
      RetainedThroughout(c, Take(c, a, fs[0], utf8).assembly, fs[1..], utf8);
    }
  }

  /** Only a data hook lets a total wrap without 2^64 bytes being held for it. */
  lemma {:induction false} WrappedIsRetained(c: Config, fs: seq<Frame>, f: Frame, utf8: seq<byte> -> bool)
    requires !c.data && !SumsExactly(c, fs, f, utf8)
    ensures |FramesBytes(TakeAll(c, NO_MESSAGE, fs, utf8).assembly.frames)| + |f.payload| >= TWO_TO_64
  {
    hide Take, TakeAll, FramesBytes, FaultOf, NextLimit;
    RetainedThroughout(c, NO_MESSAGE, fs, utf8);
  }

  // ----- under configurations that change

  /** What the size guard, validation and routing find when they look, one after another. */
  datatype Looks = Looks(guard: Config, check: Config, act: Config)

  /** One frame after another, the configuration replaced between and within them, stopping for nothing. */
  function TakeEach(looks: seq<Looks>, a: Assembly, fs: seq<Frame>, utf8: seq<byte> -> bool): Assembly
    requires |looks| == |fs|
    decreases |fs|
  {
    if fs == [] then a
    else
      var l := looks[0];
      TakeEach(looks[1..], TakeUnder(NextLimit(l.guard, a), l.check, l.act, a, fs[0], utf8).assembly, fs[1..], utf8)
  }

  /** An empty frame costs nothing twice: frames are bounded by bytes, whatever SetConfig does in between. */
  lemma {:induction false} LeanThroughout(looks: seq<Looks>, a: Assembly, fs: seq<Frame>, utf8: seq<byte> -> bool)
    requires |looks| == |fs| && Lean(a) && a.acc + Volume(fs) + 1 < TWO_TO_64
    ensures Lean(TakeEach(looks, a, fs, utf8))
    decreases |fs|
  {
    hide TakeUnder, Lean, NextLimit;
    if fs != [] {
      var l := looks[0];
      LeanKept(NextLimit(l.guard, a), l.check, l.act, a, fs[0], utf8);
      LeanThroughout(looks[1..], TakeUnder(NextLimit(l.guard, a), l.check, l.act, a, fs[0], utf8).assembly, fs[1..],
        utf8);
    }
  }
}
