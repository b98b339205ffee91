/** No goroutine waits for ever: the two locks cannot deadlock, and unfinished calls finish. */
module SenderProgress {
  import opened Bytes
  import opened Frames
  import opened Sending
  import opened Messages
  import opened Senders

  // ----- a hold of writeLocker can always end

  lemma CanBuffer(c: ConnState, f: Frame) returns (g: Frame, d: ConnState, r: Outcome)
    requires |f.payload| < TWO_TO_64
    ensures BufferedWrite(c, f, g, d, r)
  {
    g := Prepare(f, c.masks, ZERO_KEY);
    hide Wire, Prepare;
    match Refusal(f, c.closeSent)
    case Some(error) => d, r := c, Refused(error);
    case None =>
      if c.failed {
        d, r := c, Refused(SocketFailed);
      } else {
        d, r := c.(buffered := c.buffered + Wire(g), log := c.log + [g]), Sent;
        AppendAssociates(c.wire, c.buffered, Wire(g));
      }
  }

  lemma CanSend(c: ConnState, f: Frame) returns (g: Frame, d: ConnState, r: Outcome)
    requires |f.payload| < TWO_TO_64
    ensures FrameSent(c, f, g, d, r)
    ensures g == Prepare(f, c.masks, ZERO_KEY)
    ensures Refusal(f, c.closeSent).None? && !c.failed ==>
              r == Sent && d == c.(wire := c.Out() + Wire(g), buffered := [], log := c.log + [g],
                                   closeSent := c.closeSent || f.opcode == OPCODE_CLOSE)
  {
    g := Prepare(f, c.masks, ZERO_KEY);
    hide Wire, Prepare;
    match Refusal(f, c.closeSent)
    case Some(error) => d, r := c, Refused(error);
    case None =>
      if c.failed {
        d, r := c, Refused(SocketFailed);
      } else {
        d := c.(wire := c.Out() + Wire(g), buffered := [], log := c.log + [g],
                closeSent := c.closeSent || f.opcode == OPCODE_CLOSE);
        r := Sent;
      }
  }

  lemma CanFlush(c: ConnState) returns (d: ConnState, r: Outcome)
    ensures Flushed(c, d, r)
  {
    if c.failed {
      d, r := c, Refused(SocketFailed);
    } else {
      d, r := c.(wire := c.Out(), buffered := []), Sent;
    }
  }

  lemma CanWork(s: State, pc: PC) returns (g: Frame, d: ConnState, r: Outcome)
    requires HoldsWriteLock(pc) && Sensible(pc)
    ensures Effect(s, pc, g, d, r)
  {
    hide BufferedWrite, FrameSent, Flushed;
    g, d, r := NewFrame(0, false, []), s.conn, Sent;
    match pc
    case DataHeld(op, chunks, marks, _) =>
      if |marks| < |chunks| {
        g, d, r := CanBuffer(s.conn, ChunkFrame(op, chunks, |marks|));
      } else {
        d, r := CanFlush(s.conn);
      }
    case StreamSend(_, _, data, fin, _) =>
      g, d, r := CanSend(s.conn, NewFrame(StreamOpcode(s.current, s.begun), fin, data));
    case FrameSend(f, _) => g, d, r := CanSend(s.conn, f);
    case Renew(_) => d, r := CanFlush(s.conn);
    case StartCheck(_, _) => r := if s.conn.closeSent then Refused(CloseAlreadySent) else Sent;
  }

  predicate AllIdle(s: State) {
    forall i | 0 <= i < |s.pcs| :: s.pcs[i].Idle?
  }

  /** A step of a call already made: a stream's owner goes on to Release, and nobody calls anything new. */
  ghost predicate Finishes(s: State, t: State) {
    exists i: nat, a :: Step(s, i, a, t) && !a.Calls?
  }

  lemma WorkIsEnabled(s: State, i: nat) returns (t: State)
    requires i < |s.pcs| && HoldsWriteLock(s.pcs[i]) && Sensible(s.pcs[i])
    ensures Finishes(s, t)
  {
    hide Effect, Sensible;
    var pc := s.pcs[i];
    var g, d, r := CanWork(s, pc);
    t := s.(conn := d, writeOwner := None, pcs := s.pcs[i := After(pc, |s.conn.log|, r)],
            begun := s.begun || (pc.StreamSend? && !pc.fin && r == Sent),
            clean := s.clean && !Misused(pc, s.conn, d, r));
    assert Step(s, i, Works(g, r), t);
  }

  lemma QuietIsEnabled(s: State, i: nat, a: Action, t: State)
    requires i < |s.pcs| && QuietStep(s, i, a, t) && !a.Calls?
    ensures Finishes(s, t)
  {
    assert !a.Works?;
    assert Step(s, i, a, t);
  }

  /** A goroutine that is not waiting for the message lock can go on as long as no one holds the other lock. */
  lemma UnblockedIsEnabled(s: State, i: nat) returns (t: State)
    requires i < |s.pcs| && !s.pcs[i].Idle? && !WaitsForDataLock(s.pcs[i])
    requires s.writeOwner == None && !HoldsWriteLock(s.pcs[i])
    ensures Finishes(s, t)
  {
    hide Finishes;
    var pc := s.pcs[i];
    if UsesWriteLock(pc) {
      t := s.(writeOwner := Some(i), pcs := s.pcs[i := pc.(locked := true)]);
      QuietIsEnabled(s, i, LocksWrite, t);
    } else if pc.DataDone? {
      t := s.(dataOwner := None, pcs := s.pcs[i := Idle]);
      QuietIsEnabled(s, i, Returns, t);
    } else {
      t := s.(dataOwner := None, current := 0, begun := false, pcs := s.pcs[i := Idle],
              clean := s.clean && MessageOver(s, pc));
      QuietIsEnabled(s, i, Releases, t);
    }
  }

  /** While any call is unfinished, some goroutine can take a step. */
  lemma SomeoneCanStep(s: State) returns (t: State)
    requires Inv(s) && !AllIdle(s)
    ensures Finishes(s, t)
  {
    hide Finishes, Sound, Framing, AllMarked, StreamFields, Sensible;
    var i :| 0 <= i < |s.pcs| && !s.pcs[i].Idle?;
    if s.writeOwner.Some? {
      t := WorkIsEnabled(s, s.writeOwner.value);
    } else if !WaitsForDataLock(s.pcs[i]) {
      t := UnblockedIsEnabled(s, i);
    } else if s.dataOwner.Some? {
      t := UnblockedIsEnabled(s, s.dataOwner.value);
    } else {
      var pc := s.pcs[i];
      t := s.(dataOwner := Some(i), taken := |s.conn.log|, base := DataPart(s.conn.log),
              current := if pc.StartWait? then pc.op else s.current, pcs := s.pcs[i := Entered(pc)]);
      QuietIsEnabled(s, i, LocksData, t);
    }
  }

  // ----- and steps run out

  /** How many steps a goroutine has left at most. */
  function Left(pc: PC): nat {
    match pc
    case Idle => 0
    case DataWait(_, chunks) => 2 * |chunks| + 4
    case DataHeld(_, chunks, marks, locked) =>
      (if |marks| <= |chunks| then 2 * (|chunks| - |marks|) else 0) + if locked then 2 else 3
    case DataDone(_, _, _, _) => 1
    case StartCheck(_, locked) => if locked then 3 else 4
    case StartWait(_) => 2
    case Stream(_, _, _) => 1
    case StreamSend(_, _, _, _, locked) => if locked then 2 else 3
    case FrameSend(_, locked) => if locked then 1 else 2
    case Renew(locked) => if locked then 1 else 2
  }

  function AllLeft(pcs: seq<PC>): nat {
    if pcs == [] then 0 else Left(pcs[0]) + AllLeft(pcs[1..])
  }

  lemma {:induction false} AllLeftUpdate(pcs: seq<PC>, i: nat, pc: PC)
    requires i < |pcs|
    ensures AllLeft(pcs[i := pc]) == AllLeft(pcs) - Left(pcs[i]) + Left(pc)
  {
    hide Left;
    if i == 0 {
      assert pcs[0 := pc][1..] == pcs[1..];
    } else {
      assert pcs[i := pc][1..] == pcs[1..][i - 1 := pc];
      AllLeftUpdate(pcs[1..], i - 1, pc);
    }
  }

  lemma OwnStepLeavesLess(s: State, i: nat, a: Action, t: State)
    requires Step(s, i, a, t) && !a.Calls? && Sensible(s.pcs[i])
    ensures t.pcs == s.pcs[i := t.pcs[i]] && Left(t.pcs[i]) < Left(s.pcs[i])
  {
    hide Effect, Chunks, DataPart, Misused, FitsHeader, NoneEmpty;
  }

  lemma StepIsOfSomeone(s: State, i: nat, a: Action, t: State)
    requires Step(s, i, a, t)
    ensures i < |s.pcs| == |t.pcs|
  {}

  lemma StepLeavesLess(s: State, t: State)
    requires AllSensible(s) && Finishes(s, t)
    ensures AllLeft(t.pcs) < AllLeft(s.pcs)
  {
    hide Step, Sensible, AllLeft, Left;
    var i: nat, a :| Step(s, i, a, t) && !a.Calls?;
    StepIsOfSomeone(s, i, a, t);
    OwnStepLeavesLess(s, i, a, t);
    AllLeftUpdate(s.pcs, i, t.pcs[i]);
  }

  /** A run that makes no new call from its n-th state on. */
  ghost predicate OnlyFinishes(ss: seq<State>, n: nat) {
    n > 0 && forall k | n <= k < |ss| :: Finishes(ss[k - 1], ss[k])
  }

  lemma Continues(ss: seq<State>, t: State)
    requires Behaves(ss) && Finishes(ss[|ss| - 1], t)
    ensures Behaves(ss + [t])
  {}

  lemma InvIsSensible(s: State)
    requires Inv(s)
    ensures AllSensible(s)
  {}

  /** Without new calls every run is short: it has fewer steps than its goroutines have left. */
  lemma {:induction false} FinishingEnds(ss: seq<State>, n: nat)
    requires Behaves(ss) && 0 < n <= |ss| && OnlyFinishes(ss, n)
    ensures |ss| - n + AllLeft(ss[|ss| - 1].pcs) <= AllLeft(ss[n - 1].pcs)
  {
    hide Step, Init, AllLeft, Inv, Finishes;
    var k := |ss| - 1;
    if n <= k {
      assert Behaves(ss[..k]) && OnlyFinishes(ss[..k], n);
      FinishingEnds(ss[..k], n);
      AlwaysInv(ss[..k]);
      InvIsSensible(ss[k - 1]);
      StepLeavesLess(ss[k - 1], ss[k]);
    }
  }

  /** From every reachable state, the calls already made all return if they are let to. */
  lemma {:induction false} Drains(ss: seq<State>) returns (tt: seq<State>)
    requires Behaves(ss)
    ensures Behaves(tt) && ss <= tt && OnlyFinishes(tt, |ss|) && AllIdle(tt[|tt| - 1])
    decreases AllLeft(ss[|ss| - 1].pcs)
  {
    hide Step, Init, AllLeft, Inv, Finishes, AllIdle;
    var s := ss[|ss| - 1];
    if AllIdle(s) {
      tt := ss;
    } else {
      AlwaysInv(ss);
      var t := SomeoneCanStep(s);
      InvIsSensible(s);
      StepLeavesLess(s, t);
      Continues(ss, t);
      tt := Drains(ss + [t]);
      forall k | |ss| <= k < |tt| ensures Finishes(tt[k - 1], tt[k]) {
        if k == |ss| {
          assert tt[k - 1] == (ss + [t])[k - 1] && tt[k] == (ss + [t])[k];
        }
      }
    }
  }
}
