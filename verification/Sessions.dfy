/**
 Listening to one connection run after run, paused from anywhere at any moment (ListenerListen.go): what the pause
 channels do, together with what the runs read.
 */
module Sessions {
  import opened Bytes
  import opened Listeners
  import FrameReading
  import P = PauseChannels

  /** `cuts[i]` is how many frames run i has taken, `heard` what all runs together have made of the stream. */
  datatype State = State(control: P.State, heard: Listened, cuts: seq<nat>)

  function Start(stream: seq<byte>): State {
    State(P.START, Listened(NO_MESSAGE, [], NoError, stream), [])
  }

  /** Run i takes one turn: the frame it reads is routed, or it is the run's own error. */
  predicate Turn(c: Config, s: State, i: nat, t: State, utf8: seq<byte> -> bool) {
    var l := Listening(c, s.heard.assembly, s.heard.rest, 1, utf8);
    && s.heard.err == NoError && i < |s.cuts|
    && t.heard == l.(calls := s.heard.calls + l.calls)
    && t.cuts == s.cuts[i := s.cuts[i] + 1]
  }

  predicate Step(c: Config, s: State, a: P.Action, t: State, utf8: seq<byte> -> bool) {
    && P.Step(s.control, a, t.control)
    && match a
       case HandlesFrame(i) => Turn(c, s, i, t, utf8) && t.heard.err == NoError
       case ReadFails(i, _) =>
         && Turn(c, s, i, t, utf8)
         && !FrameReading.ReadFrame(s.heard.rest, NextLimit(c, s.heard.assembly)).ReadOk?
       case FailsByItself(i, _) =>
         || (t.heard == s.heard && t.cuts == s.cuts) // no deadline could be set
         || (&& Turn(c, s, i, t, utf8) && t.heard.err != NoError
             && FrameReading.ReadFrame(s.heard.rest, NextLimit(c, s.heard.assembly)).ReadOk?)
       case Listen => t.heard == s.heard && t.cuts == if s.control.claim.Some? then s.cuts else s.cuts + [0]
       case _ => t.heard == s.heard && t.cuts == s.cuts
  }

  predicate AllOver(s: P.State) {
    forall i | 0 <= i < |s.runs| :: P.Over(s.runs[i])
  }

  ghost predicate Next(c: Config, s: State, t: State, utf8: seq<byte> -> bool) {
    exists a :: Step(c, s, a, t, utf8) && (a.Listen? ==> AllOver(s.control))
  }

  /** Any calls of Listen and PauseListen from any goroutines, each Listen after the run before it has returned. */
  ghost predicate Behaves(c: Config, stream: seq<byte>, ss: seq<State>, utf8: seq<byte> -> bool) {
    && ss != [] && ss[0] == Start(stream)
    && forall k | 0 < k < |ss| :: Next(c, ss[k - 1], ss[k], utf8)
  }

  // ----- what the runs together have heard

  lemma {:induction false} SumUpdate(ns: seq<nat>, i: nat)
    requires i < |ns|
    ensures Sum(ns[i := ns[i] + 1]) == Sum(ns) + 1
  {
    if i == 0 {
      assert ns[0 := ns[0] + 1][1..] == ns[1..];
    } else {
      assert ns[i := ns[i] + 1][1..] == ns[1..][i - 1 := ns[1..][i - 1] + 1];
      SumUpdate(ns[1..], i - 1);
    }
  }

  lemma {:induction false} SumSnoc(ns: seq<nat>)
    ensures Sum(ns + [0]) == Sum(ns)
  {
    if ns != [] {
      assert (ns + [0])[1..] == ns[1..] + [0];
      SumSnoc(ns[1..]);
    }
  }

  /** One uninterrupted run of as many turns has heard the same. */
  predicate HeardAsOne(c: Config, stream: seq<byte>, s: State, utf8: seq<byte> -> bool) {
    && s.heard == Listening(c, NO_MESSAGE, stream, Sum(s.cuts), utf8)
    && P.Inv(s.control) && P.Serial(s.control) && |s.cuts| == |s.control.runs|
  }

  lemma {:induction false} TurnIsOneMore(c: Config, stream: seq<byte>, s: State, i: nat, t: State,
                                         utf8: seq<byte> -> bool)
    requires s.heard == Listening(c, NO_MESSAGE, stream, Sum(s.cuts), utf8) && Turn(c, s, i, t, utf8)
    ensures t.heard == Listening(c, NO_MESSAGE, stream, Sum(t.cuts), utf8)
  {
    hide Listening;
    SumUpdate(s.cuts, i);
    PauseIsTransparent(c, NO_MESSAGE, stream, Sum(s.cuts), 1, utf8);
  }

  lemma {:induction false} StepHears(c: Config, stream: seq<byte>, s: State, a: P.Action, t: State,
                                     utf8: seq<byte> -> bool)
    requires s.heard == Listening(c, NO_MESSAGE, stream, Sum(s.cuts), utf8) && Step(c, s, a, t, utf8)
    ensures t.heard == Listening(c, NO_MESSAGE, stream, Sum(t.cuts), utf8)
  {
    hide Listening, Turn, P.Step, NextLimit, FrameReading.ReadFrame, Sum;
    if (a.HandlesFrame? || a.ReadFails? || a.FailsByItself?) && Turn(c, s, a.i, t, utf8) {
      TurnIsOneMore(c, stream, s, a.i, t, utf8);
    }
    SumSnoc(s.cuts);
  }

  lemma StepCounts(c: Config, s: State, a: P.Action, t: State, utf8: seq<byte> -> bool)
    requires Step(c, s, a, t, utf8) && |s.cuts| == |s.control.runs|
    ensures |t.cuts| == |t.control.runs|
  {
    hide Listening, NextLimit, FrameReading.ReadFrame, P.Receive, P.CanSend;
  }

  lemma StepIsControl(c: Config, s: State, a: P.Action, t: State, utf8: seq<byte> -> bool)
    requires Step(c, s, a, t, utf8) && (a.Listen? ==> AllOver(s.control))
    ensures P.SerialNext(s.control, t.control)
  {
    hide P.Step, Turn, NextLimit, FrameReading.ReadFrame;
    assert P.Step(s.control, a, t.control);
  }

  lemma NextHears(c: Config, stream: seq<byte>, s: State, t: State, utf8: seq<byte> -> bool)
    requires HeardAsOne(c, stream, s, utf8) && Next(c, s, t, utf8)
    ensures HeardAsOne(c, stream, t, utf8)
  {
    hide Step, P.Step, P.Inv, P.Serial, P.Over, Listening, Sum;
    var a :| Step(c, s, a, t, utf8) && (a.Listen? ==> AllOver(s.control));
    StepHears(c, stream, s, a, t, utf8);
    StepCounts(c, s, a, t, utf8);
    StepIsControl(c, s, a, t, utf8);
    P.SerialKept(s.control, t.control);
  }

  lemma StartHears(c: Config, stream: seq<byte>, utf8: seq<byte> -> bool)
    ensures HeardAsOne(c, stream, Start(stream), utf8)
  {
    P.SerialAtStart();
  }

  lemma {:induction false} AlwaysHeardAsOne(c: Config, stream: seq<byte>, ss: seq<State>, utf8: seq<byte> -> bool)
    requires Behaves(c, stream, ss, utf8)
    ensures HeardAsOne(c, stream, ss[|ss| - 1], utf8)
    decreases |ss|
  {
    hide HeardAsOne, Next;
    var k := |ss| - 1;
    if k == 0 {
      StartHears(c, stream, utf8);
    } else {
      assert Behaves(c, stream, ss[..k], utf8);
      AlwaysHeardAsOne(c, stream, ss[..k], utf8);
      NextHears(c, stream, ss[k - 1], ss[k], utf8);
    }
  }

  /**
   Whenever and from wherever a run is paused: up to the first error of a run's own, the runs take consecutive
   stretches of the stream, and all hook calls together are those of one run that nobody paused.
   */
  lemma {:induction false} PauseTimingIsTransparent(c: Config, stream: seq<byte>, ss: seq<State>, s: State,
                                                    utf8: seq<byte> -> bool)
    requires Behaves(c, stream, ss, utf8) && s == ss[|ss| - 1]
    ensures s.heard == Sittings(c, NO_MESSAGE, stream, s.cuts, utf8)
    ensures s.heard == Listening(c, NO_MESSAGE, stream, Sum(s.cuts), utf8)
  {
    AlwaysHeardAsOne(c, stream, ss, utf8);
    PausesAreTransparent(c, NO_MESSAGE, stream, s.cuts, utf8);
  }

  lemma {:induction false} FailedReadIsError(c: Config, a: Assembly, s: seq<byte>, utf8: seq<byte> -> bool)
    ensures !FrameReading.ReadFrame(s, NextLimit(c, a)).ReadOk? ==> Listening(c, a, s, 1, utf8).err != NoError
  {
    hide FrameReading.ReadFrame, NextLimit, Route, FaultOf;
  }

  /** What the reading run does next, by how its turn came out and whether the frame could be read. */
  function Decided(i: nat, own: P.Error, err: ListenError, read: bool): P.Action {
    if err == NoError then P.HandlesFrame(i) else if read then P.FailsByItself(i, own) else P.ReadFails(i, own)
  }

  lemma ControlFollows(s: P.State, i: nat, own: P.Error, err: ListenError, read: bool) returns (t: P.State)
    requires i < |s.runs| && s.runs[i].Reading? && own != []
    ensures P.Step(s, Decided(i, own, err, read), t)
  {
    var r := if err == NoError then P.AtSelect else if read then P.Leaving(own, own) else P.ReadFailed(own);
    t := s.(runs := s.runs[i := r]);
  }

  lemma TurnIsTaken(c: Config, s: State, i: nat, own: P.Error, utf8: seq<byte> -> bool)
    returns (a: P.Action, t: State)
    requires s.heard.err == NoError && own != [] && |s.cuts| == |s.control.runs|
    requires i < |s.control.runs| && s.control.runs[i].Reading?
    ensures Step(c, s, a, t, utf8) && Turn(c, s, i, t, utf8) && t.cuts == s.cuts[i := s.cuts[i] + 1]
    ensures a == Decided(i, own, t.heard.err,
                         FrameReading.ReadFrame(s.heard.rest, NextLimit(c, s.heard.assembly)).ReadOk?)
  {
    FailedReadIsError(c, s.heard.assembly, s.heard.rest, utf8);
    hide P.Step, Listening, FrameReading.ReadFrame, NextLimit;
    var l := Listening(c, s.heard.assembly, s.heard.rest, 1, utf8);
    var read := FrameReading.ReadFrame(s.heard.rest, NextLimit(c, s.heard.assembly)).ReadOk?;
    var control := ControlFollows(s.control, i, own, l.err, read);
    a := Decided(i, own, l.err, read);
    t := State(control, l.(calls := s.heard.calls + l.calls), s.cuts[i := s.cuts[i] + 1]);
  }

  lemma {:induction false} HeardSoFar(c: Config, stream: seq<byte>, ss: seq<State>, s: State, utf8: seq<byte> -> bool)
    requires Behaves(c, stream, ss, utf8) && s == ss[|ss| - 1]
    ensures s.heard == Listening(c, NO_MESSAGE, stream, Sum(s.cuts), utf8) && |s.cuts| == |s.control.runs|
  {
    hide P.Inv, P.Serial, Listening, Sum, Next;
    AlwaysHeardAsOne(c, stream, ss, utf8);
  }

  /**
   While nothing has gone wrong the stream decides what the reading run does next: it takes the next frame, or fails
   over it, or fails to read one.
   */
  lemma {:induction false} StreamDecides(c: Config, stream: seq<byte>, ss: seq<State>, s: State, i: nat,
                                         own: P.Error, utf8: seq<byte> -> bool)
    returns (a: P.Action, t: State)
    requires Behaves(c, stream, ss, utf8) && s == ss[|ss| - 1] && s.heard.err == NoError && own != []
    requires i < |s.control.runs| && s.control.runs[i].Reading?
    ensures Step(c, s, a, t, utf8) && |s.cuts| > i && t.cuts == s.cuts[i := s.cuts[i] + 1]
    ensures t.heard == Listening(c, NO_MESSAGE, stream, Sum(s.cuts) + 1, utf8)
    ensures a == Decided(i, own, t.heard.err,
                         FrameReading.ReadFrame(s.heard.rest, NextLimit(c, s.heard.assembly)).ReadOk?)
  {
    hide *;
    HeardSoFar(c, stream, ss, s, utf8);
    a, t := TurnIsTaken(c, s, i, own, utf8);
    TurnIsOneMore(c, stream, s, i, t, utf8);
    SumUpdate(s.cuts, i);
  }

  /** The errors a run ends with, each of its own errors standing for the causes it has. */
  function Causes(end: Ended, causes: ListenError -> P.Error): P.Error {
    match end
    case ByPause(pause) => pause
    case ByItself(err) => causes(err)
    case Joined(pause, err) => pause + causes(err)
  }

  /** The loop's answer to a failed read is what the run then returns: its claim's release, if any, joined with it. */
  lemma EndedAsSettled(ss: seq<P.State>, s: P.State, i: nat, t: P.State, err: ListenError,
                       causes: ListenError -> P.Error)
    requires P.Behaves(ss) && s == ss[|ss| - 1] && P.Step(s, P.Settles(i), t) && s.runs[i].own == causes(err)
    ensures i < |s.chans| && t.runs[i] == P.Leaving(Causes(ReadEnded(err, P.Receive(s.chans[i])), causes), causes(err))
    ensures s.claim.None? || s.claim.value != i ==>
              s.chans[i].release.Some? && t.runs[i].result == s.chans[i].release.value + causes(err)
  {
    P.LooksFindTheRelease(ss, s, i, t);
    P.AlwaysInv(ss);
  }

  lemma ReaderIsLatest(s: P.State, a: P.Action, t: P.State)
    requires P.Serial(s) && P.Step(s, a, t)
    ensures a.HandlesFrame? || a.ReadFails? || a.FailsByItself? ==> |s.runs| > 0 && a.i == |s.runs| - 1
  {
    hide P.Receive, P.CanSend;
  }

  lemma CutsFollowTurns(c: Config, s: State, a: P.Action, t: State, utf8: seq<byte> -> bool)
    requires Step(c, s, a, t, utf8)
    ensures (t.heard == s.heard && (t.cuts == s.cuts || t.cuts == s.cuts + [0]))
            || ((a.HandlesFrame? || a.ReadFails? || a.FailsByItself?)
                && a.i < |s.cuts| && t.cuts == s.cuts[a.i := s.cuts[a.i] + 1])
  {
    hide P.Step, Listening, NextLimit, FrameReading.ReadFrame;
  }

  /** Only the latest run takes frames: a run that is over took its stretch before the next one began. */
  lemma OnlyTheLatestReads(c: Config, stream: seq<byte>, ss: seq<State>, s: State, a: P.Action, t: State,
                           utf8: seq<byte> -> bool)
    requires Behaves(c, stream, ss, utf8) && s == ss[|ss| - 1] && Step(c, s, a, t, utf8)
    ensures |s.cuts| <= |t.cuts| && forall i | 0 <= i < |s.cuts| - 1 :: t.cuts[i] == s.cuts[i]
    ensures t.heard != s.heard ==> |s.cuts| > 0 && t.cuts == s.cuts[|s.cuts| - 1 := s.cuts[|s.cuts| - 1] + 1]
  {
    hide P.Step, Next, Listening, Turn, P.Inv, P.Serial, Sum;
    AlwaysHeardAsOne(c, stream, ss, utf8);
    ReaderIsLatest(s.control, a, t.control);
    CutsFollowTurns(c, s, a, t, utf8);
  }
}
