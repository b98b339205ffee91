/** Listen and PauseListen from any number of goroutines (ListenerListen.go). Each hold of listenLocker is one step. */
module PauseChannels {
  import opened Sending

  /** An error as its causes: nil is [], and errors.Join puts the causes of both together. */
  type Error = seq<nat>

  /** A pauseChan: what waits in it, and a history of what was done to it and who released the claim with what. */
  datatype Chan = Chan(value: Option<Error>, closed: bool, sends: nat, closes: nat, release: Option<Error>)

  /** Run i watches channel i. `own` is the error the run met by itself, nil if it only saw a pause. */
  datatype Run =
    | AtSelect
    | Reading
    | ReadFailed(own: Error)
    | Leaving(result: Error, own: Error)
    | Returned(result: Error, own: Error)

  /** `claim` is the Listener's pauseChan. `stuck` says a send blocked, or a send or close met a closed channel. */
  datatype State = State(chans: seq<Chan>, claim: Option<nat>, runs: seq<Run>, stuck: bool)

  datatype Action =
    | Listen
    | Pause(err: Error)
    | Poll(i: nat)
    | HandlesFrame(i: nat)
    | FailsByItself(i: nat, own: Error)
    | ReadFails(i: nat, own: Error)
    | Settles(i: nat)
    | Leaves(i: nat)

  /** Send on a channel with room for one. */
  predicate CanSend(ch: Chan) {
    !ch.closed && ch.value.None?
  }

  /** pauseListen: hand err over, close the channel, release the claim. */
  function Paused(s: State, err: Error): State {
    if s.claim.None? || s.claim.value >= |s.chans| then s
    else
      var k := s.claim.value;
      var ch := s.chans[k];
      var sent := if err == [] then ch else ch.(value := Some(err), sends := ch.sends + 1);
      State(s.chans[k := sent.(closed := true, closes := ch.closes + 1, release := Some(err))], None, s.runs,
            s.stuck || (err != [] && !CanSend(ch)) || ch.closed)
  }

  /** What a receive that does not wait finds: a value, the close, or nothing. */
  datatype Received = Nothing | Got(err: Error)

  function Receive(ch: Chan): Received {
    match ch.value
    case Some(err) => Got(err)
    case None => if ch.closed then Got([]) else Nothing
  }

  function Drained(s: State, i: nat, r: Run): State
    requires i < |s.runs| && i < |s.chans|
  {
    s.(chans := s.chans[i := s.chans[i].(value := None)], runs := s.runs[i := r])
  }

  predicate Step(s: State, a: Action, t: State) {
    match a
    case Listen =>
      t == if s.claim.Some? then s // ErrListenerIsListening
           else s.(chans := s.chans + [Chan(None, false, 0, 0, None)], claim := Some(|s.chans|),
               runs := s.runs + [AtSelect])
    case Pause(err) => t == Paused(s, err)
    case Poll(i) =>
      && i < |s.runs| && i < |s.chans| && s.runs[i].AtSelect?
      && t == (match Receive(s.chans[i])
               case Got(err) => Drained(s, i, Leaving(err, []))
               case Nothing => s.(runs := s.runs[i := Reading]))
    case HandlesFrame(i) => i < |s.runs| && s.runs[i].Reading? && t == s.(runs := s.runs[i := AtSelect])
    case FailsByItself(i, own) =>
      && i < |s.runs| && s.runs[i].Reading? && own != []
      && t == s.(runs := s.runs[i := Leaving(own, own)])
    case ReadFails(i, own) =>
      i < |s.runs| && s.runs[i].Reading? && own != [] && t == s.(runs := s.runs[i := ReadFailed(own)])
    case Settles(i) =>
      && i < |s.runs| && i < |s.chans| && s.runs[i].ReadFailed?
      && var own := s.runs[i].own;
         t == (match Receive(s.chans[i])
               case Got(err) => Drained(s, i, Leaving(err + own, own))
               case Nothing => s.(runs := s.runs[i := Leaving(own, own)]))
    case Leaves(i) => // the deferred pauseListen(nil)
      && i < |s.runs| && s.runs[i].Leaving?
      && var u := Paused(s, []);
         t == u.(runs := u.runs[i := Returned(s.runs[i].result, s.runs[i].own)])
  }

  const START: State := State([], None, [], false)

  /** A channel nobody has released is empty and open; a released one was closed once, after at most one send. */
  predicate ChanOk(ch: Chan, claimed: bool) {
    if claimed then ch == Chan(None, false, 0, 0, None)
    else
      && ch.closed && ch.closes == 1 && ch.release.Some?
      && ch.sends == (if ch.release.value == [] then 0 else 1)
      && (ch.value.Some? ==> ch.value == ch.release && ch.release.value != [])
  }

  predicate Explained(result: Error, own: Error, ch: Chan) {
    if own == [] then ch.release == Some(result)
    else result == own || (ch.release.Some? && result == ch.release.value + own)
  }

  /** What the run has still to find in its channel, or what it made of it. */
  predicate RunOk(r: Run, ch: Chan) {
    match r
    case Leaving(result, own) => Explained(result, own, ch)
    case Returned(result, own) => Explained(result, own, ch) && ch.release.Some?
    case _ => (r.ReadFailed? ==> r.own != []) && (ch.release.Some? ==> Receive(ch) == Got(ch.release.value))
  }

  predicate Inv(s: State) {
    && !s.stuck && |s.runs| == |s.chans|
    && (s.claim.Some? ==> s.claim.value < |s.chans|)
    && (forall k | 0 <= k < |s.chans| :: ChanOk(s.chans[k], s.claim == Some(k)))
    && (forall i | 0 <= i < |s.runs| :: RunOk(s.runs[i], s.chans[i]))
  }

  lemma PausedKeepsInv(s: State, err: Error)
    requires Inv(s)
    ensures Inv(Paused(s, err)) && Paused(s, err).claim == None
  {}

  /** A step that only touches run i and what waits in its channel. */
  lemma OwnStepKeepsInv(s: State, i: nat, t: State)
    requires Inv(s) && i < |s.runs|
    requires |t.runs| == |s.runs| && |t.chans| == |s.chans|
    requires t == s.(runs := s.runs[i := t.runs[i]], chans := t.chans)
    requires t.chans == s.chans || t.chans == s.chans[i := s.chans[i].(value := None)]
    requires RunOk(t.runs[i], t.chans[i])
    ensures Inv(t)
  {}

  lemma InvKept(s: State, a: Action, t: State)
    requires Inv(s) && Step(s, a, t)
    ensures Inv(t)
  {
    match a
    case Listen =>
      if s.claim.None? {
        var n := |s.chans|;
        forall j | 0 <= j < n + 1 ensures ChanOk(t.chans[j], t.claim == Some(j)) && RunOk(t.runs[j], t.chans[j]) {
          if j < n {
            assert ChanOk(s.chans[j], s.claim == Some(j)) && RunOk(s.runs[j], s.chans[j]);
          }
        }
      }
    case Pause(err) => PausedKeepsInv(s, err);
    case Leaves(i) =>
      var u := Paused(s, []);
      PausedKeepsInv(s, []);
      assert u.runs == s.runs && t.runs[i] == Returned(u.runs[i].result, u.runs[i].own);
      assert RunOk(u.runs[i], u.chans[i]) && ChanOk(u.chans[i], u.claim == Some(i));
      OwnStepKeepsInv(u, i, t);
    case _ =>
      var i := a.i;
      assert RunOk(s.runs[i], s.chans[i]) && ChanOk(s.chans[i], s.claim == Some(i));
      OwnStepKeepsInv(s, i, t);
  }

  ghost predicate Next(s: State, t: State) {
    exists a :: Step(s, a, t)
  }

  ghost predicate Behaves(ss: seq<State>) {
    && ss != [] && ss[0] == START
    && forall k | 0 < k < |ss| :: Next(ss[k - 1], ss[k])
  }

  lemma StartInv()
    ensures Inv(START)
  {}

  lemma {:induction false} AlwaysInv(ss: seq<State>)
    requires Behaves(ss)
    ensures Inv(ss[|ss| - 1])
  {
    hide Inv, Step;
    var k := |ss| - 1;
    if k == 0 {
      StartInv();
    } else {
      assert Behaves(ss[..k]);
      AlwaysInv(ss[..k]);
      assert Next(ss[k - 1], ss[k]);
      var a :| Step(ss[k - 1], a, ss[k]);
      InvKept(ss[k - 1], a, ss[k]);
    }
  }

  /**
   Over every interleaving: the channel a pause sends to and closes is open and empty, so no send blocks and no closed
   channel is sent to or closed again; and there is one claim at a time.
   */
  lemma ChannelsAreSafe(ss: seq<State>, s: State)
    requires Behaves(ss) && s == ss[|ss| - 1]
    ensures !s.stuck
    ensures s.claim.Some? ==>
              s.claim.value < |s.chans| && !s.chans[s.claim.value].closed && s.chans[s.claim.value].value == None
    ensures forall k | 0 <= k < |s.chans| :: s.chans[k].sends <= 1 && s.chans[k].closes <= 1
    ensures forall j, k | 0 <= j < |s.chans| && 0 <= k < |s.chans| && !s.chans[j].closed && !s.chans[k].closed :: j == k
  {
    AlwaysInv(ss);
  }

  /** Listen is refused exactly while some channel is still open, and then changes nothing. */
  lemma ListenNeedsTheClaim(ss: seq<State>, s: State, t: State)
    requires Behaves(ss) && s == ss[|ss| - 1] && Step(s, Listen, t)
    ensures t == s <==> exists k :: 0 <= k < |s.chans| && !s.chans[k].closed
  {
    AlwaysInv(ss);
    if s.claim.Some? {
      assert ChanOk(s.chans[s.claim.value], true);
    } else {
      assert |t.chans| == |s.chans| + 1;
    }
  }

  /**
   A run that met no error of its own returns exactly what the first call that released its claim was given;
   one whose read failed returns that error, joined with the pause it found waiting, if any.
   */
  lemma RunReturnsTheFirstPause(ss: seq<State>, s: State, i: nat)
    requires Behaves(ss) && s == ss[|ss| - 1] && i < |s.runs| && s.runs[i].Returned?
    ensures i < |s.chans| && s.chans[i].release.Some?
    ensures s.runs[i].own == [] ==> s.runs[i].result == s.chans[i].release.value
    ensures s.runs[i].own != [] ==>
              s.runs[i].result == s.runs[i].own || s.runs[i].result == s.chans[i].release.value + s.runs[i].own
  {
    AlwaysInv(ss);
    assert RunOk(s.runs[i], s.chans[i]);
  }

  /**
   What a run finds when it looks: released before the look, its claim's release, alone or in front of its own error;
   otherwise nothing. Its return leaves no claim held.
   */
  lemma LooksFindTheRelease(ss: seq<State>, s: State, i: nat, t: State)
    requires Behaves(ss) && s == ss[|ss| - 1] && i < |s.runs|
    ensures i < |s.chans| && (s.claim == Some(i) <==> s.chans[i].release.None?)
    ensures Step(s, Poll(i), t) ==>
              t.runs[i] == if s.claim == Some(i) then Reading else Leaving(s.chans[i].release.value, [])
    ensures Step(s, Settles(i), t) ==>
              var own := s.runs[i].own;
              t.runs[i] == Leaving(if s.claim == Some(i) then own else s.chans[i].release.value + own, own)
    ensures Step(s, Leaves(i), t) ==> t.runs[i].Returned? && t.claim == None
  {
    AlwaysInv(ss);
    assert RunOk(s.runs[i], s.chans[i]) && ChanOk(s.chans[i], s.claim == Some(i));
  }

  /** What a run is about to return is what it returns. */
  lemma ResultIsFinal(s: State, a: Action, t: State, i: nat)
    requires i < |s.runs| && (s.runs[i].Leaving? || s.runs[i].Returned?) && Step(s, a, t)
    ensures i < |t.runs| && (t.runs[i] == s.runs[i] || t.runs[i] == Returned(s.runs[i].result, s.runs[i].own))
  {
    hide Receive, CanSend;
  }

  /** Who released a claim, and with what, is settled once: no later call overwrites it. */
  lemma ReleaseIsFinal(ss: seq<State>, s: State, a: Action, t: State, k: nat)
    requires Behaves(ss) && s == ss[|ss| - 1] && Step(s, a, t)
    requires k < |s.chans| && s.chans[k].release.Some?
    ensures k < |t.chans| && t.chans[k].release == s.chans[k].release
  {
    AlwaysInv(ss);
    assert ChanOk(s.chans[k], s.claim == Some(k));
  }

  // ----- runs that overlap, and runs that do not

  predicate Over(r: Run) {
    r.Returned?
  }

  /** Every run but the last is over. */
  predicate Serial(s: State) {
    forall i | 0 <= i < |s.runs| - 1 :: Over(s.runs[i])
  }

  ghost predicate SerialNext(s: State, t: State) {
    exists a :: Step(s, a, t) && (a.Listen? ==> forall i | 0 <= i < |s.runs| :: Over(s.runs[i]))
  }

  /** Listen is called again only after the last run has returned. */
  ghost predicate BehavesSerially(ss: seq<State>) {
    && ss != [] && ss[0] == START
    && forall k | 0 < k < |ss| :: SerialNext(ss[k - 1], ss[k])
  }

  lemma SerialKept(s: State, t: State)
    requires Inv(s) && Serial(s) && SerialNext(s, t)
    ensures Inv(t) && Serial(t)
  {
    var a :| Step(s, a, t) && (a.Listen? ==> forall i | 0 <= i < |s.runs| :: Over(s.runs[i]));
    InvKept(s, a, t);
  }

  lemma SerialAtStart()
    ensures Inv(START) && Serial(START)
  {}

  lemma {:induction false} AlwaysSerial(ss: seq<State>)
    requires BehavesSerially(ss)
    ensures Inv(ss[|ss| - 1]) && Serial(ss[|ss| - 1])
  {
    hide Inv, Serial, SerialNext;
    var k := |ss| - 1;
    if k == 0 {
      SerialAtStart();
    } else {
      assert BehavesSerially(ss[..k]);
      AlwaysSerial(ss[..k]);
      SerialKept(ss[k - 1], ss[k]);
    }
  }

  /** Runs that do not overlap leave each other alone: a run's own return never releases another run's claim. */
  lemma SerialRunsReleaseTheirOwn(ss: seq<State>, s: State, i: nat, t: State)
    requires BehavesSerially(ss) && s == ss[|ss| - 1] && Step(s, Leaves(i), t)
    ensures s.claim == None || s.claim == Some(i)
    ensures |t.chans| == |s.chans| && forall k | 0 <= k < |s.chans| && k != i :: t.chans[k] == s.chans[k]
  {
    AlwaysSerial(ss);
    if s.claim.Some? {
      var k := s.claim.value;
      assert ChanOk(s.chans[k], true) && RunOk(s.runs[k], s.chans[k]);
      assert !Over(s.runs[k]) && !Over(s.runs[i]);
    }
  }

  /** What may follow s. */
  ghost predicate Follows(ss: seq<State>, s: State) {
    ss != [] && ss[0] == s && forall k | 0 < k < |ss| :: Next(ss[k - 1], ss[k])
  }

  /** The deferred release of run i closes the channel of run k. */
  predicate EndsAnother(s: State, i: nat, t: State, k: nat) {
    && i != k && Step(s, Leaves(i), t)
    && k < |s.chans| && !s.chans[k].closed && k < |t.chans| && t.chans[k].closed
  }

  ghost predicate CanComeTo(s: State, u: State) {
    exists ss :: Follows(ss, s) && ss[|ss| - 1] == u
  }

  /** Some continuation of s has another run's return end run k. */
  ghost predicate CanBeEndedByAnother(s: State, k: nat) {
    exists u, i, t :: CanComeTo(s, u) && EndsAnother(u, i, t, k)
  }

  /** Some run besides k has not returned. */
  predicate AnotherIsAlive(s: State, k: nat) {
    exists i :: 0 <= i < |s.runs| && i != k && !Over(s.runs[i])
  }

  /** One step takes a live run to where only its deferred release is left. */
  lemma RunCanLeave(s: State, i: nat, k: nat) returns (ss: seq<State>)
    requires Inv(s) && s.claim == Some(k) && i < |s.runs| && i != k && !Over(s.runs[i])
    ensures Follows(ss, s) && ss[|ss| - 1].claim == Some(k) && k < |ss[|ss| - 1].chans| && !ss[|ss| - 1].chans[k].closed
    ensures i < |ss[|ss| - 1].runs| && ss[|ss| - 1].runs[i].Leaving?
  {
    assert ChanOk(s.chans[k], true);
    if s.runs[i].Leaving? {
      ss := [s];
    } else {
      var t;
      assert ChanOk(s.chans[i], false) && Receive(s.chans[i]).Got?;
      var err := Receive(s.chans[i]).err;
      if s.runs[i].AtSelect? {
        t := Drained(s, i, Leaving(err, []));
        assert Step(s, Poll(i), t);
      } else if s.runs[i].ReadFailed? {
        var own := s.runs[i].own;
        t := Drained(s, i, Leaving(err + own, own));
        assert Step(s, Settles(i), t);
      } else {
        t := s.(runs := s.runs[i := Leaving([0], [0])]);
        assert Step(s, FailsByItself(i, [0]), t);
      }
      ss := [s, t];
    }
  }

  /** Until its channel is closed, a run that is the only one alive stays the only one. */
  lemma StaysAlone(s: State, a: Action, t: State, k: nat)
    requires k < |s.chans| && Step(s, a, t)
    requires s.chans[k].closed || (s.claim == Some(k) && !AnotherIsAlive(s, k))
    ensures k < |t.chans| && (t.chans[k].closed || (t.claim == Some(k) && !AnotherIsAlive(t, k)))
  {}

  lemma {:induction false} AloneThroughout(ss: seq<State>, s: State, k: nat)
    requires Follows(ss, s) && k < |s.chans| && s.claim == Some(k) && !AnotherIsAlive(s, k)
    ensures var u := ss[|ss| - 1];
            k < |u.chans| && (u.chans[k].closed || (u.claim == Some(k) && !AnotherIsAlive(u, k)))
    decreases |ss|
  {
    hide Step, AnotherIsAlive;
    var n := |ss| - 1;
    if n > 0 {
      assert Follows(ss[..n], s);
      AloneThroughout(ss[..n], s, k);
      assert Next(ss[n - 1], ss[n]);
      var a :| Step(ss[n - 1], a, ss[n]);
      StaysAlone(ss[n - 1], a, ss[n], k);
    }
  }

  lemma LeavingEndsTheClaim(s: State, i: nat, k: nat)
    requires s.claim == Some(k) && k < |s.chans| && !s.chans[k].closed && i < |s.runs| && i != k && s.runs[i].Leaving?
    ensures exists t :: EndsAnother(s, i, t, k)
  {
    var u := Paused(s, []);
    var t := u.(runs := u.runs[i := Returned(s.runs[i].result, s.runs[i].own)]);
    assert EndsAnother(s, i, t, k);
  }

  lemma ClaimIsOpen(s: State, k: nat)
    requires Inv(s) && s.claim == Some(k)
    ensures k < |s.chans|
  {}

  lemma OnlyTheLivingEndOthers(s: State, i: nat, t: State, k: nat)
    requires EndsAnother(s, i, t, k)
    ensures k < |s.chans| && !s.chans[k].closed && AnotherIsAlive(s, k)
  {
    assert !Over(s.runs[i]);
  }

  /** A run can be ended by another run's return exactly when, now that it holds the claim, another has not returned. */
  lemma OverlapIsExact(ss: seq<State>, s: State, k: nat)
    requires Behaves(ss) && s == ss[|ss| - 1] && s.claim == Some(k)
    ensures CanBeEndedByAnother(s, k) <==> AnotherIsAlive(s, k)
  {
    AlwaysInv(ss);
    hide Inv, EndsAnother, Next;
    if AnotherIsAlive(s, k) {
      var i: nat :| i < |s.runs| && i != k && !Over(s.runs[i]);
      var tt := RunCanLeave(s, i, k);
      LeavingEndsTheClaim(tt[|tt| - 1], i, k);
      var t :| EndsAnother(tt[|tt| - 1], i, t, k);
      assert CanComeTo(s, tt[|tt| - 1]);
    }
    if CanBeEndedByAnother(s, k) {
      var u, i, t :| CanComeTo(s, u) && EndsAnother(u, i, t, k);
      var tt :| Follows(tt, s) && tt[|tt| - 1] == u;
      ClaimIsOpen(s, k);
      OnlyTheLivingEndOthers(u, i, t, k);
      if !AnotherIsAlive(s, k) {
        AloneThroughout(tt, s, k);
      }
    }
  }

  const OPEN: Chan := Chan(None, false, 0, 0, None)
  const CLOSED: Chan := Chan(None, true, 0, 1, Some([]))

  lemma StartBehaves()
    ensures Behaves([START])
  {}

  lemma Extended(ss: seq<State>, a: Action, t: State) returns (tt: seq<State>)
    requires Behaves(ss) && Step(ss[|ss| - 1], a, t)
    ensures Behaves(tt) && tt != [] && tt[|tt| - 1] == t
  {
    hide Step;
    tt := ss + [t];
    assert Next(ss[|ss| - 1], t);
    forall k | 0 < k < |tt| ensures Next(tt[k - 1], tt[k]) {
      if k < |ss| {
        assert tt[k - 1] == ss[k - 1] && tt[k] == ss[k];
      }
    }
  }

  /** A run is paused while parked in its read, and another one starts. */
  lemma OverlappingStart() returns (ss: seq<State>)
    ensures Behaves(ss) && ss != []
    ensures ss[|ss| - 1] == State([CLOSED, OPEN], Some(1), [Reading, AtSelect], false)
  {
    hide Behaves, Next;
    StartBehaves();
    ss := [START];
    ss := Extended(ss, Listen, State([OPEN], Some(0), [AtSelect], false));
    ss := Extended(ss, Poll(0), State([OPEN], Some(0), [Reading], false));
    ss := Extended(ss, Pause([]), State([CLOSED], None, [Reading], false));
    ss := Extended(ss, Listen, State([CLOSED, OPEN], Some(1), [Reading, AtSelect], false));
  }

  /** Overlapping ones do not: a paused run still parked in its read can end the run that came after it. */
  lemma OverlappingRunEndsTheNext() returns (ss: seq<State>)
    ensures Behaves(ss)
    ensures var s := ss[|ss| - 1];
            |s.runs| == |s.chans| == 2 && s.runs[1].AtSelect? && s.chans[1].closed && Over(s.runs[0])
  {
    hide Behaves, Next, Receive;
    ss := OverlappingStart();
    ss := Extended(ss, FailsByItself(0, [7]), State([CLOSED, OPEN], Some(1), [Leaving([7], [7]), AtSelect], false));
    ss := Extended(ss, Leaves(0), State([CLOSED, CLOSED], None, [Returned([7], [7]), AtSelect], false));
  }
}
