/** What a reader of the wire can rely on, whatever the goroutines of the other side do. */
module SenderRuns {
  import opened Bytes
  import opened Frames
  import opened FrameReading
  import opened Sending
  import opened Messages
  import opened Senders

  ghost predicate Reaches(ss: seq<State>, s: State) {
    Behaves(ss) && s == ss[|ss| - 1]
  }

  lemma ReachedInv(ss: seq<State>, s: State)
    requires Reaches(ss, s)
    ensures Inv(s)
  {
    AlwaysInv(ss);
  }

  // ----- opcodes the guard can see

  /** The header has four bits for an opcode, and the guard compares the whole byte. */
  predicate Seen(opcode: byte) {
    opcode < 16 || !(IsData(opcode % 16) || opcode % 16 == OPCODE_CLOSE)
  }

  predicate AllSeen(fs: seq<Frame>) {
    forall f | f in fs :: Seen(f.opcode)
  }

  lemma {:induction false} DataPartCons(f: Frame, fs: seq<Frame>)
    ensures DataPart([f] + fs) == (if IsData(f.opcode) then [FragmentOf(f)] else []) + DataPart(fs)
  {
    assert ([f] + fs)[1..] == fs;
  }

  lemma SeenOnWire(f: Frame)
    requires Seen(f.opcode)
    ensures IsData(OnWire(f).opcode) <==> IsData(f.opcode)
    ensures IsData(f.opcode) ==> OnWire(f) == f
  {}

  lemma {:induction false} DataPartOnWire(fs: seq<Frame>)
    requires AllSeen(fs)
    ensures DataPart(OnWireAll(fs)) == DataPart(fs)
  {
    if fs != [] {
      var f, tail := fs[0], fs[1..];
      assert f in fs;
      DataPartOnWire(tail);
      SeenOnWire(f);
      OnWireAllCons(f, tail);
      DataPartCons(f, tail);
      DataPartCons(OnWire(f), OnWireAll(tail));
      hide *;
      assert fs == [f] + tail;
    }
  }

  lemma {:induction false} DataPartOfPrefix(fs: seq<Frame>, gs: seq<Frame>)
    requires fs <= gs
    ensures DataPart(fs) <= DataPart(gs)
  {
    assert gs == fs + gs[|fs|..];
    DataPartAppend(fs, gs[|fs|..]);
  }

  lemma WireReadsAsLog(c: ConnState)
    requires Accounted(c)
    ensures ReadAll(c.wire) <= OnWireAll(c.log)
    ensures !c.failed && c.buffered == [] ==> ReadAll(c.wire) == OnWireAll(c.log)
  {
    assert c.wire <= c.Out();
    ReadAllOfCutStream(c.log, c.wire);
    if !c.failed && c.buffered == [] {
      assert c.wire == c.Out();
    }
  }

  // ----- one close, nothing after it

  lemma ClosesOnceOnWire(log: seq<Frame>, fs: seq<Frame>)
    requires AllSeen(log) && ClosesOnce(log) && fs <= OnWireAll(log)
    ensures ClosesOnce(fs)
  {}

  /** In every interleaving, with every failure: at most one close on the wire, and no data frame after it. */
  lemma CloseIsLast(ss: seq<State>, s: State)
    requires Reaches(ss, s) && AllSeen(s.conn.log)
    ensures ClosesOnce(ReadAll(s.conn.wire))
  {
    ReachedInv(ss, s);
    assert CloseKnown(s.conn) && Accounted(s.conn);
    hide Reaches, Inv, Accounted, ReadAll, OnWireAll;
    WireReadsAsLog(s.conn);
    ClosesOnceOnWire(s.conn.log, ReadAll(s.conn.wire));
  }

  lemma NothingOnTheWire()
    ensures WireAll([]) == [] && OnWireAll([]) == []
  {}

  lemma {:induction false} ReadAllAppend(fs: seq<Frame>, rest: seq<byte>)
    requires AllSealed(fs)
    ensures ReadAll(WireAll(fs) + rest) == OnWireAll(fs) + ReadAll(rest)
  {
    hide Wire, WireAll, OnWireAll, ReadAll, Sealed;
    if fs == [] {
      NothingOnTheWire();
      assert [] + rest == rest && [] + ReadAll(rest) == ReadAll(rest);
    } else {
      var f, tail := fs[0], fs[1..];
      assert fs == [f] + tail;
      WireAllCons(f, tail);
      OnWireAllCons(f, tail);
      ReadAllAppend(tail, rest);
      AppendAssociates(Wire(f), WireAll(tail), rest);
      ReadAllCons(f, WireAll(tail) + rest);
      AppendAssociates([OnWire(f)], OnWireAll(tail), ReadAll(rest));
    }
  }

  lemma OnTheWireIsRead(c: ConnState, n: nat)
    requires Accounted(c) && OnTheWire(c, n)
    ensures n <= |ReadAll(c.wire)| && ReadAll(c.wire)[..n] == OnWireAll(c.log)[..n]
  {
    var rest := c.wire[|WireAll(c.log[..n])|..];
    assert c.wire == WireAll(c.log[..n]) + rest;
    ReadAllAppend(c.log[..n], rest);
    assert OnWireAll(c.log[..n]) == OnWireAll(c.log)[..n];
  }

  // ----- whole messages

  /** The data frames the owner of the message lock has added, by where it is. */
  function Own(pc: PC): seq<Fragment> {
    match pc
    case DataHeld(op, chunks, marks, _) =>
      if |marks| <= |chunks| then MessageOf(op, chunks[..|marks|], |marks| == |chunks|) else []
    case DataDone(op, chunks, marks, _) =>
      if |marks| <= |chunks| then MessageOf(op, chunks[..|marks|], |marks| == |chunks|) else []
    case Stream(op, sent, phase) => MessageOf(op, sent, phase.Ended?)
    case StreamSend(op, sent, _, _, _) => MessageOf(op, sent, false)
    case _ => []
  }

  /** ms is whole messages, then part of what this goroutine has added, the rest of it being unfinished. */
  predicate EndsInOwn(ms: seq<Fragment>, base: seq<Fragment>, own: seq<Fragment>) {
    && base <= ms <= base + own && Remainder(base) == []
    && Remainder(ms) <= own && (Remainder(ms) != [] ==> ms == base + Remainder(ms))
  }

  lemma RemainderOfPart(op: byte, ps: seq<seq<byte>>, done: bool, m: nat)
    requires OpensMessage(op) && m <= |ps|
    ensures var part := MessageOf(op, ps, done)[..m]; Remainder(part) == [] || Remainder(part) == part
  {
    var part := MessageOf(op, ps, done)[..m];
    if m == |ps| && m > 0 && done {
      MessageOfIsMessage(op, ps);
      assert part == MessageOf(op, ps, done) && part + [] == part;
      CompleteStep(part, []);
    } else {
      assert NoneFinal(part);
    }
  }

  lemma {:induction false} NoRemainder(ms: seq<Fragment>)
    ensures Conforms(ms) && Run(Between, ms) == Between ==> Remainder(ms) == []
    ensures Remainder([]) == []
  {
    ConformsIffLegal(ms);
  }

  lemma {:induction false} PartOfOwn(ms: seq<Fragment>, base: seq<Fragment>, op: byte, ps: seq<seq<byte>>, done: bool)
    requires Run(Between, base) == Between && (OpensMessage(op) || ps == [])
    requires base <= ms <= base + MessageOf(op, ps, done)
    ensures EndsInOwn(ms, base, MessageOf(op, ps, done))
  {
    hide Run, Remainder;
    var own, m := MessageOf(op, ps, done), |ms| - |base|;
    assert ms == base + own[..m];
    ConformsIffLegal(base);
    NoRemainder(base);
    RemainderAfter(base, own[..m]);
    if ps == [] {
      assert own[..m] == [];
      NoRemainder([]);
    } else {
      RemainderOfPart(op, ps, done, m);
    }
  }

  lemma BaseIsRead(s: State)
    requires Accounted(s.conn) && AllSeen(s.conn.log) && OnTheWire(s.conn, s.taken)
    ensures DataPart(s.conn.log[..s.taken]) <= DataPart(ReadAll(s.conn.wire))
  {
    hide ReadAll, WireAll, Accounted, DataPart;
    var log, fs, n := s.conn.log, ReadAll(s.conn.wire), s.taken;
    OnTheWireIsRead(s.conn, n);
    assert OnWireAll(log)[..n] == OnWireAll(log[..n]);
    DataPartOnWire(log[..n]);
    DataPartOfPrefix(fs[..n], fs);
  }

  lemma OwnerAddsOwn(s: State, i: nat)
    requires Framing(s) && Locks(s) && AllSensible(s) && s.clean && !s.conn.failed && !s.conn.closeSent
    requires s.dataOwner == Some(i)
    ensures i < |s.pcs| && DataPart(s.conn.log) == s.base + Own(s.pcs[i]) && Run(Between, s.base) == Between
    ensures forall ms | s.base <= ms <= s.base + Own(s.pcs[i]) :: EndsInOwn(ms, s.base, Own(s.pcs[i]))
  {
    hide Run, DataPart, MessageOf, EndsInOwn;
    var pc := s.pcs[i];
    assert Sensible(pc);
    forall ms | s.base <= ms <= s.base + Own(pc) ensures EndsInOwn(ms, s.base, Own(pc)) {
      match pc
      case DataHeld(op, chunks, marks, _) => PartOfOwn(ms, s.base, op, chunks[..|marks|], |marks| == |chunks|);
      case DataDone(op, chunks, marks, _) => PartOfOwn(ms, s.base, op, chunks[..|marks|], |marks| == |chunks|);
      case Stream(op, sent, phase) => PartOfOwn(ms, s.base, op, sent, phase.Ended?);
      case StreamSend(op, sent, _, _, _) => PartOfOwn(ms, s.base, op, sent, false);
    }
  }

  lemma FramingSays(s: State)
    requires Framing(s) && s.clean
    ensures Run(Between, DataPart(s.conn.log)) != Illegal
    ensures s.dataOwner.None? && !s.conn.closeSent && !s.conn.failed ==>
              Run(Between, DataPart(s.conn.log)) == Between && s.conn.buffered == []
  {
    hide Run, DataPart;
  }

  /** The start of what conforms conforms, and the whole of it ends between messages if the automaton does. */
  lemma {:induction false} StartConforms(ms: seq<Fragment>, all: seq<Fragment>)
    requires Run(Between, all) != Illegal && ms <= all
    ensures Conforms(ms) && (ms == all && Run(Between, all) == Between ==> Remainder(ms) == [])
  {
    hide Run, Conforms, Remainder;
    ConformsIffLegal(all);
    assert all == ms + all[|ms|..];
    ConformsPrefix(ms, all[|ms|..]);
  }

  lemma WireReadsData(c: ConnState)
    requires Accounted(c) && AllSeen(c.log)
    ensures DataPart(ReadAll(c.wire)) <= DataPart(c.log)
    ensures !c.failed && c.buffered == [] ==> DataPart(ReadAll(c.wire)) == DataPart(c.log)
  {
    hide Accounted, AllSeen, ReadAll, DataPart, OnWireAll;
    WireReadsAsLog(c);
    DataPartOnWire(c.log);
    DataPartOfPrefix(ReadAll(c.wire), OnWireAll(c.log));
  }

  lemma ReachedParts(ss: seq<State>, s: State)
    requires Reaches(ss, s)
    ensures Framing(s) && Locks(s) && AllSensible(s) && FoundOnWire(s) && Accounted(s.conn)
  {
    hide Framing, Locks, AllSensible, FoundOnWire, Accounted;
    ReachedInv(ss, s);
  }

  lemma WireConforms(ss: seq<State>, s: State)
    requires Reaches(ss, s) && s.clean && AllSeen(s.conn.log)
    ensures var ms := DataPart(ReadAll(s.conn.wire));
            && Conforms(ms) && ms <= DataPart(s.conn.log)
            && (Remainder(ms) != [] ==> s.dataOwner.Some? || s.conn.closeSent || s.conn.failed)
  {
    hide *;
    ReachedParts(ss, s);
    FramingSays(s);
    WireReadsData(s.conn);
    StartConforms(DataPart(ReadAll(s.conn.wire)), DataPart(s.conn.log));
  }

  /**
   Section 5.4 on the wire: whole messages, then at most one unfinished one, which is the very message the holder of
   dataFramesWriteLocker is sending; unless a close or the socket cut it off.
   */
  lemma MessagesAreWhole(ss: seq<State>, s: State)
    requires Reaches(ss, s) && s.clean && AllSeen(s.conn.log)
    ensures var ms := DataPart(ReadAll(s.conn.wire));
            && Conforms(ms)
            && (s.conn.closeSent || s.conn.failed
                || match s.dataOwner
                   case None => Remainder(ms) == []
                   case Some(i) => i < |s.pcs| && EndsInOwn(ms, s.base, Own(s.pcs[i])))
  {
    hide ReadAll, DataPart, Conforms, Remainder, Accounted, Reaches, EndsInOwn, Own, AllSeen, Run, OnTheWire, Framing,
         Locks, AllSensible;
    WireConforms(ss, s);
    ReachedParts(ss, s);
    if !s.conn.closeSent && !s.conn.failed && s.dataOwner.Some? {
      BaseIsRead(s);
      OwnerAddsOwn(s, s.dataOwner.value);
    }
  }

  lemma {:induction false} RemainderOfOwn(base: seq<Fragment>, op: byte, ps: seq<seq<byte>>)
    requires Run(Between, base) == Between && OpensMessage(op)
    ensures Remainder(base + MessageOf(op, ps, false)) == MessageOf(op, ps, false)
    ensures ps != [] ==> Remainder(base + MessageOf(op, ps, true)) == []
  {
    ConformsIffLegal(base);
    RemainderAfter(base, MessageOf(op, ps, false));
    if ps != [] {
      RunOfOwn(base, op, ps, true);
      ConformsIffLegal(base + MessageOf(op, ps, true));
    }
  }

  /**
   A stream between its calls: one frame on the wire for every non-empty chunk that was sent and, once ended, the
   final one, whose payloads join to those chunks. Nothing of it is buffered, and nothing else came in between.
   */
  lemma StreamIsConserved(ss: seq<State>, s: State, i: nat)
    requires Reaches(ss, s) && s.clean && !s.conn.failed && AllSeen(s.conn.log)
    requires i < |s.pcs| && s.pcs[i].Stream?
    ensures var Stream(op, sent, phase) := s.pcs[i];
            var message := MessageOf(op, sent, phase.Ended?);
            && DataPart(ReadAll(s.conn.wire)) == s.base + message
            && Join(message) == Flatten(sent)
            && (if phase.Ended? then WholeMessage(message) && NoneEmpty(sent[..|sent| - 1]) else NoneEmpty(sent))
            && (!s.conn.closeSent ==>
                  Remainder(s.base + message) == if phase.Ended? then [] else message)
  {
    ReachedInv(ss, s);
    var Stream(op, sent, phase) := s.pcs[i];
    assert Sensible(s.pcs[i]) && s.dataOwner == Some(i) && s.conn.buffered == [];
    hide Reaches, Locks, StreamFields, AllMarked, AllSensible, ReadAll, OnWireAll, DataPart, MessageOf, Remainder;
    WireReadsAsLog(s.conn);
    DataPartOnWire(s.conn.log);
    JoinMessageOf(op, sent, phase.Ended?);
    if phase.Ended? {
      MessageOfIsMessage(op, sent);
    }
    if !s.conn.closeSent {
      RemainderOfOwn(s.base, op, sent);
    }
  }

  /** currentTransmitDataMsgOpcode is non-zero exactly while some stream owns the message lock, and is its opcode. */
  lemma CurrentIffStream(ss: seq<State>, s: State)
    requires Reaches(ss, s)
    ensures s.current != 0 <==>
              exists i :: 0 <= i < |s.pcs| && (s.pcs[i].Stream? || s.pcs[i].StreamSend?)
    ensures forall i | 0 <= i < |s.pcs| && (s.pcs[i].Stream? || s.pcs[i].StreamSend?) ::
              s.dataOwner == Some(i) && s.current == s.pcs[i].op
  {
    ReachedInv(ss, s);
    hide Reaches, Sound, Framing, AllMarked;
    forall i | 0 <= i < |s.pcs| && (s.pcs[i].Stream? || s.pcs[i].StreamSend?)
      ensures s.dataOwner == Some(i) && s.current == s.pcs[i].op && s.current != 0
    {
      assert Sensible(s.pcs[i]) && HoldsDataLock(s.pcs[i]);
    }
  }

  lemma MarkRead(log: seq<Frame>, fs: seq<Frame>, n: nat, op: byte, chunks: seq<seq<byte>>, marks: seq<nat>, k: nat)
    requires Marks(log, op, chunks, marks) && |marks| == |chunks| && k < |chunks| && OpensMessage(op)
    requires marks[k] < n <= |fs| && n <= |log| && fs[..n] == OnWireAll(log)[..n]
    ensures FragmentOf(fs[marks[k]]) == MessageOf(op, chunks, true)[k]
  {}

  lemma MarksOnTheWire(c: ConnState, op: byte, chunks: seq<seq<byte>>, marks: seq<nat>)
    requires Accounted(c) && OpensMessage(op) && Marks(c.log, op, chunks, marks)
    requires chunks != [] && |marks| == |chunks| && OnTheWire(c, marks[|marks| - 1] + 1)
    ensures var fs := ReadAll(c.wire);
            forall k | 0 <= k < |chunks| ::
              marks[k] < |fs| && FragmentOf(fs[marks[k]]) == MessageOf(op, chunks, true)[k]
  {
    hide ReadAll, FragmentOf, OnWireAll, ChunkFrame, WireAll, Accounted;
    var fs, n := ReadAll(c.wire), marks[|marks| - 1] + 1;
    OnTheWireIsRead(c, n);
    forall k | 0 <= k < |chunks| ensures marks[k] < |fs| && FragmentOf(fs[marks[k]]) == MessageOf(op, chunks, true)[k] {
      assert marks[k] < n;
      MarkRead(c.log, fs, n, op, chunks, marks, k);
    }
  }

  /**
   When SendData returns nil, a reader of the wire finds every frame of its message at its mark, in order,
   whatever was sent, closed or renewed in between. Nothing here needs the callers to have kept their side.
   */
  lemma ReturnedMeansOnTheWire(ss: seq<State>, s: State, i: nat)
    requires Reaches(ss, s) && i < |s.pcs| && s.pcs[i].DataDone? && s.pcs[i].r == Sent
    ensures var DataDone(op, chunks, marks, _) := s.pcs[i];
            var fs := ReadAll(s.conn.wire);
            && WholeMessage(MessageOf(op, chunks, true)) && |marks| == |chunks|
            && (forall k | 0 <= k < |chunks| ::
                  marks[k] < |fs| && FragmentOf(fs[marks[k]]) == MessageOf(op, chunks, true)[k])
            && (forall j, k | 0 <= j < k < |chunks| :: marks[j] < marks[k])
  {
    hide Reaches, ReadAll, MessageOf, WholeMessage, FragmentOf, ChunkFrame, OnTheWire, Framing, StreamFields,
        Accounted, CloseKnown;
    ReachedInv(ss, s);
    var pc := s.pcs[i];
    assert Sensible(pc) && Marked(s.conn, pc);
    MessageOfIsMessage(pc.op, pc.chunks);
    MarksOnTheWire(s.conn, pc.op, pc.chunks, pc.marks);
  }
}
