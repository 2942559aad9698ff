/** Several writers sharing one connection under its lock, and the session that takes the frames apart again. */
module FrameSession {
  import opened Wrappers
  import opened Bytes
  import opened Frames

  // ---------------------------------------------------------------- writers

  datatype Stage = Outside | Holding | HeaderOut

  /** A writer of one frame type: what it still has to write and what it has written, write by write. */
  datatype Writer = Writer(typ: byte, stage: Stage, todo: seq<seq<byte>>, done: seq<seq<byte>>)

  datatype Sys = Sys(writers: seq<Writer>, lock: Option<nat>, stream: seq<byte>, log: seq<Frame>)

  /** Writer i takes the lock, puts the header, or puts the payload and lets the lock go. */
  datatype Step = Lock(i: nat) | PutHeader(i: nat) | PutPayload(i: nat)

  function Current(w: Writer): Frame
    requires w.todo != []
  {
    Frame(w.typ, w.todo[0])
  }

  predicate Enabled(y: Sys, s: Step) {
    && s.i < |y.writers| && y.writers[s.i].todo != []
    && match s
       case Lock(i) => y.lock == None && y.writers[i].stage == Outside
       case PutHeader(i) => y.lock == Some(i) && y.writers[i].stage == Holding
       case PutPayload(i) => y.lock == Some(i) && y.writers[i].stage == HeaderOut
  }

  function Next(y: Sys, s: Step): Sys {
    if !Enabled(y, s) then
      y
    else
      var w := y.writers[s.i];
      match s
      case Lock(i) => y.(lock := Some(i), writers := y.writers[i := w.(stage := Holding)])
      case PutHeader(i) => y.(stream := y.stream + Header(Current(w)),
          writers := y.writers[i := w.(stage := HeaderOut)])
      case PutPayload(i) =>
        Sys(y.writers[i := w.(stage := Outside, todo := w.todo[1..], done := w.done + [w.todo[0]])], None,
            y.stream + w.todo[0], y.log + [Current(w)])
  }

  function After(y: Sys, steps: seq<Step>): Sys {
    if steps == [] then y else Next(After(y, steps[..|steps| - 1]), steps[|steps| - 1])
  }

  function Begin(ws: seq<Writer>): Sys {
    Sys(ws, None, [], [])
  }

  /** Distinct frame types, nothing written yet, payloads that fit. */
  ghost predicate Ready(ws: seq<Writer>) {
    && (forall i, j :: 0 <= i < j < |ws| ==> ws[i].typ != ws[j].typ)
    && forall i :: 0 <= i < |ws| ==> ws[i].stage == Outside && ws[i].done == [] && Fits(ws[i])
  }

  predicate Fits(w: Writer) {
    forall k :: 0 <= k < |w.todo| ==> |w.todo[k]| < 0x1_0000_0000
  }

  function Concat(chunks: seq<seq<byte>>): seq<byte> {
    if chunks == [] then [] else Concat(chunks[..|chunks| - 1]) + chunks[|chunks| - 1]
  }

  /** The payloads of one type, joined. */
  function Collect(fs: seq<Frame>, typ: byte): seq<byte> {
    if fs == [] then []
    else Collect(fs[..|fs| - 1], typ) + (if fs[|fs| - 1].typ == typ then fs[|fs| - 1].payload else [])
  }

  /** What the lock's holder has put of its frame so far. */
  function Partial(y: Sys): seq<byte> {
    match y.lock
    case None => []
    case Some(i) =>
      if i < |y.writers| && y.writers[i].stage == HeaderOut && y.writers[i].todo != []
      then Header(Current(y.writers[i])) else []
  }

  predicate Inside(w: Writer) {
    w.stage != Outside && w.todo != []
  }

  ghost predicate Orderly(y: Sys) {
    && (y.lock.Some? ==> y.lock.value < |y.writers| && Inside(y.writers[y.lock.value]))
    && (forall i :: 0 <= i < |y.writers| ==> y.writers[i].stage == Outside || y.lock == Some(i))
    && (forall i, j :: 0 <= i < j < |y.writers| ==> y.writers[i].typ != y.writers[j].typ)
    && (forall i :: 0 <= i < |y.writers| ==> Fits(y.writers[i]))
  }

  ghost predicate Streamed(y: Sys) {
    && y.stream == EncodeAll(y.log) + Partial(y)
    && (forall k :: 0 <= k < |y.log| ==> Sendable(y.log[k]))
  }

  ghost predicate OwnPayloads(y: Sys) {
    forall i :: 0 <= i < |y.writers| ==> Collect(y.log, y.writers[i].typ) == Concat(y.writers[i].done)
  }

  lemma {:induction false} EncodeSnoc(fs: seq<Frame>, f: Frame)
    ensures EncodeAll(fs + [f]) == EncodeAll(fs) + Encode(f)
  {
    if fs == [] {
      assert fs + [f] == [f] && [f][1..] == [];
      assert EncodeAll([f]) == Encode(f) + [];
    } else {
      assert (fs + [f])[1..] == fs[1..] + [f];
      EncodeSnoc(fs[1..], f);
    }
  }

  lemma StreamedStep(y: Sys, s: Step)
    requires Orderly(y) && Streamed(y) && Enabled(y, s)
    ensures Streamed(Next(y, s))
  {
    var w := y.writers[s.i];
    match s
    case Lock(i) =>
    case PutHeader(i) => assert Partial(y) == [] && y.stream == EncodeAll(y.log);
    case PutPayload(i) =>
      EncodeSnoc(y.log, Current(w));
      assert EncodeAll(y.log) + Header(Current(w)) + w.todo[0] == EncodeAll(y.log) + Encode(Current(w));
  }

  lemma OwnPayloadsStep(y: Sys, s: Step)
    requires Orderly(y) && OwnPayloads(y) && Enabled(y, s)
    ensures OwnPayloads(Next(y, s))
  {
    if s.PutPayload? {
      var z, w := Next(y, s), y.writers[s.i];
      assert z.log[..|z.log| - 1] == y.log;
      forall i | 0 <= i < |z.writers| ensures Collect(z.log, z.writers[i].typ) == Concat(z.writers[i].done) {
        if i == s.i {
          assert z.writers[i].done[..|w.done|] == w.done;
        } else {
          assert z.writers[i].typ != w.typ;
          assert Collect(y.log, z.writers[i].typ) + [] == Collect(y.log, z.writers[i].typ);
        }
      }
    }
  }

  lemma OrderlyStep(y: Sys, s: Step)
    requires Orderly(y) && Enabled(y, s)
    ensures Orderly(Next(y, s))
  {
  }

  lemma {:induction false} AlwaysGood(ws: seq<Writer>, steps: seq<Step>)
    requires Ready(ws)
    ensures var y := After(Begin(ws), steps); Orderly(y) && Streamed(y) && OwnPayloads(y)
  {
    if steps != [] {
      var y, s := After(Begin(ws), steps[..|steps| - 1]), steps[|steps| - 1];
      AlwaysGood(ws, steps[..|steps| - 1]);
      if Enabled(y, s) {
        OrderlyStep(y, s);
        StreamedStep(y, s);
        OwnPayloadsStep(y, s);
      }
    }
  }

  /** A header with nothing to follow is a whole frame already. */
  function Early(y: Sys): seq<Frame> {
    match y.lock
    case None => []
    case Some(i) =>
      if i < |y.writers| && y.writers[i].stage == HeaderOut && y.writers[i].todo != [] && y.writers[i].todo[0] == []
      then [Current(y.writers[i])] else []
  }

  lemma HeaderRead(f: Frame)
    requires Sendable(f)
    ensures if f.payload == [] then ReadFrame(Header(f)) == Ok(Parsed(f, [])) else ReadFrame(Header(f)).Err?
  {
    if f.payload == [] {
      assert Encode(f) + [] == Header(f);
      ReadEncoded(f, []);
    } else {
      assert Header(f) <= Encode(f);
      ReadCut(f, Header(f));
    }
  }

  lemma PartialRead(y: Sys)
    requires Orderly(y)
    ensures ReadAll(Partial(y)) == Early(y)
    ensures Early(y) == [] ==> ReadFrame(Partial(y)).Err?
  {
    if y.lock.Some? && y.writers[y.lock.value].stage == HeaderOut {
      HeaderRead(Current(y.writers[y.lock.value]));
    }
  }

  /** A frame without payload adds nothing to what is collected. */
  lemma EarlyIsEmpty(log: seq<Frame>, early: seq<Frame>, typ: byte)
    requires early == [] || (|early| == 1 && early[0].payload == [])
    ensures Collect(log + early, typ) == Collect(log, typ)
  {
    if early == [] {
      assert log + early == log;
    } else {
      assert (log + early)[..|log|] == log;
      assert Collect(log, typ) + [] == Collect(log, typ);
    }
  }

  lemma StreamReads(y: Sys, typ: byte)
    requires Orderly(y) && Streamed(y)
    ensures ReadAll(y.stream) == y.log + Early(y) && (y.lock == None ==> Early(y) == [])
    ensures Collect(ReadAll(y.stream), typ) == Collect(y.log, typ)
  {
    ReadAllThen(y.log, Partial(y));
    PartialRead(y);
    EarlyIsEmpty(y.log, Early(y), typ);
    assert y.log + [] == y.log;
  }

  /**
   At any moment of any schedule the reader finds the finished frames in lock order, and one more
   if a header of an empty payload is out; under each type it finds what that type's writer wrote.
   */
  lemma ReaderSeesWriters(ws: seq<Writer>, steps: seq<Step>, i: nat)
    requires Ready(ws) && i < |ws|
    ensures var y := After(Begin(ws), steps);
            && ReadAll(y.stream) == y.log + Early(y) && (y.lock == None ==> ReadAll(y.stream) == y.log)
            && i < |y.writers| && y.writers[i].typ == ws[i].typ
            && Collect(ReadAll(y.stream), ws[i].typ) == Concat(y.writers[i].done)
  {
    var y := After(Begin(ws), steps);
    AlwaysGood(ws, steps);
    SameWriters(ws, steps);
    StreamReads(y, ws[i].typ);
    assert Kept(ws[i], y.writers[i]) && y.log + [] == y.log;
  }

  /** Writers keep their type, and what is done plus what is to do is what they came with. */
  lemma {:induction false} SameWriters(ws: seq<Writer>, steps: seq<Step>)
    requires Ready(ws)
    ensures var y := After(Begin(ws), steps);
            |y.writers| == |ws| && forall i :: 0 <= i < |ws| ==> Kept(ws[i], y.writers[i])
  {
    if steps == [] {
      forall i | 0 <= i < |ws| ensures Kept(ws[i], ws[i]) {
        assert [] + ws[i].todo == ws[i].todo;
      }
    } else {
      var y, s := After(Begin(ws), steps[..|steps| - 1]), steps[|steps| - 1];
      SameWriters(ws, steps[..|steps| - 1]);
      if Enabled(y, s) && s.PutPayload? {
        KeptStep(ws[s.i], y.writers[s.i]);
      }
    }
  }

  ghost predicate Kept(was: Writer, now: Writer) {
    now.typ == was.typ && now.done + now.todo == was.todo
  }

  lemma KeptStep(was: Writer, now: Writer)
    requires Kept(was, now) && now.todo != []
    ensures Kept(was, now.(stage := Outside, todo := now.todo[1..], done := now.done + [now.todo[0]]))
  {
    assert now.done + [now.todo[0]] + now.todo[1..] == now.done + now.todo;
  }

  /** When all writers are through, the reader has everything each of them wrote. */
  lemma AllDelivered(ws: seq<Writer>, steps: seq<Step>, i: nat)
    requires Ready(ws) && i < |ws|
    requires AllDone(After(Begin(ws), steps))
    ensures Collect(ReadAll(After(Begin(ws), steps).stream), ws[i].typ) == Concat(ws[i].todo)
  {
    ReaderSeesWriters(ws, steps, i);
    SameWriters(ws, steps);
    var w := After(Begin(ws), steps).writers[i];
    assert Kept(ws[i], w) && w.done + [] == w.done;
  }

  // ---------------------------------------------------------------- nobody waits for ever

  /** The steps a writer still has to take. */
  function LeftOf(w: Writer): nat {
    if w.todo == [] then 0
    else 3 * |w.todo| - (match w.stage case Outside => 0 case Holding => 1 case HeaderOut => 2)
  }

  function Left(ws: seq<Writer>): nat {
    if ws == [] then 0 else Left(ws[..|ws| - 1]) + LeftOf(ws[|ws| - 1])
  }

  lemma {:induction false} LeftUpdated(ws: seq<Writer>, i: nat, w: Writer)
    requires i < |ws|
    ensures Left(ws[i := w]) + LeftOf(ws[i]) == Left(ws) + LeftOf(w)
  {
    var n := |ws| - 1;
    if i < n {
      LeftUpdated(ws[..n], i, w);
      assert ws[i := w][..n] == ws[..n][i := w];
    } else {
      assert ws[i := w][..n] == ws[..n];
    }
  }

  /** Every step that can be taken brings its writer one step nearer to its end. */
  lemma StepsEnd(y: Sys, s: Step)
    requires Enabled(y, s)
    ensures Left(Next(y, s).writers) + 1 == Left(y.writers)
  {
    LeftUpdated(y.writers, s.i, Next(y, s).writers[s.i]);
  }

  /** And as long as not all are done one can be taken. */
  lemma NeverStuck(y: Sys) returns (s: Step)
    requires Orderly(y) && !AllDone(y)
    ensures Enabled(y, s)
  {
    if y.lock.Some? {
      var i := y.lock.value;
      s := if y.writers[i].stage == Holding then PutHeader(i) else PutPayload(i);
    } else {
      var i :| 0 <= i < |y.writers| && y.writers[i].todo != [];
      s := Lock(i);
    }
  }

  lemma {:induction false} AfterCons(y: Sys, s: Step, rest: seq<Step>)
    ensures After(y, [s] + rest) == After(Next(y, s), rest)
  {
    var all := [s] + rest;
    if rest == [] {
      assert all[..0] == [];
    } else {
      AfterCons(y, s, rest[..|rest| - 1]);
      assert all[..|all| - 1] == [s] + rest[..|rest| - 1];
    }
  }

  /** So from any state reached all writers can finish, in as many steps as they have left. */
  lemma {:induction false} Finishes(y: Sys) returns (steps: seq<Step>)
    requires Orderly(y)
    ensures AllDone(After(y, steps)) && |steps| == Left(y.writers)
    decreases Left(y.writers)
  {
    if AllDone(y) {
      steps := [];
      NoneLeft(y.writers);
    } else {
      var s := NeverStuck(y);
      StepsEnd(y, s);
      OrderlyStep(y, s);
      var rest := Finishes(Next(y, s));
      steps := [s] + rest;
      AfterCons(y, s, rest);
    }
  }

  lemma {:induction false} NoneLeft(ws: seq<Writer>)
    requires forall i :: 0 <= i < |ws| ==> ws[i].todo == []
    ensures Left(ws) == 0
  {
    if ws != [] {
      NoneLeft(ws[..|ws| - 1]);
    }
  }

  // ---------------------------------------------------------------- the session

  /** The decoded exit frame. */
  datatype Exit = Exit(code: int, message: string)

  datatype Ending = Clean | Failed(code: int, message: string)

  /** The frames the session looks at: up to the exit frame. */
  function UntilExit(fs: seq<Frame>): (r: seq<Frame>)
    ensures |r| <= |fs| && r == fs[..|r|] && forall i :: 0 <= i < |r| ==> r[i].typ != EXIT
    ensures |r| < |fs| ==> fs[|r|].typ == EXIT
  {
    if fs == [] || fs[0].typ == EXIT then [] else [fs[0]] + UntilExit(fs[1..])
  }

  function EndingOf(e: Exit, unnamed: int -> string): Ending {
    if e.code == 0 then Clean else Failed(e.code, if e.message != "" then e.message else unnamed(e.code))
  }

  /** Only exit code 0 is a clean end; any other is reported, with the message sent or one made up for it. */
  lemma EndingIs(e: Exit, unnamed: int -> string)
    ensures EndingOf(e, unnamed) == Clean <==> e.code == 0
    ensures e.code != 0 && e.message != "" ==> EndingOf(e, unnamed) == Failed(e.code, e.message)
    ensures e.code != 0 && e.message == "" ==> EndingOf(e, unnamed) == Failed(e.code, unnamed(e.code))
  {
  }

  /** A dropped connection counts as a clean end. */
  function Outcome(fs: seq<Frame>, parse: seq<byte> -> Exit, unnamed: int -> string): Ending {
    var k := |UntilExit(fs)|;
    if k < |fs| then EndingOf(parse(fs[k].payload), unnamed) else Clean
  }

  lemma {:induction false} UntilExitIs(fs: seq<Frame>, k: nat)
    requires k <= |fs| && (forall i :: 0 <= i < k ==> fs[i].typ != EXIT) && (k < |fs| ==> fs[k].typ == EXIT)
    ensures UntilExit(fs) == fs[..k]
  {
    if k > 0 {
      UntilExitIs(fs[1..], k - 1);
      assert fs[..k] == [fs[0]] + fs[1..][..k - 1];
    } else {
      assert fs[..0] == [];
    }
  }

  /** k frames of fs were read and delivered, none of them the exit frame, and rest holds the others. */
  ghost predicate ReadSoFar(rest: seq<byte>, fs: seq<Frame>, k: nat, out: seq<byte>, err: seq<byte>) {
    && k <= |fs| && ReadAll(rest) == fs[k..] && (forall i :: 0 <= i < k ==> fs[i].typ != EXIT)
    && out == Collect(fs[..k], 1) && err == Collect(fs[..k], 2)
  }

  lemma ReadOne(rest: seq<byte>, fs: seq<Frame>, k: nat, out: seq<byte>, err: seq<byte>, f: Frame, rest': seq<byte>)
    requires ReadSoFar(rest, fs, k, out, err) && ReadAll(rest) == [f] + ReadAll(rest')
    ensures k < |fs| && f == fs[k]
    ensures f.typ != EXIT ==>
              ReadSoFar(rest', fs, k + 1, if f.typ == 1 then out + f.payload else out,
                        if f.typ == 2 then err + f.payload else err)
  {
    assert fs[k..] == [f] + ReadAll(rest');
    assert fs[k] == fs[k..][0] && fs[k + 1..] == fs[k..][1..] && fs[..k + 1][..k] == fs[..k];
    assert out + [] == out && err + [] == err;
  }

  /** session's reading loop: the two streams as delivered and the way it ended. */
  method Session(data: seq<byte>, parse: seq<byte> -> Exit, unnamed: int -> string)
    returns (out: seq<byte>, err: seq<byte>, ending: Ending)
    ensures out == Collect(UntilExit(ReadAll(data)), 1) && err == Collect(UntilExit(ReadAll(data)), 2)
    ensures ending == Outcome(ReadAll(data), parse, unnamed)
  {
    var reader := new Reader(data);
    out, err := [], [];
    ghost var fs := ReadAll(data);
    ghost var k: nat := 0;
    assert data[0..] == data && fs[..0] == [] && fs[0..] == fs;
    while true
      invariant reader.Valid() && reader.data == data && ReadSoFar(data[reader.pos..], fs, k, out, err)
      decreases |data| - reader.pos
    {
      ghost var rest := data[reader.pos..];
      var r := reader.ReadNext();
      if r.Err? {
        assert fs[k..] == [];
        UntilExitIs(fs, k);
        return out, err, Clean;
      }
      ReadOne(rest, fs, k, out, err, r.value, data[reader.pos..]);
      if r.value.typ == EXIT {
        UntilExitIs(fs, k);
        return out, err, EndingOf(parse(r.value.payload), unnamed);
      }
      if r.value.typ == STDOUT {
        out := out + r.value.payload;
      } else if r.value.typ == STDERR {
        err := err + r.value.payload;
      }
      k := k + 1;
    }
  }

  /** The log holds only frames of the writers' types. */
  ghost predicate FromWriters(fs: seq<Frame>, ws: seq<Writer>) {
    forall k :: 0 <= k < |fs| ==> exists j :: 0 <= j < |ws| && ws[j].typ == fs[k].typ
  }

  lemma {:induction false} LogFromWriters(ws: seq<Writer>, steps: seq<Step>)
    requires Ready(ws)
    ensures FromWriters(After(Begin(ws), steps).log, ws)
  {
    if steps != [] {
      var y, s := After(Begin(ws), steps[..|steps| - 1]), steps[|steps| - 1];
      LogFromWriters(ws, steps[..|steps| - 1]);
      SameWriters(ws, steps[..|steps| - 1]);
      if Enabled(y, s) && s.PutPayload? {
        assert Kept(ws[s.i], y.writers[s.i]);
      }
    }
  }

  predicate NoWriter(ws: seq<Writer>, typ: byte) {
    forall j :: 0 <= j < |ws| ==> ws[j].typ != typ
  }

  /** Every writer has written everything it came with. */
  ghost predicate AllDone(y: Sys) {
    forall j :: 0 <= j < |y.writers| ==> y.writers[j].todo == []
  }

  /** Once all writers are through, what is on the wire is the log. */
  lemma DoneStream(ws: seq<Writer>, steps: seq<Step>)
    requires Ready(ws) && AllDone(After(Begin(ws), steps))
    ensures var y := After(Begin(ws), steps);
            y.stream == EncodeAll(y.log) && forall k :: 0 <= k < |y.log| ==> Sendable(y.log[k])
  {
    AlwaysGood(ws, steps);
    var y := After(Begin(ws), steps);
    assert y.lock == None;
    assert EncodeAll(y.log) + [] == EncodeAll(y.log);
  }

  /** The writers' stream with the exit frame sent after they are through. */
  function Finished(y: Sys, p: seq<byte>): seq<byte> {
    y.stream + Encode(Frame(EXIT, p))
  }

  lemma FinishedReads(ws: seq<Writer>, steps: seq<Step>, p: seq<byte>)
    requires Ready(ws) && AllDone(After(Begin(ws), steps)) && |p| < 0x1_0000_0000
    requires NoWriter(ws, EXIT)
    ensures var y := After(Begin(ws), steps);
            && ReadAll(Finished(y, p)) == y.log + [Frame(EXIT, p)] && ReadAll(y.stream) == y.log
            && UntilExit(ReadAll(Finished(y, p))) == y.log
  {
    var y, exit := After(Begin(ws), steps), Frame(EXIT, p);
    DoneStream(ws, steps);
    LogFromWriters(ws, steps);
    ReadAllThen(y.log, Encode(exit));
    assert Encode(exit) + [] == Encode(exit);
    ReadAllCons(exit, []);
    assert EncodeAll(y.log) + [] == EncodeAll(y.log);
    ReadAllThen(y.log, []);
    UntilExitIs(y.log + [exit], |y.log|);
    assert (y.log + [exit])[..|y.log|] == y.log;
  }

  /**
   End to end: whatever the schedule of the writers, a session reading their stream and the exit frame
   behind it delivers under each type what that type's writer wrote, and ends as the exit frame says.
   */
  lemma SessionDelivers(ws: seq<Writer>, steps: seq<Step>, p: seq<byte>, parse: seq<byte> -> Exit,
                        unnamed: int -> string)
    requires Ready(ws) && AllDone(After(Begin(ws), steps)) && |p| < 0x1_0000_0000
    requires NoWriter(ws, EXIT)
    ensures var data := After(Begin(ws), steps).stream + Encode(Frame(3, p));
            && (forall i :: 0 <= i < |ws| ==> Collect(UntilExit(ReadAll(data)), ws[i].typ) == Concat(ws[i].todo))
            && (forall typ :: NoWriter(ws, typ) ==> Collect(UntilExit(ReadAll(data)), typ) == [])
            && Outcome(ReadAll(data), parse, unnamed) == EndingOf(parse(p), unnamed)
  {
    FinishedReads(ws, steps, p);
    forall i | 0 <= i < |ws|
      ensures Collect(UntilExit(ReadAll(Finished(After(Begin(ws), steps), p))), ws[i].typ) == Concat(ws[i].todo)
    {
      AllDelivered(ws, steps, i);
    }
    LogFromWriters(ws, steps);
    forall typ | NoWriter(ws, typ) ensures Collect(After(Begin(ws), steps).log, typ) == [] {
      CollectNone(After(Begin(ws), steps).log, typ);
    }
  }

  lemma {:induction false} CollectNone(fs: seq<Frame>, typ: byte)
    requires forall k :: 0 <= k < |fs| ==> fs[k].typ != typ
    ensures Collect(fs, typ) == []
  {
    if fs != [] {
      CollectNone(fs[..|fs| - 1], typ);
    }
  }

  /**
   A stream cut anywhere delivers the frames that are whole, and ends as the whole stream would
   exactly if its exit frame is whole too or that ending is a clean one.
   */
  lemma CutSession(fs: seq<Frame>, s: seq<byte>, parse: seq<byte> -> Exit, unnamed: int -> string) returns (k: nat)
    requires forall i :: 0 <= i < |fs| ==> Sendable(fs[i])
    requires s <= EncodeAll(fs)
    ensures WholeIn(fs, s, k) && ReadAll(s) == fs[..k]
    ensures UntilExit(ReadAll(s)) == if k <= |UntilExit(fs)| then fs[..k] else UntilExit(fs)
    ensures Outcome(ReadAll(s), parse, unnamed) == Outcome(fs, parse, unnamed) <==>
              |UntilExit(fs)| < k || Outcome(fs, parse, unnamed) == Clean
  {
    k := ReadTruncated(fs, s);
    var got, x := fs[..k], |UntilExit(fs)|;
    assert forall i :: 0 <= i < x ==> fs[i] == UntilExit(fs)[i];
    if k <= x {
      UntilExitIs(got, k);
      assert got[..k] == got;
    } else {
      UntilExitIs(got, x);
      assert got[..x] == fs[..x];
    }
  }
}
