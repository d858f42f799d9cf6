/** The laws of a whole trace: record, replay, stop, resume. */
module WholeTrace {
  import opened Bytes
  import opened Fields
  import opened TraceWriter
  import opened Calls
  import opened Replay
  import opened RoundTrip
  import opened Traces
  import opened HandleTrace
  import opened HandleReplay

  /** Every call is one the interceptors accept in the state the calls before it left. */
  ghost predicate TraceOk(w: Recorder, items: seq<Item>, width: nat)
    decreases |items|
  {
    && RecorderOk(w)
    && (items != [] ==>
          && PtrOk(items[0].thread, width) && Recordable(w, items[0].call, width)
          && TraceOk(Record(w, items[0].call), items[1..], width))
  }

  predicate AllSupported(items: seq<Item>, exec: bool) {
    forall i :: 0 <= i < |items| ==> Supported(items[i].call, exec)
  }

  ghost function Recs(w: Recorder, items: seq<Item>, width: nat): (recs: seq<Rec>)
    requires IsWidth(width) && TraceOk(w, items, width)
    ensures |recs| == |items| && RecsOk(recs, width)
    decreases |items|
  {
    if items == [] then []
    else
      CallFieldsOk(w, items[0].call, width);
      [RecOf(w, items[0], width)] + Recs(Record(w, items[0].call), items[1..], width)
  }

  /** The commands replay should report, call by call. */
  ghost function ExpectedAll(w: Recorder, items: seq<Item>, width: nat): (cs: seq<Command>)
    requires IsWidth(width) && TraceOk(w, items, width)
    ensures |cs| == |items|
    decreases |items|
  {
    if items == [] then []
    else [Expected(w, items[0], width)] + ExpectedAll(Record(w, items[0].call), items[1..], width)
  }

  ghost function RecorderAfter(w: Recorder, items: seq<Item>, width: nat): Recorder
    requires TraceOk(w, items, width)
    decreases |items|
  {
    if items == [] then w else RecorderAfter(Record(w, items[0].call), items[1..], width)
  }

  function LastThread(last: Long, items: seq<Item>): Long
    decreases |items|
  {
    if items == [] then last else LastThread(items[0].thread, items[1..])
  }

  function Swaps(items: seq<Item>): nat {
    if items == [] then 0
    else (if Opcode(items[0].call) == OPC_eglSwapBuffers then 1 else 0) + Swaps(items[1..])
  }

  /** The decoder is in step with the recorder. */
  ghost predicate InStep(last: Long, w: Recorder, r: Player, width: nat) {
    PtrOk(last, width) && Agree(w, r) && r.thread == SeenPtr(last, width)
  }

  lemma PrependNone(o: Outcome)
    ensures Prepend([], o) == o
  {
    assert [] + o.commands == o.commands;
  }

  lemma PrependTwice(a: seq<Command>, b: seq<Command>, o: Outcome)
    ensures Prepend(a, Prepend(b, o)) == Prepend(a + b, o)
  {
    assert a + (b + o.commands) == (a + b) + o.commands;
  }

  /*  How far replay gets  */

  ghost function StageAfter(exec: bool, st: Stage, w: Recorder, c: Call, width: nat): Stage
    requires Recordable(w, c, width)
  {
    NextStage(exec, st, CallEvents(w, c, Now(st).handle, width))
  }

  /** How many of the calls replay gets through; all of them when they are only decoded. */
  ghost function Living(exec: bool, st: Stage, w: Recorder, items: seq<Item>, width: nat): (n: nat)
    requires TraceOk(w, items, width)
    ensures n <= |items|
    decreases |items|
  {
    if items == [] || !CallLives(exec, st, w, items[0].call, width) then 0
    else 1 + Living(exec, StageAfter(exec, st, w, items[0].call, width), Record(w, items[0].call), items[1..], width)
  }

  /** The buffer swaps among them. */
  ghost function LivingSwaps(exec: bool, st: Stage, w: Recorder, items: seq<Item>, width: nat): (n: nat)
    requires TraceOk(w, items, width)
    decreases |items|
  {
    if items == [] || !CallLives(exec, st, w, items[0].call, width) then 0
    else
      (if Opcode(items[0].call) == OPC_eglSwapBuffers then 1 else 0)
      + LivingSwaps(exec, StageAfter(exec, st, w, items[0].call, width), Record(w, items[0].call), items[1..], width)
  }

  /** What the calls create and use, in order. */
  ghost function RecordedEvents(st: Stage, w: Recorder, items: seq<Item>, width: nat): seq<Event>
    requires TraceOk(w, items, width)
    decreases |items|
  {
    if items == [] then []
    else
      var es := CallEvents(w, items[0].call, Now(st).handle, width);
      es + RecordedEvents(NextStage(true, st, es), Record(w, items[0].call), items[1..], width)
  }

  predicate NoneNull(items: seq<Item>) {
    forall i :: 0 <= i < |items| ==> !NullCall(items[i].call)
  }

  predicate AllAnswered(world: World, turn: nat, items: seq<Item>) {
    forall i :: 0 <= i < |items| ==> Answered(items[i].call, world.reply(turn + i))
  }

  lemma {:induction false} LivingIsAll(st: Stage, w: Recorder, items: seq<Item>, width: nat)
    requires TraceOk(w, items, width) && AllFit(st.past)
    ensures Living(true, st, w, items, width) == |items|
        <==> AllFit(st.past + RecordedEvents(st, w, items, width)) && NoneNull(items)
             && AllAnswered(st.world, st.turn, items)
    decreases |items|
  {
    hide Recordable, Record, CallEvents, NullCall, Answered, FitBehind, AllFit;
    if items == [] {
      assert st.past + [] == st.past;
    } else {
      var es := CallEvents(w, items[0].call, Now(st).handle, width);
      var st', w' := NextStage(true, st, es), Record(w, items[0].call);
      var more := RecordedEvents(st', w', items[1..], width);
      FitsInParts(st.past, es);
      assert st.past + (es + more) == (st.past + es) + more;
      EachHere(st, items);
      if AllFit(st.past + es) {
        LivingIsAll(st', w', items[1..], width);
      } else {
        FitsPrefix(st.past + es, more);
      }
    }
  }

  /** The conditions on single calls, first and rest. */
  lemma EachHere(st: Stage, items: seq<Item>)
    requires items != []
    ensures NoneNull(items) <==> !NullCall(items[0].call) && NoneNull(items[1..])
    ensures AllAnswered(st.world, st.turn, items)
        <==> Answered(items[0].call, Now(st)) && AllAnswered(st.world, st.turn + 1, items[1..])
  {
    hide NullCall, Answered;
    assert forall i :: 0 < i < |items| ==> items[i] == items[1..][i - 1];
    if NoneNull(items) {
      forall i | 0 <= i < |items| - 1 ensures !NullCall(items[1..][i].call) {
        assert items[1..][i] == items[i + 1];
      }
    }
    if AllAnswered(st.world, st.turn, items) {
      assert Answered(items[0].call, st.world.reply(st.turn + 0));
      forall i | 0 <= i < |items| - 1 ensures Answered(items[1..][i].call, st.world.reply(st.turn + 1 + i)) {
        assert items[1..][i] == items[i + 1] && st.turn + 1 + i == st.turn + (i + 1);
      }
    }
    if Answered(items[0].call, Now(st)) && AllAnswered(st.world, st.turn + 1, items[1..]) {
      forall i | 0 <= i < |items| ensures Answered(items[i].call, st.world.reply(st.turn + i)) {
        assert i > 0 ==> st.turn + i == st.turn + 1 + (i - 1);
      }
    }
  }

  lemma {:induction false} DecodingLives(st: Stage, w: Recorder, items: seq<Item>, width: nat)
    requires TraceOk(w, items, width)
    ensures Living(false, st, w, items, width) == |items|
    decreases |items|
  {
    if items != [] {
      DecodingLives(StageAfter(false, st, w, items[0].call, width), Record(w, items[0].call), items[1..], width);
    }
  }

  lemma {:induction false} AllSwapsLive(exec: bool, st: Stage, w: Recorder, items: seq<Item>, width: nat)
    requires TraceOk(w, items, width) && Living(exec, st, w, items, width) == |items|
    ensures LivingSwaps(exec, st, w, items, width) == Swaps(items)
    decreases |items|
  {
    if items != [] {
      AllSwapsLive(exec, StageAfter(exec, st, w, items[0].call, width), Record(w, items[0].call), items[1..], width);
    }
  }

  /** One call: reported, or the end of the program. */
  lemma StepItem(frames: int, last: Long, w: Recorder, r: Player, items: seq<Item>, width: nat, rest: seq<Byte>)
      returns (r': Player)
    requires IsWidth(width) && frames != 0 && items != [] && TraceOk(w, items, width)
    requires AllSupported(items, r.exec) && InStep(last, w, r, width)
    ensures InStep(items[0].thread, Record(w, items[0].call), r', width) && r'.exec == r.exec
    ensures r'.stage == StageAfter(r.exec, r.stage, w, items[0].call, width)
    ensures var o := Process(frames, r, width, LogBytes(last, Recs(w, items, width), width) + rest);
            if CallLives(r.exec, r.stage, w, items[0].call, width) then
              o == Prepend([Expected(w, items[0], width)],
                     Process(FramesAfter(frames, Opcode(items[0].call)), r', width,
                       LogBytes(items[0].thread, Recs(Record(w, items[0].call), items[1..], width), width) + rest))
            else o.commands == [] && o.stop == Exited
  {
    hide Process, EncAll, RecFields, Recordable, Supported, CallFields, Record, CallEvents, CommandEvents;
    hide CallLives, Alive, SeenAll;
    var it, w' := items[0], Record(w, items[0].call);
    var r1 := r.(thread := SeenPtr(it.thread, width));
    r' := AfterCall(w, r1, it.call, width);
    AgreeStep(w, r1, it.call, width);
    StageStep(w, r1, it.call, width);
    CallEventsSeen(w, it, Now(r.stage).handle, width);
    LivesSeen(w, r1, it, width);
    LivesElsewhere(w, r, r1, it, width);
    var recs := Recs(w, items, width);
    assert recs[1..] == Recs(w', items[1..], width);
    RecFieldsOk(last, recs[0], width);
    var head, tail := EncAll(RecFields(last, recs[0]), width), LogBytes(it.thread, recs[1..], width);
    Associative(head, tail, rest);
    ProcessRecord(frames, last, w, r, it, width, tail + rest);
  }

  lemma LivesElsewhere(w: Recorder, r: Player, r1: Player, it: Item, width: nat)
    requires Recordable(w, it.call, width) && r1.exec == r.exec && r1.stage == r.stage
    ensures CallLives(r1.exec, r1.stage, w, it.call, width) == CallLives(r.exec, r.stage, w, it.call, width)
  {
  }

  /** Replay of a recorded run that it gets through reports every call, in order, with all its
      arguments, results, time stamps and its thread, and goes on exactly behind the last record. */
  lemma {:induction false} ReplayRun(frames: int, last: Long, w: Recorder, r: Player, items: seq<Item>,
                                     width: nat, rest: seq<Byte>)
      returns (r': Player)
    requires IsWidth(width) && TraceOk(w, items, width) && AllSupported(items, r.exec)
    requires InStep(last, w, r, width) && (frames < 0 || Swaps(items) < frames)
    requires Living(r.exec, r.stage, w, items, width) == |items|
    ensures InStep(LastThread(last, items), RecorderAfter(w, items, width), r', width) && r'.exec == r.exec
    ensures r.exec ==> r'.stage.past == r.stage.past + RecordedEvents(r.stage, w, items, width)
    ensures Process(frames, r, width, LogBytes(last, Recs(w, items, width), width) + rest)
         == Prepend(ExpectedAll(w, items, width), Process(frames - Swaps(items), r', width, rest))
    decreases |items|, 1
  {
    hide Process, Supported, Recordable, Expected;
    if items == [] {
      r' := r;
      assert LogBytes(last, [], width) + rest == rest && r.stage.past + [] == r.stage.past;
      PrependNone(Process(frames, r, width, rest));
    } else {
      r' := ReplayCons(frames, last, w, r, items, width, rest);
    }
  }

  lemma ReplayCons(frames: int, last: Long, w: Recorder, r: Player, items: seq<Item>,
                   width: nat, rest: seq<Byte>)
      returns (r': Player)
    requires IsWidth(width) && TraceOk(w, items, width) && AllSupported(items, r.exec) && items != []
    requires InStep(last, w, r, width) && (frames < 0 || Swaps(items) < frames)
    requires Living(r.exec, r.stage, w, items, width) == |items|
    ensures InStep(LastThread(last, items), RecorderAfter(w, items, width), r', width) && r'.exec == r.exec
    ensures r.exec ==> r'.stage.past == r.stage.past + RecordedEvents(r.stage, w, items, width)
    ensures Process(frames, r, width, LogBytes(last, Recs(w, items, width), width) + rest)
         == Prepend(ExpectedAll(w, items, width), Process(frames - Swaps(items), r', width, rest))
    decreases |items|, 0
  {
    hide Process, Supported, Recordable, InStep, LogBytes, Recs, Expected, CallLives, CallEvents, Record, NextStage;
    hide Prepend;
    var it, w' := items[0], Record(w, items[0].call);
    var r1 := StepItem(frames, last, w, r, items, width, rest);
    r' := ReplayRun(FramesAfter(frames, Opcode(it.call)), it.thread, w', r1, items[1..], width, rest);
    if r.exec {
      var es := CallEvents(w, it.call, Now(r.stage).handle, width);
      PastOfNext(r.stage, es);
      PastGrows(r.stage.past, es, RecordedEvents(r1.stage, w', items[1..], width));
    }
    PrependTwice([Expected(w, it, width)], ExpectedAll(w', items[1..], width),
                 Process(frames - Swaps(items), r', width, rest));
  }

  lemma PastOfNext(st: Stage, es: seq<Event>)
    ensures NextStage(true, st, es).past == st.past + es
  {
  }

  lemma PastGrows(a: seq<Event>, b: seq<Event>, c: seq<Event>)
    ensures (a + b) + c == a + (b + c)
  {
  }

  /** Replay that does not get through all calls reports those before the first it dies of. */
  lemma {:induction false} DyingRun(frames: int, last: Long, w: Recorder, r: Player, items: seq<Item>,
                                    width: nat, rest: seq<Byte>)
    requires IsWidth(width) && TraceOk(w, items, width) && AllSupported(items, r.exec) && InStep(last, w, r, width)
    requires Living(r.exec, r.stage, w, items, width) < |items|
    requires frames < 0 || LivingSwaps(r.exec, r.stage, w, items, width) < frames
    ensures var o := Process(frames, r, width, LogBytes(last, Recs(w, items, width), width) + rest);
            && o.commands == ExpectedAll(w, items, width)[..Living(r.exec, r.stage, w, items, width)]
            && o.stop == Exited
    decreases |items|
  {
    hide Process, Supported, Recordable, InStep, LogBytes, Recs, Expected, CallLives, CallEvents, Record;
    var it, w' := items[0], Record(w, items[0].call);
    var r1 := StepItem(frames, last, w, r, items, width, rest);
    if CallLives(r.exec, r.stage, w, it.call, width) {
      DyingRun(FramesAfter(frames, Opcode(it.call)), it.thread, w', r1, items[1..], width, rest);
      TakeOne(Expected(w, it, width), ExpectedAll(w', items[1..], width),
              Living(r1.exec, r1.stage, w', items[1..], width));
    }
  }

  lemma TakeOne(c: Command, cs: seq<Command>, n: nat)
    requires n <= |cs|
    ensures [c] + cs[..n] == ([c] + cs)[..n + 1]
  {
  }

  /*  Whole files  */

  lemma AtEnd(frames: int, r: Player, width: nat, zeros: nat)
    requires IsWidth(width) && frames != 0
    ensures var s := Zeros(4 * zeros);
            Process(frames, r, width, s) == Outcome([], r, Drop(s, 4), EndOfTrace)
  {
    var s := Zeros(4 * zeros);
    if zeros > 0 {
      ZeroWord(s[..4]);
    }
  }

  lemma ZeroWord(s: seq<Byte>)
    requires |s| == 4 && forall i :: 0 <= i < 4 ==> s[i] == 0
    ensures FromLE(s) == 0
  {
    assert FromLE(s[4..]) == 0;
    assert FromLE(s[3..]) == 0 by { assert s[3..][1..] == s[4..]; }
    assert FromLE(s[2..]) == 0 by { assert s[2..][1..] == s[3..]; }
    assert FromLE(s[1..]) == 0 by { assert s[1..][1..] == s[2..]; }
  }

  ghost function TraceBytes(items: seq<Item>, width: nat): seq<Byte>
    requires IsWidth(width) && TraceOk(Recorder0(), items, width)
  {
    LogBytes(0, Recs(Recorder0(), items, width), width)
  }

  lemma OpenOf(width: nat, log: seq<Byte>)
    requires IsWidth(width)
    ensures OpenTrace(EncAll(Header(width), width) + log) == Some((width, log))
  {
    var h := Header(width);
    assert h == [IntF(OPC_VERSION)]
           + ([IntF(VERSION_MAJOR)] + ([IntF(VERSION_MINOR)] + ([IntF(VERSION_REV)] + ([IntF(width)] + []))));
    GetIntOf(OPC_VERSION, [IntF(VERSION_MAJOR)]
        + ([IntF(VERSION_MINOR)] + ([IntF(VERSION_REV)] + ([IntF(width)] + []))), width, log);
    GetIntOf(VERSION_MAJOR, [IntF(VERSION_MINOR)] + ([IntF(VERSION_REV)] + ([IntF(width)] + [])), width, log);
    GetIntOf(VERSION_MINOR, [IntF(VERSION_REV)] + ([IntF(width)] + []), width, log);
    GetIntOf(VERSION_REV, [IntF(width)] + [], width, log);
    GetIntOf(width, [], width, log);
    assert EncAll([], width) + log == log;
  }

  lemma Start(exec: bool, world: World, width: nat)
    requires IsWidth(width)
    ensures InStep(0, Recorder0(), Player0(exec, world), width)
  {
    Pow256Values();
  }

  function Stage0(world: World): Stage {
    Stage(world, [], 0)
  }

  lemma StartStage(exec: bool, world: World)
    ensures Player0(exec, world).exec == exec && Player0(exec, world).stage == Stage0(world)
  {
  }

  /** Replay gets through the calls: what they create and use fits the handle tables, none asked for
      a result with a null pointer, and GL answers as recorded where that matters. */
  ghost predicate Replayable(world: World, items: seq<Item>, width: nat)
    requires TraceOk(Recorder0(), items, width)
  {
    && AllFit(RecordedEvents(Stage0(world), Recorder0(), items, width))
    && NoneNull(items) && AllAnswered(world, 0, items)
  }

  /** How many calls of a trace the decoder gets through. */
  ghost function Lasts(exec: bool, world: World, items: seq<Item>, width: nat): (n: nat)
    requires TraceOk(Recorder0(), items, width)
    ensures n <= |items|
  {
    Living(exec, Stage0(world), Recorder0(), items, width)
  }

  lemma LastsToEnd(exec: bool, world: World, items: seq<Item>, width: nat)
    requires TraceOk(Recorder0(), items, width)
    ensures Lasts(exec, world, items, width) == |items| <==> (exec ==> Replayable(world, items, width))
  {
    assert AllFit([]);
    hide Living, RecordedEvents, TraceOk, AllFit, NoneNull, AllAnswered;
    if exec {
      var es := RecordedEvents(Stage0(world), Recorder0(), items, width);
      assert [] + es == es;
      LivingIsAll(Stage0(world), Recorder0(), items, width);
    } else {
      DecodingLives(Stage0(world), Recorder0(), items, width);
    }
  }

  /** The whole-trace law. Decoding a complete recording, whether it was truncated at its end or
      still carries the zero-filled tail of its last chunk, reports exactly the recorded calls and
      ends at the end of the trace. With replay that is so if and only if the trace is replayable;
      otherwise the program ends at the first call it does not get through. */
  lemma WholeTraceRoundTrip(items: seq<Item>, exec: bool, world: World, width: nat, zeros: nat)
    requires IsWidth(width) && TraceOk(Recorder0(), items, width) && AllSupported(items, exec)
    ensures Lasts(exec, world, items, width) == |items| <==> (exec ==> Replayable(world, items, width))
    ensures var file := EncAll(Header(width), width) + (TraceBytes(items, width) + Zeros(4 * zeros));
            && OpenTrace(file) == Some((width, TraceBytes(items, width) + Zeros(4 * zeros)))
            && Replays(Process(-1, Player0(exec, world), width, OpenTrace(file).value.1),
                       items, exec, world, width, Drop(Zeros(4 * zeros), 4))
  {
    hide Process, OpenTrace, LogBytes, EncAll, InStep, Recordable, Supported, Living, RecordedEvents;
    hide TraceOk, ExpectedAll, Swaps, Player0, Replayable;
    StartStage(exec, world);
    OpenOf(width, TraceBytes(items, width) + Zeros(4 * zeros));
    LastsToEnd(exec, world, items, width);
    Start(exec, world, width);
    if Lasts(exec, world, items, width) == |items| {
      var r := ReplayRun(-1, 0, Recorder0(), Player0(exec, world), items, width, Zeros(4 * zeros));
      AtEnd(-1 - Swaps(items), r, width, zeros);
      var es := RecordedEvents(Stage0(world), Recorder0(), items, width);
      assert [] + es == es;
    } else {
      DyingRun(-1, 0, Recorder0(), Player0(exec, world), items, width, Zeros(4 * zeros));
    }
  }

  /** The outcome of running a trace to its end. */
  ghost predicate Replays(o: Outcome, items: seq<Item>, exec: bool, world: World, width: nat, rest: seq<Byte>)
    requires IsWidth(width) && TraceOk(Recorder0(), items, width)
  {
    && o.commands == ExpectedAll(Recorder0(), items, width)[..Lasts(exec, world, items, width)]
    && if Lasts(exec, world, items, width) < |items| then o.stop == Exited
       else
         && o.stop == EndOfTrace && o.rest == rest && o.commands == ExpectedAll(Recorder0(), items, width)
         && (exec ==> o.player.stage.past == RecordedEvents(Stage0(world), Recorder0(), items, width))
  }

  /** Calls `process` gives up on: commands it does not implement, attribute lists too long for its
      array, and in replay a glGetFloatv with a null pointer. */
  predicate Unreadable(c: Call, exec: bool) {
    if c.Plain? then ReplayedShape(c.op).None? || (exec && NullFloat(c))
    else (c.ChooseConfig? || c.EglCreate?) && !ListFits(c.attribs)
  }

  predicate NullFloat(c: Call) {
    c.Plain? && c.op == OPC_glGetFloatv && NullCall(c)
  }

  function StopOn(c: Call): Stop {
    if c.Plain? && !NullFloat(c) then Unimplemented else Exited
  }

  /** An unreadable call stops the decoder there, if it gets there, after everything before it has
      been reported. */
  lemma StoppedRun(items: seq<Item>, bad: Item, exec: bool, world: World, width: nat, rest: seq<Byte>)
    requires IsWidth(width) && TraceOk(Recorder0(), items, width) && AllSupported(items, exec)
    requires var w := RecorderAfter(Recorder0(), items, width);
             RecorderOk(w) && Recordable(w, bad.call, width) && PtrOk(bad.thread, width)
    requires Unreadable(bad.call, exec)
    ensures var fs := RecFields(LastThread(0, items), RecOf(RecorderAfter(Recorder0(), items, width), bad, width));
            FieldsOk(fs, width)
            && var o := Process(-1, Player0(exec, world), width, TraceBytes(items, width) + (EncAll(fs, width) + rest));
               && o.commands == ExpectedAll(Recorder0(), items, width)[..Lasts(exec, world, items, width)]
               && o.stop == if Lasts(exec, world, items, width) < |items| then Exited else StopOn(bad.call)
  {
    hide Process, LogBytes, EncAll, InStep, Recordable, Supported, RecFields, Unreadable, StopOn, RecOf, AllSupported;
    hide Living, TraceOk, ExpectedAll, RecorderAfter, LastThread, Swaps, Player0;
    var w, last, p := RecorderAfter(Recorder0(), items, width), LastThread(0, items), Player0(exec, world);
    Start(exec, world, width);
    StartStage(exec, world);
    var fs := RecFields(last, RecOf(w, bad, width));
    RecOfOk(last, w, bad, width);
    if Lasts(exec, world, items, width) == |items| {
      var r := ReplayRun(-1, 0, Recorder0(), p, items, width, EncAll(fs, width) + rest);
      BadRecord(-1 - Swaps(items), last, w, r, bad, width, rest);
    } else {
      DyingRun(-1, 0, Recorder0(), p, items, width, EncAll(fs, width) + rest);
    }
  }

  lemma RecOfOk(last: Long, w: Recorder, it: Item, width: nat)
    requires IsWidth(width) && RecorderOk(w) && PtrOk(it.thread, width) && Recordable(w, it.call, width)
    ensures FieldsOk(RecFields(last, RecOf(w, it, width)), width)
  {
    CallFieldsOk(w, it.call, width);
    RecFieldsOk(last, RecOf(w, it, width), width);
  }

  /** The bytes behind the opcode of a record. */
  ghost predicate Behind(s: seq<Byte>, w: Recorder, it: Item, width: nat, rest: seq<Byte>)
    requires Recordable(w, it.call, width)
  {
    var fs := CallFields(w, it.call, width) + Times(it.bgn, it.end);
    FieldsOk(fs, width) && s == EncAll(fs, width) + rest
  }

  lemma BadRecord(frames: int, last: Long, w: Recorder, r: Player, bad: Item, width: nat, rest: seq<Byte>)
    requires IsWidth(width) && frames != 0 && PtrOk(bad.thread, width) && InStep(last, w, r, width)
    requires Recordable(w, bad.call, width) && Unreadable(bad.call, r.exec)
    ensures var fs := RecFields(last, RecOf(w, bad, width));
            FieldsOk(fs, width)
            && var o := Process(frames, r, width, EncAll(fs, width) + rest);
               && o.commands == [] && o.stop == StopOn(bad.call)
               && (o.stop == Unimplemented ==> Behind(o.rest, w, bad, width, rest))
  {
    hide Process, NextOp, ReadArgs, EncAll, CallFields, Recordable, Alive, ReplayedShape, ListFits;
    var c := bad.call;
    RecOfOk(last, w, bad, width);
    CallFieldsOk(w, c, width);
    OpcodeClass(w, c, width);
    var fs, times := CallFields(w, c, width), Times(bad.bgn, bad.end);
    NextOpOf(r, last, bad.thread, Opcode(c), fs + times, width, rest);
    if NullFloat(c) {
      FloatShape();
      NullFloatArgs(w, r.(thread := SeenPtr(bad.thread, width)), bad, width, rest);
    } else {
      BadArgs(w, bad, width, rest);
    }
    OneTurn(frames, r, width, EncAll(RecFields(last, RecOf(w, bad, width)), width) + rest);
  }

  /** A null pointer is read as such, and replay follows it. */
  lemma NullFloatArgs(w: Recorder, r: Player, bad: Item, width: nat, rest: seq<Byte>)
    requires IsWidth(width) && RecorderOk(w) && Recordable(w, bad.call, width) && NullFloat(bad.call) && r.exec
    ensures var fs := CallFields(w, bad.call, width) + Times(bad.bgn, bad.end);
            FieldsOk(fs, width)
            && var a := ReadArgs(r, Opcode(bad.call), width, EncAll(fs, width) + rest);
               a.Args? && !Alive(r, Opcode(bad.call), a.values)
  {
    var args, times := bad.call.args, Times(bad.bgn, bad.end);
    PlainShapes();
    ShapesAgree(OPC_glGetFloatv);
    FloatShape();
    KindsAt(args, 0);
    KindsAt(args, 1);
    var more := [args[1]] + times;
    assert args + times == [args[0]] + more;
    GetFieldOf(args[0], more, width, rest);
    NullFloatRead(times, width, rest);
    hide ReadArgs, EncAll, RecordedShape, ReplayedShape;
    var s := EncAll([args[0]] + more, width) + rest;
    TwoKinds(KInt, KFloatPtr, width, s);
    ReadShaped(r, OPC_glGetFloatv, width, s);
  }

  lemma FloatShape()
    ensures ReplayedShape(OPC_glGetFloatv) == Some([KInt, KFloatPtr])
  {
  }

  lemma ReadShaped(r: Player, op: Word, width: nat, s: seq<Byte>)
    requires IsWidth(width) && ReplayedShape(op).Some?
    ensures var (vs, t) := ReadKinds(ReplayedShape(op).value, width, s);
            ReadArgs(r, op, width, s) == Args(vs, t)
  {
  }

  lemma TwoKinds(k: Kind, l: Kind, width: nat, s: seq<Byte>)
    requires IsWidth(width)
    ensures var (v, t) := Get(k, width, s);
            ReadKinds([k, l], width, s).0 == [v, Get(l, width, t).0]
  {
    var (v, t) := Get(k, width, s);
    assert [k, l][1..] == [l] && [l][1..] == [];
    assert ReadKinds([l], width, t).0 == [Get(l, width, t).0];
  }

  lemma NullFloatRead(times: seq<Field>, width: nat, rest: seq<Byte>)
    requires IsWidth(width) && FieldsOk(times, width)
    ensures Get(KFloatPtr, width, EncAll([FloatPtrF(None)] + times, width) + rest).0 == FloatPtrV(None)
  {
    var f := FloatPtrF(None);
    assert ([f] + times)[1..] == times;
    Associative(ToLE(FLOAT_MARKER, 4) + ToLE(0, 4), EncAll(times, width), rest);
    TwoWords(FLOAT_MARKER, 0, EncAll(times, width) + rest);
  }

  lemma BadArgs(w: Recorder, bad: Item, width: nat, rest: seq<Byte>)
    requires IsWidth(width) && RecorderOk(w) && Recordable(w, bad.call, width)
    requires Unreadable(bad.call, false)
    ensures var fs := CallFields(w, bad.call, width) + Times(bad.bgn, bad.end);
            FieldsOk(fs, width)
            && forall r: Player :: ReadArgs(r, Opcode(bad.call), width, EncAll(fs, width) + rest)
                 == if bad.call.Plain? then NotImplemented else TooManyAttributes
  {
    var c := bad.call;
    var fs, times := CallFields(w, c, width), Times(bad.bgn, bad.end);
    CallFieldsOk(w, c, width);
    OpcodeClass(w, c, width);
    if c.Plain? {
      NotConfigAttrib(c.op);
    } else {
      VariableHasNoShape(Opcode(c));
      EncAllAppend(fs, times, width);
      Associative(EncAll(fs, width), EncAll(times, width), rest);
      BadList(w, c, width, EncAll(times, width) + rest);
    }
  }

  lemma NotConfigAttrib(op: Word)
    requires RecordedShape(op).Some?
    ensures op != OPC_eglGetConfigAttrib
  {
  }

  lemma BadList(w: Recorder, c: Call, width: nat, rest: seq<Byte>)
    requires IsWidth(width) && Recordable(w, c, width) && Unreadable(c, false) && !c.Plain?
    ensures var fs := CallFields(w, c, width);
            FieldsOk(fs, width)
            && forall r: Player :: ReadVariableArgs(r, Opcode(c), width, EncAll(fs, width) + rest) == TooManyAttributes
  {
    hide ReadChooseConfig, ReadEglCreate, EncAll, PairFields;
    if c.ChooseConfig? {
      ReadChooseConfigOf(c, width, rest);
    } else {
      ReadEglCreateOf(c, width, rest);
    }
  }

  /** The decoder recovers a recorded call if and only if the call is supported. */
  lemma ReadCallExactly(w: Recorder, r: Player, c: Call, width: nat, rest: seq<Byte>)
    requires IsWidth(width) && Recordable(w, c, width) && Agree(w, r)
    ensures FieldsOk(CallFields(w, c, width), width)
    ensures var fs := CallFields(w, c, width);
            var got := ReadArgs(r, Opcode(c), width, EncAll(fs, width) + rest);
            Recovered(got, fs, width, rest) <==> Supported(c, r.exec)
  {
    CallFieldsOk(w, c, width);
    if Supported(c, r.exec) {
      ReadCall(w, r, c, width, rest);
    } else if c.Plain? {
      PlainUnread(w, r, c, width, rest);
    } else {
      OpcodeClass(w, c, width);
      VariableHasNoShape(Opcode(c));
      VariableUnread(w, r, c, width, rest);
    }
  }

  lemma PlainUnread(w: Recorder, r: Player, c: Call, width: nat, rest: seq<Byte>)
    requires IsWidth(width) && Recordable(w, c, width) && c.Plain? && !Supported(c, r.exec)
    ensures !Recovered(ReadArgs(r, c.op, width, EncAll(c.args, width) + rest), c.args, width, rest)
  {
    if ReplayedShape(c.op).None? {
      OpcodeClass(w, c, width);
      NotConfigAttrib(c.op);
    } else {
      ShapesAgree(c.op);
      OnlyGetFloatv(c);
      FloatShape();
      var f, g := c.args[0], c.args[1];
      KindsAt(c.args, 0);
      KindsAt(c.args, 1);
      assert c.args == [f] + [g];
      hide ReadArgs, ReplayedShape, RecordedShape, EncAll;
      GetFieldOf(f, [g], width, rest);
      EncOne(g, width);
      GetOf(g, width, rest);
      var s := EncAll(c.args, width) + rest;
      ReadShaped(r, c.op, width, s);
      BothKinds(KInt, KFloatPtr, width, s);
      SeenAt(c.args, width, 1);
    }
  }

  /** Only glGetFloatv has a field that does not always delimit itself. */
  lemma OnlyGetFloatv(c: Call)
    requires c.Plain? && RecordedShape(c.op) == Some(KindsOf(c.args)) && !AllDelimited(c.args)
    ensures c.op == OPC_glGetFloatv && |c.args| == 2 && !Delimited(c.args[1])
  {
    var i :| 0 <= i < |c.args| && !Delimited(c.args[i]);
    KindsAt(c.args, i);
    assert RecordedShape(c.op).value[i] == KFloatPtr;
    FloatsIn(c.op, i);
  }

  lemma FloatsIn(op: Word, i: nat)
    requires RecordedShape(op).Some? && i < |RecordedShape(op).value| && RecordedShape(op).value[i] == KFloatPtr
    ensures op == OPC_glGetFloatv && i == 1 && |RecordedShape(op).value| == 2
  {
  }

  lemma BothKinds(k: Kind, l: Kind, width: nat, s: seq<Byte>)
    requires IsWidth(width)
    ensures var (v, t) := Get(k, width, s);
            var (u, z) := Get(l, width, t);
            ReadKinds([k, l], width, s) == ([v, u], z)
  {
    hide Get;
    var (v, t) := Get(k, width, s);
    var (u, z) := Get(l, width, t);
    assert [k, l][1..] == [l] && [l][1..] == [];
    assert ReadKinds([], width, z) == ([], z);
    assert [u] + [] == [u] && [v] + [u] == [v, u];
    assert ReadKinds([l], width, t) == ([u], z);
  }

  lemma VariableUnread(w: Recorder, r: Player, c: Call, width: nat, rest: seq<Byte>)
    requires IsWidth(width) && Recordable(w, c, width) && !c.Plain? && !Supported(c, r.exec)
    ensures var fs := CallFields(w, c, width);
            FieldsOk(fs, width)
            && !Recovered(ReadVariableArgs(r, Opcode(c), width, EncAll(fs, width) + rest), fs, width, rest)
  {
    hide ReadChooseConfig, ReadEglCreate, ReadAttachedShaders, EncAll, PairFields, SeenAll;
    if c.AttachedShaders? {
      ReadAttachedShadersOf(r.exec, c, width, rest);
    } else if c.ChooseConfig? {
      ReadChooseConfigOf(c, width, rest);
    } else {
      ReadEglCreateOf(c, width, rest);
    }
  }

  /*  Stepping by frames  */

  /** What a further turn of `process` adds to one that has decoded a command. */
  lemma ProcessTurn(frames: int, r: Player, width: nat, s: seq<Byte>)
    requires IsWidth(width) && frames != 0
    ensures var (r1, op, t) := NextOp(r, width, s);
            var a := ReadArgs(r1, op, width, t);
            if op != OPC_NONE && op != OPC_EOF && a.Args? && Alive(r1, op, a.values) then
              var (bgn, y) := GetLong(a.rest);
              var (end, z) := GetLong(y);
              && |z| < |s|
              && Process(frames, r, width, s)
                 == Prepend([Command(r1.thread, op, a.values, bgn, end)],
                            Process(FramesAfter(frames, op), Apply(r1, op, a.values), width, z))
            else
              && (forall n: int :: n != 0 ==> Process(n, r, width, s) == Process(frames, r, width, s))
              && Process(frames, r, width, s).commands == []
              && Process(frames, r, width, s).stop != FramesDone
              && Process(frames, r, width, s).player == r1 && Process(frames, r, width, s).rest == t
  {
  }

  /** Any file: k frames and then m more is k + m frames when the first run got its k frames;
      when it stopped early, k + m frames stop at the same place. */
  lemma {:induction false} FrameSplit(k: nat, m: nat, r: Player, width: nat, s: seq<Byte>)
    requires IsWidth(width) && m > 0
    ensures var o := Process(k, r, width, s);
            Process(k + m, r, width, s)
            == if o.stop == FramesDone then Prepend(o.commands, Process(m, o.player, width, o.rest)) else o
    decreases |s|
  {
    hide Process, NextOp, ReadArgs, GetLong, Apply, Alive;
    if k == 0 {
      NoTurn(r, width, s);
      PrependNone(Process(m, r, width, s));
    } else {
      ProcessTurn(k, r, width, s);
      ProcessTurn(k + m, r, width, s);
      var (r1, op, t) := NextOp(r, width, s);
      var a := ReadArgs(r1, op, width, t);
      if op != OPC_NONE && op != OPC_EOF && a.Args? && Alive(r1, op, a.values) {
        var (bgn, y) := GetLong(a.rest);
        var (end, z) := GetLong(y);
        var k', r', c := FramesAfter(k, op), Apply(r1, op, a.values), Command(r1.thread, op, a.values, bgn, end);
        FrameSplit(k', m, r', width, z);
        var o' := Process(k', r', width, z);
        PrependTwice([c], o'.commands, Process(m, o'.player, width, o'.rest));
      }
    }
  }

  /** On a recorded trace, enough swaps before replay ends mean that the frames are reached. */
  lemma {:induction false} FramesReached(k: nat, last: Long, w: Recorder, r: Player, items: seq<Item>,
                                         width: nat, rest: seq<Byte>)
    requires IsWidth(width) && TraceOk(w, items, width) && AllSupported(items, r.exec)
    requires InStep(last, w, r, width) && k <= LivingSwaps(r.exec, r.stage, w, items, width)
    ensures Process(k, r, width, LogBytes(last, Recs(w, items, width), width) + rest).stop == FramesDone
    decreases |items|
  {
    hide Process, LogBytes, Recs, InStep, CallLives, CallEvents, Recordable, Record, Supported;
    if k > 0 {
      var r1 := StepItem(k, last, w, r, items, width, rest);
      FramesReached(FramesAfter(k, Opcode(items[0].call)), items[0].thread, Record(w, items[0].call), r1,
                    items[1..], width, rest);
    } else {
      NoTurn(r, width, LogBytes(last, Recs(w, items, width), width) + rest);
    }
  }

  /** Recorded traces: k frames and then m more decode the commands of k + m frames, with or without
      a zero-filled tail; when replay ends in the first k frames, k + m frames end there too. */
  lemma FramesOfTrace(k: nat, m: nat, items: seq<Item>, exec: bool, world: World, width: nat, zeros: nat)
    requires IsWidth(width) && TraceOk(Recorder0(), items, width) && AllSupported(items, exec)
    requires k > 0 && m > 0
    ensures var s := TraceBytes(items, width) + Zeros(4 * zeros);
            var o := Process(k, Player0(exec, world), width, s);
            if o.stop == Exited then Process(k + m, Player0(exec, world), width, s) == o
            else o.commands + Process(m, o.player, width, o.rest).commands
                 == Process(k + m, Player0(exec, world), width, s).commands
    ensures var o := Process(k, Player0(exec, world), width, TraceBytes(items, width) + Zeros(4 * zeros));
            o.stop == Exited <==> Lasts(exec, world, items, width) < |items|
                                  && LivingSwaps(exec, Stage0(world), Recorder0(), items, width) < k
  {
    hide Process, LogBytes, Recs, InStep, Supported, Recordable, Living, LivingSwaps;
    var tail := Zeros(4 * zeros);
    var s, p := TraceBytes(items, width) + tail, Player0(exec, world);
    var swaps := LivingSwaps(exec, Stage0(world), Recorder0(), items, width);
    FrameSplit(k, m, p, width, s);
    Start(exec, world, width);
    if k <= swaps {
      FramesReached(k, 0, Recorder0(), p, items, width, tail);
    } else if Lasts(exec, world, items, width) < |items| {
      DyingRun(k, 0, Recorder0(), p, items, width, tail);
    } else {
      AllSwapsLive(exec, Stage0(world), Recorder0(), items, width);
      var r := ReplayRun(k, 0, Recorder0(), p, items, width, tail);
      AtEnd(k - Swaps(items), r, width, zeros);
      DropZeros(zeros);
      AtEnd(m, r, width, if zeros > 0 then zeros - 1 else 0);
      var o := Process(k, p, width, s);
      assert o.commands + [] == o.commands;
    }
  }

  /** A further command can be read and, when replaying, replayed. */
  ghost predicate Decodes(r: Player, width: nat, s: seq<Byte>)
    requires IsWidth(width)
  {
    var (r1, op, t) := NextOp(r, width, s);
    && op != OPC_NONE && op != OPC_EOF
    && var a := ReadArgs(r1, op, width, t); a.Args? && Alive(r1, op, a.values)
  }

  lemma DecodesReports(frames: int, r: Player, width: nat, s: seq<Byte>)
    requires IsWidth(width) && frames != 0
    ensures Process(frames, r, width, s).commands == [] <==> !Decodes(r, width, s)
  {
    hide Process, NextOp, ReadArgs, GetLong, Apply, Alive;
    ProcessTurn(frames, r, width, s);
  }

  /** Calls followed by one that is not implemented: k frames and then m more decode the commands of
      k + m frames if and only if k frames are reached before it, or what is behind its opcode does
      not decode as a command. */
  lemma FramesUpToUnimplemented(k: nat, m: nat, items: seq<Item>, bad: Item, exec: bool, world: World,
                                width: nat, rest: seq<Byte>)
    requires IsWidth(width) && TraceOk(Recorder0(), items, width) && AllSupported(items, exec) && k > 0 && m > 0
    requires var w := RecorderAfter(Recorder0(), items, width);
             RecorderOk(w) && Recordable(w, bad.call, width) && PtrOk(bad.thread, width)
    requires bad.call.Plain? && ReplayedShape(bad.call.op).None?
    ensures var w := RecorderAfter(Recorder0(), items, width);
            var fs := RecFields(LastThread(0, items), RecOf(w, bad, width));
            FieldsOk(fs, width)
            && var s := TraceBytes(items, width) + (EncAll(fs, width) + rest);
               var o, all := Process(k, Player0(exec, world), width, s), Process(k + m, Player0(exec, world), width, s);
               var same := o.commands + Process(m, o.player, width, o.rest).commands == all.commands;
               if k <= LivingSwaps(exec, Stage0(world), Recorder0(), items, width) then o.stop == FramesDone && same
               else if Lasts(exec, world, items, width) < |items| then o.stop == Exited && all == o
               else
                 && o.stop == Unimplemented && all == o && Behind(o.rest, w, bad, width, rest)
                 && (same <==> !Decodes(o.player, width, o.rest))
  {
    hide Process, LogBytes, EncAll, InStep, Recordable, Supported, RecFields, RecOf, AllSupported, Living, LivingSwaps;
    hide TraceOk, ExpectedAll, RecorderAfter, LastThread, Player0, Decodes, Behind, ReplayedShape, Recs;
    var w, last, p := RecorderAfter(Recorder0(), items, width), LastThread(0, items), Player0(exec, world);
    var fs := RecFields(last, RecOf(w, bad, width));
    RecOfOk(last, w, bad, width);
    var tail := EncAll(fs, width) + rest;
    var s := TraceBytes(items, width) + tail;
    Start(exec, world, width);
    StartStage(exec, world);
    FrameSplit(k, m, p, width, s);
    if k <= LivingSwaps(exec, Stage0(world), Recorder0(), items, width) {
      FramesReached(k, 0, Recorder0(), p, items, width, tail);
    } else if Lasts(exec, world, items, width) < |items| {
      DyingRun(k, 0, Recorder0(), p, items, width, tail);
    } else {
      AllSwapsLive(exec, Stage0(world), Recorder0(), items, width);
      var r := ReplayRun(k, 0, Recorder0(), p, items, width, tail);
      NotNullFloat(bad.call);
      BadRecord(k - Swaps(items), last, w, r, bad, width, rest);
      var o := Process(k, p, width, s);
      DecodesReports(m, o.player, width, o.rest);
      Nothing(o.commands, Process(m, o.player, width, o.rest).commands);
    }
  }

  lemma NotNullFloat(c: Call)
    requires c.Plain? && ReplayedShape(c.op).None?
    ensures StopOn(c) == Unimplemented && forall exec: bool :: Unreadable(c, exec)
  {
    FloatShape();
  }

  lemma Nothing(a: seq<Command>, b: seq<Command>)
    ensures a + b == a <==> b == []
  {
    assert |a + b| == |a| + |b|;
  }

  lemma DropZeros(zeros: nat)
    ensures Drop(Zeros(4 * zeros), 4) == Zeros(4 * if zeros > 0 then zeros - 1 else 0)
  {
  }

  /** What glBlendColor records in thread 0 for these components, at time 0. */
  function BlendColor(red: Word): (fs: seq<Field>)
    ensures FieldsOk(fs, 8)
  {
    RecFields(0, Rec(0, 107, [FloatF(red), FloatF(0), FloatF(0), FloatF(0)], 0, 0))
  }

  /** Not so when a command is not implemented: behind the opcode of glBlendColor, stepping frame
      by frame resumes where a longer run has given up. A red component with bit pattern 144 is
      then taken for glFinish. */
  lemma FramesDiffer(world: World)
    ensures var s := EncAll(BlendColor(144), 8);
            var o := Process(1, Player0(false, world), 8, s);
            o.commands + Process(1, o.player, 8, o.rest).commands != Process(2, Player0(false, world), 8, s).commands
  {
    var p := Player0(false, world);
    var more := [FloatF(0), FloatF(0), FloatF(0)] + Times(0, 0);
    var finish := [IntF(144)] + more;
    BlendColorBytes(144);
    var s, t := EncAll([IntF(107)] + finish, 8) + [], EncAll(finish, 8) + [];
    Pow256Values();
    OpcodeAhead(p, 107, finish);
    OpcodeAhead(p, 144, more);
    assert !p.exec;
    hide Process, ReadArgs, NextOp, EncAll, Player0, Alive, Apply;
    BlendColorUnread(p, t);
    FinishRead(p, EncAll(more, 8) + []);
    DecodingIsAlive(p, 144, []);
    ProcessTurn(1, p, 8, s);
    ProcessTurn(2, p, 8, s);
    ProcessTurn(1, p, 8, t);
  }

  lemma OpcodeAhead(p: Player, op: Word, more: seq<Field>)
    requires FieldsOk(more, 8) && op != OPC_THREAD
    ensures NextOp(p, 8, EncAll([IntF(op)] + more, 8) + []) == (p, op, EncAll(more, 8) + [])
  {
    GetIntOf(op, more, 8, []);
    GetCmdIsGetWord(op, more, 8, []);
  }

  lemma DecodingIsAlive(p: Player, op: Word, vs: seq<Value>)
    requires !p.exec
    ensures Alive(p, op, vs)
  {
  }

  /** A float is written like an int of the same bits. */
  lemma BlendColorBytes(red: Word)
    ensures var rest := [FloatF(0), FloatF(0), FloatF(0)] + Times(0, 0);
            EncAll(BlendColor(red), 8) == EncAll([IntF(107)] + ([IntF(red)] + rest), 8) + []
  {
    var rest := [FloatF(0), FloatF(0), FloatF(0)] + Times(0, 0);
    assert BlendColor(red) == [IntF(107)] + ([FloatF(red)] + rest);
    EncAllAppend([IntF(107)], [FloatF(red)] + rest, 8);
    EncAllAppend([IntF(107)], [IntF(red)] + rest, 8);
    EncAllAppend([FloatF(red)], rest, 8);
    EncAllAppend([IntF(red)], rest, 8);
    EncOne(FloatF(red), 8);
    EncOne(IntF(red), 8);
    assert EncAll([IntF(107)] + ([IntF(red)] + rest), 8) + [] == EncAll([IntF(107)] + ([IntF(red)] + rest), 8);
  }

  lemma BlendColorUnread(p: Player, t: seq<Byte>)
    ensures ReadArgs(p, 107, 8, t) == NotImplemented
  {
    assert ReplayedShape(107) == None;
  }

  lemma FinishRead(p: Player, t: seq<Byte>)
    ensures ReadArgs(p, 144, 8, t) == Args([], t)
  {
    assert ReplayedShape(144) == Some([]);
  }
}
