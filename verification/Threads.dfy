/** Many threads recording through one lock: `putCmd` takes it, `endCmd` gives it back, and a
    reentrance counter silences the calls an intercepted call makes itself. */
module Threads {
  import opened Bytes
  import opened Fields
  import opened TraceWriter
  import opened Calls
  import opened Replay
  import opened Traces
  import opened WholeTrace

  /** What a thread does inside an intercepted call; a call between an Enter and its Leave that
      enters again is nested. */
  datatype Event =
    | Enter(t: Long, op: Word)              // putCmd
    | PutField(t: Long, f: Field)           // any other put
    | Leave(t: Long, bgn: Long, end: Long)  // putTime

  /** The recursive mutex (owner, depth) and the statics of iolib.c. */
  datatype Machine = Machine(owner: Option<Long>, depth: nat, reentrance: int, curThread: Long, log: seq<Byte>)

  function Start0(width: nat): Machine
    requires IsWidth(width)
  {
    Machine(None, 0, 0, 0, EncAll(Header(width), width))
  }

  /** A thread waits for the lock to enter, and puts only while it holds the lock. */
  predicate Enabled(m: Machine, e: Event, width: nat) {
    match e
    case Enter(t, _) => PtrOk(t, width) && (m.owner == None || m.owner == Some(t))
    case PutField(t, f) => m.owner == Some(t) && m.depth > 0 && FieldOk(f, width)
    case Leave(t, _, _) => m.owner == Some(t) && m.depth > 0
  }

  function Step(m: Machine, e: Event, width: nat): Machine
    requires IsWidth(width) && Enabled(m, e, width)
  {
    match e
    case Enter(t, op) =>
      if m.reentrance + 1 > 1 then m.(owner := Some(t), depth := m.depth + 1, reentrance := m.reentrance + 1)
      else
        Machine(Some(t), m.depth + 1, m.reentrance + 1, t, m.log + EncAll(Prefix(m.curThread, t, op), width))
    case PutField(_, f) =>
      if m.reentrance > 1 then m else m.(log := m.log + Enc(f, width))
    case Leave(_, bgn, end) =>
      var log := if m.reentrance > 1 then m.log else m.log + EncAll(Times(bgn, end), width);
      Machine(if m.depth == 1 then None else m.owner, m.depth - 1, m.reentrance - 1, m.curThread, log)
  }

  /*  What the events alone say should be on record  */

  /** Nesting depth, the open outermost call (thread, opcode, puts so far), the completed ones. */
  datatype Summary = Summary(depth: nat, thread: Long, op: Word, fields: seq<Field>, done: seq<Rec>)

  const Summary0 := Summary(0, 0, 0, [], [])

  function Observe(s: Summary, e: Event): Summary {
    match e
    case Enter(t, op) => if s.depth == 0 then Summary(1, t, op, [], s.done) else s.(depth := s.depth + 1)
    case PutField(_, f) => if s.depth == 1 then s.(fields := s.fields + [f]) else s
    case Leave(_, bgn, end) =>
      if s.depth == 1 then Summary(0, s.thread, s.op, [], s.done + [Rec(s.thread, s.op, s.fields, bgn, end)])
      else if s.depth == 0 then s
      else s.(depth := s.depth - 1)
  }

  function LastOf(recs: seq<Rec>): Long {
    if recs == [] then 0 else recs[|recs| - 1].thread
  }

  /** The bytes of the open record so far. */
  function OpenFields(s: Summary): seq<Field> {
    if s.depth == 0 then [] else Prefix(LastOf(s.done), s.thread, s.op) + s.fields
  }

  /** The counter is the lock depth; the log is the complete outermost records in the order the
      lock was taken, plus at most one open record, of the lock's owner. */
  ghost predicate Inv(m: Machine, s: Summary, width: nat) {
    && IsWidth(width) && m.reentrance == m.depth == s.depth
    && m.owner == (if s.depth == 0 then None else Some(s.thread))
    && m.curThread == (if s.depth == 0 then LastOf(s.done) else s.thread)
    && RecsOk(s.done, width) && FieldsOk(s.fields, width) && (s.depth > 0 ==> PtrOk(s.thread, width))
    && FieldsOk(OpenFields(s), width)
    && m.log == EncAll(Header(width), width) + LogBytes(0, s.done, width) + EncAll(OpenFields(s), width)
  }

  lemma {:induction false} LogBytesSnoc(last: Long, recs: seq<Rec>, rec: Rec, width: nat)
    requires RecsOk(recs, width) && RecOk(rec, width)
    ensures RecsOk(recs + [rec], width)
    ensures var fs := RecFields(if recs == [] then last else LastOf(recs), rec);
            FieldsOk(fs, width)
            && LogBytes(last, recs + [rec], width) == LogBytes(last, recs, width) + EncAll(fs, width)
    decreases |recs|
  {
    var all := recs + [rec];
    RecFieldsOk(if recs == [] then last else LastOf(recs), rec, width);
    if recs == [] {
      assert all[1..] == [];
      assert LogBytes(rec.thread, [], width) == [];
      assert EncAll(RecFields(last, rec), width) + [] == EncAll(RecFields(last, rec), width);
      assert [] + EncAll(RecFields(last, rec), width) == EncAll(RecFields(last, rec), width);
    } else {
      assert all[1..] == recs[1..] + [rec];
      LogBytesSnoc(recs[0].thread, recs[1..], rec, width);
      RecFieldsOk(last, recs[0], width);
      var fs := RecFields(LastOf(recs), rec);
      Associative(EncAll(RecFields(last, recs[0]), width), LogBytes(recs[0].thread, recs[1..], width),
          EncAll(fs, width));
    }
  }

  lemma EnterKeeps(m: Machine, s: Summary, e: Event, width: nat)
    requires Inv(m, s, width) && Enabled(m, e, width) && e.Enter?
    ensures Inv(Step(m, e, width), Observe(s, e), width)
  {
    if s.depth == 0 {
      var p := Prefix(LastOf(s.done), e.t, e.op);
      assert p + [] == p;
      assert m.log == EncAll(Header(width), width) + LogBytes(0, s.done, width);
    }
  }

  lemma PutKeeps(m: Machine, s: Summary, e: Event, width: nat)
    requires Inv(m, s, width) && Enabled(m, e, width) && e.PutField?
    ensures Inv(Step(m, e, width), Observe(s, e), width)
  {
    if s.depth == 1 {
      var open := OpenFields(s);
      EncAllAppend(open, [e.f], width);
      EncOne(e.f, width);
      assert open + [e.f] == OpenFields(Observe(s, e));
      Associative(EncAll(Header(width), width) + LogBytes(0, s.done, width), EncAll(open, width), Enc(e.f, width));
    }
  }

  lemma LeaveKeeps(m: Machine, s: Summary, e: Event, width: nat)
    requires Inv(m, s, width) && Enabled(m, e, width) && e.Leave?
    ensures Inv(Step(m, e, width), Observe(s, e), width)
  {
    if s.depth == 1 {
      var rec, times := Rec(s.thread, s.op, s.fields, e.bgn, e.end), Times(e.bgn, e.end);
      CloseRecord(s, rec, width);
      EncAllAppend(OpenFields(s), times, width);
      hide LogBytes, EncAll, RecFields;
      var h, l := EncAll(Header(width), width), LogBytes(0, s.done, width);
      var o, t := EncAll(OpenFields(s), width), EncAll(times, width);
      Associative(h + l, o, t);
      Associative(h, l, o + t);
      Nothing(h + (l + (o + t)), width);
    }
  }

  lemma Nothing(log: seq<Byte>, width: nat)
    ensures log + EncAll([], width) == log
  {
  }

  lemma CloseRecord(s: Summary, rec: Rec, width: nat)
    requires s.depth == 1 && RecsOk(s.done, width) && RecOk(rec, width)
    requires rec.thread == s.thread && rec.op == s.op && rec.fields == s.fields
    ensures RecsOk(s.done + [rec], width)
    ensures var fs := OpenFields(s) + Times(rec.bgn, rec.end);
            FieldsOk(fs, width)
            && LogBytes(0, s.done + [rec], width) == LogBytes(0, s.done, width) + EncAll(fs, width)
  {
    LogBytesSnoc(0, s.done, rec, width);
    assert RecFields(LastOf(s.done), rec) == OpenFields(s) + Times(rec.bgn, rec.end);
  }

  predicate RunOk(m: Machine, es: seq<Event>, width: nat)
    requires IsWidth(width)
    decreases |es|
  {
    es == [] || (Enabled(m, es[0], width) && RunOk(Step(m, es[0], width), es[1..], width))
  }

  function RunOf(m: Machine, es: seq<Event>, width: nat): Machine
    requires IsWidth(width) && RunOk(m, es, width)
    decreases |es|
  {
    if es == [] then m else RunOf(Step(m, es[0], width), es[1..], width)
  }

  function Summarize(s: Summary, es: seq<Event>): Summary
    decreases |es|
  {
    if es == [] then s else Summarize(Observe(s, es[0]), es[1..])
  }

  /** Safety over every interleaving and every nesting. */
  lemma {:induction false} EveryRunKeeps(m: Machine, s: Summary, es: seq<Event>, width: nat)
    requires Inv(m, s, width) && RunOk(m, es, width)
    ensures Inv(RunOf(m, es, width), Summarize(s, es), width)
    decreases |es|
  {
    if es != [] {
      StepKeeps(m, s, es[0], width);
      EveryRunKeeps(Step(m, es[0], width), Observe(s, es[0]), es[1..], width);
    }
  }

  lemma InitialInv(width: nat)
    requires IsWidth(width)
    ensures Inv(Start0(width), Summary0, width)
  {
    var h := EncAll(Header(width), width);
    assert h + [] + [] == h;
  }

  /** Nothing is recorded: neither bytes nor puts of the open call. */
  ghost predicate Silent(m: Machine, s: Summary, m': Machine, s': Summary) {
    m'.log == m.log && m'.curThread == m.curThread && s'.done == s.done && s'.fields == s.fields
    && s'.thread == s.thread && s'.op == s.op
  }

  lemma SilentStep(m: Machine, s: Summary, e: Event, width: nat)
    requires Inv(m, s, width) && Enabled(m, e, width)
    requires if e.Enter? then m.depth >= 1 else m.depth >= 2
    ensures Silent(m, s, Step(m, e, width), Observe(s, e))
  {
  }

  /** In every state of the run the lock is held at least `depth` times. */
  predicate StaysAbove(m: Machine, es: seq<Event>, width: nat, depth: nat)
    requires IsWidth(width) && RunOk(m, es, width)
    decreases |es|
  {
    m.depth >= depth && (es != [] ==> StaysAbove(Step(m, es[0], width), es[1..], width, depth))
  }

  lemma {:induction false} SilentRun(m: Machine, s: Summary, es: seq<Event>, width: nat)
    requires Inv(m, s, width) && RunOk(m, es, width) && StaysAbove(m, es, width, 2)
    ensures Silent(m, s, RunOf(m, es, width), Summarize(s, es))
    decreases |es|
  {
    if es != [] {
      EveryRunKeeps(m, s, [es[0]], width);
      SilentStep(m, s, es[0], width);
      SilentRun(Step(m, es[0], width), Observe(s, es[0]), es[1..], width);
    }
  }

  lemma {:induction false} RunSnoc(m: Machine, s: Summary, es: seq<Event>, e: Event, width: nat)
    requires IsWidth(width) && RunOk(m, es, width) && Enabled(RunOf(m, es, width), e, width)
    ensures RunOk(m, es + [e], width)
    ensures RunOf(m, es + [e], width) == Step(RunOf(m, es, width), e, width)
    ensures Summarize(s, es + [e]) == Observe(Summarize(s, es), e)
    decreases |es|
  {
    if es == [] {
      assert es + [e] == [e] && [e][1..] == [];
    } else {
      assert (es + [e])[1..] == es[1..] + [e];
      RunSnoc(Step(m, es[0], width), Observe(s, es[0]), es[1..], e, width);
    }
  }

  /** A whole nested call -- from its Enter, with the lock already held, over anything that happens
      before its own Leave -- records nothing, and leaves the lock as deep as it was. */
  lemma NestedCallIsSilent(m: Machine, s: Summary, enter: Event, inner: seq<Event>, leave: Event, width: nat)
    requires Inv(m, s, width) && m.depth >= 1 && enter.Enter? && leave.Leave? && Enabled(m, enter, width)
    requires RunOk(Step(m, enter, width), inner, width)
    requires StaysAbove(Step(m, enter, width), inner, width, m.depth + 1)
    requires var n := RunOf(Step(m, enter, width), inner, width);
             n.depth == m.depth + 1 && Enabled(n, leave, width)
    ensures var es := [enter] + (inner + [leave]);
            && RunOk(m, es, width) && RunOf(m, es, width).depth == m.depth
            && Silent(m, s, RunOf(m, es, width), Summarize(s, es))
  {
    var m1, s1 := Step(m, enter, width), Observe(s, enter);
    SilentStep(m, s, enter, width);
    EveryRunKeeps(m, s, [enter], width);
    AboveLess(m1, inner, width, m.depth + 1);
    SilentRun(m1, s1, inner, width);
    EveryRunKeeps(m1, s1, inner, width);
    SilentStep(RunOf(m1, inner, width), Summarize(s1, inner), leave, width);
    RunSnoc(m1, s1, inner, leave, width);
    assert ([enter] + (inner + [leave]))[1..] == inner + [leave];
  }

  lemma {:induction false} AboveLess(m: Machine, es: seq<Event>, width: nat, depth: nat)
    requires IsWidth(width) && RunOk(m, es, width) && StaysAbove(m, es, width, depth) && depth >= 2
    ensures StaysAbove(m, es, width, 2)
    decreases |es|
  {
    if es != [] {
      AboveLess(Step(m, es[0], width), es[1..], width, depth);
    }
  }

  /** A run in which every call is complete, and whose outermost records are in log order those
      of intercepted calls, decodes to those calls, each attributed to the thread that made it; with
      replay, up to the first call it does not get through. */
  lemma AttributedReplay(es: seq<Event>, items: seq<Item>, exec: bool, world: World, width: nat)
    requires IsWidth(width) && RunOk(Start0(width), es, width) && RunOf(Start0(width), es, width).depth == 0
    requires TraceOk(Recorder0(), items, width) && AllSupported(items, exec)
    requires Summarize(Summary0, es).done == Recs(Recorder0(), items, width)
    ensures var log := RunOf(Start0(width), es, width).log;
            OpenTrace(log) == Some((width, TraceBytes(items, width)))
            && var o := Process(-1, Player0(exec, world), width, TraceBytes(items, width));
               && Replays(o, items, exec, world, width, [])
               && |o.commands| <= |Summarize(Summary0, es).done|
               && forall i :: 0 <= i < |o.commands| ==>
                    SameThread(Summarize(Summary0, es).done[i], o.commands[i], width)
  {
    hide Process, ExpectedAll, Recs, Lasts, LogBytes, RecordedEvents;
    var log, s := RunOf(Start0(width), es, width).log, Summarize(Summary0, es);
    InitialInv(width);
    EveryRunKeeps(Start0(width), Summary0, es, width);
    var bytes := TraceBytes(items, width);
    assert log == EncAll(Header(width), width) + (bytes + Zeros(4 * 0));
    assert bytes + Zeros(4 * 0) == bytes;
    WholeTraceRoundTrip(items, exec, world, width, 0);
    ThreadsKept(Recorder0(), items, width);
  }

  ghost predicate SameThread(r: Rec, c: Command, width: nat) {
    IsWidth(width) && PtrOk(r.thread, width) && c.thread == SeenPtr(r.thread, width)
  }

  lemma {:induction false} ThreadsKept(w: Recorder, items: seq<Item>, width: nat)
    requires IsWidth(width) && TraceOk(w, items, width)
    ensures forall i :: 0 <= i < |items| ==>
              SameThread(Recs(w, items, width)[i], ExpectedAll(w, items, width)[i], width)
    decreases |items|
  {
    if items != [] {
      hide SameThread, CallFields, Record, Recordable, SeenAll;
      var w' := Record(w, items[0].call);
      ThreadsKept(w', items[1..], width);
      FirstThread(w, items[0], width);
    }
  }

  lemma FirstThread(w: Recorder, it: Item, width: nat)
    requires IsWidth(width) && PtrOk(it.thread, width) && RecorderOk(w) && Recordable(w, it.call, width)
    ensures SameThread(RecOf(w, it, width), Expected(w, it, width), width)
  {
    hide CallFields, Recordable, SeenAll;
  }

  /** The chunked writer carries out the machine's steps. */
  ghost predicate Matches(w: Writer, m: Machine)
    reads w, w.chunk
  {
    w.Valid() && w.Log() == m.log && w.reentrance == m.reentrance && w.curThread == m.curThread
  }

  method Perform(w: Writer, e: Event, ghost m: Machine)
    requires Matches(w, m) && Enabled(m, e, w.width) && m.reentrance >= 0
    modifies w, w.chunk
    ensures w.chunk == old(w.chunk) || fresh(w.chunk)
    ensures Matches(w, Step(m, e, w.width))
  {
    assert m.log + [] == m.log;
    ghost var next := Step(m, e, w.width);
    match e {
      case Enter(t, op) =>
        w.PutCmd(t, op);
        assert w.Log() == next.log && w.curThread == next.curThread;
      case PutField(_, f) => w.Put(f);
      case Leave(_, bgn, end) => w.PutTime(bgn, end);
    }
  }

  /** A whole run of the threads on a new writer, and the file it leaves. */
  method PerformAll(chunkSize: nat, width: nat, es: seq<Event>) returns (file: seq<Byte>)
    requires chunkSize > 0 && chunkSize % 4 == 0 && IsWidth(width) && RunOk(Start0(width), es, width)
    ensures file == RunOf(Start0(width), es, width).log
  {
    var w := new Writer(chunkSize, width);
    ghost var m := Start0(width);
    InitialInv(width);
    ghost var s := Summary0;
    var i := 0;
    assert es[0..] == es;
    while i < |es|
      invariant 0 <= i <= |es| && fresh(w.chunk) && w.width == width && Matches(w, m) && Inv(m, s, width)
      invariant RunOk(m, es[i..], width) && RunOf(m, es[i..], width) == RunOf(Start0(width), es, width)
    {
      hide Step, Inv, Enabled;
      assert es[i..][0] == es[i] && es[i..][1..] == es[i + 1..];
      CounterIsDepth(m, s, width);
      Perform(w, es[i], m);
      StepKeeps(m, s, es[i], width);
      m, s := Step(m, es[i], width), Observe(s, es[i]);
      i := i + 1;
    }
    assert es[i..] == [];
    file := w.Fini();
  }

  lemma CounterIsDepth(m: Machine, s: Summary, width: nat)
    requires Inv(m, s, width)
    ensures m.reentrance >= 0
  {
  }

  lemma StepKeeps(m: Machine, s: Summary, e: Event, width: nat)
    requires Inv(m, s, width) && Enabled(m, e, width)
    ensures Inv(Step(m, e, width), Observe(s, e), width)
  {
    match e
    case Enter(_, _) => EnterKeeps(m, s, e, width);
    case PutField(_, _) => PutKeeps(m, s, e, width);
    case Leave(_, _, _) => LeaveKeeps(m, s, e, width);
  }

  /*  What threads can do  */

  function PutEvents(t: Long, fs: seq<Field>): seq<Event> {
    if fs == [] then [] else [PutField(t, fs[0])] + PutEvents(t, fs[1..])
  }

  /** A whole call that makes no other. */
  function CallEvents(rec: Rec): seq<Event> {
    [Enter(rec.thread, rec.op)] + (PutEvents(rec.thread, rec.fields) + [Leave(rec.thread, rec.bgn, rec.end)])
  }

  lemma {:induction false} PutsRun(m: Machine, s: Summary, t: Long, fs: seq<Field>, width: nat)
    requires Inv(m, s, width) && FieldsOk(fs, width) && m.owner == Some(t) && m.depth == 1
    ensures RunOk(m, PutEvents(t, fs), width)
    ensures var n := RunOf(m, PutEvents(t, fs), width); n.owner == Some(t) && n.depth == 1
    decreases |fs|
  {
    if fs != [] {
      var e := PutField(t, fs[0]);
      assert PutEvents(t, fs)[1..] == PutEvents(t, fs[1..]);
      PutSteps(m, s, t, fs[0], width);
      hide Inv, Step, Enabled, FieldOk, Observe;
      PutsRun(Step(m, e, width), Observe(s, e), t, fs[1..], width);
    }
  }

  lemma {:induction false} PutsSeen(s: Summary, t: Long, fs: seq<Field>)
    requires s.depth == 1
    ensures Summarize(s, PutEvents(t, fs)) == s.(fields := s.fields + fs)
    decreases |fs|
  {
    if fs == [] {
      assert s.fields + fs == s.fields;
    } else {
      assert PutEvents(t, fs)[1..] == PutEvents(t, fs[1..]);
      PutsSeen(Observe(s, PutField(t, fs[0])), t, fs[1..]);
      assert (s.fields + [fs[0]]) + fs[1..] == s.fields + fs;
    }
  }

  lemma PutSteps(m: Machine, s: Summary, t: Long, f: Field, width: nat)
    requires Inv(m, s, width) && FieldOk(f, width) && m.owner == Some(t) && m.depth == 1
    ensures Enabled(m, PutField(t, f), width)
    ensures var n := Step(m, PutField(t, f), width);
            n.owner == Some(t) && n.depth == 1 && Inv(n, Observe(s, PutField(t, f)), width)
  {
    StepKeeps(m, s, PutField(t, f), width);
    hide Inv;
  }

  lemma DepthSeen(m: Machine, s: Summary, width: nat)
    requires Inv(m, s, width)
    ensures s.depth == m.depth && (m.depth == 0 <==> m.owner == None)
  {
  }

  /** Whenever the lock is free, any thread can make any call, which then is on record. */
  lemma CallRuns(m: Machine, s: Summary, rec: Rec, width: nat)
    requires Inv(m, s, width) && m.depth == 0 && RecOk(rec, width)
    ensures RunOk(m, CallEvents(rec), width)
    ensures RunOf(m, CallEvents(rec), width).depth == 0
    ensures Summarize(s, CallEvents(rec)).done == s.done + [rec]
  {
    var enter, puts, leave := Enter(rec.thread, rec.op), PutEvents(rec.thread, rec.fields),
                              Leave(rec.thread, rec.bgn, rec.end);
    DepthSeen(m, s, width);
    StepKeeps(m, s, enter, width);
    var m1, s1 := Step(m, enter, width), Observe(s, enter);
    hide Inv;
    PutsRun(m1, s1, rec.thread, rec.fields, width);
    PutsSeen(s1, rec.thread, rec.fields);
    RunSnoc(m1, s1, puts, leave, width);
    assert CallEvents(rec)[1..] == puts + [leave];
    assert [] + rec.fields == rec.fields;
  }

  /** While a thread holds the lock no other can enter, put or leave. */
  lemma OthersWait(m: Machine, e: Event, t: Long, width: nat)
    requires m.owner == Some(t) && Enabled(m, e, width)
    ensures e.t == t
  {
  }
}
