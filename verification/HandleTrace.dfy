/** Replaying the calls of a trace: what a recorded call creates and uses, and when replay gets through
    it. */
module HandleTrace {
  import opened Bytes
  import opened Fields
  import opened Calls
  import opened Replay
  import opened RoundTrip
  import opened Traces
  import opened HandleReplay

  /*  The handles in an intercepted call, as the decoder sees pointers  */

  function ArgPtr(args: seq<Field>, i: nat, width: nat): Handle
    requires FieldsOk(args, width)
  {
    if i < |args| && args[i].PtrF? then SeenPtr(args[i].p, width) else 0
  }

  ghost function CallEvents(w: Recorder, c: Call, actual: Handle, width: nat): seq<Event>
    requires Recordable(w, c, width)
  {
    match c
    case EglCreate(op, _, _, third, _, handle) =>
      if op == OPC_eglCreateWindowSurface then [Create(Surface, SeenPtr(handle, width), actual)]
      else
        var share := if third != 0 then [Use(Context, SeenPtr(third, width))] else [];
        share + [Create(Context, SeenPtr(handle, width), actual)]
    case Plain(op, args) =>
      if op == OPC_eglMakeCurrent then
        [Use(Surface, ArgPtr(args, 1, width)), Use(Surface, ArgPtr(args, 2, width)),
         Use(Context, ArgPtr(args, 3, width))]
      else if op == OPC_eglDestroyContext then [Use(Context, ArgPtr(args, 1, width))]
      else if op == OPC_eglSurfaceAttrib || op == OPC_eglSwapBuffers then [Use(Surface, ArgPtr(args, 1, width))]
      else []
    case _ => []
  }

  lemma SeenPtrOrNull(fs: seq<Field>, i: nat, width: nat)
    requires IsWidth(width) && FieldsOk(fs, width)
    ensures PtrAt(SeenAll(fs, width), i) == ArgPtr(fs, i, width)
  {
    if i < |fs| {
      SeenAt(fs, width, i);
    }
  }

  lemma PlainEvents(w: Recorder, c: Call, actual: Handle, width: nat)
    requires IsWidth(width) && RecorderOk(w) && Recordable(w, c, width) && c.Plain?
    ensures CommandEvents(c.op, SeenAll(c.args, width), actual) == CallEvents(w, c, actual, width)
  {
    hide SeenAll, RecordedShape;
    PlainNeverCreates(c);
    SeenPtrOrNull(c.args, 1, width);
    SeenPtrOrNull(c.args, 2, width);
    SeenPtrOrNull(c.args, 3, width);
  }

  lemma PlainNeverCreates(c: Call)
    requires c.Plain? && RecordedShape(c.op).Some?
    ensures c.op != OPC_eglCreateWindowSurface && c.op != OPC_eglCreateContext
  {
  }

  lemma CreateEvents(w: Recorder, c: Call, actual: Handle, width: nat)
    requires IsWidth(width) && RecorderOk(w) && Recordable(w, c, width) && c.EglCreate?
    ensures FieldsOk(CallFields(w, c, width), width)
    ensures CommandEvents(c.op, SeenAll(CallFields(w, c, width), width), actual) == CallEvents(w, c, actual, width)
  {
    CallFieldsOk(w, c, width);
    var fs := CallFields(w, c, width);
    var n := |fs| - 1;
    assert fs[2] == PtrF(c.third) && fs[n] == PtrF(c.handle);
    hide SeenAll, CallFields;
    SeenPtrOrNull(fs, 2, width);
    SeenPtrOrNull(fs, n, width);
    SeenNull(c.third, width);
  }

  /** A decoded call has the handles of the recorded one. */
  lemma CallEventsSeen(w: Recorder, it: Item, actual: Handle, width: nat)
    requires IsWidth(width) && RecorderOk(w) && Recordable(w, it.call, width) && PtrOk(it.thread, width)
    ensures var e := Expected(w, it, width);
            CommandEvents(e.op, e.values, actual) == CallEvents(w, it.call, actual, width)
  {
    var c := it.call;
    OpcodeClass(w, c, width);
    if c.Plain? {
      PlainEvents(w, c, actual, width);
    } else if c.EglCreate? {
      CreateEvents(w, c, actual, width);
    } else {
      OtherOpcodes(w, c, width);
    }
  }

  lemma OtherOpcodes(w: Recorder, c: Call, width: nat)
    requires Recordable(w, c, width) && !c.Plain? && !c.EglCreate?
    ensures Opcode(c) !in {OPC_eglCreateWindowSurface, OPC_eglCreateContext, OPC_eglMakeCurrent,
                           OPC_eglDestroyContext, OPC_eglSurfaceAttrib, OPC_eglSwapBuffers}
  {
  }

  /*  When replay gets through a call  */

  predicate FieldAt(args: seq<Field>, i: nat, f: Field) {
    i < |args| && args[i] == f
  }

  /** A result was asked for with a null pointer, which replay follows. */
  predicate NullCall(c: Call) {
    match c
    case Plain(op, args) =>
      || (op == OPC_glGetIntegerv && FieldAt(args, 1, IntPtrF(None)))
      || (op == OPC_glGetFloatv && FieldAt(args, 1, FloatPtrF(None)))
    case ActiveUniform(_, _, _, _, _, _, np, _, _, _, _) => np == 0
    case _ => false
  }

  /** GL generates the recorded names, and has a string where one is asked for. */
  predicate Answered(c: Call, reply: Reply) {
    match c
    case Names(op, _, ids) => op in {149, 151, 152, 153} ==> ids <= reply.names
    case Plain(op, _) => op == OPC_glGetString || op == OPC_eglQueryString ==> reply.text
    case _ => true
  }

  ghost predicate CallLives(exec: bool, st: Stage, w: Recorder, c: Call, width: nat)
    requires Recordable(w, c, width)
  {
    exec ==>
      && FitBehind(st.past, CallEvents(w, c, Now(st).handle, width))
      && !NullCall(c) && Answered(c, Now(st))
  }

  lemma PlainNull(c: Call, width: nat)
    requires IsWidth(width) && c.Plain? && FieldsOk(c.args, width) && RecordedShape(c.op) == Some(KindsOf(c.args))
    ensures FollowsNull(c.op, SeenAll(c.args, width)) <==> NullCall(c)
  {
    var n := |c.args| - 1;
    PlainShapes();
    GenShapes(c.op);
    hide RecordedShape;
    if c.op in {OPC_glGetIntegerv, OPC_glGetFloatv, OPC_glGetString, OPC_eglQueryString} {
      SeenAt(c.args, width, 1);
      SeenAt(c.args, width, n);
      KindsAt(c.args, 1);
      KindsAt(c.args, n);
    }
  }

  lemma PlainShapes()
    ensures RecordedShape(OPC_glGetIntegerv) == Some([KInt, KIntPtr])
    ensures RecordedShape(OPC_glGetFloatv) == Some([KInt, KFloatPtr])
    ensures RecordedShape(OPC_glGetString) == Some([KInt, KStr])
    ensures RecordedShape(OPC_eglQueryString) == Some([KPtr, KInt, KStr])
  {
  }

  lemma GenShapes(op: Word)
    ensures RecordedShape(OPC_glGetActiveUniform) == None
    ensures IsGenOp(op) ==> RecordedShape(op) == None
  {
  }

  lemma NamesAnswered(n: Word, ids: seq<Word>, op: Word, reply: Reply, width: nat)
    ensures var fs := [IntF(n)] + IntFields(ids);
            Answers(op, SeenAll(fs, width), reply)
            <==> (IsGenOp(op) ==> ids <= reply.names)
                 && (op == OPC_glGetString || op == OPC_eglQueryString ==> reply.text)
  {
    var fs := [IntF(n)] + IntFields(ids);
    var vs := SeenAll(fs, width);
    forall i | 1 <= i < |vs|
      ensures vs[i] == IntV(ids[i - 1])
    {
      SeenAt(fs, width, i);
    }
    if IsGenOp(op) && Answers(op, vs, reply) {
      forall i | 0 <= i < |ids|
        ensures ids[i] == reply.names[i]
      {
        assert vs[i + 1] == IntV(reply.names[i]);
      }
    }
  }

  lemma UniformNull(c: Call, width: nat)
    requires IsWidth(width) && c.ActiveUniform? && Recordable(Recorder0(), c, width)
    ensures var fs := UniformInputs(c) + UniformOutputs(c);
            FieldsOk(fs, width) && (FollowsNull(OPC_glGetActiveUniform, SeenAll(fs, width)) <==> NullCall(c))
  {
    var fs := UniformInputs(c) + UniformOutputs(c);
    SeenPtrAt(fs, 6, width);
    SeenAt(fs, width, |fs| - 1);
    assert fs[6] == PtrF(c.namePtr);
    if c.namePtr != 0 {
      assert fs[|fs| - 1] == StrF(Some(c.name));
    }
  }

  lemma OtherLives(w: Recorder, c: Call, vs: seq<Value>, reply: Reply, width: nat)
    requires Recordable(w, c, width) && !c.Plain? && !c.Names? && !c.ActiveUniform?
    ensures !FollowsNull(Opcode(c), vs) && Answers(Opcode(c), vs, reply)
  {
  }

  lemma NamesLive(op: Word, vs: seq<Value>)
    requires IsNamesOp(op)
    ensures !FollowsNull(op, vs) && op != OPC_glGetString && op != OPC_eglQueryString
  {
  }

  lemma UniformAnswers(vs: seq<Value>, reply: Reply)
    ensures Answers(OPC_glGetActiveUniform, vs, reply)
  {
  }

  /** The decoder's check of a decoded call is a condition on the recorded one. */
  lemma LivesSeen(w: Recorder, r: Player, it: Item, width: nat)
    requires IsWidth(width) && RecorderOk(w) && Recordable(w, it.call, width) && PtrOk(it.thread, width)
    ensures var e := Expected(w, it, width);
            Alive(r, e.op, e.values) <==> CallLives(r.exec, r.stage, w, it.call, width)
  {
    var c, reply := it.call, Now(r.stage);
    CallEventsSeen(w, it, reply.handle, width);
    NullSeen(w, it, width);
    AnswersSeen(w, it, reply, width);
    hide CommandEvents, CallEvents, FollowsNull, NullCall, Answers, Answered, Expected, Recordable;
  }

  lemma NullSeen(w: Recorder, it: Item, width: nat)
    requires IsWidth(width) && RecorderOk(w) && Recordable(w, it.call, width) && PtrOk(it.thread, width)
    ensures var e := Expected(w, it, width); FollowsNull(e.op, e.values) <==> NullCall(it.call)
  {
    var c := it.call;
    CallFieldsOk(w, c, width);
    hide SeenAll, RecordedShape;
    if c.Plain? {
      PlainNull(c, width);
    } else if c.Names? {
      NamesLive(c.op, SeenAll(CallFields(w, c, width), width));
    } else if c.ActiveUniform? {
      UniformNull(c, width);
    } else {
      OtherLives(w, c, SeenAll(CallFields(w, c, width), width), Reply(0, [], true), width);
    }
  }

  lemma AnswersSeen(w: Recorder, it: Item, reply: Reply, width: nat)
    requires IsWidth(width) && RecorderOk(w) && Recordable(w, it.call, width) && PtrOk(it.thread, width)
    ensures var e := Expected(w, it, width); Answers(e.op, e.values, reply) <==> Answered(it.call, reply)
  {
    var c := it.call;
    CallFieldsOk(w, c, width);
    GenShapes(Opcode(c));
    hide SeenAll, RecordedShape;
    if c.Names? {
      NamesAnswered(c.n, c.ids, c.op, reply, width);
      NamesLive(c.op, []);
    } else if c.ActiveUniform? {
      UniformAnswers(SeenAll(CallFields(w, c, width), width), reply);
    } else if !c.Plain? {
      OtherLives(w, c, SeenAll(CallFields(w, c, width), width), reply, width);
    }
  }
}
