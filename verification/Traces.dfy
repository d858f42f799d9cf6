/** Whole traces: what `process` makes of the bytes a run of calls has recorded. */
module Traces {
  import opened Bytes
  import opened Fields
  import opened VertexAttrib
  import opened TraceWriter
  import opened Calls
  import opened Replay
  import opened RoundTrip

  /*  One call  */

  /** Commands with a record of variable shape. */
  predicate IsVariable(op: Word) {
    || IsNamesOp(op) || op == OPC_glShaderSource || op == OPC_glGetActiveUniform
    || op == OPC_glGetAttachedShaders || op == OPC_glDrawElements
    || op == OPC_eglChooseConfig || op == OPC_eglCreateWindowSurface || op == OPC_eglCreateContext
  }

  lemma NamesHaveNoShape(op: Word)
    requires IsNamesOp(op)
    ensures RecordedShape(op).None? && ReplayedShape(op).None?
  {
  }

  lemma VariableHasNoShape(op: Word)
    requires IsVariable(op)
    ensures RecordedShape(op).None? && ReplayedShape(op).None?
  {
    if IsNamesOp(op) { NamesHaveNoShape(op); }
  }

  lemma ReservedHaveNoShape()
    ensures RecordedShape(OPC_NONE).None? && RecordedShape(OPC_EOF).None? && RecordedShape(OPC_THREAD).None?
  {
  }

  lemma OpcodeClass(w: Recorder, c: Call, width: nat)
    requires Recordable(w, c, width)
    ensures Opcode(c) != OPC_NONE && Opcode(c) != OPC_EOF && Opcode(c) != OPC_THREAD
    ensures c.Plain? <==> !IsVariable(Opcode(c))
  {
    ReservedHaveNoShape();
    if IsVariable(Opcode(c)) {
      VariableHasNoShape(Opcode(c));
    }
  }

  lemma CallFieldsOk(w: Recorder, c: Call, width: nat)
    requires IsWidth(width) && Recordable(w, c, width) && RecorderOk(w)
    ensures FieldsOk(CallFields(w, c, width), width)
  {
    match c
    case Plain(_, _) =>
    case Names(_, _, _) =>
    case ShaderSource(_, _, _) =>
    case ActiveUniform(_, _, _, _, _, _, _, _, _, _, _) => ReadActiveUniformOf(c, width, []);
    case AttachedShaders(_, _, _, _, _, _) => ReadAttachedFieldsOk(c, width);
    case DrawElements(_, _, _, _, _) =>
      if w.arrayBuffer == 0 {
        BlocksOk(w.attribs, 0, VertexCount(Signed(c.count)), c.mem, width);
      }
    case ChooseConfig(_, _, _, _, _, _) => ReadChooseConfigOf(c, width, []);
    case EglCreate(_, _, _, _, _, _) => ReadEglCreateOf(c, width, []);
  }

  lemma ReadAttachedFieldsOk(c: Call, width: nat)
    requires c.AttachedShaders? && Recordable(Recorder0(), c, width)
    ensures FieldsOk(ShaderInputs(c) + ShaderOutputs(c), width)
  {
  }

  ghost predicate CallRead(w: Recorder, r: Player, c: Call, width: nat, rest: seq<Byte>)
    requires IsWidth(width) && Recordable(w, c, width)
  {
    var fs := CallFields(w, c, width);
    && FieldsOk(fs, width)
    && Recovered(ReadVariableArgs(r, Opcode(c), width, EncAll(fs, width) + rest), fs, width, rest)
  }

  lemma NamesRead(w: Recorder, r: Player, c: Call, width: nat, rest: seq<Byte>)
    requires IsWidth(width) && Recordable(w, c, width) && c.Names?
    ensures CallRead(w, r, c, width, rest)
  {
    ReadNamesOf(c.n, c.ids, width, rest);
  }

  lemma ShaderSourceRead(w: Recorder, r: Player, c: Call, width: nat, rest: seq<Byte>)
    requires IsWidth(width) && Recordable(w, c, width) && c.ShaderSource?
    ensures CallRead(w, r, c, width, rest)
  {
    ReadShaderSourceOf(c.shader, c.count, c.parts, width, rest);
  }

  lemma ActiveUniformRead(w: Recorder, r: Player, c: Call, width: nat, rest: seq<Byte>)
    requires IsWidth(width) && Recordable(w, c, width) && c.ActiveUniform?
    ensures CallRead(w, r, c, width, rest)
  {
    ReadActiveUniformOf(c, width, rest);
  }

  lemma AttachedShadersRead(w: Recorder, r: Player, c: Call, width: nat, rest: seq<Byte>)
    requires IsWidth(width) && Recordable(w, c, width) && c.AttachedShaders? && Supported(c, r.exec)
    ensures CallRead(w, r, c, width, rest)
  {
    ReadAttachedShadersOf(r.exec, c, width, rest);
  }

  lemma DrawElementsRead(w: Recorder, r: Player, c: Call, width: nat, rest: seq<Byte>)
    requires IsWidth(width) && Recordable(w, c, width) && c.DrawElements? && Agree(w, r)
    ensures CallRead(w, r, c, width, rest)
  {
    ReadDrawElementsOf(w, r, c, width, rest);
  }

  lemma ChooseConfigRead(w: Recorder, r: Player, c: Call, width: nat, rest: seq<Byte>)
    requires IsWidth(width) && Recordable(w, c, width) && c.ChooseConfig? && Supported(c, r.exec)
    ensures CallRead(w, r, c, width, rest)
  {
    hide ReadChooseConfig, ReadEglCreate, EncAll, SeenAll, PairFields;
    ReadChooseConfigOf(c, width, rest);
  }

  lemma EglCreateRead(w: Recorder, r: Player, c: Call, width: nat, rest: seq<Byte>)
    requires IsWidth(width) && Recordable(w, c, width) && c.EglCreate? && Supported(c, r.exec)
    ensures CallRead(w, r, c, width, rest)
  {
    hide ReadChooseConfig, ReadEglCreate, EncAll, SeenAll, PairFields;
    ReadEglCreateOf(c, width, rest);
  }

  lemma VariableRead(w: Recorder, r: Player, c: Call, width: nat, rest: seq<Byte>)
    requires IsWidth(width) && Recordable(w, c, width) && Agree(w, r) && Supported(c, r.exec) && !c.Plain?
    ensures CallRead(w, r, c, width, rest)
  {
    match c
    case Names(_, _, _) => NamesRead(w, r, c, width, rest);
    case ShaderSource(_, _, _) => ShaderSourceRead(w, r, c, width, rest);
    case ActiveUniform(_, _, _, _, _, _, _, _, _, _, _) => ActiveUniformRead(w, r, c, width, rest);
    case AttachedShaders(_, _, _, _, _, _) => AttachedShadersRead(w, r, c, width, rest);
    case DrawElements(_, _, _, _, _) => DrawElementsRead(w, r, c, width, rest);
    case ChooseConfig(_, _, _, _, _, _) => ChooseConfigRead(w, r, c, width, rest);
    case EglCreate(_, _, _, _, _, _) => EglCreateRead(w, r, c, width, rest);
  }

  /** One record: the decoder, whose mirror agrees with the recorder's state, recovers every
      argument of the call and stops where the record stops. */
  lemma ReadCall(w: Recorder, r: Player, c: Call, width: nat, rest: seq<Byte>)
    requires IsWidth(width) && Recordable(w, c, width) && Agree(w, r) && Supported(c, r.exec)
    ensures FieldsOk(CallFields(w, c, width), width)
    ensures var fs := CallFields(w, c, width);
            Recovered(ReadArgs(r, Opcode(c), width, EncAll(fs, width) + rest), fs, width, rest)
  {
    if c.Plain? {
      ShapesAgree(c.op);
      ReadKindsOf(c.args, width, rest);
    } else {
      OpcodeClass(w, c, width);
      VariableHasNoShape(Opcode(c));
      VariableRead(w, r, c, width, rest);
    }
  }

  /*  The mirrors  */

  lemma ApplyDefined(r: Player, c: Call, width: nat)
    requires IsWidth(width) && c.Plain? && Recordable(Recorder0(), c, width) && Supported(c, r.exec)
    ensures RecordedShape(c.op) == ReplayedShape(c.op)
    ensures OfKinds(SeenAll(c.args, width), ReplayedShape(c.op).value)
  {
    ShapesAgree(c.op);
    ReadKindsOf(c.args, width, []);
  }

  lemma AgreeBindBuffer(w: Recorder, r: Player, c: Call, width: nat)
    requires IsWidth(width) && c.Plain? && Recordable(w, c, width) && Agree(w, r) && c.op == OPC_glBindBuffer
    requires OfKinds(SeenAll(c.args, width), ReplayedShape(c.op).value)
    ensures Agree(RecordPlain(w, c.op, c.args), Apply(r, c.op, SeenAll(c.args, width)))
  {
    Kinds2(c.args);
    SeenAt(c.args, width, 0);
    SeenAt(c.args, width, 1);
  }

  lemma AgreeEnable(w: Recorder, r: Player, c: Call, width: nat)
    requires IsWidth(width) && c.Plain? && Recordable(w, c, width) && Agree(w, r)
    requires c.op == OPC_glEnableVertexAttribArray || c.op == OPC_glDisableVertexAttribArray
    requires OfKinds(SeenAll(c.args, width), ReplayedShape(c.op).value)
    ensures Agree(RecordPlain(w, c.op, c.args), Apply(r, c.op, SeenAll(c.args, width)))
  {
    Kinds1(c.args);
    SeenAt(c.args, width, 0);
  }

  lemma AgreePointer(w: Recorder, r: Player, c: Call, width: nat)
    requires IsWidth(width) && c.Plain? && Recordable(w, c, width) && Agree(w, r)
    requires c.op == OPC_glVertexAttribPointer
    requires OfKinds(SeenAll(c.args, width), ReplayedShape(c.op).value)
    ensures Agree(RecordPlain(w, c.op, c.args), Apply(r, c.op, SeenAll(c.args, width)))
  {
    Kinds6(c.args);
    SeenAt(c.args, width, 0);
    SeenAt(c.args, width, 1);
    SeenAt(c.args, width, 2);
    SeenAt(c.args, width, 3);
  }

  /** The state after a decoded call. */
  ghost function AfterCall(w: Recorder, r: Player, c: Call, width: nat): Player
    requires IsWidth(width) && Recordable(w, c, width) && Agree(w, r) && Supported(c, r.exec)
  {
    ReadCall(w, r, c, width, []);
    Apply(r, Opcode(c), SeenAll(CallFields(w, c, width), width))
  }

  /** Recorder and player keep agreeing, whatever is called. */
  lemma AgreeStep(w: Recorder, r: Player, c: Call, width: nat)
    requires IsWidth(width) && Recordable(w, c, width) && Agree(w, r) && Supported(c, r.exec)
    ensures Agree(Record(w, c), AfterCall(w, r, c, width))
    ensures AfterCall(w, r, c, width).exec == r.exec && AfterCall(w, r, c, width).thread == r.thread
  {
    if c.Plain? {
      ApplyDefined(r, c, width);
      if c.op == OPC_glBindBuffer {
        AgreeBindBuffer(w, r, c, width);
      } else if c.op == OPC_glEnableVertexAttribArray || c.op == OPC_glDisableVertexAttribArray {
        AgreeEnable(w, r, c, width);
      } else if c.op == OPC_glVertexAttribPointer {
        AgreePointer(w, r, c, width);
      }
    } else {
      OpcodeClass(w, c, width);
    }
  }

  /** Replay has looked up and bound the handles of the call. */
  lemma StageStep(w: Recorder, r: Player, c: Call, width: nat)
    requires IsWidth(width) && Recordable(w, c, width) && Agree(w, r) && Supported(c, r.exec)
    ensures FieldsOk(CallFields(w, c, width), width)
    ensures AfterCall(w, r, c, width).stage
         == NextStage(r.exec, r.stage,
                      CommandEvents(Opcode(c), SeenAll(CallFields(w, c, width), width), Now(r.stage).handle))
  {
    hide CommandEvents, SeenAll, CallFields, Recordable, Supported, Agree;
    ReadCall(w, r, c, width, []);
  }

  /*  A record with its prefix and time stamps  */

  lemma NextOpOf(r: Player, last: Long, thread: Long, op: Word, more: seq<Field>, width: nat, rest: seq<Byte>)
    requires IsWidth(width) && thread < Pow256(width) && last < Pow256(width) && FieldsOk(more, width)
    requires r.thread == SeenPtr(last, width) && op != OPC_THREAD
    ensures FieldsOk(Prefix(last, thread, op) + more, width)
    ensures NextOp(r, width, EncAll(Prefix(last, thread, op) + more, width) + rest)
         == (r.(thread := SeenPtr(thread, width)), op, EncAll(more, width) + rest)
  {
    GetCmdOf(op, more, width, rest);
    if thread != last {
      var tail := [IntF(op)] + more;
      assert Prefix(last, thread, op) + more == [IntF(OPC_THREAD)] + ([PtrF(thread)] + tail);
      GetCmdOf(OPC_THREAD, [PtrF(thread)] + tail, width, rest);
      GetFieldOf(PtrF(thread), tail, width, rest);
      hide GetCmd, EncAll;
    }
  }

  lemma GetCmdOf(op: Word, more: seq<Field>, width: nat, rest: seq<Byte>)
    requires IsWidth(width) && FieldsOk(more, width)
    ensures FieldsOk([IntF(op)] + more, width)
    ensures GetCmd(EncAll([IntF(op)] + more, width) + rest) == (op, EncAll(more, width) + rest)
  {
    GetIntOf(op, more, width, rest);
    GetCmdIsGetWord(op, more, width, rest);
  }

  lemma GetCmdIsGetWord(op: Word, more: seq<Field>, width: nat, rest: seq<Byte>)
    requires FieldsOk(more, width)
    ensures var s := EncAll([IntF(op)] + more, width) + rest;
            GetCmd(s) == GetWord(s)
  {
    assert ([IntF(op)] + more)[1..] == more;
  }

  lemma GetTimesOf(bgn: Long, end: Long, width: nat, rest: seq<Byte>)
    ensures var s := EncAll(Times(bgn, end), width) + rest;
            && GetLong(s).0 == bgn
            && GetLong(GetLong(s).1) == (end, rest)
  {
    assert Times(bgn, end)[1..] == [LongF(end)];
    EncOne(LongF(end), width);
    Associative(ToLE(bgn, 8), ToLE(end, 8), rest);
    GetLongOf(bgn, ToLE(end, 8) + rest);
    GetLongOf(end, rest);
  }

  /** A call on a thread, with its time stamps. */
  datatype Item = Item(thread: Long, call: Call, bgn: Long, end: Long)

  ghost function RecOf(w: Recorder, it: Item, width: nat): Rec
    requires Recordable(w, it.call, width)
  {
    Rec(it.thread, Opcode(it.call), CallFields(w, it.call, width), it.bgn, it.end)
  }

  /** What replay should report for it. */
  ghost function Expected(w: Recorder, it: Item, width: nat): Command
    requires IsWidth(width) && PtrOk(it.thread, width) && RecorderOk(w) && Recordable(w, it.call, width)
  {
    CallFieldsOk(w, it.call, width);
    Command(SeenPtr(it.thread, width), Opcode(it.call), SeenAll(CallFields(w, it.call, width), width), it.bgn, it.end)
  }

  ghost function Prepend(cs: seq<Command>, o: Outcome): Outcome {
    o.(commands := cs + o.commands)
  }

  /** One turn of `process` takes exactly one record off the trace, unless replaying it ends the
      program. */
  lemma ProcessRecord(frames: int, last: Long, w: Recorder, r: Player, it: Item, width: nat, rest: seq<Byte>)
    requires IsWidth(width) && frames != 0 && PtrOk(it.thread, width) && PtrOk(last, width)
    requires Recordable(w, it.call, width) && Agree(w, r) && Supported(it.call, r.exec)
    requires r.thread == SeenPtr(last, width)
    ensures RecOk(RecOf(w, it, width), width)
    ensures var fs := RecFields(last, RecOf(w, it, width));
            var r1 := r.(thread := SeenPtr(it.thread, width));
            && FieldsOk(fs, width)
            && var o := Process(frames, r, width, EncAll(fs, width) + rest);
               if Alive(r1, Opcode(it.call), Expected(w, it, width).values) then
                 o == Prepend([Expected(w, it, width)],
                              Process(FramesAfter(frames, Opcode(it.call)), AfterCall(w, r1, it.call, width),
                                      width, rest))
               else o.commands == [] && o.stop == Exited
  {
    hide Alive, Apply, CallFields, Recordable, Supported, ReadArgs, NextOp, EncAll;
    var r1 := r.(thread := SeenPtr(it.thread, width));
    var fs, times := CallFields(w, it.call, width), Times(it.bgn, it.end);
    CallFieldsOk(w, it.call, width);
    RecFieldsOk(last, RecOf(w, it, width), width);
    OpcodeClass(w, it.call, width);
    NextOpOf(r, last, it.thread, Opcode(it.call), fs + times, width, rest);
    EncAllAppend(fs, times, width);
    Associative(EncAll(fs, width), EncAll(times, width), rest);
    ReadCall(w, r1, it.call, width, EncAll(times, width) + rest);
    GetTimesOf(it.bgn, it.end, width, rest);
  }
}
