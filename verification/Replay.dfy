/** The replay side: retrace.c's decoder loop, with its own mirror of the bindings. */
module Replay {
  import opened Bytes
  import opened Fields
  import opened VertexAttrib
  import opened TraceWriter
  import opened Calls
  import HandleMap
  import opened HandleReplay

  const OPC_NONE: Word := 0
  const OPC_EOF: Word := 0xffff_ffff
  const MAX_ATTRIB_LIST := 64

  /** The gets of the commands `process` reads with a fixed shape, in the order of retrace.c;
      None where it is not implemented. */
  function ReplayedShape(op: Word): Option<seq<Kind>> {
    if op == 1 then Some([KStr])
    else if op in {100, 108, 115, 118, 120, 125, 127, 130, 132, 134, 135, 138, 139, 142, 143} then Some([KInt])
    else if op in {101, 103, 104, 105, 106, 109, 110, 114, 126, 137} then Some([KInt, KInt])
    else if op == 102 then Some([KInt, KInt, KStr])
    else if op in {111, 119, 146} then Some([KInt, KInt, KInt, KInt])
    else if op == 112 then Some([KInt, KInt, KBytes, KInt])
    else if op == 113 then Some([KInt, KInt, KInt, KBytes])
    else if op == 116 then Some([KFloat, KFloat, KFloat, KFloat])
    else if op == 117 then Some([KFloat])
    else if op == 121 then Some([KInt, KInt, KInt, KInt, KInt, KInt, KInt, KBytes])
    else if op == 122 then Some([KInt, KInt, KInt, KInt, KInt, KInt, KInt, KInt, KBytes])
    else if op in {123, 124} then Some([KInt, KInt, KInt, KInt, KInt, KInt, KInt, KInt])
    else if op == 136 then Some([KFloat, KFloat])
    else if op == 140 then Some([KInt, KInt, KInt])
    else if op in {144, 145} then Some([])
    else if op == 147 then Some([KInt, KInt, KInt, KInt, KInt])
    else if op in {148, 150, 160, 189} then Some([KInt])
    else if op in {157, 176} then Some([KInt, KStr, KInt])
    else if op in {158, 190} then Some([KInt, KInt])
    else if op == 161 then Some([KInt, KFloatPtr])
    else if op in {162, 194, 196} then Some([KInt, KInt, KInt, KInt])
    else if op == 163 then Some([KInt, KIntPtr])
    else if op in {164, 166, 167, 208} then Some([KInt, KInt, KInt])
    else if op == 171 then Some([KInt, KStr])
    else if op == 191 then Some([KFloat, KFloat])
    else if op in {205, 210} then Some([KInt, KInt, KInt, KInt, KInt, KInt, KInt, KInt, KBytes])
    else if op == 211 then Some([KInt, KFloat])
    else if op in {212, 224} then Some([KInt, KInt, KBytes])
    else if op == 213 then Some([KInt, KInt])
    else if op == 215 then Some([KInt, KFloat, KFloat])
    else if op == 219 then Some([KInt, KFloat, KFloat, KFloat])
    else if op == 223 then Some([KInt, KFloat, KFloat, KFloat, KFloat])
    else if op in {227, 228, 229} then Some([KInt, KInt, KInt, KBytes])
    else if op in {230, 231} then Some([KInt])
    else if op == 240 then Some([KInt, KInt, KInt, KInt, KInt, KPtr])
    else if op == 241 then Some([KInt, KInt, KInt, KInt])
    else if op == 701 then Some([KPtr, KPtr])
    else if op == 702 then Some([KPtr, KIntPtr, KIntPtr, KInt])
    else if op == 704 then Some([KPtr, KInt, KStr])
    else if op == 713 then Some([KInt, KInt])
    else if op == 718 then Some([KPtr, KPtr, KInt, KInt, KInt])
    else if op in {722, 730} then Some([KPtr, KPtr, KInt])
    else if op == 723 then Some([KPtr, KPtr, KPtr, KPtr, KInt])
    else None
  }

  /** The decoder implements every fixed-shape command of the recorder, with the same shape, except
      for six: glBlendColor, glUniform2i, glUniform3i, glUniform4i, glUniform4iv, eglTerminate. */
  lemma ShapesAgree(op: Word)
    ensures ReplayedShape(op) == if op in {107, 217, 221, 225, 226, 703} then None else RecordedShape(op)
  {
  }

  datatype ReplayAttrib = ReplayAttrib(enabled: bool, size: Word, ty: Word, normalized: Word)

  type Handle = HandleMap.Handle

  /** What GL or EGL answers to a replayed command: the object created, the names generated, whether
      a queried string is there. */
  datatype Reply = Reply(handle: Handle, names: seq<Word>, text: bool)

  /** The order in which the compiled program reads the four arguments of eglGetConfigAttrib, which C
      leaves open. */
  type ArgOrder = ks: seq<Kind> | multiset(ks) == multiset{KPtr, KPtr, KInt, KInt} witness [KPtr, KPtr, KInt, KInt]

  /** What replay depends on outside of the trace: the compiler, and the answer to the n-th command. */
  datatype World = World(order: ArgOrder, reply: nat -> Reply)

  /** The handles bound and looked up so far, and the number of the next command. */
  datatype Stage = Stage(world: World, past: seq<Event>, turn: nat)

  function Now(st: Stage): Reply {
    st.world.reply(st.turn)
  }

  /** The statics of retrace.c; `exec` is the -replay flag. */
  datatype Player = Player(exec: bool, thread: Long, arrayBuffer: Word, elementBuffer: Word,
                           attribs: seq<ReplayAttrib>, stage: Stage)

  function Player0(exec: bool, world: World): Player {
    Player(exec, 0, 0, 0, seq(MAX_VERTEX_ATTRIBS, _ => ReplayAttrib(false, 0, 0, 0)), Stage(world, [], 0))
  }

  /** The arguments of one record; the failures are the early returns and exits of `process`. */
  datatype ArgsResult =
    | Args(values: seq<Value>, rest: seq<Byte>)
    | NotImplemented
    | TooManyAttributes

  function Repeat(k: Kind, n: nat): seq<Kind> {
    if n == 0 then [] else [k] + Repeat(k, n - 1)
  }

  function ReadParts(n: nat, width: nat, s: seq<Byte>): (r: (seq<Value>, seq<Byte>))
    requires IsWidth(width)
    ensures |r.1| <= |s|
  {
    if n == 0 then ([], s)
    else
      var (len, t) := GetWord(s);
      var (v, u) := Get(if Signed(len) > 0 then KBytes else KStr, width, t);
      var (vs, z) := ReadParts(n - 1, width, u);
      ([IntV(len), v] + vs, z)
  }

  /** The loop into `attrib_list[64]`; None is its FATAL exit. */
  function ReadPairs(s: seq<Byte>, i: nat): (r: Option<(seq<Value>, seq<Byte>)>)
    ensures r.Some? ==> |r.value.1| <= |s|
    decreases MAX_ATTRIB_LIST - i
  {
    if i >= MAX_ATTRIB_LIST then None
    else
      var (k, t) := GetWord(s);
      if k == EGL_NONE then Some(([IntV(k)], t))
      else
        var (v, u) := GetWord(t);
        var more := ReadPairs(u, i + 2);
        if more.None? then None else Some(([IntV(k), IntV(v)] + more.value.0, more.value.1))
  }

  /** One block per attribute the mirror has enabled. */
  function EnabledKinds(attribs: seq<ReplayAttrib>, i: nat): seq<Kind>
    requires i <= |attribs|
    decreases |attribs| - i
  {
    if i == |attribs| then []
    else (if attribs[i].enabled then [KBytes] else []) + EnabledKinds(attribs, i + 1)
  }

  function ReadNames(width: nat, s: seq<Byte>): ArgsResult
    requires IsWidth(width)
  {
    var (n, t) := GetWord(s);
    var (vs, u) := ReadKinds(Repeat(KInt, NonNegative(Signed(n))), width, t);
    Args([IntV(n)] + vs, u)
  }

  function ReadShaderSource(width: nat, s: seq<Byte>): ArgsResult
    requires IsWidth(width)
  {
    var (vs, t) := ReadKinds([KInt, KInt], width, s);
    var (ws, u) := ReadParts(NonNegative(Signed(vs[1].w)), width, t);
    Args(vs + ws, u)
  }

  function OutputKinds(lp: Long, sp: Long, tp: Long, np: Long): seq<Kind> {
    (if lp != 0 then [KInt] else []) + (if sp != 0 then [KInt] else []) +
    (if tp != 0 then [KInt] else []) + (if np != 0 then [KStr] else [])
  }

  function ReadActiveUniform(width: nat, s: seq<Byte>): ArgsResult
    requires IsWidth(width)
  {
    var (vs, t) := ReadKinds([KInt, KInt, KInt, KPtr, KPtr, KPtr, KPtr], width, s);
    var (ws, u) := ReadKinds(OutputKinds(vs[3].p, vs[4].p, vs[5].p, vs[6].p), width, t);
    Args(vs + ws, u)
  }

  /** The shader list is read only when replaying. */
  function ReadShaderList(exec: bool, counted: bool, listed: bool, width: nat, s: seq<Byte>)
      : (r: (seq<Value>, seq<Byte>))
    requires IsWidth(width)
    ensures |r.1| <= |s|
  {
    if !counted then ([], s)
    else
      var (count, t) := GetWord(s);
      var (vs, u) := ReadKinds(if exec && listed then Repeat(KInt, NonNegative(Signed(count))) else [], width, t);
      ([IntV(count)] + vs, u)
  }

  function ReadAttachedShaders(exec: bool, width: nat, s: seq<Byte>): ArgsResult
    requires IsWidth(width)
  {
    var (vs, t) := ReadKinds([KInt, KInt, KPtr, KPtr], width, s);
    var (ws, u) := ReadShaderList(exec, vs[2].p != 0, vs[3].p != 0, width, t);
    Args(vs + ws, u)
  }

  function ReadDrawElements(r: Player, width: nat, s: seq<Byte>): ArgsResult
    requires IsWidth(width)
  {
    var (vs, t) := ReadKinds([KInt, KInt, KInt], width, s);
    var (i, u) := Get(if r.elementBuffer != 0 then KPtr else KBytes, width, t);
    var (ws, z) := ReadKinds(if r.arrayBuffer != 0 then [] else EnabledKinds(r.attribs, 0), width, u);
    Args(vs + ([i] + ws), z)
  }

  function ReadChooseConfig(width: nat, s: seq<Byte>): ArgsResult
    requires IsWidth(width)
  {
    var (vs, t) := ReadKinds([KPtr], width, s);
    var list := ReadPairs(t, 0);
    if list.None? then TooManyAttributes
    else
      var (ns, u) := ReadKinds([KInt, KInt], width, list.value.1);
      var (cs, y) := ReadKinds(Repeat(KPtr, ConfigCount(ns[1].w, ns[0].w)), width, u);
      var (res, z) := ReadKinds([KInt], width, y);
      Args(vs + (list.value.0 + (ns + (cs + res))), z)
  }

  function ReadEglCreate(width: nat, s: seq<Byte>): ArgsResult
    requires IsWidth(width)
  {
    var (vs, t) := ReadKinds([KPtr, KPtr, KPtr], width, s);
    var list := ReadPairs(t, 0);
    if list.None? then TooManyAttributes
    else
      var (res, u) := ReadKinds([KPtr], width, list.value.1);
      Args(vs + (list.value.0 + res), u)
  }

  function ReadConfigAttrib(order: ArgOrder, width: nat, s: seq<Byte>): ArgsResult
    requires IsWidth(width)
  {
    var (vs, t) := ReadKinds(order + [KInt], width, s);
    Args(vs, t)
  }

  function ReadVariableArgs(r: Player, op: Word, width: nat, s: seq<Byte>): (a: ArgsResult)
    requires IsWidth(width)
    ensures a.Args? ==> |a.rest| <= |s|
  {
    if IsNamesOp(op) then ReadNames(width, s)
    else if op == OPC_glShaderSource then ReadShaderSource(width, s)
    else if op == OPC_glGetActiveUniform then ReadActiveUniform(width, s)
    else if op == OPC_glGetAttachedShaders then ReadAttachedShaders(r.exec, width, s)
    else if op == OPC_glDrawElements then ReadDrawElements(r, width, s)
    else if op == OPC_eglChooseConfig then ReadChooseConfig(width, s)
    else if op == OPC_eglCreateWindowSurface || op == OPC_eglCreateContext then ReadEglCreate(width, s)
    else if op == OPC_eglGetConfigAttrib then ReadConfigAttrib(r.stage.world.order, width, s)
    else NotImplemented
  }

  /** The switch of `process`, up to `getTime`. */
  function ReadArgs(r: Player, op: Word, width: nat, s: seq<Byte>): (a: ArgsResult)
    requires IsWidth(width)
    ensures a.Args? ==> |a.rest| <= |s|
    ensures a.Args? && ReplayedShape(op).Some? ==> OfKinds(a.values, ReplayedShape(op).value)
  {
    var shape := ReplayedShape(op);
    if shape.None? then ReadVariableArgs(r, op, width, s)
    else
      var (vs, t) := ReadKinds(shape.value, width, s);
      Args(vs, t)
  }

  /*  Replaying a command  */

  function PtrAt(vs: seq<Value>, i: int): Handle {
    if 0 <= i < |vs| && vs[i].PtrV? then vs[i].p else 0
  }

  /** The handles that are looked up and bound for a command; `actual` is what a creation returns
      now. */
  function CommandEvents(op: Word, vs: seq<Value>, actual: Handle): seq<Event> {
    if op == OPC_eglCreateWindowSurface then [Create(Surface, PtrAt(vs, |vs| - 1), actual)]
    else if op == OPC_eglCreateContext then
      (if PtrAt(vs, 2) != 0 then [Use(Context, PtrAt(vs, 2))] else [])
      + [Create(Context, PtrAt(vs, |vs| - 1), actual)]
    else if op == OPC_eglMakeCurrent then
      [Use(Surface, PtrAt(vs, 1)), Use(Surface, PtrAt(vs, 2)), Use(Context, PtrAt(vs, 3))]
    else if op == OPC_eglDestroyContext then [Use(Context, PtrAt(vs, 1))]
    else if op == OPC_eglSurfaceAttrib || op == OPC_eglSwapBuffers then [Use(Surface, PtrAt(vs, 1))]
    else []
  }

  predicate ValueAt(vs: seq<Value>, i: int, v: Value) {
    0 <= i < |vs| && vs[i] == v
  }

  /** Replay compares its result with a recorded one that is null. */
  predicate FollowsNull(op: Word, vs: seq<Value>) {
    || (op == OPC_glGetIntegerv && ValueAt(vs, 1, IntPtrV(None)))
    || (op == OPC_glGetFloatv && ValueAt(vs, 1, FloatPtrV(None)))
    || (op == OPC_glGetActiveUniform && (ValueAt(vs, 6, PtrV(0)) || ValueAt(vs, |vs| - 1, StrV(None))))
    || ((op == OPC_glGetString || op == OPC_eglQueryString) && ValueAt(vs, |vs| - 1, StrV(None)))
  }

  /** glGen*. */
  predicate IsGenOp(op: Word) {
    op in {149, 151, 152, 153}
  }

  /** The answer lets replay go on: it exits on generated names that are not the recorded ones, and
      compares with a string without looking whether there is one. */
  predicate Answers(op: Word, vs: seq<Value>, reply: Reply) {
    && (IsGenOp(op) ==> |vs| <= |reply.names| + 1 && forall i :: 1 <= i < |vs| ==> vs[i] == IntV(reply.names[i - 1]))
    && (op == OPC_glGetString || op == OPC_eglQueryString ==> reply.text)
  }

  /** Replay gets through the command. */
  ghost predicate Alive(r: Player, op: Word, vs: seq<Value>) {
    r.exec ==>
      && FitBehind(r.stage.past, CommandEvents(op, vs, Now(r.stage).handle))
      && !FollowsNull(op, vs) && Answers(op, vs, Now(r.stage))
  }

  /** The stage after a command. */
  function NextStage(exec: bool, st: Stage, es: seq<Event>): Stage {
    Stage(st.world, if exec then st.past + es else st.past, st.turn + 1)
  }

  /** The statics after a command. */
  function Apply(r: Player, op: Word, vs: seq<Value>): Player
    requires ReplayedShape(op).Some? ==> OfKinds(vs, ReplayedShape(op).value)
  {
    Mirror(r, op, vs).(stage := NextStage(r.exec, r.stage, CommandEvents(op, vs, Now(r.stage).handle)))
  }

  /** The mirror after a command; the size, type and normalisation of an attribute are kept
      only when replaying. */
  function Mirror(r: Player, op: Word, vs: seq<Value>): Player
    requires ReplayedShape(op).Some? ==> OfKinds(vs, ReplayedShape(op).value)
  {
    if op == OPC_glBindBuffer then
      assert KindOfValue(vs[0]) == KInt && KindOfValue(vs[1]) == KInt;
      if vs[0].w == GL_ARRAY_BUFFER then r.(arrayBuffer := vs[1].w)
      else if vs[0].w == GL_ELEMENT_ARRAY_BUFFER then r.(elementBuffer := vs[1].w)
      else r
    else if op == OPC_glEnableVertexAttribArray || op == OPC_glDisableVertexAttribArray then
      assert KindOfValue(vs[0]) == KInt;
      var i := vs[0].w;
      if i >= |r.attribs| then r
      else r.(attribs := r.attribs[i := r.attribs[i].(enabled := op == OPC_glEnableVertexAttribArray)])
    else if op == OPC_glVertexAttribPointer && r.exec then
      assert forall k :: 0 <= k < 4 ==> KindOfValue(vs[k]) == KInt;
      var i := vs[0].w;
      if i >= |r.attribs| then r
      else r.(attribs := r.attribs[i := ReplayAttrib(r.attribs[i].enabled, vs[1].w, vs[2].w, vs[3].w)])
    else r
  }

  /** `getCmd`: the end of the file reads as OPC_EOF. */
  function GetCmd(s: seq<Byte>): (r: (Word, seq<Byte>))
    ensures |r.1| <= |s| && (r.0 != OPC_EOF ==> |r.1| + 4 == |s|)
  {
    if |s| < 4 then (OPC_EOF, s) else GetWord(s)
  }

  /** A decoded command, attributed to the thread of the last prefix. */
  datatype Command = Command(thread: Long, op: Word, values: seq<Value>, bgn: Long, end: Long)

  /** Why `process` stops; Exited is the end of the program, by FATAL or by a null pointer. */
  datatype Stop = FramesDone | EndOfTrace | Unimplemented | Exited

  datatype Outcome = Outcome(commands: seq<Command>, player: Player, rest: seq<Byte>, stop: Stop)

  /** The opcode of the next record, its thread prefix taken off. */
  function NextOp(r: Player, width: nat, s: seq<Byte>): (n: (Player, Word, seq<Byte>))
    requires IsWidth(width)
    ensures |n.2| <= |s| && (n.1 != OPC_EOF ==> |n.2| < |s|)
  {
    var (cmd, t) := GetCmd(s);
    if cmd != OPC_THREAD then (r, cmd, t)
    else
      var (thread, u) := GetPtr(t, width);
      var (cmd', v) := GetCmd(u);
      (r.(thread := thread), cmd', v)
  }

  function FramesAfter(frames: int, op: Word): int {
    if op == OPC_eglSwapBuffers then frames - 1 else frames
  }

  /** `process(frames)` on the remaining bytes; a negative count runs to the end. */
  ghost function Process(frames: int, r: Player, width: nat, s: seq<Byte>): Outcome
    requires IsWidth(width)
    decreases |s|
  {
    if frames == 0 then Outcome([], r, s, FramesDone)
    else
      var (r1, op, t) := NextOp(r, width, s);
      if op == OPC_NONE || op == OPC_EOF then Outcome([], r1, t, EndOfTrace)
      else
        match ReadArgs(r1, op, width, t)
        case NotImplemented => Outcome([], r1, t, Unimplemented)
        case TooManyAttributes => Outcome([], r1, t, Exited)
        case Args(vs, u) =>
          if !Alive(r1, op, vs) then Outcome([], r1, t, Exited)
          else
            var (bgn, y) := GetLong(u);
            var (end, z) := GetLong(y);
            var more := Process(FramesAfter(frames, op), Apply(r1, op, vs), width, z);
            more.(commands := [Command(r1.thread, op, vs, bgn, end)] + more.commands)
  }

  /** What a turn of `process` does. */
  lemma OneTurn(frames: int, r: Player, width: nat, s: seq<Byte>)
    requires IsWidth(width) && frames != 0
    ensures var (r1, op, t) := NextOp(r, width, s);
            var o := Process(frames, r, width, s);
            if op == OPC_NONE || op == OPC_EOF then o == Outcome([], r1, t, EndOfTrace)
            else
              match ReadArgs(r1, op, width, t)
              case NotImplemented => o == Outcome([], r1, t, Unimplemented)
              case TooManyAttributes => o.commands == [] && o.stop == Exited
              case Args(vs, u) =>
                if !Alive(r1, op, vs) then o.commands == [] && o.stop == Exited
                else
                  var (bgn, y) := GetLong(u);
                  var (end, z) := GetLong(y);
                  && |z| < |s|
                  && var more := Process(FramesAfter(frames, op), Apply(r1, op, vs), width, z);
                     o == more.(commands := [Command(r1.thread, op, vs, bgn, end)] + more.commands)
  {
  }

  lemma NoTurn(r: Player, width: nat, s: seq<Byte>)
    requires IsWidth(width)
    ensures Process(0, r, width, s) == Outcome([], r, s, FramesDone)
  {
  }

  /** iolib_init(IO_READ): the pointer width and the records; None when it is not a trace. A
      version mismatch is only reported. */
  function OpenTrace(file: seq<Byte>): Option<(Word, seq<Byte>)> {
    var (version, a) := GetWord(file);
    if version != OPC_VERSION then None
    else
      var (major, b) := GetWord(a);
      var (minor, c) := GetWord(b);
      var (rev, d) := GetWord(c);
      Some(GetWord(d))
  }
}
