/** The recording side of gles.c and egl.c: which puts each intercepted call makes, and the
    binding and attribute state the recorder keeps for `glDrawElements`. */
module Calls {
  import opened Bytes
  import opened Fields
  import opened VertexAttrib

  const OPC_glBindBuffer: Word := 103
  const OPC_glDisableVertexAttribArray: Word := 139
  const OPC_glDrawElements: Word := 141
  const OPC_glEnableVertexAttribArray: Word := 143
  const OPC_glGetActiveUniform: Word := 155
  const OPC_glGetAttachedShaders: Word := 156
  const OPC_glShaderSource: Word := 198
  const OPC_glVertexAttribPointer: Word := 240
  const OPC_eglChooseConfig: Word := 706
  const OPC_eglCreateWindowSurface: Word := 708
  const OPC_eglCreateContext: Word := 721
  const OPC_eglSwapBuffers: Word := 730
  const OPC_glGetFloatv: Word := 161
  const OPC_glGetIntegerv: Word := 163
  const OPC_glGetString: Word := 171
  const OPC_eglQueryString: Word := 704
  const OPC_eglGetConfigAttrib: Word := 707
  const OPC_eglSurfaceAttrib: Word := 718
  const OPC_eglDestroyContext: Word := 722
  const OPC_eglMakeCurrent: Word := 723

  const GL_ARRAY_BUFFER: Word := 0x8892
  const GL_ELEMENT_ARRAY_BUFFER: Word := 0x8893
  const EGL_NONE: Word := 0x3038

  /** The puts of the calls whose record has a fixed shape, as gles.c, egl.c and agent.c
      make them. */
  function RecordedShape(op: Word): Option<seq<Kind>> {
    if op in {144, 145} then
      Some([])                                     // Finish Flush
    else if op in {100, 108, 115, 118, 120, 125, 127, 130, 132, 134, 135, 138, 139, 142, 143,
                   148, 150, 160, 189, 230, 231} then
      Some([KInt])                                 // ActiveTexture BlendEquation Clear ... ValidateProgram
    else if op in {101, 103, 104, 105, 106, 109, 110, 114, 126, 137, 158, 190, 213, 713} then
      Some([KInt, KInt])                           // AttachShader BindBuffer ... Uniform1i eglBindAPI
    else if op in {140, 164, 166, 167, 208, 217} then
      Some([KInt, KInt, KInt])                     // DrawArrays GetProgramiv ... Uniform2i
    else if op in {111, 119, 146, 162, 194, 196, 221, 241} then
      Some([KInt, KInt, KInt, KInt])               // BlendFuncSeparate ColorMask ... Uniform3i Viewport
    else if op in {147, 225} then
      Some([KInt, KInt, KInt, KInt, KInt])         // FramebufferTexture2D Uniform4i
    else if op in {123, 124} then
      Some([KInt, KInt, KInt, KInt, KInt, KInt, KInt, KInt]) // CopyTexImage2D CopyTexSubImage2D
    else if op == 117 then
      Some([KFloat])                               // ClearDepthf
    else if op in {136, 191} then
      Some([KFloat, KFloat])                       // DepthRangef PolygonOffset
    else if op in {107, 116} then
      Some([KFloat, KFloat, KFloat, KFloat])       // BlendColor ClearColor
    else if op == 211 then
      Some([KInt, KFloat])                         // Uniform1f
    else if op == 215 then
      Some([KInt, KFloat, KFloat])                 // Uniform2f
    else if op == 219 then
      Some([KInt, KFloat, KFloat, KFloat])         // Uniform3f
    else if op == 223 then
      Some([KInt, KFloat, KFloat, KFloat, KFloat]) // Uniform4f
    else if op == 1 then
      Some([KStr])                                 // MARK
    else if op == 102 then
      Some([KInt, KInt, KStr])                     // BindAttribLocation
    else if op in {157, 176} then
      Some([KInt, KStr, KInt])                     // GetAttribLocation GetUniformLocation
    else if op == 171 then
      Some([KInt, KStr])                           // GetString
    else if op == 112 then
      Some([KInt, KInt, KBytes, KInt])             // BufferData
    else if op in {113, 227, 228, 229} then
      Some([KInt, KInt, KInt, KBytes])             // BufferSubData UniformMatrix[234]fv
    else if op in {212, 224, 226} then
      Some([KInt, KInt, KBytes])                   // Uniform1fv Uniform4fv Uniform4iv
    else if op == 121 then
      Some([KInt, KInt, KInt, KInt, KInt, KInt, KInt, KBytes])       // CompressedTexImage2D
    else if op in {122, 205, 210} then
      Some([KInt, KInt, KInt, KInt, KInt, KInt, KInt, KInt, KBytes]) // CompressedTexSubImage2D TexImage2D TexSubImage2D
    else if op == 161 then
      Some([KInt, KFloatPtr])                      // GetFloatv
    else if op == 163 then
      Some([KInt, KIntPtr])                        // GetIntegerv
    else if op == 240 then
      Some([KInt, KInt, KInt, KInt, KInt, KPtr])   // VertexAttribPointer
    else if op == 701 then
      Some([KPtr, KPtr])                           // eglGetDisplay
    else if op == 702 then
      Some([KPtr, KIntPtr, KIntPtr, KInt])         // eglInitialize
    else if op == 703 then
      Some([KPtr, KInt])                           // eglTerminate
    else if op == 704 then
      Some([KPtr, KInt, KStr])                     // eglQueryString
    else if op == 718 then
      Some([KPtr, KPtr, KInt, KInt, KInt])         // eglSurfaceAttrib
    else if op in {722, 730} then
      Some([KPtr, KPtr, KInt])                     // eglDestroyContext eglSwapBuffers
    else if op == 723 then
      Some([KPtr, KPtr, KPtr, KPtr, KInt])         // eglMakeCurrent
    else None
  }

  /** glGen* and glDelete*: a count and that many names. */
  predicate IsNamesOp(op: Word) {
    op in {128, 129, 131, 133, 149, 151, 152, 153}
  }

  /** One string of `glShaderSource`; `len` is 0 when the length array is null. */
  datatype Part = Part(len: Word, str: Option<seq<Byte>>)

  /** An intercepted call with everything its record depends on: arguments, results, and for
      `glDrawElements` the client memory it points into. */
  datatype Call =
    | Plain(op: Word, args: seq<Field>)
    | Names(op: Word, n: Word, ids: seq<Word>)
    | ShaderSource(shader: Word, count: Word, parts: seq<Part>)
    | ActiveUniform(program: Word, index: Word, bufsize: Word,
                    lengthPtr: Long, sizePtr: Long, typePtr: Long, namePtr: Long,
                    length: Word, size: Word, ty: Word, name: seq<Byte>)
    | AttachedShaders(program: Word, maxcount: Word, countPtr: Long, shadersPtr: Long,
                      count: Word, shaders: seq<Word>)
    | DrawElements(mode: Word, count: Word, ty: Word, indices: Long, mem: seq<Byte>)
    | ChooseConfig(dpy: Long, attribs: Option<seq<(Word, Word)>>, configs: Option<seq<Long>>,
                   configSize: Word, numConfig: Word, res: Word)
    | EglCreate(op: Word, dpy: Long, config: Long, third: Long,
                attribs: Option<seq<(Word, Word)>>, handle: Long)

  function Opcode(c: Call): Word {
    match c
    case Plain(op, _) => op
    case Names(op, _, _) => op
    case ShaderSource(_, _, _) => OPC_glShaderSource
    case ActiveUniform(_, _, _, _, _, _, _, _, _, _, _) => OPC_glGetActiveUniform
    case AttachedShaders(_, _, _, _, _, _) => OPC_glGetAttachedShaders
    case DrawElements(_, _, _, _, _) => OPC_glDrawElements
    case ChooseConfig(_, _, _, _, _, _) => OPC_eglChooseConfig
    case EglCreate(op, _, _, _, _, _) => op
  }

  /** The statics of gles.c. */
  datatype Recorder = Recorder(arrayBuffer: Word, elementBuffer: Word, attribs: seq<Attrib>)

  predicate RecorderOk(w: Recorder) {
    |w.attribs| == MAX_VERTEX_ATTRIBS
  }

  const NoAttrib := Attrib(false, 0, 0, 0, 0, 0)
  /** The statics at program start. */
  function Recorder0(): (w: Recorder)
    ensures RecorderOk(w)
  {
    Recorder(0, 0, seq(MAX_VERTEX_ATTRIBS, _ => NoAttrib))
  }

  function IntFields(ws: seq<Word>): (fs: seq<Field>)
    ensures |fs| == |ws| && forall i :: 0 <= i < |fs| ==> fs[i] == IntF(ws[i])
  {
    seq(|ws|, i requires 0 <= i < |ws| => IntF(ws[i]))
  }

  function PtrFields(ps: seq<Long>): (fs: seq<Field>)
    ensures |fs| == |ps| && forall i :: 0 <= i < |fs| ==> fs[i] == PtrF(ps[i])
  {
    seq(|ps|, i requires 0 <= i < |ps| => PtrF(ps[i]))
  }

  function PartFields(p: Part): seq<Field> {
    [IntF(p.len), if Signed(p.len) > 0 then BytesF(p.str, Signed(p.len)) else StrF(p.str)]
  }

  function PartsFields(ps: seq<Part>): seq<Field> {
    if ps == [] then [] else PartFields(ps[0]) + PartsFields(ps[1..])
  }

  /** The loop over an attribute list, sentinel included. */
  function PairFields(ps: seq<(Word, Word)>): seq<Field> {
    if ps == [] then [IntF(EGL_NONE)] else [IntF(ps[0].0), IntF(ps[0].1)] + PairFields(ps[1..])
  }

  function PairsOf(attribs: Option<seq<(Word, Word)>>): seq<(Word, Word)> {
    if attribs.None? then [] else attribs.value
  }

  predicate PairsOk(ps: seq<(Word, Word)>) {
    forall i :: 0 <= i < |ps| ==> ps[i].0 != EGL_NONE
  }

  function Min(a: int, b: int): int {
    if a < b then a else b
  }

  /** How many configurations are recorded. */
  function ConfigCount(numConfig: Word, configSize: Word): nat {
    NonNegative(Min(Signed(numConfig), Signed(configSize)))
  }

  function UniformOutputs(c: Call): seq<Field>
    requires c.ActiveUniform?
  {
    (if c.lengthPtr != 0 then [IntF(c.length)] else []) +
    (if c.sizePtr != 0 then [IntF(c.size)] else []) +
    (if c.typePtr != 0 then [IntF(c.ty)] else []) +
    (if c.namePtr != 0 then [StrF(Some(c.name))] else [])
  }

  function ShaderOutputs(c: Call): seq<Field>
    requires c.AttachedShaders?
  {
    if c.countPtr == 0 then []
    else [IntF(c.count)] + if c.shadersPtr == 0 then [] else IntFields(c.shaders)
  }

  /** The index argument of `glDrawElements`: an offset when an element buffer is bound,
      otherwise the index data itself. */
  function IndexField(w: Recorder, c: Call): Field
    requires c.DrawElements? && (w.elementBuffer == 0 ==> IndicesOk(c))
  {
    if w.elementBuffer != 0 then PtrF(c.indices)
    else
      var n := Signed(c.count) * GlSizeof(c.ty).value;
      if c.indices == 0 then BytesF(None, n)
      else BytesF(Some(c.mem[c.indices..c.indices + NonNegative(n)]), n)
  }

  predicate IndicesOk(c: Call)
    requires c.DrawElements?
  {
    && GlSizeof(c.ty).Some?
    && var n := Signed(c.count) * GlSizeof(c.ty).value;
       IsInt(n) && n < 0x7fff_fff0 && (c.indices != 0 ==> c.indices + NonNegative(n) <= |c.mem|)
  }

  ghost predicate ArraysOk(w: Recorder, c: Call)
    requires c.DrawElements?
  {
    AllReadable(w.attribs, VertexCount(Signed(c.count)), c.mem)
  }

  /** The client arrays behind the indices, unless an array buffer is bound. */
  ghost function ArrayFields(w: Recorder, c: Call): seq<Field>
    requires c.DrawElements? && (w.arrayBuffer == 0 ==> ArraysOk(w, c))
  {
    if w.arrayBuffer != 0 then [] else Blocks(w.attribs, 0, VertexCount(Signed(c.count)), c.mem)
  }

  predicate PtrOk(p: Long, width: nat) {
    p < Pow256(width)
  }

  /** What the interceptors demand of their callers: arguments of the right C types, arrays as
      long as their counts say, client memory that can be read, attribute indices inside the
      table, and no type that makes `glSizeof` exit. */
  ghost predicate Recordable(w: Recorder, c: Call, width: nat) {
    match c
    case Plain(op, args) =>
      && FieldsOk(args, width) && RecordedShape(op) == Some(KindsOf(args))
      && (op in {OPC_glDisableVertexAttribArray, OPC_glEnableVertexAttribArray, OPC_glVertexAttribPointer} ==>
            args != [] && args[0].IntF? && args[0].w < MAX_VERTEX_ATTRIBS)
    case Names(op, n, ids) => IsNamesOp(op) && |ids| == NonNegative(Signed(n))
    case ShaderSource(_, count, parts) =>
      |parts| == NonNegative(Signed(count)) && FieldsOk(PartsFields(parts), width)
    case ActiveUniform(_, _, _, lp, sp, tp, np, _, _, _, name) =>
      && PtrOk(lp, width) && PtrOk(sp, width) && PtrOk(tp, width) && PtrOk(np, width)
      && FieldOk(StrF(Some(name)), width)
    case AttachedShaders(_, _, cp, sp, count, shaders) =>
      && PtrOk(cp, width) && PtrOk(sp, width)
      && (cp != 0 && sp != 0 ==> |shaders| == NonNegative(Signed(count)))
    case DrawElements(_, _, _, indices, _) =>
      && PtrOk(indices, width)
      && (w.elementBuffer == 0 ==> IndicesOk(c)) && (w.arrayBuffer == 0 ==> ArraysOk(w, c))
    case ChooseConfig(dpy, attribs, configs, size, num, _) =>
      && PtrOk(dpy, width) && PairsOk(PairsOf(attribs))
      && (ConfigCount(num, size) > 0 ==>
            configs.Some? && |configs.value| == ConfigCount(num, size) && FieldsOk(PtrFields(configs.value), width))
    case EglCreate(op, a, b, t, attribs, handle) =>
      && (op == OPC_eglCreateWindowSurface || op == OPC_eglCreateContext)
      && PtrOk(a, width) && PtrOk(b, width) && PtrOk(t, width) && PtrOk(handle, width)
      && PairsOk(PairsOf(attribs))
  }

  /** The puts between `putCmd` and `putTime`. */
  ghost function CallFields(w: Recorder, c: Call, width: nat): seq<Field>
    requires Recordable(w, c, width)
  {
    match c
    case Plain(_, args) => args
    case Names(_, n, ids) => [IntF(n)] + IntFields(ids)
    case ShaderSource(shader, count, parts) => [IntF(shader), IntF(count)] + PartsFields(parts)
    case ActiveUniform(program, index, bufsize, lp, sp, tp, np, _, _, _, _) =>
      [IntF(program), IntF(index), IntF(bufsize), PtrF(lp), PtrF(sp), PtrF(tp), PtrF(np)] + UniformOutputs(c)
    case AttachedShaders(program, maxcount, cp, sp, _, _) =>
      [IntF(program), IntF(maxcount), PtrF(cp), PtrF(sp)] + ShaderOutputs(c)
    case DrawElements(mode, count, ty, _, _) =>
      [IntF(mode), IntF(count), IntF(ty)] + ([IndexField(w, c)] + ArrayFields(w, c))
    case ChooseConfig(dpy, attribs, configs, size, num, res) =>
      [PtrF(dpy)] + (PairFields(PairsOf(attribs)) +
        ([IntF(if configs.None? then 0 else size), IntF(num)] + (ConfigFields(c) + [IntF(res)])))
    case EglCreate(_, a, b, t, attribs, handle) =>
      [PtrF(a), PtrF(b), PtrF(t)] + (PairFields(PairsOf(attribs)) + [PtrF(handle)])
  }

  function ConfigFields(c: Call): seq<Field>
    requires c.ChooseConfig?
    requires ConfigCount(c.numConfig, c.configSize) > 0 ==> c.configs.Some?
  {
    if ConfigCount(c.numConfig, c.configSize) == 0 then [] else PtrFields(c.configs.value)
  }

  /** The recorder's statics after the call. */
  function Record(w: Recorder, c: Call): Recorder
    requires RecorderOk(w)
  {
    if !c.Plain? || RecordedShape(c.op) != Some(KindsOf(c.args)) then w
    else RecordPlain(w, c.op, c.args)
  }

  function RecordPlain(w: Recorder, op: Word, args: seq<Field>): Recorder
    requires RecorderOk(w) && RecordedShape(op) == Some(KindsOf(args))
  {
    if op == OPC_glBindBuffer then
      Kinds2(args);
      if args[0].w == GL_ARRAY_BUFFER then w.(arrayBuffer := args[1].w)
      else if args[0].w == GL_ELEMENT_ARRAY_BUFFER then w.(elementBuffer := args[1].w)
      else w
    else if op == OPC_glEnableVertexAttribArray || op == OPC_glDisableVertexAttribArray then
      Kinds1(args);
      var i := args[0].w;
      if i >= MAX_VERTEX_ATTRIBS then w
      else w.(attribs := w.attribs[i := w.attribs[i].(enabled := op == OPC_glEnableVertexAttribArray)])
    else if op == OPC_glVertexAttribPointer then
      Kinds6(args);
      var i := args[0].w;
      if i >= MAX_VERTEX_ATTRIBS then w
      else w.(attribs := w.attribs[i := Attrib(w.attribs[i].enabled, args[1].w, args[2].w, args[3].w,
                                               args[4].w, args[5].p)])
    else w
  }

  lemma Kinds1(fs: seq<Field>)
    requires KindsOf(fs) == [KInt]
    ensures |fs| == 1 && fs[0].IntF?
  {
    assert KindsOf(fs)[0] == KindOf(fs[0]);
  }

  lemma Kinds2(fs: seq<Field>)
    requires KindsOf(fs) == [KInt, KInt]
    ensures |fs| == 2 && fs[0].IntF? && fs[1].IntF?
  {
    KindsAt(fs, 0);
    KindsAt(fs, 1);
  }

  lemma {:induction false} KindsAt(fs: seq<Field>, i: nat)
    requires i < |fs|
    ensures KindsOf(fs)[i] == KindOf(fs[i])
  {
    if i > 0 {
      KindsAt(fs[1..], i - 1);
    }
  }

  lemma Kinds6(fs: seq<Field>)
    requires KindsOf(fs) == [KInt, KInt, KInt, KInt, KInt, KPtr]
    ensures |fs| == 6 && fs[0].IntF? && fs[1].IntF? && fs[2].IntF? && fs[3].IntF? && fs[4].IntF? && fs[5].PtrF?
  {
    forall i | 0 <= i < 6
      ensures KindsOf(fs)[i] == KindOf(fs[i])
    {
      KindsAt(fs, i);
    }
  }
}
