/** What a reported command says of the recorded call, argument by argument and in the terms of the
    call itself. */
module CallMeaning {
  import opened Bytes
  import opened Fields
  import opened VertexAttrib
  import opened Calls
  import opened Replay
  import opened RoundTrip
  import opened Traces
  import opened WholeTrace

  /*  Single values  */

  /** A pointer as the decoder sees it: sign-extended when it was recorded with four bytes. */
  function Extended(p: Long, width: nat): int {
    if width == 4 && p >= 0x8000_0000 then p + 0xffff_ffff_0000_0000 else p
  }

  predicate IsPointer(v: Value, p: Long, width: nat) {
    v.PtrV? && v.p == Extended(p, width)
  }

  /** The first `size` bytes of `data`; nothing when there are none. */
  predicate IsBlock(v: Value, data: Option<seq<Byte>>, size: int) {
    && v.BytesV?
    && if data.None? || size <= 0 then v.data == None
       else v.data.Some? && |v.data.value| == size <= |data.value|
            && forall j :: 0 <= j < size ==> v.data.value[j] == data.value[j]
  }

  /** The string, or the empty one for a null pointer. */
  predicate IsText(v: Value, str: Option<seq<Byte>>) {
    v.StrV? && v.str == Some(if str.Some? then str.value else [])
  }

  predicate IsArgument(v: Value, f: Field, width: nat) {
    match f
    case IntF(w) => v == IntV(w)
    case FloatF(w) => v == FloatV(w)
    case IntPtrF(arg) => v == IntPtrV(arg)
    case FloatPtrF(arg) => v == FloatPtrV(arg)
    case LongF(n) => v == LongV(n)
    case PtrF(p) => IsPointer(v, p, width)
    case StrF(str) => IsText(v, str)
    case BytesF(data, size) => IsBlock(v, data, size)
  }

  lemma {:induction false} SeenMeans(f: Field, width: nat)
    requires IsWidth(width) && FieldOk(f, width)
    ensures IsArgument(Seen(f, width), f, width)
  {
    Pow256Values();
  }

  lemma {:induction false} SeenAtMeans(fs: seq<Field>, width: nat, i: nat)
    requires IsWidth(width) && FieldsOk(fs, width) && i < |fs|
    ensures IsArgument(SeenAll(fs, width)[i], fs[i], width)
  {
    SeenAt(fs, width, i);
    SeenMeans(fs[i], width);
  }

  /*  The state behind `glDrawElements`, looked up in the calls before it  */

  /** The buffer bound last to a target. */
  function BoundBuffer(items: seq<Item>, n: nat, target: Word): Word
    requires n <= |items|
  {
    if n == 0 then 0
    else
      match items[n - 1].call
      case Plain(op, args) =>
        if op == 103 && |args| == 2 && args[0] == IntF(target) && args[1].IntF? then args[1].w
        else BoundBuffer(items, n - 1, target)
      case _ => BoundBuffer(items, n - 1, target)
  }

  /** Whether the array was enabled, not disabled, last. */
  function IsEnabled(items: seq<Item>, n: nat, index: nat): bool
    requires n <= |items|
  {
    if n == 0 then false
    else
      var c := items[n - 1].call;
      if c.Plain? && (c.op == 143 || c.op == 139) && |c.args| == 1 && c.args[0].IntF? && c.args[0].w == index
      then c.op == 143
      else IsEnabled(items, n - 1, index)
  }

  predicate SetsPointer(c: Call, index: nat) {
    && c.Plain? && c.op == 240 && |c.args| == 6 && c.args[0].IntF? && c.args[0].w == index
    && c.args[1].IntF? && c.args[2].IntF? && c.args[3].IntF? && c.args[4].IntF? && c.args[5].PtrF?
  }

  /** The arguments of the last glVertexAttribPointer for an index: size, type, normalized, stride,
      pointer. */
  function PointerSet(items: seq<Item>, n: nat, index: nat): (Word, Word, Word, Word, Long)
    requires n <= |items|
  {
    if n == 0 then (0, 0, 0, 0, 0)
    else
      var c := items[n - 1].call;
      if SetsPointer(c, index) then (c.args[1].w, c.args[2].w, c.args[3].w, c.args[4].w, c.args[5].p)
      else PointerSet(items, n - 1, index)
  }

  /** The recorder's state is what the calls say. */
  predicate Remembers(w: Recorder, items: seq<Item>, n: nat)
    requires n <= |items|
  {
    && |w.attribs| == 128
    && w.arrayBuffer == BoundBuffer(items, n, 0x8892) && w.elementBuffer == BoundBuffer(items, n, 0x8893)
    && forall i :: 0 <= i < 128 ==>
         && w.attribs[i].enabled == IsEnabled(items, n, i)
         && (w.attribs[i].size, w.attribs[i].ty, w.attribs[i].normalized, w.attribs[i].stride, w.attribs[i].pointer)
            == PointerSet(items, n, i)
  }

  lemma {:induction false} RemembersCall(w: Recorder, items: seq<Item>, n: nat, width: nat)
    requires n < |items| && Remembers(w, items, n) && Recordable(w, items[n].call, width)
    ensures Remembers(Record(w, items[n].call), items, n + 1)
  {
    var c := items[n].call;
    if c.Plain? {
      if c.op == 103 {
        Kinds2(c.args);
      } else if c.op == 143 || c.op == 139 {
        Kinds1(c.args);
      } else if c.op == 240 {
        Kinds6(c.args);
      }
    }
  }

  /** The recorder after the first `n` calls. */
  ghost function RecorderAt(w: Recorder, items: seq<Item>, n: nat, width: nat): Recorder
    requires TraceOk(w, items, width) && n <= |items|
    decreases n
  {
    if n == 0 then w else RecorderAt(Record(w, items[0].call), items[1..], n - 1, width)
  }

  lemma {:induction false} RecorderAtNext(w: Recorder, items: seq<Item>, n: nat, width: nat)
    requires TraceOk(w, items, width) && n < |items|
    ensures Recordable(RecorderAt(w, items, n, width), items[n].call, width)
    ensures RecorderOk(RecorderAt(w, items, n, width)) && PtrOk(items[n].thread, width)
    ensures RecorderAt(w, items, n + 1, width) == Record(RecorderAt(w, items, n, width), items[n].call)
    decreases n
  {
    hide Recordable, Record;
    if n > 0 {
      RecorderAtNext(Record(w, items[0].call), items[1..], n - 1, width);
    } else {
      assert RecorderAt(Record(w, items[0].call), items[1..], 0, width) == Record(w, items[0].call);
    }
  }

  lemma {:induction false} RemembersAll(items: seq<Item>, n: nat, width: nat)
    requires TraceOk(Recorder0(), items, width) && n <= |items|
    ensures Remembers(RecorderAt(Recorder0(), items, n, width), items, n)
    decreases n
  {
    if n > 0 {
      RemembersAll(items, n - 1, width);
      RecorderAtNext(Recorder0(), items, n - 1, width);
      RemembersCall(RecorderAt(Recorder0(), items, n - 1, width), items, n - 1, width);
    }
  }

  lemma {:induction false} ExpectedAt(w: Recorder, items: seq<Item>, n: nat, width: nat)
    requires IsWidth(width) && TraceOk(w, items, width) && n < |items|
    ensures Recordable(RecorderAt(w, items, n, width), items[n].call, width)
    ensures RecorderOk(RecorderAt(w, items, n, width)) && PtrOk(items[n].thread, width)
    ensures ExpectedAll(w, items, width)[n] == Expected(RecorderAt(w, items, n, width), items[n], width)
    decreases n
  {
    hide Recordable, Record, Expected;
    RecorderAtNext(w, items, n, width);
    if n > 0 {
      ExpectedAt(Record(w, items[0].call), items[1..], n - 1, width);
    }
  }

  /*  Variable calls  */

  /** The size of a GL type. */
  predicate TypeHas(ty: Word, bytes: nat) {
    || (bytes == 1 && (ty == 0x1400 || ty == 0x1401))
    || (bytes == 2 && (ty == 0x1402 || ty == 0x1403))
    || (bytes == 4 && (ty == 0x1404 || ty == 0x1405 || ty == 0x1406))
  }

  /** How many arrays below `i` are enabled. */
  function EnabledBelow(attribs: seq<Attrib>, i: nat): nat
    requires i <= |attribs|
  {
    if i == 0 then 0 else EnabledBelow(attribs, i - 1) + if attribs[i - 1].enabled then 1 else 0
  }

  /** The number of vertices: four for every six indices. */
  predicate VerticesFor(count: int, n: nat) {
    if count < 6 then n == 0 else n % 4 == 0 && n / 4 * 6 <= count < n / 4 * 6 + 6
  }

  /** Where byte `k` of vertex `j` lies in client memory: `elem` bytes a vertex, one behind the other or
      `stride` bytes apart. */
  function ByteOf(a: Attrib, elem: nat, j: nat, k: nat): nat {
    a.pointer + j * (if 0 < Signed(a.stride) then Signed(a.stride) else elem) + k
  }

  /** The block of an array: its vertices back to back, byte for byte; `bytes` is the size of its type. */
  predicate HoldsVertices(v: Value, a: Attrib, bytes: nat, n: nat, mem: seq<Byte>) {
    var elem := bytes * NonNegative(Signed(a.size));
    && v.BytesV?
    && if elem * n == 0 then v.data == None
       else
         && v.data.Some? && |v.data.value| == elem * n
         && forall j: nat, k: nat :: j < n && k < elem ==> SameByte(v.data.value, a, elem, j, k, mem)
  }

  predicate SameByte(block: seq<Byte>, a: Attrib, elem: nat, j: nat, k: nat, mem: seq<Byte>) {
    && elem * j + k < |block| && ByteOf(a, elem, j, k) < |mem|
    && block[elem * j + k] == mem[ByteOf(a, elem, j, k)]
  }

  ghost predicate IsVertices(v: Value, a: Attrib, n: nat, mem: seq<Byte>) {
    exists bytes: nat :: TypeHas(a.ty, bytes) && HoldsVertices(v, a, bytes, n, mem)
  }

  /** `n` bytes of client memory from the indices on. */
  predicate HoldsIndices(v: Value, c: Call, n: int)
    requires c.DrawElements?
  {
    && v.BytesV?
    && if c.indices == 0 || n <= 0 then v.data == None
       else
         && v.data.Some? && |v.data.value| == n && c.indices + n <= |c.mem|
         && forall j :: 0 <= j < n ==> v.data.value[j] == c.mem[c.indices + j]
  }

  /** The index argument: the offset when an element buffer is bound; otherwise `count` indices of
      their type, byte for byte out of client memory. */
  ghost predicate IsIndices(v: Value, w: Recorder, c: Call, width: nat)
    requires c.DrawElements?
  {
    if w.elementBuffer != 0 then IsPointer(v, c.indices, width)
    else exists bytes: nat :: TypeHas(c.ty, bytes) && HoldsIndices(v, c, Signed(c.count) * bytes)
  }

  /** One block for every enabled array, in the order of their indices. */
  ghost predicate AreArrays(vs: seq<Value>, from: nat, attribs: seq<Attrib>, n: nat, mem: seq<Byte>) {
    && |vs| == from + EnabledBelow(attribs, |attribs|)
    && forall i :: 0 <= i < |attribs| && attribs[i].enabled ==>
         var at := from + EnabledBelow(attribs, i);
         at < |vs| && IsVertices(vs[at], attribs[i], n, mem)
  }

  ghost predicate IsDrawElements(vs: seq<Value>, w: Recorder, c: Call, width: nat)
    requires c.DrawElements?
  {
    && |vs| >= 4 && vs[0] == IntV(c.mode) && vs[1] == IntV(c.count) && vs[2] == IntV(c.ty)
    && IsIndices(vs[3], w, c, width)
    && if w.arrayBuffer != 0 then |vs| == 4
       else exists n: nat :: VerticesFor(Signed(c.count), n) && AreArrays(vs, 4, w.attribs, n, c.mem)
  }

  /** Names, and the results a call lists. */
  predicate AreInts(vs: seq<Value>, from: nat, ws: seq<Word>) {
    from + |ws| <= |vs| && forall i :: 0 <= i < |ws| ==> vs[from + i] == IntV(ws[i])
  }

  predicate ArePointers(vs: seq<Value>, from: nat, ps: seq<Long>, width: nat) {
    from + |ps| <= |vs| && forall i :: 0 <= i < |ps| ==> IsPointer(vs[from + i], ps[i], width)
  }

  /** An attribute list: its pairs and the end mark. */
  predicate AreAttributes(vs: seq<Value>, from: nat, ps: seq<(Word, Word)>) {
    && from + 2 * |ps| < |vs| && vs[from + 2 * |ps|] == IntV(0x3038)
    && forall i :: 0 <= i < |ps| ==> PairSeen(vs, from + 2 * i, ps[i].0, ps[i].1)
  }

  predicate IsPart(len: Value, text: Value, p: Part) {
    && len == IntV(p.len)
    && if Signed(p.len) > 0 then IsBlock(text, p.str, Signed(p.len)) else IsText(text, p.str)
  }

  function ListOf(list: Option<seq<(Word, Word)>>): seq<(Word, Word)> {
    match list
    case None => []
    case Some(ps) => ps
  }

  function ListLength(list: Option<seq<(Word, Word)>>): nat {
    |ListOf(list)|
  }

  /** How many outputs of glGetActiveUniform come before the k-th. */
  function Asked(c: Call, k: nat): nat
    requires c.ActiveUniform? && k <= 4
  {
    (if k > 0 && c.lengthPtr != 0 then 1 else 0) + (if k > 1 && c.sizePtr != 0 then 1 else 0)
    + (if k > 2 && c.typePtr != 0 then 1 else 0) + (if k > 3 && c.namePtr != 0 then 1 else 0)
  }

  /** The opcode and the values of a command are those of the call, given the state it was made in. */
  ghost predicate Means(op: Word, vs: seq<Value>, w: Recorder, c: Call, width: nat) {
    match c
    case Plain(o, args) =>
      op == o && |vs| == |args| && forall i :: 0 <= i < |args| ==> IsArgument(vs[i], args[i], width)
    case Names(o, n, ids) => op == o && |vs| == 1 + |ids| && vs[0] == IntV(n) && AreInts(vs, 1, ids)
    case ShaderSource(shader, count, parts) =>
      && op == 198 && |vs| == 2 + 2 * |parts| && vs[0] == IntV(shader) && vs[1] == IntV(count)
      && forall i :: 0 <= i < |parts| ==> IsPart(vs[2 + 2 * i], vs[3 + 2 * i], parts[i])
    case ActiveUniform(program, index, bufsize, lp, sp, tp, np, length, size, ty, name) =>
      && op == 155 && |vs| == 7 + Asked(c, 4)
      && AreInts(vs, 0, [program, index, bufsize]) && ArePointers(vs, 3, [lp, sp, tp, np], width)
      && (lp != 0 ==> vs[7] == IntV(length)) && (sp != 0 ==> vs[7 + Asked(c, 1)] == IntV(size))
      && (tp != 0 ==> vs[7 + Asked(c, 2)] == IntV(ty)) && (np != 0 ==> vs[7 + Asked(c, 3)] == StrV(Some(name)))
    case AttachedShaders(program, maxcount, cp, sp, count, shaders) =>
      && op == 156 && AreInts(vs, 0, [program, maxcount]) && ArePointers(vs, 2, [cp, sp], width)
      && |vs| == 4 + (if cp == 0 then 0 else if sp == 0 then 1 else 1 + |shaders|)
      && (cp != 0 ==> vs[4] == IntV(count)) && (cp != 0 && sp != 0 ==> AreInts(vs, 5, shaders))
    case DrawElements(_, _, _, _, _) => op == 141 && IsDrawElements(vs, w, c, width)
    case ChooseConfig(dpy, list, configs, size, num, res) =>
      var at, found := 2 + 2 * ListLength(list), Found(c);
      && op == 706 && |vs| == at + 3 + |found| && IsPointer(vs[0], dpy, width) && AreAttributes(vs, 1, ListOf(list))
      && vs[at] == IntV(if configs.Some? then size else 0) && vs[at + 1] == IntV(num)
      && |found| == NonNegative(if Signed(num) < Signed(size) then Signed(num) else Signed(size))
      && ArePointers(vs, at + 2, found, width) && vs[at + 2 + |found|] == IntV(res)
    case EglCreate(o, dpy, config, third, list, handle) =>
      && op == o && (o == 708 || o == 721) && |vs| == 5 + 2 * ListLength(list)
      && ArePointers(vs, 0, [dpy, config, third], width) && AreAttributes(vs, 3, ListOf(list))
      && IsPointer(vs[4 + 2 * ListLength(list)], handle, width)
  }

  /*  Every reported call means what was recorded  */

  lemma {:induction false} AllSeen(fs: seq<Field>, width: nat)
    requires IsWidth(width) && FieldsOk(fs, width)
    ensures |SeenAll(fs, width)| == |fs|
    ensures forall i :: 0 <= i < |fs| ==> IsArgument(SeenAll(fs, width)[i], fs[i], width)
  {
    forall i | 0 <= i < |fs|
      ensures IsArgument(SeenAll(fs, width)[i], fs[i], width)
    {
      SeenAtMeans(fs, width, i);
    }
  }

  lemma {:induction false} PartsAt(ps: seq<Part>, i: nat)
    requires i < |ps|
    ensures |PartsFields(ps)| == 2 * |ps|
    ensures PartsFields(ps)[2 * i] == IntF(ps[i].len)
    ensures PartsFields(ps)[2 * i + 1]
         == if Signed(ps[i].len) > 0 then BytesF(ps[i].str, Signed(ps[i].len)) else StrF(ps[i].str)
  {
    if |ps| > 1 {
      PartsAt(ps[1..], if i > 0 then i - 1 else 0);
    }
  }

  lemma {:induction false} PairsAt(ps: seq<(Word, Word)>, i: nat)
    requires i <= |ps|
    ensures |PairFields(ps)| == 2 * |ps| + 1 && PairFields(ps)[2 * |ps|] == IntF(0x3038)
    ensures i < |ps| ==> PairFields(ps)[2 * i] == IntF(ps[i].0) && PairFields(ps)[2 * i + 1] == IntF(ps[i].1)
  {
    if ps != [] {
      PairsAt(ps[1..], if i > 0 then i - 1 else 0);
    }
  }

  /** An attribute list somewhere in a record. */
  lemma {:induction false} ListSeen(front: seq<Field>, ps: seq<(Word, Word)>, back: seq<Field>, width: nat)
    requires IsWidth(width) && FieldsOk(front + (PairFields(ps) + back), width)
    ensures |PairFields(ps)| == 2 * |ps| + 1
    ensures AreAttributes(SeenAll(front + (PairFields(ps) + back), width), |front|, ps)
  {
    hide SeenAll, PairFields, FieldsOk, PairSeen;
    PairsAt(ps, |ps|);
    IntSeen(front, PairFields(ps), back, 2 * |ps|, 0x3038, width);
    var vs := SeenAll(front + (PairFields(ps) + back), width);
    forall i | 0 <= i < |ps|
      ensures PairSeen(vs, |front| + 2 * i, ps[i].0, ps[i].1)
    {
      OnePairSeen(front, ps, back, i, width);
    }
  }

  lemma {:induction false} OnePairSeen(front: seq<Field>, ps: seq<(Word, Word)>, back: seq<Field>, i: nat, width: nat)
    requires IsWidth(width) && FieldsOk(front + (PairFields(ps) + back), width) && i < |ps|
    ensures PairSeen(SeenAll(front + (PairFields(ps) + back), width), |front| + 2 * i, ps[i].0, ps[i].1)
  {
    hide SeenAll, PairFields, FieldsOk;
    PairsAt(ps, i);
    TwoSeen(front, PairFields(ps), back, 2 * i, ps[i].0, ps[i].1, width);
  }

  lemma {:induction false} TwoSeen(a: seq<Field>, b: seq<Field>, c: seq<Field>, i: nat, u: Word, v: Word, width: nat)
    requires IsWidth(width) && FieldsOk(a + (b + c), width)
    requires i + 1 < |b| && b[i] == IntF(u) && b[i + 1] == IntF(v)
    ensures PairSeen(SeenAll(a + (b + c), width), |a| + i, u, v)
  {
    hide SeenAll, FieldsOk;
    IntSeen(a, b, c, i, u, width);
    IntSeen(a, b, c, i + 1, v, width);
  }

  predicate PairSeen(vs: seq<Value>, at: nat, u: Word, v: Word) {
    at + 1 < |vs| && vs[at] == IntV(u) && vs[at + 1] == IntV(v)
  }

  lemma {:induction false} IntSeen(a: seq<Field>, b: seq<Field>, c: seq<Field>, i: nat, w: Word, width: nat)
    requires IsWidth(width) && FieldsOk(a + (b + c), width) && i < |b| && b[i] == IntF(w)
    ensures SeenAll(a + (b + c), width)[|a| + i] == IntV(w)
  {
    Middle(a, b, c, i);
    SeenAt(a + (b + c), width, |a| + i);
  }

  lemma {:induction false} Middle(a: seq<Field>, b: seq<Field>, c: seq<Field>, i: nat)
    requires i < |b|
    ensures (a + (b + c))[|a| + i] == b[i]
  {
  }

  lemma {:induction false} PlainMeans(w: Recorder, c: Call, width: nat)
    requires IsWidth(width) && RecorderOk(w) && Recordable(w, c, width) && c.Plain?
    ensures Means(Opcode(c), SeenAll(c.args, width), w, c, width)
  {
    AllSeen(c.args, width);
  }

  lemma {:induction false} NamesMean(w: Recorder, c: Call, width: nat)
    requires IsWidth(width) && c.Names?
    ensures Means(Opcode(c), SeenAll([IntF(c.n)] + IntFields(c.ids), width), w, c, width)
  {
    AllSeen([IntF(c.n)] + IntFields(c.ids), width);
  }

  lemma {:induction false} ShaderSourceMeans(w: Recorder, c: Call, width: nat)
    requires IsWidth(width) && c.ShaderSource? && FieldsOk(PartsFields(c.parts), width)
    ensures Means(Opcode(c), SeenAll([IntF(c.shader), IntF(c.count)] + PartsFields(c.parts), width), w, c, width)
  {
    var fs := [IntF(c.shader), IntF(c.count)] + PartsFields(c.parts);
    AllSeen(fs, width);
    var vs := SeenAll(fs, width);
    if c.parts != [] {
      PartsAt(c.parts, 0);
    }
    forall i | 0 <= i < |c.parts|
      ensures IsPart(vs[2 + 2 * i], vs[3 + 2 * i], c.parts[i])
    {
      PartsAt(c.parts, i);
      assert fs[2 + 2 * i] == PartsFields(c.parts)[2 * i] && fs[3 + 2 * i] == PartsFields(c.parts)[2 * i + 1];
    }
  }

  lemma {:induction false} ActiveUniformMeans(w: Recorder, c: Call, width: nat)
    requires IsWidth(width) && c.ActiveUniform? && Recordable(w, c, width)
    ensures FieldsOk(UniformInputs(c) + UniformOutputs(c), width)
    ensures Means(Opcode(c), SeenAll(UniformInputs(c) + UniformOutputs(c), width), w, c, width)
  {
    UniformFieldsOk(w, c, width);
    InputsMean(UniformInputs(c), UniformOutputs(c), c, width);
    UniformOutputsMean(c, width);
    OutputsAt(c);
    hide SeenAll, Recordable, FieldOk, UniformInputs, UniformOutputs, AreInts, ArePointers, Asked;
  }

  lemma {:induction false} UniformFieldsOk(w: Recorder, c: Call, width: nat)
    requires IsWidth(width) && c.ActiveUniform? && Recordable(w, c, width)
    ensures FieldsOk(UniformInputs(c) + UniformOutputs(c), width)
  {
  }

  lemma {:induction false} UniformOutputsMean(c: Call, width: nat)
    requires IsWidth(width) && c.ActiveUniform? && FieldsOk(UniformInputs(c) + UniformOutputs(c), width)
    ensures var vs := SeenAll(UniformInputs(c) + UniformOutputs(c), width);
            && |vs| == 7 + Asked(c, 4)
            && (c.lengthPtr != 0 ==> vs[7] == IntV(c.length))
            && (c.sizePtr != 0 ==> vs[7 + Asked(c, 1)] == IntV(c.size))
            && (c.typePtr != 0 ==> vs[7 + Asked(c, 2)] == IntV(c.ty))
            && (c.namePtr != 0 ==> vs[7 + Asked(c, 3)] == StrV(Some(c.name)))
  {
    var ins, outs := UniformInputs(c), UniformOutputs(c);
    OutputsAt(c);
    AllSeen(ins + outs, width);
    hide SeenAll, UniformOutputs, FieldOk;
    OutputMeans(ins, outs, 0, width);
    OutputMeans(ins, outs, Asked(c, 1), width);
    OutputMeans(ins, outs, Asked(c, 2), width);
    OutputMeans(ins, outs, Asked(c, 3), width);
  }

  lemma {:induction false} OutputsAt(c: Call)
    requires c.ActiveUniform?
    ensures var outs := UniformOutputs(c);
            && |outs| == Asked(c, 4)
            && (c.lengthPtr != 0 ==> outs[0] == IntF(c.length))
            && (c.sizePtr != 0 ==> outs[Asked(c, 1)] == IntF(c.size))
            && (c.typePtr != 0 ==> outs[Asked(c, 2)] == IntF(c.ty))
            && (c.namePtr != 0 ==> outs[Asked(c, 3)] == StrF(Some(c.name)))
  {
  }

  lemma {:induction false} OutputMeans(ins: seq<Field>, outs: seq<Field>, i: nat, width: nat)
    requires IsWidth(width) && FieldsOk(ins + outs, width) && |ins| == 7
    ensures i < |outs| ==> IsArgument(SeenAll(ins + outs, width)[7 + i], outs[i], width)
  {
    if i < |outs| {
      SeenAtMeans(ins + outs, width, 7 + i);
    }
  }

  lemma {:induction false} InputsMean(ins: seq<Field>, outs: seq<Field>, c: Call, width: nat)
    requires IsWidth(width) && c.ActiveUniform? && FieldsOk(ins + outs, width) && ins == UniformInputs(c)
    ensures var vs := SeenAll(ins + outs, width);
            && |vs| == 7 + |outs| && AreInts(vs, 0, [c.program, c.index, c.bufsize])
            && ArePointers(vs, 3, [c.lengthPtr, c.sizePtr, c.typePtr, c.namePtr], width)
  {
    hide SeenAll;
    var fs := ins + outs;
    SeenAtMeans(fs, width, 0);
    SeenAtMeans(fs, width, 1);
    SeenAtMeans(fs, width, 2);
    SeenAtMeans(fs, width, 3);
    SeenAtMeans(fs, width, 4);
    SeenAtMeans(fs, width, 5);
    SeenAtMeans(fs, width, 6);
  }

  lemma {:induction false} AttachedShadersMean(w: Recorder, c: Call, width: nat)
    requires IsWidth(width) && c.AttachedShaders? && Recordable(w, c, width)
    ensures FieldsOk(ShaderInputs(c) + ShaderOutputs(c), width)
    ensures Means(Opcode(c), SeenAll(ShaderInputs(c) + ShaderOutputs(c), width), w, c, width)
  {
    ShaderFieldsOk(c, width);
    ShaderInputsMean(c, ShaderOutputs(c), width);
    ShaderOutputsMean(c, width);
    hide SeenAll, Recordable, FieldOk, ShaderOutputs;
  }

  lemma {:induction false} ShaderInputsMean(c: Call, outs: seq<Field>, width: nat)
    requires IsWidth(width) && c.AttachedShaders? && FieldsOk(ShaderInputs(c) + outs, width)
    ensures var vs := SeenAll(ShaderInputs(c) + outs, width);
            && |vs| == 4 + |outs| && AreInts(vs, 0, [c.program, c.maxcount])
            && ArePointers(vs, 2, [c.countPtr, c.shadersPtr], width)
  {
    hide SeenAll;
    var fs := ShaderInputs(c) + outs;
    SeenAtMeans(fs, width, 0);
    SeenAtMeans(fs, width, 1);
    SeenAtMeans(fs, width, 2);
    SeenAtMeans(fs, width, 3);
  }

  lemma {:induction false} ShaderOutputsMean(c: Call, width: nat)
    requires IsWidth(width) && c.AttachedShaders? && FieldsOk(ShaderInputs(c) + ShaderOutputs(c), width)
    ensures var vs := SeenAll(ShaderInputs(c) + ShaderOutputs(c), width);
            && |ShaderOutputs(c)| == (if c.countPtr == 0 then 0 else if c.shadersPtr == 0 then 1 else 1 + |c.shaders|)
            && (c.countPtr != 0 ==> vs[4] == IntV(c.count))
            && (c.countPtr != 0 && c.shadersPtr != 0 ==> AreInts(vs, 5, c.shaders))
  {
    hide SeenAll, FieldOk, AreInts;
    var front := ShaderInputs(c);
    var fs := front + ShaderOutputs(c);
    if c.countPtr != 0 {
      SeenAtMeans(fs, width, 4);
      if c.shadersPtr != 0 {
        assert fs == (front + [IntF(c.count)]) + IntFields(c.shaders);
        IntsSeen(front + [IntF(c.count)], c.shaders, width);
      }
    }
  }

  lemma {:induction false} ShaderFieldsOk(c: Call, width: nat)
    requires c.AttachedShaders? && PtrOk(c.countPtr, width) && PtrOk(c.shadersPtr, width)
    ensures FieldsOk(ShaderInputs(c) + ShaderOutputs(c), width)
  {
  }

  lemma {:induction false} IntsSeen(front: seq<Field>, ws: seq<Word>, width: nat)
    requires IsWidth(width) && FieldsOk(front + IntFields(ws), width)
    ensures AreInts(SeenAll(front + IntFields(ws), width), |front|, ws)
  {
    forall i | 0 <= i < |ws|
      ensures SeenAll(front + IntFields(ws), width)[|front| + i] == IntV(ws[i])
    {
      SeenAt(front + IntFields(ws), width, |front| + i);
    }
  }

  lemma {:induction false} EglCreateMeans(w: Recorder, c: Call, width: nat)
    requires IsWidth(width) && c.EglCreate? && Recordable(w, c, width)
    ensures var fs := [PtrF(c.dpy), PtrF(c.config), PtrF(c.third)]
                      + (PairFields(PairsOf(c.attribs)) + [PtrF(c.handle)]);
            FieldsOk(fs, width) && Means(Opcode(c), SeenAll(fs, width), w, c, width)
  {
    var front, back := [PtrF(c.dpy), PtrF(c.config), PtrF(c.third)], [PtrF(c.handle)];
    var fs := front + (PairFields(PairsOf(c.attribs)) + back);
    PairFieldsOk(PairsOf(c.attribs), width);
    ListSeen(front, PairsOf(c.attribs), back, width);
    assert PairsOf(c.attribs) == ListOf(c.attribs);
    AllSeen(fs, width);
  }

  /** The configurations that were found. */
  function Found(c: Call): seq<Long>
    requires c.ChooseConfig?
  {
    if Signed(c.numConfig) > 0 && Signed(c.configSize) > 0 && c.configs.Some? then c.configs.value else []
  }

  lemma {:induction false} FoundFields(w: Recorder, c: Call, width: nat)
    requires c.ChooseConfig? && Recordable(w, c, width)
    ensures |Found(c)| == NonNegative(if Signed(c.numConfig) < Signed(c.configSize) then Signed(c.numConfig)
                                      else Signed(c.configSize))
    ensures ConfigFields(c) == PtrFields(Found(c)) && FieldsOk(ConfigFields(c), width)
  {
  }

  lemma {:induction false} ConfigBack(front: seq<Field>, size: Word, num: Word, found: seq<Long>, res: Word, width: nat)
    requires IsWidth(width)
    requires FieldsOk(front + ([IntF(size), IntF(num)] + (PtrFields(found) + [IntF(res)])), width)
    ensures var vs := SeenAll(front + ([IntF(size), IntF(num)] + (PtrFields(found) + [IntF(res)])), width);
            var at := |front|;
            && |vs| == at + 3 + |found| && vs[at] == IntV(size) && vs[at + 1] == IntV(num)
            && ArePointers(vs, at + 2, found, width) && vs[at + 2 + |found|] == IntV(res)
  {
    hide SeenAll;
    var ptrs := PtrFields(found);
    var back := [IntF(size), IntF(num)] + (ptrs + [IntF(res)]);
    var fs, at := front + back, |front|;
    SeenAtMeans(fs, width, at);
    SeenAtMeans(fs, width, at + 1);
    SeenAtMeans(fs, width, at + 2 + |found|);
    forall i | 0 <= i < |found|
      ensures IsPointer(SeenAll(fs, width)[at + 2 + i], found[i], width)
    {
      Middle(front + [IntF(size), IntF(num)], ptrs, [IntF(res)], i);
      assert fs == (front + [IntF(size), IntF(num)]) + (ptrs + [IntF(res)]);
      SeenAtMeans(fs, width, at + 2 + i);
    }
  }

  lemma {:induction false} ChooseConfigMeans(w: Recorder, c: Call, width: nat)
    requires IsWidth(width) && c.ChooseConfig? && Recordable(w, c, width)
    ensures var back := [IntF(if c.configs.None? then 0 else c.configSize), IntF(c.numConfig)]
                        + (ConfigFields(c) + [IntF(c.res)]);
            var fs := [PtrF(c.dpy)] + (PairFields(PairsOf(c.attribs)) + back);
            FieldsOk(fs, width) && Means(Opcode(c), SeenAll(fs, width), w, c, width)
  {
    var front, list := [PtrF(c.dpy)], PairFields(PairsOf(c.attribs));
    var size := if c.configs.None? then 0 else c.configSize;
    var back := [IntF(size), IntF(c.numConfig)] + (ConfigFields(c) + [IntF(c.res)]);
    var fs := front + (list + back);
    PairFieldsOk(PairsOf(c.attribs), width);
    FoundFields(w, c, width);
    assert FieldsOk(fs, width);
    hide SeenAll, PairFields, AreAttributes, ArePointers, ConfigFields, Recordable, FieldOk;
    ListSeen(front, PairsOf(c.attribs), back, width);
    assert PairsOf(c.attribs) == ListOf(c.attribs);
    assert fs == (front + list) + back;
    ConfigBack(front + list, size, c.numConfig, Found(c), c.res, width);
    SeenAtMeans(fs, width, 0);
  }

  /*  glDrawElements  */

  lemma {:induction false} TypeSize(ty: Word)
    requires GlSizeof(ty).Some?
    ensures TypeHas(ty, GlSizeof(ty).value)
  {
  }

  lemma {:induction false} IndexMeans(w: Recorder, c: Call, width: nat)
    requires IsWidth(width) && c.DrawElements? && Recordable(w, c, width)
    ensures FieldOk(IndexField(w, c), width) && IsIndices(Seen(IndexField(w, c), width), w, c, width)
  {
    SeenMeans(IndexField(w, c), width);
    if w.elementBuffer == 0 {
      TypeSize(c.ty);
      var n := Signed(c.count) * GlSizeof(c.ty).value;
      assert HoldsIndices(Seen(IndexField(w, c), width), c, n);
    }
  }

  lemma {:induction false} VertexCountMeans(count: int)
    ensures VerticesFor(count, NonNegative(VertexCount(count)))
  {
  }

  lemma {:induction false} BlockMeans(a: Attrib, n: int, mem: seq<Byte>, width: nat)
    requires Readable(a, n, mem)
    ensures FieldOk(Block(a, n, mem), width)
    ensures IsVertices(Seen(Block(a, n, mem), width), a, NonNegative(n), mem)
  {
    TypeSize(a.ty);
    var elem, block := ElemSize(a), Packed(a, n, mem);
    var v := Seen(Block(a, n, mem), width);
    if elem * NonNegative(n) > 0 {
      assert v.data == Some(block[..|block|]) && block[..|block|] == block;
      forall j: nat, k: nat | j < NonNegative(n) && k < elem
        ensures SameByte(block, a, elem, j, k, mem)
      {
        PackedVertex(a, n, mem, j);
        SliceAt(block, PackedAt(a, j), elem, k);
        SliceAt(mem, VertexAt(a, j), elem, k);
      }
    }
    assert HoldsVertices(v, a, GlSizeof(a.ty).value, NonNegative(n), mem);
  }

  lemma {:induction false} SliceAt(s: seq<Byte>, from: nat, len: nat, k: nat)
    requires from + len <= |s| && k < len
    ensures s[from..from + len][k] == s[from + k]
  {
  }

  lemma {:induction false} BlocksAt(attribs: seq<Attrib>, from: nat, n: int, mem: seq<Byte>, i: nat)
    requires from <= i <= |attribs| && AllReadable(attribs, n, mem)
    ensures EnabledBelow(attribs, from) <= EnabledBelow(attribs, i) <= EnabledBelow(attribs, |attribs|)
    ensures |Blocks(attribs, from, n, mem)| == EnabledBelow(attribs, |attribs|) - EnabledBelow(attribs, from)
    ensures i < |attribs| && attribs[i].enabled ==>
              && EnabledBelow(attribs, i) < EnabledBelow(attribs, |attribs|)
              && Blocks(attribs, from, n, mem)[EnabledBelow(attribs, i) - EnabledBelow(attribs, from)]
                 == Block(attribs[i], n, mem)
    decreases |attribs| - from
  {
    if from < |attribs| {
      BlocksAt(attribs, from + 1, n, mem, if i > from then i else from + 1);
    }
  }

  lemma {:induction false} NoneBelow(attribs: seq<Attrib>)
    ensures EnabledBelow(attribs, 0) == 0
  {
  }

  lemma {:induction false} ArrayMeans(
    attribs: seq<Attrib>, front: seq<Field>, n: int, mem: seq<Byte>, i: nat, width: nat)
    requires IsWidth(width) && AllReadable(attribs, n, mem) && i < |attribs| && attribs[i].enabled
    requires FieldsOk(front + Blocks(attribs, 0, n, mem), width)
    ensures var vs, at := SeenAll(front + Blocks(attribs, 0, n, mem), width), |front| + EnabledBelow(attribs, i);
            at < |vs| && IsVertices(vs[at], attribs[i], NonNegative(n), mem)
  {
    hide Blocks, Block, IsVertices, SeenAll, Seen, Readable, EnabledBelow, FieldOk;
    BlocksAt(attribs, 0, n, mem, i);
    NoneBelow(attribs);
    var at := |front| + EnabledBelow(attribs, i);
    SeenAt(front + Blocks(attribs, 0, n, mem), width, at);
    BlockMeans(attribs[i], n, mem, width);
  }

  lemma {:induction false} ArraysMean(attribs: seq<Attrib>, front: seq<Field>, n: int, mem: seq<Byte>, width: nat)
    requires IsWidth(width) && AllReadable(attribs, n, mem) && FieldsOk(front, width)
    ensures FieldsOk(front + Blocks(attribs, 0, n, mem), width)
    ensures AreArrays(SeenAll(front + Blocks(attribs, 0, n, mem), width), |front|, attribs, NonNegative(n), mem)
  {
    BlocksOk(attribs, 0, n, mem, width);
    EncAllAppend(front, Blocks(attribs, 0, n, mem), width);
    hide Blocks, IsVertices, SeenAll, AllReadable, EnabledBelow, FieldsOk;
    BlocksAt(attribs, 0, n, mem, 0);
    NoneBelow(attribs);
    forall i | 0 <= i < |attribs| && attribs[i].enabled
      ensures var vs, at := SeenAll(front + Blocks(attribs, 0, n, mem), width), |front| + EnabledBelow(attribs, i);
              at < |vs| && IsVertices(vs[at], attribs[i], NonNegative(n), mem)
    {
      ArrayMeans(attribs, front, n, mem, i, width);
    }
  }

  lemma {:induction false} DrawElementsMeans(w: Recorder, c: Call, width: nat)
    requires IsWidth(width) && c.DrawElements? && Recordable(w, c, width)
    ensures var fs := [IntF(c.mode), IntF(c.count), IntF(c.ty)] + ([IndexField(w, c)] + ArrayFields(w, c));
            FieldsOk(fs, width) && Means(Opcode(c), SeenAll(fs, width), w, c, width)
  {
    IndexMeans(w, c, width);
    var front := [IntF(c.mode), IntF(c.count), IntF(c.ty), IndexField(w, c)];
    var fs := [IntF(c.mode), IntF(c.count), IntF(c.ty)] + ([IndexField(w, c)] + ArrayFields(w, c));
    assert fs == front + ArrayFields(w, c);
    if w.arrayBuffer == 0 {
      var n := VertexCount(Signed(c.count));
      ArraysMean(w.attribs, front, n, c.mem, width);
      VertexCountMeans(Signed(c.count));
    }
    hide ArrayFields, IndexField, IsIndices;
    SeenAt(fs, width, 0);
    SeenAt(fs, width, 1);
    SeenAt(fs, width, 2);
    SeenAt(fs, width, 3);
  }

  lemma {:induction false} CallMeans(w: Recorder, c: Call, width: nat)
    requires IsWidth(width) && RecorderOk(w) && Recordable(w, c, width)
    ensures FieldsOk(CallFields(w, c, width), width)
    ensures Means(Opcode(c), SeenAll(CallFields(w, c, width), width), w, c, width)
  {
    CallFieldsOk(w, c, width);
    hide Means, SeenAll;
    match c
    case Plain(_, _) => PlainMeans(w, c, width);
    case Names(_, _, _) => NamesMean(w, c, width);
    case ShaderSource(_, _, _) => ShaderSourceMeans(w, c, width);
    case ActiveUniform(_, _, _, _, _, _, _, _, _, _, _) => ActiveUniformMeans(w, c, width);
    case AttachedShaders(_, _, _, _, _, _) => AttachedShadersMean(w, c, width);
    case DrawElements(_, _, _, _, _) => DrawElementsMeans(w, c, width);
    case ChooseConfig(_, _, _, _, _, _) => ChooseConfigMeans(w, c, width);
    case EglCreate(_, _, _, _, _, _) => EglCreateMeans(w, c, width);
  }

  /** A command reports the n-th call: its thread, its time stamps, its opcode and every argument, in
      the state that the calls before it left. */
  ghost predicate Reports(cmd: Command, items: seq<Item>, n: nat, width: nat)
    requires n < |items|
  {
    && cmd.thread == Extended(items[n].thread, width) && cmd.bgn == items[n].bgn && cmd.end == items[n].end
    && exists w: Recorder :: Remembers(w, items, n) && Means(cmd.op, cmd.values, w, items[n].call, width)
  }

  lemma {:induction false} ExpectedReports(items: seq<Item>, n: nat, width: nat)
    requires IsWidth(width) && TraceOk(Recorder0(), items, width) && n < |items|
    ensures Reports(ExpectedAll(Recorder0(), items, width)[n], items, n, width)
  {
    hide ExpectedAll, TraceOk, RecorderAt, CallFields, SeenAll, Means, Remembers;
    ExpectedAt(Recorder0(), items, n, width);
    RemembersAll(items, n, width);
    var w := RecorderAt(Recorder0(), items, n, width);
    CallMeans(w, items[n].call, width);
    SeenMeans(PtrF(items[n].thread), width);
  }
}
