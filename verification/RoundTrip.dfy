/** Replay recovers what was recorded: one record at a time, whole traces, and traces cut at a
    record boundary. */
module RoundTrip {
  import opened Bytes
  import opened Fields
  import opened VertexAttrib
  import opened Calls
  import opened Replay

  /** The two separately kept states agree on everything the shape of a record depends on. */
  predicate Agree(w: Recorder, r: Player) {
    && RecorderOk(w) && |r.attribs| == MAX_VERTEX_ATTRIBS
    && r.arrayBuffer == w.arrayBuffer && r.elementBuffer == w.elementBuffer
    && (forall i :: 0 <= i < MAX_VERTEX_ATTRIBS ==> r.attribs[i].enabled == w.attribs[i].enabled)
    && (r.exec ==> forall i :: 0 <= i < MAX_VERTEX_ATTRIBS ==>
          && r.attribs[i].size == w.attribs[i].size && r.attribs[i].ty == w.attribs[i].ty
          && r.attribs[i].normalized == w.attribs[i].normalized)
  }

  /** The calls the decoder gets through: implemented commands, ordinary `glGetFloatv` results,
      a shader list only when replaying, and attribute lists that fit its array. */
  predicate Supported(c: Call, exec: bool) {
    match c
    case Plain(op, args) => ReplayedShape(op).Some? && AllDelimited(args)
    case AttachedShaders(_, _, cp, sp, count, _) => exec || cp == 0 || sp == 0 || Signed(count) <= 0
    case ChooseConfig(_, attribs, _, _, _, _) => ListFits(attribs)
    case EglCreate(_, _, _, _, attribs, _) => ListFits(attribs)
    case _ => true
  }

  /** 64 slots hold 31 pairs and the sentinel. */
  predicate ListFits(attribs: Option<seq<(Word, Word)>>) {
    |PairsOf(attribs)| <= 31
  }

  /*  Shapes of variable records  */

  lemma {:induction false} IntFieldsKinds(fs: seq<Field>)
    requires forall i :: 0 <= i < |fs| ==> fs[i].IntF?
    ensures KindsOf(fs) == Repeat(KInt, |fs|)
  {
    if fs != [] {
      IntFieldsKinds(fs[1..]);
    }
  }

  lemma {:induction false} PtrFieldsKinds(fs: seq<Field>)
    requires forall i :: 0 <= i < |fs| ==> fs[i].PtrF?
    ensures KindsOf(fs) == Repeat(KPtr, |fs|)
  {
    if fs != [] {
      PtrFieldsKinds(fs[1..]);
    }
  }

  lemma {:induction false} BlockKinds(w: Recorder, r: Player, i: nat, n: int, mem: seq<Byte>)
    requires Agree(w, r) && i <= MAX_VERTEX_ATTRIBS && AllReadable(w.attribs, n, mem)
    ensures KindsOf(Blocks(w.attribs, i, n, mem)) == EnabledKinds(r.attribs, i)
    ensures AllDelimited(Blocks(w.attribs, i, n, mem))
    decreases MAX_VERTEX_ATTRIBS - i
  {
    if i < MAX_VERTEX_ATTRIBS {
      BlockKinds(w, r, i + 1, n, mem);
      var more := Blocks(w.attribs, i + 1, n, mem);
      assert ([] + more) == more && [] + EnabledKinds(r.attribs, i + 1) == EnabledKinds(r.attribs, i + 1);
      if w.attribs[i].enabled {
        assert ([Block(w.attribs[i], n, mem)] + more)[1..] == more;
      }
    }
  }

  lemma GetIntOf(w: Word, gs: seq<Field>, width: nat, rest: seq<Byte>)
    requires FieldsOk(gs, width)
    ensures GetWord(EncAll([IntF(w)] + gs, width) + rest) == (w, EncAll(gs, width) + rest)
    ensures SeenAll([IntF(w)] + gs, width) == [IntV(w)] + SeenAll(gs, width)
  {
    var fs := [IntF(w)] + gs;
    assert fs[1..] == gs;
    Associative(ToLE(w, 4), EncAll(gs, width), rest);
    GetWordOf(w, EncAll(gs, width) + rest);
  }

  lemma GetFieldOf(f: Field, gs: seq<Field>, width: nat, rest: seq<Byte>)
    requires IsWidth(width) && FieldOk(f, width) && FieldsOk(gs, width) && Delimited(f)
    ensures Get(KindOf(f), width, EncAll([f] + gs, width) + rest) == (Seen(f, width), EncAll(gs, width) + rest)
    ensures SeenAll([f] + gs, width) == [Seen(f, width)] + SeenAll(gs, width)
  {
    var fs := [f] + gs;
    assert fs[1..] == gs;
    Associative(Enc(f, width), EncAll(gs, width), rest);
    GetOf(f, width, EncAll(gs, width) + rest);
  }

  lemma {:induction false} ReadPartsOf(ps: seq<Part>, width: nat, rest: seq<Byte>)
    requires IsWidth(width) && FieldsOk(PartsFields(ps), width)
    ensures ReadParts(|ps|, width, EncAll(PartsFields(ps), width) + rest)
         == (SeenAll(PartsFields(ps), width), rest)
  {
    if ps == [] {
      assert EncAll(PartsFields(ps), width) + rest == rest;
    } else {
      var more := PartsFields(ps[1..]);
      PartsSplit(ps, width);
      ReadPartOf(ps[0], more, width, rest);
      ReadPartsOf(ps[1..], width, rest);
      TwoValues(IntV(ps[0].len), Seen(PartFields(ps[0])[1], width), SeenAll(more, width));
    }
  }

  lemma PartsSplit(ps: seq<Part>, width: nat)
    requires ps != [] && FieldsOk(PartsFields(ps), width)
    ensures FieldOk(PartFields(ps[0])[1], width) && FieldsOk(PartsFields(ps[1..]), width)
    ensures PartsFields(ps) == [IntF(ps[0].len)] + ([PartFields(ps[0])[1]] + PartsFields(ps[1..]))
  {
    var more := PartsFields(ps[1..]);
    FieldsOkSplit(PartFields(ps[0]), more, width);
    TwoFields(IntF(ps[0].len), PartFields(ps[0])[1], more);
  }

  lemma TwoValues(v: Value, x: Value, more: seq<Value>)
    ensures [v] + ([x] + more) == [v, x] + more
  {
  }

  lemma TwoFields(f: Field, g: Field, more: seq<Field>)
    ensures [f, g] + more == [f] + ([g] + more)
  {
  }

  lemma ReadPartOf(p: Part, more: seq<Field>, width: nat, rest: seq<Byte>)
    requires IsWidth(width) && FieldOk(PartFields(p)[1], width) && FieldsOk(more, width)
    ensures var f := PartFields(p)[1];
            var fs := [IntF(p.len)] + ([f] + more);
            FieldsOk(fs, width)
            && GetWord(EncAll(fs, width) + rest) == (p.len, EncAll([f] + more, width) + rest)
            && Get(KindOf(f), width, EncAll([f] + more, width) + rest) == (Seen(f, width), EncAll(more, width) + rest)
            && SeenAll(fs, width) == [IntV(p.len)] + ([Seen(f, width)] + SeenAll(more, width))
  {
    var f := PartFields(p)[1];
    GetIntOf(p.len, [f] + more, width, rest);
    GetFieldOf(f, more, width, rest);
  }

  lemma PairFieldsOk(ps: seq<(Word, Word)>, width: nat)
    ensures FieldsOk(PairFields(ps), width)
  {
  }

  /** A recorded attribute list is read back exactly when it fits the reader's array. */
  lemma {:induction false} ReadPairsOf(ps: seq<(Word, Word)>, i: nat, width: nat, rest: seq<Byte>)
    requires PairsOk(ps) && i % 2 == 0
    ensures FieldsOk(PairFields(ps), width)
    ensures ReadPairs(EncAll(PairFields(ps), width) + rest, i)
         == if i + 2 * |ps| < MAX_ATTRIB_LIST then Some((SeenAll(PairFields(ps), width), rest)) else None
    decreases |ps|
  {
    PairFieldsOk(ps, width);
    if ps == [] {
      GetIntOf(EGL_NONE, [], width, rest);
      assert [IntF(EGL_NONE)] + [] == PairFields(ps);
      assert EncAll([], width) + rest == rest;
      assert [IntV(EGL_NONE)] + SeenAll([], width) == [IntV(EGL_NONE)];
    } else {
      var more := PairFields(ps[1..]);
      PairFieldsOk(ps[1..], width);
      assert PairFields(ps) == [IntF(ps[0].0)] + ([IntF(ps[0].1)] + more);
      GetIntOf(ps[0].0, [IntF(ps[0].1)] + more, width, rest);
      GetIntOf(ps[0].1, more, width, rest);
      ReadPairsOf(ps[1..], i + 2, width, rest);
      TwoValues(IntV(ps[0].0), IntV(ps[0].1), SeenAll(more, width));
    }
  }

  lemma KindsAre(fs: seq<Field>, ks: seq<Kind>)
    requires |fs| == |ks| && forall i :: 0 <= i < |fs| ==> KindOf(fs[i]) == ks[i]
    ensures KindsOf(fs) == ks
  {
    forall i | 0 <= i < |fs| ensures KindsOf(fs)[i] == ks[i] {
      KindsAt(fs, i);
    }
  }

  lemma {:induction false} SeenAt(fs: seq<Field>, width: nat, i: nat)
    requires FieldsOk(fs, width) && i < |fs|
    ensures SeenAll(fs, width)[i] == Seen(fs[i], width)
  {
    if i > 0 {
      SeenAt(fs[1..], width, i - 1);
    }
  }

  /** Sign extension keeps null apart from the other pointers. */
  lemma SeenNull(p: Long, width: nat)
    requires IsWidth(width) && p < Pow256(width)
    ensures SeenPtr(p, width) == 0 <==> p == 0
  {
    Pow256Values();
  }

  /*  One record of each kind  */

  /** `a` is what reading the record body `fs` in front of `rest` should give. */
  predicate Recovered(a: ArgsResult, fs: seq<Field>, width: nat, rest: seq<Byte>)
    requires FieldsOk(fs, width)
  {
    a == Args(SeenAll(fs, width), rest)
  }

  lemma ReadNamesOf(n: Word, ids: seq<Word>, width: nat, rest: seq<Byte>)
    requires IsWidth(width) && |ids| == NonNegative(Signed(n))
    ensures var fs := [IntF(n)] + IntFields(ids);
            Recovered(ReadNames(width, EncAll(fs, width) + rest), fs, width, rest)
  {
    GetIntOf(n, IntFields(ids), width, rest);
    IntFieldsKinds(IntFields(ids));
    ReadKindsOf(IntFields(ids), width, rest);
  }

  lemma ReadShaderSourceOf(shader: Word, count: Word, parts: seq<Part>, width: nat, rest: seq<Byte>)
    requires IsWidth(width) && |parts| == NonNegative(Signed(count)) && FieldsOk(PartsFields(parts), width)
    ensures var fs := [IntF(shader), IntF(count)] + PartsFields(parts);
            Recovered(ReadShaderSource(width, EncAll(fs, width) + rest), fs, width, rest)
  {
    var front := [IntF(shader), IntF(count)];
    KindsAre(front, [KInt, KInt]);
    ReadFront(front, PartsFields(parts), width, rest);
    SeenAt(front, width, 1);
    ReadPartsOf(parts, width, rest);
  }

  lemma OutputKindsOf(c: Call, width: nat)
    requires c.ActiveUniform? && FieldOk(StrF(Some(c.name)), width)
    ensures FieldsOk(UniformOutputs(c), width) && AllDelimited(UniformOutputs(c))
    ensures KindsOf(UniformOutputs(c)) == OutputKinds(c.lengthPtr, c.sizePtr, c.typePtr, c.namePtr)
  {
    KindsAre(UniformOutputs(c), OutputKinds(c.lengthPtr, c.sizePtr, c.typePtr, c.namePtr));
  }

  function UniformInputs(c: Call): seq<Field>
    requires c.ActiveUniform?
  {
    [IntF(c.program), IntF(c.index), IntF(c.bufsize),
     PtrF(c.lengthPtr), PtrF(c.sizePtr), PtrF(c.typePtr), PtrF(c.namePtr)]
  }

  lemma SeenPtrAt(fs: seq<Field>, i: nat, width: nat)
    requires IsWidth(width) && FieldsOk(fs, width) && i < |fs| && fs[i].PtrF?
    ensures SeenAll(fs, width)[i] == PtrV(SeenPtr(fs[i].p, width))
    ensures SeenAll(fs, width)[i].p == 0 <==> fs[i].p == 0
  {
    SeenAt(fs, width, i);
    SeenNull(fs[i].p, width);
  }

  lemma KindsSeen(fs: seq<Field>, width: nat)
    requires FieldsOk(fs, width)
    ensures OfKinds(SeenAll(fs, width), KindsOf(fs))
  {
    forall i | 0 <= i < |fs| ensures KindOfValue(SeenAll(fs, width)[i]) == KindsOf(fs)[i] {
      SeenAt(fs, width, i);
      KindsAt(fs, i);
    }
  }

  lemma UniformInputsOf(c: Call, width: nat)
    requires IsWidth(width) && c.ActiveUniform? && Recordable(Recorder0(), c, width)
    ensures var fs := UniformInputs(c);
            FieldsOk(fs, width) && KindsOf(fs) == [KInt, KInt, KInt, KPtr, KPtr, KPtr, KPtr]
            && OfKinds(SeenAll(fs, width), KindsOf(fs))
            && var vs := SeenAll(fs, width);
               OutputKinds(vs[3].p, vs[4].p, vs[5].p, vs[6].p)
               == OutputKinds(c.lengthPtr, c.sizePtr, c.typePtr, c.namePtr)
  {
    var front := UniformInputs(c);
    KindsAre(front, [KInt, KInt, KInt, KPtr, KPtr, KPtr, KPtr]);
    KindsSeen(front, width);
    SeenPtrAt(front, 3, width);
    SeenPtrAt(front, 4, width);
    SeenPtrAt(front, 5, width);
    SeenPtrAt(front, 6, width);
  }

  lemma ReadActiveUniformOf(c: Call, width: nat, rest: seq<Byte>)
    requires IsWidth(width) && c.ActiveUniform? && Recordable(Recorder0(), c, width)
    ensures var fs := UniformInputs(c) + UniformOutputs(c);
            FieldsOk(fs, width) && Recovered(ReadActiveUniform(width, EncAll(fs, width) + rest), fs, width, rest)
  {
    OutputKindsOf(c, width);
    UniformInputsOf(c, width);
    ReadFront(UniformInputs(c), UniformOutputs(c), width, rest);
    ReadKindsOf(UniformOutputs(c), width, rest);
  }

  /** What is left unread of a shader list: all of it when not replaying. */
  function UnreadShaders(exec: bool, c: Call): seq<Field>
    requires c.AttachedShaders?
  {
    if exec || c.countPtr == 0 || c.shadersPtr == 0 then [] else IntFields(c.shaders)
  }

  lemma ReadShaderListOf(exec: bool, c: Call, width: nat, rest: seq<Byte>)
    requires IsWidth(width) && c.AttachedShaders? && Recordable(Recorder0(), c, width)
    ensures FieldsOk(ShaderOutputs(c), width)
    ensures var r := ReadShaderList(exec, c.countPtr != 0, c.shadersPtr != 0, width,
                                    EncAll(ShaderOutputs(c), width) + rest);
            && r.1 == EncAll(UnreadShaders(exec, c), width) + rest
            && (UnreadShaders(exec, c) == [] ==> r.0 == SeenAll(ShaderOutputs(c), width))
  {
    if c.countPtr == 0 {
      assert EncAll(ShaderOutputs(c), width) + rest == rest;
    } else {
      var ints := if c.shadersPtr == 0 then [] else IntFields(c.shaders);
      GetIntOf(c.count, ints, width, rest);
      if exec || c.shadersPtr == 0 {
        IntFieldsKinds(ints);
        ReadKindsOf(ints, width, rest);
        assert EncAll([], width) + rest == rest;
      } else {
        assert ints == UnreadShaders(exec, c);
        assert [IntV(c.count)] + [] == [IntV(c.count)];
        if ints == [] {
          assert [IntV(c.count)] + SeenAll([], width) == [IntV(c.count)];
        }
      }
    }
  }

  lemma UnreadIsUnsupported(exec: bool, c: Call, width: nat)
    requires IsWidth(width) && c.AttachedShaders? && Recordable(Recorder0(), c, width)
    ensures UnreadShaders(exec, c) == [] <==> Supported(c, exec)
    ensures !Supported(c, exec) ==> |EncAll(UnreadShaders(exec, c), width)| > 0
  {
    var fs := UnreadShaders(exec, c);
    if fs != [] {
      EncAligned(fs[0], width);
    }
  }

  /** `glGetAttachedShaders` is read back if and only if it is replayed or no shader was listed. */
  lemma ReadAttachedShadersOf(exec: bool, c: Call, width: nat, rest: seq<Byte>)
    requires IsWidth(width) && c.AttachedShaders? && Recordable(Recorder0(), c, width)
    ensures var fs := ShaderInputs(c) + ShaderOutputs(c);
            && FieldsOk(fs, width)
            && (Recovered(ReadAttachedShaders(exec, width, EncAll(fs, width) + rest), fs, width, rest)
                <==> Supported(c, exec))
  {
    var front := ShaderInputs(c);
    KindsAre(front, [KInt, KInt, KPtr, KPtr]);
    ReadShaderListOf(exec, c, width, rest);
    UnreadIsUnsupported(exec, c, width);
    ReadFront(front, ShaderOutputs(c), width, rest);
    SeenPtrAt(front, 2, width);
    SeenPtrAt(front, 3, width);
    hide ReadShaderList, EncAll, Supported;
    assert EncAll([], width) + rest == rest by { NothingBefore(width, rest); }
  }

  lemma NothingBefore(width: nat, rest: seq<Byte>)
    ensures EncAll([], width) + rest == rest
  {
  }

  function ShaderInputs(c: Call): seq<Field>
    requires c.AttachedShaders?
  {
    [IntF(c.program), IntF(c.maxcount), PtrF(c.countPtr), PtrF(c.shadersPtr)]
  }

  lemma ReadDrawElementsOf(w: Recorder, r: Player, c: Call, width: nat, rest: seq<Byte>)
    requires IsWidth(width) && c.DrawElements? && Recordable(w, c, width) && Agree(w, r)
    ensures var fs := [IntF(c.mode), IntF(c.count), IntF(c.ty)] + ([IndexField(w, c)] + ArrayFields(w, c));
            FieldsOk(fs, width) && Recovered(ReadDrawElements(r, width, EncAll(fs, width) + rest), fs, width, rest)
  {
    var front, index, arrays := [IntF(c.mode), IntF(c.count), IntF(c.ty)], IndexField(w, c), ArrayFields(w, c);
    ArrayFieldsOf(w, r, c, width);
    IndexFieldOf(w, c, width);
    hide IndexField, ArrayFields;
    KindsAre(front, [KInt, KInt, KInt]);
    ReadFront(front, [index] + arrays, width, rest);
    GetFieldOf(index, arrays, width, rest);
    ReadKindsOf(arrays, width, rest);
  }

  lemma IndexFieldOf(w: Recorder, c: Call, width: nat)
    requires c.DrawElements? && Recordable(w, c, width)
    ensures var f := IndexField(w, c);
            FieldOk(f, width) && Delimited(f) && KindOf(f) == if w.elementBuffer != 0 then KPtr else KBytes
  {
  }

  /** The reader's mirror asks for exactly the blocks the recorder wrote. */
  lemma ArrayFieldsOf(w: Recorder, r: Player, c: Call, width: nat)
    requires c.DrawElements? && Recordable(w, c, width) && Agree(w, r)
    ensures var fs := ArrayFields(w, c);
            FieldsOk(fs, width) && AllDelimited(fs)
            && KindsOf(fs) == if r.arrayBuffer != 0 then [] else EnabledKinds(r.attribs, 0)
  {
    if w.arrayBuffer == 0 {
      var n := VertexCount(Signed(c.count));
      BlocksOk(w.attribs, 0, n, c.mem, width);
      BlockKinds(w, r, 0, n, c.mem);
    }
  }

  lemma ReadEglCreateOf(c: Call, width: nat, rest: seq<Byte>)
    requires IsWidth(width) && c.EglCreate? && Recordable(Recorder0(), c, width)
    ensures var fs := [PtrF(c.dpy), PtrF(c.config), PtrF(c.third)]
            + (PairFields(PairsOf(c.attribs)) + [PtrF(c.handle)]);
            FieldsOk(fs, width)
            && var a := ReadEglCreate(width, EncAll(fs, width) + rest);
               if ListFits(c.attribs) then Recovered(a, fs, width, rest) else a == TooManyAttributes
  {
    var front, pairs, last := [PtrF(c.dpy), PtrF(c.config), PtrF(c.third)], PairFields(PairsOf(c.attribs)),
        [PtrF(c.handle)];
    PairFieldsOk(PairsOf(c.attribs), width);
    assert FieldsOk(pairs + last, width);
    KindsAre(front, [KPtr, KPtr, KPtr]);
    ReadFront(front, pairs + last, width, rest);
    ReadListOf(c.attribs, last, width, rest);
    KindsAre(last, [KPtr]);
    ReadKindsOf(last, width, rest);
  }

  /** An attribute list in front of the fields `more`. */
  lemma ReadListOf(attribs: Option<seq<(Word, Word)>>, more: seq<Field>, width: nat, rest: seq<Byte>)
    requires PairsOk(PairsOf(attribs)) && FieldsOk(more, width)
    ensures var fs := PairFields(PairsOf(attribs));
            && FieldsOk(fs, width) && FieldsOk(fs + more, width)
            && ReadPairs(EncAll(fs + more, width) + rest, 0)
               == (if ListFits(attribs) then Some((SeenAll(fs, width), EncAll(more, width) + rest)) else None)
            && SeenAll(fs + more, width) == SeenAll(fs, width) + SeenAll(more, width)
  {
    var fs := PairFields(PairsOf(attribs));
    PairFieldsOk(PairsOf(attribs), width);
    EncAllAppend(fs, more, width);
    SeenAllAppend(fs, more, width);
    Associative(EncAll(fs, width), EncAll(more, width), rest);
    ReadPairsOf(PairsOf(attribs), 0, width, EncAll(more, width) + rest);
  }

  lemma ReadChooseConfigOf(c: Call, width: nat, rest: seq<Byte>)
    requires IsWidth(width) && c.ChooseConfig? && Recordable(Recorder0(), c, width)
    ensures var fs := CallFields(Recorder0(), c, width);
            FieldsOk(fs, width)
            && var a := ReadChooseConfig(width, EncAll(fs, width) + rest);
               if ListFits(c.attribs) then Recovered(a, fs, width, rest) else a == TooManyAttributes
  {
    var sizes, configs, last := ConfigSizes(c), ConfigFields(c), [IntF(c.res)];
    var tail := sizes + (configs + last);
    ConfigTail(c, width, rest);
    var pairs := PairFields(PairsOf(c.attribs));
    PairFieldsOk(PairsOf(c.attribs), width);
    KindsAre([PtrF(c.dpy)], [KPtr]);
    assert FieldsOk(pairs + tail, width);
    ReadFront([PtrF(c.dpy)], pairs + tail, width, rest);
    ReadListOf(c.attribs, tail, width, rest);
  }

  function ConfigSizes(c: Call): seq<Field>
    requires c.ChooseConfig?
  {
    [IntF(if c.configs.None? then 0 else c.configSize), IntF(c.numConfig)]
  }

  /** The configurations behind the attribute list: the reader computes their number from the
      two recorded sizes. */
  lemma ConfigTail(c: Call, width: nat, rest: seq<Byte>)
    requires IsWidth(width) && c.ChooseConfig? && Recordable(Recorder0(), c, width)
    ensures var sizes, configs, last := ConfigSizes(c), ConfigFields(c), [IntF(c.res)];
            && FieldsOk(sizes, width) && FieldsOk(configs, width) && FieldsOk(sizes + (configs + last), width)
            && ReadKinds([KInt, KInt], width, EncAll(sizes + (configs + last), width) + rest)
               == (SeenAll(sizes, width), EncAll(configs + last, width) + rest)
            && SeenAll(sizes, width) == [IntV(sizes[0].w), IntV(sizes[1].w)]
            && ReadKinds(Repeat(KPtr, ConfigCount(sizes[1].w, sizes[0].w)), width, EncAll(configs + last, width) + rest)
               == (SeenAll(configs, width), EncAll(last, width) + rest)
            && ReadKinds([KInt], width, EncAll(last, width) + rest) == (SeenAll(last, width), rest)
            && SeenAll(sizes + (configs + last), width)
               == SeenAll(sizes, width) + (SeenAll(configs, width) + SeenAll(last, width))
  {
    var sizes, configs, last := ConfigSizes(c), ConfigFields(c), [IntF(c.res)];
    PtrFieldsKinds(configs);
    hide ReadKinds, EncAll;
    KindsAre(sizes, [KInt, KInt]);
    KindsAre(last, [KInt]);
    ReadKindsOf(last, width, rest);
    ReadFront(configs, last, width, rest);
    ReadFront(sizes, configs + last, width, rest);
    SeenAt(sizes, width, 0);
    SeenAt(sizes, width, 1);
  }
}
