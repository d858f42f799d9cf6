/** A recording session end to end: interceptors, chunked writer, truncated file, decoder. */
module Session {
  import opened Bytes
  import opened Fields
  import opened VertexAttrib
  import opened TraceWriter
  import opened Calls
  import opened Replay
  import opened Traces
  import opened HandleReplay
  import opened CallMeaning
  import opened WholeTrace
  import opened TraceReader

  /** `for (i=0; i<n; ++i) putInt(ids[i])`. */
  method PutInts(n: int, ids: seq<Word>) returns (fs: seq<Field>)
    requires |ids| == NonNegative(n)
    ensures fs == IntFields(ids)
  {
    fs := [];
    var i := 0;
    while i < n
      invariant 0 <= i == |fs| <= |ids| && forall k :: 0 <= k < i ==> fs[k] == IntF(ids[k])
    {
      fs := fs + [IntF(ids[i])];
      i := i + 1;
    }
  }

  /** `for (i=0; i<num && i<size; ++i) putPtr(configs[i])`. */
  method PutConfigs(num: int, size: int, configs: seq<Long>) returns (fs: seq<Field>)
    requires |configs| == NonNegative(Min(num, size))
    ensures fs == PtrFields(configs)
  {
    fs := [];
    var i := 0;
    while i < num && i < size
      invariant 0 <= i == |fs| <= |configs| && forall k :: 0 <= k < i ==> fs[k] == PtrF(configs[k])
    {
      fs := fs + [PtrF(configs[i])];
      i := i + 1;
    }
  }

  /** The loop of `glShaderSource`: a length and a block, or a length that is not positive and a
      string. */
  method PutParts(count: int, parts: seq<Part>) returns (fs: seq<Field>)
    requires |parts| == NonNegative(count)
    ensures fs == PartsFields(parts)
  {
    hide PartFields;
    fs := [];
    var i := 0;
    assert parts[0..] == parts && [] + PartsFields(parts) == PartsFields(parts);
    while i < count
      invariant 0 <= i <= |parts| && fs + PartsFields(parts[i..]) == PartsFields(parts)
    {
      assert parts[i..][1..] == parts[i + 1..];
      assert fs + (PartFields(parts[i]) + PartsFields(parts[i + 1..]))
          == (fs + PartFields(parts[i])) + PartsFields(parts[i + 1..]);
      var next := PutPart(parts[i]);
      fs := fs + next;
      i := i + 1;
    }
    assert fs + [] == fs;
  }

  method PutPart(p: Part) returns (fs: seq<Field>)
    ensures fs == PartFields(p)
  {
    fs := [IntF(p.len)];
    if Signed(p.len) > 0 {
      fs := fs + [BytesF(p.str, Signed(p.len))];
    } else {
      fs := fs + [StrF(p.str)];
    }
  }

  /** Client memory at an attribute list: its pairs, then the sentinel. */
  ghost predicate ListAt(mem: seq<Word>, ptr: nat, ps: seq<(Word, Word)>) {
    && ptr + 2 * |ps| < |mem| && mem[ptr + 2 * |ps|] == EGL_NONE
    && forall i :: 0 <= i < |ps| ==> mem[ptr + 2 * i] == ps[i].0 != EGL_NONE && mem[ptr + 2 * i + 1] == ps[i].1
  }

  /** `for (; ptr && *ptr != EGL_NONE; ptr += 2)` and the sentinel, which is also written for a null
      list. */
  method PutPairs(mem: seq<Word>, list: Option<nat>, ghost ps: seq<(Word, Word)>) returns (fs: seq<Field>)
    requires if list.None? then ps == [] else ListAt(mem, list.value, ps)
    ensures fs == PairFields(ps)
  {
    fs := [];
    if list.Some? {
      var ptr := list.value;
      ghost var i := 0;
      assert ps[0..] == ps && [] + PairFields(ps) == PairFields(ps);
      ListStep(mem, ptr, ps, 0);
      hide ListAt;
      while mem[ptr] != EGL_NONE
        invariant 0 <= i <= |ps| && ptr == list.value + 2 * i && ptr < |mem| && (mem[ptr] == EGL_NONE <==> i == |ps|)
        invariant fs + PairFields(ps[i..]) == PairFields(ps)
        decreases |ps| - i
      {
        ListStep(mem, list.value, ps, i);
        ListStep(mem, list.value, ps, i + 1);
        PairFieldsAt(ps, i);
        ghost var pair := [IntF(ps[i].0), IntF(ps[i].1)];
        assert fs + (pair + PairFields(ps[i + 1..])) == (fs + pair) + PairFields(ps[i + 1..]);
        fs := fs + [IntF(mem[ptr]), IntF(mem[ptr + 1])];
        ptr, i := ptr + 2, i + 1;
      }
      assert i == |ps|;
    }
    fs := fs + [IntF(EGL_NONE)];
  }

  lemma ListStep(mem: seq<Word>, ptr: nat, ps: seq<(Word, Word)>, i: nat)
    requires ListAt(mem, ptr, ps) && i <= |ps|
    ensures ptr + 2 * i < |mem| && (mem[ptr + 2 * i] == EGL_NONE <==> i == |ps|)
    ensures i < |ps| ==>
              ptr + 2 * i + 1 < |mem| && mem[ptr + 2 * i] == ps[i].0 && mem[ptr + 2 * i + 1] == ps[i].1
  {
    if i < |ps| {
      assert ps[i].0 != EGL_NONE;
    }
  }

  lemma PairFieldsAt(ps: seq<(Word, Word)>, i: nat)
    requires i < |ps|
    ensures PairFields(ps[i..]) == [IntF(ps[i].0), IntF(ps[i].1)] + PairFields(ps[i + 1..])
  {
    assert ps[i..][0] == ps[i] && ps[i..][1..] == ps[i + 1..];
  }

  /** An attribute list as the caller lays it out. */
  function ListMemory(ps: seq<(Word, Word)>): (mem: seq<Word>)
    ensures |mem| == 2 * |ps| + 1 && mem[2 * |ps|] == EGL_NONE
    ensures forall i :: 0 <= i < |ps| ==> mem[2 * i] == ps[i].0 && mem[2 * i + 1] == ps[i].1
  {
    seq(2 * |ps| + 1, i requires 0 <= i < 2 * |ps| + 1 =>
          if i == 2 * |ps| then EGL_NONE else if i % 2 == 0 then ps[i / 2].0 else ps[i / 2].1)
  }

  method PutList(attribs: Option<seq<(Word, Word)>>) returns (fs: seq<Field>)
    requires PairsOk(PairsOf(attribs))
    ensures fs == PairFields(PairsOf(attribs))
  {
    if attribs.None? {
      fs := PutPairs([], None, []);
    } else {
      fs := PutPairs(ListMemory(attribs.value), Some(0), attribs.value);
    }
  }

  /** The puts of one call, loop by loop; `glDrawElements` packs its client arrays through the
      staging buffer. */
  method Puts(w: Recorder, c: Call, width: nat) returns (fs: seq<Field>)
    requires RecorderOk(w) && Recordable(w, c, width)
    ensures fs == CallFields(w, c, width)
  {
    match c
    case Plain(_, args) => fs := args;
    case Names(_, n, ids) =>
      var names := PutInts(Signed(n), ids);
      fs := [IntF(n)] + names;
    case ShaderSource(shader, count, parts) =>
      var strings := PutParts(Signed(count), parts);
      fs := [IntF(shader), IntF(count)] + strings;
    case ActiveUniform(program, index, bufsize, lp, sp, tp, np, length, size, ty, name) =>
      var outputs := [];
      if lp != 0 { outputs := outputs + [IntF(length)]; }
      if sp != 0 { outputs := outputs + [IntF(size)]; }
      if tp != 0 { outputs := outputs + [IntF(ty)]; }
      if np != 0 { outputs := outputs + [StrF(Some(name))]; }
      fs := [IntF(program), IntF(index), IntF(bufsize), PtrF(lp), PtrF(sp), PtrF(tp), PtrF(np)] + outputs;
    case AttachedShaders(program, maxcount, cp, sp, count, shaders) =>
      var outputs := [];
      if cp != 0 {
        outputs := [IntF(count)];
        if sp != 0 {
          var list := PutInts(Signed(count), shaders);
          outputs := outputs + list;
        }
      }
      fs := [IntF(program), IntF(maxcount), PtrF(cp), PtrF(sp)] + outputs;
    case DrawElements(mode, count, ty, _, mem) =>
      var arrays := [];
      if w.arrayBuffer == 0 {
        arrays := PutVertexAttrib(w.attribs, Signed(count), mem);
      }
      fs := [IntF(mode), IntF(count), IntF(ty)] + ([IndexField(w, c)] + arrays);
    case ChooseConfig(dpy, attribs, configs, size, num, res) =>
      var list := PutList(attribs);
      var found := if ConfigCount(num, size) > 0 then configs.value else [];
      var ptrs := PutConfigs(Signed(num), Signed(size), found);
      fs := [PtrF(dpy)] + (list + ([IntF(if configs.None? then 0 else size), IntF(num)] + (ptrs + [IntF(res)])));
    case EglCreate(_, a, b, t, attribs, handle) =>
      var list := PutList(attribs);
      fs := [PtrF(a), PtrF(b), PtrF(t)] + (list + [PtrF(handle)]);
  }

  /** putCmd, the puts, putTime. */
  method PutRecord(w: Writer, rec: Rec)
    requires w.Valid() && w.reentrance == 0 && RecOk(rec, w.width)
    modifies w, w.chunk
    ensures w.Valid() && (w.chunk == old(w.chunk) || fresh(w.chunk))
    ensures w.reentrance == 0 && w.curThread == rec.thread
    ensures FieldsOk(RecFields(old(w.curThread), rec), w.width)
    ensures w.Log() == old(w.Log()) + EncAll(RecFields(old(w.curThread), rec), w.width)
  {
    ghost var log, last := w.Log(), w.curThread;
    w.PutCmd(rec.thread, rec.op);
    w.PutAll(rec.fields);
    w.PutTime(rec.bgn, rec.end);
    ThreeParts(log, Prefix(last, rec.thread, rec.op), rec.fields, Times(rec.bgn, rec.end), w.width);
  }

  /** The statics of gles.c beside those of iolib.c. */
  class Recording {
    const writer: Writer
    var state: Recorder

    ghost predicate Valid()
      reads this, writer, writer.chunk
    {
      writer.Valid() && writer.reentrance == 0 && RecorderOk(state) && PtrOk(writer.curThread, writer.width)
    }

    constructor (chunkSize: nat, width: nat)
      requires chunkSize > 0 && chunkSize % 4 == 0 && IsWidth(width)
      ensures Valid() && fresh(writer) && fresh(writer.chunk) && writer.width == width
      ensures state == Recorder0() && writer.curThread == 0
      ensures writer.Log() == EncAll(Header(width), width)
    {
      writer := new Writer(chunkSize, width);
      state := Recorder0();
      new;
      Pow256Values();
    }

    /** One intercepted call that makes no intercepted call itself. */
    method Intercept(it: Item)
      requires Valid() && PtrOk(it.thread, writer.width) && Recordable(state, it.call, writer.width)
      modifies this, writer, writer.chunk
      ensures Valid() && (writer.chunk == old(writer.chunk) || fresh(writer.chunk))
      ensures state == Record(old(state), it.call) && writer.curThread == it.thread
      ensures var fs := RecFields(old(writer.curThread), RecOf(old(state), it, writer.width));
              FieldsOk(fs, writer.width)
              && writer.Log() == old(writer.Log()) + EncAll(fs, writer.width)
    {
      var fs := Puts(state, it.call, writer.width);
      CallFieldsOk(state, it.call, writer.width);
      PutRecord(writer, Rec(it.thread, Opcode(it.call), fs, it.bgn, it.end));
      state := Record(state, it.call);
    }

    method InterceptAll(items: seq<Item>)
      requires Valid() && TraceOk(state, items, writer.width)
      modifies this, writer, writer.chunk
      ensures Valid() && (writer.chunk == old(writer.chunk) || fresh(writer.chunk))
      ensures writer.Log() == old(writer.Log())
                            + LogBytes(old(writer.curThread), Recs(old(state), items, writer.width), writer.width)
      decreases |items|
    {
      if items != [] {
        ghost var log, last, w, width := writer.Log(), writer.curThread, state, writer.width;
        Intercept(items[0]);
        InterceptAll(items[1..]);
        RecsCons(last, w, items, log, width);
      }
    }
  }

  lemma ThreeParts(log: seq<Byte>, a: seq<Field>, b: seq<Field>, c: seq<Field>, width: nat)
    requires FieldsOk(a, width) && FieldsOk(b, width) && FieldsOk(c, width)
    ensures FieldsOk(a + (b + c), width)
    ensures log + EncAll(a, width) + EncAll(b, width) + EncAll(c, width) == log + EncAll(a + (b + c), width)
  {
    EncAllAppend(b, c, width);
    EncAllAppend(a, b + c, width);
    Associative(log + EncAll(a, width), EncAll(b, width), EncAll(c, width));
    Associative(log, EncAll(a, width), EncAll(b, width) + EncAll(c, width));
  }

  lemma RecsCons(last: Long, w: Recorder, items: seq<Item>, log: seq<Byte>, width: nat)
    requires IsWidth(width) && items != [] && TraceOk(w, items, width)
    ensures FieldsOk(RecFields(last, RecOf(w, items[0], width)), width)
    ensures log + EncAll(RecFields(last, RecOf(w, items[0], width)), width)
                + LogBytes(items[0].thread, Recs(Record(w, items[0].call), items[1..], width), width)
         == log + LogBytes(last, Recs(w, items, width), width)
  {
    var recs := Recs(w, items, width);
    assert recs[1..] == Recs(Record(w, items[0].call), items[1..], width);
    RecFieldsOk(last, recs[0], width);
    Associative(log, EncAll(RecFields(last, recs[0]), width), LogBytes(items[0].thread, recs[1..], width));
  }

  /** What running a trace gives: the commands up to the first call replay does not get through, each
      of them telling its call argument by argument, and with replay the handles passed on. */
  ghost predicate Ran(commands: seq<Command>, renamed: seq<Handle>, stop: Stop,
                      items: seq<Item>, exec: bool, world: World, width: nat)
    requires IsWidth(width) && TraceOk(Recorder0(), items, width)
  {
    && commands == ExpectedAll(Recorder0(), items, width)[..Lasts(exec, world, items, width)]
    && (forall i :: 0 <= i < |commands| ==> Reports(commands[i], items, i, width))
    && if exec && !Replayable(world, items, width) then
         stop == Exited && Lasts(exec, world, items, width) < |items|
       else
         && stop == EndOfTrace && commands == ExpectedAll(Recorder0(), items, width)
         && (exec ==> renamed == Renamed(RecordedEvents(Stage0(world), Recorder0(), items, width)))
  }

  /** Opening and running a file that holds the calls, with any words of zeros behind them. */
  method ReplayFile(file: seq<Byte>, exec: bool, world: World,
                    ghost items: seq<Item>, ghost width: nat, ghost zeros: nat)
      returns (commands: seq<Command>, renamed: seq<Handle>, stop: Stop)
    requires IsWidth(width) && TraceOk(Recorder0(), items, width) && AllSupported(items, exec)
    requires file == EncAll(Header(width), width) + (TraceBytes(items, width) + Zeros(4 * zeros))
    ensures Ran(commands, renamed, stop, items, exec, world, width)
  {
    hide Process, OpenTrace, TraceBytes, EncAll, ExpectedAll, Replayable, RecordedEvents, Renamed, Lasts;
    WholeTraceRoundTrip(items, exec, world, width, zeros);
    var trace := OpenTrace(file);
    var replayer := new Replayer(exec, world, trace.value.0, trace.value.1);
    commands, stop := replayer.Run(-1);
    renamed := replayer.renamed;
    forall i | 0 <= i < |commands|
      ensures Reports(commands[i], items, i, width)
    {
      ExpectedReports(items, i, width);
    }
  }

  /** Recording any run of supported calls through chunks of any size and running the file yields
      exactly those calls; with replay, if and only if the trace is replayable. */
  method RecordAndReplay(items: seq<Item>, chunkSize: nat, width: nat, exec: bool, world: World)
      returns (commands: seq<Command>, renamed: seq<Handle>, stop: Stop)
    requires chunkSize > 0 && chunkSize % 4 == 0 && IsWidth(width)
    requires TraceOk(Recorder0(), items, width) && AllSupported(items, exec)
    ensures Ran(commands, renamed, stop, items, exec, world, width)
  {
    hide Ran, EncAll, LogBytes, Recs, AllSupported;
    var session := new Recording(chunkSize, width);
    session.InterceptAll(items);
    var file := session.writer.Fini();
    assert TraceBytes(items, width) + Zeros(4 * 0) == TraceBytes(items, width);
    commands, renamed, stop := ReplayFile(file, exec, world, items, width, 0);
  }

  /** The same for a recording that was never finished, whose file still has the unused tail of
      the last chunk. */
  method RecordUnfinishedAndReplay(items: seq<Item>, chunkSize: nat, width: nat, exec: bool, world: World)
      returns (commands: seq<Command>, renamed: seq<Handle>, stop: Stop)
    requires chunkSize > 0 && chunkSize % 4 == 0 && IsWidth(width)
    requires TraceOk(Recorder0(), items, width) && AllSupported(items, exec)
    ensures Ran(commands, renamed, stop, items, exec, world, width)
  {
    hide Ran, EncAll, LogBytes, Recs, AllSupported;
    var session := new Recording(chunkSize, width);
    session.InterceptAll(items);
    var file := session.writer.Abandon();
    session.writer.UntruncatedFile();
    ghost var tail := session.writer.end - session.writer.cur;
    Associative(EncAll(Header(width), width), TraceBytes(items, width), Zeros(tail));
    commands, renamed, stop := ReplayFile(file, exec, world, items, width, tail / 4);
  }

  /** Record, replay, rename: replay gets through exactly when the trace is replayable, and then
      every recorded surface or context was replaced by the object created last under that handle. */
  method RecordAndRename(items: seq<Item>, chunkSize: nat, width: nat, world: World)
      returns (renamed: seq<Handle>, ok: bool)
    requires chunkSize > 0 && chunkSize % 4 == 0 && IsWidth(width)
    requires TraceOk(Recorder0(), items, width) && AllSupported(items, true)
    ensures ok <==> Replayable(world, items, width)
    ensures ok ==> renamed == Renamed(RecordedEvents(Stage0(world), Recorder0(), items, width))
  {
    hide Replayable, RecordedEvents, Renamed, ExpectedAll, Lasts;
    var commands, stop;
    commands, renamed, stop := RecordAndReplay(items, chunkSize, width, true, world);
    ok := stop == EndOfTrace;
  }
}
