/** The reading side of iolib.c on its mapped file, and the replay loop over it. */
module TraceReader {
  import opened Bytes
  import opened Fields
  import opened TraceWriter
  import opened Calls
  import opened Replay
  import opened HandleReplay

  class Reader {
    const file: seq<Byte>
    const wsize: nat
    var cur: nat             // curPtr - filePtr; rounding up can carry it past the end

    constructor (file: seq<Byte>, wsize: nat)
      requires IsWidth(wsize)
      ensures this.file == file && this.wsize == wsize && Rest() == file
    {
      this.file, this.wsize, this.cur := file, wsize, 0;
    }

    ghost function Rest(): seq<Byte>
      reads this
    {
      Drop(file, cur)
    }

    method GetInt() returns (w: Word)
      modifies this
      ensures (w, Rest()) == GetWord(old(Rest()))
    {
      if cur + 4 > |file| { return 0; }
      Pow256Values();
      w := FromLE(file[cur..cur + 4]);
      assert file[cur..][..4] == file[cur..cur + 4];
      cur := cur + 4;
    }

    method GetLongLong() returns (v: Long)
      modifies this
      ensures (v, Rest()) == GetLong(old(Rest()))
    {
      if cur + 8 > |file| { return 0; }
      Pow256Values();
      v := FromLE(file[cur..cur + 8]);
      assert file[cur..][..8] == file[cur..cur + 8];
      cur := cur + 8;
    }

    method GetPointer() returns (p: Long)
      requires IsWidth(wsize)
      modifies this
      ensures (p, Rest()) == GetPtr(old(Rest()), wsize)
    {
      if cur + wsize > |file| { return 0; }
      if wsize == 4 {
        var w := GetInt();
        p := SignExtend(w);
      } else {
        p := GetLongLong();
      }
    }

    method GetNullableInt() returns (arg: Option<Word>)
      modifies this
      ensures (arg, Rest()) == GetIntPtr(old(Rest()))
    {
      if cur + 4 > |file| { return None; }
      var val := GetInt();
      arg := Some(val);
      if val == MARKER {
        // the second word is not checked against the end of the file
        var second := 0;
        if cur + 4 <= |file| {
          second := GetInt();
        } else {
          cur := cur + 4;
        }
        arg := if second == 0 then None else Some(second);
      }
    }

    /** Looks at the word behind the marker without stepping over it. */
    method GetNullableFloat() returns (arg: Option<Word>)
      modifies this
      ensures (arg, Rest()) == GetFloatPtr(old(Rest()))
    {
      if cur + 4 > |file| { return None; }
      var val := GetInt();
      arg := Some(val);
      if val == FLOAT_MARKER {
        var at := cur;
        var second := GetInt();
        cur := at;
        arg := if IsFloatZero(second) then None else Some(second);
      }
    }

    method GetText() returns (str: Option<seq<Byte>>)
      modifies this
      ensures (str, Rest()) == GetString(old(Rest()))
    {
      var n := 0;
      ghost var rest := Rest();
      while cur + n < |file| && file[cur + n] != 0
        invariant cur == old(cur) && n <= |rest|
        invariant 0 !in rest[..n]
      {
        assert rest[..n + 1] == rest[..n] + [rest[n]];
        n := n + 1;
      }
      StrLenUnique(rest, n);
      var len := n + 1;
      if cur + len > |file| { return None; }
      len := len + 3;
      len := len - len % 4;
      str := Some(file[cur..cur + n]);
      assert file[cur..cur + n] == rest[..n];
      cur := cur + len;
    }

    method GetBlock() returns (data: Option<seq<Byte>>)
      modifies this
      ensures (data, Rest()) == GetBytes(old(Rest()))
    {
      if cur + 4 > |file| { return None; }
      var w := GetInt();
      var size := Signed(w);
      if size <= 0 || cur + size > |file| { return None; }
      data := Some(file[cur..cur + size]);
      assert file[cur..][..size] == file[cur..cur + size];
      size := size + 3;
      size := size - size % 4;
      cur := cur + size;
    }

    /** `getCmd`. */
    method GetOpcode() returns (op: Word)
      modifies this
      ensures (op, Rest()) == GetCmd(old(Rest()))
    {
      if cur + 4 > |file| { return OPC_EOF; }
      op := GetInt();
    }

    method GetValue(k: Kind) returns (v: Value)
      requires IsWidth(wsize)
      modifies this
      ensures (v, Rest()) == Get(k, wsize, old(Rest()))
    {
      match k {
        case KInt => var w := GetInt(); v := IntV(w);
        case KFloat => var w := GetInt(); v := FloatV(w);
        case KIntPtr => var a := GetNullableInt(); v := IntPtrV(a);
        case KFloatPtr => var a := GetNullableFloat(); v := FloatPtrV(a);
        case KLong => var n := GetLongLong(); v := LongV(n);
        case KPtr => var p := GetPointer(); v := PtrV(p);
        case KStr => var x := GetText(); v := StrV(x);
        case KBytes => var d := GetBlock(); v := BytesV(d);
      }
    }

    /** Gets in the order of the kinds. */
    method GetAll(ks: seq<Kind>) returns (vs: seq<Value>)
      requires IsWidth(wsize)
      modifies this
      ensures (vs, Rest()) == ReadKinds(ks, wsize, old(Rest()))
    {
      hide Get, ReadKinds, Rest;
      vs := [];
      var i := 0;
      ghost var all := ReadKinds(ks, wsize, Rest());
      assert ks[0..] == ks && [] + all.0 == all.0;
      while i < |ks|
        invariant 0 <= i <= |ks| && all == Onto(vs, ReadKinds(ks[i..], wsize, Rest()))
      {
        ReadKindsStep(ks, i, wsize, Rest());
        var v := GetValue(ks[i]);
        OntoTwice(vs, [v], ReadKinds(ks[i + 1..], wsize, Rest()));
        vs := vs + [v];
        i := i + 1;
      }
      ReadNoKinds(wsize, Rest());
      assert ks[i..] == [] && vs + [] == vs;
    }

    /** The loop over the strings of `glShaderSource`. */
    method GetParts(n: int) returns (vs: seq<Value>)
      requires IsWidth(wsize)
      modifies this
      ensures (vs, Rest()) == ReadParts(NonNegative(n), wsize, old(Rest()))
    {
      hide Get, ReadParts, Rest, GetWord;
      vs := [];
      var i := 0;
      ghost var all := ReadParts(NonNegative(n), wsize, Rest());
      assert [] + all.0 == all.0;
      while i < n
        invariant 0 <= i <= NonNegative(n) && all == Onto(vs, ReadParts(NonNegative(n) - i, wsize, Rest()))
      {
        ReadPartsStep(NonNegative(n) - i, wsize, Rest());
        var len := GetInt();
        var v := GetValue(if Signed(len) > 0 then KBytes else KStr);
        OntoTwice(vs, [IntV(len), v], ReadParts(NonNegative(n) - i - 1, wsize, Rest()));
        vs := vs + [IntV(len), v];
        i := i + 1;
      }
      ReadNoParts(wsize, Rest());
      assert vs + [] == vs;
    }

    /** The loop into `attrib_list`, up to its sentinel; None is the exit of a full array. */
    method GetPairs() returns (vs: Option<seq<Value>>)
      modifies this
      ensures var r := ReadPairs(old(Rest()), 0);
              if r.None? then vs == None else vs == Some(r.value.0) && Rest() == r.value.1
    {
      hide ReadPairs, Rest, GetWord;
      var i, got := 0, [];
      ghost var all := ReadPairs(Rest(), 0);
      OntoNothing(all);
      while true
        invariant 0 <= i <= MAX_ATTRIB_LIST && i % 2 == 0 && all == OntoList(got, ReadPairs(Rest(), i))
        decreases MAX_ATTRIB_LIST - i
      {
        ReadPairsStep(Rest(), i);
        if i >= MAX_ATTRIB_LIST { return None; }
        var k := GetInt();
        if k == EGL_NONE { return Some(got + [IntV(k)]); }
        var v := GetInt();
        i := i + 2;
        OntoListTwice(got, [IntV(k), IntV(v)], ReadPairs(Rest(), i));
        got := got + [IntV(k), IntV(v)];
      }
    }
  }

  /** Values read before the rest. */
  ghost function Onto(vs: seq<Value>, r: (seq<Value>, seq<Byte>)): (seq<Value>, seq<Byte>) {
    (vs + r.0, r.1)
  }

  ghost function OntoList(vs: seq<Value>, r: Option<(seq<Value>, seq<Byte>)>): Option<(seq<Value>, seq<Byte>)> {
    if r.None? then None else Some(Onto(vs, r.value))
  }

  lemma OntoNothing(r: Option<(seq<Value>, seq<Byte>)>)
    ensures OntoList([], r) == r
  {
    if r.Some? {
      assert [] + r.value.0 == r.value.0;
    }
  }

  lemma OntoListTwice(vs: seq<Value>, ws: seq<Value>, r: Option<(seq<Value>, seq<Byte>)>)
    ensures OntoList(vs, OntoList(ws, r)) == OntoList(vs + ws, r)
  {
    if r.Some? {
      OntoTwice(vs, ws, r.value);
    }
  }

  lemma ReadPairsStep(s: seq<Byte>, i: nat)
    ensures var (k, t) := GetWord(s);
            var (v, u) := GetWord(t);
            ReadPairs(s, i)
            == if i >= MAX_ATTRIB_LIST then None
               else if k == EGL_NONE then Some(([IntV(k)], t))
               else OntoList([IntV(k), IntV(v)], ReadPairs(u, i + 2))
  {
  }

  lemma OntoTwice(vs: seq<Value>, ws: seq<Value>, r: (seq<Value>, seq<Byte>))
    ensures Onto(vs, Onto(ws, r)) == Onto(vs + ws, r)
  {
    assert vs + (ws + r.0) == (vs + ws) + r.0;
  }

  lemma ReadKindsStep(ks: seq<Kind>, i: nat, width: nat, s: seq<Byte>)
    requires IsWidth(width) && i < |ks|
    ensures var (v, t) := Get(ks[i], width, s);
            ReadKinds(ks[i..], width, s) == Onto([v], ReadKinds(ks[i + 1..], width, t))
  {
    assert ks[i..][1..] == ks[i + 1..];
  }

  lemma ReadNoKinds(width: nat, s: seq<Byte>)
    requires IsWidth(width)
    ensures ReadKinds([], width, s) == ([], s)
  {
  }

  lemma ReadPartsStep(n: nat, width: nat, s: seq<Byte>)
    requires IsWidth(width) && n > 0
    ensures var (len, t) := GetWord(s);
            var (v, u) := Get(if Signed(len) > 0 then KBytes else KStr, width, t);
            ReadParts(n, width, s) == Onto([IntV(len), v], ReadParts(n - 1, width, u))
  {
  }

  lemma ReadNoParts(width: nat, s: seq<Byte>)
    requires IsWidth(width)
    ensures ReadParts(0, width, s) == ([], s)
  {
  }

  lemma {:induction false} StrLenUnique(s: seq<Byte>, n: nat)
    requires n <= |s| && 0 !in s[..n] && (n < |s| ==> s[n] == 0)
    ensures StrLen(s) == n
  {
  }

  datatype Status = Taken | Unknown | Overfull

  /** What reading through the cursor has in common with reading off a sequence. */
  ghost predicate Same(a: ArgsResult, status: Status, vs: seq<Value>, before: seq<Byte>, after: seq<Byte>) {
    match a
    case Args(values, rest) => status == Taken && vs == values && after == rest
    case NotImplemented => status == Unknown && after == before
    case TooManyAttributes => status == Overfull
  }

  /** The statics of retrace.c, its handle tables and the reader of the trace. `renamed` are the
      handles passed on to EGL. */
  class Replayer {
    const reader: Reader
    const renaming: Renaming
    var player: Player
    var renamed: seq<Handle>

    ghost predicate Valid()
      reads this, renaming, renaming.maps, renaming.maps.mapSpace
    {
      && IsWidth(reader.wsize) && renaming.Valid()
      && renaming.past == player.stage.past && renamed == Renamed(player.stage.past)
    }

    constructor (exec: bool, world: World, width: nat, records: seq<Byte>)
      requires IsWidth(width)
      ensures Valid() && fresh(reader) && reader.wsize == width
      ensures fresh(renaming) && fresh(renaming.maps) && fresh(renaming.maps.mapSpace)
      ensures player == Player0(exec, world) && reader.Rest() == records
    {
      reader := new Reader(records, width);
      renaming := new Renaming();
      player := Player0(exec, world);
      renamed := [];
    }

    method ReadList() returns (status: Status, vs: seq<Value>)
      requires Valid()
      modifies reader
      ensures var r := ReadPairs(old(reader.Rest()), 0);
              if r.None? then status == Overfull else status == Taken && vs == r.value.0 && reader.Rest() == r.value.1
    {
      var list := reader.GetPairs();
      if list.None? {
        status, vs := Overfull, [];
      } else {
        status, vs := Taken, list.value;
      }
    }

    method ReadDraw() returns (vs: seq<Value>)
      requires Valid()
      modifies reader
      ensures Same(ReadDrawElements(player, reader.wsize, old(reader.Rest())), Taken, vs, old(reader.Rest()),
              reader.Rest())
    {
      hide ReadKinds, Get;
      vs := reader.GetAll([KInt, KInt, KInt]);
      var i := reader.GetValue(if player.elementBuffer != 0 then KPtr else KBytes);
      var blocks := reader.GetAll(if player.arrayBuffer != 0 then [] else EnabledKinds(player.attribs, 0));
      vs := vs + ([i] + blocks);
    }

    method ReadConfigs() returns (status: Status, vs: seq<Value>)
      requires Valid()
      modifies reader
      ensures Same(ReadChooseConfig(reader.wsize, old(reader.Rest())), status, vs, old(reader.Rest()), reader.Rest())
    {
      hide ReadKinds, ReadPairs;
      vs := reader.GetAll([KPtr]);
      var list;
      status, list := ReadList();
      if status == Taken {
        var ns := reader.GetAll([KInt, KInt]);
        assert KindOfValue(ns[0]) == KInt && KindOfValue(ns[1]) == KInt;
        var configs := reader.GetAll(Repeat(KPtr, ConfigCount(ns[1].w, ns[0].w)));
        var res := reader.GetAll([KInt]);
        vs := vs + (list + (ns + (configs + res)));
      }
    }

    method ReadCreation() returns (status: Status, vs: seq<Value>)
      requires Valid()
      modifies reader
      ensures Same(ReadEglCreate(reader.wsize, old(reader.Rest())), status, vs, old(reader.Rest()), reader.Rest())
    {
      hide ReadKinds, ReadPairs;
      vs := reader.GetAll([KPtr, KPtr, KPtr]);
      var list;
      status, list := ReadList();
      if status == Taken {
        var res := reader.GetAll([KPtr]);
        vs := vs + (list + res);
      }
    }

    method ReadUniform() returns (vs: seq<Value>)
      requires Valid()
      modifies reader
      ensures Same(ReadActiveUniform(reader.wsize, old(reader.Rest())), Taken, vs, old(reader.Rest()), reader.Rest())
    {
      hide ReadKinds;
      vs := reader.GetAll([KInt, KInt, KInt, KPtr, KPtr, KPtr, KPtr]);
      assert forall i :: 3 <= i < 7 ==> KindOfValue(vs[i]) == KPtr;
      var outputs := reader.GetAll(OutputKinds(vs[3].p, vs[4].p, vs[5].p, vs[6].p));
      vs := vs + outputs;
    }

    method ReadShaders() returns (vs: seq<Value>)
      requires Valid()
      modifies reader
      ensures Same(ReadAttachedShaders(player.exec, reader.wsize, old(reader.Rest())), Taken, vs, old(reader.Rest()),
              reader.Rest())
    {
      hide ReadKinds;
      vs := reader.GetAll([KInt, KInt, KPtr, KPtr]);
      assert KindOfValue(vs[2]) == KPtr && KindOfValue(vs[3]) == KPtr;
      var listed := vs[3].p != 0;
      if vs[2].p != 0 {
        var count := reader.GetInt();
        var shaders :=
          reader.GetAll(if player.exec && listed then Repeat(KInt, NonNegative(Signed(count))) else []);
        vs := vs + ([IntV(count)] + shaders);
      } else {
        assert vs + [] == vs;
      }
    }

    /** The cases with a record of variable shape. */
    method ReadVariable(op: Word) returns (status: Status, vs: seq<Value>)
      requires Valid()
      modifies reader
      ensures Same(ReadVariableArgs(player, op, reader.wsize, old(reader.Rest())), status, vs,
                   old(reader.Rest()), reader.Rest())
    {
      hide ReadKinds, ReadParts, ReadActiveUniform, ReadAttachedShaders, ReadDrawElements;
      hide ReadChooseConfig, ReadEglCreate;
      status, vs := Taken, [];
      if IsNamesOp(op) {
        var n := reader.GetInt();
        vs := reader.GetAll(Repeat(KInt, NonNegative(Signed(n))));
        vs := [IntV(n)] + vs;
      } else if op == OPC_glShaderSource {
        vs := reader.GetAll([KInt, KInt]);
        assert KindOfValue(vs[1]) == KInt;
        var parts := reader.GetParts(Signed(vs[1].w));
        vs := vs + parts;
      } else if op == OPC_glGetActiveUniform {
        vs := ReadUniform();
      } else if op == OPC_glGetAttachedShaders {
        vs := ReadShaders();
      } else if op == OPC_glDrawElements {
        vs := ReadDraw();
      } else if op == OPC_eglChooseConfig {
        status, vs := ReadConfigs();
      } else if op == OPC_eglCreateWindowSurface || op == OPC_eglCreateContext {
        status, vs := ReadCreation();
      } else if op == OPC_eglGetConfigAttrib {
        vs := reader.GetAll(player.stage.world.order + [KInt]);
      } else {
        status := Unknown;
      }
    }

    /** The switch of `process`, up to `getTime`. */
    method ReadArguments(op: Word) returns (status: Status, vs: seq<Value>)
      requires Valid()
      modifies reader
      ensures Same(ReadArgs(player, op, reader.wsize, old(reader.Rest())), status, vs,
                   old(reader.Rest()), reader.Rest())
    {
      hide ReadKinds, ReadVariableArgs, ReplayedShape;
      var shape := ReplayedShape(op);
      if shape.None? {
        status, vs := ReadVariable(op);
      } else {
        vs := reader.GetAll(shape.value);
        status := Taken;
      }
    }

    /** The opcode of the next record, with its thread prefix. */
    method ReadOpcode() returns (op: Word)
      requires Valid()
      modifies this`player, reader
      ensures Valid()
      ensures (player, op, reader.Rest()) == NextOp(old(player), reader.wsize, old(reader.Rest()))
    {
      op := reader.GetOpcode();
      if op == OPC_THREAD {
        var thread := reader.GetPointer();
        player := player.(thread := thread);
        op := reader.GetOpcode();
      }
    }

    /** Replaying a command: false is the end of the program. */
    method Execute(op: Word, vs: seq<Value>) returns (ok: bool)
      requires Valid() && (ReplayedShape(op).Some? ==> OfKinds(vs, ReplayedShape(op).value))
      modifies this`player, this`renamed, renaming, renaming.maps, renaming.maps.mapSpace
      ensures ok <==> Alive(old(player), op, vs)
      ensures ok ==> Valid() && player == Apply(old(player), op, vs)
    {
      hide Mirror, CommandEvents, FollowsNull, Answers, ReplayedShape, FitBehind, Renamed;
      var reply := Now(player.stage);
      if player.exec {
        if FollowsNull(op, vs) || !Answers(op, vs, reply) { return false; }
        var more;
        more, ok := renaming.Pass(CommandEvents(op, vs, reply.handle));
        if !ok { return; }
        renamed := renamed + more;
      }
      player := Apply(player, op, vs);
      ok := true;
      MirrorKeeps(old(player), op, vs);
    }

    /** The loop of `process`: a command per turn until the frames are done, the trace ends, the
        command cannot be read, or replaying it ends the program. */
    method Run(frames: int) returns (commands: seq<Command>, stop: Stop)
      requires Valid()
      modifies this`player, this`renamed, reader, renaming, renaming.maps, renaming.maps.mapSpace
      ensures var o := Process(frames, old(player), reader.wsize, old(reader.Rest()));
              && commands == o.commands && stop == o.stop
              && (stop != Exited ==> Valid() && player == o.player && reader.Rest() == o.rest)
    {
      hide NextOp, ReadArgs, GetLong, Apply, ReplayedShape, Alive, Renamed, Process;
      commands := [];
      var left := frames;
      while left != 0
        invariant Valid()
        invariant var o, more := Process(frames, old(player), reader.wsize, old(reader.Rest())),
                                 Process(left, player, reader.wsize, reader.Rest());
                  o == more.(commands := commands + more.commands)
        decreases |reader.Rest()|
      {
        OneTurn(left, player, reader.wsize, reader.Rest());
        var op := ReadOpcode();
        if op == OPC_NONE || op == OPC_EOF {
          return commands, EndOfTrace;
        }
        ghost var p := player;
        var status, values := ReadArguments(op);
        if status != Taken {
          return commands, if status == Unknown then Unimplemented else Exited;
        }
        var ok := Execute(op, values);
        if !ok {
          return commands, Exited;
        }
        var bgn := reader.GetLongLong();
        var end := reader.GetLongLong();
        var command := Command(player.thread, op, values, bgn, end);
        ThreadKept(p, op, values);
        ghost var next := Process(FramesAfter(left, op), player, reader.wsize, reader.Rest());
        assert commands + ([command] + next.commands) == (commands + [command]) + next.commands;
        commands := commands + [command];
        left := FramesAfter(left, op);
      }
      NoTurn(player, reader.wsize, reader.Rest());
      assert commands + [] == commands;
      stop := FramesDone;
    }
  }

  lemma MirrorKeeps(r: Player, op: Word, vs: seq<Value>)
    requires ReplayedShape(op).Some? ==> OfKinds(vs, ReplayedShape(op).value)
    ensures Mirror(r, op, vs).exec == r.exec
  {
  }

  lemma ThreadKept(r: Player, op: Word, vs: seq<Value>)
    requires ReplayedShape(op).Some? ==> OfKinds(vs, ReplayedShape(op).value)
    ensures Apply(r, op, vs).thread == r.thread
  {
  }
}
