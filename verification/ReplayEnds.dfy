/** Traces that decode to their end and that replay does not get through, whatever GL answers. */
module ReplayEnds {
  import opened Bytes
  import opened Fields
  import opened Calls
  import opened Replay
  import opened RoundTrip
  import opened Traces
  import opened HandleTrace
  import opened WholeTrace
  import opened HandleMap
  import opened HandleReplay

  function One(c: Call): seq<Item> {
    [Item(0, c, 0, 0)]
  }

  /** The trace of one call. */
  lemma OneCall(c: Call, world: World)
    requires Recordable(Recorder0(), c, 8)
    ensures TraceOk(Recorder0(), One(c), 8)
    ensures RecordedEvents(Stage0(world), Recorder0(), One(c), 8)
         == CallEvents(Recorder0(), c, world.reply(0).handle, 8)
  {
    hide Recordable, CallEvents, Record;
    var items := One(c);
    Pow256Values();
    assert items[1..] == [];
    RecordKeeps(Recorder0(), c);
    var es := CallEvents(Recorder0(), c, world.reply(0).handle, 8);
    assert es + [] == es;
  }

  lemma RecordKeeps(w: Recorder, c: Call)
    requires RecorderOk(w)
    ensures RecorderOk(Record(w, c))
  {
    if c.Plain? && RecordedShape(c.op) == Some(KindsOf(c.args)) {
      if c.op == OPC_glEnableVertexAttribArray || c.op == OPC_glDisableVertexAttribArray {
        Kinds1(c.args);
      } else if c.op == OPC_glVertexAttribPointer {
        Kinds6(c.args);
      }
    }
  }

  /** A buffer swap without a surface: the lookup follows a null map pointer. */
  lemma SwapWithoutSurface(world: World, exec: bool)
    ensures var items := One(Plain(OPC_eglSwapBuffers, [PtrF(1), PtrF(2), IntF(1)]));
            TraceOk(Recorder0(), items, 8) && AllSupported(items, exec) && !Replayable(world, items, 8)
  {
    var args := [PtrF(1), PtrF(2), IntF(1)];
    var c := Plain(OPC_eglSwapBuffers, args);
    Pow256Values();
    KindsAre(args, [KPtr, KPtr, KInt]);
    OneCall(c, world);
    var es := CallEvents(Recorder0(), c, world.reply(0).handle, 8);
    assert es[..0] == [] && es[0].Use?;
    assert !Fits(es[..0], es[0]);
  }

  /** glGetIntegerv with a null pointer. */
  lemma NullIntegers(pname: Word, world: World, exec: bool)
    ensures var items := One(Plain(OPC_glGetIntegerv, [IntF(pname), IntPtrF(None)]));
            TraceOk(Recorder0(), items, 8) && AllSupported(items, exec) && !Replayable(world, items, 8)
  {
    var args := [IntF(pname), IntPtrF(None)];
    KindsAre(args, [KInt, KIntPtr]);
    OneCall(Plain(OPC_glGetIntegerv, args), world);
    assert NullCall(One(Plain(OPC_glGetIntegerv, args))[0].call);
  }

  /** glGetActiveUniform without room for a name. */
  lemma NullName(program: Word, index: Word, world: World, exec: bool)
    ensures var items := One(ActiveUniform(program, index, 0, 0, 0, 0, 0, 0, 0, 0, []));
            TraceOk(Recorder0(), items, 8) && AllSupported(items, exec) && !Replayable(world, items, 8)
  {
    var c := ActiveUniform(program, index, 0, 0, 0, 0, 0, 0, 0, 0, []);
    Pow256Values();
    OneCall(c, world);
    assert NullCall(One(c)[0].call);
  }

  /** Generated names that are not the recorded ones. */
  lemma OtherNames(name: Word, world: World, exec: bool)
    requires !([name] <= world.reply(0).names)
    ensures var items := One(Names(149, 1, [name]));
            TraceOk(Recorder0(), items, 8) && AllSupported(items, exec) && !Replayable(world, items, 8)
  {
    var c := Names(149, 1, [name]);
    OneCall(c, world);
    assert !Answered(One(c)[0].call, world.reply(0 + 0));
  }

  /*  More surfaces than a table holds  */

  function Surface(handle: nat): Call
    requires handle < 0x1_0000_0000
  {
    EglCreate(OPC_eglCreateWindowSurface, 1, 1, 1, None, handle)
  }

  /** Surfaces with the handles first, first + 1, ... */
  function Surfaces(first: nat, n: nat): seq<Item>
    requires first + n <= 0x1_0000_0000
    decreases n
  {
    if n == 0 then [] else [Item(0, Surface(first), 0, 0)] + Surfaces(first + 1, n - 1)
  }

  /** Creations of surfaces with ascending handles. */
  predicate Ascending(es: seq<Event>, first: nat) {
    forall i :: 0 <= i < |es| ==>
      es[i].Create? && es[i].sort == HandleReplay.Surface && es[i].recorded == first + i
  }

  lemma {:induction false} SurfacesRecord(st: Stage, w: Recorder, first: nat, n: nat)
    requires 0 < first && first + n <= 0x8000_0000 && RecorderOk(w)
    ensures TraceOk(w, Surfaces(first, n), 8)
    ensures var es := RecordedEvents(st, w, Surfaces(first, n), 8); |es| == n && Ascending(es, first)
    decreases n
  {
    if n > 0 {
      Pow256Values();
      var items, c := Surfaces(first, n), Surface(first);
      assert items[1..] == Surfaces(first + 1, n - 1);
      SurfaceRecords(st, w, first);
      var es := CallEvents(w, c, Now(st).handle, 8);
      SurfacesRecord(NextStage(true, st, es), Record(w, c), first + 1, n - 1);
      hide CallEvents, Recordable, Record, Surface;
    }
  }

  lemma SurfaceRecords(st: Stage, w: Recorder, first: nat)
    requires 0 < first < 0x8000_0000 && RecorderOk(w)
    ensures Recordable(w, Surface(first), 8)
    ensures CallEvents(w, Surface(first), Now(st).handle, 8)
            == [Create(HandleReplay.Surface, first, Now(st).handle)]
  {
    Pow256Values();
  }

  lemma {:induction false} AscendingHandles(es: seq<Event>, first: nat, k: nat)
    requires Ascending(es, first) && 0 < first && k <= |es|
    ensures forall h :: h in Handles(Created(es[..k], HandleReplay.Surface)) <==> first <= h < first + k
    ensures |Handles(Created(es[..k], HandleReplay.Surface))| == k
    decreases k
  {
    if k > 0 {
      AscendingHandles(es, first, k - 1);
      assert es[..k] == es[..k - 1] + [es[k - 1]];
      var puts, e := Created(es[..k - 1], HandleReplay.Surface), es[k - 1];
      CreatedSnoc(es[..k - 1], e, HandleReplay.Surface);
      HandlesAppend(puts, (e.recorded, e.actual));
      OneMore(Handles(puts), e.recorded);
    }
  }

  /** With n different surfaces replay gets through exactly when n is at most 16. */
  lemma TooManySurfaces(n: nat, world: World, exec: bool)
    requires n < 0x7fff_ffff
    ensures var items := Surfaces(1, n);
            && TraceOk(Recorder0(), items, 8) && AllSupported(items, exec)
            && (Replayable(world, items, 8) <==> n <= MAXKEYS)
  {
    var items := Surfaces(1, n);
    SurfacesRecord(Stage0(world), Recorder0(), 1, n);
    SurfacesPlain(1, n, exec, world, 0);
    var es := RecordedEvents(Stage0(world), Recorder0(), items, 8);
    if n > MAXKEYS {
      AscendingHandles(es, 1, MAXKEYS);
      assert !Fits(es[..MAXKEYS], es[MAXKEYS]);
    } else {
      forall i | 0 <= i < |es|
        ensures Fits(es[..i], es[i])
      {
        AscendingHandles(es, 1, i);
      }
    }
  }

  lemma {:induction false} SurfacesAt(first: nat, n: nat, i: nat)
    requires first + n <= 0x1_0000_0000 && i < n
    ensures |Surfaces(first, n)| == n && Surfaces(first, n)[i] == Item(0, Surface(first + i), 0, 0)
    decreases n
  {
    if i > 0 {
      SurfacesAt(first + 1, n - 1, i - 1);
    } else if n > 1 {
      SurfacesAt(first + 1, n - 1, 0);
    }
  }

  lemma SurfacesPlain(first: nat, n: nat, exec: bool, world: World, turn: nat)
    requires first + n <= 0x1_0000_0000
    ensures var items := Surfaces(first, n);
            AllSupported(items, exec) && NoneNull(items) && AllAnswered(world, turn, items)
  {
    hide Supported, NullCall, Answered, Surfaces, Surface;
    var items := Surfaces(first, n);
    if n == 0 {
      NoSurfaces(first);
    } else {
      SurfacesAt(first, n, 0);
    }
    forall i | 0 <= i < |items|
      ensures Supported(items[i].call, exec) && !NullCall(items[i].call)
              && Answered(items[i].call, world.reply(turn + i))
    {
      SurfacesAt(first, n, i);
      SurfaceAlone(first + i, exec, world.reply(turn + i));
    }
  }

  lemma NoSurfaces(first: nat)
    requires first <= 0x1_0000_0000
    ensures Surfaces(first, 0) == []
  {
  }

  lemma SurfaceAlone(handle: nat, exec: bool, reply: Reply)
    requires handle < 0x1_0000_0000
    ensures var c := Surface(handle); Supported(c, exec) && !NullCall(c) && Answered(c, reply)
  {
  }
}
