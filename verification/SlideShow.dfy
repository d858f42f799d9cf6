/** FXSlideShow: three prefetch slots over a file list, driven by key presses on the user
    thread and by loading tasks that finish whenever they like. */
module SlideShow {
  import opened Bytes

  /*  Files.java  */

  /** A position in `count` files; -1 stands for no neighbour. */
  datatype Files = Files(count: nat, current: int, next: int, prev: int, loop: bool)

  function GetPrev(f: Files): int {
    if f.current - 1 < 0 then (if f.loop then f.count - 1 else -1) else f.current - 1
  }

  function GetNext(f: Files): int {
    if f.current + 1 >= f.count then (if f.loop then 0 else -1) else f.current + 1
  }

  function At(f: Files, current: int): Files {
    var g := f.(current := current);
    g.(next := GetNext(g), prev := GetPrev(g))
  }

  /** `next()`; None at the end of the list. */
  function Forward(f: Files): Option<Files> {
    if f.current + 1 < f.count then Some(At(f, f.current + 1))
    else if f.loop then Some(At(f, 0))
    else None
  }

  /** `previous()`. */
  function Back(f: Files): Option<Files> {
    if f.current > 0 then Some(At(f, f.current - 1))
    else if f.loop then Some(At(f, f.count - 1))
    else None
  }

  function SetLoop(f: Files, loop: bool): Files {
    At(f.(loop := loop), f.current)
  }

  predicate FilesOk(f: Files) {
    0 <= f.current < f.count && f.next == GetNext(f) && f.prev == GetPrev(f)
  }

  /** One step and one step back meet: the neighbour ahead is the next current file, and the
      file left behind is the neighbour on the other side. */
  lemma NeighboursMeet(f: Files)
    requires FilesOk(f)
    ensures Forward(f).Some? ==> FilesOk(Forward(f).value) && Forward(f).value.current == f.next
                                 && Forward(f).value.prev == f.current && Back(Forward(f).value) == Some(f)
    ensures Back(f).Some? ==> FilesOk(Back(f).value) && Back(f).value.current == f.prev
                              && Back(f).value.next == f.current && Forward(Back(f).value) == Some(f)
    ensures (Forward(f).Some? <==> f.next >= 0) && (Back(f).Some? <==> f.prev >= 0)
  {
  }

  /** The k-th file ahead, as far as the list goes. */
  function Ahead(f: Files, k: nat): Option<Files>
    decreases k
  {
    if k == 0 then Some(f)
    else
      var g := Ahead(f, k - 1);
      if g.None? then None else Forward(g.value)
  }

  /** Around a loop every file comes in its turn, and after `count` steps the list starts again (`m` is
      the number of rounds); otherwise it ends behind the last file. */
  lemma {:induction false} StepsAhead(f: Files, k: nat) returns (m: nat)
    requires FilesOk(f)
    ensures f.loop ==> Ahead(f, k).Some? && Ahead(f, k).value.current + m * f.count == f.current + k
    ensures !f.loop ==> (Ahead(f, k).Some? <==> f.current + k < f.count)
    ensures Ahead(f, k).Some? ==>
              && FilesOk(Ahead(f, k).value) && Ahead(f, k).value.loop == f.loop && Ahead(f, k).value.count == f.count
              && (!f.loop ==> Ahead(f, k).value.current == f.current + k)
    decreases k
  {
    m := 0;
    if k > 0 {
      m := StepsAhead(f, k - 1);
      if f.loop && Ahead(f, k - 1).value.current + 1 == f.count {
        assert (m + 1) * f.count == m * f.count + f.count;
        m := m + 1;
      }
    }
  }

  /*  Tasks: the future decided on the worker thread, the state shown on the user thread  */

  datatype Future = Pending | Finished(ok: bool) | Aborted
  datatype State = READY | RUNNING | SUCCEEDED | FAILED | CANCELLED
  datatype Task = Task(file: int, future: Future, state: State)

  function NewTask(file: int): Task {
    Task(file, Pending, READY)
  }

  /** `cancel()` has an effect only while the future is undecided. */
  function Cancel(t: Task): Task {
    if t.future == Pending then t.(future := Aborted, state := CANCELLED) else t
  }

  /** `if (isRunning()) cancel()`. */
  function Drop(t: Task): Task {
    if t.state == RUNNING then Cancel(t) else t
  }

  /*  The show  */

  const CURRENT := 0
  const NEXT := 1
  const PREV := 2

  /** `slots` are task numbers; `shown` is the file whose image is on screen. */
  datatype Show = Show(files: Files, savePrevious: bool, tasks: seq<Task>, slots: seq<Option<nat>>,
                       busy: bool, shown: Option<int>)

  datatype Event =
    | Key(forward: bool)
    | Started(task: nat)             // the RUNNING notice reaches the user thread
    | Decided(task: nat, ok: bool)   // the worker finishes
    | Notified(task: nat)            // the SUCCEEDED or FAILED notice reaches the user thread

  function Neighbour(f: Files, slot: nat): int {
    if slot == CURRENT then f.current else if slot == NEXT then f.next else f.prev
  }

  predicate SlotOk(s: Show, slot: nat)
    requires slot < |s.slots|
  {
    s.slots[slot].Some? ==>
      && s.slots[slot].value < |s.tasks|
      && var t := s.tasks[s.slots[slot].value];
         t.file >= 0 && t.file == Neighbour(s.files, slot) && t.state != CANCELLED
  }

  predicate TaskOk(t: Task) {
    && (t.state == CANCELLED <==> t.future == Aborted)
    && (t.state == SUCCEEDED || t.state == FAILED ==> t.future.Finished?)
  }

  /** The user thread has not yet heard that the task has finished. */
  predicate NoticeDue(t: Task) {
    t.future.Finished? && t.state != SUCCEEDED && t.state != FAILED
  }

  /** What the user may still be waiting for: the image is loading, or its notice is under way, or
      loading has failed. */
  predicate Awaited(t: Task) {
    t.future == Pending || NoticeDue(t) || t.future == Finished(false)
  }

  /** CURRENT holds the current file's task, NEXT and PREV are null or hold the neighbours'
      tasks, no slot holds a cancelled task, when the busy indicator is off the displayed image is
      the current file's, and when it is on there is something to wait for. */
  ghost predicate Inv(s: Show) {
    && FilesOk(s.files) && |s.slots| == 3
    && s.slots[CURRENT].Some? && SlotOk(s, CURRENT) && SlotOk(s, NEXT) && SlotOk(s, PREV)
    && (forall i, j :: 0 <= i < j < 3 && s.slots[i].Some? ==> s.slots[i] != s.slots[j])
    && (forall i :: 0 <= i < |s.tasks| ==> TaskOk(s.tasks[i]))
    && (!s.busy ==> s.shown == Some(s.files.current))
    && (s.busy ==> Awaited(s.tasks[s.slots[CURRENT].value]))
  }

  /** `start`: at least one file, both images queued, the indicator visible. */
  function Initial(count: nat, loop: bool, savePrevious: bool): Show
    requires count > 0
  {
    var f := SetLoop(Files(count, 0, 1, -1, false), loop);
    var tasks := [NewTask(f.current)] + if f.next >= 0 then [NewTask(f.next)] else [];
    Show(f, savePrevious, tasks, [Some(0), if f.next >= 0 then Some(1) else None, None], true, None)
  }

  lemma InitialInv(count: nat, loop: bool, savePrevious: bool)
    requires count > 0
    ensures Inv(Initial(count, loop, savePrevious))
    ensures var s := Initial(count, loop, savePrevious);
            && s.files.current == 0 && s.files.count == count && s.files.loop == loop && s.savePrevious == savePrevious
            && s.busy && s.shown == None && s.slots[PREV] == None
            && (s.slots[NEXT].Some? <==> loop || count > 1)
            && forall i :: 0 <= i < |s.tasks| ==> s.tasks[i].future == Pending && s.tasks[i].state == READY
  {
  }

  function DropSlot(tasks: seq<Task>, slot: Option<nat>): (r: seq<Task>)
    ensures |r| == |tasks|
  {
    if slot.Some? && slot.value < |tasks| then tasks[slot.value := Drop(tasks[slot.value])] else tasks
  }

  /** What `nextImage` does to the slots once the list has moved. `ahead` is the slot in the
      direction of travel, `behind` the other one. */
  function Shift(s: Show, files: Files, ahead: nat, behind: nat): Show
    requires |s.slots| == 3 && ahead < 3 && behind < 3
  {
    var tasks := DropSlot(s.tasks, s.slots[behind]);
    var tasks1 := if s.savePrevious then tasks else DropSlot(tasks, s.slots[CURRENT]);
    var slots := s.slots[behind := if s.savePrevious then s.slots[CURRENT] else None];
    s.(files := files, tasks := tasks1, slots := slots[CURRENT := s.slots[ahead]][ahead := None])
  }

  /** Show the current task, or start loading it, or wait for it. */
  function Present(s: Show): Show
    requires |s.slots| == 3
  {
    if s.slots[CURRENT].None? then
      s.(tasks := s.tasks + [NewTask(s.files.current)], slots := s.slots[CURRENT := Some(|s.tasks|)], busy := true)
    else if s.slots[CURRENT].value < |s.tasks| && s.tasks[s.slots[CURRENT].value].future != Pending then
      s.(busy := false, shown := Some(s.tasks[s.slots[CURRENT].value].file))
    else s.(busy := true)
  }

  function Prefetch(s: Show, slot: nat): Show
    requires |s.slots| == 3 && slot < 3
  {
    var file := Neighbour(s.files, slot);
    if file < 0 then s
    else s.(tasks := s.tasks + [NewTask(file)], slots := s.slots[slot := Some(|s.tasks|)])
  }

  function NextImage(s: Show, forward: bool): Show
    requires |s.slots| == 3
  {
    var moved := if forward then Forward(s.files) else Back(s.files);
    if moved.None? then s
    else
      var (ahead, behind) := if forward then (NEXT, PREV) else (PREV, NEXT);
      Prefetch(Present(Shift(s, moved.value, ahead, behind)), ahead)
  }

  /** The user-thread notice of a finished task: `succeeded()` shows it when it is current. */
  function Notify(s: Show, id: nat): Show
    requires |s.slots| == 3 && id < |s.tasks| && s.tasks[id].future.Finished?
  {
    var t := s.tasks[id];
    var s1 := s.(tasks := s.tasks[id := t.(state := if t.future.ok then SUCCEEDED else FAILED)]);
    if t.future.ok && s.slots[CURRENT] == Some(id) then s1.(busy := false, shown := Some(t.file)) else s1
  }

  predicate Enabled(s: Show, e: Event) {
    match e
    case Key(_) => true
    case Started(id) => id < |s.tasks|
    case Decided(id, _) => id < |s.tasks| && s.tasks[id].future == Pending
    case Notified(id) => id < |s.tasks| && NoticeDue(s.tasks[id])
  }

  function Step(s: Show, e: Event): Show
    requires |s.slots| == 3 && Enabled(s, e)
  {
    match e
    case Key(forward) => NextImage(s, forward)
    case Started(id) =>
      if s.tasks[id].state != READY then s else s.(tasks := s.tasks[id := s.tasks[id].(state := RUNNING)])
    case Decided(id, ok) => s.(tasks := s.tasks[id := s.tasks[id].(future := Finished(ok))])
    case Notified(id) => Notify(s, id)
  }

  /** The slots after a move, before the current one is filled and shown. */
  ghost predicate SlotsOk(s: Show) {
    && FilesOk(s.files) && |s.slots| == 3
    && SlotOk(s, CURRENT) && SlotOk(s, NEXT) && SlotOk(s, PREV)
    && (forall i, j :: 0 <= i < j < 3 && s.slots[i].Some? ==> s.slots[i] != s.slots[j])
    && (forall i :: 0 <= i < |s.tasks| ==> TaskOk(s.tasks[i]))
  }

  lemma ShiftKeeps(s: Show, files: Files, ahead: nat, behind: nat)
    requires Inv(s) && FilesOk(files) && ahead in {NEXT, PREV} && behind in {NEXT, PREV} && ahead != behind
    requires files.current == Neighbour(s.files, ahead) && Neighbour(files, behind) == s.files.current
    ensures SlotsOk(Shift(s, files, ahead, behind)) && Shift(s, files, ahead, behind).slots[ahead] == None
  {
  }

  lemma PresentKeeps(s: Show)
    requires SlotsOk(s)
    ensures Inv(Present(s)) && forall i :: 0 < i < 3 ==> Present(s).slots[i] == s.slots[i]
  {
  }

  lemma PrefetchKeeps(s: Show, slot: nat)
    requires Inv(s) && slot in {NEXT, PREV}
    ensures Inv(Prefetch(s, slot))
  {
  }

  lemma KeyKeeps(s: Show, forward: bool)
    requires Inv(s)
    ensures Inv(NextImage(s, forward))
  {
    NeighboursMeet(s.files);
    var moved := if forward then Forward(s.files) else Back(s.files);
    if moved.Some? {
      var (ahead, behind) := if forward then (NEXT, PREV) else (PREV, NEXT);
      hide Shift, Present, Prefetch;
      var t := Shift(s, moved.value, ahead, behind);
      ShiftKeeps(s, moved.value, ahead, behind);
      PresentKeeps(t);
      PrefetchKeeps(Present(t), ahead);
    }
  }

  lemma NoticeKeeps(s: Show, id: nat, t: Task)
    requires Inv(s) && id < |s.tasks| && TaskOk(t) && t.file == s.tasks[id].file
    requires t.state == CANCELLED ==> s.tasks[id].state == CANCELLED
    requires s.busy && s.slots[CURRENT] == Some(id) ==> Awaited(t)
    ensures Inv(s.(tasks := s.tasks[id := t]))
  {
  }

  lemma StepKeeps(s: Show, e: Event)
    requires Inv(s) && Enabled(s, e)
    ensures Inv(Step(s, e))
  {
    match e
    case Key(forward) => KeyKeeps(s, forward);
    case Started(id) => NoticeKeeps(s, id,
        s.tasks[id].(state := if s.tasks[id].state == READY then RUNNING else s.tasks[id].state));
    case Decided(id, ok) => NoticeKeeps(s, id, s.tasks[id].(future := Finished(ok)));
    case Notified(id) => NotifiedKeeps(s, id);
  }

  lemma NotifiedKeeps(s: Show, id: nat)
    requires Inv(s) && Enabled(s, Notified(id))
    ensures Inv(Notify(s, id))
  {
    var t := s.tasks[id];
    var s1 := s.(busy := if t.future.ok && s.slots[CURRENT] == Some(id) then false else s.busy,
                 shown := if t.future.ok && s.slots[CURRENT] == Some(id) then Some(t.file) else s.shown);
    NoticeKeeps(s1, id, t.(state := if t.future.ok then SUCCEEDED else FAILED));
  }

  predicate RunOk(s: Show, es: seq<Event>)
    decreases |es|
  {
    |s.slots| == 3 && (es == [] || (Enabled(s, es[0]) && RunOk(Step(s, es[0]), es[1..])))
  }

  function RunOf(s: Show, es: seq<Event>): Show
    requires RunOk(s, es)
    decreases |es|
  {
    if es == [] then s else RunOf(Step(s, es[0]), es[1..])
  }

  /** In every run from start-up, whatever the keys and however the loads interleave. */
  lemma EveryRunShowsCurrent(count: nat, loop: bool, savePrevious: bool, es: seq<Event>)
    requires count > 0 && RunOk(Initial(count, loop, savePrevious), es)
    ensures Inv(RunOf(Initial(count, loop, savePrevious), es))
  {
    InitialInv(count, loop, savePrevious);
    RunKeeps(Initial(count, loop, savePrevious), es);
  }

  lemma {:induction false} RunKeeps(s: Show, es: seq<Event>)
    requires Inv(s) && RunOk(s, es)
    ensures Inv(RunOf(s, es))
    decreases |es|
  {
    if es != [] {
      StepKeeps(s, es[0]);
      RunKeeps(Step(s, es[0]), es[1..]);
    }
  }

  /** Once the task in CURRENT has its image and the user thread has heard of it, the picture is
      up: the indicator goes off and the current file is shown. */
  lemma NoticeShowsCurrent(s: Show)
    requires Inv(s) && s.tasks[s.slots[CURRENT].value].future == Finished(true)
    requires NoticeDue(s.tasks[s.slots[CURRENT].value])
    ensures var t := Step(s, Notified(s.slots[CURRENT].value));
            !t.busy && t.shown == Some(s.files.current)
  {
  }

  /** A task just made for a file. */
  predicate IsNew(t: Task, file: int) {
    t.file == file && t.future == Pending && t.state == READY
  }

  /** Tasks of the slots that are given up are cancelled if they are running; all others stay. */
  predicate Released(before: Task, after: Task, given: bool) {
    if given && before.state == RUNNING && before.future == Pending
    then after.file == before.file && after.future == Aborted && after.state == CANCELLED
    else after == before
  }

  /** What a key press that moves does, slot by slot. `a` is the slot in the direction of travel, `b`
      the other one. */
  ghost predicate Moves(s: Show, t: Show, a: nat, b: nat)
    requires |s.slots| == 3 && |t.slots| == 3 && a < 3 && b < 3
  {
    && |s.tasks| <= |t.tasks| && t.savePrevious == s.savePrevious
    && (forall i :: 0 <= i < |s.tasks| ==>
          Released(s.tasks[i], t.tasks[i], s.slots[b] == Some(i) || (!s.savePrevious && s.slots[0] == Some(i))))
    && t.slots[b] == (if s.savePrevious then s.slots[0] else None)
    && t.slots[0].Some? && t.slots[0].value < |t.tasks|
    && (if s.slots[a].Some? then t.slots[0] == s.slots[a]
        else t.slots[0].value >= |s.tasks| && IsNew(t.tasks[t.slots[0].value], t.files.current))
    && (t.slots[a].Some? <==> Neighbour(t.files, a) >= 0)
    && (t.slots[a].Some? ==>
          t.slots[a].value < |t.tasks| && t.slots[a].value >= |s.tasks|
          && IsNew(t.tasks[t.slots[a].value], Neighbour(t.files, a)))
  }

  /** A key press moves to the neighbour, if there is one. It takes over the image prefetched for it,
      gives up what is out of reach, and prefetches the one after it. An image that is loaded is on
      screen at once, without the indicator; otherwise the indicator is on. */
  lemma KeyMoves(s: Show, forward: bool)
    requires Inv(s)
    ensures var (a, b) := if forward then (1, 2) else (2, 1);
            var t := Step(s, Key(forward));
            if (if forward then s.files.next else s.files.prev) < 0 then t == s
            else
              && |t.slots| == 3 && t.files.current == (if forward then s.files.next else s.files.prev)
              && Moves(s, t, a, b)
              && (t.busy <==> s.slots[a].None? || s.tasks[s.slots[a].value].future == Pending)
              && (!t.busy ==> t.shown == Some(t.files.current)) && (t.busy ==> t.shown == s.shown)
  {
    NeighboursMeet(s.files);
    KeyKeeps(s, forward);
    var moved := if forward then Forward(s.files) else Back(s.files);
    if moved.Some? {
      var (a, b) := if forward then (NEXT, PREV) else (PREV, NEXT);
      ShiftMoves(s, moved.value, a, b);
    }
  }

  lemma ShiftMoves(s: Show, files: Files, a: nat, b: nat)
    requires Inv(s) && FilesOk(files) && a in {NEXT, PREV} && b in {NEXT, PREV} && a != b
    requires files.current == Neighbour(s.files, a) && Neighbour(files, b) == s.files.current
    ensures var t := Prefetch(Present(Shift(s, files, a, b)), a);
            && |t.slots| == 3 && t.files == files && Moves(s, t, a, b)
            && (t.busy <==> s.slots[a].None? || s.tasks[s.slots[a].value].future == Pending)
            && (t.busy ==> t.shown == s.shown)
  {
    var u := Shift(s, files, a, b);
    ShiftParts(s, files, a, b);
    PresentParts(u);
    PrefetchParts(Present(u), a);
    PartsMove(s, u, Present(u), Prefetch(Present(u), a), a, b);
    hide Shift, Present, Prefetch, Moves, Shifted, Presented, Prefetched;
  }

  ghost predicate Shifted(s: Show, u: Show, a: nat, b: nat)
    requires |s.slots| == 3 && a < 3 && b < 3
  {
    && |u.slots| == 3 && |u.tasks| == |s.tasks| && u.savePrevious == s.savePrevious && u.shown == s.shown
    && u.slots[0] == s.slots[a] && u.slots[a] == None
    && u.slots[b] == (if s.savePrevious then s.slots[0] else None)
    && (s.slots[a].Some? ==>
          s.slots[a].value < |s.tasks| && u.tasks[s.slots[a].value] == s.tasks[s.slots[a].value])
    && forall i :: 0 <= i < |s.tasks| ==>
         Released(s.tasks[i], u.tasks[i], s.slots[b] == Some(i) || (!s.savePrevious && s.slots[0] == Some(i)))
  }

  lemma ShiftParts(s: Show, files: Files, a: nat, b: nat)
    requires Inv(s) && a in {NEXT, PREV} && b in {NEXT, PREV} && a != b
    ensures Shifted(s, Shift(s, files, a, b), a, b) && Shift(s, files, a, b).files == files
  {
  }

  ghost predicate Presented(u: Show, v: Show)
    requires |u.slots| == 3
  {
    && |v.slots| == 3 && v.slots[1] == u.slots[1] && v.slots[2] == u.slots[2]
    && v.files == u.files && v.savePrevious == u.savePrevious
    && |u.tasks| <= |v.tasks| && (forall i :: 0 <= i < |u.tasks| ==> v.tasks[i] == u.tasks[i])
    && (if u.slots[0].Some? then v.slots[0] == u.slots[0] && u.slots[0].value < |u.tasks|
        else v.slots[0] == Some(|u.tasks|) && |v.tasks| == |u.tasks| + 1
             && IsNew(v.tasks[|u.tasks|], u.files.current))
    && (v.busy <==> u.slots[0].None? || u.tasks[u.slots[0].value].future == Pending)
    && (v.busy ==> v.shown == u.shown)
  }

  lemma PresentParts(u: Show)
    requires |u.slots| == 3 && (u.slots[0].Some? ==> u.slots[0].value < |u.tasks|)
    ensures Presented(u, Present(u))
  {
  }

  ghost predicate Prefetched(v: Show, t: Show, a: nat)
    requires |v.slots| == 3 && a < 3
  {
    && |t.slots| == 3 && (forall i :: 0 <= i < 3 && i != a ==> t.slots[i] == v.slots[i])
    && t.files == v.files && t.savePrevious == v.savePrevious && t.busy == v.busy && t.shown == v.shown
    && |v.tasks| <= |t.tasks| && (forall i :: 0 <= i < |v.tasks| ==> t.tasks[i] == v.tasks[i])
    && (t.slots[a].Some? <==> Neighbour(v.files, a) >= 0)
    && (t.slots[a].Some? ==>
          t.slots[a] == Some(|v.tasks|) && |t.tasks| == |v.tasks| + 1
          && IsNew(t.tasks[|v.tasks|], Neighbour(v.files, a)))
  }

  lemma PrefetchParts(v: Show, a: nat)
    requires |v.slots| == 3 && 0 < a < 3 && v.slots[a] == None
    ensures Prefetched(v, Prefetch(v, a), a)
  {
  }

  lemma {:induction false} PartsMove(s: Show, u: Show, v: Show, t: Show, a: nat, b: nat)
    requires |s.slots| == 3 && 0 < a < 3 && 0 < b < 3 && a != b
    requires Shifted(s, u, a, b) && Presented(u, v) && Prefetched(v, t, a)
    ensures Moves(s, t, a, b) && t.files == u.files
    ensures t.busy <==> s.slots[a].None? || s.tasks[s.slots[a].value].future == Pending
    ensures t.busy ==> t.shown == s.shown
  {
    hide Released, IsNew, Neighbour;
  }

  /** Notices change no slot, so what was prefetched in the direction of travel stays. They change one
      task, and the screen only when it is the current one that has succeeded. */
  lemma NoticesKeepSlots(s: Show, e: Event)
    requires |s.slots| == 3 && Enabled(s, e) && !e.Key?
    ensures var t := Step(s, e);
            && t.slots == s.slots && t.files == s.files && |t.tasks| == |s.tasks|
            && (forall i :: 0 <= i < |s.tasks| && i != e.task ==> t.tasks[i] == s.tasks[i])
            && t.tasks[e.task].file == s.tasks[e.task].file
            && (e.Decided? ==>
                  t.tasks[e.task].future == Finished(e.ok) && t.tasks[e.task].state == s.tasks[e.task].state)
            && (!e.Decided? ==> t.tasks[e.task].future == s.tasks[e.task].future)
            && (e.Started? && s.tasks[e.task].state == READY ==> t.tasks[e.task].state == RUNNING)
            && (e.Started? && s.tasks[e.task].state != READY ==> t == s)
            && (e.Notified? ==>
                  t.tasks[e.task].state == if s.tasks[e.task].future == Finished(true) then SUCCEEDED else FAILED)
            && ((t.busy == s.busy && t.shown == s.shown)
                || (e.Notified? && s.slots[0] == Some(e.task) && s.tasks[e.task].future == Finished(true)))
  {
  }

  /** The fields of the application. */
  class Application {
    var files: Files
    const savePrevious: bool
    var tasks: seq<Task>
    var image: seq<Option<nat>>
    var busy: bool
    var shown: Option<int>

    ghost function View(): Show
      reads this
    {
      Show(files, savePrevious, tasks, image, busy, shown)
    }

    constructor (count: nat, loop: bool, savePrevious: bool)
      requires count > 0
      ensures View() == Initial(count, loop, savePrevious) && Inv(View())
    {
      files := SetLoop(Files(count, 0, 1, -1, false), loop);
      this.savePrevious := savePrevious;
      tasks, image, busy, shown := [], [None, None, None], true, None;
      new;
      InitialInv(count, loop, savePrevious);
      tasks, image := tasks + [NewTask(files.current)], image[CURRENT := Some(0)];
      if files.next >= 0 {
        tasks, image := tasks + [NewTask(files.next)], image[NEXT := Some(1)];
      }
    }

    method CancelIfRunning(slot: nat)
      requires slot < |image|
      modifies this`tasks
      ensures tasks == DropSlot(old(tasks), image[slot])
    {
      if image[slot].Some? && image[slot].value < |tasks| {
        var id := image[slot].value;
        if tasks[id].state == RUNNING && tasks[id].future == Pending {
          tasks := tasks[id := tasks[id].(future := Aborted, state := CANCELLED)];
        }
      }
    }

    /** A press of an arrow key. */
    method Advance(forward: bool)
      requires Inv(View())
      modifies this
      ensures View() == NextImage(old(View()), forward) && Inv(View())
    {
      KeyKeeps(View(), forward);
      NeighboursMeet(files);
      var moved := if forward then Forward(files) else Back(files);
      if moved.None? { return; }
      var ahead, behind := NEXT, PREV;
      if !forward { ahead, behind := PREV, NEXT; }
      ShiftKeeps(View(), moved.value, ahead, behind);
      Turn(moved.value, ahead, behind);
      Load(ahead);
    }

    /** The first half of `nextImage`: the slots move one place. */
    method Turn(moved: Files, ahead: nat, behind: nat)
      requires |image| == 3 && ahead in {NEXT, PREV} && behind in {NEXT, PREV} && ahead != behind
      modifies this
      ensures View() == Shift(old(View()), moved, ahead, behind)
    {
      files := moved;
      CancelIfRunning(behind);
      image := image[behind := None];
      if savePrevious {
        image := image[behind := image[CURRENT]];
      } else {
        CancelIfRunning(CURRENT);
      }
      image := image[CURRENT := image[ahead]];
      image := image[ahead := None];
    }

    /** The second half of `nextImage`: show or load the current image, prefetch the next. */
    method Load(ahead: nat)
      requires |image| == 3 && 0 < ahead < 3
      requires image[CURRENT].Some? ==> image[CURRENT].value < |tasks|
      modifies this
      ensures View() == Prefetch(Present(old(View())), ahead)
    {
      if image[CURRENT].None? {
        tasks, image := tasks + [NewTask(files.current)], image[CURRENT := Some(|tasks|)];
        busy := true;
      } else if tasks[image[CURRENT].value].future != Pending {
        busy, shown := false, Some(tasks[image[CURRENT].value].file);
      } else {
        busy := true;
      }
      var path := if ahead == NEXT then files.next else files.prev;
      if path >= 0 {
        tasks, image := tasks + [NewTask(path)], image[ahead := Some(|tasks|)];
      }
    }

    /** The callbacks of a task that has finished. */
    method Finished(id: nat)
      requires Inv(View()) && id < |tasks| && NoticeDue(tasks[id])
      modifies this
      ensures View() == Notify(old(View()), id) && Inv(View())
    {
      StepKeeps(View(), Notified(id));
      var t := tasks[id];
      tasks := tasks[id := t.(state := if t.future.ok then SUCCEEDED else FAILED)];
      if t.future.ok && image[CURRENT] == Some(id) {
        busy, shown := false, Some(t.file);
      }
    }
  }
}
