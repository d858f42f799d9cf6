/** How retrace.c renames EGL handles while it replays: one table for surfaces and one for
    contexts, each made when the first object of its kind is created. */
module HandleReplay {
  import opened Bytes
  import opened HandleMap

  datatype Sort = Surface | Context

  datatype Event =
    | Create(sort: Sort, recorded: Handle, actual: Handle)
    | Use(sort: Sort, recorded: Handle)

  /** The creations of a kind, without those that were recorded as failed. */
  function Created(es: seq<Event>, sort: Sort): seq<(Handle, Handle)> {
    if es == [] then []
    else
      var e := es[|es| - 1];
      Created(es[..|es| - 1], sort)
      + if e.Create? && e.sort == sort && e.recorded != 0 then [(e.recorded, e.actual)] else []
  }

  /** What each use should become: the object created last under that handle. */
  function Renamed(es: seq<Event>): seq<Handle> {
    if es == [] then []
    else
      var (before, e) := (es[..|es| - 1], es[|es| - 1]);
      Renamed(before) + if e.Use? then [Latest(Created(before, e.sort), e.recorded)] else []
  }

  predicate HasTable(es: seq<Event>, sort: Sort) {
    exists i :: 0 <= i < |es| && es[i].Create? && es[i].sort == sort
  }

  /** The event can be replayed behind `es`: a use needs a table, a creation a slot (even one
      recorded as failed takes a look at a free slot). */
  ghost predicate Fits(es: seq<Event>, e: Event) {
    match e
    case Use(sort, _) => HasTable(es, sort)
    case Create(sort, recorded, _) =>
      recorded in Handles(Created(es, sort)) || |Handles(Created(es, sort))| < MAXKEYS
  }

  ghost predicate AllFit(es: seq<Event>) {
    forall i :: 0 <= i < |es| ==> Fits(es[..i], es[i])
  }

  /** Behind `past`, each of the events fits in its turn. */
  ghost predicate FitBehind(past: seq<Event>, es: seq<Event>)
    decreases |es|
  {
    es == [] || (Fits(past, es[0]) && FitBehind(past + [es[0]], es[1..]))
  }

  lemma {:induction false} FitsInParts(past: seq<Event>, es: seq<Event>)
    requires AllFit(past)
    ensures AllFit(past + es) <==> FitBehind(past, es)
    decreases |es|
  {
    if es == [] {
      assert past + es == past;
    } else {
      var next := past + [es[0]];
      assert past + es == next + es[1..];
      FitsNext(past, es[0]);
      if Fits(past, es[0]) {
        FitsInParts(next, es[1..]);
      } else {
        FitsPrefix(next, es[1..]);
      }
    }
  }

  lemma FitsNext(past: seq<Event>, e: Event)
    requires AllFit(past)
    ensures AllFit(past + [e]) <==> Fits(past, e)
  {
    var all := past + [e];
    assert all[..|past|] == past && all[|past|] == e;
    forall i | 0 <= i < |past|
      ensures Fits(all[..i], all[i])
    {
      assert all[..i] == past[..i] && Fits(past[..i], past[i]);
    }
  }

  lemma FitsPrefix(past: seq<Event>, es: seq<Event>)
    requires !AllFit(past)
    ensures !AllFit(past + es)
  {
    var i :| 0 <= i < |past| && !Fits(past[..i], past[i]);
    assert (past + es)[..i] == past[..i] && (past + es)[i] == past[i];
  }

  lemma CreatedSnoc(es: seq<Event>, e: Event, sort: Sort)
    ensures Created(es + [e], sort)
         == Created(es, sort) + if e.Create? && e.sort == sort && e.recorded != 0 then [(e.recorded, e.actual)] else []
  {
    assert (es + [e])[..|es|] == es;
  }

  lemma RenamedSnoc(es: seq<Event>, e: Event)
    ensures Renamed(es + [e])
         == Renamed(es) + if e.Use? then [Latest(Created(es, e.sort), e.recorded)] else []
  {
    assert (es + [e])[..|es|] == es;
  }

  lemma HasTableSnoc(es: seq<Event>, e: Event, sort: Sort)
    ensures HasTable(es + [e], sort) <==> HasTable(es, sort) || (e.Create? && e.sort == sort)
  {
    var all := es + [e];
    if HasTable(es, sort) {
      var i :| 0 <= i < |es| && es[i].Create? && es[i].sort == sort;
      assert all[i] == es[i];
    }
    assert all[|es|] == e;
  }

  lemma {:induction false} NullNeverCreated(es: seq<Event>, sort: Sort)
    ensures 0 !in Handles(Created(es, sort))
    decreases |es|
  {
    if es != [] {
      NullNeverCreated(es[..|es| - 1], sort);
    }
  }

  lemma {:induction false} CreatedGrows(es: seq<Event>, i: nat, sort: Sort)
    requires i <= |es|
    ensures Handles(Created(es[..i], sort)) <= Handles(Created(es, sort))
    decreases |es|
  {
    if i == |es| {
      assert es[..i] == es;
    } else {
      var n := |es| - 1;
      CreatedGrows(es[..n], i, sort);
      assert es[..n][..i] == es[..i] && es == es[..n] + [es[n]];
      CreatedSnoc(es[..n], es[n], sort);
    }
  }

  predicate Creates(e: Event, sort: Sort, handle: Handle) {
    e.Create? && e.sort == sort && e.recorded == handle != 0
  }

  /** `v` is what the last creation under the handle returned, or null when there is none. */
  ghost predicate IsLatest(es: seq<Event>, sort: Sort, handle: Handle, v: Handle) {
    || (v == 0 && forall k :: 0 <= k < |es| ==> !Creates(es[k], sort, handle))
    || (exists j :: 0 <= j < |es| && Creates(es[j], sort, handle) && es[j].actual == v
                    && forall k :: j < k < |es| ==> !Creates(es[k], sort, handle))
  }

  lemma {:induction false} LatestOf(es: seq<Event>, sort: Sort, handle: Handle)
    ensures IsLatest(es, sort, handle, Latest(Created(es, sort), handle))
  {
    if es != [] {
      var n := |es| - 1;
      var e, puts := es[n], Created(es[..n], sort);
      var v := Latest(puts, handle);
      LatestOf(es[..n], sort, handle);
      if Creates(e, sort, handle) {
        assert Latest(Created(es, sort), handle) == e.actual;
      } else {
        assert Latest(Created(es, sort), handle) == v by {
          if e.Create? && e.sort == sort && e.recorded != 0 {
            assert (puts + [(e.recorded, e.actual)])[..|puts|] == puts;
          } else {
            assert puts + [] == puts;
          }
        }
        LatestStays(es, sort, handle, v);
      }
    }
  }

  lemma {:induction false} LatestStays(es: seq<Event>, sort: Sort, handle: Handle, v: Handle)
    requires es != [] && !Creates(es[|es| - 1], sort, handle) && IsLatest(es[..|es| - 1], sort, handle, v)
    ensures IsLatest(es, sort, handle, v)
  {
    var n := |es| - 1;
    assert forall k :: 0 <= k < n ==> es[..n][k] == es[k];
    hide Creates;
    if exists j :: 0 <= j < n && Creates(es[..n][j], sort, handle) && es[..n][j].actual == v
                   && forall k :: j < k < n ==> !Creates(es[..n][k], sort, handle) {
      var j :| 0 <= j < n && Creates(es[..n][j], sort, handle) && es[..n][j].actual == v
               && forall k :: j < k < n ==> !Creates(es[..n][k], sort, handle);
      assert Creates(es[j], sort, handle) && es[j].actual == v;
      assert forall k :: j < k < |es| ==> !Creates(es[k], sort, handle);
    }
  }

  /** How many events look a handle up. */
  function Uses(es: seq<Event>): nat {
    if es == [] then 0 else Uses(es[..|es| - 1]) + if es[|es| - 1].Use? then 1 else 0
  }

  /** Every use, in its turn, becomes the object created last under its handle before it. */
  lemma {:induction false} RenamedAt(es: seq<Event>, i: nat)
    requires i < |es| && es[i].Use?
    ensures Uses(es[..i]) < |Renamed(es)| == Uses(es)
    ensures IsLatest(es[..i], es[i].sort, es[i].recorded, Renamed(es)[Uses(es[..i])])
  {
    var n := |es| - 1;
    RenamedLength(es[..n]);
    if i < n {
      RenamedAt(es[..n], i);
      assert es[..n][..i] == es[..i];
    } else {
      LatestOf(es[..n], es[n].sort, es[n].recorded);
    }
  }

  lemma {:induction false} RenamedLength(es: seq<Event>)
    ensures |Renamed(es)| == Uses(es)
  {
    if es != [] {
      RenamedLength(es[..|es| - 1]);
    }
  }

  /** Creations that were recorded as failed come while their table has a free slot. */
  ghost predicate FailuresHaveRoom(es: seq<Event>) {
    forall i :: 0 <= i < |es| && es[i].Create? && es[i].recorded == 0 ==>
      |Handles(Created(es[..i], es[i].sort))| < MAXKEYS
  }

  ghost predicate UsesHaveTables(es: seq<Event>) {
    forall i :: 0 <= i < |es| && es[i].Use? ==> HasTable(es[..i], es[i].sort)
  }

  ghost predicate FewHandles(es: seq<Event>) {
    forall sort: Sort :: |Handles(Created(es, sort))| <= MAXKEYS
  }

  /** A trace fits exactly when no use comes before the first creation of its kind, at most 16
      different handles of each kind were recorded, and no failed creation comes when 16 are there. */
  lemma FitsWhenFew(es: seq<Event>)
    ensures AllFit(es) <==> UsesHaveTables(es) && FewHandles(es) && FailuresHaveRoom(es)
  {
    if UsesHaveTables(es) && FewHandles(es) && FailuresHaveRoom(es) {
      forall i | 0 <= i < |es|
        ensures Fits(es[..i], es[i])
      {
        if es[i].Create? {
          CreateFits(es, i);
        }
      }
    }
    if AllFit(es) {
      forall sort: Sort ensures |Handles(Created(es, sort))| <= MAXKEYS {
        FitIsFew(es, |es|, sort);
        assert es[..|es|] == es;
      }
      forall i | 0 <= i < |es| && es[i].Create? && es[i].recorded == 0
        ensures |Handles(Created(es[..i], es[i].sort))| < MAXKEYS
      {
        assert Fits(es[..i], es[i]);
        NullNeverCreated(es[..i], es[i].sort);
      }
    }
  }

  lemma CreateFits(es: seq<Event>, i: nat)
    requires FailuresHaveRoom(es) && FewHandles(es) && i < |es| && es[i].Create?
    ensures Fits(es[..i], es[i])
  {
    var e := es[i];
    if e.recorded == 0 {
      return;
    }
    CreatedGrows(es, i + 1, e.sort);
    assert es[..i + 1] == es[..i] + [e];
    CreatedSnoc(es[..i], e, e.sort);
    HandlesAppend(Created(es[..i], e.sort), (e.recorded, e.actual));
    OneMore(Handles(Created(es[..i], e.sort)), e.recorded);
    SubsetSize(Handles(Created(es[..i + 1], e.sort)), Handles(Created(es, e.sort)));
  }

  lemma {:induction false} FitIsFew(es: seq<Event>, i: nat, sort: Sort)
    requires AllFit(es) && i <= |es|
    ensures |Handles(Created(es[..i], sort))| <= MAXKEYS
    decreases i
  {
    if i > 0 {
      var e := es[i - 1];
      FitIsFew(es, i - 1, sort);
      assert es[..i] == es[..i - 1] + [e];
      CreatedSnoc(es[..i - 1], e, sort);
      if e.Create? && e.sort == sort && e.recorded != 0 {
        HandlesAppend(Created(es[..i - 1], sort), (e.recorded, e.actual));
        assert Fits(es[..i - 1], e);
        OneMore(Handles(Created(es[..i - 1], sort)), e.recorded);
      } else {
        assert Created(es[..i - 1], sort) + [] == Created(es[..i - 1], sort);
      }
    }
  }

  lemma OneMore(a: set<Handle>, k: Handle)
    ensures |a + {k}| == if k in a then |a| else |a| + 1
  {
    if k in a {
      assert a + {k} == a;
    }
  }

  /** A table's bindings answer every lookup with the latest creation. */
  lemma LookupIsLatest(v: map<Handle, Handle>, used: nat, puts: seq<(Handle, Handle)>, key: Handle)
    requires Tracks(v, used, puts)
    ensures (if key in v then v[key] else 0) == Latest(puts, key)
  {
    if key !in v {
      NeverPut(puts, key);
    }
  }

  /** What a table holds after `past`; without a table nothing was created. */
  ghost predicate TableOk(views: seq<map<Handle, Handle>>, used: seq<nat>, table: Option<nat>, lastMap: int,
                          past: seq<Event>, sort: Sort) {
    && |views| == |used| == MAXMAPS && lastMap < MAXMAPS && (table.Some? <==> HasTable(past, sort))
    && (table.None? ==> Created(past, sort) == [])
    && (table.Some? ==> table.value <= lastMap
                        && Tracks(views[table.value], used[table.value], Created(past, sort)))
  }

  ghost predicate Unused(views: seq<map<Handle, Handle>>, used: seq<nat>, lastMap: int) {
    |views| == |used| == MAXMAPS && forall m :: 0 <= m < MAXMAPS && m > lastMap ==> views[m] == map[] && used[m] == 0
  }

  lemma TracksSize(v: map<Handle, Handle>, used: nat, puts: seq<(Handle, Handle)>)
    requires Tracks(v, used, puts)
    ensures used == |Handles(puts)| && forall k :: k in v <==> k in Handles(puts)
  {
    assert forall k :: k in v <==> k in v.Keys;
  }

  function Other(sort: Sort): Sort {
    if sort == Surface then Context else Surface
  }

  /** A creation in table `m` as its own kind sees it. */
  lemma BoundHere(views: seq<map<Handle, Handle>>, used: seq<nat>, m: nat, lastMap: int, past: seq<Event>, e: Event)
    requires |views| == |used| == MAXMAPS && m <= lastMap < MAXMAPS && e.Create?
    requires Tracks(views[m], used[m], Created(past, e.sort))
    ensures var v, u := PutViews(views, m, e.recorded, e.actual), PutUsed(views, used, m, e.recorded);
            TableOk(v, u, Some(m), lastMap, past + [e], e.sort)
  {
    HasTableSnoc(past, e, e.sort);
    CreatedSnoc(past, e, e.sort);
    NullNeverCreated(past, e.sort);
    if e.recorded != 0 {
      TracksPut(views[m], used[m], Created(past, e.sort), e.recorded, e.actual);
    } else {
      assert Created(past, e.sort) + [] == Created(past, e.sort);
    }
  }

  /** An event leaves the tables of the other kinds as they were. */
  lemma BoundElsewhere(views: seq<map<Handle, Handle>>, used: seq<nat>, v: seq<map<Handle, Handle>>, u: seq<nat>,
                       table: Option<nat>, lastMap: int, past: seq<Event>, e: Event, sort: Sort)
    requires TableOk(views, used, table, lastMap, past, sort) && (e.Create? ==> e.sort != sort)
    requires |v| == |u| == MAXMAPS
             && (table.Some? ==> v[table.value] == views[table.value] && u[table.value] == used[table.value])
    ensures TableOk(v, u, table, lastMap, past + [e], sort)
  {
    HasTableSnoc(past, e, sort);
    CreatedSnoc(past, e, sort);
    assert Created(past, sort) + [] == Created(past, sort);
  }

  /** The static map pointers of retrace.c; None is a null pointer. */
  class Renaming {
    const maps: ObjectMaps
    var surfaceMap: Option<nat>
    var contextMap: Option<nat>
    ghost var past: seq<Event>

    function Table(sort: Sort): Option<nat>
      reads this
    {
      if sort == Surface then surfaceMap else contextMap
    }

    ghost predicate Valid()
      reads this, maps, maps.mapSpace
    {
      && maps.Valid()
      && maps.lastMap + 1 == (if surfaceMap.Some? then 1 else 0) + (if contextMap.Some? then 1 else 0)
      && (surfaceMap.Some? && contextMap.Some? ==> surfaceMap != contextMap)
      && Unused(maps.views, maps.used, maps.lastMap)
      && TableOk(maps.views, maps.used, surfaceMap, maps.lastMap, past, Surface)
      && TableOk(maps.views, maps.used, contextMap, maps.lastMap, past, Context)
    }

    constructor ()
      ensures Valid() && past == [] && fresh(maps) && fresh(maps.mapSpace)
    {
      maps := new ObjectMaps();
      surfaceMap, contextMap, past := None, None, [];
    }

    /** `getMap`; None is the null map pointer that it would follow. */
    method Lookup(sort: Sort, recorded: Handle) returns (actual: Option<Handle>)
      requires Valid()
      ensures actual == if HasTable(past, sort) then Some(Latest(Created(past, sort), recorded)) else None
    {
      var table := Table(sort);
      if table.None? { return None; }
      var val := maps.GetMap(table.value, recorded);
      LookupIsLatest(maps.views[table.value], maps.used[table.value], Created(past, sort), recorded);
      actual := Some(val);
    }

    /** The table of a kind, made when there is none. */
    method EnsureTable(sort: Sort) returns (m: nat)
      requires Valid()
      modifies this`surfaceMap, this`contextMap, maps`lastMap
      ensures maps.Valid() && m <= maps.lastMap <= 1 && Table(sort) == Some(m)
      ensures Unused(maps.views, maps.used, maps.lastMap)
      ensures Tracks(maps.views[m], maps.used[m], Created(past, sort))
      ensures var other := Other(sort);
              && Table(other) == old(Table(other)) != Table(sort)
              && TableOk(maps.views, maps.used, Table(other), maps.lastMap, past, other)
      ensures maps.lastMap + 1 == (if surfaceMap.Some? then 1 else 0) + (if contextMap.Some? then 1 else 0)
    {
      var table := Table(sort);
      if table.Some? {
        m := table.value;
      } else {
        var made := maps.CreateMap();
        m := made.value;
        if sort == Surface { surfaceMap := made; } else { contextMap := made; }
      }
    }

    /** A replayed creation; false is the exit of a full table. */
    method Bind(sort: Sort, recorded: Handle, actual: Handle) returns (ok: bool)
      requires Valid()
      modifies this, maps, maps.mapSpace
      ensures ok <==> Fits(old(past), Create(sort, recorded, actual))
      ensures ok ==> Valid() && past == old(past) + [Create(sort, recorded, actual)]
    {
      hide Created, HasTable, Tracks, Handles;
      ghost var e := Create(sort, recorded, actual);
      ghost var was := past;
      var m := EnsureTable(sort);
      ghost var views, used := maps.views, maps.used;
      TracksSize(views[m], used[m], Created(was, sort));
      ok := maps.PutMap(m, recorded, actual);
      past := past + [e];
      if ok {
        BoundHere(views, used, m, maps.lastMap, was, e);
        BoundElsewhere(views, used, maps.views, maps.used, Table(Other(sort)), maps.lastMap, was, e, Other(sort));
      }
    }

    /** One event of the trace: the handles it passes on, false when replay ends. */
    method Turn(e: Event) returns (used: seq<Handle>, ok: bool)
      requires Valid()
      modifies this, maps, maps.mapSpace
      ensures ok <==> Fits(old(past), e)
      ensures ok ==> Valid() && past == old(past) + [e]
      ensures ok ==> used == if e.Use? then [Latest(Created(old(past), e.sort), e.recorded)] else []
    {
      hide Created, HasTable, Tracks, Handles;
      used := [];
      match e {
        case Create(sort, recorded, actual) => ok := Bind(sort, recorded, actual);
        case Use(sort, recorded) =>
          var actual := Lookup(sort, recorded);
          if actual.None? { return [], false; }
          used := [actual.value];
          BoundElsewhere(maps.views, maps.used, maps.views, maps.used, surfaceMap, maps.lastMap, past, e, Surface);
          BoundElsewhere(maps.views, maps.used, maps.views, maps.used, contextMap, maps.lastMap, past, e, Context);
          past := past + [e];
          ok := true;
      }
    }

    /** Events in turn, behind those of the past: false when replay ends at one of them. */
    method Pass(es: seq<Event>) returns (renamed: seq<Handle>, ok: bool)
      requires Valid()
      modifies this, maps, maps.mapSpace
      ensures ok <==> FitBehind(old(past), es)
      ensures ok ==> Valid() && past == old(past) + es && Renamed(past) == Renamed(old(past)) + renamed
    {
      hide Created, Fits, Valid, Renamed;
      renamed := [];
      var i := 0;
      ghost var before := Renamed(past);
      assert es[0..] == es && past + es[..0] == past && before + [] == before;
      while i < |es|
        invariant 0 <= i <= |es| && Valid() && past == old(past) + es[..i]
        invariant FitBehind(old(past), es) <==> FitBehind(past, es[i..])
        invariant Renamed(past) == before + renamed
      {
        assert es[..i + 1] == es[..i] + [es[i]] && es[i..][0] == es[i] && es[i..][1..] == es[i + 1..];
        ghost var was := past;
        RenamedSnoc(was, es[i]);
        var more;
        more, ok := Turn(es[i]);
        if !ok { return; }
        assert was + [es[i]] == old(past) + es[..i + 1];
        assert before + renamed + more == before + (renamed + more);
        renamed := renamed + more;
        i := i + 1;
      }
      assert es[..i] == es;
      ok := true;
    }

    /** Replay of any run of creations and uses. It gets through exactly when every event fits, and
        then every use has got the object created last under its recorded handle. */
    method Replay(es: seq<Event>) returns (renamed: seq<Handle>, ok: bool)
      requires Valid() && past == []
      modifies this, maps, maps.mapSpace
      ensures ok <==> AllFit(es)
      ensures ok ==> renamed == Renamed(es)
    {
      hide Fits, Valid;
      FitsInParts([], es);
      assert [] + es == es;
      renamed, ok := Pass(es);
    }
  }
}
