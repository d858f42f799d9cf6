/** The handle renaming of retrace.c: map.c's fixed array of linear-probe tables. */
module HandleMap {
  import opened Bytes

  const MAXMAPS := 16
  const MAXKEYS := 16

  type Handle = int   // an address; 0 is NULL

  /** Position of slot `i` of table `m` in the shared array: its key, then its value. */
  function At(m: nat, i: nat): nat {
    m * MAXKEYS * 2 + 2 * i
  }

  predicate IsSpace(s: seq<Handle>) {
    |s| == MAXMAPS * MAXKEYS * 2
  }

  function Key(s: seq<Handle>, m: nat, i: nat): Handle
    requires IsSpace(s) && m < MAXMAPS && i < MAXKEYS
  {
    s[At(m, i)]
  }

  function Val(s: seq<Handle>, m: nat, i: nat): Handle
    requires IsSpace(s) && m < MAXMAPS && i < MAXKEYS
  {
    s[At(m, i) + 1]
  }

  /** Table `m` of the array holds exactly the bindings of `v`: used slots first, with distinct
      non-null keys, then null keys. */
  ghost predicate Holds(s: seq<Handle>, m: nat, v: map<Handle, Handle>, used: nat)
    requires IsSpace(s) && m < MAXMAPS
  {
    && used <= MAXKEYS
    && (forall i :: 0 <= i < used ==> Key(s, m, i) != 0 && Key(s, m, i) in v && v[Key(s, m, i)] == Val(s, m, i))
    && (forall i, j :: 0 <= i < j < used ==> Key(s, m, i) != Key(s, m, j))
    && (forall i :: used <= i < MAXKEYS ==> Key(s, m, i) == 0)
    && (forall k :: k in v ==> exists i :: 0 <= i < used && Key(s, m, i) == k)
  }

  /** All tables after a put in table `m`; a null key is never found again. */
  ghost function PutViews(views: seq<map<Handle, Handle>>, m: nat, key: Handle, val: Handle): seq<map<Handle, Handle>>
    requires m < |views|
  {
    if key == 0 then views else views[m := views[m][key := val]]
  }

  ghost function PutUsed(views: seq<map<Handle, Handle>>, used: seq<nat>, m: nat, key: Handle): seq<nat>
    requires m < |views| == |used|
  {
    if key == 0 || key in views[m] then used else used[m := used[m] + 1]
  }

  class ObjectMaps {
    const mapSpace: array<Handle>
    var lastMap: int
    ghost var views: seq<map<Handle, Handle>>
    ghost var used: seq<nat>

    ghost predicate Valid()
      reads this, mapSpace
    {
      && mapSpace.Length == MAXMAPS * MAXKEYS * 2 && -1 <= lastMap
      && |views| == |used| == MAXMAPS
      && forall m :: 0 <= m < MAXMAPS ==> Holds(mapSpace[..], m, views[m], used[m])
    }

    constructor ()
      ensures Valid() && fresh(mapSpace) && lastMap == -1
      ensures forall m :: 0 <= m < MAXMAPS ==> views[m] == map[] && used[m] == 0
    {
      mapSpace := new Handle[MAXMAPS * MAXKEYS * 2](_ => 0);
      lastMap := -1;
      views, used := seq(MAXMAPS, _ => map[]), seq(MAXMAPS, _ => 0);
    }

    /** A table nobody else was given, or None for the FATAL exit. */
    method CreateMap() returns (m: Option<nat>)
      requires Valid()
      modifies this`lastMap
      ensures Valid() && lastMap == old(lastMap) + 1
      ensures m == if old(lastMap) + 1 < MAXMAPS then Some(old(lastMap) + 1) else None
    {
      lastMap := lastMap + 1;
      m := if lastMap >= MAXMAPS then None else Some(lastMap);
    }

    /** The latest value put for the key; null for a key never put and for null itself. */
    method GetMap(m: nat, key: Handle) returns (val: Handle)
      requires Valid() && m < MAXMAPS
      ensures val == if key in views[m] then views[m][key] else 0
      ensures key == 0 ==> val == 0
    {
      for i := 0 to MAXKEYS
        invariant i <= used[m]
        invariant forall j :: 0 <= j < i ==> Key(mapSpace[..], m, j) != key
      {
        assert mapSpace[At(m, i)] == Key(mapSpace[..], m, i);
        if mapSpace[At(m, i)] == 0 { return 0; }
        if mapSpace[At(m, i)] == key {
          assert mapSpace[At(m, i) + 1] == Val(mapSpace[..], m, i);
          return mapSpace[At(m, i) + 1];
        }
      }
      return 0;
    }

    /** Binds the key, in this table only; false is the FATAL exit of a full table. */
    method PutMap(m: nat, key: Handle, val: Handle) returns (ok: bool)
      requires Valid() && m < MAXMAPS
      modifies this`views, this`used, mapSpace
      ensures Valid()
      ensures ok <==> key in old(views)[m] || old(used)[m] < MAXKEYS
      ensures views == if ok then PutViews(old(views), m, key, val) else old(views)
      ensures used == if ok then PutUsed(old(views), old(used), m, key) else old(used)
    {
      hide Holds;
      for i := 0 to MAXKEYS
        invariant Valid() && i <= used[m]
        invariant mapSpace[..] == old(mapSpace[..]) && views == old(views) && used == old(used)
        invariant forall j :: 0 <= j < i ==> Key(mapSpace[..], m, j) != key
      {
        ghost var s := mapSpace[..];
        assert mapSpace[At(m, i)] == Key(s, m, i);
        SlotIsUsed(s, m, views[m], used[m], i);
        if mapSpace[At(m, i)] == 0 {
          mapSpace[At(m, i)], mapSpace[At(m, i) + 1] := key, val;
          assert mapSpace[..] == Store(s, m, i, key, val);
          if key != 0 {
            AddsBinding(s, m, views[m], i, key, val);
            views, used := views[m := views[m][key := val]], used[m := i + 1];
          } else {
            NullKeyIgnored(s, m, views[m], i, val);
          }
          OthersHold(s, m, i, key, val, old(views), old(used));
          return true;
        } else if mapSpace[At(m, i)] == key {
          mapSpace[At(m, i) + 1] := val;
          assert mapSpace[..] == Store(s, m, i, key, val);
          ReplacesBinding(s, m, views[m], used[m], i, key, val);
          views := views[m := views[m][key := val]];
          OthersHold(s, m, i, key, val, old(views), old(used));
          return true;
        }
      }
      TableIsFull(mapSpace[..], m, views[m], used[m], key);
      return false;
    }
  }

  lemma SlotIsUsed(s: seq<Handle>, m: nat, v: map<Handle, Handle>, used: nat, i: nat)
    requires IsSpace(s) && m < MAXMAPS && i < MAXKEYS && Holds(s, m, v, used)
    ensures used <= MAXKEYS && (Key(s, m, i) != 0 <==> i < used)
  {
  }

  lemma TableIsFull(s: seq<Handle>, m: nat, v: map<Handle, Handle>, used: nat, key: Handle)
    requires IsSpace(s) && m < MAXMAPS && Holds(s, m, v, used)
    requires forall j :: 0 <= j < MAXKEYS ==> Key(s, m, j) != key
    ensures key !in v
  {
  }

  ghost function Store(s: seq<Handle>, m: nat, i: nat, key: Handle, val: Handle): (s': seq<Handle>)
    requires IsSpace(s) && m < MAXMAPS && i < MAXKEYS
    ensures IsSpace(s')
  {
    s[At(m, i) := key][At(m, i) + 1 := val]
  }

  lemma StoreAt(s: seq<Handle>, m: nat, i: nat, key: Handle, val: Handle, n: nat, j: nat)
    requires IsSpace(s) && m < MAXMAPS && i < MAXKEYS && n < MAXMAPS && j < MAXKEYS
    ensures var s' := Store(s, m, i, key, val);
            if n == m && j == i then Key(s', n, j) == key && Val(s', n, j) == val
            else Key(s', n, j) == Key(s, n, j) && Val(s', n, j) == Val(s, n, j)
  {
  }

  /** A store changes one slot of the whole space. */
  lemma StoreElsewhere(s: seq<Handle>, m: nat, i: nat, key: Handle, val: Handle, n: nat)
    requires IsSpace(s) && m < MAXMAPS && i < MAXKEYS && n < MAXMAPS
    ensures var s' := Store(s, m, i, key, val);
            && (forall j :: 0 <= j < MAXKEYS && (n != m || j != i) ==>
                  Key(s', n, j) == Key(s, n, j) && Val(s', n, j) == Val(s, n, j))
            && Key(s', m, i) == key && Val(s', m, i) == val
  {
    StoreAt(s, m, i, key, val, m, i);
    forall j | 0 <= j < MAXKEYS && (n != m || j != i)
      ensures Key(Store(s, m, i, key, val), n, j) == Key(s, n, j) && Val(Store(s, m, i, key, val), n, j) == Val(s, n, j)
    {
      StoreAt(s, m, i, key, val, n, j);
    }
  }

  lemma AddsBinding(s: seq<Handle>, m: nat, v: map<Handle, Handle>, i: nat, key: Handle, val: Handle)
    requires IsSpace(s) && m < MAXMAPS && i < MAXKEYS && key != 0
    requires Holds(s, m, v, i) && forall j :: 0 <= j < i ==> Key(s, m, j) != key
    ensures key !in v && Holds(Store(s, m, i, key, val), m, v[key := val], i + 1)
  {
    StoreElsewhere(s, m, i, key, val, m);
    hide Key, Val, Store;
    var s', v' := Store(s, m, i, key, val), v[key := val];
    forall k | k in v' ensures exists j :: 0 <= j < i + 1 && Key(s', m, j) == k {
      if k == key {
        assert Key(s', m, i) == k;
      } else {
        var j :| 0 <= j < i && Key(s, m, j) == k;
        assert Key(s', m, j) == k;
      }
    }
  }

  lemma NullKeyIgnored(s: seq<Handle>, m: nat, v: map<Handle, Handle>, i: nat, val: Handle)
    requires IsSpace(s) && m < MAXMAPS && i < MAXKEYS
    requires Holds(s, m, v, i)
    ensures Holds(Store(s, m, i, 0, val), m, v, i)
  {
    StoreElsewhere(s, m, i, 0, val, m);
    hide Key, Val, Store;
    KeysKept(s, Store(s, m, i, 0, val), m, v, i);
  }

  lemma ReplacesBinding(s: seq<Handle>, m: nat, v: map<Handle, Handle>, used: nat, i: nat, key: Handle, val: Handle)
    requires IsSpace(s) && m < MAXMAPS && Holds(s, m, v, used)
    requires i < used && Key(s, m, i) == key
    ensures key in v && Holds(Store(s, m, i, key, val), m, v[key := val], used)
  {
    StoreElsewhere(s, m, i, key, val, m);
    hide Key, Val, Store;
    var s', v' := Store(s, m, i, key, val), v[key := val];
    assert forall j :: 0 <= j < MAXKEYS ==> Key(s', m, j) == Key(s, m, j);
    KeysKept(s, s', m, v, used);
    assert forall j :: 0 <= j < used && j != i ==> Key(s', m, j) != key;
  }

  lemma KeysKept(s: seq<Handle>, s': seq<Handle>, n: nat, v: map<Handle, Handle>, used: nat)
    requires IsSpace(s) && IsSpace(s') && n < MAXMAPS && used <= MAXKEYS
    requires forall j :: 0 <= j < used ==> Key(s', n, j) == Key(s, n, j)
    requires forall k :: k in v ==> exists j :: 0 <= j < used && Key(s, n, j) == k
    ensures forall k :: k in v ==> exists j :: 0 <= j < used && Key(s', n, j) == k
  {
    hide Key;
    forall k | k in v ensures exists j :: 0 <= j < used && Key(s', n, j) == k {
      var j :| 0 <= j < used && Key(s, n, j) == k;
      assert Key(s', n, j) == k;
    }
  }

  /** A store in one table leaves the others as they were. */
  lemma OtherHolds(s: seq<Handle>, m: nat, i: nat, key: Handle, val: Handle, n: nat, v: map<Handle, Handle>, used: nat)
    requires IsSpace(s) && m < MAXMAPS && i < MAXKEYS && n < MAXMAPS && n != m && Holds(s, n, v, used)
    ensures Holds(Store(s, m, i, key, val), n, v, used)
  {
    StoreElsewhere(s, m, i, key, val, n);
    hide Key, Val, Store;
    KeysKept(s, Store(s, m, i, key, val), n, v, used);
  }

  lemma OthersHold(s: seq<Handle>, m: nat, i: nat, key: Handle, val: Handle,
                   views: seq<map<Handle, Handle>>, used: seq<nat>)
    requires IsSpace(s) && m < MAXMAPS && i < MAXKEYS && |views| == |used| == MAXMAPS
    requires forall n :: 0 <= n < MAXMAPS ==> Holds(s, n, views[n], used[n])
    ensures forall n :: 0 <= n < MAXMAPS && n != m ==> Holds(Store(s, m, i, key, val), n, views[n], used[n])
  {
    hide Holds, Store;
    forall n | 0 <= n < MAXMAPS && n != m
      ensures Holds(Store(s, m, i, key, val), n, views[n], used[n])
    {
      OtherHolds(s, m, i, key, val, n, views[n], used[n]);
    }
  }

  /*  Replay: the object last created under a recorded handle  */

  /** The value of the last put of `key`, or null. */
  function Latest(puts: seq<(Handle, Handle)>, key: Handle): Handle {
    if puts == [] || key == 0 then 0
    else if puts[|puts| - 1].0 == key then puts[|puts| - 1].1
    else Latest(puts[..|puts| - 1], key)
  }

  /** The different handles put. */
  ghost function Handles(puts: seq<(Handle, Handle)>): set<Handle> {
    set p | p in puts :: p.0
  }

  /** The table's bindings are the latest puts. */
  ghost predicate Tracks(v: map<Handle, Handle>, used: nat, puts: seq<(Handle, Handle)>) {
    && v.Keys == Handles(puts) && used == |Handles(puts)|
    && forall k :: k in v ==> v[k] == Latest(puts, k)
  }

  lemma HandlesAppend(puts: seq<(Handle, Handle)>, p: (Handle, Handle))
    ensures Handles(puts + [p]) == Handles(puts) + {p.0}
  {
    var all := puts + [p];
    forall k | k in Handles(puts) + {p.0} ensures k in Handles(all) {
      if k == p.0 {
        assert p == all[|puts|];
      } else {
        var q :| q in puts && q.0 == k;
        assert q in all;
      }
    }
  }

  lemma TracksPut(v: map<Handle, Handle>, used: nat, puts: seq<(Handle, Handle)>, key: Handle, val: Handle)
    requires Tracks(v, used, puts) && key != 0 && 0 !in v
    ensures Tracks(v[key := val], if key in v then used else used + 1, puts + [(key, val)])
  {
    hide Latest, Handles;
    HandlesAppend(puts, (key, val));
    assert key in v ==> Handles(puts) + {key} == Handles(puts);
    forall k | k in v[key := val] ensures v[key := val][k] == Latest(puts + [(key, val)], k) {
      LatestSnoc(puts, key, val, k);
    }
  }

  lemma LatestSnoc(puts: seq<(Handle, Handle)>, key: Handle, val: Handle, k: Handle)
    requires key != 0
    ensures Latest(puts + [(key, val)], k) == if k == key then val else Latest(puts, k)
  {
    var all := puts + [(key, val)];
    assert all[..|all| - 1] == puts;
  }

  lemma {:induction false} NeverPut(puts: seq<(Handle, Handle)>, key: Handle)
    requires key !in Handles(puts)
    ensures Latest(puts, key) == 0
  {
    if puts != [] {
      var n := |puts| - 1;
      assert puts[n] in puts;
      NeverPut(puts[..n], key);
    }
  }

  lemma SubsetSize(a: set<Handle>, b: set<Handle>)
    requires a <= b
    ensures |a| <= |b|
  {
    assert |b| == |a| + |b - a| by { assert b == a + (b - a); }
  }
}
