/** WebTerminal's style spans: the cursor (the input line) sits inside nested
    `<span style=...>` elements, which are split and rebuilt around it. */
module StyleSpans {
  import opened Bytes

  /*  Style attributes  */

  /** `String.trim` counts everything up to the space as blank. */
  predicate IsBlank(c: char) {
    c <= ' '
  }

  function TrimLeft(s: string): (r: string)
    ensures |r| <= |s| && (r != "" ==> !IsBlank(r[0]))
  {
    if s != "" && IsBlank(s[0]) then TrimLeft(s[1..]) else s
  }

  function TrimRight(s: string): (r: string)
    ensures |r| <= |s| && r == s[..|r|] && (r != "" ==> !IsBlank(r[|r| - 1]))
  {
    if s != "" && IsBlank(s[|s| - 1]) then TrimRight(s[..|s| - 1]) else s
  }

  function Trim(s: string): (r: string)
    ensures |r| <= |s|
  {
    TrimRight(TrimLeft(s))
  }

  function IndexOf(s: string, c: char): (i: nat)
    ensures i <= |s| && (forall k :: 0 <= k < i ==> s[k] != c) && (i < |s| ==> s[i] == c)
  {
    if s == "" || s[0] == c then 0 else 1 + IndexOf(s[1..], c)
  }

  /** The properties a style attribute lists, in order. */
  function Props(style: string): seq<string>
    decreases |style|
  {
    var p := Trim(style);
    if p == "" then []
    else
      var semi := IndexOf(p, ';');
      if semi == |p| then [p]
      else
        var s := Trim(p[..semi]);
        (if s == "" then [] else [s]) + Props(p[semi + 1..])
  }

  /** The characters that are neither blanks nor semicolons. */
  function Ink(s: string): string {
    if s == "" then "" else (if IsBlank(s[0]) || s[0] == ';' then "" else [s[0]]) + Ink(s[1..])
  }

  function InkOf(ss: seq<string>): string {
    if ss == [] then "" else Ink(ss[0]) + InkOf(ss[1..])
  }

  lemma {:induction false} InkAppend(a: string, b: string)
    ensures Ink(a + b) == Ink(a) + Ink(b)
  {
    if a == "" {
      assert a + b == b;
    } else {
      assert (a + b)[1..] == a[1..] + b;
      InkAppend(a[1..], b);
    }
  }

  lemma {:induction false} InkLeft(s: string)
    ensures Ink(TrimLeft(s)) == Ink(s)
  {
    if s != "" && IsBlank(s[0]) {
      InkLeft(s[1..]);
    }
  }

  lemma {:induction false} InkRight(s: string)
    ensures Ink(TrimRight(s)) == Ink(s)
  {
    if s != "" && IsBlank(s[|s| - 1]) {
      var n := |s| - 1;
      InkRight(s[..n]);
      assert s == s[..n] + [s[n]];
      InkAppend(s[..n], [s[n]]);
      assert Ink([s[n]]) == "";
    }
  }

  lemma InkTrim(s: string)
    ensures Ink(Trim(s)) == Ink(s)
  {
    InkLeft(s);
    InkRight(TrimLeft(s));
  }

  lemma TrimIsTrimmed(s: string)
    ensures var t := Trim(s);
            && (t != "" ==> !IsBlank(t[0]) && !IsBlank(t[|t| - 1]))
            && forall c :: c in t ==> c in s
  {
    TrimLeftKeeps(s);
  }

  lemma {:induction false} TrimLeftKeeps(s: string)
    ensures forall c :: c in TrimLeft(s) ==> c in s
  {
    if s != "" && IsBlank(s[0]) {
      TrimLeftKeeps(s[1..]);
    }
  }

  /** Parsing a style attribute loses nothing but blanks and semicolons, and gives clean properties. */
  lemma {:induction false} PropsKeepInk(style: string)
    ensures InkOf(Props(style)) == Ink(style) && AllClean(Props(style))
    decreases |style|
  {
    var p := Trim(style);
    InkTrim(style);
    TrimIsTrimmed(style);
    var semi := IndexOf(p, ';');
    hide Trim, Ink, InkOf;
    if p == "" {
      NoInk();
    } else if semi == |p| {
      OneInk(p);
    } else {
      var rest := p[semi + 1..];
      PropsKeepInk(rest);
      FrontInk(p, semi, Props(rest));
      hide AllClean;
    }
  }

  lemma NoInk()
    ensures Ink("") == "" == InkOf([])
  {
  }

  /** One property off the front of a style attribute. */
  lemma {:induction false} FrontInk(p: string, semi: nat, more: seq<string>)
    requires semi < |p| && p[semi] == ';' && ';' !in p[..semi]
    requires InkOf(more) == Ink(p[semi + 1..]) && AllClean(more)
    ensures var s := Trim(p[..semi]);
            var props := (if s == "" then [] else [s]) + more;
            InkOf(props) == Ink(p) && AllClean(props)
  {
    var s := Trim(p[..semi]);
    TrimIsTrimmed(p[..semi]);
    InkAround(p, semi);
    InkTrim(p[..semi]);
    FirstInk(s, more);
    hide Trim, Ink, InkOf, IsBlank;
  }

  lemma {:induction false} FirstInk(s: string, more: seq<string>)
    ensures InkOf((if s == "" then [] else [s]) + more) == Ink(s) + InkOf(more)
  {
    if s == "" {
      assert [] + more == more;
    } else {
      assert ([s] + more)[1..] == more;
    }
  }

  lemma {:induction false} InkAround(p: string, semi: nat)
    requires semi < |p| && p[semi] == ';'
    ensures Ink(p) == Ink(p[..semi]) + Ink(p[semi + 1..])
  {
    var rest := p[semi + 1..];
    assert p == p[..semi] + ([';'] + rest);
    InkAppend(p[..semi], [';'] + rest);
    assert Ink([';'] + rest) == Ink(rest) by {
      assert ([';'] + rest)[1..] == rest;
    }
    hide Ink;
  }

  lemma OneInk(p: string)
    ensures InkOf([p]) == Ink(p)
  {
    assert InkOf([p][1..]) == "" && Ink(p) + "" == Ink(p);
  }

  /** A single property as `pushSimpleStyle` writes it. */
  predicate Clean(s: string) {
    s != "" && ';' !in s && !IsBlank(s[0]) && !IsBlank(s[|s| - 1])
  }

  predicate AllClean(ss: seq<string>) {
    forall i :: 0 <= i < |ss| ==> Clean(ss[i])
  }

  function Join(ss: seq<string>): string
    requires ss != []
  {
    if |ss| == 1 then ss[0] else ss[0] + ";" + Join(ss[1..])
  }

  lemma TrimClean(s: string)
    requires s != "" && !IsBlank(s[0]) && !IsBlank(s[|s| - 1])
    ensures Trim(s) == s
  {
  }

  lemma JoinEnds(ss: seq<string>)
    requires ss != [] && AllClean(ss)
    ensures var j := Join(ss);
            j != "" && !IsBlank(j[0]) && !IsBlank(j[|j| - 1])
  {
    assert Clean(ss[0]);
    if |ss| > 1 {
      JoinEnds(ss[1..]);
    }
  }

  lemma IndexOfAt(a: string, c: char, b: string)
    requires c !in a
    ensures IndexOf(a + [c] + b, c) == |a|
  {
    var s := a + [c] + b;
    if a != "" {
      assert s[1..] == a[1..] + [c] + b;
      IndexOfAt(a[1..], c, b);
    }
  }

  lemma IndexOfNone(a: string, c: char)
    requires c !in a
    ensures IndexOf(a, c) == |a|
  {
  }

  /** The attribute of a new span lists exactly the properties it was made from. */
  lemma {:induction false} PropsOfJoin(ss: seq<string>)
    requires ss != [] && AllClean(ss)
    ensures Props(Join(ss)) == ss
  {
    var j := Join(ss);
    JoinEnds(ss);
    TrimClean(j);
    assert Clean(ss[0]);
    if |ss| == 1 {
      IndexOfNone(j, ';');
    } else {
      var more := Join(ss[1..]);
      IndexOfAt(ss[0], ';', more);
      assert j == ss[0] + [';'] + more;
      assert j[..|ss[0]|] == ss[0] && j[|ss[0]| + 1..] == more;
      TrimClean(ss[0]);
      PropsOfJoin(ss[1..]);
    }
  }

  /*  The document around the cursor  */

  datatype Node = Text(text: string) | Br | Span(cls: string, style: string, kids: seq<Node>)

  /** An element on the way down to the cursor, with its children before and after that way. */
  datatype Level = Level(cls: string, style: string, left: seq<Node>, right: seq<Node>)

  datatype Mark = Ch(c: char) | Break
  datatype Path = Root | In(parent: Path, cls: string, style: string)

  /** What a reader sees: every character with the spans it is in. */
  datatype Styled = Styled(mark: Mark, path: Path)

  function Chars(s: string, path: Path): seq<Styled> {
    seq(|s|, i requires 0 <= i < |s| => Styled(Ch(s[i]), path))
  }

  function Flat(n: Node, path: Path): seq<Styled>
    decreases n, 1
  {
    match n
    case Text(s) => Chars(s, path)
    case Br => [Styled(Break, path)]
    case Span(cls, style, kids) => FlatAll(kids, In(path, cls, style))
  }

  function FlatAll(ns: seq<Node>, path: Path): seq<Styled>
    decreases ns, 0
  {
    if ns == [] then [] else Flat(ns[0], path) + FlatAll(ns[1..], path)
  }

  lemma {:induction false} FlatAppend(a: seq<Node>, b: seq<Node>, path: Path)
    ensures FlatAll(a + b, path) == FlatAll(a, path) + FlatAll(b, path)
  {
    if a == [] {
      assert a + b == b;
    } else {
      assert (a + b)[1..] == a[1..] + b;
      FlatAppend(a[1..], b, path);
    }
  }

  lemma FlatOne(n: Node, path: Path)
    ensures FlatAll([n], path) == Flat(n, path)
  {
    assert [n][1..] == [];
    assert FlatAll([], path) == [];
  }

  /** The spans around the cursor; level 0 is the container that holds the nest. */
  function PathOf(levels: seq<Level>): Path
    requires levels != []
  {
    if |levels| == 1 then Root
    else var last := levels[|levels| - 1]; In(PathOf(levels[..|levels| - 1]), last.cls, last.style)
  }

  /** Everything before the cursor, and everything after it. */
  function Before(levels: seq<Level>): seq<Styled> {
    if levels == [] then []
    else Before(levels[..|levels| - 1]) + FlatAll(levels[|levels| - 1].left, PathOf(levels))
  }

  function After(levels: seq<Level>): seq<Styled> {
    if levels == [] then []
    else FlatAll(levels[|levels| - 1].right, PathOf(levels)) + After(levels[..|levels| - 1])
  }

  /** The parent after its inner span has been closed before the cursor and reopened behind it. */
  function Merge(outer: Level, inner: Level): Level {
    Level(outer.cls, outer.style,
          outer.left + [Span(inner.cls, inner.style, inner.left)],
          (if inner.right == [] then [] else [Span(inner.cls, inner.style, inner.right)]) + outer.right)
  }

  /** `popStyle`: move the cursor behind its span; what followed it moves to a copy of the span. */
  function Pop(levels: seq<Level>): (r: seq<Level>)
    requires |levels| >= 2
    ensures |r| == |levels| - 1 && r[..|r| - 1] == levels[..|levels| - 2]
    ensures r[|r| - 1].cls == levels[|levels| - 2].cls && r[|r| - 1].style == levels[|levels| - 2].style
  {
    var n := |levels|;
    levels[..n - 2] + [Merge(levels[n - 2], levels[n - 1])]
  }

  /** The span is closed before the cursor and, only if something follows, opened again behind it. */
  lemma PopSplits(levels: seq<Level>)
    requires |levels| >= 2
    ensures var n := |levels|;
            var o, i, r := levels[n - 2], levels[n - 1], Pop(levels)[n - 2];
            && |r.left| == |o.left| + 1 && r.left[..|o.left|] == o.left
            && r.left[|o.left|] == Span(i.cls, i.style, i.left)
            && if i.right == [] then r.right == o.right
               else |r.right| == |o.right| + 1 && r.right[0] == Span(i.cls, i.style, i.right) && r.right[1..] == o.right
  {
  }

  lemma {:induction false} PathKept(a: seq<Level>, b: seq<Level>)
    requires a != [] && |a| == |b|
    requires forall i :: 0 <= i < |a| ==> a[i].cls == b[i].cls && a[i].style == b[i].style
    ensures PathOf(a) == PathOf(b)
  {
    if |a| > 1 {
      PathKept(a[..|a| - 1], b[..|b| - 1]);
    }
  }

  lemma Snoc(levels: seq<Level>, last: Level)
    ensures var all := levels + [last];
            && Before(all) == Before(levels) + FlatAll(last.left, PathOf(all))
            && After(all) == FlatAll(last.right, PathOf(all)) + After(levels)
            && (levels != [] ==> PathOf(all) == In(PathOf(levels), last.cls, last.style))
  {
    assert (levels + [last])[..|levels|] == levels;
  }

  lemma Assoc(a: seq<Styled>, b: seq<Styled>, c: seq<Styled>)
    ensures (a + b) + c == a + (b + c)
  {
  }

  /** Leaving a span changes neither the styled text nor the cursor's place in it. */
  lemma PopKeeps(levels: seq<Level>)
    requires |levels| >= 2
    ensures Before(Pop(levels)) == Before(levels) && After(Pop(levels)) == After(levels)
  {
    hide Before, After, Merge;
    var n := |levels|;
    LastTwo(levels);
    MergeKeeps(levels[..n - 2], levels[n - 2], levels[n - 1]);
  }

  lemma LastTwo<T>(s: seq<T>)
    requires |s| >= 2
    ensures s == (s[..|s| - 2] + [s[|s| - 2]]) + [s[|s| - 1]]
  {
  }

  lemma MergeKeeps(rest: seq<Level>, outer: Level, inner: Level)
    ensures var merged, split := rest + [Merge(outer, inner)], (rest + [outer]) + [inner];
            Before(merged) == Before(split) && After(merged) == After(split)
  {
    var merged := Merge(outer, inner);
    Snoc(rest, outer);
    Snoc(rest + [outer], inner);
    Snoc(rest, merged);
    PathKept(rest + [merged], rest + [outer]);
    var path := PathOf(rest + [outer]);
    PopLeft(inner, outer, path);
    PopRight(inner, outer, path);
    hide Before, After, FlatAll, PathOf;
    var p := In(path, inner.cls, inner.style);
    Assoc(Before(rest), FlatAll(outer.left, path), FlatAll(inner.left, p));
    Assoc(FlatAll(inner.right, p), FlatAll(outer.right, path), After(rest));
  }

  lemma PopLeft(inner: Level, outer: Level, path: Path)
    ensures FlatAll(outer.left + [Span(inner.cls, inner.style, inner.left)], path)
         == FlatAll(outer.left, path) + FlatAll(inner.left, In(path, inner.cls, inner.style))
  {
    var span := Span(inner.cls, inner.style, inner.left);
    FlatAppend(outer.left, [span], path);
    FlatOne(span, path);
  }

  lemma PopRight(inner: Level, outer: Level, path: Path)
    ensures FlatAll((if inner.right == [] then [] else [Span(inner.cls, inner.style, inner.right)]) + outer.right, path)
         == FlatAll(inner.right, In(path, inner.cls, inner.style)) + FlatAll(outer.right, path)
  {
    var span := Span(inner.cls, inner.style, inner.right);
    if inner.right == [] {
      assert [] + outer.right == outer.right;
      assert [] + FlatAll(outer.right, path) == FlatAll(outer.right, path);
    } else {
      FlatAppend([span], outer.right, path);
      FlatOne(span, path);
    }
  }

  /*  Adjusting the nest to the wanted styles  */

  /** The properties of the first `n` levels, outermost span first. */
  function SpellTo(levels: seq<Level>, n: nat): seq<string>
    requires n <= |levels|
  {
    if n <= 1 then [] else SpellTo(levels, n - 1) + Props(levels[n - 1].style)
  }

  /** The properties in force at the cursor. */
  function Spell(levels: seq<Level>): seq<string> {
    SpellTo(levels, |levels|)
  }

  /** Level `i` goes on spelling `current`, which is not complete before it. */
  predicate GoesOn(levels: seq<Level>, current: seq<string>, i: nat)
    requires i < |levels|
  {
    |SpellTo(levels, i)| < |current| && SpellTo(levels, i + 1) <= current
  }

  /** How many levels stay, outermost first. */
  function Kept(levels: seq<Level>, current: seq<string>, i: nat): (n: nat)
    requires 1 <= i <= |levels|
    ensures i <= n <= |levels|
    decreases |levels| - i
  {
    if i < |levels| && GoesOn(levels, current, i) then Kept(levels, current, i + 1) else i
  }

  function PopTo(levels: seq<Level>, n: nat): (r: seq<Level>)
    requires 1 <= n <= |levels|
    ensures |r| == n
    decreases |levels|
  {
    if |levels| == n then levels else PopTo(Pop(levels), n)
  }

  function Adjusted(levels: seq<Level>, current: seq<string>): seq<Level>
    requires levels != []
  {
    var n := Kept(levels, current, 1);
    var k := |SpellTo(levels, n)|;
    if k < |current| then PopTo(levels, n) + [Level("", Join(current[k..]), [], [])] else PopTo(levels, n)
  }

  /** The first `n` levels are the same spans. */
  predicate SameSpans(a: seq<Level>, b: seq<Level>, n: nat) {
    n <= |a| && n <= |b| && forall i :: 0 <= i < n ==> a[i].cls == b[i].cls && a[i].style == b[i].style
  }

  lemma {:induction false} SpellKept(a: seq<Level>, b: seq<Level>, n: nat)
    requires SameSpans(a, b, n)
    ensures SpellTo(a, n) == SpellTo(b, n)
  {
    if n > 1 {
      SpellKept(a, b, n - 1);
    }
  }

  lemma {:induction false} PopToKeeps(levels: seq<Level>, n: nat)
    requires 1 <= n <= |levels|
    ensures Before(PopTo(levels, n)) == Before(levels) && After(PopTo(levels, n)) == After(levels)
    ensures SameSpans(PopTo(levels, n), levels, n)
    decreases |levels|
  {
    if |levels| > n {
      hide Before, After, Merge;
      PopKeeps(levels);
      PopToKeeps(Pop(levels), n);
      PopSpans(levels);
    }
  }

  lemma PopSpans(levels: seq<Level>)
    requires |levels| >= 2
    ensures SameSpans(Pop(levels), levels, |levels| - 1)
  {
    var r := Pop(levels);
    assert forall i :: 0 <= i < |r| - 1 ==> r[i] == r[..|r| - 1][i] == levels[i];
  }

  lemma {:induction false} KeptFacts(levels: seq<Level>, current: seq<string>, i: nat)
    requires 1 <= i <= |levels| && SpellTo(levels, i) <= current
    ensures var n := Kept(levels, current, i);
            SpellTo(levels, n) <= current && forall j :: i <= j < n ==> GoesOn(levels, current, j)
    decreases |levels| - i
  {
    hide SpellTo;
    if i < |levels| && GoesOn(levels, current, i) {
      KeptFacts(levels, current, i + 1);
    }
  }

  lemma {:induction false} SpellGrows(levels: seq<Level>, i: nat, j: nat)
    requires i <= j <= |levels|
    ensures SpellTo(levels, i) <= SpellTo(levels, j) && |SpellTo(levels, i)| <= |SpellTo(levels, j)|
    decreases j
  {
    hide Props;
    if i < j && j > 1 {
      SpellGrows(levels, i, j - 1);
      PrefixExtends(SpellTo(levels, i), SpellTo(levels, j - 1), Props(levels[j - 1].style));
    }
  }

  lemma {:induction false} PrefixExtends(a: seq<string>, b: seq<string>, c: seq<string>)
    requires a <= b
    ensures a <= b + c && |a| <= |b + c|
  {
  }

  lemma {:induction false} PrefixTrans<T>(a: seq<T>, b: seq<T>, c: seq<T>)
    requires a <= b && b <= c
    ensures a <= c && |a| <= |b|
  {
  }

  /** `m` outer spans spell the beginning of the wanted styles, the last not beyond their end. */
  predicate SpellsInto(levels: seq<Level>, current: seq<string>, m: nat)
    requires 1 <= m <= |levels|
  {
    SpellTo(levels, m) <= current && (m > 1 ==> |SpellTo(levels, m - 1)| < |current|)
  }

  lemma {:induction false} GoesOnInto(levels: seq<Level>, current: seq<string>, i: nat, m: nat)
    requires 1 <= i < m <= |levels| && SpellsInto(levels, current, m)
    ensures GoesOn(levels, current, i)
  {
    hide SpellTo;
    SpellGrows(levels, i, m - 1);
    SpellGrows(levels, i + 1, m);
    PrefixTrans(SpellTo(levels, i + 1), SpellTo(levels, m), current);
  }

  lemma {:induction false} KeptReaches(levels: seq<Level>, current: seq<string>, i: nat, m: nat)
    requires 1 <= i <= m <= |levels| && SpellsInto(levels, current, m)
    ensures m <= Kept(levels, current, i)
    decreases m - i
  {
    hide SpellsInto, GoesOn;
    if i < m {
      GoesOnInto(levels, current, i, m);
      KeptReaches(levels, current, i + 1, m);
    }
  }

  lemma AdjustedSpans(levels: seq<Level>, current: seq<string>)
    requires levels != []
    ensures var n := Kept(levels, current, 1);
            n <= |Adjusted(levels, current)| <= n + 1 && SameSpans(Adjusted(levels, current), levels, n)
  {
    hide SpellTo, Kept, Join;
    PopToKeeps(levels, Kept(levels, current, 1));
  }

  /** No more spans could have stayed: however many outer spans spell the beginning of the wanted
      styles, the last of them not beyond their end, they stay as they are, and at most one new span
      is opened in them. */
  lemma {:induction false} KeepsLongest(levels: seq<Level>, current: seq<string>, m: nat)
    requires 1 <= m <= |levels| && SpellsInto(levels, current, m)
    ensures m <= Kept(levels, current, 1) <= |Adjusted(levels, current)| <= Kept(levels, current, 1) + 1
    ensures SameSpans(Adjusted(levels, current), levels, m)
  {
    hide SpellsInto, Kept, Adjusted;
    KeptReaches(levels, current, 1, m);
    AdjustedSpans(levels, current);
  }

  lemma {:induction false} KeepsAll(levels: seq<Level>, current: seq<string>, i: nat)
    requires 1 <= i <= |levels| && forall j :: i <= j < |levels| ==> GoesOn(levels, current, j)
    ensures Kept(levels, current, i) == |levels|
    decreases |levels| - i
  {
    hide GoesOn;
    if i < |levels| {
      KeepsAll(levels, current, i + 1);
    }
  }

  lemma NewSpanKeeps(levels: seq<Level>, style: string)
    requires levels != []
    ensures var all := levels + [Level("", style, [], [])];
            Before(all) == Before(levels) && After(all) == After(levels) && Spell(all) == Spell(levels) + Props(style)
  {
    var last := Level("", style, [], []);
    Snoc(levels, last);
    SpellKept(levels + [last], levels, |levels|);
    assert Before(levels) + [] == Before(levels) && [] + After(levels) == After(levels);
  }

  /** The text with its styles and the cursor's place in it stay as they are. */
  lemma AdjustKeepsText(levels: seq<Level>, current: seq<string>)
    requires levels != []
    ensures Before(Adjusted(levels, current)) == Before(levels)
    ensures After(Adjusted(levels, current)) == After(levels)
  {
    var n := Kept(levels, current, 1);
    var k := |SpellTo(levels, n)|;
    PopToKeeps(levels, n);
    if k < |current| {
      NewSpanKeeps(PopTo(levels, n), Join(current[k..]));
    }
  }

  /** The spans around the cursor spell exactly the wanted styles. */
  lemma AdjustSpells(levels: seq<Level>, current: seq<string>)
    requires levels != [] && AllClean(current)
    ensures Spell(Adjusted(levels, current)) == current
  {
    assert SpellTo(levels, 1) == [];
    hide SpellTo, Join, Props, PopTo, Kept, AllClean, SameSpans;
    var n := Kept(levels, current, 1);
    KeptFacts(levels, current, 1);
    var k := |SpellTo(levels, n)|;
    PrefixOf(SpellTo(levels, n), current);
    PopToKeeps(levels, n);
    SpellKept(PopTo(levels, n), levels, n);
    if k < |current| {
      NewSpanKeeps(PopTo(levels, n), Join(current[k..]));
      CleanTail(current, k);
      PropsOfJoin(current[k..]);
      TakeDrop(current, k);
    }
  }

  lemma PrefixOf<T>(a: seq<T>, b: seq<T>)
    requires a <= b
    ensures a == b[..|a|] && (|a| >= |b| ==> a == b)
  {
  }

  lemma TakeDrop<T>(s: seq<T>, k: nat)
    requires k <= |s|
    ensures s[..k] + s[k..] == s
  {
  }

  lemma CleanTail(ss: seq<string>, k: nat)
    requires k <= |ss| && AllClean(ss)
    ensures AllClean(ss[k..])
  {
  }

  /** Adjusting again does nothing. */
  lemma AdjustIsIdempotent(levels: seq<Level>, current: seq<string>)
    requires levels != [] && AllClean(current)
    ensures var once := Adjusted(levels, current);
            once != [] && Adjusted(once, current) == once
  {
    var once, n := Adjusted(levels, current), Kept(levels, current, 1);
    AdjustSpells(levels, current);
    KeptFacts(levels, current, 1);
    PopToKeeps(levels, n);
    forall j | 1 <= j < |once| ensures GoesOn(once, current, j) {
      hide Adjusted, SpellTo, Kept, PopTo, GoesOn;
      SettledAt(levels, current, once, n, j);
    }
    KeepsAll(once, current, 1);
  }

  lemma SettledAt(levels: seq<Level>, current: seq<string>, once: seq<Level>, n: nat, j: nat)
    requires levels != [] && n == Kept(levels, current, 1) && SameSpans(PopTo(levels, n), levels, n)
    requires once == Adjusted(levels, current) && Spell(once) == current && 1 <= j < |once|
    requires SpellTo(levels, n) <= current && forall i :: 1 <= i < n ==> GoesOn(levels, current, i)
    ensures GoesOn(once, current, j)
  {
    hide SpellTo, Join, PopTo, Kept;
    assert SameSpans(once, levels, n);
    SpellKept(once, levels, j);
    if j < n {
      assert GoesOn(levels, current, j);
      SpellKept(once, levels, j + 1);
    }
  }

  /*  The wanted styles  */

  /** A property name with its colon, like "color:". */
  predicate IsName(name: string) {
    |name| > 1 && name[|name| - 1] == ':' && ':' !in name[..|name| - 1] && ';' !in name && !IsBlank(name[0])
  }

  predicate IsValue(value: string) {
    value != "" && ';' !in value && !IsBlank(value[|value| - 1])
  }

  predicate Sets(style: string, name: string) {
    name <= style
  }

  /** The styles that set (or, with `keep` false, do not set) a property. */
  function Setting(ss: seq<string>, name: string, keep: bool): seq<string> {
    if ss == [] then []
    else (if Sets(ss[0], name) == keep then [ss[0]] else []) + Setting(ss[1..], name, keep)
  }

  function Pushed(current: seq<string>, name: string, value: Option<string>): seq<string> {
    Setting(current, name, false) + if value.Some? then [name + " " + value.value] else []
  }

  lemma {:induction false} SettingAppend(a: seq<string>, b: seq<string>, name: string, keep: bool)
    ensures Setting(a + b, name, keep) == Setting(a, name, keep) + Setting(b, name, keep)
  {
    if a == [] {
      assert a + b == b;
    } else {
      var first := if Sets(a[0], name) == keep then [a[0]] else [];
      assert (a + b)[0] == a[0] && (a + b)[1..] == a[1..] + b;
      SettingAppend(a[1..], b, name, keep);
      hide Sets;
      assert Setting(a + b, name, keep) == first + Setting(a[1..] + b, name, keep);
    }
  }

  lemma {:induction false} NoneLeft(ss: seq<string>, name: string)
    ensures Setting(Setting(ss, name, false), name, true) == []
  {
    if ss != [] {
      NoneLeft(ss[1..], name);
      if !Sets(ss[0], name) {
        SettingAppend([ss[0]], Setting(ss[1..], name, false), name, true);
      } else {
        assert [] + Setting(ss[1..], name, false) == Setting(ss[1..], name, false);
      }
    }
  }

  /** Two different property names never begin the same style. */
  lemma NamesDiffer(style: string, name: string, other: string)
    requires IsName(name) && IsName(other) && Sets(style, name) && Sets(style, other)
    ensures name == other
  {
  }

  lemma {:induction false} OthersLeft(ss: seq<string>, name: string, other: string)
    requires IsName(name) && IsName(other) && name != other
    ensures Setting(Setting(ss, name, false), other, true) == Setting(ss, other, true)
  {
    if ss != [] {
      OthersLeft(ss[1..], name, other);
      var rest := Setting(ss[1..], name, false);
      if Sets(ss[0], name) {
        if Sets(ss[0], other) { NamesDiffer(ss[0], name, other); }
        assert [] + rest == rest;
        assert [] + Setting(ss[1..], other, true) == Setting(ss[1..], other, true);
      } else {
        SettingAppend([ss[0]], rest, other, true);
        assert [ss[0]][1..] == [];
      }
    }
  }

  /** After a push the property has just the pushed value, or none. */
  lemma PushSets(current: seq<string>, name: string, value: Option<string>)
    ensures Setting(Pushed(current, name, value), name, true)
         == if value.Some? then [name + " " + value.value] else []
  {
    NoneLeft(current, name);
    var added := if value.Some? then [name + " " + value.value] else [];
    SettingAppend(Setting(current, name, false), added, name, true);
    if value.Some? {
      assert Sets(added[0], name);
      assert added[1..] == [];
    }
  }

  /** A push leaves every other property as it was. */
  lemma PushLeavesOthers(current: seq<string>, name: string, value: Option<string>, other: string)
    requires IsName(name) && IsName(other) && name != other
    ensures Setting(Pushed(current, name, value), other, true) == Setting(current, other, true)
  {
    OthersLeft(current, name, other);
    var kept, added := Setting(current, name, false), if value.Some? then [name + " " + value.value] else [];
    SettingAppend(kept, added, other, true);
    if value.Some? {
      assert Sets(added[0], name);
      if Sets(added[0], other) { NamesDiffer(added[0], name, other); }
      assert added[1..] == [];
    }
    assert Setting(added, other, true) == [];
  }

  /** `ix` are, in ascending order, the places of the styles that do not set the property. */
  predicate NotSetting(ss: seq<string>, name: string, ix: seq<nat>) {
    && (forall k :: 0 <= k < |ix| ==> ix[k] < |ss|)
    && (forall j, k :: 0 <= j < k < |ix| ==> ix[j] < ix[k])
    && (forall i :: 0 <= i < |ss| ==> (i in ix <==> !(name <= ss[i])))
  }

  lemma {:induction false} SettingAt(ss: seq<string>, name: string) returns (ix: seq<nat>)
    ensures NotSetting(ss, name, ix) && |Setting(ss, name, false)| == |ix|
    ensures forall k :: 0 <= k < |ix| ==> Setting(ss, name, false)[k] == ss[ix[k]]
    decreases |ss|
  {
    ix := [];
    if ss != [] {
      var n := |ss| - 1;
      ix := SettingAt(ss[..n], name);
      assert ss == ss[..n] + [ss[n]];
      SettingAppend(ss[..n], [ss[n]], name, false);
      assert [ss[n]][1..] == [];
      if !Sets(ss[n], name) {
        ix := ix + [n];
      }
    }
  }

  /** A push keeps the styles that do not set the property, in their order, and puts the new one
      behind them. */
  lemma PushKeepsOrder(current: seq<string>, name: string, value: Option<string>) returns (ix: seq<nat>)
    ensures NotSetting(current, name, ix)
    ensures var r := Pushed(current, name, value);
            && |r| == (if value.Some? then |ix| + 1 else |ix|)
            && (forall k :: 0 <= k < |ix| ==> r[k] == current[ix[k]])
            && (value.Some? ==> r[|ix|] == name + " " + value.value)
  {
    ix := SettingAt(current, name);
  }

  lemma {:induction false} SettingClean(ss: seq<string>, name: string)
    requires AllClean(ss)
    ensures AllClean(Setting(ss, name, false))
  {
    if ss != [] {
      SettingClean(ss[1..], name);
    }
  }

  lemma PushClean(current: seq<string>, name: string, value: Option<string>)
    requires AllClean(current) && IsName(name) && (value.Some? ==> IsValue(value.value))
    ensures AllClean(Pushed(current, name, value))
  {
    SettingClean(current, name);
    if value.Some? {
      assert Clean(name + " " + value.value);
    }
  }

  lemma RemoveAt<T>(s: seq<T>, i: nat)
    requires i < |s|
    ensures var r := s[..i] + s[i + 1..];
            r[..i] == s[..i] && r[i..] == s[i + 1..]
  {
  }

  lemma RemoveNone<T>(s: seq<T>, i: nat)
    requires i == |s|
    ensures s[..i] == s && s[i..] == [] && s + [] == s
  {
  }

  /** One turn of the removal loop. */
  lemma SettingStep(ss: seq<string>, i: nat, name: string)
    requires i < |ss|
    ensures ss[..i] + Setting(ss[i..], name, false)
         == if Sets(ss[i], name) then ss[..i] + Setting(ss[i + 1..], name, false)
            else ss[..i + 1] + Setting(ss[i + 1..], name, false)
  {
    var more := Setting(ss[i + 1..], name, false);
    assert ss[i..][1..] == ss[i + 1..];
    assert [] + more == more;
    assert ss[..i + 1] == ss[..i] + [ss[i]];
    hide Setting;
    assert ss[..i] + ([ss[i]] + more) == (ss[..i] + [ss[i]]) + more;
  }

  /** The terminal fields the style methods work on. */
  class Terminal {
    var levels: seq<Level>
    var currentStyles: seq<string>
    var adjustStyleNeeded: bool

    /** The cursor is in a nest of style spans, one directly in the other, in a container without
        a style of its own. */
    ghost predicate Valid()
      reads this
    {
      && levels != [] && levels[0].style == "" && AllClean(currentStyles)
      && forall i :: 1 <= i < |levels| ==> levels[i].style != ""
    }

    constructor ()
      ensures Valid() && levels == [Level("", "", [], [])] && currentStyles == []
    {
      levels, currentStyles, adjustStyleNeeded := [Level("", "", [], [])], [], false;
    }

    method PushSimpleStyle(name: string, value: Option<string>)
      requires Valid() && IsName(name) && (value.Some? ==> IsValue(value.value))
      modifies this`currentStyles
      ensures Valid() && currentStyles == Pushed(old(currentStyles), name, value)
    {
      PushClean(currentStyles, name, value);
      var i := 0;
      assert currentStyles[0..] == currentStyles;
      while i < |currentStyles|
        invariant 0 <= i <= |currentStyles|
        invariant currentStyles[..i] + Setting(currentStyles[i..], name, false)
                  == Setting(old(currentStyles), name, false)
        decreases |currentStyles| - i
      {
        SettingStep(currentStyles, i, name);
        if name <= currentStyles[i] {
          RemoveAt(currentStyles, i);
          currentStyles := currentStyles[..i] + currentStyles[i + 1..];
        } else {
          i := i + 1;
        }
      }
      RemoveNone(currentStyles, i);
      if value.Some? {
        currentStyles := currentStyles + [name + " " + value.value];
      }
    }

    method PopStyle()
      requires |levels| >= 2
      modifies this`levels
      ensures levels == Pop(old(levels))
    {
      var n := |levels|;
      var span1, parent := levels[n - 1], levels[n - 2];
      var left := parent.left + [Span(span1.cls, span1.style, span1.left)];
      var right := parent.right;
      if span1.right != [] {
        right := [Span(span1.cls, span1.style, span1.right)] + right;
      } else {
        assert [] + right == right;
      }
      levels := levels[..n - 2] + [Level(parent.cls, parent.style, left, right)];
    }

    /** The inner loop of `adjustStyle`: how many of the wanted styles from `kept` on a style
        attribute spells, or -1 when it spells something else. */
    method MatchStyle(style: string, kept: nat) returns (k: int)
      requires kept <= |currentStyles|
      ensures k == if Continues(Props(style), currentStyles, kept) then |Props(style)| else -1
    {
      hide Props, Trim, IndexOf;
      k := 0;
      ghost var want, seen := currentStyles[kept..], [];
      var parentStyle := style;
      var p := Trim(parentStyle);
      assert [] + Props(style) == Props(style);
      while k >= 0 && p != ""
        invariant p == Trim(parentStyle)
        invariant k >= 0 ==> k == |seen| && seen <= want && seen + Props(parentStyle) == Props(style)
        invariant k < 0 ==> k == -1 && !(Props(style) <= want)
        decreases |parentStyle|
      {
        var semi := IndexOf(p, ';');
        var s: string;
        PropsStep(parentStyle);
        if semi < |p| {
          s := Trim(p[..semi]);
          parentStyle := p[semi + 1..];
        } else {
          s := p;
          parentStyle := "";
        }
        p := Trim(parentStyle);
        if s != "" {
          MatchNext(want, seen, s, Props(parentStyle), Props(style));
          if kept + k < |currentStyles| && s == currentStyles[kept + k] {
            seen := seen + [s];
            k := k + 1;
          } else {
            k := -1;
          }
        }
      }
      if k >= 0 {
        NoProps(parentStyle);
        RemoveNone(seen, k);
      }
    }

    /** Keep the spans that match, leave the others, open one span for what is missing. */
    method AdjustStyle()
      requires Valid()
      modifies this`levels, this`adjustStyleNeeded
      ensures Valid() && !adjustStyleNeeded && levels == Adjusted(old(levels), currentStyles)
      ensures Before(levels) == Before(old(levels)) && After(levels) == After(old(levels))
      ensures Spell(levels) == currentStyles
    {
      hide Before, After, SpellTo, Kept, Join, Pop, SameSpans;
      adjustStyleNeeded := false;
      AdjustKeepsText(levels, currentStyles);
      AdjustSpells(levels, currentStyles);
      AdjustStyled(levels, currentStyles);
      var n, kept := KeepLevels();
      ghost var was := levels;
      while |levels| > n
        invariant n <= |levels| && PopTo(levels, n) == PopTo(was, n) && !adjustStyleNeeded
        decreases |levels|
      {
        PopStyle();
      }
      assert levels == PopTo(was, n);
      if kept < |currentStyles| {
        levels := levels + [Level("", Join(currentStyles[kept..]), [], [])];
      }
    }

    /** The loop over the parent styles, outermost first. */
    method KeepLevels() returns (n: nat, kept: nat)
      requires levels != []
      ensures n == Kept(levels, currentStyles, 1) && kept == |SpellTo(levels, n)| <= |currentStyles|
    {
      n, kept := 1, 0;
      assert SpellTo(levels, 1) == [];
      var more := n < |levels|;
      while more
        invariant 1 <= n <= |levels| && kept == |SpellTo(levels, n)| && SpellsFront(levels, currentStyles, n)
        invariant Kept(levels, currentStyles, 1) == if more then Kept(levels, currentStyles, n) else n
        invariant more ==> n < |levels|
        decreases |levels| - n, more
      {
        hide SpellTo, SpellsFront, GoesOn;
        more, kept := KeepNext(n, kept);
        if more {
          n := n + 1;
          more := n < |levels|;
        }
      }
    }

    method KeepNext(n: nat, kept: nat) returns (more: bool, kept': nat)
      requires 1 <= n < |levels| && kept == |SpellTo(levels, n)| && SpellsFront(levels, currentStyles, n)
      ensures more <==> GoesOn(levels, currentStyles, n)
      ensures if more then kept' == |SpellTo(levels, n + 1)|
              && SpellsFront(levels, currentStyles, n + 1) else kept' == kept
    {
      more, kept' := false, kept;
      KeepStep(levels, currentStyles, n);
      if kept < |currentStyles| {
        var k := MatchStyle(levels[n].style, kept);
        hide SpellTo, Props, Continues;
        if k >= 0 {
          more, kept' := true, kept + k;
        }
      }
    }
  }

  lemma AdjustStyled(levels: seq<Level>, current: seq<string>)
    requires levels != [] && AllClean(current) && forall i :: 1 <= i < |levels| ==> levels[i].style != ""
    ensures var once := Adjusted(levels, current);
            && once != [] && once[0].style == levels[0].style
            && forall i :: 1 <= i < |once| ==> once[i].style != ""
  {
    var n := Kept(levels, current, 1);
    var k := |SpellTo(levels, n)|;
    PopToKeeps(levels, n);
    if k < |current| {
      CleanTail(current, k);
      JoinEnds(current[k..]);
    }
  }

  /** The wanted styles from `kept` on begin with these properties. */
  predicate Continues(props: seq<string>, current: seq<string>, kept: nat)
    requires kept <= |current|
  {
    props <= current[kept..]
  }

  /** The first `n` levels spell the first wanted styles. */
  predicate SpellsFront(levels: seq<Level>, current: seq<string>, n: nat)
    requires n <= |levels|
    ensures SpellsFront(levels, current, n) ==> |SpellTo(levels, n)| <= |current|
  {
    SpellTo(levels, n) <= current
  }

  lemma KeepStep(levels: seq<Level>, current: seq<string>, n: nat)
    requires 1 <= n < |levels| && SpellsFront(levels, current, n)
    ensures var k, props := |SpellTo(levels, n)|, Props(levels[n].style);
            && |SpellTo(levels, n + 1)| == k + |props|
            && (SpellsFront(levels, current, n + 1) <==> Continues(props, current, k))
  {
    PrefixStep(SpellTo(levels, n), Props(levels[n].style), current);
  }

  lemma PrefixStep<T>(a: seq<T>, b: seq<T>, c: seq<T>)
    requires a <= c
    ensures a + b <= c <==> b <= c[|a|..]
  {
    if b <= c[|a|..] {
      assert forall i :: 0 <= i < |b| ==> (a + b)[|a| + i] == b[i] == c[|a|..][i] == c[|a| + i];
      assert forall i :: 0 <= i < |a + b| ==> (a + b)[i] == c[i];
    }
    if a + b <= c {
      assert forall i :: 0 <= i < |b| ==> b[i] == (a + b)[|a| + i] == c[|a| + i] == c[|a|..][i];
    }
  }

  lemma NoProps(style: string)
    requires Trim(style) == ""
    ensures Props(style) == []
  {
  }

  lemma PropsStep(style: string)
    requires Trim(style) != ""
    ensures var p := Trim(style);
            var semi := IndexOf(p, ';');
            var s := if semi < |p| then Trim(p[..semi]) else p;
            var rest := if semi < |p| then p[semi + 1..] else "";
            Props(style) == if s == "" then Props(rest) else [s] + Props(rest)
  {
    assert Props("") == [];
    var p := Trim(style);
    var semi := IndexOf(p, ';');
    if semi < |p| {
      assert [] + Props(p[semi + 1..]) == Props(p[semi + 1..]);
    }
  }

  lemma MatchNext(want: seq<string>, seen: seq<string>, s: string, rest: seq<string>, all: seq<string>)
    requires seen <= want && seen + ([s] + rest) == all
    ensures if |seen| < |want| && want[|seen|] == s then seen + [s] <= want && (seen + [s]) + rest == all
            else !(all <= want)
  {
    assert all[|seen|] == s;
    assert (seen + [s]) + rest == all;
  }
}
