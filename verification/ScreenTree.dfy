/** The walk of `moveTo` over the document tree: into the first child, on to the next sibling, or
    up to the next sibling of an ancestor, changing text nodes on the way. Its text and its count
    are those of the walk over the flat text. */
module ScreenTree {
  import opened ScreenText

  /*  Trees and places in them  */

  /** The elements around a place, innermost first, each with its siblings before and after. */
  datatype Ancestors = Outermost | Inside(left: seq<Dom>, right: seq<Dom>, up: Ancestors)

  /** A gap between two siblings: `outputContainer` with the nodes before and from `outputBefore`. */
  datatype Spot = Spot(left: seq<Dom>, right: seq<Dom>, up: Ancestors)

  function Flat(n: Dom): string
    decreases n, 1
  {
    match n
    case CursorNode => ""
    case TextNode(s) => s
    case BrNode => "\n"
    case SpanNode(kids) => FlatAll(kids)
  }

  function FlatAll(ns: seq<Dom>): string
    decreases ns, 0
  {
    if ns == [] then "" else Flat(ns[0]) + FlatAll(ns[1..])
  }

  function BeforeUp(up: Ancestors): string {
    match up
    case Outermost => ""
    case Inside(l, _, u) => BeforeUp(u) + FlatAll(l)
  }

  function AfterUp(up: Ancestors): string {
    match up
    case Outermost => ""
    case Inside(_, r, u) => FlatAll(r) + AfterUp(u)
  }

  function Before(s: Spot): string {
    BeforeUp(s.up) + FlatAll(s.left)
  }

  function Behind(s: Spot): string {
    FlatAll(s.right) + AfterUp(s.up)
  }

  /** The flat text and the offset of the place in it. */
  function Image(s: Spot): (d: Doc)
    ensures d.pos <= |d.text|
  {
    Doc(Before(s) + Behind(s), |Before(s)|)
  }

  /*  The outline of a tree: where elements begin and end, its breaks and its characters, but not how
      text is cut into nodes  */

  datatype Mark = Open | Close | Break | Caret | Letter(c: char)

  function Letters(s: string): (ms: seq<Mark>)
    ensures |ms| == |s|
  {
    seq(|s|, i requires 0 <= i < |s| => Letter(s[i]))
  }

  function Marks(n: Dom): seq<Mark>
    decreases n, 1
  {
    match n
    case CursorNode => [Caret]
    case TextNode(s) => Letters(s)
    case BrNode => [Break]
    case SpanNode(kids) => [Open] + MarksAll(kids) + [Close]
  }

  function MarksAll(ns: seq<Dom>): seq<Mark>
    decreases ns, 0
  {
    if ns == [] then [] else Marks(ns[0]) + MarksAll(ns[1..])
  }

  function AheadUp(up: Ancestors): seq<Mark> {
    match up
    case Outermost => []
    case Inside(l, _, u) => AheadUp(u) + MarksAll(l) + [Open]
  }

  function RestUp(up: Ancestors): seq<Mark> {
    match up
    case Outermost => []
    case Inside(_, r, u) => [Close] + MarksAll(r) + RestUp(u)
  }

  /** The outline before a place, and behind it. */
  function Ahead(s: Spot): seq<Mark> {
    AheadUp(s.up) + MarksAll(s.left)
  }

  function Rest(s: Spot): seq<Mark> {
    MarksAll(s.right) + RestUp(s.up)
  }

  function Outline(s: Spot): seq<Mark> {
    Ahead(s) + Rest(s)
  }

  /** The outline of `r` is `marks` with `fill` put in directly before the place; where anything is put
      in, a line or the document ends. */
  predicate Grown(marks: seq<Mark>, r: Spot, fill: string) {
    && |Rest(r)| <= |marks|
    && var k := |marks| - |Rest(r)|;
       && Rest(r) == marks[k..] && Ahead(r) == marks[..k] + Letters(fill)
       && (fill == "" || Rest(r) == [] || Rest(r)[0] == Break || Rest(r)[0] == Letter('\n'))
  }

  ghost predicate KeepsNodes(marks: seq<Mark>, r: Spot) {
    exists fill :: Grown(marks, r, fill)
  }

  lemma {:induction false} MarksAppend(a: seq<Dom>, b: seq<Dom>)
    ensures MarksAll(a + b) == MarksAll(a) + MarksAll(b)
  {
    if a == [] {
      assert a + b == b;
    } else {
      assert (a + b)[1..] == a[1..] + b;
      MarksAppend(a[1..], b);
    }
  }

  lemma MarksSnoc(ns: seq<Dom>, n: Dom)
    ensures MarksAll(ns + [n]) == MarksAll(ns) + Marks(n)
  {
    MarksAppend(ns, [n]);
    assert MarksAll([n][1..]) == [];
  }

  lemma MarksHead(ns: seq<Dom>)
    requires ns != []
    ensures MarksAll(ns) == Marks(ns[0]) + MarksAll(ns[1..])
  {
  }

  lemma TextMarks(a: string, b: string)
    ensures Marks(TextNode(a + b)) == Letters(a) + Letters(b)
  {
  }

  /** Nothing put in. */
  lemma StaysWhole(s: Spot)
    ensures KeepsNodes(Outline(s), s)
  {
    hide Ahead, Rest;
    assert Ahead(s) + Letters("") == Ahead(s);
    assert Grown(Outline(s), s, "");
  }

  lemma GrownAt(marks: seq<Mark>, ahead: seq<Mark>, r: Spot, fill: string)
    requires marks == ahead + Rest(r) && Ahead(r) == ahead + Letters(fill)
    requires fill == "" || Rest(r) == [] || Rest(r)[0] == Break || Rest(r)[0] == Letter('\n')
    ensures KeepsNodes(marks, r)
  {
    hide Ahead, Rest;
    assert Grown(marks, r, fill);
  }

  lemma PastMarks(s: Spot, left: seq<Dom>, front: string, n: Dom)
    requires s.right != [] && MarksAll(s.left) == MarksAll(left) + Letters(front)
    requires Marks(n) == Letters(front) + Marks(s.right[0])
    ensures Outline(Past(s, left, n)) == Outline(s)
  {
    hide MarksAll, Marks, Letters;
    MarksSnoc(left, n);
    MarksHead(s.right);
  }

  lemma PastSame(s: Spot)
    requires s.right != []
    ensures Outline(Past(s, s.left, s.right[0])) == Outline(s)
  {
    PastMarks(s, s.left, "", s.right[0]);
  }

  lemma LeaveMarks(s: Spot, r: Spot)
    requires s.right == [] && s.up.Inside? && r == Spot(s.up.left + [SpanNode(s.left)], s.up.right, s.up.up)
    ensures Outline(r) == Outline(s)
  {
    MarksSnoc(s.up.left, SpanNode(s.left));
    Leaving(AheadUp(s.up.up), MarksAll(s.up.left), MarksAll(s.left), MarksAll(s.up.right), RestUp(s.up.up));
  }

  lemma Leaving(h: seq<Mark>, a: seq<Mark>, k: seq<Mark>, b: seq<Mark>, c: seq<Mark>)
    ensures (h + (a + ([Open] + k + [Close]))) + (b + c) == ((h + a + [Open]) + k) + ([] + ([Close] + b + c))
  {
  }

  lemma EnterMarks(s: Spot, r: Spot)
    requires s.right != [] && s.right[0].SpanNode?
    requires r == Spot([], s.right[0].kids, Inside(s.left, s.right[1..], s.up))
    ensures Outline(r) == Outline(s)
  {
    MarksHead(s.right);
    Entering(AheadUp(s.up), MarksAll(s.left), MarksAll(s.right[0].kids), MarksAll(s.right[1..]), RestUp(s.up));
  }

  lemma Entering(h: seq<Mark>, a: seq<Mark>, k: seq<Mark>, b: seq<Mark>, c: seq<Mark>)
    ensures (h + a) + ((([Open] + k + [Close]) + b) + c) == ((h + a + [Open]) + []) + (k + ([Close] + b + c))
  {
  }

  /** The outline seen from home. */
  lemma {:induction false} TopMarks(up: Ancestors, ns: seq<Dom>)
    ensures MarksAll(TopOf(up, ns)) == AheadUp(up) + MarksAll(ns) + RestUp(up)
    decreases up
  {
    if up.Inside? {
      var l, r, n := up.left, up.right, SpanNode(ns);
      TopMarks(up.up, l + [n] + r);
      MarksAppend(l + [n], r);
      MarksSnoc(l, n);
      Raising(AheadUp(up.up), MarksAll(l), MarksAll(ns), MarksAll(r), RestUp(up.up));
      hide MarksAll;
    }
  }

  lemma Raising(h: seq<Mark>, a: seq<Mark>, k: seq<Mark>, b: seq<Mark>, c: seq<Mark>)
    ensures h + ((a + ([Open] + k + [Close])) + b) + c == (h + a + [Open]) + k + ([Close] + b + c)
  {
  }

  lemma HomeMarks(s: Spot)
    ensures Outline(HomeOf(s)) == Outline(s)
  {
    TopMarks(s.up, s.left + s.right);
    MarksAppend(s.left, s.right);
    Homing(AheadUp(s.up), MarksAll(s.left), MarksAll(s.right), RestUp(s.up));
    assert Ahead(HomeOf(s)) == [];
  }

  lemma Homing(h: seq<Mark>, a: seq<Mark>, b: seq<Mark>, c: seq<Mark>)
    ensures [] + ((h + (a + b) + c) + []) == (h + a) + (b + c)
  {
  }

  lemma {:induction false} FlatAppend(a: seq<Dom>, b: seq<Dom>)
    ensures FlatAll(a + b) == FlatAll(a) + FlatAll(b)
  {
    if a == [] {
      assert a + b == b;
    } else {
      assert (a + b)[1..] == a[1..] + b;
      FlatAppend(a[1..], b);
    }
  }

  lemma FlatOne(n: Dom)
    ensures FlatAll([n]) == Flat(n)
  {
    assert FlatAll([n][1..]) == "";
    assert Flat(n) + "" == Flat(n);
  }

  lemma FlatSnoc(ns: seq<Dom>, n: Dom)
    ensures FlatAll(ns + [n]) == FlatAll(ns) + Flat(n)
  {
    FlatAppend(ns, [n]);
    FlatOne(n);
  }

  lemma Assoc(a: string, b: string, c: string)
    ensures (a + b) + c == a + (b + c)
  {
  }

  /** The last leaf of the nodes has a character. */
  predicate Bears(n: Dom)
    decreases n, 1
  {
    match n
    case CursorNode => false
    case TextNode(s) => s != ""
    case BrNode => true
    case SpanNode(kids) => LastBears(kids)
  }

  predicate LastBears(ns: seq<Dom>)
    decreases ns, 0
  {
    ns != [] && (if |ns| == 1 then Bears(ns[0]) else LastBears(ns[1..]))
  }

  /** Whether the tree ends with a character, given whether the innermost element does. */
  predicate ClosedUp(up: Ancestors, inner: bool) {
    match up
    case Outermost => inner
    case Inside(_, r, u) => ClosedUp(u, if r == [] then inner else LastBears(r))
  }

  predicate Closed(s: Spot) {
    ClosedUp(s.up, LastBears(s.right))
  }

  lemma {:induction false} BearsHasText(ns: seq<Dom>)
    requires LastBears(ns)
    ensures FlatAll(ns) != ""
    decreases ns, 0
  {
    if |ns| == 1 {
      BearsText(ns[0]);
    } else {
      BearsHasText(ns[1..]);
    }
  }

  lemma {:induction false} BearsText(n: Dom)
    requires Bears(n)
    ensures Flat(n) != ""
    decreases n, 1
  {
    if n.SpanNode? {
      BearsHasText(n.kids);
    }
  }

  lemma {:induction false} ClosedHasMore(up: Ancestors, inner: bool, rest: string)
    requires ClosedUp(up, inner) && (inner ==> rest != "")
    ensures rest + AfterUp(up) != ""
    decreases up
  {
    if up.Inside? {
      if up.right != [] && LastBears(up.right) {
        BearsHasText(up.right);
      }
      if up.right == [] {
        ClosedHasMore(up.up, inner, rest);
      } else {
        ClosedHasMore(up.up, LastBears(up.right), FlatAll(up.right));
      }
    }
  }

  /** A closed tree has text behind every place that has nodes behind it. */
  lemma ClosedSpotHasMore(s: Spot)
    requires Closed(s)
    ensures Behind(s) != ""
  {
    if LastBears(s.right) {
      BearsHasText(s.right);
    }
    ClosedHasMore(s.up, LastBears(s.right), FlatAll(s.right));
  }

  /*  Sizes  */

  function Size(n: Dom): (k: nat)
    ensures k > 0
    decreases n, 1
  {
    if n.SpanNode? then 1 + SizeAll(n.kids) else 1
  }

  function SizeAll(ns: seq<Dom>): nat
    decreases ns, 0
  {
    if ns == [] then 0 else Size(ns[0]) + SizeAll(ns[1..])
  }

  function SizeUp(up: Ancestors): nat {
    match up
    case Outermost => 0
    case Inside(_, r, u) => SizeAll(r) + SizeUp(u)
  }

  function Remaining(s: Spot): nat {
    SizeAll(s.right) + SizeUp(s.up)
  }

  /*  Nodes without the cursor  */

  /** No cursor among the nodes, as when `moveTo` has taken the input line out. */
  predicate Free(n: Dom)
    decreases n, 1
  {
    match n
    case CursorNode => false
    case SpanNode(kids) => AllFree(kids)
    case _ => true
  }

  predicate AllFree(ns: seq<Dom>)
    decreases ns, 0
  {
    ns == [] || (Free(ns[0]) && AllFree(ns[1..]))
  }

  predicate FreeUp(up: Ancestors) {
    up.Outermost? || (AllFree(up.left) && AllFree(up.right) && FreeUp(up.up))
  }

  predicate FreeSpot(s: Spot) {
    AllFree(s.left) && AllFree(s.right) && FreeUp(s.up)
  }

  lemma {:induction false} FreeAppend(a: seq<Dom>, b: seq<Dom>)
    ensures AllFree(a + b) <==> AllFree(a) && AllFree(b)
  {
    if a == [] {
      assert a + b == b;
    } else {
      assert (a + b)[1..] == a[1..] + b;
      FreeAppend(a[1..], b);
    }
  }

  lemma FreeSnoc(ns: seq<Dom>, n: Dom)
    ensures AllFree(ns + [n]) <==> AllFree(ns) && Free(n)
  {
    FreeAppend(ns, [n]);
    assert AllFree([n][1..]);
  }

  /*  Steps of the walk  */

  /** Past the first node on the right. */
  function Past(s: Spot, left: seq<Dom>, n: Dom): Spot
    requires s.right != []
  {
    Spot(left + [n], s.right[1..], s.up)
  }

  /** Passing a node, whose text may have been merged with text before it. */
  lemma PastKeeps(s: Spot, left: seq<Dom>, front: string, n: Dom)
    requires s.right != [] && FlatAll(s.left) == FlatAll(left) + front && Flat(n) == front + Flat(s.right[0])
    ensures Before(Past(s, left, n)) == Before(s) + Flat(s.right[0])
    ensures Behind(s) == Flat(s.right[0]) + Behind(Past(s, left, n))
    ensures Image(Past(s, left, n)).text == Image(s).text
  {
    hide FlatAll, Flat;
    FlatSnoc(left, n);
    var cur, rest := Flat(s.right[0]), FlatAll(s.right[1..]);
    FlatHead(s.right);
    Assoc(cur, rest, AfterUp(s.up));
    Assoc(FlatAll(left), front, cur);
    Assoc(BeforeUp(s.up), FlatAll(s.left), cur);
    Assoc(Before(s), cur, Behind(Past(s, left, n)));
  }

  lemma FlatHead(ns: seq<Dom>)
    requires ns != []
    ensures FlatAll(ns) == Flat(ns[0]) + FlatAll(ns[1..])
  {
  }

  /** Out of the innermost elements that are used up: the place of the next node, if any. */
  method Climb(s: Spot) returns (r: Spot)
    requires s.right == []
    ensures Image(r) == Image(s) && Before(r) == Before(s) && Behind(r) == Behind(s)
    ensures Remaining(r) == Remaining(s) && Outline(r) == Outline(s)
    ensures r.right != [] ==> forall inner :: ClosedUp(s.up, inner) == Closed(r)
    ensures r.right == [] ==> r.up == Outermost && forall inner :: ClosedUp(s.up, inner) == inner
    ensures r.right == [] ==> Behind(r) == ""
    ensures FreeSpot(s) ==> FreeSpot(r)
  {
    hide Outline;
    r := s;
    while r.right == [] && r.up.Inside?
      invariant Before(r) == Before(s) && Behind(r) == Behind(s) && Remaining(r) == Remaining(s)
      invariant Outline(r) == Outline(s) && (FreeSpot(s) ==> FreeSpot(r))
      invariant if r.right != [] then forall inner :: ClosedUp(s.up, inner) == Closed(r)
                else forall inner :: ClosedUp(s.up, inner) == ClosedUp(r.up, inner)
      decreases r.up
    {
      ghost var was := r;
      r := Spot(r.up.left + [SpanNode(r.left)], r.up.right, r.up.up);
      LeaveKeeps(was, r);
      LeaveMarks(was, r);
    }
  }

  lemma LeaveKeeps(s: Spot, r: Spot)
    requires s.right == [] && s.up.Inside? && r == Spot(s.up.left + [SpanNode(s.left)], s.up.right, s.up.up)
    ensures Before(r) == Before(s) && Behind(r) == Behind(s) && Remaining(r) == Remaining(s)
    ensures FreeSpot(s) ==> FreeSpot(r)
  {
    FreeSnoc(s.up.left, SpanNode(s.left));
    FlatSnoc(s.up.left, SpanNode(s.left));
    Assoc(BeforeUp(s.up.up), FlatAll(s.up.left), FlatAll(s.left));
    assert "" + AfterUp(s.up) == AfterUp(s.up);
  }

  /** `appendText`. */
  method AppendText(ns: seq<Dom>, data: string) returns (r: seq<Dom>)
    ensures FlatAll(r) == FlatAll(ns) + data && MarksAll(r) == MarksAll(ns) + Letters(data)
    ensures AllFree(ns) ==> AllFree(r)
  {
    hide MarksAll, Letters;
    if data == "" {
      assert FlatAll(ns) + data == FlatAll(ns) && MarksAll(ns) + Letters(data) == MarksAll(ns);
      return ns;
    }
    if ns != [] && ns[|ns| - 1].TextNode? {
      var front, last := ns[..|ns| - 1], ns[|ns| - 1].text;
      assert ns == front + [ns[|ns| - 1]];
      FlatSnoc(front, TextNode(last));
      FreeSnoc(front, TextNode(last));
      FreeSnoc(front, TextNode(last + data));
      FlatSnoc(front, TextNode(last + data));
      Assoc(FlatAll(front), last, data);
      MarksSnoc(front, TextNode(last));
      MarksSnoc(front, TextNode(last + data));
      TextMarks(last, data);
      r := front + [TextNode(last + data)];
    } else {
      FlatSnoc(ns, TextNode(data));
      FreeSnoc(ns, TextNode(data));
      MarksSnoc(ns, TextNode(data));
      r := ns + [TextNode(data)];
    }
  }

  /** The text nodes directly before the current one are merged into it. */
  method MergeTexts(ns: seq<Dom>) returns (left: seq<Dom>, front: string)
    ensures FlatAll(ns) == FlatAll(left) + front && MarksAll(ns) == MarksAll(left) + Letters(front)
    ensures AllFree(ns) ==> AllFree(left)
  {
    hide MarksAll, Letters;
    left, front := ns, "";
    assert FlatAll(ns) + "" == FlatAll(ns) && MarksAll(ns) + Letters("") == MarksAll(ns);
    while left != [] && left[|left| - 1].TextNode?
      invariant FlatAll(ns) == FlatAll(left) + front && MarksAll(ns) == MarksAll(left) + Letters(front)
      invariant AllFree(ns) ==> AllFree(left)
      decreases |left|
    {
      var n, t := |left| - 1, left[|left| - 1].text;
      assert left == left[..n] + [left[n]];
      FlatSnoc(left[..n], left[n]);
      FreeSnoc(left[..n], left[n]);
      Assoc(FlatAll(left[..n]), t, front);
      MarksSnoc(left[..n], left[n]);
      TextMarks(t, front);
      front := t + front;
      left := left[..n];
    }
  }

  datatype Scan = Through | Split(at: nat) | Pad(at: nat)

  /** The loop over the characters of a text node: through, or up to the goal, or up to a line
      break in the goal line. `before` and `behind` are the text around the node. */
  method ScanText(w: Width, s: string, p: Place, gl: int, gc: int,
                  ghost before: string, ghost behind: string, ghost closed: bool)
      returns (r: Scan, q: Place)
    requires p.line < gl || p.col < gc
    ensures match r
            case Through => s != "" ==> CountThrough(w, before, s, behind, p, q, gl, gc, closed)
            case Split(i) => i < |s| && !(q.line < gl || q.col < gc)
            case Pad(i) => i < |s| && s[i] == '\n' && q.line == gl && q.col < gc
    ensures r.Through? && s == "" ==> q == p
    ensures var i := if r.Through? then |s| else r.at;
            WalkOn(w, before, s, behind, p, i, q, gl, gc)
    ensures !r.Through? ==>
              CountTo(w, before, s, behind, p, r.at, q, gl, gc, closed)
  {
    ghost var text := before + s + behind;
    var i, at := 0, p;
    while i < |s|
      invariant 0 <= i <= |s| && WalkOn(w, before, s, behind, p, i, at, gl, gc)
      invariant i == 0 ==> at == p
      invariant i < |s| || i == 0 ==> CountTo(w, before, s, behind, p, i, at, gl, gc, closed)
      invariant i == |s| > 0 ==> CountThrough(w, before, s, behind, p, at, gl, gc, closed)
    {
      assert text[|before| + i] == s[i];
      if !(at.line < gl || at.col < gc) {
        return Split(i), at;
      }
      if s[i] == '\n' && at.line == gl {
        return Pad(i), at;
      }
      at := Next(w, at, s[i]);
      i := i + 1;
    }
    return Through, at;
  }

  /** Walking over the first `i` characters of `s` leads from `p` to `q`. */
  ghost predicate WalkOn(w: Width, before: string, s: string, behind: string, p: Place, i: nat, q: Place,
                         gl: int, gc: int) {
    && i <= |s|
    && var text := before + s + behind;
       Walk(w, text, |before|, p, gl, gc) == Walk(w, text, |before| + i, q, gl, gc)
  }

  ghost predicate CountTo(w: Width, before: string, s: string, behind: string, p: Place, i: nat, q: Place,
                           gl: int, gc: int, closed: bool) {
    && i <= |s|
    && var text := before + s + behind;
       Counted(w, text, |before|, p, gl, gc, closed) == Counted(w, text, |before| + i, q, gl, gc, closed)
  }

  /** The count over all of `s`: done when a closed document ends there. */
  ghost predicate CountThrough(w: Width, before: string, s: string, behind: string, p: Place, q: Place,
                          gl: int, gc: int, closed: bool) {
    var text := before + s + behind;
    if closed && behind == "" then Counted(w, text, |before|, p, gl, gc, closed) == (gl, gc)
    else CountTo(w, before, s, behind, p, |s|, q, gl, gc, closed)
  }

  /*  The walk  */

  function WalkFrom(w: Width, s: Spot, p: Place, gl: int, gc: int): Doc {
    Walk(w, Image(s).text, Image(s).pos, p, gl, gc)
  }

  function CountFrom(w: Width, s: Spot, p: Place, gl: int, gc: int): (int, int) {
    Counted(w, Image(s).text, Image(s).pos, p, gl, gc, Closed(s))
  }

  predicate Short(p: Place, gl: int, gc: int) {
    p.line < gl || p.col < gc
  }

  /** From `s` and `p` the walk passes one node without text below it, to `r` and `q`. */
  ghost predicate Passes(w: Width, s: Spot, p: Place, r: Spot, q: Place, gl: int, gc: int) {
    && s.right != [] && r.right == s.right[1..] && r.up == s.up && Image(r).text == Image(s).text
    && Behind(s) == Flat(s.right[0]) + Behind(r)
    && (Flat(s.right[0]) == "" || Bears(s.right[0]))
    && WalkFrom(w, s, p, gl, gc) == WalkFrom(w, r, q, gl, gc)
    && if Closed(s) && Behind(r) == "" && Flat(s.right[0]) != "" then CountFrom(w, s, p, gl, gc) == (gl, gc)
       else CountFrom(w, s, p, gl, gc) == Counted(w, Image(r).text, Image(r).pos, q, gl, gc, Closed(s))
  }

  /** A node without text. */
  lemma PassEmpty(w: Width, s: Spot, p: Place, gl: int, gc: int)
    requires s.right != [] && Flat(s.right[0]) == ""
    ensures Passes(w, s, p, Past(s, s.left, s.right[0]), p, gl, gc)
  {
    assert FlatAll(s.left) + "" == FlatAll(s.left);
    PastKeeps(s, s.left, "", s.right[0]);
    assert Before(s) + "" == Before(s);
  }

  /** A line break above the goal line. */
  lemma PassBreak(w: Width, s: Spot, p: Place, gl: int, gc: int)
    requires s.right != [] && s.right[0] == BrNode && Short(p, gl, gc) && p.line != gl
    ensures Passes(w, s, p, Past(s, s.left, BrNode), Place(p.line + 1, 0), gl, gc)
  {
    assert FlatAll(s.left) + "" == FlatAll(s.left) && "" + "\n" == "\n";
    PastKeeps(s, s.left, "", BrNode);
    var r := Past(s, s.left, BrNode);
    assert Image(s).text[Image(s).pos] == '\n';
    assert Image(r).pos == Image(s).pos + 1;
    assert Behind(r) == "" <==> Image(s).pos + 1 == |Image(s).text|;
  }

  /** A text node that was scanned through. */
  lemma PassText(w: Width, s: Spot, p: Place, left: seq<Dom>, front: string, q: Place, gl: int, gc: int)
    requires s.right != [] && s.right[0].TextNode? && FlatAll(s.left) == FlatAll(left) + front
    requires var t := s.right[0].text; var r := Past(s, left, TextNode(front + t));
             && WalkOn(w, Before(s), t, Behind(r), p, |t|, q, gl, gc)
             && (if t == "" then q == p else CountThrough(w, Before(s), t, Behind(r), p, q, gl, gc, Closed(s)))
    ensures Passes(w, s, p, Past(s, left, TextNode(front + s.right[0].text)), q, gl, gc)
  {
    var t := s.right[0].text;
    var r := Past(s, left, TextNode(front + t));
    PastKeeps(s, left, front, TextNode(front + t));
    Assoc(Before(s), t, Behind(r));
    if t == "" {
      assert Before(s) + t == Before(s);
    }
  }

  /** Where nothing is left, the goal is taken for reached. */
  lemma CountAtEnd(w: Width, s: Spot, p: Place, gl: int, gc: int)
    requires Behind(s) == "" && Short(p, gl, gc)
    ensures CountFrom(w, s, p, gl, gc) == (gl, gc)
  {
    assert Before(s) + "" == Before(s);
  }

  /** Passing a node and arriving at another one. */
  lemma ArriveKeeps(w: Width, s: Spot, p: Place, past: Spot, q: Place, r: Spot, gl: int, gc: int)
    requires Passes(w, s, p, past, q, gl, gc) && r.right != []
    requires Image(r) == Image(past) && Behind(r) == Behind(past)
    requires if past.right != [] then r == past else forall inner :: ClosedUp(past.up, inner) == Closed(r)
    ensures WalkFrom(w, r, q, gl, gc) == WalkFrom(w, s, p, gl, gc)
    ensures CountFrom(w, r, q, gl, gc) == CountFrom(w, s, p, gl, gc)
  {
    assert Closed(r) == Closed(s);
    if Closed(r) {
      ClosedSpotHasMore(r);
    }
  }

  /** Passing the last node. */
  lemma LastKeeps(w: Width, s: Spot, p: Place, past: Spot, q: Place, gl: int, gc: int)
    requires Passes(w, s, p, past, q, gl, gc) && past.right == [] && Behind(past) == "" && Short(p, gl, gc)
    requires forall inner :: ClosedUp(past.up, inner) == inner
    ensures CountFrom(w, s, p, gl, gc) == (gl, gc)
  {
    if Flat(s.right[0]) == "" {
      assert Behind(s) == "";
      CountAtEnd(w, s, p, gl, gc);
    } else {
      assert |s.right| == 1;
      assert LastBears(s.right);
    }
  }

  /** Into an element. */
  lemma EnterKeeps(s: Spot, r: Spot)
    requires s.right != [] && s.right[0].SpanNode? && s.right[0].kids != []
    requires r == Spot([], s.right[0].kids, Inside(s.left, s.right[1..], s.up))
    ensures Image(r) == Image(s) && Closed(r) == Closed(s) && Remaining(r) < Remaining(s)
    ensures FreeSpot(s) ==> FreeSpot(r)
  {
    var kids, rest := s.right[0].kids, s.right[1..];
    assert Before(r) == Before(s) + "" == Before(s);
    FlatHead(s.right);
    Assoc(FlatAll(kids), FlatAll(rest), AfterUp(s.up));
    assert AllFree(s.right) ==> Free(s.right[0]) && AllFree(kids) && AllFree(rest);
    assert SizeAll(s.right) == Size(s.right[0]) + SizeAll(rest) && Size(s.right[0]) == 1 + SizeAll(kids);
    if rest == [] {
      assert |s.right| == 1;
      assert LastBears(s.right) == LastBears(kids);
    } else {
      assert LastBears(s.right) == LastBears(rest);
    }
  }

  /** The end of the document: what is missing is appended. */
  method Append(w: Width, s: Spot, p: Place, gl: int, gc: int) returns (r: Spot)
    requires s.right == [] && s.up == Outermost && Behind(s) == ""
    ensures Image(r) == WalkFrom(w, s, p, gl, gc) && KeepsNodes(Outline(s), r)
    ensures FreeSpot(s) ==> FreeSpot(r)
  {
    hide Letters, MarksAll, KeepsNodes;
    var left := s.left;
    ghost var lines, blanks := "", "";
    if p.line < gl {
      lines := Repeat('\n', gl - p.line);
      left := AppendText(left, Repeat('\n', gl - p.line));
    }
    if p.col < gc {
      blanks := Repeat(' ', gc - p.col);
      left := AppendText(left, Repeat(' ', gc - p.col));
    }
    r := Spot(left, [], Outermost);
    AppendKeeps(w, s, r, p, gl, gc);
    AppendMarks(s, r, lines, blanks);
  }

  lemma AppendMarks(s: Spot, r: Spot, lines: string, blanks: string)
    requires s.right == [] && s.up == Outermost && r.right == [] && r.up == Outermost
    requires MarksAll(r.left) == MarksAll(s.left) + Letters(lines) + Letters(blanks)
    ensures KeepsNodes(Outline(s), r)
  {
    TextMarks(lines, blanks);
    assert Rest(r) == [] && Outline(s) == MarksAll(s.left) + [];
    hide MarksAll;
    GrownAt(Outline(s), MarksAll(s.left), r, lines + blanks);
  }

  lemma AppendKeeps(w: Width, s: Spot, r: Spot, p: Place, gl: int, gc: int)
    requires s.right == [] && s.up == Outermost && r.right == [] && r.up == Outermost
    requires var a := if p.line < gl then FlatAll(s.left) + Repeat('\n', gl - p.line) else FlatAll(s.left);
             FlatAll(r.left) == if p.col < gc then a + Repeat(' ', gc - p.col) else a
    ensures Image(r) == WalkFrom(w, s, p, gl, gc)
  {
    hide FlatAll;
    var text, fill := FlatAll(s.left), Filling(p, gl, gc);
    AppendFilling(text, p, gl, gc);
    Alone(s);
    Alone(r);
    assert Image(s) == Doc(text, |text|);
    if Short(p, gl, gc) {
      assert Image(r) == Doc(text + fill, |text + fill|);
    }
  }

  lemma Alone(s: Spot)
    requires s.right == [] && s.up == Outermost
    ensures Image(s) == Doc(FlatAll(s.left), |FlatAll(s.left)|)
  {
    var text := FlatAll(s.left);
    assert Before(s) == "" + text == text && Behind(s) == "" && text + "" == text;
  }

  lemma AppendFilling(text: string, p: Place, gl: int, gc: int)
    ensures var a := if p.line < gl then text + Repeat('\n', gl - p.line) else text;
            (if p.col < gc then a + Repeat(' ', gc - p.col) else a) == text + Filling(p, gl, gc)
  {
    Assoc(text, Repeat('\n', Positive(gl - p.line)), Repeat(' ', Positive(gc - p.col)));
    assert text + "" == text;
  }

  /** A stop in front of a line break of the goal line: blanks come in. */
  lemma PadKeeps(w: Width, before: string, t: string, behind: string, p: Place, gl: int, gc: int)
    requires t != "" && t[0] == '\n' && p.line == gl && p.col < gc
    ensures var spaces := Repeat(' ', gc - p.col);
            Walk(w, before + (t + behind), |before|, p, gl, gc)
            == Doc((before + spaces) + (t + behind), |before + spaces|)
    ensures forall closed :: Counted(w, before + (t + behind), |before|, p, gl, gc, closed) == (gl, gc)
  {
    var text := before + (t + behind);
    assert text[|before|] == '\n' && text[..|before|] == before && text[|before|..] == t + behind;
  }

  /** `moveTo` on the tree, from any place counted as `p0`: the text of the new tree, the cursor in
      it and the remembered place are those of the walk over the flat text. */
  method MoveIn(w: Width, start: Spot, p0: Place, gl: int, gc: int) returns (r: Spot, l: int, c: int)
    ensures Image(r) == WalkFrom(w, start, p0, gl, gc)
    ensures (l, c) == CountFrom(w, start, p0, gl, gc)
    ensures KeepsNodes(Outline(start), r) && (FreeSpot(start) ==> FreeSpot(r))
  {
    hide Walk, Counted, Image, Behind, Before, Closed, Remaining, KeepsNodes, Outline;
    var s, p := start, p0;
    while p.line < gl || p.col < gc
      invariant WalkFrom(w, s, p, gl, gc) == WalkFrom(w, start, p0, gl, gc)
      invariant CountFrom(w, s, p, gl, gc) == CountFrom(w, start, p0, gl, gc)
      invariant Outline(s) == Outline(start) && (FreeSpot(start) ==> FreeSpot(s))
      decreases Remaining(s), |s.right| == 0
    {
      var next, q, state := Turn(w, s, p, gl, gc);
      if state == Done {
        return next, gl, gc;
      }
      if state == Stopped {
        return next, q.line, q.col;
      }
      s, p := next, q;
    }
    StopKeeps(w, s, p, gl, gc);
    StaysWhole(s);
    r, l, c := s, p.line, p.col;
  }

  lemma StopKeeps(w: Width, s: Spot, p: Place, gl: int, gc: int)
    requires !Short(p, gl, gc)
    ensures WalkFrom(w, s, p, gl, gc) == Image(s) && CountFrom(w, s, p, gl, gc) == (p.line, p.col)
  {
  }

  datatype State = GoesOn | Stopped | Done

  /** One turn of the main loop. */
  method Turn(w: Width, s: Spot, p: Place, gl: int, gc: int) returns (r: Spot, q: Place, state: State)
    requires p.line < gl || p.col < gc
    ensures state == GoesOn ==>
              && WalkFrom(w, r, q, gl, gc) == WalkFrom(w, s, p, gl, gc)
              && CountFrom(w, r, q, gl, gc) == CountFrom(w, s, p, gl, gc)
              && (Remaining(r) < Remaining(s) || (Remaining(r) == Remaining(s) && s.right == [] != r.right))
    ensures state != GoesOn ==> Image(r) == WalkFrom(w, s, p, gl, gc)
    ensures state == Stopped ==> CountFrom(w, s, p, gl, gc) == (q.line, q.col)
    ensures state == Done ==> CountFrom(w, s, p, gl, gc) == (gl, gc)
    ensures if state == GoesOn then Outline(r) == Outline(s) else KeepsNodes(Outline(s), r)
    ensures FreeSpot(s) ==> FreeSpot(r)
  {
    hide Walk, Counted, Image, Behind, Before, Closed, Remaining, KeepsNodes, Outline;
    if s.right == [] {
      r := Climb(s);
      q, state := p, GoesOn;
      if r.right == [] {
        CountAtEnd(w, s, p, gl, gc);
        r := Append(w, r, p, gl, gc);
        state := Done;
      } else {
        ClosedEmpty(s, r);
      }
      return;
    }
    if s.right[0].SpanNode? && s.right[0].kids != [] {
      r, q, state := Spot([], s.right[0].kids, Inside(s.left, s.right[1..], s.up)), p, GoesOn;
      EnterKeeps(s, r);
      EnterMarks(s, r);
      return;
    }
    var past;
    past, q, state := Leaf(w, s, p, gl, gc);
    if state != GoesOn {
      return past, q, state;
    }
    SizePast(s, past);
    if past.right != [] {
      ArriveKeeps(w, s, p, past, q, past, gl, gc);
      return past, q, GoesOn;
    }
    r := Climb(past);
    if r.right != [] {
      ArriveKeeps(w, s, p, past, q, r, gl, gc);
    } else {
      LastKeeps(w, s, p, past, q, gl, gc);
      r := Append(w, r, q, gl, gc);
      state := Done;
    }
  }

  lemma ClosedEmpty(s: Spot, r: Spot)
    requires s.right == [] && forall inner :: ClosedUp(s.up, inner) == Closed(r)
    ensures Closed(s) == Closed(r)
  {
  }

  lemma SizePast(s: Spot, past: Spot)
    requires s.right != [] && past.right == s.right[1..] && past.up == s.up
    ensures Remaining(past) < Remaining(s)
  {
  }

  /** The current node, which has no children: passed, or stopped at. */
  method Leaf(w: Width, s: Spot, p: Place, gl: int, gc: int) returns (r: Spot, q: Place, state: State)
    requires (p.line < gl || p.col < gc) && s.right != []
    requires s.right[0].SpanNode? ==> s.right[0].kids == []
    ensures state == GoesOn ==> Passes(w, s, p, r, q, gl, gc)
    ensures state != GoesOn ==> Image(r) == WalkFrom(w, s, p, gl, gc)
    ensures state == Stopped ==> CountFrom(w, s, p, gl, gc) == (q.line, q.col)
    ensures state == Done ==> CountFrom(w, s, p, gl, gc) == (gl, gc)
    ensures if state == GoesOn then Outline(r) == Outline(s) else KeepsNodes(Outline(s), r)
    ensures FreeSpot(s) ==> FreeSpot(r)
  {
    hide Walk, Counted, Image, Behind, Before, Closed, Passes, KeepsNodes, Outline;
    PastSame(s);
    match s.right[0] {
      case BrNode =>
        if p.line == gl {
          r := PadBreak(w, s, p, gl, gc);
          q, state := p, Done;
        } else {
          PassBreak(w, s, p, gl, gc);
          FreeSnoc(s.left, BrNode);
          r, q, state := Past(s, s.left, BrNode), Place(p.line + 1, 0), GoesOn;
        }
      case TextNode(t) =>
        r, q, state := TextLeaf(w, s, p, t, gl, gc);
      case SpanNode(_) =>
        PassEmpty(w, s, p, gl, gc);
        FreeSnoc(s.left, s.right[0]);
        r, q, state := Past(s, s.left, s.right[0]), p, GoesOn;
      case CursorNode =>
        PassEmpty(w, s, p, gl, gc);
        FreeSnoc(s.left, s.right[0]);
        r, q, state := Past(s, s.left, s.right[0]), p, GoesOn;
    }
  }

  /** A `br` that ends the goal line too early: blanks go into the text before it. */
  method PadBreak(w: Width, s: Spot, p: Place, gl: int, gc: int) returns (r: Spot)
    requires s.right != [] && s.right[0] == BrNode && p.line == gl && p.col < gc
    ensures Image(r) == WalkFrom(w, s, p, gl, gc) && CountFrom(w, s, p, gl, gc) == (gl, gc)
    ensures KeepsNodes(Outline(s), r) && (FreeSpot(s) ==> FreeSpot(r))
  {
    hide KeepsNodes, MarksAll, Letters;
    var spaces := Repeat(' ', gc - p.col);
    var left := AppendText(s.left, spaces);
    r := Spot(left, s.right, s.up);
    hide Walk, Counted, FlatAll;
    BreakAhead(s);
    PadKeeps(w, Before(s), "\n", FlatAll(s.right[1..]) + AfterUp(s.up), p, gl, gc);
    Assoc(BeforeUp(s.up), FlatAll(s.left), spaces);
    PadMarks(s, r, spaces);
  }

  lemma PadMarks(s: Spot, r: Spot, spaces: string)
    requires s.right != [] && s.right[0] == BrNode && r.right == s.right && r.up == s.up
    requires MarksAll(r.left) == MarksAll(s.left) + Letters(spaces)
    ensures KeepsNodes(Outline(s), r)
  {
    MarksHead(s.right);
    assert Rest(r) == Rest(s) && Rest(r)[0] == Break;
    hide MarksAll, Letters, Rest;
    assert AheadUp(s.up) + (MarksAll(s.left) + Letters(spaces)) == Ahead(s) + Letters(spaces);
    GrownAt(Outline(s), Ahead(s), r, spaces);
  }

  lemma BreakAhead(s: Spot)
    requires s.right != [] && s.right[0] == BrNode
    ensures Behind(s) == "\n" + (FlatAll(s.right[1..]) + AfterUp(s.up))
  {
    FlatHead(s.right);
    Assoc("\n", FlatAll(s.right[1..]), AfterUp(s.up));
  }

  /** A text node, merged with the text before it, scanned, and split where the walk stops. */
  method TextLeaf(w: Width, s: Spot, p: Place, t: string, gl: int, gc: int) returns (r: Spot, q: Place, state: State)
    requires (p.line < gl || p.col < gc) && s.right != [] && s.right[0] == TextNode(t)
    ensures state == GoesOn ==> Passes(w, s, p, r, q, gl, gc)
    ensures state != GoesOn ==> Image(r) == WalkFrom(w, s, p, gl, gc)
    ensures state == Stopped ==> CountFrom(w, s, p, gl, gc) == (q.line, q.col)
    ensures state == Done ==> CountFrom(w, s, p, gl, gc) == (gl, gc)
    ensures if state == GoesOn then Outline(r) == Outline(s) else KeepsNodes(Outline(s), r)
    ensures FreeSpot(s) ==> FreeSpot(r)
  {
    hide Walk, Counted, Image, Behind, Before, Closed, Passes, FlatAll, KeepsNodes, Outline, MarksAll, Letters;
    var left, front := MergeTexts(s.left);
    ghost var past := Past(s, left, TextNode(front + t));
    var scan;
    scan, q := ScanText(w, t, p, gl, gc, Before(s), Behind(past), Closed(s));
    match scan {
      case Through =>
        PassText(w, s, p, left, front, q, gl, gc);
        FreeSnoc(left, TextNode(front + t));
        TextMarks(front, t);
        PastMarks(s, left, front, TextNode(front + t));
        r, state := Past(s, left, TextNode(front + t)), GoesOn;
      case Split(i) =>
        r := Spot(left + [TextNode(front + t[..i])], [TextNode(t[i..])] + s.right[1..], s.up);
        state := Stopped;
        assert t[..i] + "" == t[..i];
        FreeSnoc(left, TextNode(front + t[..i]));
        FreeAppend([TextNode(t[i..])], s.right[1..]);
        SplitKeeps(w, s, p, left, front, i, "", q, gl, gc);
        SplitMarks(s, left, front, i, "");
      case Pad(i) =>
        var spaces := Repeat(' ', gc - q.col);
        r := Spot(left + [TextNode(front + (t[..i] + spaces))], [TextNode(t[i..])] + s.right[1..], s.up);
        state := Done;
        FreeSnoc(left, TextNode(front + (t[..i] + spaces)));
        FreeAppend([TextNode(t[i..])], s.right[1..]);
        SplitKeeps(w, s, p, left, front, i, spaces, q, gl, gc);
        SplitMarks(s, left, front, i, spaces);
    }
  }

  lemma SplitMarks(s: Spot, left: seq<Dom>, front: string, i: nat, pad: string)
    requires s.right != [] && s.right[0].TextNode? && i < |s.right[0].text|
    requires MarksAll(s.left) == MarksAll(left) + Letters(front) && (pad == "" || s.right[0].text[i] == '\n')
    ensures var t := s.right[0].text;
            var r := Spot(left + [TextNode(front + (t[..i] + pad))], [TextNode(t[i..])] + s.right[1..], s.up);
            KeepsNodes(Outline(s), r)
  {
    var t, rest := s.right[0].text, s.right[1..];
    var r := Spot(left + [TextNode(front + (t[..i] + pad))], [TextNode(t[i..])] + rest, s.up);
    MarksSnoc(left, TextNode(front + (t[..i] + pad)));
    TextMarks(front, t[..i] + pad);
    TextMarks(t[..i], pad);
    TextMarks(t[..i], t[i..]);
    assert t[..i] + t[i..] == t;
    MarksHead(s.right);
    MarksHead(r.right);
    assert r.right[1..] == rest;
    assert Letters(t[i..])[0] == Letter(t[i]);
    var a, b := Letters(t[..i]), Letters(t[i..]);
    assert Rest(r)[0] == Letter(t[i]);
    Splitting(AheadUp(s.up), MarksAll(left), Letters(front), a, Letters(pad));
    Splitting(Ahead(s), a, b, MarksAll(rest), RestUp(s.up));
    hide MarksAll, Letters, AheadUp, RestUp;
    GrownAt(Outline(s), Ahead(s) + a, r, pad);
  }

  lemma Splitting(a: seq<Mark>, b: seq<Mark>, c: seq<Mark>, d: seq<Mark>, e: seq<Mark>)
    ensures a + (b + (c + (d + e))) == ((a + (b + c)) + d) + e
    ensures a + (((b + c) + d) + e) == (a + b) + ((c + d) + e)
  {
  }

  /** The text around a split, with `pad` put in. */
  lemma SplitImage(s: Spot, left: seq<Dom>, front: string, i: nat, pad: string)
    requires s.right != [] && s.right[0].TextNode? && i <= |s.right[0].text|
    requires FlatAll(s.left) == FlatAll(left) + front
    ensures var t, behind := s.right[0].text, FlatAll(s.right[1..]) + AfterUp(s.up);
            var r := Spot(left + [TextNode(front + (t[..i] + pad))], [TextNode(t[i..])] + s.right[1..], s.up);
            && Image(r) == Doc((Before(s) + t[..i] + pad) + (t[i..] + behind), |Before(s) + t[..i] + pad|)
            && Image(s) == Doc((Before(s) + t[..i]) + (t[i..] + behind), |Before(s)|)
            && Image(s).text == Before(s) + t + behind
  {
    hide FlatAll;
    var t, rest := s.right[0].text, s.right[1..];
    var behind := FlatAll(rest) + AfterUp(s.up);
    var r := Spot(left + [TextNode(front + (t[..i] + pad))], [TextNode(t[i..])] + rest, s.up);
    FlatSnoc(left, TextNode(front + (t[..i] + pad)));
    FlatHead(r.right);
    assert r.right[1..] == rest;
    FlatHead(s.right);
    Joined(BeforeUp(s.up), FlatAll(left), front, t[..i], pad);
    Assoc(t[i..], FlatAll(rest), AfterUp(s.up));
    Assoc(t, FlatAll(rest), AfterUp(s.up));
    Assoc(Before(s), t, behind);
    Assoc(t[..i], t[i..], behind);
    Assoc(Before(s), t[..i], t[i..] + behind);
    assert t[..i] + t[i..] == t;
  }

  lemma Joined(a: string, b: string, c: string, d: string, e: string)
    ensures a + (b + (c + (d + e))) == (a + (b + c)) + d + e
  {
  }

  lemma SplitKeeps(w: Width, s: Spot, p: Place, left: seq<Dom>, front: string, i: nat, pad: string, q: Place,
                   gl: int, gc: int)
    requires s.right != [] && s.right[0].TextNode? && FlatAll(s.left) == FlatAll(left) + front
    requires i < |s.right[0].text|
    requires var t, past := s.right[0].text, Past(s, left, TextNode(front + s.right[0].text));
             && WalkOn(w, Before(s), t, Behind(past), p, i, q, gl, gc)
             && CountTo(w, Before(s), t, Behind(past), p, i, q, gl, gc, Closed(s))
             && if pad == "" then !Short(q, gl, gc)
                else t[i] == '\n' && q.line == gl && q.col < gc && pad == Repeat(' ', gc - q.col)
    ensures var t := s.right[0].text;
            var r := Spot(left + [TextNode(front + (t[..i] + pad))], [TextNode(t[i..])] + s.right[1..], s.up);
            && Image(r) == WalkFrom(w, s, p, gl, gc)
            && CountFrom(w, s, p, gl, gc) == if pad == "" then (q.line, q.col) else (gl, gc)
  {
    var t, behind := s.right[0].text, FlatAll(s.right[1..]) + AfterUp(s.up);
    SplitImage(s, left, front, i, pad);
    hide FlatAll, Image, Before;
    if pad == "" {
      assert Before(s) + t[..i] + pad == Before(s) + t[..i];
      assert Image(s).text == Before(s) + t + behind;
    } else {
      PadKeeps(w, Before(s) + t[..i], t[i..], behind, q, gl, gc);
    }
  }

  /*  The tree with the cursor in it  */

  /** The element that holds everything, with a node at the place. */
  function Root(up: Ancestors, n: Dom): Dom {
    match up
    case Outermost => n
    case Inside(l, r, u) => Root(u, SpanNode(l + [n] + r))
  }

  function WithCursor(s: Spot): Dom {
    Root(s.up, SpanNode(s.left + [CursorNode] + s.right))
  }

  lemma {:induction false} FreeText(n: Dom)
    requires Free(n)
    ensures TextBefore(n) == (Flat(n), false)
    decreases n, 1
  {
    if n.SpanNode? {
      AllFreeText(n.kids);
    }
  }

  lemma {:induction false} AllFreeText(ns: seq<Dom>)
    requires AllFree(ns)
    ensures TextBeforeAll(ns) == (FlatAll(ns), false)
    decreases ns, 0
  {
    if ns != [] {
      FreeText(ns[0]);
      AllFreeText(ns[1..]);
    }
  }

  /** The text up to a node that holds the cursor. */
  lemma {:induction false} TextUpTo(ls: seq<Dom>, n: Dom, rs: seq<Dom>, t: string)
    requires AllFree(ls) && TextBefore(n) == (t, true)
    ensures TextBefore(SpanNode(ls + [n] + rs)) == (FlatAll(ls) + t, true)
  {
    var ns := ls + [n] + rs;
    if ls == [] {
      assert ns[0] == n;
      assert "" + t == t;
    } else {
      FreeText(ls[0]);
      assert ns[0] == ls[0] && ns[1..] == ls[1..] + [n] + rs;
      TextUpTo(ls[1..], n, rs, t);
      Assoc(Flat(ls[0]), FlatAll(ls[1..]), t);
    }
  }

  lemma {:induction false} TextBeforeRoot(up: Ancestors, n: Dom, t: string)
    requires FreeUp(up) && TextBefore(n) == (t, true)
    ensures TextBefore(Root(up, n)) == (BeforeUp(up) + t, true)
    decreases up
  {
    match up
    case Outermost =>
      assert "" + t == t;
    case Inside(l, r, u) =>
      TextUpTo(l, n, r, t);
      TextBeforeRoot(u, SpanNode(l + [n] + r), FlatAll(l) + t);
      Assoc(BeforeUp(u), FlatAll(l), t);
  }

  /** `delta2D` over the tree measures the place of the cursor in the flat text. */
  lemma DeltaAtCursor(w: Width, s: Spot)
    requires FreeSpot(s)
    ensures Delta2D(w, WithCursor(s), Home) == (PlaceOf(w, Image(s).text, Image(s).pos), true)
  {
    TextUpTo(s.left, CursorNode, s.right, "");
    var t := FlatAll(s.left) + "";
    assert t == FlatAll(s.left);
    TextBeforeRoot(s.up, SpanNode(s.left + [CursorNode] + s.right), t);
    DeltaMeasures(w, WithCursor(s), Home);
    assert Image(s).text[..Image(s).pos] == Before(s);
  }

  /*  `moveTo` from the cursor  */

  function TopOf(up: Ancestors, ns: seq<Dom>): seq<Dom> {
    match up
    case Outermost => ns
    case Inside(l, r, u) => TopOf(u, l + [SpanNode(ns)] + r)
  }

  /** In front of everything. */
  function HomeOf(s: Spot): Spot {
    Spot([], TopOf(s.up, s.left + s.right), Outermost)
  }

  lemma {:induction false} TopFlat(up: Ancestors, ns: seq<Dom>)
    ensures FlatAll(TopOf(up, ns)) == BeforeUp(up) + FlatAll(ns) + AfterUp(up)
    ensures FreeUp(up) && AllFree(ns) ==> AllFree(TopOf(up, ns))
    decreases up
  {
    match up
    case Outermost =>
      assert "" + FlatAll(ns) + "" == FlatAll(ns);
    case Inside(l, r, u) =>
      var n := SpanNode(ns);
      TopFlat(u, l + [n] + r);
      FlatAppend(l + [n], r);
      FlatSnoc(l, n);
      FreeAppend(l + [n], r);
      FreeSnoc(l, n);
      Regroup(BeforeUp(u), FlatAll(l), FlatAll(ns), FlatAll(r), AfterUp(u));
  }

  lemma Regroup(a: string, b: string, c: string, d: string, e: string)
    ensures a + (b + c + d) + e == (a + b) + c + (d + e)
  {
  }

  lemma {:induction false} LastOfAppend(a: seq<Dom>, b: seq<Dom>)
    requires b != []
    ensures LastBears(a + b) == LastBears(b)
  {
    if a == [] {
      assert a + b == b;
    } else {
      assert (a + b)[1..] == a[1..] + b;
      LastOfAppend(a[1..], b);
    }
  }

  lemma {:induction false} TopClosed(up: Ancestors, ns: seq<Dom>)
    ensures LastBears(TopOf(up, ns)) == ClosedUp(up, LastBears(ns))
    decreases up
  {
    match up
    case Outermost =>
    case Inside(l, r, u) =>
      TopClosed(u, l + [SpanNode(ns)] + r);
      if r == [] {
        assert l + [SpanNode(ns)] + r == l + [SpanNode(ns)];
        LastOfAppend(l, [SpanNode(ns)]);
        assert LastBears([SpanNode(ns)]) == LastBears(ns);
      } else {
        LastOfAppend(l + [SpanNode(ns)], r);
      }
  }

  lemma {:induction false} ClosedAnyway(up: Ancestors)
    requires AfterUp(up) != ""
    ensures ClosedUp(up, true) == ClosedUp(up, false)
    decreases up
  {
    if up.Inside? && up.right == [] {
      assert "" + AfterUp(up.up) == AfterUp(up.up);
      ClosedAnyway(up.up);
    }
  }

  /** The home of a place: the same text, closed alike unless the place is the end. */
  lemma HomeKeeps(s: Spot)
    ensures Image(HomeOf(s)) == Doc(Image(s).text, 0)
    ensures Closed(HomeOf(s)) == Closed(s) || Behind(s) == ""
    ensures FreeSpot(s) ==> FreeSpot(HomeOf(s))
  {
    var h := HomeOf(s);
    TopFlat(s.up, s.left + s.right);
    FlatAppend(s.left, s.right);
    FreeAppend(s.left, s.right);
    HomeText(BeforeUp(s.up), FlatAll(s.left), FlatAll(s.right), AfterUp(s.up));
    assert Before(h) == "" && Behind(h) == FlatAll(h.right) + "" == FlatAll(h.right);
    assert "" + Behind(h) == Behind(h);
    TopClosed(s.up, s.left + s.right);
    if s.right != [] {
      LastOfAppend(s.left, s.right);
    } else if Behind(s) != "" {
      assert Behind(s) == "" + AfterUp(s.up) == AfterUp(s.up);
      ClosedAnyway(s.up);
    }
  }

  lemma HomeText(a: string, b: string, c: string, d: string)
    ensures a + (b + c) + d == (a + b) + (c + d)
  {
  }

  /** At the end of the document a goal not yet passed settles alike, closed or not. */
  lemma EndSettles(w: Width, text: string, gl: int, gc: int, closed: bool, other: bool)
    requires NotPast(Last(w, text), gl, gc)
    ensures Settles(w, text, gl, gc, closed) == Settles(w, text, gl, gc, other)
  {
  }

  /** `moveTo` with the cursor at `s`, whose remembered place (negative when unknown) is right: the
      walk starts there when the goal is not above, else at home. Over the tree it leaves, the
      cursor is where `delta2D` measures the goal if and only if the goal is reachable, and the
      remembered place is the measured one if and only if the goal settles. */
  method MoveTo(w: Width, s: Spot, line: int, col: int, gl: int, gc: int) returns (r: Spot, l: int, c: int)
    requires FreeSpot(s)
    requires line >= 0 && col >= 0 ==> PlaceOf(w, Image(s).text, Image(s).pos) == Place(line, col)
    ensures FreeSpot(r) && Image(r) == ScreenText.MoveTo(w, Image(s).text, gl, gc)
    ensures Filled(Image(s).text, Image(r)) && KeepsNodes(Outline(s), r)
    ensures var (p, seen) := Delta2D(w, WithCursor(r), Home);
            && seen
            && (p.line == gl && p.col == gc <==> Reachable(w, Image(s).text, gl, gc))
            && (gc == 0 || (0 <= gc <= w && gl >= 0) ==>
                  (p.line == l && p.col == c <==> Settles(w, Image(s).text, gl, gc, Closed(HomeOf(s)))))
  {
    hide Walk, Counted, Behind, Before, Closed, PlaceOf, Settles, Filled, Reachable, FreeSpot, HomeOf, KeepsNodes,
         Outline;
    ghost var text := Image(s).text;
    HomeKeeps(s);
    HomeMarks(s);
    PlaceHome(w, text);
    if line >= 0 && col >= 0 && gl >= line && (gl > line || gc >= col) {
      MoveFromCursor(w, text, Image(s).pos, gl, gc);
      CachedCount(w, text, 0, Image(s).pos, gl, gc, Closed(s));
      r, l, c := MoveIn(w, s, Place(line, col), gl, gc);
      SameSettles(w, s, gl, gc);
      if gc == 0 || (0 <= gc <= w && gl >= 0) {
        Settled(w, text, gl, gc, Closed(s));
      }
    } else {
      r, l, c := MoveIn(w, HomeOf(s), Home, gl, gc);
      if gc == 0 || (0 <= gc <= w && gl >= 0) {
        Settled(w, text, gl, gc, Closed(HomeOf(s)));
      }
    }
    MoveLands(w, text, gl, gc);
    DeltaAtCursor(w, r);
  }

  lemma SameSettles(w: Width, s: Spot, gl: int, gc: int)
    requires NotPast(PlaceOf(w, Image(s).text, Image(s).pos), gl, gc)
    ensures Settles(w, Image(s).text, gl, gc, Closed(s)) == Settles(w, Image(s).text, gl, gc, Closed(HomeOf(s)))
  {
    HomeKeeps(s);
    if Behind(s) == "" {
      assert Before(s) + "" == Before(s);
      EndSettles(w, Image(s).text, gl, gc, Closed(s), Closed(HomeOf(s)));
    }
  }
}
