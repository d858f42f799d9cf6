/** Erasing and deleting lines on the document tree: `eraseCharactersRight` goes through siblings,
    into elements and out of them, but `deleteLinesIgnoreScroll` looks for the line break only next
    to the cursor. */
module ScreenErase {
  import opened ScreenText
  import opened ScreenTree
  import L = ScreenLines

  /*  The flat text  */

  /** The text from its first line break on. */
  function ToBreak(t: string): string {
    if t == "" || t[0] == '\n' then t else ToBreak(t[1..])
  }

  lemma {:induction false} ToBreakAppend(a: string, b: string)
    ensures ToBreak(a + b) == if ToBreak(a) == "" then ToBreak(b) else ToBreak(a) + b
  {
    if a == "" {
      assert a + b == b;
    } else if a[0] != '\n' {
      assert (a + b)[1..] == a[1..] + b;
      ToBreakAppend(a[1..], b);
    }
  }

  lemma {:induction false} ToBreakIsBreak(t: string)
    ensures ToBreak(t) != "" ==> ToBreak(t)[0] == '\n'
    ensures ToBreak(t) == "" <==> '\n' !in t
    ensures |ToBreak(t)| <= |t|
  {
    if t != "" && t[0] != '\n' {
      ToBreakIsBreak(t[1..]);
    }
  }

  lemma {:induction false} ToBreakIsEol(before: string, t: string)
    ensures (before + t)[L.Eol(before + t, |before|)..] == ToBreak(t)
    decreases |t|
  {
    if t != "" && t[0] != '\n' {
      assert before + t == (before + [t[0]]) + t[1..];
      ToBreakIsEol(before + [t[0]], t[1..]);
    }
  }

  /** Erasing the rest of the line in flat text. */
  lemma EraseFlat(before: string, t: string)
    ensures L.Erase(Doc(before + t, |before|), -1) == Doc(before + ToBreak(t), |before|)
  {
    ToBreakIsEol(before, t);
    assert (before + t)[..|before|] == before;
  }

  /*  The walk of `eraseCharactersRight(-1, true)`  */

  /** What is left of a run of siblings, and whether a line break was met in them. Text is removed;
      an element that loses all its children goes too, one that had none stays. */
  function EraseNodes(ns: seq<Dom>): (seq<Dom>, bool)
    decreases ns, 0
  {
    if ns == [] then ([], false)
    else
      var (first, met) := EraseNode(ns[0]);
      if met then (first + ns[1..], true)
      else
        var (rest, met') := EraseNodes(ns[1..]);
        (first + rest, met')
  }

  function EraseNode(n: Dom): (seq<Dom>, bool)
    decreases n, 1
  {
    match n
    case CursorNode => ([n], false)
    case BrNode => ([n], true)
    case TextNode(s) => if ToBreak(s) == "" then ([], false) else ([TextNode(ToBreak(s))], true)
    case SpanNode(kids) =>
      if kids == [] then ([n], false)
      else
        var (left, met) := EraseNodes(kids);
        (if left == [] then [] else [SpanNode(left)], met)
  }

  /** On through the following siblings of the ancestors. */
  function EraseUp(up: Ancestors): Ancestors {
    match up
    case Outermost => up
    case Inside(l, r, u) =>
      var (left, met) := EraseNodes(r);
      Inside(l, left, if met then u else EraseUp(u))
  }

  function EraseLine(s: Spot): Spot {
    var (left, met) := EraseNodes(s.right);
    Spot(s.left, left, if met then s.up else EraseUp(s.up))
  }

  lemma {:induction false} EraseNodeFlat(n: Dom)
    ensures FlatAll(EraseNode(n).0) == ToBreak(Flat(n))
    ensures EraseNode(n).1 <==> ToBreak(Flat(n)) != ""
    decreases n, 1
  {
    match n
    case CursorNode => FlatOne(n);
    case BrNode => FlatOne(n);
    case TextNode(s) => FlatOne(TextNode(ToBreak(s)));
    case SpanNode(kids) =>
      FlatOne(n);
      if kids != [] {
        EraseNodesFlat(kids);
        FlatOne(SpanNode(EraseNodes(kids).0));
      }
  }

  lemma {:induction false} EraseNodesFlat(ns: seq<Dom>)
    ensures FlatAll(EraseNodes(ns).0) == ToBreak(FlatAll(ns))
    ensures EraseNodes(ns).1 <==> ToBreak(FlatAll(ns)) != ""
    decreases ns, 0
  {
    if ns != [] {
      EraseNodeFlat(ns[0]);
      ToBreakAppend(Flat(ns[0]), FlatAll(ns[1..]));
      var (first, met) := EraseNode(ns[0]);
      if met {
        FlatAppend(first, ns[1..]);
      } else {
        EraseNodesFlat(ns[1..]);
        FlatAppend(first, EraseNodes(ns[1..]).0);
        assert "" + FlatAll(EraseNodes(ns[1..]).0) == FlatAll(EraseNodes(ns[1..]).0);
      }
    }
  }

  lemma {:induction false} EraseUpFlat(up: Ancestors)
    ensures AfterUp(EraseUp(up)) == ToBreak(AfterUp(up)) && BeforeUp(EraseUp(up)) == BeforeUp(up)
    decreases up
  {
    match up
    case Outermost =>
    case Inside(l, r, u) =>
      EraseNodesFlat(r);
      ToBreakAppend(FlatAll(r), AfterUp(u));
      EraseUpFlat(u);
      assert "" + ToBreak(AfterUp(u)) == ToBreak(AfterUp(u));
  }

  /** The walk erases the rest of the line, wherever in the tree it is. */
  lemma EraseLineFlat(s: Spot)
    ensures ScreenTree.Before(EraseLine(s)) == ScreenTree.Before(s) && Behind(EraseLine(s)) == ToBreak(Behind(s))
    ensures Image(EraseLine(s)) == L.Erase(Image(s), -1)
  {
    EraseNodesFlat(s.right);
    EraseUpFlat(s.up);
    ToBreakAppend(FlatAll(s.right), AfterUp(s.up));
    assert "" + ToBreak(AfterUp(s.up)) == ToBreak(AfterUp(s.up));
    EraseFlat(ScreenTree.Before(s), Behind(s));
  }

  /*  The outline of what is left  */

  /** From the first line break on. */
  function FromBreak(ms: seq<Mark>): seq<Mark> {
    if ms == [] || ms[0] == Break || ms[0] == Letter('\n') then ms else FromBreak(ms[1..])
  }

  lemma {:induction false} FromBreakAppend(a: seq<Mark>, b: seq<Mark>)
    ensures FromBreak(a + b) == if FromBreak(a) != [] then FromBreak(a) + b else FromBreak(b)
  {
    if a == [] {
      assert a + b == b;
    } else {
      assert (a + b)[0] == a[0] && (a + b)[1..] == a[1..] + b;
      FromBreakAppend(a[1..], b);
    }
  }

  lemma {:induction false} FromBreakText(s: string)
    ensures FromBreak(Letters(s)) == Letters(ToBreak(s))
  {
    if s != "" && s[0] != '\n' {
      assert Letters(s)[1..] == Letters(s[1..]);
      FromBreakText(s[1..]);
    }
  }

  lemma {:induction false} FromBreakSpan(kids: seq<Dom>)
    ensures FromBreak(Marks(SpanNode(kids)))
         == if FromBreak(MarksAll(kids)) != [] then FromBreak(MarksAll(kids)) + [Close] else []
  {
    var ms := MarksAll(kids);
    FromBreakAppend([Open] + ms, [Close]);
    FromBreakAppend([Open], ms);
    assert FromBreak([Open]) == [] && FromBreak([Close]) == [];
  }

  lemma {:induction false} EraseNodeMarks(n: Dom)
    ensures FromBreak(MarksAll(EraseNode(n).0)) == FromBreak(Marks(n))
    ensures EraseNode(n).1 <==> FromBreak(Marks(n)) != []
    decreases n, 1
  {
    match n
    case CursorNode => OneMarks(n);
    case BrNode => OneMarks(n);
    case TextNode(s) =>
      FromBreakText(s);
      ToBreakIsBreak(s);
      if ToBreak(s) != "" {
        OneMarks(TextNode(ToBreak(s)));
      }
    case SpanNode(kids) =>
      OneMarks(n);
      FromBreakSpan(kids);
      if kids != [] {
        EraseNodesMarks(kids);
        OneMarks(SpanNode(EraseNodes(kids).0));
        FromBreakSpan(EraseNodes(kids).0);
      }
  }

  lemma OneMarks(n: Dom)
    ensures MarksAll([n]) == Marks(n)
  {
    assert MarksAll([n][1..]) == [];
  }

  lemma {:induction false} EraseNodesMarks(ns: seq<Dom>)
    ensures FromBreak(MarksAll(EraseNodes(ns).0)) == FromBreak(MarksAll(ns))
    ensures EraseNodes(ns).1 <==> FromBreak(MarksAll(ns)) != []
    decreases ns, 0
  {
    if ns != [] {
      var first, rest := EraseNode(ns[0]).0, ns[1..];
      EraseNodeMarks(ns[0]);
      FromBreakAppend(Marks(ns[0]), MarksAll(rest));
      if EraseNode(ns[0]).1 {
        MarksAppend(first, rest);
        FromBreakAppend(MarksAll(first), MarksAll(rest));
      } else {
        EraseNodesMarks(rest);
        MarksAppend(first, EraseNodes(rest).0);
        FromBreakAppend(MarksAll(first), MarksAll(EraseNodes(rest).0));
      }
    }
  }

  lemma {:induction false} EraseUpMarks(up: Ancestors)
    ensures AheadUp(EraseUp(up)) == AheadUp(up) && FromBreak(RestUp(EraseUp(up))) == FromBreak(RestUp(up))
    decreases up
  {
    if up.Inside? {
      var e := EraseUp(up);
      EraseNodesMarks(up.right);
      EraseUpMarks(up.up);
      FromBreakClosed(up.right, RestUp(up.up));
      FromBreakClosed(e.right, RestUp(e.up));
    }
  }

  lemma {:induction false} FromBreakClosed(ns: seq<Dom>, more: seq<Mark>)
    ensures FromBreak([Close] + MarksAll(ns) + more)
         == if FromBreak(MarksAll(ns)) != [] then FromBreak(MarksAll(ns)) + more else FromBreak(more)
  {
    var ms := MarksAll(ns);
    FromBreakAppend([Close] + ms, more);
    FromBreakAppend([Close], ms);
    assert FromBreak([Close]) == [];
  }

  /** Erasing changes nothing before the cursor, and nothing from the line break on: every break, every
      character and every border of an element there stays. */
  lemma EraseLineOutline(s: Spot)
    ensures Ahead(EraseLine(s)) == Ahead(s) && FromBreak(Rest(EraseLine(s))) == FromBreak(Rest(s))
  {
    var e := EraseLine(s);
    EraseNodesMarks(s.right);
    EraseUpMarks(s.up);
    FromBreakAppend(MarksAll(s.right), RestUp(s.up));
    FromBreakAppend(MarksAll(e.right), RestUp(e.up));
  }

  /*  Deleting rows  */

  /** The erasing removes the node entirely. */
  predicate Vanishes(n: Dom)
    decreases n, 1
  {
    match n
    case TextNode(s) => '\n' !in s
    case SpanNode(kids) => kids != [] && AllVanish(kids)
    case _ => false
  }

  predicate AllVanish(ns: seq<Dom>)
    decreases ns, 0
  {
    ns == [] || (Vanishes(ns[0]) && AllVanish(ns[1..]))
  }

  /** The line break that ends the line is a sibling of the cursor, and everything before it is
      removed. */
  predicate BreakHere(ns: seq<Dom>) {
    ns != [] && (
      match ns[0]
      case BrNode => true
      case TextNode(s) => '\n' in s || BreakHere(ns[1..])
      case SpanNode(_) => Vanishes(ns[0]) && BreakHere(ns[1..])
      case CursorNode => false)
  }

  /** What `deleteLinesIgnoreScroll` looks at behind the erased text. */
  predicate IsBreak(ns: seq<Dom>) {
    ns != [] && (ns[0].BrNode? || (ns[0].TextNode? && ns[0].text != "" && ns[0].text[0] == '\n'))
  }

  lemma {:induction false} VanishesEmpty(n: Dom)
    ensures Vanishes(n) <==> EraseNode(n) == ([], false)
    decreases n, 1
  {
    match n
    case TextNode(s) => ToBreakIsBreak(s);
    case SpanNode(kids) => AllVanishEmpty(kids);
    case _ =>
  }

  lemma {:induction false} AllVanishEmpty(ns: seq<Dom>)
    ensures AllVanish(ns) <==> EraseNodes(ns) == ([], false)
    decreases ns, 0
  {
    if ns != [] {
      VanishesEmpty(ns[0]);
      AllVanishEmpty(ns[1..]);
      MetLeavesBreak(ns[0]);
      FirstEmpty(ns);
      hide Vanishes, EraseNode, EraseNodes;
    }
  }

  lemma {:induction false} FirstEmpty(ns: seq<Dom>)
    requires ns != []
    ensures EraseNodes(ns) == ([], false)
            <==> (EraseNode(ns[0]) == ([], false) && EraseNodes(ns[1..]) == ([], false))
  {
    MetLeavesBreak(ns[0]);
    var (first, met) := EraseNode(ns[0]);
    hide EraseNode;
    if !met {
      var rest := EraseNodes(ns[1..]);
      assert EraseNodes(ns) == (first + rest.0, rest.1);
      assert first == [] ==> first + rest.0 == rest.0;
      assert first + rest.0 == [] ==> |first| == 0;
    }
  }

  /** Where a break is met something is left. */
  lemma MetLeavesBreak(n: Dom)
    ensures EraseNode(n).1 ==> EraseNode(n).0 != []
  {
    EraseNodeFlat(n);
  }

  /** The condition can be seen before the call. */
  lemma {:induction false} BreakIsFound(ns: seq<Dom>)
    ensures BreakHere(ns) <==> IsBreak(EraseNodes(ns).0)
    ensures BreakHere(ns) ==> EraseNodes(ns).1
    decreases |ns|
  {
    if ns != [] {
      VanishesEmpty(ns[0]);
      BreakIsFound(ns[1..]);
      match ns[0]
      case TextNode(s) => ToBreakIsBreak(s);
      case SpanNode(kids) =>
        var (first, met) := EraseNode(ns[0]);
        if first == [] {
          MetLeavesBreak(ns[0]);
          assert [] + EraseNodes(ns[1..]).0 == EraseNodes(ns[1..]).0;
        } else {
          assert first[0].SpanNode?;
        }
      case _ =>
    }
  }

  /** Taking the break away: a `br` goes, a text node loses its first character. */
  function Unbroken(ns: seq<Dom>): seq<Dom>
    requires IsBreak(ns)
  {
    if ns[0].BrNode? then ns[1..] else [TextNode(ns[0].text[1..])] + ns[1..]
  }

  lemma UnbrokenFlat(ns: seq<Dom>)
    requires IsBreak(ns)
    ensures FlatAll(ns) == "\n" + FlatAll(Unbroken(ns))
  {
    FlatHead(ns);
    if ns[0].TextNode? {
      FlatHead(Unbroken(ns));
      assert Unbroken(ns)[1..] == ns[1..];
      var t := ns[0].text;
      assert t == "\n" + t[1..];
      Assoc("\n", t[1..], FlatAll(ns[1..]));
    }
  }

  function Join(s: Spot): Spot
    requires IsBreak(s.right)
  {
    s.(right := Unbroken(s.right))
  }

  lemma JoinFlat(s: Spot)
    requires IsBreak(s.right)
    ensures Behind(s) == "\n" + Behind(Join(s)) && ScreenTree.Before(Join(s)) == ScreenTree.Before(s)
    ensures var d := Image(s);
            d.pos < |d.text| && Image(Join(s)) == Doc(L.Cut(d.text, d.pos, d.pos + 1), d.pos)
  {
    UnbrokenFlat(s.right);
    Assoc("\n", FlatAll(Unbroken(s.right)), AfterUp(s.up));
    var a, b := ScreenTree.Before(s), Behind(Join(s));
    assert (a + ("\n" + b))[..|a|] == a && (a + ("\n" + b))[|a| + 1..] == b;
  }

  function DeleteRows(s: Spot, count: int): Spot
    decreases Positive(count)
  {
    if count <= 0 then s
    else
      var e := EraseLine(s);
      if IsBreak(e.right) then DeleteRows(Join(e), count - 1) else e
  }

  /** The loop of `deleteLinesIgnoreScroll` over the tree. */
  method DeleteLinesIgnoreScroll(s: Spot, count: int) returns (r: Spot)
    ensures r == DeleteRows(s, count)
  {
    r := s;
    var i := count;
    while i > 0
      invariant DeleteRows(r, i) == DeleteRows(s, count)
    {
      r := EraseLine(r);
      if !IsBreak(r.right) {
        return;
      }
      r := Join(r);
      i := i - 1;
    }
  }

  /** There is a line break behind the cursor, but not next to it, before `count` rows are gone. */
  predicate GivesUp(s: Spot, count: int)
    decreases Positive(count)
  {
    count > 0 &&
      if BreakHere(s.right) then
        BreakIsFound(s.right);
        GivesUp(Join(EraseLine(s)), count - 1)
      else '\n' in Behind(s)
  }

  lemma {:induction false} RowsNeverGrow(d: Doc, count: int)
    requires d.pos <= |d.text|
    ensures |L.DeleteRows(d, count).text| <= |d.text|
    decreases Positive(count)
  {
    if count > 0 {
      var e := L.Erase(d, -1);
      if e.pos < |e.text| {
        RowsNeverGrow(Doc(L.Cut(e.text, e.pos, e.pos + 1), e.pos), count - 1);
      }
    }
  }

  lemma OneRow(d: Doc, count: int)
    requires d.pos <= |d.text| && count > 0
    ensures var e := L.Erase(d, -1);
            L.DeleteRows(d, count)
            == if e.pos == |e.text| then e
               else L.DeleteRows(Doc(L.Cut(e.text, e.pos, e.pos + 1), e.pos), count - 1)
  {
  }

  /** On the tree rows are deleted as in the flat text if and only if the operation does not give up:
      exactly then every line break it takes is next to the cursor. */
  lemma {:induction false} TreeDeletesRows(s: Spot, count: int)
    ensures Image(DeleteRows(s, count)) == L.DeleteRows(Image(s), count) <==> !GivesUp(s, count)
    decreases Positive(count)
  {
    if count > 0 {
      hide Image, L.Erase, L.Cut, L.DeleteRows, EraseLine, Join, Behind, DeleteRows, GivesUp, BreakHere, IsBreak;
      RowOnTree(s, count);
      if BreakHere(s.right) {
        RowJoined(s, count);
        TreeDeletesRows(Join(EraseLine(s)), count - 1);
      } else {
        StopsHere(s, count);
      }
    }
  }

  lemma RowOnTree(s: Spot, count: int)
    requires count > 0
    ensures BreakHere(s.right) ==>
              && IsBreak(EraseLine(s).right)
              && DeleteRows(s, count) == DeleteRows(Join(EraseLine(s)), count - 1)
              && GivesUp(s, count) == GivesUp(Join(EraseLine(s)), count - 1)
    ensures !BreakHere(s.right) ==> DeleteRows(s, count) == EraseLine(s) && GivesUp(s, count) == ('\n' in Behind(s))
  {
    BreakIsFound(s.right);
  }

  /** Where there is a break next to the cursor. */
  lemma RowJoined(s: Spot, count: int)
    requires count > 0 && BreakHere(s.right) && IsBreak(EraseLine(s).right)
    ensures L.DeleteRows(Image(s), count) == L.DeleteRows(Image(Join(EraseLine(s))), count - 1)
  {
    hide Image, L.Erase, L.Cut, L.DeleteRows, EraseLine, Join, Behind;
    OneRow(Image(s), count);
    EraseLineFlat(s);
    JoinFlat(EraseLine(s));
  }

  /** Where there is no break next to the cursor. */
  lemma StopsHere(s: Spot, count: int)
    requires count > 0 && !BreakHere(s.right)
    ensures Image(EraseLine(s)) == L.DeleteRows(Image(s), count) <==> '\n' !in Behind(s)
  {
    hide L.Erase, L.DeleteRows, EraseLine, Behind, ScreenTree.Before;
    EraseLineFlat(s);
    ToBreakIsBreak(Behind(s));
    OneRow(Image(s), count);
    var e := Image(EraseLine(s));
    assert e.pos == |e.text| <==> ToBreak(Behind(s)) == "";
    if ToBreak(Behind(s)) != "" {
      RowsNeverGrow(Doc(L.Cut(e.text, e.pos, e.pos + 1), e.pos), count - 1);
    }
  }

  /*  Text and `br` in one container  */

  predicate Leaves(ns: seq<Dom>) {
    forall i :: 0 <= i < |ns| ==> ns[i].TextNode? || ns[i].BrNode?
  }

  lemma {:induction false} LeavesBreak(ns: seq<Dom>)
    requires Leaves(ns)
    ensures BreakHere(ns) <==> '\n' in FlatAll(ns)
    ensures Leaves(EraseNodes(ns).0)
    decreases |ns|
  {
    if ns != [] {
      LeavesBreak(ns[1..]);
      if ns[0].TextNode? {
        ToBreakIsBreak(ns[0].text);
      }
    }
  }

  /** The operation never gives up while all text behind the cursor is in its own container. */
  lemma {:induction false} OneContainer(s: Spot, count: int)
    requires Leaves(s.right) && '\n' !in AfterUp(s.up)
    ensures !GivesUp(s, count)
    decreases Positive(count)
  {
    if count > 0 {
      LeavesBreak(s.right);
      if BreakHere(s.right) {
        BreakIsFound(s.right);
        OneContainer(Join(EraseLine(s)), count - 1);
      }
    }
  }

  /** A break in another span than the cursor: nothing is joined, and the line break stays. */
  lemma BreakElsewhere()
    ensures var s := Spot([], [SpanNode([TextNode("a\nb")])], Outermost);
            && GivesUp(s, 1) && Image(s) == Doc("a\nb", 0)
            && Image(DeleteRows(s, 1)) == Doc("\nb", 0) && L.DeleteRows(Image(s), 1) == Doc("b", 0)
  {
    var s := Spot([], [SpanNode([TextNode("a\nb")])], Outermost);
    FlatOne(SpanNode([TextNode("a\nb")]));
    FlatOne(TextNode("a\nb"));
    assert Behind(s) == "a\nb" + "" == "a\nb" && ScreenTree.Before(s) == "" + "" == "";
    assert "" + Behind(s) == "a\nb";
    assert ToBreak("a\nb") == "\nb";
    EraseLineFlat(s);
    assert Image(EraseLine(s)) == Doc("" + "\nb", 0);
    var e := L.Erase(Image(s), -1);
    assert e == Doc("\nb", 0) && L.Cut(e.text, 0, 1) == "b";
    assert L.DeleteRows(Doc("b", 0), 0) == Doc("b", 0);
  }
}
