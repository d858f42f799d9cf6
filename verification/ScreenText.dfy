/** Cursor movement of WebTerminal over the text of the document: one-column characters, lines
    ended by a newline or a `br` element, and long lines wrapped at the screen's width. */
module ScreenText {
  type Width = w: nat | w > 0 witness 80

  /*  Measuring  */

  datatype Place = Place(line: nat, col: nat)

  const Home := Place(0, 0)

  /** The place behind one more character (`updateColumn` and its callers). */
  function Next(w: Width, p: Place, c: char): Place {
    if c == '\n' then Place(p.line + 1, 0)
    else if p.col + 1 > w then Place(p.line + 1, 1)
    else Place(p.line, p.col + 1)
  }

  function After(w: Width, p: Place, s: string): Place
    decreases |s|
  {
    if s == "" then p else After(w, Next(w, p, s[0]), s[1..])
  }

  /** The place of offset `i` of a document. */
  function PlaceOf(w: Width, text: string, i: nat): Place
    requires i <= |text|
  {
    After(w, Home, text[..i])
  }

  lemma {:induction false} AfterAppend(w: Width, p: Place, s: string, t: string)
    ensures After(w, p, s + t) == After(w, After(w, p, s), t)
    decreases |s|
  {
    if s == "" {
      assert s + t == t;
    } else {
      assert (s + t)[1..] == s[1..] + t;
      AfterAppend(w, Next(w, p, s[0]), s[1..], t);
    }
  }

  lemma AfterOne(w: Width, p: Place, c: char)
    ensures After(w, p, [c]) == Next(w, p, c)
  {
    assert After(w, Next(w, p, c), []) == Next(w, p, c);
  }

  lemma PlaceNext(w: Width, text: string, i: nat)
    requires i < |text|
    ensures PlaceOf(w, text, i + 1) == Next(w, PlaceOf(w, text, i), text[i])
  {
    hide After;
    assert text[..i + 1] == text[..i] + [text[i]];
    AfterAppend(w, Home, text[..i], [text[i]]);
    AfterOne(w, PlaceOf(w, text, i), text[i]);
  }

  lemma PlaceHome(w: Width, text: string)
    ensures PlaceOf(w, text, 0) == Home
  {
  }

  /** Reading order. */
  predicate Before(p: Place, q: Place) {
    p.line < q.line || (p.line == q.line && p.col < q.col)
  }

  /** Places only grow through a document, and no column passes the width. */
  lemma {:induction false} PlacesGrow(w: Width, text: string, i: nat, j: nat)
    requires i < j <= |text|
    ensures Before(PlaceOf(w, text, i), PlaceOf(w, text, j))
    decreases j
  {
    PlaceNext(w, text, j - 1);
    if i < j - 1 {
      PlacesGrow(w, text, i, j - 1);
    }
  }

  lemma {:induction false} AfterInWidth(w: Width, p: Place, s: string)
    requires p.col <= w
    ensures After(w, p, s).col <= w
    decreases |s|
  {
    if s != "" {
      AfterInWidth(w, Next(w, p, s[0]), s[1..]);
    }
  }

  /** A line without a break is cut into rows of `w` characters, the last row never empty: `k` rows
      are full before it. */
  lemma {:induction false} LineMeasured(w: Width, line: nat, s: string) returns (k: nat)
    requires '\n' !in s
    ensures s == "" ==> k == 0
    ensures s != "" ==> 0 < |s| - k * w <= w
    ensures k * w <= |s| && After(w, Place(line, 0), s) == Place(line + k, |s| - k * w)
    decreases |s|
  {
    k := 0;
    if s != "" {
      var n := |s| - 1;
      k := LineMeasured(w, line, s[..n]);
      assert s == s[..n] + [s[n]];
      AfterAppend(w, Place(line, 0), s[..n], [s[n]]);
      AfterOne(w, Place(line + k, n - k * w), s[n]);
      if n - k * w == w {
        assert (k + 1) * w == k * w + w;
        k := k + 1;
      }
    }
  }

  /** A break begins a new line, which is measured from column 0. */
  lemma TextMeasured(w: Width, front: string, s: string) returns (k: nat)
    requires '\n' !in s
    ensures s == "" ==> k == 0
    ensures s != "" ==> 0 < |s| - k * w <= w
    ensures k * w <= |s|
    ensures After(w, Home, front + "\n" + s) == Place(After(w, Home, front).line + 1 + k, |s| - k * w)
  {
    var p := After(w, Home, front);
    AfterAppend(w, Home, front, "\n");
    AfterOne(w, p, '\n');
    AfterAppend(w, Home, front + "\n", s);
    k := LineMeasured(w, p.line + 1, s);
  }

  function Repeat(c: char, n: nat): (s: string)
    ensures |s| == n && forall i :: 0 <= i < n ==> s[i] == c
  {
    seq(n, _ => c)
  }

  lemma {:induction false} AfterSpaces(w: Width, p: Place, n: nat)
    requires p.col + n <= w
    ensures After(w, p, Repeat(' ', n)) == Place(p.line, p.col + n)
    decreases n
  {
    if n > 0 {
      assert Repeat(' ', n)[1..] == Repeat(' ', n - 1);
      AfterSpaces(w, Next(w, p, ' '), n - 1);
    }
  }

  lemma {:induction false} AfterNewlines(w: Width, p: Place, n: nat)
    ensures After(w, p, Repeat('\n', n)) == Place(p.line + n, if n > 0 then 0 else p.col)
    decreases n
  {
    if n > 0 {
      assert Repeat('\n', n)[1..] == Repeat('\n', n - 1);
      AfterNewlines(w, Next(w, p, '\n'), n - 1);
    }
  }

  /*  `delta2D` on the document tree  */

  datatype Dom = TextNode(text: string) | BrNode | SpanNode(kids: seq<Dom>) | CursorNode

  /** Line and column behind a node, and whether the cursor was met in it. */
  function Delta2D(w: Width, n: Dom, p: Place): (Place, bool)
    decreases n, 1
  {
    match n
    case CursorNode => (p, true)
    case TextNode(s) => (After(w, p, s), false)
    case BrNode => (Place(p.line + 1, 0), false)
    case SpanNode(kids) => DeltaAll(w, kids, p)
  }

  function DeltaAll(w: Width, ns: seq<Dom>, p: Place): (Place, bool)
    decreases ns, 0
  {
    if ns == [] then (p, false)
    else
      var (q, seen) := Delta2D(w, ns[0], p);
      if seen then (q, true) else DeltaAll(w, ns[1..], q)
  }

  /** The text of a node up to the cursor, or all of it. */
  function TextBefore(n: Dom): (string, bool)
    decreases n, 1
  {
    match n
    case CursorNode => ("", true)
    case TextNode(s) => (s, false)
    case BrNode => ("\n", false)
    case SpanNode(kids) => TextBeforeAll(kids)
  }

  function TextBeforeAll(ns: seq<Dom>): (string, bool)
    decreases ns, 0
  {
    if ns == [] then ("", false)
    else
      var (s, seen) := TextBefore(ns[0]);
      if seen then (s, true) else var (t, seen') := TextBeforeAll(ns[1..]); (s + t, seen')
  }

  /** The recursive walk over the tree measures the text before the cursor. */
  lemma {:induction false} DeltaMeasures(w: Width, n: Dom, p: Place)
    ensures Delta2D(w, n, p) == (After(w, p, TextBefore(n).0), TextBefore(n).1)
    decreases n, 1
  {
    match n
    case CursorNode =>
    case TextNode(_) =>
    case BrNode => AfterOne(w, p, '\n');
    case SpanNode(kids) => DeltaAllMeasures(w, kids, p);
  }

  lemma {:induction false} DeltaAllMeasures(w: Width, ns: seq<Dom>, p: Place)
    ensures DeltaAll(w, ns, p) == (After(w, p, TextBeforeAll(ns).0), TextBeforeAll(ns).1)
    decreases ns, 0
  {
    if ns != [] {
      DeltaMeasures(w, ns[0], p);
      var (s, seen) := TextBefore(ns[0]);
      if !seen {
        DeltaAllMeasures(w, ns[1..], After(w, p, s));
        AfterAppend(w, p, s, TextBeforeAll(ns[1..]).0);
      }
    }
  }

  /*  Moving  */

  datatype Doc = Doc(text: string, pos: nat)

  function Positive(n: int): nat {
    if n > 0 then n else 0
  }

  /** The blanks that `moveTo` appends at the end of the document. */
  function Filling(p: Place, gl: int, gc: int): string {
    Repeat('\n', Positive(gl - p.line)) + Repeat(' ', Positive(gc - p.col))
  }

  function PutIn(text: string, pos: nat, s: string): string
    requires pos <= |text|
  {
    text[..pos] + s + text[pos..]
  }

  /** Where the walk of `moveTo` ends: from offset `pos`, counted as place `p`, to the goal. Blanks
      are put in where the goal line is too short, newlines and blanks at the end. */
  function Walk(w: Width, text: string, pos: nat, p: Place, gl: int, gc: int): Doc
    requires pos <= |text|
    decreases |text| - pos
  {
    if !(p.line < gl || p.col < gc) then Doc(text, pos)
    else if pos == |text| then
      var t := text + Filling(p, gl, gc);
      Doc(t, |t|)
    else if text[pos] == '\n' && p.line == gl then
      Doc(PutIn(text, pos, Repeat(' ', Positive(gc - p.col))), pos + Positive(gc - p.col))
    else Walk(w, text, pos + 1, Next(w, p, text[pos]), gl, gc)
  }

  /** The walk from home. */
  function MoveTo(w: Width, text: string, gl: int, gc: int): Doc {
    Walk(w, text, 0, Home, gl, gc)
  }

  predicate NotPast(p: Place, gl: int, gc: int) {
    p.line < gl || (p.line == gl && p.col <= gc)
  }

  lemma NotPastBefore(w: Width, text: string, i: nat, j: nat, gl: int, gc: int)
    requires i < j <= |text| && NotPast(PlaceOf(w, text, j), gl, gc)
    ensures var p := PlaceOf(w, text, i);
            p.line < gl || (p.line == gl && p.col < gc && text[i] != '\n')
  {
    PlacesGrow(w, text, i, j);
    PlaceNext(w, text, i);
    if i + 1 < j {
      PlacesGrow(w, text, i + 1, j);
    }
  }

  /** The cached cursor is only a shortcut: a walk from it ends where the walk from home does. */
  lemma {:induction false} CachedWalk(w: Width, text: string, i: nat, pos: nat, gl: int, gc: int)
    requires i <= pos <= |text| && NotPast(PlaceOf(w, text, pos), gl, gc)
    ensures Walk(w, text, i, PlaceOf(w, text, i), gl, gc) == Walk(w, text, pos, PlaceOf(w, text, pos), gl, gc)
    decreases pos - i
  {
    if i < pos {
      NotPastBefore(w, text, i, pos, gl, gc);
      PlaceNext(w, text, i);
      CachedWalk(w, text, i + 1, pos, gl, gc);
    }
  }

  lemma MoveFromCursor(w: Width, text: string, pos: nat, gl: int, gc: int)
    requires pos <= |text| && NotPast(PlaceOf(w, text, pos), gl, gc)
    ensures Walk(w, text, pos, PlaceOf(w, text, pos), gl, gc) == MoveTo(w, text, gl, gc)
  {
    PlaceHome(w, text);
    CachedWalk(w, text, 0, pos, gl, gc);
  }

  /*  What is put in  */

  /** `d` is `text` with newlines and then blanks put in directly before the cursor, newlines only at
      the end. */
  predicate FilledAt(text: string, d: Doc, k: nat, m: nat, n: nat) {
    && k <= |text| && d.pos == k + m + n && (m > 0 ==> k == |text|)
    && d.text == text[..k] + (Repeat('\n', m) + Repeat(' ', n)) + text[k..]
  }

  ghost predicate Filled(text: string, d: Doc) {
    exists k: nat, m: nat, n: nat :: FilledAt(text, d, k, m, n)
  }

  lemma {:induction false} WalkFills(w: Width, text: string, pos: nat, p: Place, gl: int, gc: int)
    requires pos <= |text|
    ensures var d := Walk(w, text, pos, p, gl, gc); d.pos <= |d.text| && Filled(text, d)
    decreases |text| - pos
  {
    hide Next, FilledAt;
    if !(p.line < gl || p.col < gc) {
      NothingFilled(text, pos);
    } else if pos == |text| {
      FillsEnd(text, p, gl, gc);
    } else if text[pos] == '\n' && p.line == gl {
      FillsLine(text, pos, Positive(gc - p.col));
    } else {
      WalkFills(w, text, pos + 1, Next(w, p, text[pos]), gl, gc);
    }
  }

  lemma NothingFilled(text: string, pos: nat)
    requires pos <= |text|
    ensures FilledAt(text, Doc(text, pos), pos, 0, 0)
  {
    assert text[..pos] + ("" + "") + text[pos..] == text;
  }

  lemma FillsEnd(text: string, p: Place, gl: int, gc: int)
    ensures var t := text + Filling(p, gl, gc);
            FilledAt(text, Doc(t, |t|), |text|, Positive(gl - p.line), Positive(gc - p.col))
  {
    assert text[..|text|] == text && text[|text|..] == "";
    var t := text + Filling(p, gl, gc);
    assert t + "" == t;
  }

  lemma FillsLine(text: string, pos: nat, n: nat)
    requires pos <= |text|
    ensures FilledAt(text, Doc(PutIn(text, pos, Repeat(' ', n)), pos + n), pos, 0, n)
  {
    assert "" + Repeat(' ', n) == Repeat(' ', n);
  }

  /*  Where the walk lands  */

  /** Line `gl` begins behind a newline, not by wrapping. */
  ghost predicate StartsLine(w: Width, text: string, gl: int) {
    gl == 0 || exists i: nat :: i < |text| && text[i] == '\n' && PlaceOf(w, text, i).line == gl - 1
  }

  function Last(w: Width, text: string): Place {
    PlaceOf(w, text, |text|)
  }

  /** When `moveTo` reaches its goal. The column must be on the screen. A missing line is reached
      only in column 0 or when the last line is empty, for the column is not reset behind the added
      newlines. Column 0 of a line that starts by wrapping does not exist. */
  ghost predicate Reachable(w: Width, text: string, gl: int, gc: int) {
    && 0 <= gl && 0 <= gc <= w
    && if gl > Last(w, text).line then gc == 0 || Last(w, text).col == 0
       else gc == 0 ==> StartsLine(w, text, gl)
  }

  predicate Lands(w: Width, d: Doc, gl: int, gc: int) {
    && d.pos <= |d.text|
    && var p := PlaceOf(w, d.text, d.pos); p.line == gl && p.col == gc
  }

  lemma LineMonotone(w: Width, text: string, i: nat)
    requires i <= |text|
    ensures PlaceOf(w, text, i).line <= Last(w, text).line
  {
    if i < |text| {
      PlacesGrow(w, text, i, |text|);
    }
  }

  lemma PlaceOfPrefix(w: Width, s: string, t: string)
    ensures PlaceOf(w, s + t, |s|) == Last(w, s)
  {
    assert (s + t)[..|s|] == s == s[..|s|];
  }

  lemma LastAppend(w: Width, s: string, t: string)
    ensures Last(w, s + t) == After(w, Last(w, s), t)
  {
    assert s[..|s|] == s && (s + t)[..|s + t|] == s + t;
    AfterAppend(w, Home, s, t);
  }

  /** The walk stops where it stands. */
  lemma StopLands(w: Width, text: string, pos: nat, gl: int, gc: int)
    requires pos <= |text| && Lands(w, Doc(text, pos), gl, gc) && gc <= w
    ensures Reachable(w, text, gl, gc)
  {
    LineMonotone(w, text, pos);
    if gc == 0 && gl > 0 {
      PlaceHome(w, text);
      assert pos > 0;
      PlaceNext(w, text, pos - 1);
      assert text[pos - 1] == '\n' && PlaceOf(w, text, pos - 1).line == gl - 1;
    }
  }

  /** Column 0 of a line that starts by wrapping. */
  lemma WrapMisses(w: Width, text: string, pos: nat, gl: int)
    requires pos < |text| && text[pos] != '\n'
    requires PlaceOf(w, text, pos).line == gl - 1 && PlaceOf(w, text, pos + 1) == Place(gl, 1)
    ensures !Reachable(w, text, gl, 0)
  {
    LineMonotone(w, text, pos + 1);
    if StartsLine(w, text, gl) {
      var i: nat :| i < |text| && text[i] == '\n' && PlaceOf(w, text, i).line == gl - 1;
      PlaceNext(w, text, i);
      if i < pos {
        PlacesOrdered(w, text, i + 1, pos);
      } else {
        PlacesOrdered(w, text, pos + 1, i);
      }
      assert false;
    }
  }

  lemma PlacesOrdered(w: Width, text: string, i: nat, j: nat)
    requires i <= j <= |text|
    ensures i == j || Before(PlaceOf(w, text, i), PlaceOf(w, text, j))
  {
    if i < j {
      PlacesGrow(w, text, i, j);
    }
  }

  lemma AtEnd(w: Width, text: string, gl: int, gc: int)
    requires var p := Last(w, text); 0 <= gc <= w && NotPast(p, gl, gc)
    ensures var t := text + Filling(Last(w, text), gl, gc);
            Lands(w, Doc(t, |t|), gl, gc) <==> Reachable(w, text, gl, gc)
  {
    hide After;
    var p := Last(w, text);
    var m, n := Positive(gl - p.line), Positive(gc - p.col);
    LastAppend(w, text, Filling(p, gl, gc));
    AfterAppend(w, p, Repeat('\n', m), Repeat(' ', n));
    AfterNewlines(w, p, m);
    AfterSpaces(w, After(w, p, Repeat('\n', m)), n);
    if gl == p.line && gc == 0 {
      assert text[..|text|] == text;
      StopLands(w, text, |text|, gl, gc);
    }
  }

  lemma AtBreak(w: Width, text: string, pos: nat, gl: int, gc: int)
    requires pos < |text| && text[pos] == '\n' && gc <= w
    requires var p := PlaceOf(w, text, pos); p.line == gl && p.col < gc
    ensures var n := gc - PlaceOf(w, text, pos).col;
            Lands(w, Doc(PutIn(text, pos, Repeat(' ', n)), pos + n), gl, gc)
    ensures Reachable(w, text, gl, gc)
  {
    hide After;
    var p := PlaceOf(w, text, pos);
    var s := Repeat(' ', gc - p.col);
    LineMonotone(w, text, pos);
    assert PutIn(text, pos, s) == (text[..pos] + s) + text[pos..];
    PlaceOfPrefix(w, text[..pos] + s, text[pos..]);
    LastAppend(w, text[..pos], s);
    assert text[..pos][..pos] == text[..pos];
    AfterSpaces(w, p, gc - p.col);
  }

  /** The walk lands exactly at the goal if and only if the goal is reachable. */
  lemma {:induction false} WalkLands(w: Width, text: string, pos: nat, gl: int, gc: int)
    requires pos <= |text| && 0 <= gc <= w && NotPast(PlaceOf(w, text, pos), gl, gc)
    ensures Lands(w, Walk(w, text, pos, PlaceOf(w, text, pos), gl, gc), gl, gc) <==> Reachable(w, text, gl, gc)
    decreases |text| - pos
  {
    hide PlaceOf, Reachable, PutIn, Filling;
    var p := PlaceOf(w, text, pos);
    if !(p.line < gl || p.col < gc) {
      StopLands(w, text, pos, gl, gc);
    } else if pos == |text| {
      AtEnd(w, text, gl, gc);
    } else if text[pos] == '\n' && p.line == gl {
      AtBreak(w, text, pos, gl, gc);
    } else {
      PlaceNext(w, text, pos);
      var q := Next(w, p, text[pos]);
      if NotPast(q, gl, gc) {
        WalkLands(w, text, pos + 1, gl, gc);
      } else {
        assert gc == 0 && q == Place(gl, 1);
        WrapMisses(w, text, pos, gl);
      }
    }
  }

  lemma PlaceInWidth(w: Width, text: string, i: nat)
    requires i <= |text|
    ensures PlaceOf(w, text, i).col <= w
  {
    AfterInWidth(w, Home, text[..i]);
  }

  /** `moveTo` reaches its goal if and only if the goal is reachable, and adds only blanks. */
  lemma MoveLands(w: Width, text: string, gl: int, gc: int)
    ensures Lands(w, MoveTo(w, text, gl, gc), gl, gc) <==> Reachable(w, text, gl, gc)
    ensures Filled(text, MoveTo(w, text, gl, gc))
  {
    hide PlaceOf, Filled;
    WalkFills(w, text, 0, Home, gl, gc);
    var d := MoveTo(w, text, gl, gc);
    PlaceInWidth(w, d.text, d.pos);
    PlaceHome(w, text);
    if 0 <= gl && 0 <= gc <= w {
      WalkLands(w, text, 0, gl, gc);
    }
  }

  /** A goal that is there is reached without changing anything. */
  lemma MoveStays(w: Width, text: string, i: nat)
    requires i <= |text|
    ensures var p := PlaceOf(w, text, i); MoveTo(w, text, p.line, p.col) == Doc(text, i)
  {
    var p := PlaceOf(w, text, i);
    MoveFromCursor(w, text, i, p.line, p.col);
  }

  /*  The place counted on the way  */

  /** The line and column `moveTo` remembers when its walk ends. `closed` says that the last
      character ends the tree: then, behind it, the end of the document is met before the loop
      looks at its goal again, and the goal is taken for reached. */
  function Counted(w: Width, text: string, pos: nat, p: Place, gl: int, gc: int, closed: bool): (int, int)
    requires pos <= |text|
    decreases |text| - pos
  {
    if !(p.line < gl || p.col < gc) then (p.line, p.col)
    else if pos == |text| || (text[pos] == '\n' && p.line == gl) || (closed && pos + 1 == |text|) then (gl, gc)
    else Counted(w, text, pos + 1, Next(w, p, text[pos]), gl, gc, closed)
  }

  /** When the remembered place is the true one: the goal is reached, or it is in column 0 and the
      end of a closed document is not one character behind it. */
  ghost predicate Settles(w: Width, text: string, gl: int, gc: int, closed: bool) {
    Reachable(w, text, gl, gc) || (gc == 0 && !(closed && Passed(w, text, gl)))
  }

  /** The document ends behind the first character of line `gl`. */
  predicate Passed(w: Width, text: string, gl: int) {
    Last(w, text).line == gl && Last(w, text).col == 1
  }

  lemma ColumnZeroAtEnd(w: Width, text: string, gl: int)
    requires gl > Last(w, text).line
    ensures Reachable(w, text, gl, 0)
  {
  }

  lemma NotYetPassed(w: Width, text: string, pos: nat, gl: nat)
    requires pos < |text| && PlaceOf(w, text, pos) == Place(gl, 1)
    ensures !Passed(w, text, gl)
  {
    PlacesGrow(w, text, pos, |text|);
  }

  /** The step over the last character of a closed document. */
  lemma LastCounts(w: Width, text: string, gl: int, gc: int)
    requires |text| > 0 && 0 <= gc <= w && NotPast(PlaceOf(w, text, |text| - 1), gl, gc)
    requires var p := PlaceOf(w, text, |text| - 1);
             (p.line < gl || p.col < gc) && !(text[|text| - 1] == '\n' && p.line == gl)
    ensures var d := Walk(w, text, |text|, Last(w, text), gl, gc);
            Lands(w, d, gl, gc) <==> Settles(w, text, gl, gc, true)
  {
    hide PlaceOf, Reachable, Filling;
    var n := |text| - 1;
    PlaceNext(w, text, n);
    var q := Last(w, text);
    if !NotPast(q, gl, gc) {
      assert gc == 0 && q == Place(gl, 1);
      WrapMisses(w, text, n, gl);
    } else if q.line < gl || q.col < gc {
      AtEnd(w, text, gl, gc);
      if gc == 0 {
        ColumnZeroAtEnd(w, text, gl);
      }
    } else {
      StopLands(w, text, |text|, gl, gc);
    }
  }

  /** The remembered place is the measured one if and only if the goal settles. */
  lemma {:induction false} CountsRight(w: Width, text: string, pos: nat, gl: int, gc: int, closed: bool)
    requires pos <= |text| && 0 <= gc <= w && NotPast(PlaceOf(w, text, pos), gl, gc)
    ensures var p := PlaceOf(w, text, pos);
            var (l, c) := Counted(w, text, pos, p, gl, gc, closed);
            Lands(w, Walk(w, text, pos, p, gl, gc), l, c) <==> Settles(w, text, gl, gc, closed)
    decreases |text| - pos
  {
    hide PlaceOf, Reachable, PutIn, Filling, Passed;
    var p := PlaceOf(w, text, pos);
    if !(p.line < gl || p.col < gc) {
      StopLands(w, text, pos, gl, gc);
    } else if pos == |text| {
      AtEnd(w, text, gl, gc);
      if gc == 0 {
        ColumnZeroAtEnd(w, text, gl);
      }
    } else if text[pos] == '\n' && p.line == gl {
      AtBreak(w, text, pos, gl, gc);
    } else {
      PlaceNext(w, text, pos);
      var q := Next(w, p, text[pos]);
      if closed && pos + 1 == |text| {
        LastCounts(w, text, gl, gc);
      } else if NotPast(q, gl, gc) {
        CountsRight(w, text, pos + 1, gl, gc, closed);
      } else {
        assert gc == 0 && q == Place(gl, 1);
        if pos + 1 < |text| {
          NotYetPassed(w, text, pos + 1, gl);
        }
      }
    }
  }

  /** A walk from the cached cursor also counts like the walk from home. */
  lemma {:induction false} CachedCount(w: Width, text: string, i: nat, pos: nat, gl: int, gc: int, closed: bool)
    requires i <= pos <= |text| && NotPast(PlaceOf(w, text, pos), gl, gc)
    ensures Counted(w, text, i, PlaceOf(w, text, i), gl, gc, closed)
         == Counted(w, text, pos, PlaceOf(w, text, pos), gl, gc, closed)
    decreases pos - i
  {
    if i < pos {
      NotPastBefore(w, text, i, pos, gl, gc);
      PlaceNext(w, text, i);
      CachedCount(w, text, i + 1, pos, gl, gc, closed);
    }
  }

  /** What a move from home remembers. */
  lemma Settled(w: Width, text: string, gl: int, gc: int, closed: bool)
    requires gc == 0 || (0 <= gc <= w && gl >= 0)
    ensures var (l, c) := Counted(w, text, 0, Home, gl, gc, closed);
            Lands(w, MoveTo(w, text, gl, gc), l, c) <==> Settles(w, text, gl, gc, closed)
  {
    hide PlaceOf;
    PlaceHome(w, text);
    if gl >= 0 {
      CountsRight(w, text, 0, gl, gc, closed);
    }
  }

  /** A goal whose remembered place is wrong: with three columns, the move from home to column 0
      of the second line of "abcd" remembers that place and is in column 1. */
  lemma WrongCount()
    ensures Counted(3, "abcd", 0, Home, 1, 0, true) == (1, 0)
    ensures MoveTo(3, "abcd", 1, 0) == Doc("abcd", 4) && PlaceOf(3, "abcd", 4) == Place(1, 1)
    ensures Counted(3, "abcd", 0, Home, 1, 0, false) == (1, 1)
  {
    MissedGoals();
    assert Counted(3, "abcd", 0, Home, 1, 0, true) == Counted(3, "abcd", 2, Place(0, 2), 1, 0, true);
    assert Counted(3, "abcd", 0, Home, 1, 0, false) == Counted(3, "abcd", 2, Place(0, 2), 1, 0, false);
  }

  /** Two goals that are missed: from "ab", line 1 column 1 ends in column 0; with three columns,
      column 0 of the second line of "abcd" ends in column 1. */
  lemma MissedGoals()
    ensures MoveTo(80, "ab", 1, 1) == Doc("ab\n", 3) && PlaceOf(80, "ab\n", 3) == Place(1, 0)
    ensures MoveTo(3, "abcd", 1, 0) == Doc("abcd", 4) && PlaceOf(3, "abcd", 4) == Place(1, 1)
  {
    PlaceHome(80, "ab\n");
    PlaceNext(80, "ab\n", 0);
    PlaceNext(80, "ab\n", 1);
    PlaceNext(80, "ab\n", 2);
    PlaceHome(3, "abcd");
    PlaceNext(3, "abcd", 0);
    PlaceNext(3, "abcd", 1);
    PlaceNext(3, "abcd", 2);
    PlaceNext(3, "abcd", 3);
    hide After;
    assert MoveTo(80, "ab", 1, 1) == Walk(80, "ab", 2, Place(0, 2), 1, 1);
    assert Filling(Place(0, 2), 1, 1) == "\n";
    assert MoveTo(3, "abcd", 1, 0) == Walk(3, "abcd", 2, Place(0, 2), 1, 0);
  }
}
