/** The line operations of WebTerminal on the flat text of the document, and the operations on a
    list of lines that they stand for. */
module ScreenLines {
  import opened ScreenText

  /*  Operations on the text  */

  /** The first line break at or behind `pos`, or the end. */
  function Eol(text: string, pos: nat): (e: nat)
    requires pos <= |text|
    ensures pos <= e <= |text| && (e < |text| ==> text[e] == '\n')
    ensures forall i :: pos <= i < e ==> text[i] != '\n'
    decreases |text| - pos
  {
    if pos == |text| || text[pos] == '\n' then pos else Eol(text, pos + 1)
  }

  function Cut(text: string, from: nat, to: nat): string
    requires from <= to <= |text|
  {
    text[..from] + text[to..]
  }

  /** `eraseCharactersRight` in delete mode: up to `count` characters of the line, all of them when
      `count` is negative. */
  function Erase(d: Doc, count: int): (r: Doc)
    requires d.pos <= |d.text|
    ensures r.pos <= |r.text|
  {
    var e := Eol(d.text, d.pos);
    Doc(Cut(d.text, d.pos, if 0 <= count < e - d.pos then d.pos + count else e), d.pos)
  }

  /** What erasing takes away: characters of the line behind the cursor, `count` of them or all that
      there are. Everything else stays. */
  lemma EraseTakes(d: Doc, count: int)
    requires d.pos <= |d.text|
    ensures exists n: nat :: Taken(d, count, n, Erase(d, count))
  {
    var e := Eol(d.text, d.pos);
    var n := if 0 <= count < e - d.pos then count else e - d.pos;
    assert Taken(d, count, n, Erase(d, count));
  }

  /** `r` is `d` without the `n` characters behind the cursor, which are as many of the `count` (of any
      number, when `count` is negative) as the line has. */
  predicate Taken(d: Doc, count: int, n: nat, r: Doc) {
    && d.pos + n <= |d.text| && r.pos == d.pos
    && r.text == d.text[..d.pos] + d.text[d.pos + n..]
    && (forall i :: d.pos <= i < d.pos + n ==> d.text[i] != '\n')
    && (count >= 0 ==> n <= count)
    && (n == count || d.pos + n == |d.text| || d.text[d.pos + n] == '\n')
  }

  /** `deleteLinesIgnoreScroll`: stops where there is no line break to remove. */
  function DeleteRows(d: Doc, count: int): (r: Doc)
    requires d.pos <= |d.text|
    ensures r.pos <= |r.text|
    decreases Positive(count)
  {
    if count <= 0 then d
    else
      var e := Erase(d, -1);
      if e.pos == |e.text| then e else DeleteRows(Doc(Cut(e.text, e.pos, e.pos + 1), e.pos), count - 1)
  }

  /** `insertLinesIgnoreScroll`: the cursor stays in front of the new lines. */
  function InsertRows(d: Doc, count: int): (r: Doc)
    requires d.pos <= |d.text|
    ensures r.pos <= |r.text|
  {
    Doc(PutIn(d.text, d.pos, Repeat('\n', Positive(count))), d.pos)
  }

  function Move(w: Width, d: Doc, gl: int, gc: int): (r: Doc)
    ensures r.pos <= |r.text|
  {
    WalkFills(w, d.text, 0, Home, gl, gc);
    MoveTo(w, d.text, gl, gc)
  }

  function CursorPlace(w: Width, d: Doc): Place
    requires d.pos <= |d.text|
  {
    PlaceOf(w, d.text, d.pos)
  }

  /** `cursorLineStart`: downwards it counts lines from the cursor, as if that were in column 0. */
  function LineStart(w: Width, d: Doc, delta: int): (r: Doc)
    requires d.pos <= |d.text|
    ensures r.pos <= |r.text|
  {
    if delta > 0 then
      WalkFills(w, d.text, d.pos, Home, delta, 0);
      Walk(w, d.text, d.pos, Home, delta, 0)
    else Move(w, d, CursorPlace(w, d).line + delta, 0)
  }

  function InsertLines(w: Width, d: Doc, bottom: int, count: int): Doc
    requires d.pos <= |d.text|
  {
    var line := CursorPlace(w, d).line;
    InsertRows(Move(w, DeleteRows(Move(w, d, bottom - count, 0), count), line, 0), count)
  }

  function DeleteLines(w: Width, d: Doc, bottom: int, count: int): Doc
    requires d.pos <= |d.text|
  {
    var e := DeleteRows(d, count);
    var line := CursorPlace(w, e).line;
    Move(w, InsertRows(LineStart(w, e, bottom - line - count), count), line, 0)
  }

  function ScrollForward(w: Width, d: Doc, top: int, bottom: int, count: int): Doc
    requires d.pos <= |d.text|
  {
    var line := CursorPlace(w, d).line;
    var e := DeleteRows(Move(w, d, top, 0), count);
    Move(w, InsertRows(LineStart(w, e, bottom - top - count), count), line, 0)
  }

  function ScrollReverse(w: Width, d: Doc, top: int, bottom: int, count: int): Doc
    requires d.pos <= |d.text|
  {
    var line := CursorPlace(w, d).line;
    var e := DeleteRows(Move(w, d, bottom - count, 0), count);
    Move(w, InsertRows(Move(w, e, top, 0), count), line, 0)
  }

  /*  When the remembered place stays right: every absolute move of the operation settles,
      whatever nodes stand behind the last character  */

  ghost predicate SettlesAt(w: Width, d: Doc, gl: int) {
    Settles(w, d.text, gl, 0, true)
  }

  ghost predicate LineStartSettles(w: Width, d: Doc, delta: int)
    requires d.pos <= |d.text|
  {
    delta > 0 || SettlesAt(w, d, CursorPlace(w, d).line + delta)
  }

  ghost predicate InsertSettles(w: Width, d: Doc, bottom: int, count: int)
    requires d.pos <= |d.text|
  {
    && SettlesAt(w, d, bottom - count)
    && SettlesAt(w, DeleteRows(Move(w, d, bottom - count, 0), count), CursorPlace(w, d).line)
  }

  ghost predicate DeleteSettles(w: Width, d: Doc, bottom: int, count: int)
    requires d.pos <= |d.text|
  {
    var e := DeleteRows(d, count);
    var line := CursorPlace(w, e).line;
    && LineStartSettles(w, e, bottom - line - count)
    && SettlesAt(w, InsertRows(LineStart(w, e, bottom - line - count), count), line)
  }

  ghost predicate ForwardSettles(w: Width, d: Doc, top: int, bottom: int, count: int)
    requires d.pos <= |d.text|
  {
    var e := DeleteRows(Move(w, d, top, 0), count);
    && SettlesAt(w, d, top) && LineStartSettles(w, e, bottom - top - count)
    && SettlesAt(w, InsertRows(LineStart(w, e, bottom - top - count), count), CursorPlace(w, d).line)
  }

  ghost predicate ReverseSettles(w: Width, d: Doc, top: int, bottom: int, count: int)
    requires d.pos <= |d.text|
  {
    var e := DeleteRows(Move(w, d, bottom - count, 0), count);
    && SettlesAt(w, d, bottom - count) && SettlesAt(w, e, top)
    && SettlesAt(w, InsertRows(Move(w, e, top, 0), count), CursorPlace(w, d).line)
  }

  /*  Operations on lists of lines  */

  type Lines = seq<string>

  function Flatten(ls: Lines): string {
    if ls == [] then "" else ls[0] + "\n" + Flatten(ls[1..])
  }

  /** The line has no line break in it and is not wrapped. */
  predicate Plain(w: Width, l: string) {
    |l| <= w && forall i :: 0 <= i < |l| ==> l[i] != '\n'
  }

  predicate Proper(w: Width, ls: Lines) {
    forall i :: 0 <= i < |ls| ==> Plain(w, ls[i])
  }

  function Blanks(n: nat): (ls: Lines)
    ensures |ls| == n && forall i :: 0 <= i < n ==> ls[i] == ""
  {
    seq(n, _ => "")
  }

  /** The lines with blank ones added up to `n`. */
  function Pad(ls: Lines, n: int): (r: Lines)
    ensures |r| >= |ls| && |r| >= n && ls <= r
  {
    ls + Blanks(Positive(n - |ls|))
  }

  /** The document of these lines, with the cursor in column 0 of line `k`. */
  function At(ls: Lines, k: nat): (d: Doc)
    requires k <= |ls|
    ensures d.pos <= |d.text|
  {
    FlattenSplit(ls, k);
    Doc(Flatten(ls), |Flatten(ls[..k])|)
  }

  /** Lines `a`..`b` move up by `n`; blank lines come in below. */
  function ScrollUp(ls: Lines, a: nat, b: nat, n: nat): Lines
    requires a + n <= b <= |ls|
  {
    ls[..a] + ls[a + n..b] + Blanks(n) + ls[b..]
  }

  /** Lines `a`..`b` move down by `n`; blank lines come in above. */
  function ScrollDown(ls: Lines, a: nat, b: nat, n: nat): Lines
    requires a + n <= b <= |ls|
  {
    ls[..a] + Blanks(n) + ls[a..b - n] + ls[b..]
  }

  /** Region operations keep the number of lines and every line outside the region. */
  lemma RegionOnly(ls: Lines, a: nat, b: nat, n: nat)
    requires a + n <= b <= |ls|
    ensures |ScrollUp(ls, a, b, n)| == |ls| == |ScrollDown(ls, a, b, n)|
    ensures forall i :: 0 <= i < a || b <= i < |ls| ==> ScrollUp(ls, a, b, n)[i] == ls[i] == ScrollDown(ls, a, b, n)[i]
    ensures forall i :: a <= i < b ==> ScrollUp(ls, a, b, n)[i] == if i < b - n then ls[i + n] else ""
    ensures forall i :: a <= i < b ==> ScrollDown(ls, a, b, n)[i] == if i < a + n then "" else ls[i - n]
  {
  }

  /** Scrolling up and back blanks the top `n` lines of the region and nothing else. */
  lemma UpThenDown(ls: Lines, a: nat, b: nat, n: nat)
    requires a + n <= b <= |ls|
    ensures |ScrollUp(ls, a, b, n)| == |ls|
    ensures ScrollDown(ScrollUp(ls, a, b, n), a, b, n) == ls[..a] + Blanks(n) + ls[a + n..]
  {
    RegionOnly(ls, a, b, n);
    RegionOnly(ScrollUp(ls, a, b, n), a, b, n);
  }

  /*  Flattening  */

  lemma {:induction false} FlattenAppend(a: Lines, b: Lines)
    ensures Flatten(a + b) == Flatten(a) + Flatten(b)
  {
    if a == [] {
      assert a + b == b;
    } else {
      assert (a + b)[1..] == a[1..] + b;
      FlattenAppend(a[1..], b);
    }
  }

  lemma FlattenSplit(ls: Lines, k: nat)
    requires k <= |ls|
    ensures Flatten(ls) == Flatten(ls[..k]) + Flatten(ls[k..])
  {
    assert ls == ls[..k] + ls[k..];
    FlattenAppend(ls[..k], ls[k..]);
  }

  lemma {:induction false} FlattenBlanks(n: nat)
    ensures Flatten(Blanks(n)) == Repeat('\n', n)
  {
    if n > 0 {
      assert Blanks(n)[1..] == Blanks(n - 1);
      FlattenBlanks(n - 1);
      assert Repeat('\n', n) == "" + "\n" + Repeat('\n', n - 1);
    }
  }

  lemma {:induction false} AfterPlain(w: Width, p: Place, l: string)
    requires p.col + |l| <= w && forall i :: 0 <= i < |l| ==> l[i] != '\n'
    ensures After(w, p, l) == Place(p.line, p.col + |l|)
    decreases |l|
  {
    if l != "" {
      AfterPlain(w, Next(w, p, l[0]), l[1..]);
    }
  }

  lemma AfterLine(w: Width, n: nat, l: string)
    requires Plain(w, l)
    ensures After(w, Place(n, 0), l + "\n") == Place(n + 1, 0)
  {
    AfterAppend(w, Place(n, 0), l, "\n");
    AfterPlain(w, Place(n, 0), l);
    AfterOne(w, Place(n, |l|), '\n');
  }

  lemma {:induction false} AfterLines(w: Width, n: nat, ls: Lines)
    requires Proper(w, ls)
    ensures After(w, Place(n, 0), Flatten(ls)) == Place(n + |ls|, 0)
    decreases ls
  {
    if ls != [] {
      AfterAppend(w, Place(n, 0), ls[0] + "\n", Flatten(ls[1..]));
      AfterLine(w, n, ls[0]);
      AfterLines(w, n + 1, ls[1..]);
    }
  }

  /** The cursor place of `At`. */
  lemma PlaceAt(w: Width, ls: Lines, k: nat)
    requires Proper(w, ls) && k <= |ls|
    ensures CursorPlace(w, At(ls, k)) == Place(k, 0)
  {
    hide After;
    FlattenSplit(ls, k);
    var s := Flatten(ls[..k]);
    assert (s + Flatten(ls[k..]))[..|s|] == s;
    AfterLines(w, 0, ls[..k]);
  }

  lemma PadFlat(ls: Lines, n: int)
    ensures Flatten(Pad(ls, n)) == Flatten(ls) + Repeat('\n', Positive(n - |ls|))
  {
    FlattenAppend(ls, Blanks(Positive(n - |ls|)));
    FlattenBlanks(Positive(n - |ls|));
  }

  /** Moving to the start of a line, which may have to be added. */
  lemma MoveToLine(w: Width, ls: Lines, k: nat, gl: nat)
    requires Proper(w, ls) && k <= |ls|
    ensures Move(w, At(ls, k), gl, 0) == At(Pad(ls, gl), gl)
  {
    MoveToRow(w, ls, gl);
  }

  lemma MoveToRow(w: Width, ls: Lines, gl: nat)
    requires Proper(w, ls)
    ensures MoveTo(w, Flatten(ls), gl, 0) == At(Pad(ls, gl), gl)
  {
    hide After, Flatten;
    var text := Flatten(ls);
    var k := if gl <= |ls| then gl else |ls|;
    var d := At(ls, k);
    PlaceAt(w, ls, k);
    MoveFromCursor(w, text, d.pos, gl, 0);
    PadFlat(ls, gl);
    if gl <= |ls| {
      assert Pad(ls, gl) == ls;
    } else {
      assert ls[..k] == ls && Pad(ls, gl)[..gl] == Pad(ls, gl);
      assert Filling(Place(k, 0), gl, 0) == Repeat('\n', gl - k);
    }
  }

  /** A walk may count its lines from anywhere. */
  lemma {:induction false} WalkShift(w: Width, text: string, pos: nat, p: Place, k: nat, gl: int, gc: int)
    requires pos <= |text|
    ensures Walk(w, text, pos, Place(p.line + k, p.col), gl + k, gc) == Walk(w, text, pos, p, gl, gc)
    decreases |text| - pos
  {
    var q := Place(p.line + k, p.col);
    assert Filling(q, gl + k, gc) == Filling(p, gl, gc);
    if pos < |text| {
      var r := Next(w, p, text[pos]);
      assert Next(w, q, text[pos]) == Place(r.line + k, r.col);
      WalkShift(w, text, pos + 1, r, k, gl, gc);
    }
  }

  lemma LineStartAt(w: Width, ls: Lines, k: nat, delta: int)
    requires Proper(w, ls) && k <= |ls| && 0 <= k + delta
    ensures LineStart(w, At(ls, k), delta) == At(Pad(ls, k + delta), k + delta)
  {
    hide After, Walk, Flatten;
    var d := At(ls, k);
    PlaceAt(w, ls, k);
    MoveToRow(w, ls, k + delta);
    if delta > 0 {
      WalkShift(w, d.text, d.pos, Home, k, delta, 0);
      MoveFromCursor(w, d.text, d.pos, k + delta, 0);
    }
  }

  function Min(a: int, b: int): int {
    if a < b then a else b
  }

  /** The cursor in the text `before` and the lines behind it. */
  function Between(before: string, ls: Lines): (d: Doc)
    ensures d.pos <= |d.text|
  {
    Doc(before + Flatten(ls), |before|)
  }

  lemma EolOf(s: string, l: string, t: string)
    requires forall i :: 0 <= i < |l| ==> l[i] != '\n'
    ensures Eol(s + (l + "\n" + t), |s|) == |s| + |l|
  {
    var text := s + (l + "\n" + t);
    assert text[|s| + |l|] == '\n';
    assert forall i :: 0 <= i < |l| ==> text[|s| + i] == l[i];
  }

  /** Behind the last line there is nothing to delete. */
  lemma DeleteAtEnd(d: Doc, n: nat)
    requires d.pos == |d.text|
    ensures DeleteRows(d, n) == d
  {
    assert Cut(d.text, d.pos, d.pos) == d.text;
  }

  lemma DeleteNext(before: string, ls: Lines)
    requires ls != [] && forall i :: 0 <= i < |ls[0]| ==> ls[0][i] != '\n'
    ensures var e := Erase(Between(before, ls), -1);
            && e.pos < |e.text|
            && Doc(Cut(e.text, e.pos, e.pos + 1), e.pos) == Between(before, ls[1..])
  {
    EolOf(before, ls[0], Flatten(ls[1..]));
    CutLine(before, ls[0], Flatten(ls[1..]));
  }

  lemma CutLine(before: string, l: string, t: string)
    ensures Cut(before + (l + "\n" + t), |before|, |before| + |l|) == before + ("\n" + t)
    ensures Cut(before + ("\n" + t), |before|, |before| + 1) == before + t
  {
    var text := before + (l + "\n" + t);
    assert text[..|before|] == before && text[|before| + |l|..] == "\n" + t;
  }

  /** Deleting rows from any place takes whole lines off what follows. */
  lemma {:induction false} DeleteRowsFrom(w: Width, before: string, ls: Lines, n: nat)
    requires Proper(w, ls)
    ensures DeleteRows(Between(before, ls), n) == Between(before, ls[Min(n, |ls|)..])
    decreases n
  {
    hide Between, Cut, Erase;
    if n == 0 {
      assert ls[0..] == ls;
    } else if ls == [] {
      BetweenNothing(before);
      DeleteAtEnd(Between(before, ls), n);
    } else {
      DeleteNext(before, ls);
      DeleteRowsFrom(w, before, ls[1..], n - 1);
      assert ls[1..][Min(n - 1, |ls| - 1)..] == ls[Min(n, |ls|)..];
    }
  }

  lemma BetweenNothing(before: string)
    ensures Between(before, []).pos == |Between(before, []).text|
  {
    assert before + "" == before;
  }

  lemma AtIsBetween(ls: Lines, k: nat)
    requires k <= |ls|
    ensures At(ls, k) == Between(Flatten(ls[..k]), ls[k..])
  {
    FlattenSplit(ls, k);
  }

  /** Deleting rows of text deletes lines of the list. */
  lemma DeleteRowsAt(w: Width, ls: Lines, k: nat, n: nat)
    requires Proper(w, ls) && k <= |ls|
    ensures DeleteRows(At(ls, k), n) == At(ls[..k] + ls[Min(k + n, |ls|)..], k)
  {
    hide DeleteRows, At, Between;
    var cut := ls[..k] + ls[Min(k + n, |ls|)..];
    AtIsBetween(ls, k);
    DeleteRowsFrom(w, Flatten(ls[..k]), ls[k..], n);
    AtIsBetween(cut, k);
    assert cut[..k] == ls[..k] && cut[k..] == ls[Min(k + n, |ls|)..] == ls[k..][Min(n, |ls| - k)..];
  }

  lemma InsertRowsAt(ls: Lines, k: nat, n: nat)
    requires k <= |ls|
    ensures InsertRows(At(ls, k), n) == At(ls[..k] + Blanks(n) + ls[k..], k)
  {
    FlattenSplit(ls, k);
    FlattenBlanks(n);
    FlattenAppend(ls[..k], Blanks(n));
    FlattenAppend(ls[..k] + Blanks(n), ls[k..]);
    assert (ls[..k] + Blanks(n) + ls[k..])[..k] == ls[..k];
    var d := At(ls, k);
    assert d.text[..d.pos] == Flatten(ls[..k]) && d.text[d.pos..] == Flatten(ls[k..]);
  }

  /*  The operations on the screen are the region operations  */

  /** Delete `n` lines at `a`, then add as many in front of what was line `b`. */
  lemma UpParts(ls: Lines, a: nat, b: nat, n: nat)
    requires a <= |ls| && a + n <= b
    ensures var cut := ls[..a] + ls[Min(a + n, |ls|)..]; var p := Pad(cut, b - n);
            p[..b - n] + Blanks(n) + p[b - n..] == ScrollUp(Pad(ls, b), a, b, n)
  {
    var cut := ls[..a] + ls[Min(a + n, |ls|)..];
    var p := Pad(cut, b - n);
    var full := Pad(ls, b);
    assert p[..b - n] == full[..a] + full[a + n..b];
    assert p[b - n..] == full[b..];
  }

  /** Delete `n` lines in front of line `b`, then add as many at `a`. */
  lemma DownParts(ls: Lines, a: nat, b: nat, n: nat)
    requires a + n <= b
    ensures var p := Pad(ls, b - n); var cut := p[..b - n] + p[Min(b, |p|)..];
            Pad(cut, a) == cut && cut[..a] + Blanks(n) + cut[a..] == ScrollDown(Pad(ls, b), a, b, n)
  {
    var p := Pad(ls, b - n);
    var cut := p[..b - n] + p[Min(b, |p|)..];
    var full := Pad(ls, b);
    assert cut[..a] == full[..a];
    assert cut[a..] == full[a..b - n] + full[b..];
  }

  lemma ProperUp(w: Width, ls: Lines, a: nat, b: nat, n: nat)
    requires Proper(w, ls) && a + n <= b
    ensures Proper(w, Pad(ls, b)) && Proper(w, ScrollUp(Pad(ls, b), a, b, n))
            && Proper(w, ScrollDown(Pad(ls, b), a, b, n))
    ensures |ScrollUp(Pad(ls, b), a, b, n)| == |Pad(ls, b)| == |ScrollDown(Pad(ls, b), a, b, n)|
  {
    var full := Pad(ls, b);
    assert Proper(w, full);
    RegionOnly(full, a, b, n);
    forall i | 0 <= i < |full|
      ensures Plain(w, ScrollUp(full, a, b, n)[i]) && Plain(w, ScrollDown(full, a, b, n)[i])
    {
    }
  }

  /** Moving where the line exists. */
  lemma MoveWithin(w: Width, ls: Lines, k: nat, gl: nat)
    requires Proper(w, ls) && k <= |ls| && gl <= |ls|
    ensures Move(w, At(ls, k), gl, 0) == At(ls, gl)
  {
    MoveToLine(w, ls, k, gl);
    assert Pad(ls, gl) == ls;
  }

  /** What follows the deletion when scrolling up. */
  lemma UpRest(w: Width, ls: Lines, a: nat, b: nat, n: nat, line: nat)
    requires Proper(w, ls) && a <= |ls| && a + n <= b && line <= |Pad(ls, b)|
    requires line <= |ScrollUp(Pad(ls, b), a, b, n)|
    ensures var e := DeleteRows(At(ls, a), n);
            Move(w, InsertRows(LineStart(w, e, b - a - n), n), line, 0) == At(ScrollUp(Pad(ls, b), a, b, n), line)
  {
    hide At, LineStart, DeleteRows, ScrollUp, InsertRows, Move;
    DeleteRowsAt(w, ls, a, n);
    var cut := ls[..a] + ls[Min(a + n, |ls|)..];
    LineStartAt(w, cut, a, b - a - n);
    InsertRowsAt(Pad(cut, b - n), b - n, n);
    UpParts(ls, a, b, n);
    ProperUp(w, ls, a, b, n);
    MoveWithin(w, ScrollUp(Pad(ls, b), a, b, n), b - n, line);
  }

  lemma DownRest(w: Width, ls: Lines, a: nat, b: nat, n: nat)
    requires Proper(w, ls) && a + n <= b
    requires a <= |ScrollDown(Pad(ls, b), a, b, n)|
    ensures var e := DeleteRows(At(Pad(ls, b - n), b - n), n);
            InsertRows(Move(w, e, a, 0), n) == At(ScrollDown(Pad(ls, b), a, b, n), a)
  {
    hide At, DeleteRows, ScrollDown, InsertRows, Move;
    var p := Pad(ls, b - n);
    assert Proper(w, p);
    DeleteRowsAt(w, p, b - n, n);
    var cut := p[..b - n] + p[Min(b, |p|)..];
    DownParts(ls, a, b, n);
    MoveToLine(w, cut, b - n, a);
    InsertRowsAt(cut, a, n);
  }

  /** Delete line, from column 0 of line `k`: the lines from there to the bottom move up. */
  lemma DeleteLinesAt(w: Width, ls: Lines, k: nat, bottom: nat, n: nat)
    requires Proper(w, ls) && k <= |ls| && k + n <= bottom
    ensures k <= |ScrollUp(Pad(ls, bottom), k, bottom, n)|
    ensures DeleteLines(w, At(ls, k), bottom, n) == At(ScrollUp(Pad(ls, bottom), k, bottom, n), k)
  {
    hide At, DeleteRows, ScrollUp, InsertRows, Move, LineStart;
    ProperUp(w, ls, k, bottom, n);
    DeleteRowsAt(w, ls, k, n);
    PlaceAt(w, ls[..k] + ls[Min(k + n, |ls|)..], k);
    UpRest(w, ls, k, bottom, n, k);
  }

  /** Insert line: the lines from the cursor's to the bottom move down, and the cursor goes to
      column 0. */
  lemma InsertLinesAt(w: Width, ls: Lines, d: Doc, k: nat, bottom: nat, n: nat)
    requires Proper(w, ls) && d.pos <= |d.text| && d.text == Flatten(ls) && CursorPlace(w, d).line == k
             && k + n <= bottom
    ensures k <= |ScrollDown(Pad(ls, bottom), k, bottom, n)|
    ensures InsertLines(w, d, bottom, n) == At(ScrollDown(Pad(ls, bottom), k, bottom, n), k)
  {
    hide At, DeleteRows, ScrollDown, InsertRows;
    ProperUp(w, ls, k, bottom, n);
    MoveToRow(w, ls, bottom - n);
    DownRest(w, ls, k, bottom, n);
  }

  lemma PadTwice(ls: Lines, a: nat, b: nat)
    requires a <= b
    ensures Pad(Pad(ls, a), b) == Pad(ls, b)
  {
  }

  /** The line of the cursor exists. */
  lemma CursorLineExists(w: Width, ls: Lines, d: Doc)
    requires Proper(w, ls) && d.pos <= |d.text| && d.text == Flatten(ls)
    ensures CursorPlace(w, d).line <= |ls|
  {
    hide After;
    LineMonotone(w, d.text, d.pos);
    AfterLines(w, 0, ls);
    assert d.text[..|d.text|] == d.text;
  }

  /** Scroll up: the lines of the scroll region move up. */
  lemma ScrollForwardAt(w: Width, ls: Lines, d: Doc, top: nat, bottom: nat, n: nat)
    requires Proper(w, ls) && d.pos <= |d.text| && d.text == Flatten(ls) && top + n <= bottom
    ensures CursorPlace(w, d).line <= |ScrollUp(Pad(ls, bottom), top, bottom, n)|
    ensures ScrollForward(w, d, top, bottom, n) == At(ScrollUp(Pad(ls, bottom), top, bottom, n), CursorPlace(w, d).line)
  {
    hide At, DeleteRows, ScrollUp, InsertRows, LineStart, CursorPlace;
    CursorLineExists(w, ls, d);
    ProperUp(w, ls, top, bottom, n);
    MoveToRow(w, ls, top);
    PadTwice(ls, top, bottom);
    assert Proper(w, Pad(ls, top));
    UpRest(w, Pad(ls, top), top, bottom, n, CursorPlace(w, d).line);
  }

  /** Scroll down: the lines of the scroll region move down. */
  lemma ScrollReverseAt(w: Width, ls: Lines, d: Doc, top: nat, bottom: nat, n: nat)
    requires Proper(w, ls) && d.pos <= |d.text| && d.text == Flatten(ls) && top + n <= bottom
    ensures CursorPlace(w, d).line <= |ScrollDown(Pad(ls, bottom), top, bottom, n)|
    ensures ScrollReverse(w, d, top, bottom, n)
            == At(ScrollDown(Pad(ls, bottom), top, bottom, n), CursorPlace(w, d).line)
  {
    hide At, DeleteRows, ScrollDown, InsertRows, CursorPlace;
    CursorLineExists(w, ls, d);
    ProperUp(w, ls, top, bottom, n);
    MoveToRow(w, ls, bottom - n);
    DownRest(w, ls, top, bottom, n);
    MoveWithin(w, ScrollDown(Pad(ls, bottom), top, bottom, n), top, CursorPlace(w, d).line);
  }

  /** Scrolling forward and back blanks the top `n` lines of the region and changes nothing else
      but the cursor's column. */
  lemma ForwardThenReverse(w: Width, ls: Lines, d: Doc, top: nat, bottom: nat, n: nat)
    requires Proper(w, ls) && d.pos <= |d.text| && d.text == Flatten(ls) && top + n <= bottom
    ensures var d' := ScrollForward(w, d, top, bottom, n);
            var full := Pad(ls, bottom);
            && d'.pos <= |d'.text| && CursorPlace(w, d).line <= |ls|
            && ScrollReverse(w, d', top, bottom, n)
               == At(full[..top] + Blanks(n) + full[top + n..], CursorPlace(w, d).line)
  {
    hide At, ScrollUp, ScrollDown, CursorPlace, ScrollForward, ScrollReverse;
    var line := CursorPlace(w, d).line;
    var full := Pad(ls, bottom);
    CursorLineExists(w, ls, d);
    ProperUp(w, ls, top, bottom, n);
    ScrollForwardAt(w, ls, d, top, bottom, n);
    var up := ScrollUp(full, top, bottom, n);
    var d' := At(up, line);
    AtText(up, line);
    PlaceAt(w, up, line);
    ScrollReverseAt(w, up, d', top, bottom, n);
    assert Pad(up, bottom) == up;
    UpThenDown(ls := full, a := top, b := bottom, n := n);
  }

  lemma AtText(ls: Lines, k: nat)
    requires k <= |ls|
    ensures At(ls, k).text == Flatten(ls)
  {
  }

  /*  From any column  */

  function Shifted(before: string, d: Doc): Doc {
    Doc(before + d.text, |before| + d.pos)
  }

  lemma Assoc(a: string, b: string, c: string)
    ensures (a + b) + c == a + (b + c)
  {
  }

  /** Text before the start of a walk plays no part in it. */
  lemma {:induction false} WalkShifted(w: Width, before: string, t: string, i: nat, p: Place, gl: int, gc: int)
    requires i <= |t|
    ensures Walk(w, before + t, |before| + i, p, gl, gc) == Shifted(before, Walk(w, t, i, p, gl, gc))
    decreases |t| - i
  {
    if !(p.line < gl || p.col < gc) {
    } else if i == |t| {
      Assoc(before, t, Filling(p, gl, gc));
    } else if t[i] == '\n' && p.line == gl {
      var n := Positive(gc - p.col);
      assert (before + t)[..|before| + i] == before + t[..i] && (before + t)[|before| + i..] == t[i..];
      assert before + (t[..i] + Repeat(' ', n) + t[i..]) == (before + t[..i]) + Repeat(' ', n) + t[i..];
    } else {
      WalkShifted(w, before, t, i + 1, Next(w, p, t[i]), gl, gc);
    }
  }

  /** Downwards, `cursorLineStart` finds the line whatever the column it starts from. */
  lemma LineStartFrom(w: Width, before: string, ls: Lines, delta: nat)
    requires Proper(w, ls) && delta > 0
    ensures LineStart(w, Between(before, ls), delta) == Shifted(before, At(Pad(ls, delta), delta))
  {
    hide Flatten, Walk;
    WalkShifted(w, before, Flatten(ls), 0, Home, delta, 0);
    MoveToRow(w, ls, delta);
  }

  /** Moving up to the start of a line behind plain lines, whatever follows. */
  lemma MoveToStart(w: Width, front: Lines, rest: string)
    requires Proper(w, front)
    ensures MoveTo(w, Flatten(front) + rest, |front|, 0) == Doc(Flatten(front) + rest, |Flatten(front)|)
  {
    hide After;
    var s := Flatten(front);
    assert (s + rest)[..|s|] == s;
    AfterLines(w, 0, front);
    MoveFromCursor(w, s + rest, |s|, |front|, 0);
  }

  lemma PlaceInLine(w: Width, front: Lines, pre: string, rest: string)
    requires Proper(w, front) && Plain(w, pre)
    ensures PlaceOf(w, (Flatten(front) + pre) + rest, |Flatten(front) + pre|) == Place(|front|, |pre|)
  {
    hide After;
    var s := Flatten(front) + pre;
    assert (s + rest)[..|s|] == s;
    AfterAppend(w, Home, Flatten(front), pre);
    AfterLines(w, 0, front);
    AfterPlain(w, Place(|front|, 0), pre);
  }

  /** Column `c` of line `k`. */
  function InLine(ls: Lines, k: nat, c: nat): Doc
    requires k < |ls| && c <= |ls[k]|
  {
    Between(Flatten(ls[..k]) + ls[k][..c], [ls[k][c..]] + ls[k + 1..])
  }

  lemma InLineText(w: Width, ls: Lines, k: nat, c: nat)
    requires k < |ls| && c <= |ls[k]| && Proper(w, ls)
    ensures InLine(ls, k, c).text == Flatten(ls) && CursorPlace(w, InLine(ls, k, c)) == Place(k, c)
    ensures Proper(w, [ls[k][c..]] + ls[k + 1..]) && Proper(w, ls[..k]) && Plain(w, ls[k][..c])
  {
    var front, pre, post, more := Flatten(ls[..k]), ls[k][..c], ls[k][c..], ls[k + 1..];
    var tail := [post] + more;
    assert tail[1..] == more;
    FlattenSplit(ls, k);
    assert ls[k..][1..] == more && pre + post == ls[k];
    assert front + pre + (post + "\n" + Flatten(more)) == front + ((pre + post) + "\n" + Flatten(more));
    PlaceInLine(w, ls[..k], pre, Flatten(tail));
  }

  lemma ScrollUpTail(ls: Lines, k: nat, b: nat, n: nat)
    requires k < |ls| && k + n <= b && n > 0
    ensures var p := Pad(ls[Min(k + n, |ls|)..], b - k - n);
            var moved := p[..b - k - n] + Blanks(n) + p[b - k - n..];
            ScrollUp(Pad(ls, b), k, b, n) == ls[..k] + moved
  {
    var p := Pad(ls[Min(k + n, |ls|)..], b - k - n);
    var full := Pad(ls, b);
    assert p == full[k + n..] by {
      assert |p| == |full| - (k + n);
      assert forall i :: 0 <= i < |p| ==> p[i] == full[k + n + i];
    }
    assert p[..b - k - n] == full[k + n..b];
    assert p[b - k - n..] == full[b..];
    assert full[..k] == ls[..k];
  }

  /** The line whose start the kept front of a line comes to. */
  function KeptAt(k: nat, b: nat, n: nat): nat {
    if k + n < b then k else b
  }

  /** Delete line from any column: the lines move as from column 0, and what stood before the cursor
      in its line comes before the line that has moved up to it, or, when the whole region is
      deleted, before the line below the region. */
  lemma DeleteLinesFrom(w: Width, ls: Lines, k: nat, c: nat, bottom: nat, n: nat)
    requires Proper(w, ls) && k < |ls| && c <= |ls[k]| && 0 < n && k + n <= bottom
    ensures var r := ScrollUp(Pad(ls, bottom), k, bottom, n);
            && k <= |r| && KeptAt(k, bottom, n) <= |r|
            && DeleteLines(w, InLine(ls, k, c), bottom, n)
               == Doc(PutIn(Flatten(r), At(r, KeptAt(k, bottom, n)).pos, ls[k][..c]), At(r, k).pos)
  {
    hide DeleteRows, LineStart, InsertRows, Move, Flatten, ScrollUp, PutIn, PlaceOf, At;
    var d, pre, tail := InLine(ls, k, c), ls[k][..c], [ls[k][c..]] + ls[k + 1..];
    var front := ls[..k];
    var before := Flatten(front) + pre;
    InLineText(w, ls, k, c);
    DeleteRowsFrom(w, before, tail, n);
    var rest := ls[Min(k + n, |ls|)..];
    assert tail[Min(n, |tail|)..] == rest;
    var e := Between(before, rest);
    PlaceInLine(w, front, pre, Flatten(rest));
    ScrollUpTail(ls, k, bottom, n);
    if k + n < bottom {
      DeleteAbove(w, front, pre, rest, bottom - k - n, n);
    } else {
      DeleteAll(w, front, pre, rest, n);
    }
    KeptIsThere(ls, front, pre, rest, k, bottom, n);
  }

  /** Behind the deletion, with lines of the region left below. */
  lemma DeleteAbove(w: Width, front: Lines, pre: string, rest: Lines, delta: nat, n: nat)
    requires Proper(w, front) && Plain(w, pre) && Proper(w, rest) && delta > 0
    ensures var p := Pad(rest, delta);
            var moved := p[..delta] + Blanks(n) + p[delta..];
            var e := Between(Flatten(front) + pre, rest);
            Move(w, InsertRows(LineStart(w, e, delta), n), |front|, 0)
            == Doc(Flatten(front) + (pre + Flatten(moved)), |Flatten(front)|)
  {
    hide Flatten, Walk, LineStart, At;
    var before, p := Flatten(front) + pre, Pad(rest, delta);
    LineStartFrom(w, before, rest, delta);
    InsertRowsAt(p, delta, n);
    InsertShifted(before, At(p, delta), n);
    var moved := p[..delta] + Blanks(n) + p[delta..];
    AtText(moved, delta);
    Assoc(Flatten(front), pre, Flatten(moved));
    MoveToStart(w, front, pre + Flatten(moved));
  }

  lemma InsertShifted(before: string, d: Doc, n: nat)
    requires d.pos <= |d.text|
    ensures InsertRows(Shifted(before, d), n) == Shifted(before, InsertRows(d, n))
  {
    var t := before + d.text;
    assert t[..|before| + d.pos] == before + d.text[..d.pos] && t[|before| + d.pos..] == d.text[d.pos..];
    var s := Repeat('\n', Positive(n));
    assert (before + d.text[..d.pos]) + s + d.text[d.pos..] == before + (d.text[..d.pos] + s + d.text[d.pos..]);
  }

  /** Behind the deletion of the whole rest of the region. */
  lemma DeleteAll(w: Width, front: Lines, pre: string, rest: Lines, n: nat)
    requires Proper(w, front) && Plain(w, pre)
    ensures var e := Between(Flatten(front) + pre, rest);
            && CursorPlace(w, e).line == |front|
            && Move(w, InsertRows(LineStart(w, e, 0), n), |front|, 0)
               == Doc(Flatten(front) + (Flatten(Blanks(n)) + (pre + Flatten(rest))), |Flatten(front)|)
  {
    hide Walk, Flatten;
    var s, t := Flatten(front), pre + Flatten(rest);
    PlaceInLine(w, front, pre, Flatten(rest));
    Assoc(s, pre, Flatten(rest));
    MoveToStart(w, front, t);
    FlattenBlanks(n);
    assert (s + t)[..|s|] == s && (s + t)[|s|..] == t;
    Assoc(s, Repeat('\n', n), t);
    MoveToStart(w, front, Repeat('\n', n) + t);
  }

  /** Both outcomes as the text of the scrolled lines with the front put in. */
  lemma KeptIsThere(ls: Lines, front: Lines, pre: string, rest: Lines, k: nat, b: nat, n: nat)
    requires k < |ls| && front == ls[..k] && rest == ls[Min(k + n, |ls|)..] && 0 < n && k + n <= b
    ensures var r := ScrollUp(Pad(ls, b), k, b, n);
            var p := Pad(rest, b - k - n);
            var moved := p[..b - k - n] + Blanks(n) + p[b - k - n..];
            && b <= |r| && At(r, k).pos == |Flatten(front)|
            && PutIn(Flatten(r), At(r, KeptAt(k, b, n)).pos, pre)
               == if k + n < b then Flatten(front) + (pre + Flatten(moved))
                  else Flatten(front) + (Flatten(Blanks(n)) + (pre + Flatten(rest)))
  {
    hide Flatten;
    ScrollUpTail(ls, k, b, n);
    var r := ScrollUp(Pad(ls, b), k, b, n);
    var p := Pad(rest, b - k - n);
    var moved := p[..b - k - n] + Blanks(n) + p[b - k - n..];
    FlattenAppend(front, moved);
    assert r[..k] == front;
    if k + n < b {
      PutInAt(Flatten(front), pre, Flatten(moved));
    } else {
      assert p == rest && moved == Blanks(n) + rest;
      FlattenAppend(front, Blanks(n));
      FlattenAppend(Blanks(n), rest);
      assert r[..b] == front + Blanks(n);
      var x, y, z := Flatten(front), Flatten(Blanks(n)), Flatten(rest);
      Assoc(x, y, z);
      PutInAt(x + y, pre, z);
      Assoc(x, y, pre + z);
    }
  }

  lemma PutInAt(s: string, pre: string, t: string)
    ensures PutIn(s + t, |s|, pre) == s + (pre + t)
  {
    assert (s + t)[..|s|] == s && (s + t)[|s|..] == t;
    Assoc(s, pre, t);
  }

  /** A carriage return and the line feed behind it, taken together as one move, are the two moves:
      to column 0 and a line down. */
  lemma CarriageReturnLineFeed(w: Width, ls: Lines, k: nat, c: nat)
    requires Proper(w, ls) && k < |ls| && c <= |ls[k]|
    ensures var d := InLine(ls, k, c);
            var e := LineStart(w, d, 0);
            CursorPlace(w, e) == Place(k, 0) && LineStart(w, d, 1) == Move(w, e, k + 1, 0)
  {
    var d := InLine(ls, k, c);
    var before, tail := Flatten(ls[..k]) + ls[k][..c], [ls[k][c..]] + ls[k + 1..];
    InLineText(w, ls, k, c);
    LineStartFrom(w, before, tail, 1);
    MoveToRow(w, ls, k);
    MoveToRow(w, ls, k + 1);
    PlaceAt(w, ls, k);
    assert Pad(ls, k) == ls && Pad(ls, k + 1) == ls && Pad(tail, 1) == tail;
    assert ls[..k + 1] == ls[..k] + [ls[k]];
    FlattenAppend(ls[..k], [ls[k]]);
    OneLine(ls[k]);
    assert tail[..1] == [ls[k][c..]];
    OneLine(ls[k][c..]);
  }

  lemma OneLine(l: string)
    ensures Flatten([l]) == l + "\n"
  {
    assert Flatten([l][1..]) == "";
  }

  /*  On whole lines every move settles  */

  lemma LinesSettle(w: Width, ls: Lines, k: nat, gl: int)
    requires Proper(w, ls) && k <= |ls|
    ensures SettlesAt(w, At(ls, k), gl)
  {
    TextSettles(w, ls, At(ls, k), gl);
  }

  lemma TextSettles(w: Width, ls: Lines, d: Doc, gl: int)
    requires Proper(w, ls) && d.text == Flatten(ls)
    ensures SettlesAt(w, d, gl)
  {
    hide After;
    AfterLines(w, 0, ls);
    assert d.text[..|d.text|] == d.text;
  }

  lemma CutIsProper(w: Width, ls: Lines, a: nat, b: int)
    requires Proper(w, ls) && a <= b <= |ls|
    ensures Proper(w, ls[..a] + ls[b..])
  {
  }

  lemma InsertLinesSettle(w: Width, ls: Lines, d: Doc, bottom: nat, n: nat)
    requires Proper(w, ls) && d.pos <= |d.text| && d.text == Flatten(ls) && CursorPlace(w, d).line + n <= bottom
    ensures InsertSettles(w, d, bottom, n)
  {
    hide At, DeleteRows, CursorPlace, SettlesAt;
    TextSettles(w, ls, d, bottom - n);
    MoveToRow(w, ls, bottom - n);
    var p := Pad(ls, bottom - n);
    assert Proper(w, p);
    DeleteRowsAt(w, p, bottom - n, n);
    CutIsProper(w, p, bottom - n, Min(bottom, |p|));
    LinesSettle(w, p[..bottom - n] + p[Min(bottom, |p|)..], bottom - n, CursorPlace(w, d).line);
  }

  lemma DeleteLinesSettle(w: Width, ls: Lines, k: nat, bottom: nat, n: nat)
    requires Proper(w, ls) && k <= |ls| && k + n <= bottom
    ensures DeleteSettles(w, At(ls, k), bottom, n)
  {
    hide At, DeleteRows, InsertRows, LineStart, CursorPlace, SettlesAt;
    DeleteRowsAt(w, ls, k, n);
    var cut := ls[..k] + ls[Min(k + n, |ls|)..];
    CutIsProper(w, ls, k, Min(k + n, |ls|));
    PlaceAt(w, cut, k);
    LinesSettle(w, cut, k, k + (bottom - k - n));
    UpSettle(w, ls, k, bottom, n, k);
  }

  /** The last move of an operation that scrolls up. */
  lemma UpSettle(w: Width, ls: Lines, a: nat, b: nat, n: nat, line: int)
    requires Proper(w, ls) && a <= |ls| && a + n <= b
    ensures SettlesAt(w, InsertRows(LineStart(w, DeleteRows(At(ls, a), n), b - a - n), n), line)
  {
    hide At, LineStart, DeleteRows, ScrollUp, InsertRows, SettlesAt;
    DeleteRowsAt(w, ls, a, n);
    var cut := ls[..a] + ls[Min(a + n, |ls|)..];
    CutIsProper(w, ls, a, Min(a + n, |ls|));
    LineStartAt(w, cut, a, b - a - n);
    InsertRowsAt(Pad(cut, b - n), b - n, n);
    UpParts(ls, a, b, n);
    ProperUp(w, ls, a, b, n);
    LinesSettle(w, ScrollUp(Pad(ls, b), a, b, n), b - n, line);
  }

  lemma ForwardSettle(w: Width, ls: Lines, d: Doc, top: nat, bottom: nat, n: nat)
    requires Proper(w, ls) && d.pos <= |d.text| && d.text == Flatten(ls) && top + n <= bottom
    ensures ForwardSettles(w, d, top, bottom, n)
  {
    hide At, DeleteRows, InsertRows, LineStart, CursorPlace, SettlesAt;
    TextSettles(w, ls, d, top);
    MoveToRow(w, ls, top);
    var p := Pad(ls, top);
    assert Proper(w, p);
    DeleteRowsAt(w, p, top, n);
    var cut := p[..top] + p[Min(top + n, |p|)..];
    CutIsProper(w, p, top, Min(top + n, |p|));
    PlaceAt(w, cut, top);
    LinesSettle(w, cut, top, top + (bottom - top - n));
    UpSettle(w, p, top, bottom, n, CursorPlace(w, d).line);
  }

  lemma ReverseSettle(w: Width, ls: Lines, d: Doc, top: nat, bottom: nat, n: nat)
    requires Proper(w, ls) && d.pos <= |d.text| && d.text == Flatten(ls) && top + n <= bottom
    ensures ReverseSettles(w, d, top, bottom, n)
  {
    hide At, DeleteRows, InsertRows, CursorPlace, SettlesAt, ScrollDown;
    TextSettles(w, ls, d, bottom - n);
    MoveToRow(w, ls, bottom - n);
    var p := Pad(ls, bottom - n);
    assert Proper(w, p);
    DeleteRowsAt(w, p, bottom - n, n);
    var cut := p[..bottom - n] + p[Min(bottom, |p|)..];
    CutIsProper(w, p, bottom - n, Min(bottom, |p|));
    LinesSettle(w, cut, bottom - n, top);
    ProperUp(w, ls, top, bottom, n);
    DownRest(w, ls, top, bottom, n);
    LinesSettle(w, ScrollDown(Pad(ls, bottom), top, bottom, n), top, CursorPlace(w, d).line);
  }

  /*  What the operations do to a screen of whole lines  */

  /** From `d` to `d'` the lines `a`..`bottom` have moved down by `n`, blank ones have come in above
      them, nothing else has changed, and the cursor is in column 0 of its line. */
  ghost predicate MovedDown(w: Width, d: Doc, d': Doc, a: int, bottom: int, n: int)
    requires d.pos <= |d.text| && d'.pos <= |d'.text|
  {
    forall ls: Lines :: Proper(w, ls) && Flatten(ls) == d.text && 0 <= a && 0 <= n && a + n <= bottom ==>
      d'.text == Flatten(ScrollDown(Pad(ls, bottom), a, bottom, n))
          && CursorPlace(w, d') == Place(CursorPlace(w, d).line, 0)
  }

  /** The same upwards, with blank lines coming in below. */
  ghost predicate MovedUp(w: Width, d: Doc, d': Doc, a: int, bottom: int, n: int)
    requires d.pos <= |d.text| && d'.pos <= |d'.text|
  {
    forall ls: Lines :: Proper(w, ls) && Flatten(ls) == d.text && 0 <= a && 0 <= n && a + n <= bottom ==>
      d'.text == Flatten(ScrollUp(Pad(ls, bottom), a, bottom, n))
          && CursorPlace(w, d') == Place(CursorPlace(w, d).line, 0)
  }

  lemma AtIs(w: Width, ls: Lines, k: nat, d: Doc)
    requires k <= |ls| && Proper(w, ls) && d == At(ls, k)
    ensures d.text == Flatten(ls) && CursorPlace(w, d) == Place(k, 0)
  {
    PlaceAt(w, ls, k);
  }

  /** In column 0 of a line the cursor is at its start. */
  lemma AtStart(w: Width, ls: Lines, d: Doc)
    requires Proper(w, ls) && d.pos <= |d.text| && d.text == Flatten(ls) && CursorPlace(w, d).col == 0
    ensures CursorPlace(w, d).line <= |ls| && d == At(ls, CursorPlace(w, d).line)
  {
    hide PlaceOf;
    CursorLineExists(w, ls, d);
    var k := CursorPlace(w, d).line;
    PlaceAt(w, ls, k);
    var e := At(ls, k);
    if d.pos < e.pos {
      PlacesGrow(w, d.text, d.pos, e.pos);
    } else if e.pos < d.pos {
      PlacesGrow(w, d.text, e.pos, d.pos);
    }
  }

  lemma InsertMovesDown(w: Width, d: Doc, d': Doc, bottom: int, n: int)
    requires d.pos <= |d.text| && d'.pos <= |d'.text|
             && (InsertSettles(w, d, bottom, n) ==> d' == InsertLines(w, d, bottom, n))
    ensures MovedDown(w, d, d', CursorPlace(w, d).line, bottom, n)
  {
    hide InsertLines, InsertSettles, CursorPlace, At, ScrollDown;
    var k := CursorPlace(w, d).line;
    forall ls: Lines | Proper(w, ls) && Flatten(ls) == d.text && 0 <= n && k + n <= bottom
      ensures d'.text == Flatten(ScrollDown(Pad(ls, bottom), k, bottom, n)) && CursorPlace(w, d') == Place(k, 0)
    {
      InsertLinesSettle(w, ls, d, bottom, n);
      InsertLinesAt(w, ls, d, k, bottom, n);
      ProperUp(w, ls, k, bottom, n);
      AtIs(w, ScrollDown(Pad(ls, bottom), k, bottom, n), k, d');
    }
  }

  lemma DeleteMovesUp(w: Width, d: Doc, d': Doc, bottom: int, n: int)
    requires d.pos <= |d.text| && d'.pos <= |d'.text|
             && (DeleteSettles(w, d, bottom, n) ==> d' == DeleteLines(w, d, bottom, n))
    requires CursorPlace(w, d).col == 0
    ensures MovedUp(w, d, d', CursorPlace(w, d).line, bottom, n)
  {
    hide DeleteLines, DeleteSettles, CursorPlace, At, ScrollUp;
    var k := CursorPlace(w, d).line;
    forall ls: Lines | Proper(w, ls) && Flatten(ls) == d.text && 0 <= n && k + n <= bottom
      ensures d'.text == Flatten(ScrollUp(Pad(ls, bottom), k, bottom, n)) && CursorPlace(w, d') == Place(k, 0)
    {
      AtStart(w, ls, d);
      DeleteLinesSettle(w, ls, k, bottom, n);
      DeleteLinesAt(w, ls, k, bottom, n);
      ProperUp(w, ls, k, bottom, n);
      AtIs(w, ScrollUp(Pad(ls, bottom), k, bottom, n), k, d');
    }
  }

  lemma ForwardMovesUp(w: Width, d: Doc, d': Doc, top: int, bottom: int, n: int)
    requires d.pos <= |d.text| && d'.pos <= |d'.text|
             && (ForwardSettles(w, d, top, bottom, n) ==> d' == ScrollForward(w, d, top, bottom, n))
    ensures MovedUp(w, d, d', top, bottom, n)
  {
    hide ScrollForward, ForwardSettles, CursorPlace, At, ScrollUp;
    var k := CursorPlace(w, d).line;
    forall ls: Lines | Proper(w, ls) && Flatten(ls) == d.text && 0 <= top && 0 <= n && top + n <= bottom
      ensures d'.text == Flatten(ScrollUp(Pad(ls, bottom), top, bottom, n)) && CursorPlace(w, d') == Place(k, 0)
    {
      ForwardSettle(w, ls, d, top, bottom, n);
      ScrollForwardAt(w, ls, d, top, bottom, n);
      ProperUp(w, ls, top, bottom, n);
      AtIs(w, ScrollUp(Pad(ls, bottom), top, bottom, n), k, d');
    }
  }

  lemma ReverseMovesDown(w: Width, d: Doc, d': Doc, top: int, bottom: int, n: int)
    requires d.pos <= |d.text| && d'.pos <= |d'.text|
             && (ReverseSettles(w, d, top, bottom, n) ==> d' == ScrollReverse(w, d, top, bottom, n))
    ensures MovedDown(w, d, d', top, bottom, n)
  {
    hide ScrollReverse, ReverseSettles, CursorPlace, At, ScrollDown;
    var k := CursorPlace(w, d).line;
    forall ls: Lines | Proper(w, ls) && Flatten(ls) == d.text && 0 <= top && 0 <= n && top + n <= bottom
      ensures d'.text == Flatten(ScrollDown(Pad(ls, bottom), top, bottom, n)) && CursorPlace(w, d') == Place(k, 0)
    {
      ReverseSettle(w, ls, d, top, bottom, n);
      ScrollReverseAt(w, ls, d, top, bottom, n);
      ProperUp(w, ls, top, bottom, n);
      AtIs(w, ScrollDown(Pad(ls, bottom), top, bottom, n), k, d');
    }
  }

  /*  More lines than the region has  */

  function Rows(n: nat): (ls: Lines)
    ensures |ls| == n && forall i :: 0 <= i < n ==> ls[i] == "x"
  {
    seq(n, _ => "x")
  }

  /** Goals above the screen mean its first line. */
  lemma MoveClipped(w: Width, ls: Lines, k: nat, gl: int)
    requires Proper(w, ls) && k <= |ls| && gl <= |ls|
    ensures Move(w, At(ls, k), gl, 0) == At(ls, Positive(gl))
  {
    if gl >= 0 {
      MoveWithin(w, ls, k, gl);
    }
  }

  lemma DeleteRowsOf(w: Width, k: nat, r: nat, n: nat)
    requires r <= k
    ensures DeleteRows(At(Rows(k + n), r), n) == At(Rows(k), r)
  {
    DeleteRowsAt(w, Rows(k + n), r, n);
    assert Rows(k + n)[..r] + Rows(k + n)[r + n..] == Rows(k);
  }

  lemma InsertRowsOf(k: nat, r: nat, n: nat)
    requires r <= k
    ensures InsertRows(At(Rows(k), r), n) == At(Rows(r) + Blanks(n) + Rows(k - r), r)
  {
    InsertRowsAt(Rows(k), r, n);
    assert Rows(k)[..r] == Rows(r) && Rows(k)[r..] == Rows(k - r);
  }

  lemma MixedIsProper(w: Width, r: nat, n: nat, k: nat)
    ensures Proper(w, Rows(r) + Blanks(n) + Rows(k))
  {
  }

  /** With a count larger than the region every operation changes lines outside the region, on a
      screen of rows "x": inserting or scrolling down blanks the rows below, deleting or scrolling
      up puts the blank rows above. */
  lemma InsertBeyond(w: Width, top: nat, bottom: nat, n: nat)
    requires top <= bottom < top + n
    ensures var d := At(Rows(top + n), top);
            InsertLines(w, d, bottom, n) == ScrollReverse(w, d, top, bottom, n)
                == At(Rows(top) + Blanks(n) + Rows(0), top)
    ensures (Rows(top) + Blanks(n) + Rows(0))[bottom] != Rows(top + n)[bottom]
  {
    hide At, Move, InsertRows, DeleteRows;
    var ls, r := Rows(top + n), Positive(bottom - n);
    PlaceAt(w, ls, top);
    MoveClipped(w, ls, top, bottom - n);
    DeleteRowsOf(w, top, r, n);
    MoveClipped(w, Rows(top), r, top);
    InsertRowsOf(top, top, n);
    MixedIsProper(w, top, n, 0);
    MoveClipped(w, Rows(top) + Blanks(n) + Rows(0), top, top);
  }

  lemma DeleteBeyond(w: Width, top: nat, bottom: nat, n: nat)
    requires top <= bottom < top + n
    ensures var d := At(Rows(top + n), top);
            var r := Positive(bottom - n);
            && r <= top
            && DeleteLines(w, d, bottom, n) == ScrollForward(w, d, top, bottom, n)
               == At(Rows(r) + Blanks(n) + Rows(top - r), top)
            && var i := if r < top then r else bottom; (Rows(r) + Blanks(n) + Rows(top - r))[i] != Rows(top + n)[i]
  {
    hide At, Move, InsertRows, DeleteRows;
    var ls, r := Rows(top + n), Positive(bottom - n);
    PlaceAt(w, ls, top);
    MoveClipped(w, ls, top, top);
    DeleteRowsOf(w, top, top, n);
    PlaceAt(w, Rows(top), top);
    MoveClipped(w, Rows(top), top, bottom - n);
    InsertRowsOf(top, r, n);
    MixedIsProper(w, r, n, top - r);
    MoveClipped(w, Rows(r) + Blanks(n) + Rows(top - r), r, top);
  }
}
