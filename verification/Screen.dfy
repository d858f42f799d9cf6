/** WebTerminal's screen state: the text, the cursor in it and the cache of the cursor's place. */
module Screen {
  import T = ScreenText
  import L = ScreenLines

  class Screen {
    const width: T.Width
    var text: string
    var pos: nat
    var line: int  // currentCursorLine, negative when unknown
    var col: int   // currentCursorColumn, negative when unknown
    var top: int
    var bottom: int

    predicate Valid()
      reads this
    {
      && pos <= |text|
      && (line >= 0 ==> line == T.PlaceOf(width, text, pos).line)
      && (col >= 0 ==> col == T.PlaceOf(width, text, pos).col)
    }

    function Doc(): T.Doc
      reads this
    {
      T.Doc(text, pos)
    }

    constructor (w: T.Width, rows: nat)
      ensures Valid() && Doc() == T.Doc("", 0) && width == w && top == 0 && bottom == rows
    {
      width, text, pos, line, col, top, bottom := w, "", 0, -1, -1, 0, rows;
    }

    /** The line of the cursor, measured when it is not known. */
    method CursorLine() returns (l: nat)
      requires pos <= |text|
      modifies this`line, this`col
      ensures old(Valid()) ==> Valid() && l == T.PlaceOf(width, text, pos).line
    {
      if line < 0 {
        var k, l', c := 0, 0, 0;
        T.PlaceHome(width, text);
        while k < pos
          invariant k <= pos && T.Place(l', c) == T.PlaceOf(width, text, k)
        {
          T.PlaceNext(width, text, k);
          if text[k] == '\n' {
            l', c := l' + 1, 0;
          } else if c + 1 > width {
            l', c := l' + 1, 1;
          } else {
            c := c + 1;
          }
          k := k + 1;
        }
        line, col := l', c;
      }
      l := line;
    }

    /** The loop of `moveTo`, from offset `start` counted as (l, c). With `closed`, the last
        character ends the tree, and the goal is not looked at again behind it. */
    method Go(start: nat, l: nat, c: nat, gl: int, gc: int, closed: bool) returns (l': int, c': int)
      requires start <= |text|
      modifies this`text, this`pos
      ensures Doc() == T.Walk(width, old(text), start, T.Place(l, c), gl, gc) && pos <= |text|
      ensures (l', c') == T.Counted(width, old(text), start, T.Place(l, c), gl, gc, closed)
    {
      hide T.Filled;
      ghost var p := T.Place(l, c);
      T.WalkFills(width, text, start, p, gl, gc);
      var i: nat, ln: nat, cn: nat, ended := start, l, c, false;
      while (ln < gl || cn < gc) && i < |text| && !(text[i] == '\n' && ln == gl)
        invariant start <= i <= |text| && text == old(text) && (ended ==> i == |text|)
        invariant T.Walk(width, text, i, T.Place(ln, cn), gl, gc) == T.Walk(width, old(text), start, p, gl, gc)
        invariant T.Counted(width, old(text), start, p, gl, gc, closed)
               == if ended then (gl, gc) else T.Counted(width, text, i, T.Place(ln, cn), gl, gc, closed)
        decreases |text| - i
      {
        if text[i] == '\n' {
          ln, cn := ln + 1, 0;
        } else if cn + 1 > width {
          ln, cn := ln + 1, 1;
        } else {
          cn := cn + 1;
        }
        i := i + 1;
        ended := closed && i == |text|;
      }
      l', c' := ln, cn;
      if ended || ln < gl || cn < gc {
        var spaces := T.Repeat(' ', if cn < gc then gc - cn else 0);
        if i == |text| {
          text := text + (T.Repeat('\n', if ln < gl then gl - ln else 0) + spaces);
          i := |text|;
        } else {
          text := text[..i] + spaces + text[i..];
          i := i + |spaces|;
        }
        l', c' := gl, gc;
      }
      pos := i;
    }

    /** `moveTo` from home, taking the shortcut of the cached cursor where it can. Flat text does not
        show whether an empty node stands behind the last character, so either may be the case. */
    method MoveTo(gl: int, gc: int)
      requires pos <= |text|
      modifies this`text, this`pos, this`line, this`col
      ensures pos <= |text|
      ensures old(Valid()) ==> Doc() == T.MoveTo(width, old(text), gl, gc)
      ensures old(Valid()) && T.Reachable(width, old(text), gl, gc) ==> line == gl && col == gc
      ensures old(Valid()) && T.Settles(width, old(text), gl, gc, true) ==> Valid()
    {
      hide T.PlaceOf, T.Walk, T.Counted, T.Reachable, T.Filled;
      ghost var t := text;
      var closed: bool := *;
      var i, l, c := 0, 0, 0;
      T.PlaceHome(width, text);
      if line >= 0 && col >= 0 && gl >= line && (gl > line || gc >= col) {
        i, l, c := pos, line, col;
        if Valid() {
          T.MoveFromCursor(width, text, pos, gl, gc);
          T.CachedCount(width, text, 0, pos, gl, gc, closed);
        }
      }
      line, col := Go(i, l, c, gl, gc, closed);
      T.MoveLands(width, t, gl, gc);
      if T.Settles(width, t, gl, gc, true) {
        SettlesOnScreen(width, t, gl, gc);
        T.Settled(width, t, gl, gc, closed);
      }
    }

    /** `cursorLineStart`: line `delta` below the cursor, or above it. */
    method LineStart(delta: int)
      requires pos <= |text|
      modifies this`text, this`pos, this`line, this`col
      ensures pos <= |text|
      ensures old(Valid()) ==> Doc() == L.LineStart(width, old(Doc()), delta)
      ensures old(Valid()) && L.LineStartSettles(width, old(Doc()), delta) ==> Valid()
    {
      hide T.PlaceOf, T.Walk, T.MoveTo, T.Reachable, T.Counted;
      if delta > 0 {
        line, col := Go(pos, 0, 0, delta, 0, true);
        line, col := -1, -1;
      } else {
        var l := CursorLine();
        MoveTo(l + delta, 0);
      }
    }

    /** `eraseCharactersRight` in delete mode. */
    method EraseRight(count: int)
      requires pos <= |text|
      modifies this`text
      ensures pos <= |text| && Doc() == L.Erase(old(Doc()), count) && (old(Valid()) ==> Valid())
      ensures exists n: nat :: L.Taken(old(Doc()), count, n, Doc())
    {
      hide T.PlaceOf;
      var i := pos;
      while i < |text| && text[i] != '\n' && (count < 0 || i - pos < count)
        invariant pos <= i <= L.Eol(text, pos) && (count < 0 || i - pos <= count)
        invariant L.Eol(text, i) == L.Eol(text, pos)
      {
        i := i + 1;
      }
      L.EraseTakes(Doc(), count);
      PrefixKeeps(width, text, pos, i);
      text := text[..pos] + text[i..];
    }

    method DeleteLinesIgnoreScroll(count: int)
      requires pos <= |text|
      modifies this`text
      ensures pos <= |text| && Doc() == L.DeleteRows(old(Doc()), count) && (old(Valid()) ==> Valid())
    {
      hide T.PlaceOf, L.Erase;
      var i := count;
      while i > 0
        invariant pos <= |text| && (old(Valid()) ==> Valid())
        invariant L.DeleteRows(Doc(), i) == L.DeleteRows(old(Doc()), count)
      {
        EraseRight(-1);
        if pos == |text| {
          break;
        }
        PrefixKeeps(width, text, pos, pos + 1);
        text := text[..pos] + text[pos + 1..];
        i := i - 1;
      }
    }

    method InsertLinesIgnoreScroll(count: int)
      requires pos <= |text|
      modifies this`text
      ensures pos <= |text| && Doc() == L.InsertRows(old(Doc()), count) && (old(Valid()) ==> Valid())
    {
      hide T.PlaceOf;
      var n, s := count, "";
      while n > 0
        invariant |s| + T.Positive(n) == T.Positive(count)
        invariant forall i :: 0 <= i < |s| ==> s[i] == '\n'
      {
        s := s + ['\n'];
        n := n - 1;
      }
      assert s == T.Repeat('\n', T.Positive(count));
      PutInKeeps(width, text, pos, s);
      text := text[..pos] + s + text[pos..];
    }

    method InsertLines(count: int)
      requires pos <= |text|
      modifies this`text, this`pos, this`line, this`col
      ensures pos <= |text|
      ensures old(Valid() && L.InsertSettles(width, Doc(), bottom, count)) ==>
                Valid() && Doc() == L.InsertLines(width, old(Doc()), bottom, count)
      ensures old(Valid()) ==>
                L.MovedDown(width, old(Doc()), Doc(), old(T.PlaceOf(width, text, pos).line), bottom, count)
    {
      hide T.PlaceOf, T.Walk, T.MoveTo, T.Reachable, L.DeleteRows, L.InsertRows, L.LineStart, L.MovedUp, L.MovedDown;
      hide T.Settles;
      var l := CursorLine();
      MoveTo(bottom - count, 0);
      DeleteLinesIgnoreScroll(count);
      MoveTo(l, 0);
      InsertLinesIgnoreScroll(count);
      if old(Valid()) {
        L.InsertMovesDown(width, old(Doc()), Doc(), bottom, count);
      }
    }

    method DeleteLines(count: int)
      requires pos <= |text|
      modifies this`text, this`pos, this`line, this`col
      ensures pos <= |text|
      ensures old(Valid() && L.DeleteSettles(width, Doc(), bottom, count)) ==>
                Valid() && Doc() == L.DeleteLines(width, old(Doc()), bottom, count)
      ensures old(Valid() && T.PlaceOf(width, text, pos).col == 0) ==>
                L.MovedUp(width, old(Doc()), Doc(), old(T.PlaceOf(width, text, pos).line), bottom, count)
    {
      hide T.PlaceOf, T.Walk, T.MoveTo, T.Reachable, L.DeleteRows, L.InsertRows, L.LineStart, L.MovedUp, L.MovedDown;
      hide T.Settles;
      DeleteLinesIgnoreScroll(count);
      var l := CursorLine();
      LineStart(bottom - l - count);
      InsertLinesIgnoreScroll(count);
      MoveTo(l, 0);
      if old(Valid() && T.PlaceOf(width, text, pos).col == 0) {
        L.DeleteMovesUp(width, old(Doc()), Doc(), bottom, count);
      }
    }

    method ScrollForward(count: int)
      requires pos <= |text|
      modifies this`text, this`pos, this`line, this`col
      ensures pos <= |text|
      ensures old(Valid() && L.ForwardSettles(width, Doc(), top, bottom, count)) ==>
                Valid() && Doc() == L.ScrollForward(width, old(Doc()), top, bottom, count)
      ensures old(Valid()) ==> L.MovedUp(width, old(Doc()), Doc(), top, bottom, count)
    {
      hide T.PlaceOf, T.Walk, T.MoveTo, T.Reachable, L.DeleteRows, L.InsertRows, L.LineStart, L.MovedUp, L.MovedDown;
      hide T.Settles;
      var l := CursorLine();
      MoveTo(top, 0);
      DeleteLinesIgnoreScroll(count);
      LineStart(bottom - top - count);
      InsertLinesIgnoreScroll(count);
      MoveTo(l, 0);
      if old(Valid()) {
        L.ForwardMovesUp(width, old(Doc()), Doc(), top, bottom, count);
      }
    }

    method ScrollReverse(count: int)
      requires pos <= |text|
      modifies this`text, this`pos, this`line, this`col
      ensures pos <= |text|
      ensures old(Valid() && L.ReverseSettles(width, Doc(), top, bottom, count)) ==>
                Valid() && Doc() == L.ScrollReverse(width, old(Doc()), top, bottom, count)
      ensures old(Valid()) ==> L.MovedDown(width, old(Doc()), Doc(), top, bottom, count)
    {
      hide T.PlaceOf, T.Walk, T.MoveTo, T.Reachable, L.DeleteRows, L.InsertRows, L.LineStart, L.MovedUp, L.MovedDown;
      hide T.Settles;
      var l := CursorLine();
      MoveTo(bottom - count, 0);
      DeleteLinesIgnoreScroll(count);
      MoveTo(top, 0);
      InsertLinesIgnoreScroll(count);
      MoveTo(l, 0);
      if old(Valid()) {
        L.ReverseMovesDown(width, old(Doc()), Doc(), top, bottom, count);
      }
    }

    /** A screen of whole lines that is scrolled forward and back has only the top `count` lines of
        its region blanked. */
    method ScrollForwardAndBack(count: nat, ghost ls: L.Lines)
      requires Valid() && text == L.Flatten(ls) && L.Proper(width, ls) && 0 <= top && top + count <= bottom
      modifies this`text, this`pos, this`line, this`col
      ensures Valid()
      ensures var full := L.Pad(ls, bottom); text == L.Flatten(full[..top] + L.Blanks(count) + full[top + count..])
      ensures T.PlaceOf(width, text, pos) == T.Place(old(T.PlaceOf(width, text, pos).line), 0)
    {
      hide T.PlaceOf, L.ScrollForward, L.ScrollReverse, L.At, L.Flatten, L.Blanks, L.MovedUp, L.MovedDown;
      hide L.ForwardSettles, L.ReverseSettles, L.ScrollUp;
      ghost var full := L.Pad(ls, bottom);
      ghost var l := T.PlaceOf(width, text, pos).line;
      L.ForwardThenReverse(width, ls, Doc(), top, bottom, count);
      L.ForwardSettle(width, ls, Doc(), top, bottom, count);
      L.ScrollForwardAt(width, ls, Doc(), top, bottom, count);
      ghost var up := L.ScrollUp(full, top, bottom, count);
      L.ProperUp(width, ls, top, bottom, count);
      ScrollForward(count);
      L.AtText(up, l);
      L.ReverseSettle(width, up, Doc(), top, bottom, count);
      ScrollReverse(count);
      ghost var res := full[..top] + L.Blanks(count) + full[top + count..];
      L.AtText(res, l);
      L.PlaceAt(width, res, l);
    }
  }

  lemma SettlesOnScreen(w: T.Width, text: string, gl: int, gc: int)
    requires T.Settles(w, text, gl, gc, true)
    ensures gc == 0 || (0 <= gc <= w && gl >= 0)
    ensures T.Settles(w, text, gl, gc, false)
  {
  }

  /** Changes behind the cursor leave its place alone. */
  lemma PrefixKeeps(w: T.Width, text: string, pos: nat, i: nat)
    requires pos <= i <= |text|
    ensures T.PlaceOf(w, L.Cut(text, pos, i), pos) == T.PlaceOf(w, text, pos)
  {
    assert (text[..pos] + text[i..])[..pos] == text[..pos];
  }

  lemma PutInKeeps(w: T.Width, text: string, pos: nat, s: string)
    requires pos <= |text|
    ensures T.PlaceOf(w, T.PutIn(text, pos, s), pos) == T.PlaceOf(w, text, pos)
  {
    assert (text[..pos] + s + text[pos..])[..pos] == text[..pos];
  }
}
