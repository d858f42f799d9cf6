/** NodeWriter.writeData: XML escaping combined with the abbreviation of repeated characters,
    and a reader that undoes both. Strings are sequences of UTF-16 code units. */
module NodeWriter {
  type Unit = u: int | 0 <= u < 0x10000

  const AMP: Unit := 38
  const QUOT: Unit := 34
  const LT: Unit := 60
  const GT: Unit := 62
  const SEMI: Unit := 59
  const HASH: Unit := 35
  const LOWER_X: Unit := 120
  const BACKSLASH: Unit := 92
  const LBRACKET: Unit := 91
  const RBRACKET: Unit := 93
  const STAR: Unit := 42

  /*  Numerals  */

  function DigitUnit(d: nat): Unit
    requires d < 16
  {
    if d < 10 then 48 + d else 87 + d
  }

  function DigitValue(u: Unit): nat {
    if 48 <= u < 58 then u - 48 else if 97 <= u < 103 then u - 87 else 0
  }

  function Numeral(n: nat, base: nat): (s: seq<Unit>)
    requires 2 <= base <= 16
    ensures |s| >= 1 && forall i :: 0 <= i < |s| ==> s[i] != SEMI && s[i] != RBRACKET
  {
    if n < base then [DigitUnit(n)] else Numeral(n / base, base) + [DigitUnit(n % base)]
  }

  function NumeralValue(s: seq<Unit>, base: nat): nat {
    if s == [] then 0 else NumeralValue(s[..|s| - 1], base) * base + DigitValue(s[|s| - 1])
  }

  lemma ValueSnoc(s: seq<Unit>, u: Unit, base: nat)
    ensures NumeralValue(s + [u], base) == NumeralValue(s, base) * base + DigitValue(u)
  {
    assert (s + [u])[..|s|] == s;
  }

  lemma {:induction false} NumeralRoundTrip(n: nat, base: nat)
    requires 2 <= base <= 16
    ensures NumeralValue(Numeral(n, base), base) == n
  {
    if n < base {
      assert [] + [DigitUnit(n)] == Numeral(n, base);
      ValueSnoc([], DigitUnit(n), base);
    } else {
      DivMod(n, base);
      var q, r := n / base, n % base;
      NumeralRoundTrip(q, base);
      ValueSnoc(Numeral(q, base), DigitUnit(r), base);
    }
  }

  lemma DivMod(n: nat, base: nat)
    requires 2 <= base <= n
    ensures n / base * base + n % base == n && n / base < n
  {
  }

  /*  Writing  */

  datatype Style = Style(attribute: bool, asciiOnly: bool, minimum: nat)

  function Entity(ch: Unit, st: Style): seq<Unit> {
    if ch == AMP then [AMP, 97, 109, 112, SEMI]                            // &amp;
    else if st.attribute && ch == QUOT then [AMP, 113, 117, 111, 116, SEMI] // &quot;
    else if !st.attribute && ch == LT then [AMP, 108, 116, SEMI]            // &lt;
    else if !st.attribute && ch == GT then [AMP, 103, 116, SEMI]            // &gt;
    else if ch < 32 || (st.asciiOnly && ch >= 127) then [AMP, HASH, LOWER_X] + Numeral(ch, 16) + [SEMI]
    else []
  }

  function Image(ch: Unit, st: Style): (s: seq<Unit>)
    ensures |s| >= 1 && (s[0] == AMP || s[0] == ch)
  {
    var ent := Entity(ch, st);
    if ent == [] then [ch] else ent
  }

  function Marker(count: nat): seq<Unit> {
    [BACKSLASH, LBRACKET, STAR] + Numeral(count, 10) + [RBRACKET]
  }

  /** Length of the run at the front; runs are not looked for when the minimum is 0. */
  function Count(data: seq<Unit>, st: Style): (n: nat)
    requires data != []
    ensures 1 <= n <= |data| && forall i :: 0 <= i < n ==> data[i] == data[0]
  {
    if st.minimum > 0 then RunLength(data, 1) else 1
  }

  function RunLength(data: seq<Unit>, n: nat): (m: nat)
    requires 1 <= n <= |data| && forall i :: 0 <= i < n ==> data[i] == data[0]
    ensures n <= m <= |data| && forall i :: 0 <= i < m ==> data[i] == data[0]
    ensures m < |data| ==> data[m] != data[0]
    decreases |data| - n
  {
    if n < |data| && data[n] == data[0] then RunLength(data, n + 1) else n
  }

  /** What is written for `data`: run by run when a run is long enough, else unit by unit. */
  function Written(data: seq<Unit>, st: Style): seq<Unit>
    decreases |data|
  {
    if data == [] then []
    else
      var n := Count(data, st);
      if n >= st.minimum then Image(data[0], st) + Marker(n) + Written(data[n..], st)
      else Image(data[0], st) + Written(data[1..], st)
  }

  /** The loop of `writeData`, which copies plain stretches in one piece. */
  method WriteData(data: seq<Unit>, st: Style) returns (out: seq<Unit>)
    ensures out == Written(data, st)
  {
    out := [];
    var start, i, end := 0, 0, |data|;
    assert data[0..] == data && data[end..] == [];
    while i < end
      invariant 0 <= start <= i <= end
      invariant (out + data[start..i]) + Written(data[i..], st) == Written(data, st)
      decreases end - i
    {
      out, start, i := WriteRun(out, data, start, i, st);
    }
    if end > start {
      out := out + data[start..end];
    }
  }

  /** One turn of the loop: a unit, and its run marker when the run is long enough. */
  method WriteRun(out: seq<Unit>, data: seq<Unit>, start: nat, i: nat, st: Style)
      returns (out': seq<Unit>, start': nat, i': nat)
    requires start <= i < |data|
    ensures i < i' <= |data| && start' <= i'
    ensures (out' + data[start'..i']) + Written(data[i'..], st) == (out + data[start..i]) + Written(data[i..], st)
  {
    hide Written, Image, Marker, Entity;
    var count := Count(data[i..], st);
    ghost var front := out + data[start..i];
    WrittenStep(front, data, i, st);
    out', start' := WriteUnit(out, data, start, i, st, count >= st.minimum);
    i' := i + 1;
    if count >= st.minimum {
      assert data[start'..i + 1] == [];
      assert out' == front + Image(data[i], st);
      out' := out' + Marker(count);
      i' := i + count;
      start' := i';
      assert data[start'..i'] == [];
    }
  }

  lemma WrittenStep(front: seq<Unit>, data: seq<Unit>, i: nat, st: Style)
    requires i < |data|
    ensures var n, image := Count(data[i..], st), Image(data[i], st);
            front + Written(data[i..], st)
            == if n >= st.minimum then front + image + Marker(n) + Written(data[i + n..], st)
               else front + image + Written(data[i + 1..], st)
  {
    var rest := data[i..];
    var n, image := Count(rest, st), Image(data[i], st);
    assert rest[n..] == data[i + n..] && rest[1..] == data[i + 1..];
    Assoc(front, image, Marker(n), Written(data[i + n..], st));
    Assoc(front, image, [], Written(data[i + 1..], st));
  }

  lemma Assoc(a: seq<Unit>, b: seq<Unit>, c: seq<Unit>, d: seq<Unit>)
    ensures a + (b + c + d) == a + b + c + d && a + (b + d) == a + b + d
  {
  }

  /** Flush the plain stretch before a unit that is escaped or starts a long run. */
  method WriteUnit(out: seq<Unit>, data: seq<Unit>, start: nat, i: nat, st: Style, long: bool)
      returns (out': seq<Unit>, start': nat)
    requires start <= i < |data|
    ensures start <= start' <= i + 1 && (long ==> start' == i + 1)
    ensures out' + data[start'..i + 1] == out + data[start..i] + Image(data[i], st)
  {
    out', start' := out, start;
    var ent := Entity(data[i], st);
    if ent != [] {
      if i > start { out' := out' + data[start..i]; }
      start' := i + 1;
      out' := out' + ent;
    } else if long {
      out' := out' + data[start..i + 1];
      start' := i + 1;
    }
  }

  /*  Reading back  */

  function IndexOf(s: seq<Unit>, stop: Unit): (i: nat)
    ensures i <= |s| && stop !in s[..i] && (i < |s| ==> s[i] == stop)
  {
    if s == [] || s[0] == stop then 0
    else
      var j := IndexOf(s[1..], stop);
      assert s[..j + 1] == [s[0]] + s[1..][..j];
      j + 1
  }

  function EntityValue(name: seq<Unit>): nat {
    if name == [97, 109, 112] then AMP
    else if name == [113, 117, 111, 116] then QUOT
    else if name == [108, 116] then LT
    else if name == [103, 116] then GT
    else if |name| >= 2 then NumeralValue(name[2..], 16)
    else 0
  }

  /** One character: an entity up to its semicolon, or a plain unit. */
  function ReadUnit(s: seq<Unit>): (r: (nat, seq<Unit>))
    requires s != []
    ensures |r.1| < |s|
  {
    if s[0] != AMP then (s[0], s[1..])
    else
      var k := IndexOf(s, SEMI);
      if k >= |s| then (AMP, s[1..]) else (EntityValue(s[1..k]), s[k + 1..])
  }

  /** An optional run marker: how many copies of the character before it are meant. */
  function ReadMarker(s: seq<Unit>): (r: (nat, seq<Unit>))
    ensures |r.1| <= |s|
  {
    if |s| < 3 || s[..3] != [BACKSLASH, LBRACKET, STAR] then (1, s)
    else
      var k := IndexOf(s, RBRACKET);
      if k >= |s| || k < 3 then (1, s) else (NumeralValue(s[3..k], 10), s[k + 1..])
  }

  function Copies(u: nat, n: nat): seq<nat> {
    seq(n, _ => u)
  }

  function ReadBack(s: seq<Unit>): seq<nat>
    decreases |s|
  {
    if s == [] then []
    else
      var (u, t) := ReadUnit(s);
      var (n, rest) := ReadMarker(t);
      Copies(u, n) + ReadBack(rest)
  }

  lemma {:induction false} IndexOfAt(a: seq<Unit>, stop: Unit, rest: seq<Unit>)
    requires stop !in a
    ensures IndexOf(a + [stop] + rest, stop) == |a|
  {
    var s := a + [stop] + rest;
    if a != [] {
      assert s[1..] == a[1..] + [stop] + rest;
      IndexOfAt(a[1..], stop, rest);
    }
  }

  lemma ReadEntity(name: seq<Unit>, rest: seq<Unit>)
    requires SEMI !in name
    ensures ReadUnit([AMP] + name + [SEMI] + rest) == (EntityValue(name), rest)
  {
    var s := [AMP] + name + [SEMI] + rest;
    IndexOfAt([AMP] + name, SEMI, rest);
    assert s[1..|name| + 1] == name;
    assert s[|name| + 2..] == rest;
  }

  lemma ReadImage(ch: Unit, st: Style, rest: seq<Unit>)
    ensures ReadUnit(Image(ch, st) + rest) == (ch, rest)
  {
    var ent := Entity(ch, st);
    if ent == [] {
      assert ([ch] + rest)[1..] == rest;
    } else {
      var name := ent[1..|ent| - 1];
      EntityName(ch, st);
      assert ent == [AMP] + name + [SEMI];
      ReadEntity(name, rest);
    }
  }

  lemma Inner(name: seq<Unit>)
    ensures ([AMP] + name + [SEMI])[1..|name| + 1] == name
  {
  }

  lemma EntityName(ch: Unit, st: Style)
    requires Entity(ch, st) != []
    ensures var ent := Entity(ch, st);
            |ent| >= 2 && ent[0] == AMP && ent[|ent| - 1] == SEMI
            && SEMI !in ent[1..|ent| - 1] && EntityValue(ent[1..|ent| - 1]) == ch
  {
    hide EntityValue, NumeralValue;
    var name := NameOf(ch, st);
    NameValue(ch, st);
    assert Entity(ch, st) == [AMP] + name + [SEMI];
    Inner(name);
  }

  /** What stands between the ampersand and the semicolon. */
  function NameOf(ch: Unit, st: Style): seq<Unit> {
    if ch == AMP then [97, 109, 112]
    else if st.attribute && ch == QUOT then [113, 117, 111, 116]
    else if !st.attribute && ch == LT then [108, 116]
    else if !st.attribute && ch == GT then [103, 116]
    else [HASH, LOWER_X] + Numeral(ch, 16)
  }

  lemma NameValue(ch: Unit, st: Style)
    ensures EntityValue(NameOf(ch, st)) == ch && SEMI !in NameOf(ch, st)
  {
    hide NumeralValue;
    var digits := Numeral(ch, 16);
    var name := [HASH, LOWER_X] + digits;
    assert name[2..] == digits && name[0] == HASH;
    NumeralRoundTrip(ch, 16);
  }

  lemma ReadMarkerOf(n: nat, rest: seq<Unit>)
    ensures ReadMarker(Marker(n) + rest) == (n, rest)
  {
    hide NumeralValue, Numeral, IndexOf;
    var front, digits := [BACKSLASH, LBRACKET, STAR], Numeral(n, 10);
    var s := Marker(n) + rest;
    MarkerParts(front, digits, rest);
    IndexOfAt(front + digits, RBRACKET, rest);
    NumeralRoundTrip(n, 10);
  }

  lemma MarkerParts(front: seq<Unit>, digits: seq<Unit>, rest: seq<Unit>)
    requires |front| == 3
    ensures var s := front + digits + [RBRACKET] + rest;
            s[..3] == front && s[3..|digits| + 3] == digits && s[|digits| + 4..] == rest
  {
  }

  const OPENING := [BACKSLASH, LBRACKET, STAR]

  /** The text begins like a run marker. */
  predicate Opens(data: seq<Unit>) {
    |data| >= 3 && data[0] == BACKSLASH && data[1] == LBRACKET && data[2] == STAR
  }

  /** Behind its very beginning the text has no opening of a run marker that a bracket closes, unless
      every unit is followed by a marker anyway. */
  predicate Unmistakable(data: seq<Unit>, st: Style) {
    st.minimum <= 1 || forall i :: 1 <= i <= |data| ==> !Opens(data[i..]) || RBRACKET !in Written(data[i..], st)
  }

  lemma UnmistakableTail(data: seq<Unit>, st: Style, n: nat)
    requires Unmistakable(data, st) && n <= |data|
    ensures Unmistakable(data[n..], st)
  {
    hide Written, Opens;
    if st.minimum > 1 {
      forall i | 1 <= i <= |data| - n
        ensures !Opens(data[n..][i..]) || RBRACKET !in Written(data[n..][i..], st)
      {
        assert data[n..][i..] == data[n + i..];
      }
    }
  }

  lemma NoBackslash(data: seq<Unit>, st: Style)
    requires BACKSLASH !in data
    ensures Unmistakable(data, st)
  {
    forall i | 1 <= i <= |data|
      ensures !Opens(data[i..])
    {
      assert i < |data| ==> data[i..][0] == data[i] && data[i] in data;
    }
  }

  /** A unit that is not escaped stands for itself; a marker or the next unit follows. */
  lemma WrittenFront(data: seq<Unit>, st: Style)
    requires Written(data, st) != [] && Written(data, st)[0] != AMP
    ensures data != [] && data[0] == Written(data, st)[0]
    ensures var more := Written(data, st)[1..];
            (more != [] && more[0] == BACKSLASH) || more == Written(data[1..], st)
  {
    hide Image, Marker;
    var n, s := Count(data, st), Written(data, st);
    MarkerFront(n);
    PlainImage(data[0], st);
    if n >= st.minimum {
      var more := Marker(n) + Written(data[n..], st);
      FrontOf(Image(data[0], st), Marker(n), Written(data[n..], st));
      assert s == Image(data[0], st) + more;
    }
  }

  lemma FrontOf(a: seq<Unit>, b: seq<Unit>, c: seq<Unit>)
    ensures a + b + c == a + (b + c)
  {
  }

  lemma MarkerFront(n: nat)
    ensures Marker(n) != [] && Marker(n)[0] == BACKSLASH
  {
  }

  lemma PlainImage(ch: Unit, st: Style)
    ensures Image(ch, st)[0] != AMP ==> Image(ch, st) == [ch]
  {
    hide Numeral;
  }

  /** Written text begins like a marker only where the text itself does. */
  lemma NoMarker(data: seq<Unit>, st: Style)
    requires !Opens(data) || RBRACKET !in Written(data, st)
    ensures ReadMarker(Written(data, st)) == (1, Written(data, st))
  {
    hide Written, NumeralValue;
    var s := Written(data, st);
    if |s| >= 3 && s[..3] == OPENING && !Opens(data) {
      assert s[0] == BACKSLASH && s[1] == LBRACKET && s[2] == STAR;
      WrittenFront(data, st);
      assert s[1..][0] == LBRACKET;
      WrittenFront(data[1..], st);
      assert s[1..][1..][0] == STAR;
      WrittenFront(data[1..][1..], st);
      assert false;
    }
  }

  /** Nothing is lost: for every string that is not mistakable, so for every string without a
      backslash, in text and in attributes, reading back what was written gives the string. */
  lemma {:induction false} WrittenReadsBack(data: seq<Unit>, st: Style)
    requires Unmistakable(data, st)
    ensures ReadBack(Written(data, st)) == data
    decreases |data|
  {
    if data != [] {
      var n, ch := Count(data, st), data[0];
      if n >= st.minimum {
        UnmistakableTail(data, st, n);
        WrittenReadsBack(data[n..], st);
        RunReadsBack(data, st, n);
      } else {
        UnmistakableTail(data, st, 1);
        WrittenReadsBack(data[1..], st);
        UnitReadsBack(data, st);
      }
    }
  }

  lemma RunReadsBack(data: seq<Unit>, st: Style, n: nat)
    requires data != [] && n == Count(data, st) >= st.minimum && ReadBack(Written(data[n..], st)) == data[n..]
    ensures ReadBack(Written(data, st)) == data
  {
    hide ReadMarker, ReadUnit, Image, Marker;
    var ch, more := data[0], Written(data[n..], st);
    assert Written(data, st) == Image(ch, st) + (Marker(n) + more);
    ReadImage(ch, st, Marker(n) + more);
    ReadMarkerOf(n, more);
    assert Copies(ch, n) == data[..n];
  }

  lemma UnitReadsBack(data: seq<Unit>, st: Style)
    requires data != [] && Count(data, st) < st.minimum && Unmistakable(data, st)
    requires ReadBack(Written(data[1..], st)) == data[1..]
    ensures ReadBack(Written(data, st)) == data
  {
    hide ReadMarker, ReadUnit, Image, Marker;
    var ch, more := data[0], Written(data[1..], st);
    ReadImage(ch, st, more);
    NoMarker(data[1..], st);
    assert Copies(ch, 1) == data[..1];
  }

  /*  Where reading back fails  */

  lemma {:induction false} WholeRun(data: seq<Unit>, n: nat)
    requires 1 <= n <= |data| && forall i :: 0 <= i < |data| ==> data[i] == data[0]
    ensures RunLength(data, n) == |data|
    decreases |data| - n
  {
    if n < |data| {
      WholeRun(data, n + 1);
    }
  }

  /** No run is long enough to be abbreviated. */
  predicate Short(data: seq<Unit>, st: Style) {
    forall i :: 0 <= i < |data| ==> Count(data[i..], st) < st.minimum
  }

  predicate Unescaped(data: seq<Unit>, st: Style) {
    forall i :: 0 <= i < |data| ==> Entity(data[i], st) == []
  }

  lemma {:induction false} WrittenAsIs(data: seq<Unit>, st: Style)
    requires Short(data, st) && Unescaped(data, st)
    ensures Written(data, st) == data
    decreases |data|
  {
    if data != [] {
      var rest := data[1..];
      forall i | 0 <= i < |rest|
        ensures Count(rest[i..], st) < st.minimum && Entity(rest[i], st) == []
      {
        assert rest[i..] == data[i + 1..] && rest[i] == data[i + 1];
      }
      WrittenAsIs(rest, st);
      assert data[0..] == data && [data[0]] + rest == data;
    }
  }

  lemma MarkerUnescaped(n: nat, st: Style)
    ensures Unescaped(Marker(n), st)
  {
    var digits := Numeral(n, 10);
    NumeralDigits(n);
    assert forall i :: 0 <= i < |digits| ==> Marker(n)[3 + i] == digits[i];
    forall i | 0 <= i < |Marker(n)|
      ensures Entity(Marker(n)[i], st) == []
    {
      assert 3 <= i < 3 + |digits| ==> Marker(n)[i] == digits[i - 3];
    }
  }

  lemma {:induction false} NumeralDigits(n: nat)
    ensures forall i :: 0 <= i < |Numeral(n, 10)| ==> 48 <= Numeral(n, 10)[i] < 58
  {
    if n >= 10 {
      NumeralDigits(n / 10);
    }
  }

  /** The promise stops there: the backslash is not escaped itself, so a run of n units and the text
      of its abbreviation are written alike, for every unit that is not escaped and every n that is
      abbreviated, unless that text has a long run in it (as `\[*333]` has). */
  lemma BackslashIsAmbiguous(data: seq<Unit>, st: Style)
    requires data != [] && forall i :: 0 <= i < |data| ==> data[i] == data[0]
    requires Entity(data[0], st) == [] && 2 <= st.minimum <= |data| && Short([data[0]] + Marker(|data|), st)
    ensures var text := [data[0]] + Marker(|data|);
            data != text && Written(data, st) == text == Written(text, st)
  {
    hide Marker, Entity, Written, Short;
    var n, text := |data|, [data[0]] + Marker(|data|);
    RunWritten(data, st);
    MarkerUnescaped(n, st);
    assert forall i :: 1 <= i < |text| ==> text[i] == Marker(n)[i - 1];
    WrittenAsIs(text, st);
    MarkerDiffers(data);
  }

  lemma RunWritten(data: seq<Unit>, st: Style)
    requires data != [] && forall i :: 0 <= i < |data| ==> data[i] == data[0]
    requires Entity(data[0], st) == [] && 0 < st.minimum <= |data|
    ensures Written(data, st) == [data[0]] + Marker(|data|)
  {
    hide Marker, Entity;
    var n := |data|;
    WholeRun(data, 1);
    assert data[n..] == [] && Written([], st) == [];
    assert Image(data[0], st) == [data[0]];
    assert [data[0]] + Marker(n) + [] == [data[0]] + Marker(n);
  }

  lemma MarkerDiffers(data: seq<Unit>)
    requires data != [] && forall i :: 0 <= i < |data| ==> data[i] == data[0]
    ensures data != [data[0]] + Marker(|data|)
  {
    var text := [data[0]] + Marker(|data|);
    assert text[1] == BACKSLASH && text[2] == LBRACKET;
  }

  /** The smallest such case. */
  lemma ThreeAreAmbiguous()
    ensures var st := Style(false, true, 3);
            Written([97, 97, 97], st) == Written([97, BACKSLASH, LBRACKET, STAR, 51, RBRACKET], st)
  {
    var st := Style(false, true, 3);
    assert Numeral(3, 10) == [51];
    var text := [97, BACKSLASH, LBRACKET, STAR, 51, RBRACKET];
    assert [97] + Marker(3) == text;
    forall i | 0 <= i < |text|
      ensures Count(text[i..], st) < st.minimum
    {
      assert i + 1 < |text| ==> text[i..][1] == text[i + 1] != text[i];
    }
    BackslashIsAmbiguous([97, 97, 97], st);
  }

  /*  What is written  */

  /** The image of a unit, spelled out: the entities &amp;, in attributes &quot;, in text &lt; and &gt;, a
      character reference for controls and, in ASCII, for everything from 127 on; all else as it is. */
  lemma ImageSpelled(ch: Unit, st: Style)
    ensures ch == 38 ==> Image(ch, st) == [38, 97, 109, 112, 59]
    ensures ch == 34 ==> Image(ch, st) == if st.attribute then [38, 113, 117, 111, 116, 59] else [34]
    ensures ch == 60 ==> Image(ch, st) == if st.attribute then [60] else [38, 108, 116, 59]
    ensures ch == 62 ==> Image(ch, st) == if st.attribute then [62] else [38, 103, 116, 59]
    ensures ch < 32 || (st.asciiOnly && ch >= 127) ==>
              var s := Image(ch, st);
              && |s| >= 5 && s[..3] == [38, 35, 120] && s[|s| - 1] == 59
              && NumeralValue(s[3..|s| - 1], 16) == ch && AreDigits(s[3..|s| - 1])
    ensures ch !in {34, 38, 60, 62} && 32 <= ch && (st.asciiOnly ==> ch < 127) ==> Image(ch, st) == [ch]
  {
    hide NumeralValue;
    NumeralRoundTrip(ch, 16);
    HexDigits(ch);
    if ch < 32 || (st.asciiOnly && ch >= 127) {
      var digits := Numeral(ch, 16);
      assert Image(ch, st) == [AMP, HASH, LOWER_X] + digits + [SEMI];
      assert Image(ch, st)[3..|Image(ch, st)| - 1] == digits;
    }
  }

  predicate AreDigits(s: seq<Unit>) {
    forall i :: 0 <= i < |s| ==> 48 <= s[i] < 58 || 97 <= s[i] < 103
  }

  lemma {:induction false} HexDigits(n: nat)
    ensures AreDigits(Numeral(n, 16))
  {
    if n >= 16 {
      HexDigits(n / 16);
    }
  }

  /** A run marker, spelled out. */
  lemma MarkerSpelled(n: nat)
    ensures var s := Marker(n);
            && |s| >= 5 && s[..3] == [92, 91, 42] && s[|s| - 1] == 93
            && NumeralValue(s[3..|s| - 1], 10) == n && forall i :: 3 <= i < |s| - 1 ==> 48 <= s[i] < 58
  {
    hide NumeralValue;
    NumeralRoundTrip(n, 10);
    NumeralDigits(n);
    assert Marker(n)[3..|Marker(n)| - 1] == Numeral(n, 10);
  }

  /** A unit that may stand in text, or in an attribute. */
  predicate MayStand(u: Unit, st: Style) {
    && u >= 32 && (st.asciiOnly ==> u < 127)
    && if st.attribute then u != 34 else u != 60 && u != 62
  }

  predicate AllMayStand(s: seq<Unit>, st: Style) {
    forall i :: 0 <= i < |s| ==> MayStand(s[i], st)
  }

  /** An ampersand begins an entity or a character reference. */
  predicate Referring(s: seq<Unit>) {
    forall i :: 0 <= i < |s| && s[i] == 38 ==> i + 1 < |s| && s[i + 1] in {97, 113, 108, 103, 35}
  }

  lemma SafeAppend(a: seq<Unit>, b: seq<Unit>, st: Style)
    requires AllMayStand(a, st) && AllMayStand(b, st) && Referring(a) && Referring(b)
    ensures AllMayStand(a + b, st) && Referring(a + b)
  {
    var s := a + b;
    forall i | 0 <= i < |s| && s[i] == 38
      ensures i + 1 < |s| && s[i + 1] in {97, 113, 108, 103, 35}
    {
      if i < |a| {
        assert a[i] == 38 && s[i + 1] == a[i + 1];
      } else {
        assert b[i - |a|] == 38 && s[i + 1] == b[i - |a| + 1];
      }
    }
  }

  lemma SafeImage(ch: Unit, st: Style)
    ensures AllMayStand(Image(ch, st), st) && Referring(Image(ch, st))
  {
    if ch < 32 || (st.asciiOnly && ch >= 127) {
      HexDigits(ch);
      SafeReference(Numeral(ch, 16), st);
      hide Numeral;
      assert Image(ch, st) == [AMP, HASH, LOWER_X] + Numeral(ch, 16) + [SEMI];
    } else {
      hide Numeral;
    }
  }

  lemma SafeReference(digits: seq<Unit>, st: Style)
    requires AreDigits(digits)
    ensures var s := [AMP, HASH, LOWER_X] + digits + [SEMI]; AllMayStand(s, st) && Referring(s)
  {
    var s := [AMP, HASH, LOWER_X] + digits + [SEMI];
    assert forall i :: 3 <= i < |s| - 1 ==> s[i] == digits[i - 3];
  }

  lemma SafeMarker(n: nat, st: Style)
    ensures AllMayStand(Marker(n), st) && Referring(Marker(n))
  {
    NumeralDigits(n);
    var s, digits := Marker(n), Numeral(n, 10);
    assert forall i :: 3 <= i < |s| - 1 ==> s[i] == digits[i - 3];
  }

  /** Written text holds no bare `<`, `>` or `&`, an attribute no bare quote or `&`, and neither holds a
      control character or, in ASCII, anything beyond. */
  lemma {:induction false} WrittenIsSafe(data: seq<Unit>, st: Style)
    ensures AllMayStand(Written(data, st), st) && Referring(Written(data, st))
    decreases |data|
  {
    if data != [] {
      hide Image, Marker, AllMayStand, Referring;
      var n := Count(data, st);
      SafeImage(data[0], st);
      if n >= st.minimum {
        SafeMarker(n, st);
        WrittenIsSafe(data[n..], st);
        SafeAppend(Image(data[0], st), Marker(n), st);
        SafeAppend(Image(data[0], st) + Marker(n), Written(data[n..], st), st);
      } else {
        WrittenIsSafe(data[1..], st);
        SafeAppend(Image(data[0], st), Written(data[1..], st), st);
      }
    } else {
      assert Written([], st) == [];
    }
  }

  /*  Which runs are abbreviated  */

  /** The run at the front is followed by a marker. */
  predicate Marked(data: seq<Unit>, st: Style)
    requires data != []
  {
    Count(data, st) >= st.minimum
  }

  /** What the comment on the minimum promises: more than so many, and none for 0. */
  predicate Promised(data: seq<Unit>, st: Style)
    requires data != []
  {
    st.minimum > 0 && RunLength(data, 1) > st.minimum
  }

  /** A run is abbreviated from exactly the minimum on, and with 0 every single unit is marked. So the
      comment is right for exactly the positive minimums and the runs of another length. */
  lemma CommentIsRight(data: seq<Unit>, st: Style)
    requires data != []
    ensures Marked(data, st) <==> st.minimum == 0 || RunLength(data, 1) >= st.minimum
    ensures (Marked(data, st) <==> Promised(data, st)) <==> st.minimum > 0 && RunLength(data, 1) != st.minimum
    ensures var n := Count(data, st);
            Written(data, st) == if Marked(data, st) then Image(data[0], st) + Marker(n) + Written(data[n..], st)
                                 else Image(data[0], st) + Written(data[1..], st)
  {
  }

  /** With 0 a single letter is marked; with 3, a run of three is. */
  lemma CommentIsWrong()
    ensures Written([97], Style(false, true, 0)) == [97] + Marker(1)
    ensures Written([97, 97, 97], Style(false, true, 3)) == [97] + Marker(3)
  {
    assert Written([], Style(false, true, 0)) == [] && [97][1..] == [];
    WholeRun([97, 97, 97], 1);
    assert [97, 97, 97][3..] == [] && Written([], Style(false, true, 3)) == [];
    assert [97] + Marker(1) + [] == [97] + Marker(1) && [97] + Marker(3) + [] == [97] + Marker(3);
  }
}
