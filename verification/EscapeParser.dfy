/** The escape-sequence state machine of WebTerminal.insertString. Control sequences have the
    format of section 5.4 of ECMA-48. */
module EscapeParser {
  const ESC := '\U{001b}'
  const BEL := '\U{0007}'

  datatype Mode = INITIAL | SEEN_ESC | LBRACKET | QUESTION | RBRACKET | TEXT

  /** What the terminal is told to do. */
  datatype Signal =
    | Char(c: char)                                             // a printed character
    | Plain(c: char)                                            // a one-character control
    | Escape(c: char)                                           // ESC and one character
    | Control(private: bool, last: char, params: seq<int>)      // handleControlSequence
    | Osc(code: int, text: string)                              // handleOperatingSystemControl

  /** Java's int arithmetic. */
  function Wrap(n: int): int {
    (n + 0x8000_0000) % 0x1_0000_0000 - 0x8000_0000
  }

  /** The value modulo 2 to the 32, as a signed int. */
  lemma WrapIsInt(n: int)
    ensures -0x8000_0000 <= Wrap(n) < 0x8000_0000
    ensures exists k: int :: Wrap(n) == n + k * 0x1_0000_0000
  {
    var k := (Wrap(n) - n) / 0x1_0000_0000;
    assert Wrap(n) == n + k * 0x1_0000_0000;
  }

  predicate IsDigit(c: char) {
    '0' <= c <= '9'
  }

  function AddDigit(cur: int, c: char): int
    requires IsDigit(c)
  {
    Wrap((if cur >= 0 then 10 * cur else 0) + (c as int - '0' as int))
  }

  /** One-character controls with a case of their own. */
  predicate IsPlain(c: char) {
    c == '\r' || c == '\n' || c == '\U{0008}' || c == BEL || c == '\t'
  }

  /** The parser's memory: `cur` is the parameter being read (-1 when missing so far), `prev`
      the ones before it, `text` the text of an operating system control. */
  datatype Parser = Parser(mode: Mode, cur: int, prev: seq<int>, text: string)

  const Idle := Parser(INITIAL, -1, [], "")

  function Step(p: Parser, c: char): (Parser, seq<Signal>) {
    match p.mode
    case INITIAL =>
      if c == ESC then (p.(mode := SEEN_ESC), [])
      else (p, [if IsPlain(c) then Plain(c) else Char(c)])
    case SEEN_ESC =>
      if c == '[' then (Parser(LBRACKET, -1, [], ""), [])
      else if c == ']' then (Parser(RBRACKET, -1, [], ""), [])
      else (Idle, [Escape(c)])
    case LBRACKET => StepControl(p, c)
    case QUESTION => StepControl(p, c)
    case RBRACKET =>
      if IsDigit(c) then (p.(cur := AddDigit(p.cur, c)), [])
      else if c == ';' then (p.(mode := TEXT, text := ""), [])
      else (Idle, [])
    case TEXT =>
      if c == BEL || c == '\0' then (Idle, [Osc(p.cur, p.text)]) else (p.(text := p.text + [c]), [])
  }

  function StepControl(p: Parser, c: char): (Parser, seq<Signal>) {
    if IsDigit(c) then (p.(cur := AddDigit(p.cur, c)), [])
    else if c == ';' then (p.(prev := p.prev + [p.cur], cur := -1), [])
    else if c == '?' then (p.(mode := QUESTION), [])
    else (Idle, [Control(p.mode == QUESTION, c, p.prev + [p.cur])])
  }

  function Run(p: Parser, s: string): (Parser, seq<Signal>)
    decreases |s|
  {
    if s == "" then (p, [])
    else
      var (q, out) := Step(p, s[0]);
      var (r, more) := Run(q, s[1..]);
      (r, out + more)
  }

  lemma {:induction false} RunAppend(p: Parser, a: string, b: string)
    ensures var (q, out) := Run(p, a);
            var (r, more) := Run(q, b);
            Run(p, a + b) == (r, out + more)
    decreases |a|
  {
    if a == "" {
      assert a + b == b;
      assert [] + Run(p, b).1 == Run(p, b).1;
    } else {
      assert (a + b)[0] == a[0] && (a + b)[1..] == a[1..] + b;
      RunAppend(Step(p, a[0]).0, a[1..], b);
      var first, out := Step(p, a[0]).1, Run(Step(p, a[0]).0, a[1..]);
      assert first + (out.1 + Run(out.0, b).1) == (first + out.1) + Run(out.0, b).1;
    }
  }

  /*  However the output is cut  */

  function Concat(pieces: seq<string>): string {
    if pieces == [] then "" else pieces[0] + Concat(pieces[1..])
  }

  function RunPieces(p: Parser, pieces: seq<string>): (Parser, seq<Signal>)
    decreases |pieces|
  {
    if pieces == [] then (p, [])
    else
      var (q, out) := Run(p, pieces[0]);
      var (r, more) := RunPieces(q, pieces[1..]);
      (r, out + more)
  }

  lemma {:induction false} PiecesDoNotMatter(p: Parser, pieces: seq<string>)
    ensures RunPieces(p, pieces) == Run(p, Concat(pieces))
    decreases |pieces|
  {
    if pieces != [] {
      RunAppend(p, pieces[0], Concat(pieces[1..]));
      PiecesDoNotMatter(Run(p, pieces[0]).0, pieces[1..]);
    }
  }

  /*  What a program meant is what is dispatched  */

  datatype Item =
    | Printed(c: char)
    | Simple(c: char)
    | Escaped(c: char)
    | Sequence(private: bool, params: seq<int>, last: char)
    | SystemControl(code: int, text: string, bell: bool)   // ended by BEL, or by NUL
    | Broken(code: int, c: char)                           // a system control without its semicolon

  /** -1 stands for a parameter left out. */
  predicate IsParameter(n: int) {
    -1 <= n < 0x8000_0000
  }

  predicate AllParameters(params: seq<int>) {
    forall i :: 0 <= i < |params| ==> IsParameter(params[i])
  }

  predicate ItemOk(item: Item) {
    match item
    case Printed(c) => c !in {'\U{001b}', '\r', '\n', '\U{0008}', '\U{0007}', '\t'}
    case Simple(c) => c in {'\r', '\n', '\U{0008}', '\U{0007}', '\t'}
    case Escaped(c) => c != '[' && c != ']'
    case Sequence(_, params, last) =>
      params != [] && AllParameters(params)
      && !('0' <= last <= '9') && last != ';' && last != '?'
    case SystemControl(code, text, _) => IsParameter(code) && '\U{0007}' !in text && '\0' !in text
    case Broken(code, c) => IsParameter(code) && !('0' <= c <= '9') && c != ';'
  }

  function DigitChar(d: nat): char
    requires d < 10
  {
    "0123456789"[d]
  }

  function Decimal(n: nat): string {
    if n < 10 then [DigitChar(n)] else Decimal(n / 10) + [DigitChar(n % 10)]
  }

  function Numeral(n: int): string
    requires n >= -1
  {
    if n < 0 then "" else Decimal(n)
  }

  function Numerals(params: seq<int>): string
    requires params != [] && AllParameters(params)
  {
    if |params| == 1 then Numeral(params[0]) else Numeral(params[0]) + ";" + Numerals(params[1..])
  }

  function Render(item: Item): string
    requires ItemOk(item)
  {
    match item
    case Printed(c) => [c]
    case Simple(c) => [c]
    case Escaped(c) => ['\U{001b}', c]
    case Sequence(private, params, last) =>
      ['\U{001b}', '['] + (if private then "?" else "") + Numerals(params) + [last]
    case SystemControl(code, text, bell) =>
      ['\U{001b}', ']'] + Numeral(code) + ";" + text + [if bell then '\U{0007}' else '\0']
    case Broken(code, c) => ['\U{001b}', ']'] + Numeral(code) + [c]
  }

  function Meaning(item: Item): seq<Signal> {
    match item
    case Printed(c) => [Char(c)]
    case Simple(c) => [Plain(c)]
    case Escaped(c) => [Escape(c)]
    case Sequence(private, params, last) => [Control(private, last, params)]
    case SystemControl(code, text, _) => [Osc(code, text)]
    case Broken(_, _) => []
  }

  lemma RunOne(p: Parser, c: char)
    ensures Run(p, [c]) == Step(p, c)
  {
    assert [c][1..] == "";
    var (q, out) := Step(p, c);
    assert Run(q, "") == (q, []);
    assert out + [] == out;
  }

  /** Reading `a` signals nothing and leads from `p` to `q`. */
  predicate Leads(p: Parser, a: string, q: Parser) {
    Run(p, a) == (q, [])
  }

  lemma LeadsOn(p: Parser, a: string, q: Parser, b: string, r: Parser)
    requires Leads(p, a, q) && Leads(q, b, r)
    ensures Leads(p, a + b, r)
  {
    RunAppend(p, a, b);
  }

  predicate Reading(p: Parser) {
    p.mode == LBRACKET || p.mode == QUESTION || p.mode == RBRACKET
  }

  lemma AddDigitOf(q: nat, d: nat)
    requires d < 10 && 10 * q + d < 0x8000_0000
    ensures IsDigit(DigitChar(d)) && AddDigit(q, DigitChar(d)) == 10 * q + d && AddDigit(-1, DigitChar(d)) == d
  {
    assert DigitChar(d) as int == '0' as int + d;
  }

  lemma StepDigit(p: Parser, c: char)
    requires Reading(p) && IsDigit(c)
    ensures Step(p, c) == (p.(cur := AddDigit(p.cur, c)), [])
  {
  }

  lemma {:induction false} RunDecimal(p: Parser, n: nat)
    requires Reading(p) && p.cur == -1 && n < 0x8000_0000
    ensures Run(p, Decimal(n)) == (p.(cur := n), [])
    decreases n
  {
    if n < 10 {
      AddDigitOf(0, n);
      RunOne(p, DigitChar(n));
      StepDigit(p, DigitChar(n));
    } else {
      var q, c := p.(cur := n / 10), DigitChar(n % 10);
      AddDigitOf(n / 10, n % 10);
      RunDecimal(p, n / 10);
      RunAppend(p, Decimal(n / 10), [c]);
      RunOne(q, c);
      StepDigit(q, c);
    }
  }

  lemma RunNumeral(p: Parser, n: int)
    requires Reading(p) && p.cur == -1 && IsParameter(n)
    ensures Run(p, Numeral(n)) == (p.(cur := n), [])
  {
    if n >= 0 {
      RunDecimal(p, n);
    }
  }

  lemma TakeShift(a: seq<int>, s: seq<int>, n: nat)
    requires 1 <= n <= |s|
    ensures (a + [s[0]]) + s[1..][..n - 1] == a + s[..n]
  {
  }

  lemma {:induction false} RunNumerals(p: Parser, params: seq<int>)
    requires p.mode == LBRACKET || p.mode == QUESTION
    requires p.cur == -1 && params != [] && AllParameters(params)
    ensures var n := |params| - 1;
            Leads(p, Numerals(params), p.(prev := p.prev + params[..n], cur := params[n]))
    decreases |params|
  {
    RunNumeral(p, params[0]);
    if |params| == 1 {
      assert p.prev + params[..0] == p.prev;
    } else {
      var first, rest, n := Numeral(params[0]), Numerals(params[1..]), |params| - 1;
      var q := p.(cur := params[0]);
      var r := p.(prev := p.prev + [params[0]], cur := -1);
      var end := p.(prev := p.prev + params[..n], cur := params[n]);
      RunOne(q, ';');
      RunNumerals(r, params[1..]);
      TakeShift(p.prev, params, n);
      assert Numerals(params) == first + ";" + rest;
      hide Run, Numerals, Numeral;
      LeadsOn(p, first, q, ";", r);
      LeadsOn(p, first + ";", r, rest, end);
    }
  }

  lemma {:induction false} RunText(p: Parser, text: string)
    requires p.mode == TEXT && BEL !in text && '\0' !in text
    ensures Leads(p, text, p.(text := p.text + text))
    decreases |text|
  {
    if text == "" {
      assert p.text + text == p.text;
    } else {
      var c, rest := text[0], text[1..];
      assert c in text;
      var q := p.(text := p.text + [c]);
      RunOne(p, c);
      RunText(q, rest);
      LeadsOn(p, [c], q, rest, q.(text := q.text + rest));
      assert [c] + rest == text;
      assert q.text + rest == p.text + text;
    }
  }

  lemma Introducer(c: char)
    requires c == '[' || c == ']'
    ensures Leads(Idle, [ESC, c], Parser(if c == '[' then LBRACKET else RBRACKET, -1, [], ""))
  {
    var esc := Idle.(mode := SEEN_ESC);
    RunOne(Idle, ESC);
    RunOne(esc, c);
    LeadsOn(Idle, [ESC], esc, [c], Step(esc, c).0);
    assert [ESC] + [c] == [ESC, c];
  }

  lemma RunSequence(private: bool, params: seq<int>, last: char)
    requires ItemOk(Sequence(private, params, last))
    ensures Run(Idle, Render(Sequence(private, params, last))) == (Idle, [Control(private, last, params)])
  {
    var p := Parser(LBRACKET, -1, [], "");
    var q := if private then p.(mode := QUESTION) else p;
    var mark := if private then "?" else "";
    var n := |params| - 1;
    var r := q.(prev := [] + params[..n], cur := params[n]);
    Introducer('[');
    RunOne(p, '?');
    RunOne(r, last);
    RunNumerals(q, params);
    assert r.prev + [r.cur] == params;
    assert Step(r, last) == (Idle, [Control(private, last, params)]);
    assert Leads(p, mark, q);
    hide Run, Numerals, Step;
    LeadsOn(Idle, [ESC, '['], p, mark, q);
    LeadsOn(Idle, [ESC, '['] + mark, q, Numerals(params), r);
    RunAppend(Idle, [ESC, '['] + mark + Numerals(params), [last]);
    assert [] + [Control(private, last, params)] == [Control(private, last, params)];
  }

  lemma RunSystemControl(code: int, text: string, bell: bool)
    requires ItemOk(SystemControl(code, text, bell))
    ensures Run(Idle, Render(SystemControl(code, text, bell))) == (Idle, [Osc(code, text)])
  {
    var q := Parser(RBRACKET, code, [], "");
    SystemIntroduced(code);
    var r, last := q.(mode := TEXT), if bell then BEL else '\0';
    RunOne(q, ';');
    LeadsOn(Idle, [ESC, ']'] + Numeral(code), q, ";", r);
    RunText(r, text);
    var t := r.(text := "" + text);
    LeadsOn(Idle, [ESC, ']'] + Numeral(code) + ";", r, text, t);
    RunOne(t, last);
    RunAppend(Idle, [ESC, ']'] + Numeral(code) + ";" + text, [last]);
    assert "" + text == text;
    assert [] + [Osc(code, text)] == [Osc(code, text)];
  }

  /** The beginning of a system control. */
  lemma SystemIntroduced(code: int)
    requires IsParameter(code)
    ensures Leads(Idle, [ESC, ']'] + Numeral(code), Parser(RBRACKET, code, [], ""))
  {
    Introducer(']');
    var p := Parser(RBRACKET, -1, [], "");
    RunNumeral(p, code);
    LeadsOn(Idle, [ESC, ']'], p, Numeral(code), p.(cur := code));
  }

  lemma RunBroken(code: int, c: char)
    requires ItemOk(Broken(code, c))
    ensures Run(Idle, Render(Broken(code, c))) == (Idle, [])
  {
    SystemIntroduced(code);
    RunOne(Parser(RBRACKET, code, [], ""), c);
    RunAppend(Idle, [ESC, ']'] + Numeral(code), [c]);
  }

  lemma RunEscaped(c: char)
    requires ItemOk(Escaped(c))
    ensures Run(Idle, Render(Escaped(c))) == (Idle, [Escape(c)])
  {
    RunOne(Idle, ESC);
    RunOne(Idle.(mode := SEEN_ESC), c);
    RunAppend(Idle, [ESC], [c]);
    assert [ESC] + [c] == [ESC, c] && [] + [Escape(c)] == [Escape(c)];
  }

  lemma RunItem(item: Item)
    requires ItemOk(item)
    ensures Run(Idle, Render(item)) == (Idle, Meaning(item))
  {
    match item
    case Printed(c) => RunOne(Idle, c);
    case Simple(c) => RunOne(Idle, c);
    case Escaped(c) => RunEscaped(c);
    case Sequence(private, params, last) => RunSequence(private, params, last);
    case SystemControl(code, text, bell) => RunSystemControl(code, text, bell);
    case Broken(code, c) => RunBroken(code, c);
  }

  predicate ItemsOk(items: seq<Item>) {
    forall i :: 0 <= i < |items| ==> ItemOk(items[i])
  }

  function RenderAll(items: seq<Item>): string
    requires ItemsOk(items)
  {
    if items == [] then "" else Render(items[0]) + RenderAll(items[1..])
  }

  function Meanings(items: seq<Item>): seq<Signal> {
    if items == [] then [] else Meaning(items[0]) + Meanings(items[1..])
  }

  lemma {:induction false} RunItems(items: seq<Item>)
    requires ItemsOk(items)
    ensures Run(Idle, RenderAll(items)) == (Idle, Meanings(items))
    decreases |items|
  {
    if items != [] {
      RunItem(items[0]);
      RunItems(items[1..]);
      RunAppend(Idle, Render(items[0]), RenderAll(items[1..]));
    }
  }

  /** Whatever characters, control sequences (with any number of parameters) and system controls
      a program writes, and wherever its output is cut into pieces, the terminal is told exactly
      those. */
  lemma OutputUnderstood(items: seq<Item>, pieces: seq<string>)
    requires ItemsOk(items) && Concat(pieces) == RenderAll(items)
    ensures RunPieces(Idle, pieces) == (Idle, Meanings(items))
  {
    PiecesDoNotMatter(Idle, pieces);
    RunItems(items);
  }

  /*  The fields of the terminal  */

  function Chars(s: string): (r: seq<Signal>)
    ensures |r| == |s|
  {
    seq(|s|, i requires 0 <= i < |s| => Char(s[i]))
  }

  lemma RunExtend(p: Parser, s: string, i: nat)
    requires i < |s|
    ensures Run(p, s[..i + 1]) == (var (q, out) := Run(p, s[..i]); var (r, more) := Step(q, s[i]); (r, out + more))
  {
    assert s[..i + 1] == s[..i] + [s[i]];
    RunAppend(p, s[..i], [s[i]]);
    RunOne(Run(p, s[..i]).0, s[i]);
  }

  class Terminal {
    var controlSequenceState: Mode
    var curNumParameter: int
    var prevParametersCount: nat
    var prevNumParameters: array?<int>
    var curTextParameter: string
    var signals: seq<Signal>

    predicate InControl()
      reads this
    {
      controlSequenceState == LBRACKET || controlSequenceState == QUESTION
    }

    /** The parameter array, once made, has room for the parameters counted so far. */
    ghost predicate Valid()
      reads this, prevNumParameters
    {
      && (prevNumParameters != null ==> prevNumParameters.Length >= 4)
      && (InControl() && prevParametersCount > 0 ==>
            prevNumParameters != null && prevParametersCount <= prevNumParameters.Length)
    }

    function Previous(): seq<int>
      requires InControl() && prevParametersCount > 0 ==>
                 prevNumParameters != null && prevParametersCount <= prevNumParameters.Length
      reads this, prevNumParameters
    {
      if InControl() && prevParametersCount > 0 then prevNumParameters[..prevParametersCount] else []
    }

    ghost function View(): Parser
      requires Valid()
      reads this, prevNumParameters
    {
      Parser(controlSequenceState,
             if controlSequenceState == INITIAL || controlSequenceState == SEEN_ESC then -1 else curNumParameter,
             Previous(),
             if controlSequenceState == TEXT then curTextParameter else "")
    }

    constructor ()
      ensures Valid() && View() == Idle && signals == []
    {
      controlSequenceState, curNumParameter, prevParametersCount := INITIAL, -1, 0;
      prevNumParameters, curTextParameter, signals := null, "", [];
    }

    /** Room for one more parameter: four at first, then twice the count. */
    method Grow()
      requires Valid() && InControl()
      modifies this`prevNumParameters
      ensures Valid() && View() == old(View())
      ensures prevNumParameters != null && prevParametersCount < prevNumParameters.Length
      ensures prevNumParameters == old(prevNumParameters) || fresh(prevNumParameters)
    {
      if prevNumParameters == null {
        prevNumParameters := new int[4];
      } else if prevNumParameters.Length <= prevParametersCount {
        var old' := prevNumParameters;
        var n := prevParametersCount;
        var bigger := new int[2 * n];
        forall i | 0 <= i < old'.Length { bigger[i] := old'[i]; }
        prevNumParameters := bigger;
        assert bigger[..n] == old'[..n];
      }
    }

    /** A character of a control sequence. */
    method ControlChar(c: char)
      requires Valid() && InControl()
      modifies this, prevNumParameters
      ensures Valid()
      ensures prevNumParameters == null || prevNumParameters == old(prevNumParameters) || fresh(prevNumParameters)
      ensures (View(), signals) == (StepControl(old(View()), c).0, old(signals) + StepControl(old(View()), c).1)
    {
      assert signals + [] == signals;
      if IsDigit(c) {
        curNumParameter := AddDigit(curNumParameter, c);
      } else if c == ';' {
        Grow();
        ghost var before := Previous();
        prevNumParameters[prevParametersCount] := curNumParameter;
        prevParametersCount := prevParametersCount + 1;
        assert prevNumParameters[..prevParametersCount] == before + [curNumParameter];
        curNumParameter := -1;
      } else if c == '?' {
        controlSequenceState := QUESTION;
      } else {
        signals := signals + [Control(controlSequenceState == QUESTION, c, Previous() + [curNumParameter])];
        prevNumParameters := null;
        controlSequenceState := INITIAL;
      }
    }

    /** A character after ESC, or of an operating system control. */
    method OtherChar(c: char)
      requires Valid() && !InControl() && controlSequenceState != INITIAL
      modifies this
      ensures Valid() && (prevNumParameters == null || prevNumParameters == old(prevNumParameters))
      ensures (View(), signals) == (Step(old(View()), c).0, old(signals) + Step(old(View()), c).1)
    {
      assert signals + [] == signals;
      match controlSequenceState
      case SEEN_ESC =>
        if c == '[' || c == ']' {
          controlSequenceState := if c == '[' then LBRACKET else RBRACKET;
          curNumParameter, prevParametersCount := -1, 0;
        } else {
          signals := signals + [Escape(c)];
          controlSequenceState := INITIAL;
        }
      case RBRACKET =>
        if IsDigit(c) {
          curNumParameter := AddDigit(curNumParameter, c);
        } else if c == ';' {
          controlSequenceState, curTextParameter := TEXT, "";
        } else {
          prevNumParameters, controlSequenceState := null, INITIAL;
        }
      case TEXT =>
        if c == BEL || c == '\0' {
          signals := signals + [Osc(curNumParameter, curTextParameter)];
          curTextParameter, prevNumParameters, controlSequenceState := "", null, INITIAL;
        } else {
          curTextParameter := curTextParameter + [c];
        }
    }

    /** `insertString`: plain stretches are printed in one piece, and a sequence may have begun in
        an earlier string or end in a later one. A carriage return and a line feed behind it are
        taken together unless the cursor is in the last line of the scroll region. */
    method InsertString(str: string)
      requires Valid()
      modifies this, prevNumParameters
      ensures Valid()
      ensures prevNumParameters == null || prevNumParameters == old(prevNumParameters) || fresh(prevNumParameters)
      ensures (View(), signals) == (Run(old(View()), str).0, old(signals) + Run(old(View()), str).1)
    {
      ghost var p := View();
      var prevEnd, i := 0, 0;
      assert str[..0] == "" && Run(p, "") == (p, []) && Pending(str, 0, 0, controlSequenceState) == [];
      assert signals + [] == signals;
      hide Run, Step, StepControl;
      while i < |str|
        invariant 0 <= prevEnd && i <= |str| && Valid()
        invariant prevNumParameters == null || prevNumParameters == old(prevNumParameters) || fresh(prevNumParameters)
        invariant View() == Run(p, str[..i]).0
        invariant controlSequenceState == INITIAL ==> prevEnd <= i
        invariant signals + Pending(str, prevEnd, i, controlSequenceState) == old(signals) + Run(p, str[..i]).1
      {
        var inLastLine: bool := *;
        if controlSequenceState == INITIAL && str[i] == '\r' && i + 1 < |str| && str[i + 1] == '\n' && !inLastLine {
          ReturnAndFeed(str, prevEnd, i, p, old(signals));
          i := i + 2;
          prevEnd := i;
        } else {
          prevEnd := NextChar(str, prevEnd, i, p, old(signals));
          i := i + 1;
        }
      }
      assert str[..i] == str;
      assert signals + [] == signals;
      if controlSequenceState == INITIAL {
        signals := signals + Chars(str[prevEnd..i]);
      }
    }

    /** The two controls of a line end. */
    method ReturnAndFeed(str: string, prevEnd: nat, i: nat, ghost p: Parser, ghost before: seq<Signal>)
      requires Valid() && controlSequenceState == INITIAL && prevEnd <= i && i + 1 < |str|
      requires str[i] == '\r' && str[i + 1] == '\n' && View() == Run(p, str[..i]).0
      requires signals + Pending(str, prevEnd, i, INITIAL) == before + Run(p, str[..i]).1
      modifies this`signals
      ensures Valid() && View() == Run(p, str[..i + 2]).0 && signals == before + Run(p, str[..i + 2]).1
    {
      RunExtend(p, str, i);
      RunExtend(p, str, i + 1);
      hide Run;
      Assoc(before, Run(p, str[..i]).1, [Plain('\r')]);
      Assoc(before, Run(p, str[..i + 1]).1, [Plain('\n')]);
      signals := signals + Chars(str[prevEnd..i]);
      signals := signals + [Plain('\r')];
      signals := signals + [Plain('\n')];
    }

    /** One turn of the loop. */
    method NextChar(str: string, prevEnd: nat, i: nat, ghost p: Parser, ghost before: seq<Signal>) returns (end: nat)
      requires Valid() && i < |str| && View() == Run(p, str[..i]).0
      requires controlSequenceState == INITIAL ==> prevEnd <= i
      requires signals + Pending(str, prevEnd, i, controlSequenceState) == before + Run(p, str[..i]).1
      modifies this, prevNumParameters
      ensures Valid()
      ensures prevNumParameters == null || prevNumParameters == old(prevNumParameters) || fresh(prevNumParameters)
      ensures View() == Run(p, str[..i + 1]).0
      ensures controlSequenceState == INITIAL ==> end <= i + 1
      ensures signals + Pending(str, end, i + 1, controlSequenceState) == before + Run(p, str[..i + 1]).1
    {
      RunExtend(p, str, i);
      var c := str[i];
      Assoc(before, Run(p, str[..i]).1, Step(View(), c).1);
      assert signals + [] == signals;
      hide Run, Step, StepControl;
      if controlSequenceState == INITIAL {
        end := InitialChar(str, prevEnd, i);
      } else {
        end := i + 1;
        assert Chars(str[end..i + 1]) == [];
        if InControl() {
          ControlStep(View(), c);
          ControlChar(c);
        } else {
          OtherChar(c);
        }
        assert signals + [] == signals;
      }
    }

    /** Text: print what is pending before a control or a wrapped character, else leave it pending. */
    method InitialChar(str: string, prevEnd: nat, i: nat) returns (end: nat)
      requires Valid() && controlSequenceState == INITIAL && prevEnd <= i < |str|
      modifies this`signals, this`controlSequenceState
      ensures Valid() && View() == Step(old(View()), str[i]).0 && end <= i + 1
      ensures signals + Pending(str, end, i + 1, controlSequenceState)
           == old(signals) + Pending(str, prevEnd, i, INITIAL) + Step(old(View()), str[i]).1
    {
      end := prevEnd;
      var c := str[i];
      assert Chars(str[i + 1..i + 1]) == [];
      if c == ESC || IsPlain(c) {
        signals := signals + Chars(str[prevEnd..i]);
        end := i + 1;
        if c == ESC {
          controlSequenceState := SEEN_ESC;
        } else {
          signals := signals + [Plain(c)];
        }
        assert signals + [] == signals;
      } else {
        assert Chars(str[prevEnd..i + 1]) == Chars(str[prevEnd..i]) + [Char(c)];
        Assoc(signals, Chars(str[prevEnd..i]), [Char(c)]);
        var wraps: bool := *;
        if wraps {
          // the character is beyond the right margin: a break comes before it
          signals := signals + Chars(str[prevEnd..i]);
          end := i;
          assert Chars(str[i..i + 1]) == [Char(c)];
        }
      }
    }

    /** Any pieces, one after the other. */
    method InsertPieces(pieces: seq<string>)
      requires Valid()
      modifies this, prevNumParameters
      ensures Valid()
      ensures prevNumParameters == null || prevNumParameters == old(prevNumParameters) || fresh(prevNumParameters)
      ensures (View(), signals) == (RunPieces(old(View()), pieces).0, old(signals) + RunPieces(old(View()), pieces).1)
      decreases |pieces|
    {
      ghost var p, s := View(), signals;
      assert s + [] == s;
      if pieces != [] {
        InsertString(pieces[0]);
        InsertPieces(pieces[1..]);
        Assoc(s, Run(p, pieces[0]).1, RunPieces(Run(p, pieces[0]).0, pieces[1..]).1);
      }
    }
  }

  lemma Assoc(a: seq<Signal>, b: seq<Signal>, c: seq<Signal>)
    ensures a + (b + c) == (a + b) + c
  {
  }

  lemma ControlStep(p: Parser, c: char)
    requires p.mode == LBRACKET || p.mode == QUESTION
    ensures Step(p, c) == StepControl(p, c)
  {
  }

  /** What the loop has read but not yet printed. */
  ghost function Pending(str: string, prevEnd: nat, i: nat, mode: Mode): seq<Signal> {
    if mode == INITIAL && prevEnd <= i <= |str| then Chars(str[prevEnd..i]) else []
  }
}
