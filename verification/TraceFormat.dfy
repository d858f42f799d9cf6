/** The bytes of a trace, position by position: what a file written by iolib.c holds. */
module TraceFormat {
  import opened Bytes
  import opened Fields
  import opened TraceWriter

  /** The four bytes of a word, the least significant first. */
  predicate WordAt(b: seq<Byte>, i: nat, w: Word) {
    && i + 4 <= |b|
    && b[i] == w % 0x100 && b[i + 1] == w / 0x100 % 0x100
    && b[i + 2] == w / 0x1_0000 % 0x100 && b[i + 3] == w / 0x100_0000
  }

  predicate LongAt(b: seq<Byte>, i: nat, v: Long) {
    WordAt(b, i, v % 0x1_0000_0000) && WordAt(b, i + 4, v / 0x1_0000_0000)
  }

  predicate PointerAt(b: seq<Byte>, i: nat, p: Long, width: nat) {
    if width == 4 then p < 0x1_0000_0000 && WordAt(b, i, p) else LongAt(b, i, p)
  }

  /** From offset `i` to its end, `b` holds `s` and then zeros up to the next word boundary. */
  predicate PaddedAt(b: seq<Byte>, i: nat, s: seq<Byte>) {
    && i + |s| <= |b| < i + |s| + 4 && |b| % 4 == 0
    && (forall j :: 0 <= j < |s| ==> b[i + j] == s[j])
    && (forall j :: i + |s| <= j < |b| ==> b[j] == 0)
  }

  /** What stands in the file for one put. */
  predicate FieldAt(b: seq<Byte>, f: Field, width: nat)
    requires FieldOk(f, width)
  {
    match f
    case IntF(w) => |b| == 4 && WordAt(b, 0, w)
    case FloatF(w) => |b| == 4 && WordAt(b, 0, w)
    case IntPtrF(arg) => NullableAt(b, arg, 0xdeadbead)
    case FloatPtrF(arg) => NullableAt(b, arg, 0x4f5eadbf)
    case LongF(v) => |b| == 8 && LongAt(b, 0, v)
    case PtrF(p) => |b| == width && PointerAt(b, 0, p, width)
    case StrF(None) => |b| == 4 && WordAt(b, 0, 0)
    case StrF(Some(s)) => PaddedAt(b, 0, s + [0])
    case BytesF(None, _) => |b| == 4 && WordAt(b, 0, 0)
    case BytesF(Some(d), size) =>
      if size < 0 then |b| == 4 && WordAt(b, 0, size + 0x1_0000_0000)
      else WordAt(b, 0, size) && PaddedAt(b, 4, d[..size])
  }

  predicate NullableAt(b: seq<Byte>, arg: Option<Word>, marker: Word) {
    if arg.None? then |b| == 8 && WordAt(b, 0, marker) && WordAt(b, 4, 0)
    else if arg.value == marker then |b| == 8 && WordAt(b, 0, marker) && WordAt(b, 4, marker)
    else |b| == 4 && WordAt(b, 0, arg.value)
  }

  lemma {:induction false} WordBytes(w: Word)
    ensures WordAt(ToLE(w, 4), 0, w)
  {
    var a := w / 0x100;
    var b := a / 0x100;
    var c := b / 0x100;
    assert ToLE(c, 1) == [c % 0x100] + ToLE(c / 0x100, 0);
    assert ToLE(b, 2) == [b % 0x100] + ToLE(c, 1);
    assert ToLE(a, 3) == [a % 0x100] + ToLE(b, 2);
    assert ToLE(w, 4) == [w % 0x100] + ToLE(a, 3);
    Quotients(w);
  }

  lemma {:induction false} Quotients(w: Word)
    ensures w / 0x100 / 0x100 == w / 0x1_0000 && w / 0x100 / 0x100 / 0x100 == w / 0x100_0000 < 0x100
  {
  }

  /** The low and the high half of a long. */
  lemma {:induction false} LongBytes(v: Long)
    ensures LongAt(ToLE(v, 8), 0, v)
  {
    var lo, hi := v % 0x1_0000_0000, v / 0x1_0000_0000;
    Halves(lo, hi, 4);
    assert v == lo + hi * Pow256(4) by { Pow256Values(); }
    Pow256Values();
    hide WordAt, ToLE;
    WordAhead(lo, ToLE(hi, 4));
    WordBehind(ToLE(lo, 4), hi, 4);
  }

  lemma {:induction false} Halves(lo: nat, hi: nat, n: nat)
    requires lo < Pow256(n)
    ensures ToLE(lo + hi * Pow256(n), n + 4) == ToLE(lo, n) + ToLE(hi, 4)
    decreases n
  {
    if n > 0 {
      var v := lo + hi * Pow256(n);
      HalvesStep(lo, hi, Pow256(n - 1));
      assert Pow256(n) == 0x100 * Pow256(n - 1);
      Halves(lo / 0x100, hi, n - 1);
      assert ToLE(v, n + 4) == [v % 0x100] + ToLE(v / 0x100, n + 3);
      assert ToLE(lo, n) == [lo % 0x100] + ToLE(lo / 0x100, n - 1);
    }
  }

  lemma {:induction false} HalvesStep(lo: nat, hi: nat, p: nat)
    ensures (lo + hi * (0x100 * p)) % 0x100 == lo % 0x100
    ensures (lo + hi * (0x100 * p)) / 0x100 == lo / 0x100 + hi * p
    ensures lo < 0x100 * p ==> lo / 0x100 < p
  {
    var v := lo + hi * (0x100 * p);
    assert hi * (0x100 * p) == 0x100 * (hi * p);
    assert v == lo + 0x100 * (hi * p);
  }

  lemma {:induction false} PaddedBytes(front: seq<Byte>, s: seq<Byte>)
    requires |front| % 4 == 0
    ensures PaddedAt(front + Pad(s), |front|, s)
  {
  }

  lemma {:induction false} PadNothing()
    ensures Pad([]) == []
  {
  }

  lemma {:induction false} WordAhead(w: Word, b: seq<Byte>)
    ensures WordAt(ToLE(w, 4) + b, 0, w)
  {
    WordBytes(w);
  }

  lemma {:induction false} WordBehind(a: seq<Byte>, w: Word, i: nat)
    requires |a| == i
    ensures WordAt(a + ToLE(w, 4), i, w)
  {
    WordBytes(w);
    var b := ToLE(w, 4);
    assert forall j :: 0 <= j < 4 ==> (a + b)[i + j] == b[j];
  }

  lemma {:induction false} WordMoves(a: seq<Byte>, b: seq<Byte>, i: nat, w: Word)
    requires WordAt(b, i, w)
    ensures WordAt(a + b, |a| + i, w)
  {
    assert forall j :: 0 <= j < |b| ==> (a + b)[|a| + j] == b[j];
  }

  lemma {:induction false} NullableBytes(arg: Option<Word>, marker: Word)
    ensures NullableAt(EncNullable(arg, marker), arg, marker)
  {
    if arg.None? {
      WordAhead(marker, ToLE(0, 4));
      WordBehind(ToLE(marker, 4), 0, 4);
    } else if arg.value == marker {
      WordAhead(marker, ToLE(marker, 4));
      WordBehind(ToLE(marker, 4), marker, 4);
    } else {
      WordBytes(arg.value);
    }
  }

  /** Every put leaves exactly these bytes. */
  lemma {:induction false} FieldBytes(f: Field, width: nat)
    requires IsWidth(width) && FieldOk(f, width)
    ensures FieldAt(Enc(f, width), f, width)
  {
    match f
    case IntF(w) => WordBytes(w);
    case FloatF(w) => WordBytes(w);
    case IntPtrF(arg) => NullableBytes(arg, MARKER);
    case FloatPtrF(arg) => NullableBytes(arg, FLOAT_MARKER);
    case LongF(v) => LongBytes(v);
    case PtrF(p) =>
      Pow256Values();
      if width == 4 { WordBytes(p); } else { LongBytes(p); }
    case StrF(str) =>
      if str.None? {
        WordBytes(0);
      } else {
        PaddedBytes([], str.value + [0]);
        assert [] + Pad(str.value + [0]) == Pad(str.value + [0]);
      }
    case BytesF(d, size) => BlockBytes(d, size, width);
  }

  lemma {:induction false} BlockBytes(d: Option<seq<Byte>>, size: int, width: nat)
    requires IsWidth(width) && FieldOk(BytesF(d, size), width)
    ensures FieldAt(Enc(BytesF(d, size), width), BytesF(d, size), width)
  {
    hide ToLE, WordAt, PaddedAt, Pad;
    var n, s := BlockLength(d, size), BlockPayload(d, size);
    WordAhead(Unsigned(n), Pad(s));
    if d.None? || size < 0 {
      PadNothing();
      assert ToLE(Unsigned(n), 4) + [] == ToLE(Unsigned(n), 4);
      WordBytes(Unsigned(n));
    } else {
      PaddedBytes(ToLE(Unsigned(n), 4), s);
    }
  }

  /** A trace begins with the version word, the version and the pointer width. */
  lemma {:induction false} HeaderBytes(width: nat)
    requires IsWidth(width)
    ensures var b := EncAll(Header(width), width);
            && |b| == 20 && WordAt(b, 0, 0xdeafca1f)
            && WordAt(b, 4, 1) && WordAt(b, 8, 0) && WordAt(b, 12, 0) && WordAt(b, 16, width)
  {
    var h := Header(width);
    var ws := [OPC_VERSION, VERSION_MAJOR, VERSION_MINOR, VERSION_REV, width];
    IntsAt(h, ws, 0, width);
    IntsAt(h, ws, 1, width);
    IntsAt(h, ws, 2, width);
    IntsAt(h, ws, 3, width);
    IntsAt(h, ws, 4, width);
  }

  /** Fields that are ints stand in the file word by word. */
  lemma {:induction false} IntsAt(fs: seq<Field>, ws: seq<Word>, k: nat, width: nat)
    requires |fs| == |ws| && k < |fs| && FieldsOk(fs, width) && forall i :: 0 <= i < |fs| ==> fs[i] == IntF(ws[i])
    ensures |EncAll(fs, width)| == 4 * |fs| && WordAt(EncAll(fs, width), 4 * k, ws[k])
    decreases |fs|
  {
    var b, more := ToLE(ws[0], 4), EncAll(fs[1..], width);
    if |fs| > 1 {
      IntsAt(fs[1..], ws[1..], if k > 0 then k - 1 else 0, width);
    }
    if k == 0 {
      WordAhead(ws[0], more);
    } else {
      WordMoves(b, more, 4 * (k - 1), ws[k]);
    }
  }

  /*  Records  */

  /** The length of a record without its thread prefix. */
  function OwnLength(rec: Rec, width: nat): nat
    requires RecOk(rec, width)
  {
    4 + |EncAll(rec.fields, width)| + 16
  }

  /** A record begins with its opcode exactly when its thread is that of the record before; otherwise
      the mark of a thread, the thread and the opcode come first. */
  lemma {:induction false} RecordBytes(last: Long, rec: Rec, width: nat)
    requires IsWidth(width) && RecOk(rec, width)
    ensures FieldsOk(RecFields(last, rec), width)
    ensures var b := EncAll(RecFields(last, rec), width);
            if rec.thread == last then WordAt(b, 0, rec.op) && |b| == OwnLength(rec, width)
            else
              && WordAt(b, 0, 2) && PointerAt(b, 4, rec.thread, width) && WordAt(b, 4 + width, rec.op)
              && |b| == 4 + width + OwnLength(rec, width)
  {
    RecFieldsOk(last, rec, width);
    var p, rest := Prefix(last, rec.thread, rec.op), rec.fields + Times(rec.bgn, rec.end);
    FieldsOkSplit(p, rest, width);
    EncAllAppend(p, rest, width);
    EncAllAppend(rec.fields, Times(rec.bgn, rec.end), width);
    TimesLength(rec.bgn, rec.end, width);
    PrefixBytes(last, rec.thread, rec.op, width);
    var a, b := EncAll(p, width), EncAll(rest, width);
    if rec.thread == last {
      WordFront(a, b, 0, rec.op);
    } else {
      WordFront(a, b, 0, 2);
      PointerFront(a, b, 4, rec.thread, width);
      WordFront(a, b, 4 + width, rec.op);
    }
    hide EncAll, WordAt, PointerAt, Prefix, Times, FieldsOk;
  }

  lemma {:induction false} WordFront(a: seq<Byte>, b: seq<Byte>, i: nat, w: Word)
    requires WordAt(a, i, w)
    ensures WordAt(a + b, i, w)
  {
  }

  lemma {:induction false} PointerFront(a: seq<Byte>, b: seq<Byte>, i: nat, p: Long, width: nat)
    requires PointerAt(a, i, p, width)
    ensures PointerAt(a + b, i, p, width)
  {
  }

  lemma {:induction false} TimesLength(bgn: Long, end: Long, width: nat)
    ensures |EncAll(Times(bgn, end), width)| == 16
  {
    assert Times(bgn, end)[1..] == [LongF(end)];
    EncOne(LongF(end), width);
  }

  /** A record ends with the time stamps of its call, first when it began, then when it ended. */
  lemma {:induction false} RecordEnds(last: Long, rec: Rec, width: nat)
    requires IsWidth(width) && RecOk(rec, width)
    ensures FieldsOk(RecFields(last, rec), width)
    ensures var b := EncAll(RecFields(last, rec), width);
            |b| >= 16 && LongAt(b, |b| - 16, rec.bgn) && LongAt(b, |b| - 8, rec.end)
  {
    RecFieldsOk(last, rec, width);
    var p, times := Prefix(last, rec.thread, rec.op) + rec.fields, Times(rec.bgn, rec.end);
    assert RecFields(last, rec) == p + times;
    FieldsOkSplit(p, times, width);
    EncAllAppend(p, times, width);
    assert times[1..] == [LongF(rec.end)];
    EncOne(LongF(rec.end), width);
    var a, b, c := EncAll(p, width), ToLE(rec.bgn, 8), ToLE(rec.end, 8);
    assert EncAll(times, width) == b + c;
    hide EncAll, ToLE, LongAt, Prefix, Times, FieldsOk;
    LongBytes(rec.bgn);
    LongBytes(rec.end);
    LongInside(a, b, c, rec.bgn);
    assert a + (b + c) == (a + b) + (c + []);
    LongInside(a + b, c, [], rec.end);
  }

  lemma {:induction false} LongInside(a: seq<Byte>, b: seq<Byte>, c: seq<Byte>, v: Long)
    requires |b| == 8 && LongAt(b, 0, v)
    ensures LongAt(a + (b + c), |a|, v)
  {
    assert forall j :: 0 <= j < 8 ==> (a + (b + c))[|a| + j] == b[j];
  }

  lemma {:induction false} PrefixBytes(last: Long, thread: Long, op: Word, width: nat)
    requires IsWidth(width) && thread < Pow256(width)
    ensures FieldsOk(Prefix(last, thread, op), width)
    ensures var b := EncAll(Prefix(last, thread, op), width);
            if thread == last then |b| == 4 && WordAt(b, 0, op)
            else |b| == 8 + width && WordAt(b, 0, 2) && PointerAt(b, 4, thread, width) && WordAt(b, 4 + width, op)
  {
    WordBytes(op);
    EncOne(IntF(op), width);
    if thread != last {
      var a, b, c := ToLE(OPC_THREAD, 4), ToLE(thread, width), ToLE(op, 4);
      var p := Prefix(last, thread, op);
      assert p[1..] == [PtrF(thread), IntF(op)] && p[1..][1..] == [IntF(op)];
      assert EncAll(p, width) == a + (b + c);
      WordBytes(OPC_THREAD);
      FieldBytes(PtrF(thread), width);
      hide EncAll, ToLE, Prefix;
      assert forall j :: 0 <= j < width ==> (a + (b + c))[4 + j] == b[j];
      assert forall j :: 0 <= j < 4 ==> (a + (b + c))[4 + width + j] == c[j];
    }
  }

  /** How often the thread changes. */
  function Changes(last: Long, recs: seq<Rec>): nat
    decreases |recs|
  {
    if recs == [] then 0 else (if recs[0].thread == last then 0 else 1) + Changes(recs[0].thread, recs[1..])
  }

  function OwnLengths(recs: seq<Rec>, width: nat): nat
    requires RecsOk(recs, width)
  {
    if recs == [] then 0 else OwnLength(recs[0], width) + OwnLengths(recs[1..], width)
  }

  lemma {:induction false} OneMoreRecord(width: nat, n: nat)
    ensures (4 + width) * (1 + n) == (4 + width) + (4 + width) * n
  {
  }

  /** The log is as long as its records, and a mark, a pointer and nothing else for each change of
      thread. */
  lemma {:induction false} LogLength(last: Long, recs: seq<Rec>, width: nat)
    requires IsWidth(width) && RecsOk(recs, width)
    ensures |LogBytes(last, recs, width)| == OwnLengths(recs, width) + (4 + width) * Changes(last, recs)
    decreases |recs|
  {
    if recs != [] {
      hide RecFields, EncAll, WordAt, PointerAt, OwnLength;
      RecordBytes(last, recs[0], width);
      LogLength(recs[0].thread, recs[1..], width);
      OneMoreRecord(width, Changes(recs[0].thread, recs[1..]));
    }
  }
}
