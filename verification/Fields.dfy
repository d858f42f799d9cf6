/** The field codes of the trace file: what each `put` appends and what each `get` takes off
    the front of the remaining bytes. */
module Fields {
  import opened Bytes

  const MARKER: Word := 0xdeadbead
  /** Bits of the float nearest to MARKER, the null marker of `putFloatPtr`. */
  const FLOAT_MARKER: Word := 0x4f5eadbf

  /** One call of a `put` function. Floats are carried as their bit pattern. */
  datatype Field =
    | IntF(w: Word)                            // putInt
    | FloatF(w: Word)                          // putFloat
    | IntPtrF(arg: Option<Word>)               // putIntPtr
    | FloatPtrF(arg: Option<Word>)             // putFloatPtr
    | LongF(v: Long)                           // putLongLong
    | PtrF(p: Long)                            // putPtr
    | StrF(str: Option<seq<Byte>>)             // putString
    | BytesF(data: Option<seq<Byte>>, size: int) // putBytes

  datatype Kind = KInt | KFloat | KIntPtr | KFloatPtr | KLong | KPtr | KStr | KBytes

  /** What a `get` function hands to its caller. */
  datatype Value =
    | IntV(w: Word)
    | FloatV(w: Word)
    | IntPtrV(arg: Option<Word>)
    | FloatPtrV(arg: Option<Word>)
    | LongV(v: Long)
    | PtrV(p: Long)
    | StrV(str: Option<seq<Byte>>)
    | BytesV(data: Option<seq<Byte>>)

  function KindOf(f: Field): Kind {
    match f
    case IntF(_) => KInt
    case FloatF(_) => KFloat
    case IntPtrF(_) => KIntPtr
    case FloatPtrF(_) => KFloatPtr
    case LongF(_) => KLong
    case PtrF(_) => KPtr
    case StrF(_) => KStr
    case BytesF(_, _) => KBytes
  }

  /** `sizeof(void*)` of the recording process. */
  predicate IsWidth(width: nat) {
    width == 4 || width == 8
  }

  /** What C demands of the argument of a put: a pointer of the machine's width, a string
      without inner NULs, a block of at least `size` bytes. */
  predicate FieldOk(f: Field, width: nat) {
    match f
    case PtrF(p) => p < Pow256(width)
    case StrF(Some(s)) => 0 !in s && |s| < 0x7fff_fff0
    case BytesF(d, size) => IsInt(size) && size < 0x7fff_fff0 && (d.Some? ==> size <= |d.value|)
    case _ => true
  }

  /*  Encoding  */

  function Pad(s: seq<Byte>): (r: seq<Byte>)
    ensures |r| % 4 == 0
  {
    s + Zeros(PadLen(|s|))
  }

  /** The number of bytes `putBytes` copies. */
  function BlockLength(data: Option<seq<Byte>>, size: int): int {
    if data.None? then 0 else size
  }

  function BlockPayload(data: Option<seq<Byte>>, size: int): (s: seq<Byte>)
    requires data.Some? ==> size <= |data.value|
    ensures |s| == NonNegative(BlockLength(data, size))
  {
    if data.None? || size <= 0 then [] else data.value[..size]
  }

  function EncNullable(arg: Option<Word>, marker: Word): seq<Byte> {
    if arg.None? then ToLE(marker, 4) + ToLE(0, 4)
    else if arg.value == marker then ToLE(marker, 4) + ToLE(marker, 4)
    else ToLE(arg.value, 4)
  }

  function EncString(str: Option<seq<Byte>>): seq<Byte> {
    if str.None? then ToLE(0, 4) else Pad(str.value + [0])
  }

  function EncBytes(data: Option<seq<Byte>>, size: int): seq<Byte>
    requires data.Some? ==> size <= |data.value|
  {
    ToLE(Unsigned(BlockLength(data, size)), 4) + Pad(BlockPayload(data, size))
  }

  function Enc(f: Field, width: nat): seq<Byte>
    requires FieldOk(f, width)
  {
    match f
    case IntF(w) => ToLE(w, 4)
    case FloatF(w) => ToLE(w, 4)
    case IntPtrF(arg) => EncNullable(arg, MARKER)
    case FloatPtrF(arg) => EncNullable(arg, FLOAT_MARKER)
    case LongF(v) => ToLE(v, 8)
    case PtrF(p) => ToLE(p, width)
    case StrF(str) => EncString(str)
    case BytesF(d, size) => EncBytes(d, size)
  }

  predicate FieldsOk(fs: seq<Field>, width: nat) {
    forall i :: 0 <= i < |fs| ==> FieldOk(fs[i], width)
  }

  lemma FieldsOkSplit(fs: seq<Field>, gs: seq<Field>, width: nat)
    requires FieldsOk(fs + gs, width)
    ensures FieldsOk(fs, width) && FieldsOk(gs, width)
  {
    forall i | 0 <= i < |fs| ensures FieldOk(fs[i], width) {
      assert (fs + gs)[i] == fs[i];
    }
    forall i | 0 <= i < |gs| ensures FieldOk(gs[i], width) {
      assert (fs + gs)[|fs| + i] == gs[i];
    }
  }

  function EncAll(fs: seq<Field>, width: nat): seq<Byte>
    requires FieldsOk(fs, width)
  {
    if fs == [] then [] else Enc(fs[0], width) + EncAll(fs[1..], width)
  }

  lemma {:induction false} EncAllAppend(fs: seq<Field>, gs: seq<Field>, width: nat)
    requires FieldsOk(fs, width) && FieldsOk(gs, width)
    ensures FieldsOk(fs + gs, width)
    ensures EncAll(fs + gs, width) == EncAll(fs, width) + EncAll(gs, width)
  {
    if fs == [] {
      assert fs + gs == gs;
    } else {
      assert (fs + gs)[1..] == fs[1..] + gs;
      EncAllAppend(fs[1..], gs, width);
    }
  }

  lemma EncOne(f: Field, width: nat)
    requires FieldOk(f, width)
    ensures EncAll([f], width) == Enc(f, width)
  {
    assert [f][1..] == [];
    assert EncAll([], width) == [];
  }

  /** Every field code is a whole number of words, so the cursor is aligned between fields. */
  lemma EncAligned(f: Field, width: nat)
    requires IsWidth(width) && FieldOk(f, width)
    ensures |Enc(f, width)| % 4 == 0 && |Enc(f, width)| >= 4
  {
  }

  /*  Decoding: each function maps the remaining bytes to (result, bytes left). Bytes past the
      end of the file read as zero, as in the last page of a mapping.  */

  function Drop(s: seq<Byte>, n: nat): seq<Byte> {
    if n <= |s| then s[n..] else []
  }

  function GetWord(s: seq<Byte>): (r: (Word, seq<Byte>))
    ensures |r.1| <= |s|
  {
    if |s| < 4 then (0, s) else (Pow256Values(); FromLE(s[..4]), s[4..])
  }

  function GetLong(s: seq<Byte>): (r: (Long, seq<Byte>))
    ensures |r.1| <= |s|
  {
    if |s| < 8 then (0, s) else (Pow256Values(); FromLE(s[..8]), s[8..])
  }

  function SignExtend(w: Word): Long {
    if w < 0x8000_0000 then w else 0xffff_ffff_0000_0000 + w
  }

  function GetPtr(s: seq<Byte>, width: nat): (r: (Long, seq<Byte>))
    requires IsWidth(width)
    ensures |r.1| <= |s|
  {
    if |s| < width then (0, s)
    else if width == 4 then (SignExtend(GetWord(s).0), GetWord(s).1)
    else GetLong(s)
  }

  function GetIntPtr(s: seq<Byte>): (r: (Option<Word>, seq<Byte>))
    ensures |r.1| <= |s|
  {
    if |s| < 4 then (None, s)
    else
      var (val, rest) := GetWord(s);
      if val != MARKER then (Some(val), rest)
      else
        var second := GetWord(rest).0;
        (if second == 0 then None else Some(second), Drop(rest, 4))
  }

  predicate IsFloatZero(w: Word) {
    w == 0 || w == 0x8000_0000
  }

  /** The second word is looked at but not stepped over. */
  function GetFloatPtr(s: seq<Byte>): (r: (Option<Word>, seq<Byte>))
    ensures |r.1| <= |s|
  {
    if |s| < 4 then (None, s)
    else
      var (val, rest) := GetWord(s);
      if val != FLOAT_MARKER then (Some(val), rest)
      else
        var second := GetWord(rest).0;
        (if IsFloatZero(second) then None else Some(second), rest)
  }

  /** `strlen`, counting the end of the bytes as a NUL. */
  function StrLen(s: seq<Byte>): (n: nat)
    ensures n <= |s| && 0 !in s[..n] && (n < |s| ==> s[n] == 0)
  {
    if s == [] || s[0] == 0 then 0
    else
      var m := StrLen(s[1..]);
      assert s[..m + 1] == [s[0]] + s[1..][..m];
      m + 1
  }

  function GetString(s: seq<Byte>): (r: (Option<seq<Byte>>, seq<Byte>))
    ensures |r.1| <= |s|
  {
    var n := StrLen(s);
    if n + 1 > |s| then (None, s) else (Some(s[..n]), Drop(s, RoundUp(n + 1)))
  }

  function GetBytes(s: seq<Byte>): (r: (Option<seq<Byte>>, seq<Byte>))
    ensures |r.1| <= |s|
  {
    if |s| < 4 then (None, s)
    else
      var (w, rest) := GetWord(s);
      var size := Signed(w);
      if size <= 0 || size > |rest| then (None, rest)
      else (Some(rest[..size]), Drop(rest, RoundUp(size)))
  }

  function Get(k: Kind, width: nat, s: seq<Byte>): (r: (Value, seq<Byte>))
    requires IsWidth(width)
    ensures |r.1| <= |s|
  {
    match k
    case KInt => var (w, t) := GetWord(s); (IntV(w), t)
    case KFloat => var (w, t) := GetWord(s); (FloatV(w), t)
    case KIntPtr => var (a, t) := GetIntPtr(s); (IntPtrV(a), t)
    case KFloatPtr => var (a, t) := GetFloatPtr(s); (FloatPtrV(a), t)
    case KLong => var (v, t) := GetLong(s); (LongV(v), t)
    case KPtr => var (p, t) := GetPtr(s, width); (PtrV(p), t)
    case KStr => var (x, t) := GetString(s); (StrV(x), t)
    case KBytes => var (d, t) := GetBytes(s); (BytesV(d), t)
  }

  /*  What the reader is promised to see of a field  */

  /** A pointer of a 4-byte process comes back sign-extended. */
  function SeenPtr(p: Long, width: nat): Long
    requires p < Pow256(width)
  {
    if width == 4 then Pow256Values(); SignExtend(p) else p
  }

  /** A null string comes back empty; a null or empty block comes back null. */
  function Seen(f: Field, width: nat): Value
    requires FieldOk(f, width)
  {
    match f
    case IntF(w) => IntV(w)
    case FloatF(w) => FloatV(w)
    case IntPtrF(arg) => IntPtrV(arg)
    case FloatPtrF(arg) => FloatPtrV(arg)
    case LongF(v) => LongV(v)
    case PtrF(p) => PtrV(SeenPtr(p, width))
    case StrF(str) => StrV(Some(if str.None? then [] else str.value))
    case BytesF(d, size) =>
      BytesV(if d.None? || size <= 0 then None else Some(d.value[..size]))
  }

  function SeenAll(fs: seq<Field>, width: nat): (vs: seq<Value>)
    requires FieldsOk(fs, width)
    ensures |vs| == |fs|
  {
    if fs == [] then [] else [Seen(fs[0], width)] + SeenAll(fs[1..], width)
  }

  /** `glGetFloatv`'s field is the one code that is not self-delimiting on all arguments. */
  predicate Delimited(f: Field) {
    f.FloatPtrF? ==> f.arg.Some? && f.arg.value != FLOAT_MARKER
  }

  /*  Round trips, in front of any suffix  */

  lemma GetWordOf(w: Word, rest: seq<Byte>)
    ensures GetWord(ToLE(w, 4) + rest) == (w, rest)
  {
    var s := ToLE(w, 4) + rest;
    assert s[..4] == ToLE(w, 4) && s[4..] == rest;
    LEWord(w);
  }

  lemma GetLongOf(v: Long, rest: seq<Byte>)
    ensures GetLong(ToLE(v, 8) + rest) == (v, rest)
  {
    var s := ToLE(v, 8) + rest;
    assert s[..8] == ToLE(v, 8) && s[8..] == rest;
    LELong(v);
  }

  lemma GetPtrOf(p: Long, width: nat, rest: seq<Byte>)
    requires IsWidth(width) && p < Pow256(width)
    ensures GetPtr(ToLE(p, width) + rest, width) == (SeenPtr(p, width), rest)
  {
    Pow256Values();
    if width == 4 { GetWordOf(p, rest); } else { GetLongOf(p, rest); }
  }

  lemma TwoWords(a: Word, b: Word, rest: seq<Byte>)
    ensures var s := ToLE(a, 4) + ToLE(b, 4) + rest;
            GetWord(s) == (a, ToLE(b, 4) + rest) && GetWord(ToLE(b, 4) + rest) == (b, rest)
            && Drop(ToLE(b, 4) + rest, 4) == rest
  {
    assert ToLE(a, 4) + ToLE(b, 4) + rest == ToLE(a, 4) + (ToLE(b, 4) + rest);
    GetWordOf(a, ToLE(b, 4) + rest);
    GetWordOf(b, rest);
  }

  lemma GetIntPtrOf(arg: Option<Word>, rest: seq<Byte>)
    ensures GetIntPtr(EncNullable(arg, MARKER) + rest) == (arg, rest)
  {
    if arg.None? {
      TwoWords(MARKER, 0, rest);
    } else if arg.value == MARKER {
      TwoWords(MARKER, MARKER, rest);
    } else {
      GetWordOf(arg.value, rest);
    }
  }

  /** The float code round-trips exactly for the ordinary values. */
  lemma GetFloatPtrOf(arg: Option<Word>, rest: seq<Byte>)
    ensures GetFloatPtr(EncNullable(arg, FLOAT_MARKER) + rest) == (arg, rest)
        <==> arg.Some? && arg.value != FLOAT_MARKER
  {
    if arg.None? {
      TwoWords(FLOAT_MARKER, 0, rest);
      assert |ToLE(0, 4) + rest| == |rest| + 4;
    } else if arg.value == FLOAT_MARKER {
      TwoWords(FLOAT_MARKER, FLOAT_MARKER, rest);
      assert |ToLE(FLOAT_MARKER, 4) + rest| == |rest| + 4;
    } else {
      GetWordOf(arg.value, rest);
    }
  }

  lemma {:induction false} StrLenOf(s: seq<Byte>, tail: seq<Byte>)
    requires 0 !in s && tail != [] && tail[0] == 0
    ensures StrLen(s + tail) == |s|
  {
    if s == [] {
      assert s + tail == tail;
    } else {
      assert (s + tail)[1..] == s[1..] + tail;
      StrLenOf(s[1..], tail);
    }
  }

  lemma NullStringIsEmpty()
    ensures EncString(None) == EncString(Some([]))
  {
    assert ToLE(0, 4) == [0] + ToLE(0, 3);
    assert ToLE(0, 3) == [0] + ToLE(0, 2);
    assert ToLE(0, 2) == [0] + ToLE(0, 1);
    assert ToLE(0, 1) == [0];
    assert ToLE(0, 4) == [0, 0, 0, 0];
    assert Pad([] + [0]) == [0, 0, 0, 0];
  }

  lemma GetStringOfText(t: seq<Byte>, rest: seq<Byte>)
    requires 0 !in t
    ensures GetString(EncString(Some(t)) + rest) == (Some(t), rest)
  {
    var pad := Zeros(PadLen(|t| + 1));
    var all := EncString(Some(t)) + rest;
    assert all == t + ([0] + pad + rest);
    StrLenOf(t, [0] + pad + rest);
    RoundUpIsPadded(|t| + 1);
    assert all[..|t|] == t;
    assert all[|t| + 1 + |pad|..] == rest;
  }

  lemma GetStringOf(str: Option<seq<Byte>>, rest: seq<Byte>)
    requires str.Some? ==> 0 !in str.value
    ensures GetString(EncString(str) + rest) == (Some(if str.None? then [] else str.value), rest)
  {
    NullStringIsEmpty();
    GetStringOfText(if str.None? then [] else str.value, rest);
  }

  lemma SignedOf(n: int)
    requires IsInt(n)
    ensures Signed(Unsigned(n)) == n
  {
  }

  lemma PaddedPayload(payload: seq<Byte>, rest: seq<Byte>)
    ensures var tail := Pad(payload) + rest;
            |payload| <= |tail| && tail[..|payload|] == payload
            && Drop(tail, RoundUp(|payload|)) == rest
  {
    RoundUpIsPadded(|payload|);
    var tail := Pad(payload) + rest;
    assert tail[..|payload|] == payload;
    assert tail[|Pad(payload)|..] == rest;
  }

  lemma GetBytesOf(data: Option<seq<Byte>>, size: int, rest: seq<Byte>)
    requires IsInt(size) && (data.Some? ==> size <= |data.value|)
    ensures GetBytes(EncBytes(data, size) + rest)
         == (if data.None? || size <= 0 then None else Some(data.value[..size]), rest)
  {
    var n := BlockLength(data, size);
    var payload := BlockPayload(data, size);
    var tail := Pad(payload) + rest;
    assert EncBytes(data, size) + rest == ToLE(Unsigned(n), 4) + tail;
    GetWordOf(Unsigned(n), tail);
    SignedOf(n);
    PaddedPayload(payload, rest);
    if n <= 0 {
      assert tail == rest;
    }
  }

  /** Each field code is inverted by its reader in front of any suffix -- for `putFloatPtr`
      exactly when its argument is an ordinary value. */
  lemma GetOf(f: Field, width: nat, rest: seq<Byte>)
    requires IsWidth(width) && FieldOk(f, width)
    ensures Get(KindOf(f), width, Enc(f, width) + rest) == (Seen(f, width), rest)
        <==> Delimited(f)
  {
    hide GetWord, GetLong, GetPtr, GetIntPtr, GetFloatPtr, GetString, GetBytes;
    hide ToLE, EncNullable, EncString, EncBytes, SeenPtr;
    match f
    case IntF(w) => GetWordOf(w, rest);
    case FloatF(w) => GetWordOf(w, rest);
    case IntPtrF(arg) => GetIntPtrOf(arg, rest);
    case FloatPtrF(arg) => GetFloatPtrOf(arg, rest);
    case LongF(v) => GetLongOf(v, rest);
    case PtrF(p) => GetPtrOf(p, width, rest);
    case StrF(str) => GetStringOf(str, rest);
    case BytesF(d, size) => GetBytesOf(d, size, rest);
  }

  /*  Runs of fields  */

  function KindsOf(fs: seq<Field>): (ks: seq<Kind>)
    ensures |ks| == |fs|
  {
    if fs == [] then [] else [KindOf(fs[0])] + KindsOf(fs[1..])
  }

  function KindOfValue(v: Value): Kind {
    match v
    case IntV(_) => KInt
    case FloatV(_) => KFloat
    case IntPtrV(_) => KIntPtr
    case FloatPtrV(_) => KFloatPtr
    case LongV(_) => KLong
    case PtrV(_) => KPtr
    case StrV(_) => KStr
    case BytesV(_) => KBytes
  }

  predicate OfKinds(vs: seq<Value>, ks: seq<Kind>) {
    |vs| == |ks| && forall i :: 0 <= i < |ks| ==> KindOfValue(vs[i]) == ks[i]
  }

  /** Read fields of the given kinds, one after the other. */
  function ReadKinds(ks: seq<Kind>, width: nat, s: seq<Byte>): (r: (seq<Value>, seq<Byte>))
    requires IsWidth(width)
    ensures OfKinds(r.0, ks) && |r.1| <= |s|
  {
    if ks == [] then ([], s)
    else
      var (v, t) := Get(ks[0], width, s);
      var (vs, u) := ReadKinds(ks[1..], width, t);
      ([v] + vs, u)
  }

  predicate AllDelimited(fs: seq<Field>) {
    forall i :: 0 <= i < |fs| ==> Delimited(fs[i])
  }

  lemma {:induction false} ReadKindsOf(fs: seq<Field>, width: nat, rest: seq<Byte>)
    requires IsWidth(width) && FieldsOk(fs, width) && AllDelimited(fs)
    ensures ReadKinds(KindsOf(fs), width, EncAll(fs, width) + rest) == (SeenAll(fs, width), rest)
  {
    if fs == [] {
      assert EncAll(fs, width) + rest == rest;
    } else {
      var tail := EncAll(fs[1..], width);
      Associative(Enc(fs[0], width), tail, rest);
      GetOf(fs[0], width, tail + rest);
      ReadKindsOf(fs[1..], width, rest);
    }
  }

  lemma {:induction false} SeenAllAppend(fs: seq<Field>, gs: seq<Field>, width: nat)
    requires FieldsOk(fs, width) && FieldsOk(gs, width)
    ensures FieldsOk(fs + gs, width)
    ensures SeenAll(fs + gs, width) == SeenAll(fs, width) + SeenAll(gs, width)
  {
    if fs == [] {
      assert fs + gs == gs;
    } else {
      assert (fs + gs)[1..] == fs[1..] + gs;
      SeenAllAppend(fs[1..], gs, width);
    }
  }

  /** Reading the fields of a front leaves the reader at the fields behind it. */
  lemma ReadFront(fs: seq<Field>, gs: seq<Field>, width: nat, rest: seq<Byte>)
    requires IsWidth(width) && FieldsOk(fs, width) && FieldsOk(gs, width) && AllDelimited(fs)
    ensures FieldsOk(fs + gs, width)
    ensures ReadKinds(KindsOf(fs), width, EncAll(fs + gs, width) + rest)
         == (SeenAll(fs, width), EncAll(gs, width) + rest)
    ensures SeenAll(fs + gs, width) == SeenAll(fs, width) + SeenAll(gs, width)
  {
    EncAllAppend(fs, gs, width);
    SeenAllAppend(fs, gs, width);
    Associative(EncAll(fs, width), EncAll(gs, width), rest);
    ReadKindsOf(fs, width, EncAll(gs, width) + rest);
  }
}
