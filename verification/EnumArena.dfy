/** The circular buffer behind `glEnum2str` and `eglEnum2str` for values without a name. */
module EnumArena {
  import opened Bytes

  const SIZE := 1024
  const ROOM := 16

  function HexDigit(d: nat): char
    requires d < 16
  {
    "0123456789abcdef"[d]
  }

  function Hex(n: nat): string {
    if n < 16 then [HexDigit(n)] else Hex(n / 16) + [HexDigit(n % 16)]
  }

  /** `snprintf(ptr, 16, "0x%x", val)` with its terminating NUL. */
  function Image(val: Word): (s: string)
    ensures 4 <= |s| <= 11
  {
    HexLength(val);
    "0x" + Hex(val) + ['\0']
  }

  lemma HexLength(n: nat)
    requires n < 0x1_0000_0000
    ensures 1 <= |Hex(n)| <= 8
  {
    HexBound(n, 8, 0x1_0000_0000);
  }

  lemma {:induction false} HexBound(n: nat, digits: nat, bound: nat)
    requires digits >= 1 && n < bound && bound == Pow16(digits)
    ensures 1 <= |Hex(n)| <= digits
  {
    if n >= 16 {
      HexBound(n / 16, digits - 1, Pow16(digits - 1));
    }
  }

  function DigitOf(c: char): nat {
    if '0' <= c <= '9' then c as int - '0' as int else if 'a' <= c <= 'f' then c as int - 'a' as int + 10 else 0
  }

  /** The number a string of hexadecimal digits denotes. */
  function ValueOf(s: string): nat {
    if s == "" then 0 else ValueOf(s[..|s| - 1]) * 16 + DigitOf(s[|s| - 1])
  }

  lemma {:induction false} HexSpells(n: nat)
    ensures ValueOf(Hex(n)) == n && Hex(n) != "" && (Hex(n)[0] == '0' ==> n == 0)
    ensures forall i :: 0 <= i < |Hex(n)| ==> IsDigit(Hex(n)[i])
  {
    var d := HexDigit(n % 16);
    DigitSpells(n % 16);
    if n >= 16 {
      HexSpells(n / 16);
      ValueSnoc(Hex(n / 16), d);
      hide ValueOf, HexDigit, DigitOf, IsDigit;
    } else {
      ValueSnoc("", d);
      assert "" + [d] == [d];
    }
  }

  lemma ValueSnoc(s: string, c: char)
    ensures ValueOf(s + [c]) == ValueOf(s) * 16 + DigitOf(c)
  {
    assert (s + [c])[..|s|] == s;
  }

  predicate IsDigit(c: char) {
    '0' <= c <= '9' || 'a' <= c <= 'f'
  }

  lemma DigitSpells(d: nat)
    requires d < 16
    ensures DigitOf(HexDigit(d)) == d && IsDigit(HexDigit(d)) && (HexDigit(d) == '0' ==> d == 0)
  {
  }

  /** The string is "0x", the value in lower-case hexadecimal digits without leading zeros, and NUL. */
  lemma ImageSpells(val: Word)
    ensures var s := Image(val);
            var digits := s[2..|s| - 1];
            && s[0] == '0' && s[1] == 'x' && s[|s| - 1] == '\0'
            && digits != "" && ValueOf(digits) == val && (digits[0] == '0' ==> val == 0)
            && forall i :: 0 <= i < |digits| ==> IsDigit(digits[i])
  {
    HexSpells(val);
    assert Image(val)[2..|Image(val)| - 1] == Hex(val);
  }

  /** A name is put where the last one ended, or at the start when fewer than 16 of the 1024 bytes are
      left, and changes no other byte. */
  lemma NamePlaces(a: Arena, val: Word)
    requires Ok(a)
    ensures var p := if 1024 - a.ptr < 16 then 0 else a.ptr;
            var b, n := Name(a, val), |Image(val)|;
            && |b.buf| == 1024 && b.ptr == p + n && b.buf[p..p + n] == Image(val)
            && forall i :: 0 <= i < 1024 && (i < p || p + n <= i) ==> b.buf[i] == a.buf[i]
  {
  }

  function Pow16(n: nat): nat {
    if n == 0 then 1 else 16 * Pow16(n - 1)
  }

  datatype Arena = Arena(buf: seq<char>, ptr: nat)

  predicate Ok(a: Arena) {
    |a.buf| == SIZE && a.ptr <= SIZE
  }

  /** Where the next string goes: on, or back to the start when there is no room for 16 bytes. */
  function StartOf(a: Arena): nat {
    if a.ptr + ROOM > SIZE then 0 else a.ptr
  }

  function Overwrite(buf: seq<char>, at: nat, s: seq<char>): (r: seq<char>)
    requires at + |s| <= |buf|
    ensures |r| == |buf|
  {
    buf[..at] + s + buf[at + |s|..]
  }

  function Name(a: Arena, val: Word): (b: Arena)
    requires Ok(a)
    ensures Ok(b)
  {
    Arena(Overwrite(a.buf, StartOf(a), Image(val)), StartOf(a) + |Image(val)|)
  }

  function NameAll(a: Arena, vals: seq<Word>): (b: Arena)
    requires Ok(a)
    ensures Ok(b)
    decreases |vals|
  {
    if vals == [] then a else NameAll(Name(a, vals[0]), vals[1..])
  }

  /** `p` is the start of a string of `l` bytes: either the cursor is behind it, or it has come
      round and has room for `n` more strings before it. */
  predicate Safe(ptr: nat, p: nat, l: nat, n: nat) {
    || (p + l <= ptr && ptr + 11 * n <= 990 + p + l)
    || (ptr + 11 * n <= p)
  }

  lemma OverwriteApart(buf: seq<char>, at: nat, s: seq<char>, p: nat, l: nat)
    requires at + |s| <= |buf| && p + l <= |buf| && (at + |s| <= p || p + l <= at)
    ensures Overwrite(buf, at, s)[p..p + l] == buf[p..p + l]
  {
  }

  lemma {:induction false} SafeKeeps(a: Arena, vals: seq<Word>, p: nat, l: nat)
    requires Ok(a) && l <= 11 && p + ROOM <= SIZE && Safe(a.ptr, p, l, |vals|)
    ensures NameAll(a, vals).buf[p..p + l] == a.buf[p..p + l]
    decreases |vals|
  {
    if vals != [] {
      var b, s := Name(a, vals[0]), Image(vals[0]);
      OverwriteApart(a.buf, StartOf(a), s, p, l);
      SafeKeeps(b, vals[1..], p, l);
    }
  }

  /** A returned string outlives the next 90 calls, whatever values they name. */
  lemma Survives(a: Arena, val: Word, vals: seq<Word>)
    requires Ok(a) && |vals| <= 90
    ensures var p, s := StartOf(a), Image(val);
            NameAll(Name(a, val), vals).buf[p..p + |s|] == s
  {
    var p, s := StartOf(a), Image(val);
    var b := Name(a, val);
    assert b.buf[p..p + |s|] == s;
    SafeKeeps(b, vals, p, |s|);
  }

  /*  Ninety is the most that can be promised  */

  const WIDE: Word := 0xffff_ffff

  lemma WideImage()
    ensures Image(WIDE) == "0xffffffff\0"
  {
    assert Hex(0xf) == "f";
    assert Hex(0xff) == "ff";
    assert Hex(0xfff) == "fff";
    assert Hex(0xffff) == "ffff";
    assert Hex(0xf_ffff) == "fffff";
    assert Hex(0xff_ffff) == "ffffff";
    assert Hex(0xfff_ffff) == "fffffff";
    assert Hex(0xffff_ffff) == "ffffffff";
  }

  function Wides(n: nat): seq<Word> {
    seq(n, _ => WIDE)
  }

  lemma {:induction false} WideRun(a: Arena, n: nat)
    requires Ok(a) && n > 0 && a.ptr + 11 * (n - 1) == 1009
    ensures NameAll(a, Wides(n)).buf[8] == 'f'
    decreases n
  {
    WideImage();
    assert Wides(n)[1..] == Wides(n - 1);
    if n == 1 {
      assert Wides(0) == [];
    } else {
      WideRun(Name(a, WIDE), n - 1);
    }
  }

  /** With 91 further calls a string can be lost. */
  lemma NinetyIsTight(buf: seq<char>)
    requires |buf| == SIZE
    ensures var a := Arena(buf, 8);
            NameAll(Name(a, WIDE), Wides(91)).buf[8..19] != Image(WIDE)
  {
    WideImage();
    var b := Name(Arena(buf, 8), WIDE);
    WideRun(b, 91);
    assert NameAll(b, Wides(91)).buf[8..19][0] == 'f';
  }

  /** The static buffer and pointer. */
  class Names {
    const buf: array<char>
    var ptr: nat

    ghost predicate Valid()
      reads this, buf
    {
      buf.Length == SIZE && ptr <= SIZE
    }

    ghost function View(): Arena
      requires Valid()
      reads this, buf
    {
      Arena(buf[..], ptr)
    }

    constructor ()
      ensures Valid() && fresh(buf) && ptr == 0
    {
      buf := new char[SIZE](_ => '\0');
      ptr := 0;
    }

    /** Never writes outside the buffer; the result is the start of the string. */
    method Unknown(val: Word) returns (res: nat)
      requires Valid()
      modifies this, buf
      ensures Valid() && View() == Name(old(View()), val) && res == StartOf(old(View()))
    {
      if ptr + ROOM > SIZE { ptr := 0; }
      res := ptr;
      var s := Image(val);
      ghost var before := buf[..];
      var i := 0;
      while i < |s|
        invariant 0 <= i <= |s| && res == ptr == StartOf(old(View()))
        invariant forall k :: 0 <= k < i ==> buf[res + k] == s[k]
        invariant forall k :: 0 <= k < SIZE && (k < res || res + i <= k) ==> buf[k] == before[k]
      {
        buf[res + i] := s[i];
        i := i + 1;
      }
      assert buf[..] == Overwrite(before, res, s);
      ptr := ptr + |s|;
    }
  }
}
