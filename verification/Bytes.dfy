/** Machine words and their little-endian byte images, as both ends of the trace see them. */
module Bytes {
  type Byte = b: int | 0 <= b < 0x100
  type Word = w: int | 0 <= w < 0x1_0000_0000
  type Long = v: int | 0 <= v < 0x1_0000_0000_0000_0000

  datatype Option<+T> = None | Some(value: T)

  /** The C `int` that a 32-bit pattern denotes. */
  function Signed(w: Word): int {
    if w < 0x8000_0000 then w else w - 0x1_0000_0000
  }

  /** The 32-bit pattern of a C `int`. */
  function Unsigned(n: int): Word {
    n % 0x1_0000_0000
  }

  predicate IsInt(n: int) {
    -0x8000_0000 <= n < 0x8000_0000
  }

  function NonNegative(n: int): nat {
    if n > 0 then n else 0
  }

  function Pow256(n: nat): nat {
    if n == 0 then 1 else 0x100 * Pow256(n - 1)
  }

  lemma Pow256Values()
    ensures Pow256(4) == 0x1_0000_0000 && Pow256(8) == 0x1_0000_0000_0000_0000
  {
    assert Pow256(2) == 0x1_0000;
    assert Pow256(4) == 0x1_0000_0000;
    assert Pow256(6) == 0x1_0000_0000_0000;
  }

  /** The low `width` bytes of `v`, least significant first. */
  function ToLE(v: nat, width: nat): (s: seq<Byte>)
    ensures |s| == width
  {
    if width == 0 then [] else [v % 0x100] + ToLE(v / 0x100, width - 1)
  }

  function FromLE(s: seq<Byte>): (v: nat)
    ensures v < Pow256(|s|)
  {
    if s == [] then 0 else s[0] + 0x100 * FromLE(s[1..])
  }

  lemma {:induction false} LERoundTrip(v: nat, width: nat)
    requires v < Pow256(width)
    ensures FromLE(ToLE(v, width)) == v
  {
    if width > 0 {
      LERoundTrip(v / 0x100, width - 1);
      assert ToLE(v, width)[1..] == ToLE(v / 0x100, width - 1);
    }
  }

  lemma LEWord(w: Word)
    ensures FromLE(ToLE(w, 4)) == w
  {
    Pow256Values();
    LERoundTrip(w, 4);
  }

  lemma LELong(v: Long)
    ensures FromLE(ToLE(v, 8)) == v
  {
    Pow256Values();
    LERoundTrip(v, 8);
  }

  /** `n` zero bytes. */
  function Zeros(n: nat): (s: seq<Byte>)
    ensures |s| == n && forall i :: 0 <= i < n ==> s[i] == 0
  {
    seq(n, _ => 0)
  }

  /** How many bytes take a run of `n` bytes to the next word boundary. */
  function PadLen(n: nat): (p: nat)
    ensures p < 4 && (n + p) % 4 == 0
  {
    (4 - n % 4) % 4
  }

  lemma PadLenShift(n: nat, m: nat)
    requires n % 4 == 0
    ensures PadLen(n + m) == PadLen(m)
  {
  }

  /** The reader's own rounding of a length (add 3, drop the remainder). */
  function RoundUp(n: nat): nat {
    n + 3 - (n + 3) % 4
  }

  lemma RoundUpIsPadded(n: nat)
    ensures RoundUp(n) == n + PadLen(n)
  {
  }

  lemma Associative(a: seq<Byte>, b: seq<Byte>, c: seq<Byte>)
    ensures (a + b) + c == a + (b + c)
  {
  }
}
