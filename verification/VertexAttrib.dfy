/** Recording of client-side vertex arrays (gles.c): every enabled attribute is repacked into a
    contiguous block that replay hands back to GL with stride 0. */
module VertexAttrib {
  import opened Bytes
  import opened Fields

  const MAX_VERTEX_ATTRIBS := 128

  const GL_BYTE: Word := 0x1400
  const GL_UNSIGNED_BYTE: Word := 0x1401
  const GL_SHORT: Word := 0x1402
  const GL_UNSIGNED_SHORT: Word := 0x1403
  const GL_INT: Word := 0x1404
  const GL_UNSIGNED_INT: Word := 0x1405
  const GL_FLOAT: Word := 0x1406

  /** `glSizeof`; None is its FATAL exit on an unknown type. */
  function GlSizeof(ty: Word): Option<nat> {
    if ty == GL_BYTE || ty == GL_UNSIGNED_BYTE then Some(1)
    else if ty == GL_SHORT || ty == GL_UNSIGNED_SHORT then Some(2)
    else if ty == GL_INT || ty == GL_UNSIGNED_INT || ty == GL_FLOAT then Some(4)
    else None
  }

  /** `count/6*4` with C's division, which truncates toward zero. */
  function VertexCount(count: int): int {
    if count >= 0 then count / 6 * 4 else -(-count / 6 * 4)
  }

  datatype Attrib = Attrib(enabled: bool, size: Word, ty: Word, normalized: Word,
                           stride: Word, pointer: Long)

  /** Bytes of one vertex; a negative component count copies nothing. */
  function ElemSize(a: Attrib): nat
    requires GlSizeof(a.ty).Some?
  {
    GlSizeof(a.ty).value * NonNegative(Signed(a.size))
  }

  /** Distance between vertices in client memory: stride 0 means tightly packed
      (section 2.8 of OpenGL ES 2.0). */
  function Step(a: Attrib): nat
    requires GlSizeof(a.ty).Some?
  {
    if Signed(a.stride) > 0 then Signed(a.stride) else ElemSize(a)
  }

  /** Where vertex `j` starts in client memory. */
  function VertexAt(a: Attrib, j: nat): nat
    requires GlSizeof(a.ty).Some?
  {
    a.pointer + j * Step(a)
  }

  /** What C demands for recording `n` vertices: a known type, sizes within `int`, and
      vertices inside client memory. */
  ghost predicate Readable(a: Attrib, n: int, mem: seq<Byte>) {
    && GlSizeof(a.ty).Some?
    && ElemSize(a) * NonNegative(n) < 0x7fff_fff0
    && forall j :: 0 <= j < n ==> VertexAt(a, j) + ElemSize(a) <= |mem|
  }

  ghost predicate AllReadable(attribs: seq<Attrib>, n: int, mem: seq<Byte>) {
    forall i :: 0 <= i < |attribs| && attribs[i].enabled ==> Readable(attribs[i], n, mem)
  }

  /** The bytes of vertex `j` in client memory. */
  ghost function VertexBytes(a: Attrib, j: nat, mem: seq<Byte>): (s: seq<Byte>)
    requires GlSizeof(a.ty).Some? && VertexAt(a, j) + ElemSize(a) <= |mem|
    ensures |s| == ElemSize(a)
  {
    mem[VertexAt(a, j)..VertexAt(a, j) + ElemSize(a)]
  }

  /** The block recorded for one attribute: its vertices back to back. */
  ghost function Packed(a: Attrib, n: int, mem: seq<Byte>): (s: seq<Byte>)
    requires Readable(a, n, mem)
    ensures |s| == ElemSize(a) * NonNegative(n)
    decreases NonNegative(n)
  {
    if n <= 0 then []
    else
      Fewer(a, n, mem);
      Packed(a, n - 1, mem) + VertexBytes(a, n - 1, mem)
  }

  lemma Fewer(a: Attrib, n: int, mem: seq<Byte>)
    requires n > 0 && Readable(a, n, mem)
    ensures Readable(a, n - 1, mem)
    ensures ElemSize(a) * NonNegative(n) == ElemSize(a) * NonNegative(n - 1) + ElemSize(a)
  {
  }

  /** Where vertex `j` lies in the packed block, which replay declares with stride 0. */
  function PackedAt(a: Attrib, j: nat): nat
    requires GlSizeof(a.ty).Some?
  {
    ElemSize(a) * j
  }

  /** Meaning preserved: vertex `j` of the packed block, read with stride 0, has the bytes of
      vertex `j` of the original array, whatever its stride. */
  lemma {:induction false} PackedVertex(a: Attrib, n: int, mem: seq<Byte>, j: nat)
    requires Readable(a, n, mem) && j < n
    ensures PackedAt(a, j) + ElemSize(a) <= |Packed(a, n, mem)|
    ensures Packed(a, n, mem)[PackedAt(a, j)..PackedAt(a, j) + ElemSize(a)] == VertexBytes(a, j, mem)
    decreases n
  {
    Fewer(a, n, mem);
    var front, vertex := Packed(a, n - 1, mem), VertexBytes(a, n - 1, mem);
    var lo, hi := PackedAt(a, j), PackedAt(a, j) + ElemSize(a);
    if j == n - 1 {
      assert lo == |front|;
      SliceRight(front, vertex);
    } else {
      PackedVertex(a, n - 1, mem, j);
      SliceLeft(front, vertex, lo, hi);
    }
  }

  lemma SliceLeft(s: seq<Byte>, t: seq<Byte>, i: nat, j: nat)
    requires i <= j <= |s|
    ensures (s + t)[i..j] == s[i..j]
  {
  }

  lemma SliceRight(s: seq<Byte>, t: seq<Byte>)
    ensures (s + t)[|s|..|s| + |t|] == t
  {
  }

  ghost function Block(a: Attrib, n: int, mem: seq<Byte>): Field
    requires Readable(a, n, mem)
  {
    BytesF(Some(Packed(a, n, mem)), ElemSize(a) * NonNegative(n))
  }

  /** The blocks of the enabled attributes from index `i` on. */
  ghost function Blocks(attribs: seq<Attrib>, i: nat, n: int, mem: seq<Byte>): seq<Field>
    requires i <= |attribs| && AllReadable(attribs, n, mem)
    decreases |attribs| - i
  {
    if i == |attribs| then []
    else (if attribs[i].enabled then [Block(attribs[i], n, mem)] else []) + Blocks(attribs, i + 1, n, mem)
  }

  lemma {:induction false} BlocksOk(attribs: seq<Attrib>, i: nat, n: int, mem: seq<Byte>, width: nat)
    requires i <= |attribs| && AllReadable(attribs, n, mem)
    ensures FieldsOk(Blocks(attribs, i, n, mem), width)
    decreases |attribs| - i
  {
    if i < |attribs| {
      BlocksOk(attribs, i + 1, n, mem, width);
    }
  }

  /** Copy one attribute into the staging buffer, vertex by vertex. */
  method Pack(a: Attrib, n: int, mem: seq<Byte>, buf: array<Byte>) returns (len: nat)
    requires Readable(a, n, mem) && ElemSize(a) * NonNegative(n) <= buf.Length
    modifies buf
    ensures len == ElemSize(a) * NonNegative(n)
    ensures buf[..len] == Packed(a, n, mem)
  {
    var e := ElemSize(a);
    var src, dst, j := a.pointer, 0, 0;
    while j < n
      invariant 0 <= j <= NonNegative(n)
      invariant dst == e * j && src == VertexAt(a, j)
      invariant Readable(a, j, mem) && dst <= buf.Length && buf[..dst] == Packed(a, j, mem)
    {
      Room(e, j, n);
      StepOn(a, j);
      Copy(mem, src, buf, dst, e);
      Extend(a, j, mem, buf[..dst], buf[dst..dst + e]);
      assert buf[..dst + e] == buf[..dst] + buf[dst..dst + e];
      dst := dst + e;
      src := src + e;
      if Signed(a.stride) > 0 { src := src + (Signed(a.stride) - e); }
      j := j + 1;
    }
    len := dst;
  }

  lemma Extend(a: Attrib, j: nat, mem: seq<Byte>, front: seq<Byte>, vertex: seq<Byte>)
    requires Readable(a, j, mem) && front == Packed(a, j, mem)
    requires VertexAt(a, j) + ElemSize(a) <= |mem| && ElemSize(a) * (j + 1) < 0x7fff_fff0
    requires vertex == VertexBytes(a, j, mem)
    ensures Readable(a, j + 1, mem) && front + vertex == Packed(a, j + 1, mem)
    ensures ElemSize(a) * (j + 1) == ElemSize(a) * j + ElemSize(a)
  {
  }

  lemma Room(e: nat, j: nat, n: int)
    requires j < n
    ensures e * j + e <= e * NonNegative(n)
  {
    assert e * (j + 1) <= e * n;
  }

  lemma StepOn(a: Attrib, j: nat)
    requires GlSizeof(a.ty).Some?
    ensures VertexAt(a, j + 1) == VertexAt(a, j) + Step(a)
  {
    assert (j + 1) * Step(a) == j * Step(a) + Step(a);
  }

  method Copy(mem: seq<Byte>, src: nat, buf: array<Byte>, dst: nat, e: nat)
    requires src + e <= |mem| && dst + e <= buf.Length
    modifies buf
    ensures buf[..dst] == old(buf[..dst]) && buf[dst..dst + e] == mem[src..src + e]
  {
    var k := 0;
    while k < e
      invariant 0 <= k <= e
      invariant buf[..dst] == old(buf[..dst])
      invariant buf[dst..dst + k] == mem[src..src + k]
    {
      buf[dst + k] := mem[src + k];
      k := k + 1;
    }
  }

  /** The two passes of `putVertexAttrib`: size the staging buffer, then pack every enabled
      attribute into it; the buffer is never exceeded. Returns the puts in order. */
  method PutVertexAttrib(attribs: seq<Attrib>, count: int, mem: seq<Byte>) returns (puts: seq<Field>)
    requires AllReadable(attribs, VertexCount(count), mem)
    ensures puts == Blocks(attribs, 0, VertexCount(count), mem)
  {
    var n := VertexCount(count);
    var maxsz := 0;
    for i := 0 to |attribs|
      invariant maxsz >= 0
      invariant forall k :: 0 <= k < i && attribs[k].enabled ==> ElemSize(attribs[k]) * NonNegative(n) <= maxsz
    {
      if attribs[i].enabled {
        var sz := ElemSize(attribs[i]) * NonNegative(n);
        if maxsz < sz { maxsz := sz; }
      }
    }
    var buf := new Byte[maxsz](_ => 0);
    puts := [];
    for i := 0 to |attribs|
      invariant puts + Blocks(attribs, i, n, mem) == Blocks(attribs, 0, n, mem)
    {
      if attribs[i].enabled {
        var len := Pack(attribs[i], n, mem, buf);
        puts := puts + [BytesF(Some(buf[..len]), len)];
      }
    }
  }
}
