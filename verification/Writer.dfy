/** The recording side of iolib.c: a window of fixed-size mapped chunks that behaves as one
    flat, growing file. */
module TraceWriter {
  import opened Bytes
  import opened Fields

  const OPC_VERSION: Word := 0xdeafca1f
  const OPC_THREAD: Word := 2
  const VERSION_MAJOR: Word := 1
  const VERSION_MINOR: Word := 0
  const VERSION_REV: Word := 0

  function Header(width: nat): (fs: seq<Field>)
    requires IsWidth(width)
    ensures FieldsOk(fs, width)
  {
    [IntF(OPC_VERSION), IntF(VERSION_MAJOR), IntF(VERSION_MINOR), IntF(VERSION_REV), IntF(width)]
  }

  /** What `putCmd` writes for an outermost call of thread `self`: a prefix when the thread
      changed, then the opcode. */
  function Prefix(last: Long, self: Long, cmd: Word): seq<Field> {
    if self != last then [IntF(OPC_THREAD), PtrF(self), IntF(cmd)] else [IntF(cmd)]
  }

  /** An outermost call as it is recorded: who made it, its puts, and its two time stamps. */
  datatype Rec = Rec(thread: Long, op: Word, fields: seq<Field>, bgn: Long, end: Long)

  predicate RecOk(rec: Rec, width: nat) {
    rec.thread < Pow256(width) && FieldsOk(rec.fields, width)
  }

  predicate RecsOk(recs: seq<Rec>, width: nat) {
    forall i :: 0 <= i < |recs| ==> RecOk(recs[i], width)
  }

  function Times(bgn: Long, end: Long): seq<Field> {
    [LongF(bgn), LongF(end)]
  }

  /** All the puts of a record that follows a record of thread `last`. */
  function RecFields(last: Long, rec: Rec): seq<Field> {
    Prefix(last, rec.thread, rec.op) + (rec.fields + Times(rec.bgn, rec.end))
  }

  lemma RecFieldsOk(last: Long, rec: Rec, width: nat)
    requires RecOk(rec, width)
    ensures FieldsOk(RecFields(last, rec), width)
  {
  }

  /** The bytes of a run of records, thread prefixes only where the thread changes. */
  function LogBytes(last: Long, recs: seq<Rec>, width: nat): seq<Byte>
    requires RecsOk(recs, width)
    decreases |recs|
  {
    if recs == [] then []
    else
      RecFieldsOk(last, recs[0], width);
      EncAll(RecFields(last, recs[0]), width) + LogBytes(recs[0].thread, recs[1..], width)
  }

  class Writer {
    const chunkSize: nat
    const width: nat
    var flushed: seq<Byte>   // the file below the mapped window
    var chunk: array<Byte>   // the mapped window, at the end of the file
    var cur: nat             // curPtr - filePtr
    var end: nat             // endPtr - filePtr
    var fileOffset: nat
    var reentrance: int
    var curThread: Long

    ghost predicate Window()
      reads this, chunk
    {
      && chunkSize > 0 && chunkSize % 4 == 0 && IsWidth(width)
      && end == chunk.Length && cur <= end && (end == 0 || end == chunkSize)
      && fileOffset == |flushed| + end && |flushed| % 4 == 0
      && forall i :: cur <= i < end ==> chunk[i] == 0
    }

    /** Between fields the cursor is also word-aligned; the unchecked word stores rely on it. */
    ghost predicate Valid()
      reads this, chunk
    {
      Window() && cur % 4 == 0
    }

    /** The bytes recorded so far. */
    ghost function Log(): seq<Byte>
      requires Window()
      reads this, chunk
    {
      flushed + chunk[..cur]
    }

    /** The file as it is on disk, unused tail of the window included. */
    ghost function Disk(): seq<Byte>
      requires Window()
      reads this, chunk
    {
      flushed + chunk[..]
    }

    /** iolib_init(IO_WRITE): nothing mapped yet, then the header. */
    constructor (chunkSize: nat, width: nat)
      requires chunkSize > 0 && chunkSize % 4 == 0 && IsWidth(width)
      ensures Valid() && fresh(chunk) && this.chunkSize == chunkSize && this.width == width
      ensures reentrance == 0 && curThread == 0
      ensures Log() == EncAll(Header(width), width)
    {
      this.chunkSize, this.width := chunkSize, width;
      flushed, chunk, cur, end, fileOffset := [], new Byte[0], 0, 0, 0;
      reentrance, curThread := 0, 0;
      new;
      PutAll(Header(width));
    }

    /** Map the next chunk; the old one stays in the file. */
    method Enlarge()
      requires Window() && cur == end
      modifies this`flushed, this`chunk, this`cur, this`end, this`fileOffset
      ensures Valid() && fresh(chunk) && cur == 0 && end == chunkSize
      ensures Log() == old(Log()) && fileOffset == old(fileOffset) + chunkSize
    {
      flushed := flushed + chunk[..];
      chunk := new Byte[chunkSize](_ => 0);
      fileOffset := fileOffset + chunkSize;
      cur, end := 0, chunkSize;
    }

    /** The copy loops `while (n--) *curPtr++ = *s++`; the caller has checked the room. */
    method Store(s: seq<Byte>)
      requires Window() && cur + |s| <= end
      modifies this`cur, chunk
      ensures Window() && cur == old(cur) + |s|
      ensures Log() == old(Log()) + s
    {
      var i := 0;
      while i < |s|
        invariant 0 <= i <= |s| && cur == old(cur) + i
        invariant Window()
        invariant chunk[..old(cur)] == old(chunk[..cur])
        invariant chunk[old(cur)..cur] == s[..i]
      {
        chunk[cur] := s[i];
        cur := cur + 1;
        assert s[..i + 1] == s[..i] + [s[i]];
        i := i + 1;
      }
      assert chunk[..cur] == chunk[..old(cur)] + chunk[old(cur)..cur];
      assert s[..i] == s;
    }

    /** The loop shared by putLongLong, putPtr, putString and putBytes: fill what is left of the
        chunk, map the next one, go on. */
    method PutRaw(s: seq<Byte>)
      requires Window()
      modifies this`flushed, this`chunk, this`cur, this`end, this`fileOffset, chunk
      ensures Window() && (chunk == old(chunk) || fresh(chunk))
      ensures Log() == old(Log()) + s
    {
      var left, done := |s|, 0;
      while left > 0
        invariant 0 <= left && done + left == |s|
        invariant Window() && (chunk == old(chunk) || fresh(chunk))
        invariant Log() == old(Log()) + s[..done]
        decreases left, chunkSize - (end - cur)
      {
        var avail := end - cur;
        if left <= avail {
          Store(s[done..]);
          assert s[..done] + s[done..] == s;
          done, left := |s|, 0;
        } else {
          Store(s[done..done + avail]);
          assert s[..done] + s[done..done + avail] == s[..done + avail];
          left, done := left - avail, done + avail;
          Enlarge();
        }
      }
      assert s[..done] == s;
    }

    /** `while ((long)curPtr & 3) *curPtr++ = 0`: never leaves the chunk, whose size is a
        multiple of four. */
    method PadToWord()
      requires Window()
      modifies this`cur, chunk
      ensures Valid()
      ensures Log() == old(Log()) + Zeros(PadLen(old(|Log()|)))
    {
      LogAligned();
      while cur % 4 != 0
        invariant Window() && old(cur) <= cur <= old(cur) + PadLen(old(cur))
        invariant Log() == old(Log()) + Zeros(cur - old(cur))
        decreases end - cur
      {
        RoomToPad();
        ghost var padded := Zeros(cur - old(cur));
        Store([0]);
        assert Zeros(cur - old(cur)) == padded + [0];
        Associative(old(Log()), padded, [0]);
      }
    }

    /** Position in the window and position in the file agree modulo the word size. */
    lemma LogAligned()
      requires Window()
      ensures |Log()| % 4 == cur % 4
    {
    }

    lemma RoomToPad()
      requires Window() && cur % 4 != 0
      ensures cur < end
    {
    }

    /** The padding computed from the cursor is the padding the reader computes from the length. */
    method PutPadded(s: seq<Byte>)
      requires Valid()
      modifies this`flushed, this`chunk, this`cur, this`end, this`fileOffset, chunk
      ensures Valid() && (chunk == old(chunk) || fresh(chunk))
      ensures Log() == old(Log()) + Pad(s)
    {
      LogAligned();
      ghost var n := |Log()|;
      PutRaw(s);
      PadLenShift(n, |s|);
      PadToWord();
    }

    method StoreWord(w: Word)
      requires Valid()
      modifies this`flushed, this`chunk, this`cur, this`end, this`fileOffset, chunk
      ensures Valid() && (chunk == old(chunk) || fresh(chunk))
      ensures Log() == old(Log()) + ToLE(w, 4)
    {
      if cur >= end { Enlarge(); }
      Store(ToLE(w, 4));
    }

    method PutInt(w: Word)
      requires Valid()
      modifies this`flushed, this`chunk, this`cur, this`end, this`fileOffset, chunk
      ensures Valid() && (chunk == old(chunk) || fresh(chunk))
      ensures Log() == old(Log()) + if reentrance > 1 then [] else ToLE(w, 4)
    {
      if reentrance > 1 { return; }
      StoreWord(w);
    }

    method PutNullable(arg: Option<Word>, marker: Word)
      requires Valid()
      modifies this`flushed, this`chunk, this`cur, this`end, this`fileOffset, chunk
      ensures Valid() && (chunk == old(chunk) || fresh(chunk))
      ensures Log() == old(Log()) + if reentrance > 1 then [] else EncNullable(arg, marker)
    {
      if reentrance > 1 { return; }
      if arg.None? || arg.value == marker {
        StoreWord(marker);
        var second := if arg.Some? then marker else 0;
        StoreWord(second);
        Associative(old(Log()), ToLE(marker, 4), ToLE(second, 4));
      } else {
        StoreWord(arg.value);
      }
    }

    method PutWide(v: nat, bytes: nat)
      requires Valid() && bytes % 4 == 0
      modifies this`flushed, this`chunk, this`cur, this`end, this`fileOffset, chunk
      ensures Valid() && (chunk == old(chunk) || fresh(chunk))
      ensures Log() == old(Log()) + if reentrance > 1 then [] else ToLE(v, bytes)
    {
      if reentrance > 1 { return; }
      LogAligned();
      PutRaw(ToLE(v, bytes));
      LogAligned();
    }

    method PutString(str: Option<seq<Byte>>)
      requires Valid()
      modifies this`flushed, this`chunk, this`cur, this`end, this`fileOffset, chunk
      ensures Valid() && (chunk == old(chunk) || fresh(chunk))
      ensures Log() == old(Log()) + if reentrance > 1 then [] else EncString(str)
    {
      if reentrance > 1 { return; }
      if str.None? {
        PutInt(0);
        return;
      }
      PutPadded(str.value + [0]);
    }

    method PutBytes(data: Option<seq<Byte>>, size: int)
      requires Valid() && (data.Some? ==> size <= |data.value|)
      modifies this`flushed, this`chunk, this`cur, this`end, this`fileOffset, chunk
      ensures Valid() && (chunk == old(chunk) || fresh(chunk))
      ensures Log() == old(Log()) + if reentrance > 1 then [] else EncBytes(data, size)
    {
      if reentrance > 1 { return; }
      var left := BlockLength(data, size);
      PutInt(Unsigned(left));
      PutPadded(BlockPayload(data, size));
    }

    method Put(f: Field)
      requires Valid() && FieldOk(f, width)
      modifies this`flushed, this`chunk, this`cur, this`end, this`fileOffset, chunk
      ensures Valid() && (chunk == old(chunk) || fresh(chunk))
      ensures Log() == old(Log()) + if reentrance > 1 then [] else Enc(f, width)
    {
      match f
      case IntF(w) => PutInt(w);
      case FloatF(w) => PutInt(w);
      case IntPtrF(arg) => PutNullable(arg, MARKER);
      case FloatPtrF(arg) => PutNullable(arg, FLOAT_MARKER);
      case LongF(v) => PutWide(v, 8);
      case PtrF(p) => PutWide(p, width);
      case StrF(str) => PutString(str);
      case BytesF(d, size) => PutBytes(d, size);
    }

    /** Any sequence of puts is a flat append of the concatenated codes. */
    method PutAll(fs: seq<Field>)
      requires Valid() && FieldsOk(fs, width)
      modifies this`flushed, this`chunk, this`cur, this`end, this`fileOffset, chunk
      ensures Valid() && (chunk == old(chunk) || fresh(chunk))
      ensures Log() == old(Log()) + if reentrance > 1 then [] else EncAll(fs, width)
      decreases |fs|
    {
      if fs != [] {
        ghost var before := Log();
        Put(fs[0]);
        ghost var between := Log();
        PutAll(fs[1..]);
        if reentrance <= 1 {
          Associative(before, Enc(fs[0], width), EncAll(fs[1..], width));
          assert between == before + Enc(fs[0], width);
        } else {
          assert between == before;
        }
      }
    }

    /** Runs with the lock just taken by thread `self`. */
    method PutCmd(self: Long, cmd: Word)
      requires Valid() && self < Pow256(width) && reentrance >= 0
      modifies this, chunk
      ensures Valid() && (chunk == old(chunk) || fresh(chunk))
      ensures reentrance == old(reentrance) + 1
      ensures curThread == if old(reentrance) > 0 then old(curThread) else self
      ensures FieldsOk(Prefix(old(curThread), self, cmd), width)
      ensures Log() == old(Log())
                     + if old(reentrance) > 0 then [] else EncAll(Prefix(old(curThread), self, cmd), width)
    {
      reentrance := reentrance + 1;
      if reentrance > 1 { return; }
      var fields := Prefix(curThread, self, cmd);
      PutAll(fields);
      curThread := self;
    }

    method EndCmd()
      modifies this`reentrance
      ensures reentrance == old(reentrance) - 1
    {
      reentrance := reentrance - 1;
    }

    method PutTime(bgn: Long, end: Long)
      requires Valid()
      modifies this, chunk
      ensures Valid() && (chunk == old(chunk) || fresh(chunk))
      ensures reentrance == old(reentrance) - 1 && curThread == old(curThread)
      ensures Log() == old(Log())
                     + if old(reentrance) > 1 then [] else EncAll(Times(bgn, end), width)
    {
      PutAll(Times(bgn, end));
      EndCmd();
    }

    /** iolib_fini: cut the unused tail of the window off the file. */
    method Fini() returns (file: seq<Byte>)
      requires Valid()
      ensures file == Log() && |file| == fileOffset - (end - cur)
    {
      file := flushed + chunk[..];
      if cur < end {
        file := file[..fileOffset - (end - cur)];
      }
    }

    /** The process ends without iolib_fini: the mapped window stays in the file as it is. */
    method Abandon() returns (file: seq<Byte>)
      requires Valid()
      ensures file == Disk()
    {
      file := flushed + chunk[..];
    }

    /** A file that was never truncated is the same log followed by zeros. */
    lemma UntruncatedFile()
      requires Valid()
      ensures Disk() == Log() + Zeros(end - cur) && (end - cur) % 4 == 0
    {
      var tail := chunk[cur..];
      assert tail == Zeros(end - cur);
      assert chunk[..] == chunk[..cur] + tail;
      Associative(flushed, chunk[..cur], tail);
    }
  }
}
