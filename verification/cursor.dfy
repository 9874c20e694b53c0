/**
 * The importer's read position over the mapped file (`Importer.memPtr`): an
 * immutable byte sequence and a mutable position.  Every operation is proved
 * against the pure primitive of the same name in ByteStream.
 */
module MemCursor {
  import opened Wrappers
  import opened ByteStream

  class Cursor {
    const data: seq<byte>
    var pos: nat

    ghost predicate Valid()
      reads this
    {
      pos <= |data|
    }

    /** A fresh mapping, positioned at the start of the file. */
    constructor (contents: seq<byte>)
      ensures Valid() && data == contents && pos == 0
    {
      data := contents;
      pos := 0;
    }

    /** `tell()`. */
    method Tell() returns (p: nat)
      requires Valid()
      ensures p == pos && p <= |data|
    {
      p := pos;
    }

    /** `seek(p)`; the importer only seeks back to a position it has told. */
    method Seek(p: nat)
      requires p <= |data|
      modifies this
      ensures Valid() && pos == p
    {
      pos := p;
    }

    /** `read(n)`: up to `n` bytes; all remaining ones when `n` is negative. */
    method ReadBytes(n: int) returns (bs: seq<byte>)
      requires Valid()
      modifies this
      ensures Valid()
      ensures Read(data, old(pos), n) == Parsed(bs, pos)
    {
      if 0 <= n <= |data| - pos {
        bs := data[pos..pos + n];
        pos := pos + n;
      } else {
        bs := data[pos..];
        pos := |data|;
      }
    }

    /** `read(n)` whose bytes are discarded (the terminator and padding skips). */
    method Skip(n: int)
      requires Valid()
      modifies this
      ensures Valid()
      ensures pos == Read(data, old(pos), n).next
    {
      var _ := ReadBytes(n);
    }

    /** `int.from_bytes(read(2), "little")`: short, and never failing, at the end. */
    method ReadU16LE() returns (v: nat)
      requires Valid()
      modifies this
      ensures Valid()
      ensures ReadU16(data, old(pos)) == Parsed(v, pos)
    {
      var bs := ReadBytes(2);
      v := LittleEndian(bs);
      U16AtLittleEndian(data, old(pos));
    }

    /** `loadFloat`, keeping the raw word; `None` where `struct.unpack` raises. */
    method ReadWord32() returns (r: Option<Word>)
      requires Valid()
      modifies this
      ensures Valid()
      ensures r.Some? <==> ReadWord(data, old(pos)).Some?
      ensures r.Some? ==> ReadWord(data, old(pos)) == Some(Parsed(r.value, pos))
    {
      var bs := ReadBytes(WORD_SIZE);
      if |bs| < WORD_SIZE {
        return None;
      }
      WordAtLittleEndian(data, old(pos));
      var w: Word := LittleEndian(bs);
      return Some(w);
    }

    /** `loadInt`: the two's-complement reading of a 4-byte load. */
    method ReadI32LE() returns (r: Option<Int32>)
      requires Valid()
      modifies this
      ensures Valid()
      ensures r.Some? <==> ReadInt(data, old(pos)).Some?
      ensures r.Some? ==> ReadInt(data, old(pos)) == Some(Parsed(r.value, pos))
    {
      var w := ReadWord32();
      if w.None? {
        return None;
      }
      return Some(Signed(w.value));
    }

    /** `loadStr`: prefix L, then `read(min(64, L - 1))`; the terminator stays unread. */
    method ReadString() returns (s: seq<byte>)
      requires Valid()
      modifies this
      ensures Valid()
      ensures ReadStr(data, old(pos)) == Parsed(s, pos)
    {
      var len := ReadU16LE();
      s := ReadBytes(StrPayload(len));
    }
  }
}
