/**
 * The byte-level reading primitives of the GOD importer, as pure functions of
 * the file contents and a read position.
 *
 * The importer reads through an mmap object: `read(n)` returns up to `n` bytes
 * (fewer at the end of the mapping, all remaining ones when `n` is negative)
 * and advances the position by the number returned; it never fails.  Only
 * `struct.unpack` in `loadInt`/`loadFloat` fails, when it is handed fewer than
 * four bytes.  Floats are kept as their raw 32-bit words.
 */
module ByteStream {
  import opened Wrappers

  newtype byte = b: int | 0 <= b < 0x100

  /** An unsigned 32-bit word: the raw bits of a float field. */
  type Word = w: int | 0 <= w < 0x1_0000_0000

  /** A signed 32-bit integer, as `struct.unpack('i', ...)` yields it. */
  type Int32 = x: int | -0x8000_0000 <= x < 0x8000_0000

  /** FLOAT_SIZE and INT_SIZE. */
  const WORD_SIZE: nat := 4

  /** MAX_GAMEIDENT: the longest string payload loadStr reads. */
  const MAX_GAMEIDENT: nat := 64

  /** A decoded value and the read position just after it. */
  datatype Parsed<+T> = Parsed(value: T, next: nat)

  function Min(a: int, b: int): int {
    if a <= b then a else b
  }

  function Pow256(k: nat): (p: nat)
    ensures p >= 1
  {
    if k == 0 then 1 else 256 * Pow256(k - 1)
  }

  /** mmap `read(n)` at `pos`: the next `n` bytes, or every remaining byte when
      fewer than `n` remain or `n` is negative. */
  function Read(data: seq<byte>, pos: nat, n: int): (r: Parsed<seq<byte>>)
    requires pos <= |data|
    ensures r.next == pos + |r.value| <= |data|
    ensures r.value == data[pos..r.next]
    ensures 0 <= n <= |data| - pos ==> |r.value| == n
    ensures !(0 <= n <= |data| - pos) ==> r.next == |data|
  {
    if 0 <= n <= |data| - pos then Parsed(data[pos..pos + n], pos + n)
    else Parsed(data[pos..], |data|)
  }

  /** `int.from_bytes(bs, "little")`: defined for any length, the empty sequence included. */
  function LittleEndian(bs: seq<byte>): (v: nat)
    ensures v < Pow256(|bs|)
  {
    if bs == [] then 0 else bs[0] as nat + 256 * LittleEndian(bs[1..])
  }

  /** The `k`-byte little-endian encoding of `v`. */
  function EncodeLE(v: nat, k: nat): (bs: seq<byte>)
    requires v < Pow256(k)
    ensures |bs| == k
  {
    if k == 0 then [] else [(v % 256) as byte] + EncodeLE(v / 256, k - 1)
  }

  /** Two's-complement reading of a 32-bit word. */
  function Signed(w: Word): Int32 {
    if w < 0x8000_0000 then w else w - 0x1_0000_0000
  }

  /** The word whose two's-complement reading is `x`. */
  function Unsigned(x: Int32): Word {
    if x >= 0 then x else x + 0x1_0000_0000
  }

  /** The little-endian word stored at `q`; only meaningful when four bytes are there. */
  function WordAt(data: seq<byte>, q: nat): Word
    requires q + WORD_SIZE <= |data|
  {
    data[q] as nat + 0x100 * data[q + 1] as nat + 0x1_0000 * data[q + 2] as nat + 0x100_0000 * data[q + 3] as nat
  }

  /** The signed integer stored at `q`. */
  function IntAt(data: seq<byte>, q: nat): Int32
    requires q + WORD_SIZE <= |data|
  {
    Signed(WordAt(data, q))
  }

  /** The value a 2-byte read at `q` yields: the bytes there, however few remain. */
  function U16At(data: seq<byte>, q: nat): nat {
    if q + 2 <= |data| then data[q] as nat + 256 * data[q + 1] as nat
    else if q < |data| then data[q] as nat
    else 0
  }

  /** A 4-byte load (`loadFloat`): fails exactly when fewer than four bytes remain. */
  function ReadWord(data: seq<byte>, pos: nat): (r: Option<Parsed<Word>>)
    requires pos <= |data|
    ensures r.Some? <==> pos + WORD_SIZE <= |data|
    ensures r.Some? ==> r.value == Parsed(WordAt(data, pos), pos + WORD_SIZE)
  {
    if pos + WORD_SIZE <= |data| then Some(Parsed(WordAt(data, pos), pos + WORD_SIZE))
    else None
  }

  /** WordAt is `int.from_bytes` of the four bytes at `q`, little end first. */
  lemma WordAtLittleEndian(data: seq<byte>, q: nat)
    requires q + WORD_SIZE <= |data|
    ensures WordAt(data, q) == LittleEndian(data[q..q + WORD_SIZE])
  {
    WordLittleEndian(data[q..q + WORD_SIZE]);
  }

  /** `int.from_bytes` of four bytes, written out. */
  lemma WordLittleEndian(bs: seq<byte>)
    requires |bs| == WORD_SIZE
    ensures LittleEndian(bs) ==
      bs[0] as nat + 0x100 * bs[1] as nat + 0x1_0000 * bs[2] as nat + 0x100_0000 * bs[3] as nat
  {
    assert bs[3..][1..] == [];
    assert bs[2..][1..] == bs[3..];
    assert bs[1..][1..] == bs[2..];
    assert LittleEndian(bs[3..]) == bs[3] as nat;
    assert LittleEndian(bs[2..]) == bs[2] as nat + 0x100 * bs[3] as nat;
    assert LittleEndian(bs[1..]) == bs[1] as nat + 0x100 * bs[2] as nat + 0x1_0000 * bs[3] as nat;
  }

  /** `loadInt`: the signed reading of a 4-byte load. */
  function ReadInt(data: seq<byte>, pos: nat): (r: Option<Parsed<Int32>>)
    requires pos <= |data|
    ensures r.Some? <==> pos + WORD_SIZE <= |data|
    ensures r.Some? ==> r.value == Parsed(IntAt(data, pos), pos + WORD_SIZE)
  {
    var w :- ReadWord(data, pos);
    Some(Parsed(Signed(w.value), w.next))
  }

  /** A 2-byte little-endian read: never fails; short at the end of the data. */
  function ReadU16(data: seq<byte>, pos: nat): (r: Parsed<nat>)
    requires pos <= |data|
    ensures r.value == U16At(data, pos) && r.value < 0x1_0000
    ensures r.next == Min(pos + 2, |data|)
  {
    Parsed(U16At(data, pos), Min(pos + 2, |data|))
  }

  /** U16At is `int.from_bytes` of the (possibly short) 2-byte read at `q`. */
  lemma U16AtLittleEndian(data: seq<byte>, q: nat)
    requires q <= |data|
    ensures U16At(data, q) == LittleEndian(Read(data, q, 2).value)
  {
    ShortLittleEndian(Read(data, q, 2).value);
  }

  /** `int.from_bytes` of at most two bytes. */
  lemma ShortLittleEndian(bs: seq<byte>)
    requires |bs| <= 2
    ensures LittleEndian(bs) ==
      if |bs| == 2 then bs[0] as nat + 256 * bs[1] as nat
      else if |bs| == 1 then bs[0] as nat
      else 0
  {
    if |bs| == 2 {
      assert bs[1..][1..] == [];
    } else if |bs| == 1 {
      assert bs[1..] == [];
    }
  }

  /** The number of payload bytes `loadStr` asks for after a prefix `len`. */
  function StrPayload(len: nat): int {
    Min(MAX_GAMEIDENT, len as int - 1)
  }

  /** `loadStr`: a 2-byte length prefix L, then a read of min(64, L - 1) bytes.
      The terminator byte is left for the caller. */
  function ReadStr(data: seq<byte>, pos: nat): (r: Parsed<seq<byte>>)
    requires pos <= |data|
    ensures pos <= Min(pos + 2, |data|) <= r.next <= |data|
    ensures r.value == data[Min(pos + 2, |data|)..r.next]
    ensures |r.value| <= MAX_GAMEIDENT || r.next == |data|
  {
    var len := ReadU16(data, pos);
    Read(data, len.next, StrPayload(len.value))
  }

  /** The `loop` count of `for _ in range(0, count)`: negative counts run no iterations. */
  function Count(c: int): nat {
    if c < 0 then 0 else c
  }

  // ---------------------------------------------------------------------------
  // Properties of the primitives

  lemma {:induction false} EncodeDecodeLE(v: nat, k: nat)
    requires v < Pow256(k)
    ensures LittleEndian(EncodeLE(v, k)) == v
  {
    if k > 0 {
      var bs := EncodeLE(v, k);
      assert bs[1..] == EncodeLE(v / 256, k - 1);
      EncodeDecodeLE(v / 256, k - 1);
      ByteRoundTrip(v % 256);
      assert bs[0] as nat == v % 256;
      DivMod256(v);
    }
  }

  lemma {:induction false} DecodeEncodeLE(bs: seq<byte>)
    ensures EncodeLE(LittleEndian(bs), |bs|) == bs
  {
    if bs != [] {
      DecodeEncodeLE(bs[1..]);
      var v := LittleEndian(bs);
      var t := LittleEndian(bs[1..]);
      var b := bs[0] as nat;
      assert v == b + 256 * t;
      SplitDivMod256(b, t);
      assert (b as byte) == bs[0];
    }
  }

  lemma ByteRoundTrip(x: nat)
    requires x < 256
    ensures (x as byte) as nat == x
  {
  }

  lemma DivMod256(v: nat)
    ensures v % 256 + 256 * (v / 256) == v
  {
  }

  lemma SplitDivMod256(b: nat, t: nat)
    requires b < 256
    ensures (b + 256 * t) % 256 == b && (b + 256 * t) / 256 == t
  {
  }

  lemma SignedUnsigned(x: Int32)
    ensures Signed(Unsigned(x)) == x
  {
  }

  lemma UnsignedSigned(w: Word)
    ensures Unsigned(Signed(w)) == w
  {
  }

  /** What `loadStr` consumes and returns when its prefix L is at least 1 and
      the payload is all there: exactly 2 + min(64, L - 1) bytes, the payload
      being the bytes after the prefix; the terminator is not consumed. */
  lemma ReadStrConsumes(data: seq<byte>, pos: nat)
    requires pos + 2 <= |data|
    requires U16At(data, pos) >= 1
    requires pos + 2 + StrPayload(U16At(data, pos)) <= |data|
    ensures var n := StrPayload(U16At(data, pos));
      0 <= n <= MAX_GAMEIDENT &&
      ReadStr(data, pos) == Parsed(data[pos + 2..pos + 2 + n], pos + 2 + n)
  {
  }

  /** A zero prefix makes `min(64, -1)` negative, and the read takes the whole rest. */
  lemma ReadStrZeroPrefix(data: seq<byte>, pos: nat)
    requires pos + 2 <= |data| && U16At(data, pos) == 0
    ensures ReadStr(data, pos) == Parsed(data[pos + 2..], |data|)
  {
  }

  /** Round trip: a name of at most 64 bytes written with prefix |name| + 1
      (its length counting the terminator) reads back as exactly that name, and
      the terminator is the next byte. */
  lemma {:induction false} ReadStrRoundTrip(name: seq<byte>, rest: seq<byte>)
    requires |name| <= MAX_GAMEIDENT
    ensures var data := EncodeLE(|name| + 1, 2) + name + [0] + rest;
      ReadStr(data, 0) == Parsed(name, 2 + |name|) && data[2 + |name|] == 0
  {
    var prefix := EncodeLE(|name| + 1, 2);
    var data := prefix + name + [0] + rest;
    EncodeDecodeLE(|name| + 1, 2);
    assert data[0..2] == prefix;
    U16AtLittleEndian(data, 0);
    assert U16At(data, 0) == |name| + 1;
    assert data[2..2 + |name|] == name;
  }
}
