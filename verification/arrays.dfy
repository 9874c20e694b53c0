/**
 * The counted array sections of a GOD file (`loadArray4_*`): a 4-byte count,
 * then that many fixed-size records.  A negative count reads no record, as
 * `range(0, count)` does.  The vertex, normal, uv and colour records are read
 * with `loadFloat`/`loadInt` and fail at the end of the data; the face records
 * are ten `int.from_bytes(read(2))` each and never fail.
 */
module ArraySections {
  import opened Wrappers
  import opened ByteStream
  import opened Records

  /** `read` is a fixed-size record reader over `data`: it succeeds exactly when
      `size` bytes remain and then consumes exactly `size` bytes. */
  ghost predicate FixedReader<T>(data: seq<byte>, size: nat, read: (seq<byte>, nat) --> Option<Parsed<T>>) {
    forall q: nat :: q <= |data| ==>
      read.requires(data, q) &&
      (read(data, q).Some? <==> q + size <= |data|) &&
      (read(data, q).Some? ==> read(data, q).value.next == q + size)
  }

  lemma Vec3Reader(data: seq<byte>)
    ensures FixedReader(data, VEC3_SIZE, ReadVec3)
  {
  }

  lemma UVReader(data: seq<byte>)
    ensures FixedReader(data, UV_SIZE, ReadUV)
  {
  }

  lemma ColorReader(data: seq<byte>)
    ensures FixedReader(data, COLOR_SIZE, ReadColor)
  {
  }

  lemma Vec3Read(data: seq<byte>, q: nat, x: Vec3)
    requires q <= |data| && ReadVec3(data, q) == Some(Parsed(x, q + VEC3_SIZE))
    ensures x == Vec3(WordAt(data, q), WordAt(data, q + 4), WordAt(data, q + 8))
  {
  }

  lemma UVRead(data: seq<byte>, q: nat, x: UV)
    requires q <= |data| && ReadUV(data, q) == Some(Parsed(x, q + UV_SIZE))
    ensures x == UV(WordAt(data, q), WordAt(data, q + 4))
  {
  }

  lemma ColorRead(data: seq<byte>, q: nat, x: Color)
    requires q <= |data| && ReadColor(data, q) == Some(Parsed(x, q + COLOR_SIZE))
    ensures x == Color(IntAt(data, q), IntAt(data, q + 4), IntAt(data, q + 8), IntAt(data, q + 12))
  {
  }

  /** `n` records read one after the other from `p`. */
  function RecordList<T>(data: seq<byte>, p: nat, n: nat, size: nat, read: (seq<byte>, nat) --> Option<Parsed<T>>)
    : (r: Option<Parsed<seq<T>>>)
    requires p <= |data|
    requires FixedReader(data, size, read)
    ensures r.Some? ==> |r.value.value| == n && r.value.next <= |data|
    decreases n
  {
    if n == 0 then Some(Parsed([], p))
    else
      var prev :- RecordList(data, p, n - 1, size, read);
      var x :- read(data, prev.next);
      Some(Parsed(prev.value + [x.value], x.next))
  }

  /** A count, then that many records. */
  function Section<T>(data: seq<byte>, p: nat, size: nat, read: (seq<byte>, nat) --> Option<Parsed<T>>)
    : (r: Option<Parsed<seq<T>>>)
    requires p <= |data|
    requires FixedReader(data, size, read)
    ensures r.Some? ==> r.value.next <= |data| && |r.value.value| == CountAt(data, p)
  {
    var count :- ReadInt(data, p);
    RecordList(data, count.next, Count(count.value), size, read)
  }

  /** The records fit exactly when `n` of them fit; then they take `size * n` bytes. */
  lemma {:induction false} RecordListSize<T>(data: seq<byte>, p: nat, n: nat, size: nat,
                                            read: (seq<byte>, nat) --> Option<Parsed<T>>)
    requires p <= |data|
    requires FixedReader(data, size, read)
    ensures var r := RecordList(data, p, n, size, read);
      (r.Some? <==> p + size * n <= |data|) &&
      (r.Some? ==> r.value.next == p + size * n && |r.value.value| == n)
  {
    if n > 0 {
      RecordListSize(data, p, n - 1, size, read);
      var prev := RecordList(data, p, n - 1, size, read);
      if prev.Some? {
        assert size * n == size * (n - 1) + size;
      } else {
        assert p + size * n > |data| by {
          assert size * n >= size * (n - 1);
        }
      }
    }
  }

  /** Record `i` is what `read` decodes at `p + size * i`. */
  lemma {:induction false} RecordListAt<T>(data: seq<byte>, p: nat, n: nat, size: nat,
                                          read: (seq<byte>, nat) --> Option<Parsed<T>>, i: nat)
    requires p <= |data|
    requires FixedReader(data, size, read)
    requires RecordList(data, p, n, size, read).Some?
    requires i < n
    ensures p + size * i <= |data|
    ensures read(data, p + size * i) == Some(Parsed(RecordList(data, p, n, size, read).value.value[i], p + size * (i + 1)))
  {
    var prev := RecordList(data, p, n - 1, size, read);
    RecordListSize(data, p, n - 1, size, read);
    assert size * (i + 1) == size * i + size;
    if i < n - 1 {
      RecordListAt(data, p, n - 1, size, read, i);
    } else {
      assert size * i == size * (n - 1);
    }
  }

  /** A count section fits exactly when its count word and `Count(count)`
      records fit; it then takes `4 + size * Count(count)` bytes. */
  lemma SectionSize<T>(data: seq<byte>, p: nat, size: nat, read: (seq<byte>, nat) --> Option<Parsed<T>>)
    requires p <= |data|
    requires FixedReader(data, size, read)
    ensures var r := Section(data, p, size, read);
      (r.Some? <==> p + WORD_SIZE + size * CountAt(data, p) <= |data|) &&
      (r.Some? ==> r.value.next == p + WORD_SIZE + size * CountAt(data, p) &&
                   |r.value.value| == CountAt(data, p))
  {
    if p + WORD_SIZE <= |data| {
      RecordListSize(data, p + WORD_SIZE, Count(IntAt(data, p)), size, read);
    }
  }

  /** Record `i` of a count section is what `read` decodes at `p + 4 + size * i`. */
  lemma SectionAt<T>(data: seq<byte>, p: nat, size: nat, read: (seq<byte>, nat) --> Option<Parsed<T>>, i: nat)
    requires p <= |data|
    requires FixedReader(data, size, read)
    requires Section(data, p, size, read).Some? && i < |Section(data, p, size, read).value.value|
    ensures var q := p + WORD_SIZE + size * i;
      q + size <= |data| && read(data, q) == Some(Parsed(Section(data, p, size, read).value.value[i], q + size))
  {
    RecordListAt(data, p + WORD_SIZE, CountAt(data, p), size, read, i);
  }

  /** After a failing read, every longer record list fails too. */
  lemma {:induction false} RecordListStops<T>(data: seq<byte>, p: nat, k: nat, n: nat, size: nat,
                                             read: (seq<byte>, nat) --> Option<Parsed<T>>)
    requires p <= |data|
    requires FixedReader(data, size, read)
    requires k < n
    requires RecordList(data, p, k, size, read).Some?
    requires read(data, RecordList(data, p, k, size, read).value.next).None?
    ensures RecordList(data, p, n, size, read).None?
  {
    if n - 1 > k {
      RecordListStops(data, p, k, n - 1, size, read);
    }
  }

  // ---------------------------------------------------------------------------
  // The float and int sections

  /** `loadArray4_Vertices` and `loadArray4_Normals`: a count, then (x, y, z) float triples. */
  function Vec3Section(data: seq<byte>, p: nat): (r: Option<Parsed<seq<Vec3>>>)
    requires p <= |data|
    ensures r.Some? ==> r.value.next <= |data| && |r.value.value| == CountAt(data, p)
  {
    Vec3Reader(data);
    Section(data, p, VEC3_SIZE, ReadVec3)
  }

  /** `loadArray4_UVs`: a count, then (u, v) float pairs. */
  function UVSection(data: seq<byte>, p: nat): (r: Option<Parsed<seq<UV>>>)
    requires p <= |data|
    ensures r.Some? ==> r.value.next <= |data| && |r.value.value| == CountAt(data, p)
  {
    UVReader(data);
    Section(data, p, UV_SIZE, ReadUV)
  }

  /** `loadArray4_Colors`: a count, then (b, g, r, a) int quadruples. */
  function ColorSection(data: seq<byte>, p: nat): (r: Option<Parsed<seq<Color>>>)
    requires p <= |data|
    ensures r.Some? ==> r.value.next <= |data| && |r.value.value| == CountAt(data, p)
  {
    ColorReader(data);
    Section(data, p, COLOR_SIZE, ReadColor)
  }

  /** The count word at `p` as a loop bound; 0 where the word is missing. */
  function CountAt(data: seq<byte>, p: nat): nat {
    if p + WORD_SIZE <= |data| then Count(IntAt(data, p)) else 0
  }

  /** The vertex and normal sections take 4 + 12 N bytes. */
  lemma Vec3SectionSize(data: seq<byte>, p: nat)
    requires p <= |data|
    ensures var r := Vec3Section(data, p);
      (r.Some? <==> p + WORD_SIZE + VEC3_SIZE * CountAt(data, p) <= |data|) &&
      (r.Some? ==> r.value.next == p + WORD_SIZE + VEC3_SIZE * CountAt(data, p) &&
                   |r.value.value| == CountAt(data, p))
  {
    Vec3Reader(data);
    SectionSize(data, p, VEC3_SIZE, ReadVec3);
  }

  /** Vertex or normal `i` is the three words at `p + 4 + 12 i`. */
  lemma Vec3SectionAt(data: seq<byte>, p: nat, i: nat)
    requires p <= |data|
    requires Vec3Section(data, p).Some? && i < |Vec3Section(data, p).value.value|
    ensures var q := p + WORD_SIZE + VEC3_SIZE * i;
      q + VEC3_SIZE <= |data| &&
      Vec3Section(data, p).value.value[i] == Vec3(WordAt(data, q), WordAt(data, q + 4), WordAt(data, q + 8))
  {
    Vec3Reader(data);
    SectionAt(data, p, VEC3_SIZE, ReadVec3, i);
    var q := p + WORD_SIZE + VEC3_SIZE * i;
    var x := Section(data, p, VEC3_SIZE, ReadVec3).value.value[i];
    assert Vec3Section(data, p).value.value[i] == x;
    Vec3Read(data, q, x);
  }

  /** The uv section takes 4 + 8 N bytes. */
  lemma UVSectionSize(data: seq<byte>, p: nat)
    requires p <= |data|
    ensures var r := UVSection(data, p);
      (r.Some? <==> p + WORD_SIZE + UV_SIZE * CountAt(data, p) <= |data|) &&
      (r.Some? ==> r.value.next == p + WORD_SIZE + UV_SIZE * CountAt(data, p) &&
                   |r.value.value| == CountAt(data, p))
  {
    UVReader(data);
    SectionSize(data, p, UV_SIZE, ReadUV);
  }

  /** Texture coordinate `i` is the two words at `p + 4 + 8 i`. */
  lemma UVSectionAt(data: seq<byte>, p: nat, i: nat)
    requires p <= |data|
    requires UVSection(data, p).Some? && i < |UVSection(data, p).value.value|
    ensures var q := p + WORD_SIZE + UV_SIZE * i;
      q + UV_SIZE <= |data| &&
      UVSection(data, p).value.value[i] == UV(WordAt(data, q), WordAt(data, q + 4))
  {
    UVReader(data);
    SectionAt(data, p, UV_SIZE, ReadUV, i);
    var q := p + WORD_SIZE + UV_SIZE * i;
    var x := Section(data, p, UV_SIZE, ReadUV).value.value[i];
    assert UVSection(data, p).value.value[i] == x;
    UVRead(data, q, x);
  }

  /** The colour section takes 4 + 16 N bytes. */
  lemma ColorSectionSize(data: seq<byte>, p: nat)
    requires p <= |data|
    ensures var r := ColorSection(data, p);
      (r.Some? <==> p + WORD_SIZE + COLOR_SIZE * CountAt(data, p) <= |data|) &&
      (r.Some? ==> r.value.next == p + WORD_SIZE + COLOR_SIZE * CountAt(data, p) &&
                   |r.value.value| == CountAt(data, p))
  {
    ColorReader(data);
    SectionSize(data, p, COLOR_SIZE, ReadColor);
  }

  /** Colour `i` is the four ints at `p + 4 + 16 i`, in b, g, r, a order. */
  lemma ColorSectionAt(data: seq<byte>, p: nat, i: nat)
    requires p <= |data|
    requires ColorSection(data, p).Some? && i < |ColorSection(data, p).value.value|
    ensures var q := p + WORD_SIZE + COLOR_SIZE * i;
      q + COLOR_SIZE <= |data| &&
      ColorSection(data, p).value.value[i] == Color(IntAt(data, q), IntAt(data, q + 4), IntAt(data, q + 8), IntAt(data, q + 12))
  {
    ColorReader(data);
    SectionAt(data, p, COLOR_SIZE, ReadColor, i);
    var q := p + WORD_SIZE + COLOR_SIZE * i;
    var x := Section(data, p, COLOR_SIZE, ReadColor).value.value[i];
    assert ColorSection(data, p).value.value[i] == x;
    ColorRead(data, q, x);
  }

  // ---------------------------------------------------------------------------
  // Faces

  /** `read` never fails and consumes `size` bytes, or what is left of them. */
  ghost predicate ClampedReader<T>(data: seq<byte>, size: nat, read: (seq<byte>, nat) --> Parsed<T>) {
    forall q: nat :: q <= |data| ==> read.requires(data, q) && read(data, q).next == Min(q + size, |data|)
  }

  lemma FaceReader(data: seq<byte>)
    ensures ClampedReader(data, FACE_SIZE, ReadFace)
  {
  }

  /** `n` records read one after the other from `p` by a reader that never fails. */
  function TotalList<T>(data: seq<byte>, p: nat, n: nat, size: nat, read: (seq<byte>, nat) --> Parsed<T>)
    : (r: Parsed<seq<T>>)
    requires p <= |data|
    requires ClampedReader(data, size, read)
    ensures |r.value| == n && r.next <= |data|
  {
    if n == 0 then Parsed([], p)
    else
      var prev := TotalList(data, p, n - 1, size, read);
      var x := read(data, prev.next);
      Parsed(prev.value + [x.value], x.next)
  }

  /** The list ends at `p + size * n`, or at the end of the data. */
  lemma {:induction false} TotalListSize<T>(data: seq<byte>, p: nat, n: nat, size: nat,
                                           read: (seq<byte>, nat) --> Parsed<T>)
    requires p <= |data|
    requires ClampedReader(data, size, read)
    ensures TotalList(data, p, n, size, read).next == Min(p + size * n, |data|)
  {
    if n > 0 {
      TotalListSize(data, p, n - 1, size, read);
      assert size * n == size * (n - 1) + size;
    }
  }

  /** Record `i` is the one decoded at `p + size * i`, clamped to the end of the data. */
  lemma {:induction false} TotalListAt<T>(data: seq<byte>, p: nat, n: nat, size: nat,
                                         read: (seq<byte>, nat) --> Parsed<T>, i: nat)
    requires p <= |data| && i < n
    requires ClampedReader(data, size, read)
    ensures TotalList(data, p, n, size, read).value[i] == read(data, Min(p + size * i, |data|)).value
  {
    var prev := TotalList(data, p, n - 1, size, read);
    if i < n - 1 {
      TotalListAt(data, p, n - 1, size, read, i);
    } else {
      TotalListSize(data, p, n - 1, size, read);
    }
  }

  /** `loadArray4_Faces`: a count, then that many 20-byte faces.  Only the count can fail. */
  function FaceSection(data: seq<byte>, p: nat): (r: Option<Parsed<seq<Face>>>)
    requires p <= |data|
    ensures r.Some? <==> p + WORD_SIZE <= |data|
    ensures r.Some? ==> |r.value.value| == CountAt(data, p) && r.value.next <= |data|
  {
    var count :- ReadInt(data, p);
    FaceReader(data);
    Some(TotalList(data, count.next, Count(count.value), FACE_SIZE, ReadFace))
  }

  /** The face section takes 4 + 20 N bytes when they are all there; a short
      file still yields N faces, the indices past the end being zero. */
  lemma FaceSectionSize(data: seq<byte>, p: nat)
    requires p + WORD_SIZE <= |data|
    ensures var r := FaceSection(data, p).value;
      |r.value| == CountAt(data, p) && r.next == Min(p + WORD_SIZE + FACE_SIZE * CountAt(data, p), |data|)
  {
    FaceReader(data);
    TotalListSize(data, p + WORD_SIZE, CountAt(data, p), FACE_SIZE, ReadFace);
  }

  /** Face `i`: its bucket and nine corner indices are the u16 words at
      `p + 4 + 20 i` onwards. */
  lemma FaceSectionAt(data: seq<byte>, p: nat, i: nat)
    requires p + WORD_SIZE <= |data| && i < CountAt(data, p)
    ensures var f := FaceSection(data, p).value.value[i];
      var q := Min(p + WORD_SIZE + FACE_SIZE * i, |data|);
      f.bucket == U16At(data, q) &&
      f.verts == Tri(U16At(data, q + 2), U16At(data, q + 4), U16At(data, q + 6)) &&
      f.norms == Tri(U16At(data, q + 8), U16At(data, q + 10), U16At(data, q + 12)) &&
      f.uvs == Tri(U16At(data, q + 14), U16At(data, q + 16), U16At(data, q + 18))
  {
    FaceReader(data);
    var list := TotalList(data, p + WORD_SIZE, CountAt(data, p), FACE_SIZE, ReadFace);
    assert FaceSection(data, p).value.value == list.value;
    TotalListAt(data, p + WORD_SIZE, CountAt(data, p), FACE_SIZE, ReadFace, i);
    var q := Min(p + WORD_SIZE + FACE_SIZE * i, |data|);
    assert list.value[i] == ReadFace(data, q).value;
  }

  /** Past the end of the data a face reads as all zeros. */
  lemma FaceAtEnd(data: seq<byte>)
    ensures ReadFace(data, |data|) == Parsed(Face(0, Tri(0, 0, 0), Tri(0, 0, 0), Tri(0, 0, 0)), |data|)
  {
    var e := data[|data|..|data|];
    assert e == [];
  }
}
