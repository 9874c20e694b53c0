/**
 * The fixed-size records of a GOD file and the reads that decode one of them.
 * Each reader is the sequence of loads the importer issues; its contract gives
 * the record's byte layout in closed form.
 */
module Records {
  import opened Wrappers
  import opened ByteStream

  /** Three float words: a vertex, a normal, the bounds offset, a shadow point. */
  datatype Vec3 = Vec3(x: Word, y: Word, z: Word)

  /** A texture coordinate pair (u, v). */
  datatype UV = UV(u: Word, v: Word)

  /** A vertex colour: four 32-bit ints, stored in b, g, r, a order. */
  datatype Color = Color(b: Int32, g: Int32, r: Int32, a: Int32)

  /** Three 16-bit indices of one triangle's corners. */
  datatype Tri = Tri(i0: nat, i1: nat, i2: nat)

  /** One triangle: its bucket (material group) and its vertex, normal and uv indices. */
  datatype Face = Face(bucket: nat, verts: Tri, norms: Tri, uvs: Tri)

  /** Four float words of a material colour, in file order. */
  datatype Rgba = Rgba(r: Word, g: Word, b: Word, a: Word)

  const VEC3_SIZE: nat := 12
  const UV_SIZE: nat := 8
  const COLOR_SIZE: nat := 16
  const FACE_SIZE: nat := 20
  const RGBA_SIZE: nat := 16

  function ReadVec3(data: seq<byte>, p: nat): (r: Option<Parsed<Vec3>>)
    requires p <= |data|
    ensures r.Some? <==> p + VEC3_SIZE <= |data|
    ensures r.Some? ==>
      r.value == Parsed(Vec3(WordAt(data, p), WordAt(data, p + 4), WordAt(data, p + 8)), p + VEC3_SIZE)
  {
    var x :- ReadWord(data, p);
    var y :- ReadWord(data, x.next);
    var z :- ReadWord(data, y.next);
    Some(Parsed(Vec3(x.value, y.value, z.value), z.next))
  }

  function ReadUV(data: seq<byte>, p: nat): (r: Option<Parsed<UV>>)
    requires p <= |data|
    ensures r.Some? <==> p + UV_SIZE <= |data|
    ensures r.Some? ==> r.value == Parsed(UV(WordAt(data, p), WordAt(data, p + 4)), p + UV_SIZE)
  {
    var u :- ReadWord(data, p);
    var v :- ReadWord(data, u.next);
    Some(Parsed(UV(u.value, v.value), v.next))
  }

  function ReadColor(data: seq<byte>, p: nat): (r: Option<Parsed<Color>>)
    requires p <= |data|
    ensures r.Some? <==> p + COLOR_SIZE <= |data|
    ensures r.Some? ==>
      r.value == Parsed(Color(IntAt(data, p), IntAt(data, p + 4), IntAt(data, p + 8), IntAt(data, p + 12)),
                        p + COLOR_SIZE)
  {
    var b :- ReadInt(data, p);
    var g :- ReadInt(data, b.next);
    var r :- ReadInt(data, g.next);
    var a :- ReadInt(data, r.next);
    Some(Parsed(Color(b.value, g.value, r.value, a.value), a.next))
  }

  /** A material colour: four float words, failing when fewer than 16 bytes remain. */
  function ReadRgba(data: seq<byte>, p: nat): (r: Option<Parsed<Rgba>>)
    requires p <= |data|
    ensures r.Some? <==> p + RGBA_SIZE <= |data|
    ensures r.Some? ==> r.value.next == p + RGBA_SIZE
  {
    if |data| < p + RGBA_SIZE then None
    else Some(Parsed(Rgba(WordAt(data, p), WordAt(data, p + 4), WordAt(data, p + 8), WordAt(data, p + 12)),
                     p + RGBA_SIZE))
  }

  /** ReadRgba is four 4-byte loads in a row, the first failing one failing it. */
  lemma RgbaInOrder(data: seq<byte>, p: nat)
    requires p <= |data|
    ensures ReadRgba(data, p) ==
      var c0 :- ReadWord(data, p);
      var c1 :- ReadWord(data, c0.next);
      var c2 :- ReadWord(data, c1.next);
      var c3 :- ReadWord(data, c2.next);
      Some(Parsed(Rgba(c0.value, c1.value, c2.value, c3.value), c3.next))
  {
  }

  function ReadTri(data: seq<byte>, p: nat): (r: Parsed<Tri>)
    requires p <= |data|
    ensures r == Parsed(Tri(U16At(data, p), U16At(data, p + 2), U16At(data, p + 4)), Min(p + 6, |data|))
  {
    var a := ReadU16(data, p);
    var b := ReadU16(data, a.next);
    var c := ReadU16(data, b.next);
    Parsed(Tri(a.value, b.value, c.value), c.next)
  }

  /** One face record: ten unsigned 16-bit words.  They never fail: a word
      past the end of the data reads as 0, and the position stops at the end. */
  function ReadFace(data: seq<byte>, p: nat): (r: Parsed<Face>)
    requires p <= |data|
    ensures p <= r.next == Min(p + FACE_SIZE, |data|)
    ensures r.value.bucket < 0x1_0000
    ensures r.value.verts.i0 < 0x1_0000 && r.value.verts.i1 < 0x1_0000 && r.value.verts.i2 < 0x1_0000
    ensures r.value.norms.i0 < 0x1_0000 && r.value.norms.i1 < 0x1_0000 && r.value.norms.i2 < 0x1_0000
    ensures r.value.uvs.i0 < 0x1_0000 && r.value.uvs.i1 < 0x1_0000 && r.value.uvs.i2 < 0x1_0000
  {
    Parsed(Face(U16At(data, p),
                Tri(U16At(data, p + 2), U16At(data, p + 4), U16At(data, p + 6)),
                Tri(U16At(data, p + 8), U16At(data, p + 10), U16At(data, p + 12)),
                Tri(U16At(data, p + 14), U16At(data, p + 16), U16At(data, p + 18))),
           Min(p + FACE_SIZE, |data|))
  }

  /** ReadFace is the importer's order of loads: the bucket index, then the
      vertex, normal and uv corners, each read where the previous one stopped. */
  lemma ReadFaceInOrder(data: seq<byte>, p: nat)
    requires p <= |data|
    ensures var bi := ReadU16(data, p);
      var verts := ReadTri(data, bi.next);
      var norms := ReadTri(data, verts.next);
      var uvs := ReadTri(data, norms.next);
      ReadFace(data, p) == Parsed(Face(bi.value, verts.value, norms.value, uvs.value), uvs.next)
  {
  }
}
