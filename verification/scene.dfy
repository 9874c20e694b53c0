/**
 * The decode half of `start_import` as one function of the file contents and
 * the revision: skip the 52-byte preamble, read the header, then the vertex,
 * normal, uv, colour, face and bucket sections back to back.
 */
module SceneFormat {
  import opened Wrappers
  import opened ByteStream
  import opened Records
  import opened HeaderFormat
  import opened ArraySections
  import opened Buckets

  /** A decoded file. */
  datatype Scene = Scene(
    header: Header,
    vertices: seq<Vec3>,
    normals: seq<Vec3>,
    uvs: seq<UV>,
    colors: seq<Color>,
    faces: seq<Face>,
    buckets: seq<Bucket>)

  /** What the importer holds: the header fields, the section lists, and the
      bucket lists (one entry per bucket for the counts, one per material for
      the material values). */
  datatype Imported = Imported(
    header: Header,
    vertices: seq<Vec3>,
    normals: seq<Vec3>,
    uvs: seq<UV>,
    colors: seq<Color>,
    faces: seq<Face>,
    flags0: seq<Int32>,
    vertCount: seq<Int32>,
    indexCount: seq<Int32>,
    materials: seq<Material>)

  /** The importer's state after `Cleanup`. */
  const Empty: Imported := Imported(Cleared, [], [], [], [], [], [], [], [], [])

  /** The importer's lists for a decoded file. */
  function Flatten(s: Scene): (r: Imported)
    ensures |r.flags0| == |r.vertCount| == |r.indexCount| == |s.buckets|
    ensures |r.materials| <= |s.buckets|
  {
    Imported(s.header, s.vertices, s.normals, s.uvs, s.colors, s.faces,
             Flags0Of(s.buckets), VertCountOf(s.buckets), IndexCountOf(s.buckets), MaterialsOf(s.buckets))
  }

  /** Everything the importer reads from a file of revision `v`. */
  function DecodeScene(data: seq<byte>, v: int): (r: Option<Scene>)
    ensures r.Some? ==> DATA_POS < |data|
    ensures r.Some? ==> var h := DecodeHeader(data, DATA_POS, v, Cleared);
      h.Some? && r.value.header == h.value.value
  {
    var header :- DecodeHeader(data, Read(data, 0, DATA_POS).next, v, Cleared);
    DecodeSections(data, header.next, v, header.value)
  }

  /** The six count sections, from `p` on, after the header `header`: the
      vertices, then the rest of the sections, each layer reading one. */
  function DecodeSections(data: seq<byte>, p: nat, v: int, header: Header): (r: Option<Scene>)
    requires p <= |data|
    ensures r.Some? ==> r.value.header == header
  {
    var vertices :- Vec3Section(data, p);
    NormalsFrom(data, vertices.next, v, header, vertices.value)
  }

  function NormalsFrom(data: seq<byte>, q: nat, v: int, header: Header, vertices: seq<Vec3>)
    : (r: Option<Scene>)
    requires q <= |data|
    ensures r.Some? ==> r.value.header == header && r.value.vertices == vertices
  {
    var normals :- Vec3Section(data, q);
    UVsFrom(data, normals.next, v, header, vertices, normals.value)
  }

  function UVsFrom(data: seq<byte>, q: nat, v: int, header: Header, vertices: seq<Vec3>, normals: seq<Vec3>)
    : (r: Option<Scene>)
    requires q <= |data|
    ensures r.Some? ==> r.value.header == header && r.value.vertices == vertices && r.value.normals == normals
  {
    var uvs :- UVSection(data, q);
    ColorsFrom(data, uvs.next, v, header, vertices, normals, uvs.value)
  }

  function ColorsFrom(data: seq<byte>, q: nat, v: int, header: Header, vertices: seq<Vec3>, normals: seq<Vec3>,
                      uvs: seq<UV>): (r: Option<Scene>)
    requires q <= |data|
    ensures r.Some? ==> r.value.header == header && r.value.vertices == vertices && r.value.normals == normals &&
                        r.value.uvs == uvs
  {
    var colors :- ColorSection(data, q);
    FacesFrom(data, colors.next, v, header, vertices, normals, uvs, colors.value)
  }

  function FacesFrom(data: seq<byte>, q: nat, v: int, header: Header, vertices: seq<Vec3>, normals: seq<Vec3>,
                     uvs: seq<UV>, colors: seq<Color>): (r: Option<Scene>)
    requires q <= |data|
    ensures r.Some? ==> r.value.header == header && r.value.vertices == vertices && r.value.normals == normals &&
                        r.value.uvs == uvs && r.value.colors == colors
  {
    var faces :- FaceSection(data, q);
    BucketsFrom(data, faces.next, v, Scene(header, vertices, normals, uvs, colors, faces.value, []))
  }

  /** The last section completes `s`. */
  function BucketsFrom(data: seq<byte>, q: nat, v: int, s: Scene): (r: Option<Scene>)
    requires q <= |data|
    ensures r.Some? ==> r.value == s.(buckets := r.value.buckets)
  {
    var buckets :- BucketSection(data, q, v);
    Some(s.(buckets := buckets.value))
  }

  // ---------------------------------------------------------------------------
  // One section per layer

  /** The vertex section comes first: a count word, then 12 bytes per vertex. */
  lemma VerticesFirst(data: seq<byte>, p: nat, v: int, header: Header, s: Scene)
    requires p <= |data| && DecodeSections(data, p, v, header) == Some(s)
    ensures Vec3Section(data, p).Some?
    ensures var x := Vec3Section(data, p).value;
      x.value == s.vertices && |s.vertices| == CountAt(data, p) && x.next == p + 4 + 12 * |s.vertices| &&
      NormalsFrom(data, x.next, v, header, x.value) == Some(s)
  {
    Vec3SectionSize(data, p);
  }

  /** The normal section follows: a count word, then 12 bytes per normal. */
  lemma NormalsNext(data: seq<byte>, q: nat, v: int, header: Header, vertices: seq<Vec3>, s: Scene)
    requires q <= |data| && NormalsFrom(data, q, v, header, vertices) == Some(s)
    ensures Vec3Section(data, q).Some?
    ensures var x := Vec3Section(data, q).value;
      x.value == s.normals && |s.normals| == CountAt(data, q) && x.next == q + 4 + 12 * |s.normals| &&
      UVsFrom(data, x.next, v, header, vertices, x.value) == Some(s)
  {
    Vec3SectionSize(data, q);
  }

  /** The uv section follows: a count word, then 8 bytes per pair. */
  lemma UVsNext(data: seq<byte>, q: nat, v: int, header: Header, vertices: seq<Vec3>, normals: seq<Vec3>, s: Scene)
    requires q <= |data| && UVsFrom(data, q, v, header, vertices, normals) == Some(s)
    ensures UVSection(data, q).Some?
    ensures var x := UVSection(data, q).value;
      x.value == s.uvs && |s.uvs| == CountAt(data, q) && x.next == q + 4 + 8 * |s.uvs| &&
      ColorsFrom(data, x.next, v, header, vertices, normals, x.value) == Some(s)
  {
    UVSectionSize(data, q);
  }

  /** The colour section follows: a count word, then 16 bytes per colour. */
  lemma ColorsNext(data: seq<byte>, q: nat, v: int, header: Header, vertices: seq<Vec3>, normals: seq<Vec3>,
                   uvs: seq<UV>, s: Scene)
    requires q <= |data| && ColorsFrom(data, q, v, header, vertices, normals, uvs) == Some(s)
    ensures ColorSection(data, q).Some?
    ensures var x := ColorSection(data, q).value;
      x.value == s.colors && |s.colors| == CountAt(data, q) && x.next == q + 4 + 16 * |s.colors| &&
      FacesFrom(data, x.next, v, header, vertices, normals, uvs, x.value) == Some(s)
  {
    ColorSectionSize(data, q);
  }

  /** The face section follows: its count word must be there; its 20 bytes
      per face are clamped to the end of the data. */
  lemma FacesNext(data: seq<byte>, q: nat, v: int, header: Header, vertices: seq<Vec3>, normals: seq<Vec3>,
                  uvs: seq<UV>, colors: seq<Color>, s: Scene)
    requires q <= |data| && FacesFrom(data, q, v, header, vertices, normals, uvs, colors) == Some(s)
    ensures q + 4 <= |data| && FaceSection(data, q).Some?
    ensures var x := FaceSection(data, q).value;
      x.value == s.faces && |s.faces| == CountAt(data, q) && x.next == Min(q + 4 + 20 * |s.faces|, |data|) &&
      BucketsFrom(data, x.next, v, Scene(header, vertices, normals, uvs, colors, x.value, [])) == Some(s)
  {
    FaceSectionSize(data, q);
  }

  /** The bucket section comes last: a count word, then that many buckets. */
  lemma BucketsLast(data: seq<byte>, q: nat, v: int, s0: Scene, s: Scene)
    requires q <= |data| && BucketsFrom(data, q, v, s0) == Some(s)
    ensures q + 4 <= |data| && |s.buckets| == CountAt(data, q)
    ensures BucketSection(data, q, v).Some? && BucketSection(data, q, v).value.value == s.buckets
  {
  }

  /** A decodable file is longer than its 52-byte preamble, and its header
      starts right after it. */
  lemma SceneHeader(data: seq<byte>, v: int)
    requires DecodeScene(data, v).Some?
    ensures DATA_POS < |data|
    ensures var h := DecodeHeader(data, DATA_POS, v, Cleared);
      h.Some? && DecodeScene(data, v) == DecodeSections(data, h.value.next, v, h.value.value)
  {
    PreambleOnly(data, v);
  }

  /** A file no longer than its preamble never decodes. */
  lemma PreambleOnly(data: seq<byte>, v: int)
    ensures |data| <= DATA_POS ==> DecodeScene(data, v).None?
  {
    if |data| <= DATA_POS {
      var start := Read(data, 0, DATA_POS).next;
      assert DecodeBounds(data, Read(data, ReadStr(data, start).next, 1).next, v, Cleared.bounds).None?;
    }
  }

  /** A count word cut short by the end of the file: no section decodes from
      there, although the face section's records themselves could not fail. */
  lemma CountWordMissing(data: seq<byte>, q: nat, v: int)
    requires q <= |data| < q + WORD_SIZE
    ensures Vec3Section(data, q).None? && UVSection(data, q).None? && ColorSection(data, q).None?
    ensures FaceSection(data, q).None? && BucketSection(data, q, v).None?
  {
  }

  /** Flattening keeps, per bucket, its counts at the bucket's own index, and
      each bucket's material at the index given by the number of earlier
      buckets that had one. */
  lemma FlattenBuckets(s: Scene, i: nat)
    requires i < |s.buckets|
    ensures var r := Flatten(s);
      r.flags0[i] == s.buckets[i].flags0 &&
      r.vertCount[i] == s.buckets[i].vertCount &&
      r.indexCount[i] == s.buckets[i].indexCount &&
      (s.buckets[i].material.Some? ==>
        var k := |MaterialsOf(s.buckets[..i])|;
        k < |r.materials| && r.materials[k] == s.buckets[i].material.value)
  {
    if s.buckets[i].material.Some? {
      MaterialPosition(s.buckets, i);
    }
  }
}
