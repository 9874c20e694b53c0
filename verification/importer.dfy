/**
 * The `Importer` class of import_god.py and the loaders that fill it.  Each
 * loader reads through the importer's cursor (`memPtr`) and is proved to
 * leave exactly what the corresponding decoding function of the format
 * modules describes; a loader that returns `false` (or `None`) stands for
 * the `struct.error` the source raises when a 4-byte load runs past the end.
 */
module GodImport {
  import opened Wrappers
  import opened ByteStream
  import opened Records
  import opened MeshRoot
  import opened HeaderFormat
  import opened ArraySections
  import opened Buckets
  import opened SceneFormat
  import opened MemCursor

  class Importer {
    var godVersion: int
    var memPtr: Cursor?

    var header: Header
    var vertices: seq<Vec3>
    var normals: seq<Vec3>
    var uvs: seq<UV>
    var colors: seq<Color>
    var faces: seq<Face>
    var flags0: seq<Int32>
    var vertCount: seq<Int32>
    var indexCount: seq<Int32>
    var materials: seq<Material>

    /** Everything the importer holds from a file, as one value. */
    function State(): Imported
      reads this
    {
      Imported(header, vertices, normals, uvs, colors, faces, flags0, vertCount, indexCount, materials)
    }

    ghost predicate Valid()
      reads this`memPtr, memPtr
    {
      memPtr != null && memPtr.Valid()
    }

    /** The class attributes' initial values: revision 13, no file mapped,
        every number zero and every list empty. */
    constructor ()
      ensures godVersion == 13 && memPtr == null && State() == Empty
    {
      godVersion := 13;
      memPtr := null;
      header := Cleared;
      vertices, normals, uvs, colors, faces := [], [], [], [], [];
      flags0, vertCount, indexCount, materials := [], [], [], [];
    }

    /** `Cleanup`: back to revision 13 and no mapping; every number and list
        is reset, except the object name, which `Cleanup` leaves as it was. */
    method Cleanup()
      modifies this
      ensures godVersion == 13 && memPtr == null
      ensures State() == Imported(Header(old(header.objectName), Cleared.bounds, Cleared.body),
                                  [], [], [], [], [], [], [], [], [])
    {
      godVersion, memPtr := 13, null;
      header := Header(header.objectName, Cleared.bounds, Cleared.body);
      ClearSections();
      ClearBuckets();
    }

    /** The section lists of `Cleanup`. */
    method ClearSections()
      modifies this`vertices, this`normals, this`uvs, this`colors, this`faces
      ensures vertices == normals == [] && uvs == [] && colors == [] && faces == []
    {
      vertices, normals, uvs, colors, faces := [], [], [], [], [];
    }

    /** The bucket lists of `Cleanup`. */
    method ClearBuckets()
      modifies this`flags0, this`vertCount, this`indexCount, this`materials
      ensures flags0 == vertCount == indexCount == [] && materials == []
    {
      flags0, vertCount, indexCount, materials := [], [], [], [];
    }

    // -------------------------------------------------------------------------
    // Records

    /** Three `loadFloat`s. */
    method LoadVec3() returns (r: Option<Vec3>)
      requires Valid()
      modifies memPtr
      ensures Valid()
      ensures r.Some? <==> ReadVec3(memPtr.data, old(memPtr.pos)).Some?
      ensures r.Some? ==> ReadVec3(memPtr.data, old(memPtr.pos)) == Some(Parsed(r.value, memPtr.pos))
    {
      var x := memPtr.ReadWord32();
      if x.None? {
        return None;
      }
      var y := memPtr.ReadWord32();
      if y.None? {
        return None;
      }
      var z := memPtr.ReadWord32();
      if z.None? {
        return None;
      }
      return Some(Vec3(x.value, y.value, z.value));
    }

    /** Two `loadFloat`s. */
    method LoadUV() returns (r: Option<UV>)
      requires Valid()
      modifies memPtr
      ensures Valid()
      ensures r.Some? <==> ReadUV(memPtr.data, old(memPtr.pos)).Some?
      ensures r.Some? ==> ReadUV(memPtr.data, old(memPtr.pos)) == Some(Parsed(r.value, memPtr.pos))
    {
      var u := memPtr.ReadWord32();
      if u.None? {
        return None;
      }
      var v := memPtr.ReadWord32();
      if v.None? {
        return None;
      }
      return Some(UV(u.value, v.value));
    }

    /** Four `loadInt`s, in b, g, r, a order. */
    method LoadColor() returns (r: Option<Color>)
      requires Valid()
      modifies memPtr
      ensures Valid()
      ensures r.Some? <==> ReadColor(memPtr.data, old(memPtr.pos)).Some?
      ensures r.Some? ==> ReadColor(memPtr.data, old(memPtr.pos)) == Some(Parsed(r.value, memPtr.pos))
    {
      var b := memPtr.ReadI32LE();
      if b.None? {
        return None;
      }
      var g := memPtr.ReadI32LE();
      if g.None? {
        return None;
      }
      var red := memPtr.ReadI32LE();
      if red.None? {
        return None;
      }
      var a := memPtr.ReadI32LE();
      if a.None? {
        return None;
      }
      return Some(Color(b.value, g.value, red.value, a.value));
    }

    /** Four `loadFloat`s of a material colour. */
    method LoadRgba() returns (r: Option<Rgba>)
      requires Valid()
      modifies memPtr
      ensures Valid()
      ensures r.Some? <==> ReadRgba(memPtr.data, old(memPtr.pos)).Some?
      ensures r.Some? ==> ReadRgba(memPtr.data, old(memPtr.pos)) == Some(Parsed(r.value, memPtr.pos))
    {
      var c0 := memPtr.ReadWord32();
      if c0.None? {
        return None;
      }
      var c1 := memPtr.ReadWord32();
      if c1.None? {
        return None;
      }
      var c2 := memPtr.ReadWord32();
      if c2.None? {
        return None;
      }
      var c3 := memPtr.ReadWord32();
      if c3.None? {
        return None;
      }
      return Some(Rgba(c0.value, c1.value, c2.value, c3.value));
    }

    /** Three `int.from_bytes(read(2))` corner indices. */
    method LoadTri() returns (t: Tri)
      requires Valid()
      modifies memPtr
      ensures Valid()
      ensures ReadTri(memPtr.data, old(memPtr.pos)) == Parsed(t, memPtr.pos)
    {
      var a := memPtr.ReadU16LE();
      var b := memPtr.ReadU16LE();
      var c := memPtr.ReadU16LE();
      t := Tri(a, b, c);
    }

    /** One face: the bucket index, then the vertex, normal and uv corners. */
    method LoadFace() returns (f: Face)
      requires Valid()
      modifies memPtr
      ensures Valid()
      ensures ReadFace(memPtr.data, old(memPtr.pos)) == Parsed(f, memPtr.pos)
    {
      var buckyIndex := memPtr.ReadU16LE();
      var verts := LoadTri();
      var norms := LoadTri();
      var uvs := LoadTri();
      f := Face(buckyIndex, verts, norms, uvs);
      ReadFaceInOrder(memPtr.data, old(memPtr.pos));
    }

    // -------------------------------------------------------------------------
    // Runs of records

    /** The loop of `loadArray4_Vertices` and `loadArray4_Normals`: `n` vectors
        in a row, or `ok == false` at the first short load. */
    method LoadVec3s(n: nat) returns (got: seq<Vec3>, ok: bool)
      requires Valid()
      modifies memPtr
      ensures Valid()
      ensures var r := RecordList(memPtr.data, old(memPtr.pos), n, VEC3_SIZE, ReadVec3);
        (ok <==> r.Some?) && (ok ==> r.value == Parsed(got, memPtr.pos))
    {
      ghost var data, start := memPtr.data, memPtr.pos;
      Vec3Reader(data);
      got := [];
      var i := 0;
      while i < n
        invariant 0 <= i <= n && Valid()
        invariant RecordList(data, start, i, VEC3_SIZE, ReadVec3) == Some(Parsed(got, memPtr.pos))
      {
        var x := LoadVec3();
        if x.None? {
          RecordListStops(data, start, i, n, VEC3_SIZE, ReadVec3);
          return got, false;
        }
        got := got + [x.value];
        i := i + 1;
      }
      return got, true;
    }

    /** The loop of `loadArray4_UVs`. */
    method LoadUVList(n: nat) returns (got: seq<UV>, ok: bool)
      requires Valid()
      modifies memPtr
      ensures Valid()
      ensures var r := RecordList(memPtr.data, old(memPtr.pos), n, UV_SIZE, ReadUV);
        (ok <==> r.Some?) && (ok ==> r.value == Parsed(got, memPtr.pos))
    {
      ghost var data, start := memPtr.data, memPtr.pos;
      UVReader(data);
      got := [];
      var i := 0;
      while i < n
        invariant 0 <= i <= n && Valid()
        invariant RecordList(data, start, i, UV_SIZE, ReadUV) == Some(Parsed(got, memPtr.pos))
      {
        var x := LoadUV();
        if x.None? {
          RecordListStops(data, start, i, n, UV_SIZE, ReadUV);
          return got, false;
        }
        got := got + [x.value];
        i := i + 1;
      }
      return got, true;
    }

    /** The loop of `loadArray4_Colors`. */
    method LoadColorList(n: nat) returns (got: seq<Color>, ok: bool)
      requires Valid()
      modifies memPtr
      ensures Valid()
      ensures var r := RecordList(memPtr.data, old(memPtr.pos), n, COLOR_SIZE, ReadColor);
        (ok <==> r.Some?) && (ok ==> r.value == Parsed(got, memPtr.pos))
    {
      ghost var data, start := memPtr.data, memPtr.pos;
      ColorReader(data);
      got := [];
      var i := 0;
      while i < n
        invariant 0 <= i <= n && Valid()
        invariant RecordList(data, start, i, COLOR_SIZE, ReadColor) == Some(Parsed(got, memPtr.pos))
      {
        var x := LoadColor();
        if x.None? {
          RecordListStops(data, start, i, n, COLOR_SIZE, ReadColor);
          return got, false;
        }
        got := got + [x.value];
        i := i + 1;
      }
      return got, true;
    }

    /** The loop of `loadArray4_Faces`: 2-byte reads never fail. */
    method LoadFaceList(n: nat) returns (got: seq<Face>)
      requires Valid()
      modifies memPtr
      ensures Valid()
      ensures TotalList(memPtr.data, old(memPtr.pos), n, FACE_SIZE, ReadFace) == Parsed(got, memPtr.pos)
    {
      ghost var data, start := memPtr.data, memPtr.pos;
      FaceReader(data);
      got := [];
      var i := 0;
      while i < n
        invariant 0 <= i <= n && Valid()
        invariant TotalList(data, start, i, FACE_SIZE, ReadFace) == Parsed(got, memPtr.pos)
      {
        var f := LoadFace();
        got := got + [f];
        i := i + 1;
      }
    }

    // -------------------------------------------------------------------------
    // The count sections
    //
    // Each section appends what its loop read, also when the loop stopped at a
    // short load, as the source's per-element appends leave it.

    /** `loadArray4_Vertices`: appends the section's vertices. */
    method LoadVertices() returns (ok: bool)
      requires Valid()
      modifies this`vertices, memPtr
      ensures Valid()
      ensures var r := Vec3Section(memPtr.data, old(memPtr.pos));
        (ok <==> r.Some?) &&
        (ok ==> vertices == old(vertices) + r.value.value && memPtr.pos == r.value.next)
    {
      var count := memPtr.ReadI32LE();
      if count.None? {
        return false;
      }
      var got;
      got, ok := LoadVec3s(Count(count.value));
      vertices := vertices + got;
    }

    /** `loadArray4_Normals`: appends the section's normals. */
    method LoadNormals() returns (ok: bool)
      requires Valid()
      modifies this`normals, memPtr
      ensures Valid()
      ensures var r := Vec3Section(memPtr.data, old(memPtr.pos));
        (ok <==> r.Some?) &&
        (ok ==> normals == old(normals) + r.value.value && memPtr.pos == r.value.next)
    {
      var count := memPtr.ReadI32LE();
      if count.None? {
        return false;
      }
      var got;
      got, ok := LoadVec3s(Count(count.value));
      normals := normals + got;
    }

    /** `loadArray4_UVs`: appends the section's (u, v) pairs. */
    method LoadUVs() returns (ok: bool)
      requires Valid()
      modifies this`uvs, memPtr
      ensures Valid()
      ensures var r := UVSection(memPtr.data, old(memPtr.pos));
        (ok <==> r.Some?) &&
        (ok ==> uvs == old(uvs) + r.value.value && memPtr.pos == r.value.next)
    {
      var count := memPtr.ReadI32LE();
      if count.None? {
        return false;
      }
      var got;
      got, ok := LoadUVList(Count(count.value));
      uvs := uvs + got;
    }

    /** `loadArray4_Colors`: appends the section's colours. */
    method LoadColors() returns (ok: bool)
      requires Valid()
      modifies this`colors, memPtr
      ensures Valid()
      ensures var r := ColorSection(memPtr.data, old(memPtr.pos));
        (ok <==> r.Some?) &&
        (ok ==> colors == old(colors) + r.value.value && memPtr.pos == r.value.next)
    {
      var count := memPtr.ReadI32LE();
      if count.None? {
        return false;
      }
      var got;
      got, ok := LoadColorList(Count(count.value));
      colors := colors + got;
    }

    /** `loadArray4_Faces`: appends the section's faces; only the count can fail. */
    method LoadFaces() returns (ok: bool)
      requires Valid()
      modifies this`faces, memPtr
      ensures Valid()
      ensures var r := FaceSection(memPtr.data, old(memPtr.pos));
        (ok <==> r.Some?) &&
        (ok ==> faces == old(faces) + r.value.value && memPtr.pos == r.value.next)
    {
      var count := memPtr.ReadI32LE();
      if count.None? {
        return false;
      }
      var got := LoadFaceList(Count(count.value));
      faces := faces + got;
      return true;
    }
  
    // -------------------------------------------------------------------------
    // Materials and buckets

    /** One texture probe: `tell`, then a tag; on a match the name, its
        terminator, the type and the mip count, otherwise a `seek` back.
        `Some(None)` is a probe that found another tag. */
    method LoadTextureProbe(tag: Int32) returns (r: Option<Option<seq<byte>>>)
      requires Valid()
      modifies memPtr
      ensures Valid()
      ensures var t := ProbeTexture(memPtr.data, old(memPtr.pos), tag);
        (r.Some? <==> t.Some?) && (r.Some? ==> t.value == Parsed(r.value, memPtr.pos))
    {
      ProbeInOrder(memPtr.data, memPtr.pos, tag);
      var mark := memPtr.Tell();
      var t := memPtr.ReadI32LE();
      if t.None? {
        return None;
      }
      if t.value != tag {
        memPtr.Seek(mark);
        return Some(None);
      }
      var name := memPtr.ReadString();
      memPtr.Skip(1);
      var kind := memPtr.ReadI32LE();
      if kind.None? {
        return None;
      }
      var mipMapCount := memPtr.ReadI32LE();
      if mipMapCount.None? {
        return None;
      }
      return Some(Some(name));
    }

    /** The texture part of a material: Texture0 then Texture1 and three ints
        after revision 1, the single Texture probe in revision 1.  A later
        match overrides the name; without one it stays empty. */
    method LoadTextures() returns (r: Option<seq<byte>>)
      requires Valid()
      modifies memPtr
      ensures Valid()
      ensures var t := TextureName(memPtr.data, old(memPtr.pos), godVersion);
        (r.Some? <==> t.Some?) && (r.Some? ==> t.value == Parsed(r.value, memPtr.pos))
    {
      var textureName: seq<byte> := [];
      if godVersion > 1 {
        var t0 := LoadTextureProbe(TEXTURE0_TAG);
        if t0.None? {
          return None;
        }
        if t0.value.Some? {
          textureName := t0.value.value;
        }
        var t1 := LoadTextureProbe(TEXTURE1_TAG);
        if t1.None? {
          return None;
        }
        if t1.value.Some? {
          textureName := t1.value.value;
        }
        var teamColor := memPtr.ReadI32LE();
        if teamColor.None? {
          return None;
        }
        var envMap := memPtr.ReadI32LE();
        if envMap.None? {
          return None;
        }
        var overlay := memPtr.ReadI32LE();
        if overlay.None? {
          return None;
        }
      } else {
        var t := LoadTextureProbe(TEXTURE_TAG);
        if t.None? {
          return None;
        }
        if t.value.Some? {
          textureName := t.value.value;
        }
      }
      return Some(textureName);
    }

    /** A material block: name and terminator, diffuse, specular, specular
        power, emissive, ambient, three unused words in revisions 2 to 9, then
        the textures. */
    method LoadMaterial() returns (r: Option<Material>)
      requires Valid()
      modifies memPtr
      ensures Valid()
      ensures var m := MaterialBlock(memPtr.data, old(memPtr.pos), godVersion);
        (r.Some? <==> m.Some?) && (r.Some? ==> m.value == Parsed(r.value, memPtr.pos))
    {
      var materialName := memPtr.ReadString();
      memPtr.Skip(1);
      var diffuse := LoadRgba();
      if diffuse.None? {
        return None;
      }
      var specular := LoadRgba();
      if specular.None? {
        return None;
      }
      var specularPower := memPtr.ReadWord32();
      if specularPower.None? {
        return None;
      }
      var emissive := LoadRgba();
      if emissive.None? {
        return None;
      }
      var ambient := LoadRgba();
      if ambient.None? {
        return None;
      }
      if 1 < godVersion < 10 {
        memPtr.Skip(4);
        memPtr.Skip(4);
        memPtr.Skip(4);
      }
      var textureName := LoadTextures();
      if textureName.None? {
        return None;
      }
      return Some(Material(materialName, diffuse.value, specular.value, specularPower.value,
                           emissive.value, ambient.value, textureName.value));
    }

    /** One bucket: flags0, vertex and index counts, the tag word, and the
        material when the tag is the material tag; no seek back otherwise. */
    method LoadBucky() returns (r: Option<Bucket>)
      requires Valid()
      modifies memPtr
      ensures Valid()
      ensures var b := BucketAt(memPtr.data, old(memPtr.pos), godVersion);
        (r.Some? <==> b.Some?) && (r.Some? ==> b.value == Parsed(r.value, memPtr.pos))
    {
      var flags0 := memPtr.ReadI32LE();
      if flags0.None? {
        return None;
      }
      var vertCount := memPtr.ReadI32LE();
      if vertCount.None? {
        return None;
      }
      var indexCount := memPtr.ReadI32LE();
      if indexCount.None? {
        return None;
      }
      var tag := memPtr.ReadI32LE();
      if tag.None? {
        return None;
      }
      if tag.value == MATERIAL_TAG {
        var m := LoadMaterial();
        if m.None? {
          return None;
        }
        return Some(Bucket(flags0.value, vertCount.value, indexCount.value, Some(m.value)));
      }
      return Some(Bucket(flags0.value, vertCount.value, indexCount.value, None));
    }

    /** The loop of `loadArray4_Buckys`: `n` buckets in a row. */
    method LoadBucketList(n: nat) returns (got: seq<Bucket>, ok: bool)
      requires Valid()
      modifies memPtr
      ensures Valid()
      ensures var r := BucketList(memPtr.data, old(memPtr.pos), godVersion, n);
        (ok <==> r.Some?) && (ok ==> r.value == Parsed(got, memPtr.pos))
    {
      ghost var data, start := memPtr.data, memPtr.pos;
      got := [];
      var i := 0;
      while i < n
        invariant 0 <= i <= n && Valid()
        invariant BucketList(data, start, godVersion, i) == Some(Parsed(got, memPtr.pos))
      {
        var b := LoadBucky();
        if b.None? {
          BucketListStops(data, start, godVersion, i, n);
          return got, false;
        }
        BucketListNext(data, start, godVersion, i);
        got := got + [b.value];
        i := i + 1;
      }
      return got, true;
    }

    /** `loadArray4_Buckys`: appends each bucket's three counts, and the
        material values of each bucket that has one. */
    method LoadBuckys() returns (ok: bool)
      requires Valid()
      modifies this`flags0, this`vertCount, this`indexCount, this`materials, memPtr
      ensures Valid()
      ensures var r := BucketSection(memPtr.data, old(memPtr.pos), godVersion);
        (ok <==> r.Some?) &&
        (ok ==> flags0 == old(flags0) + Flags0Of(r.value.value) &&
                vertCount == old(vertCount) + VertCountOf(r.value.value) &&
                indexCount == old(indexCount) + IndexCountOf(r.value.value) &&
                materials == old(materials) + MaterialsOf(r.value.value) &&
                memPtr.pos == r.value.next)
    {
      var count := memPtr.ReadI32LE();
      if count.None? {
        return false;
      }
      var got;
      got, ok := LoadBucketList(Count(count.value));
      flags0 := flags0 + Flags0Of(got);
      vertCount := vertCount + VertCountOf(got);
      indexCount := indexCount + IndexCountOf(got);
      materials := materials + MaterialsOf(got);
    }
  
    // -------------------------------------------------------------------------
    // The header

    /** `loadBounds`: radius, width, height, breadth and offset after revision
        1; revision 1 has a 64-byte matrix after the radius and no offset. */
    method LoadBounds() returns (ok: bool)
      requires Valid()
      modifies this`header, memPtr
      ensures Valid()
      ensures var r := DecodeBounds(memPtr.data, old(memPtr.pos), godVersion, old(header.bounds));
        (ok <==> r.Some?) &&
        (ok ==> header == old(header).(bounds := r.value.value) && memPtr.pos == r.value.next)
    {
      var radius := memPtr.ReadWord32();
      if radius.None? {
        return false;
      }
      var offset := header.bounds.offset;
      if godVersion <= 1 {
        memPtr.Skip(MATRIX_SIZE);
      }
      var width := memPtr.ReadWord32();
      if width.None? {
        return false;
      }
      var height := memPtr.ReadWord32();
      if height.None? {
        return false;
      }
      var breadth := memPtr.ReadWord32();
      if breadth.None? {
        return false;
      }
      if godVersion > 1 {
        var o := LoadVec3();
        if o.None? {
          return false;
        }
        offset := o.value;
      }
      header := header.(bounds := Bounds(radius.value, width.value, height.value, breadth.value, offset));
      return true;
    }

    /** One header word for field `f`, kept as its value: a float's bits, an
        int's signed value, or the shadow type after its revision's rule.  The
        table walk from `start` has reached the word here. */
    method LoadField(f: Field, ghost start: nat, ghost b0: Body) returns (ok: bool)
      requires Valid() && start <= |memPtr.data| && Present(f, godVersion)
      requires WalkFields(memPtr.data, start, godVersion, Rank(f), b0) == Some(Parsed(header.body, memPtr.pos))
      modifies this`header, memPtr
      ensures Valid()
      ensures header.objectName == old(header.objectName) && header.bounds == old(header.bounds)
      ensures var r := WalkFields(memPtr.data, start, godVersion, Rank(f) + 1, b0);
        (ok <==> r.Some?) && (ok ==> r.value == Parsed(header.body, memPtr.pos))
    {
      var w := memPtr.ReadWord32();
      if w.None? {
        return false;
      }
      header := header.(body := Apply(header.body, f, godVersion, w.value));
      return true;
    }

    /** Scale, quick light and shadow plane; environment map and texture
        timer after revision 1. */
    method LoadLighting() returns (ok: bool)
      requires Valid()
      modifies this`header, memPtr
      ensures Valid()
      ensures header.objectName == old(header.objectName) && header.bounds == old(header.bounds)
      ensures var r := WalkFields(memPtr.data, old(memPtr.pos), godVersion, 5, old(header.body));
        (ok <==> r.Some?) && (ok ==> r.value == Parsed(header.body, memPtr.pos))
    {
      ghost var data, start, b0, v := memPtr.data, memPtr.pos, header.body, godVersion;
      ok := LoadField(Scale, start, b0);
      if !ok {
        WalkStops(data, start, v, b0, 1, 5);
        return;
      }
      ok := LoadField(QuickLight, start, b0);
      if !ok {
        WalkStops(data, start, v, b0, 2, 5);
        return;
      }
      ok := LoadField(ShadowPlane, start, b0);
      if !ok {
        WalkStops(data, start, v, b0, 3, 5);
        return;
      }
      if godVersion > 1 {
        ok := LoadField(EnvMap, start, b0);
        if !ok {
          WalkStops(data, start, v, b0, 4, 5);
          return;
        }
        ok := LoadField(TexTimer, start, b0);
      } else {
        WalkSkip(data, start, v, b0, EnvMap);
        WalkSkip(data, start, v, b0, TexTimer);
      }
    }
  
    /** The shadow info after revision 11: the render radii and the shadow
        point p2, which p1 then shares. */
    method LoadShadowInfo(ghost start: nat, ghost b0: Body) returns (ok: bool)
      requires Valid() && start <= |memPtr.data|
      requires WalkFields(memPtr.data, start, godVersion, 5, b0) == Some(Parsed(header.body, memPtr.pos))
      modifies this`header, memPtr
      ensures Valid()
      ensures header.objectName == old(header.objectName) && header.bounds == old(header.bounds)
      ensures var r := WalkFields(memPtr.data, start, godVersion, 10, b0);
        (ok <==> r.Some?) && (ok ==> r.value == Parsed(header.body, memPtr.pos))
    {
      ghost var data, v := memPtr.data, godVersion;
      if godVersion > 11 {
        ok := LoadRenderRadii(start, b0);
        if !ok {
          WalkStops(data, start, v, b0, 7, 10);
          return;
        }
        ok := LoadShadowPoint(start, b0);
      } else {
        WalkSkipsShadowInfo(data, start, v, b0);
        ok := true;
      }
    }

    /** The two render radii of the shadow info. */
    method LoadRenderRadii(ghost start: nat, ghost b0: Body) returns (ok: bool)
      requires godVersion > 11
      requires Valid() && start <= |memPtr.data|
      requires WalkFields(memPtr.data, start, godVersion, 5, b0) == Some(Parsed(header.body, memPtr.pos))
      modifies this`header, memPtr
      ensures Valid()
      ensures header.objectName == old(header.objectName) && header.bounds == old(header.bounds)
      ensures var r := WalkFields(memPtr.data, start, godVersion, 7, b0);
        (ok <==> r.Some?) && (ok ==> r.value == Parsed(header.body, memPtr.pos))
    {
      ok := LoadField(RadxRender, start, b0);
      if !ok {
        WalkStops(memPtr.data, start, godVersion, b0, 6, 7);
        return;
      }
      ok := LoadField(RadyRender, start, b0);
    }

    /** The shadow point p2, word by word; the last word makes p1 the same point. */
    method LoadShadowPoint(ghost start: nat, ghost b0: Body) returns (ok: bool)
      requires godVersion > 11
      requires Valid() && start <= |memPtr.data|
      requires WalkFields(memPtr.data, start, godVersion, 7, b0) == Some(Parsed(header.body, memPtr.pos))
      modifies this`header, memPtr
      ensures Valid()
      ensures header.objectName == old(header.objectName) && header.bounds == old(header.bounds)
      ensures var r := WalkFields(memPtr.data, start, godVersion, 10, b0);
        (ok <==> r.Some?) && (ok ==> r.value == Parsed(header.body, memPtr.pos))
    {
      ghost var data, v := memPtr.data, godVersion;
      ok := LoadField(P2X, start, b0);
      if !ok {
        WalkStops(data, start, v, b0, 8, 10);
        return;
      }
      ok := LoadField(P2Y, start, b0);
      if !ok {
        WalkStops(data, start, v, b0, 9, 10);
        return;
      }
      ok := LoadField(P2Z, start, b0);
    }

    /** Revisions 9 and 10: a yes/no shadow flag, kept as shadow type 2
        (semi-live) when the int read is 1, and 0 (oval) otherwise. */
    method LoadShadowFlag(ghost start: nat, ghost b0: Body) returns (ok: bool)
      requires Valid() && start <= |memPtr.data| && 8 < godVersion <= 10
      requires WalkFields(memPtr.data, start, godVersion, Rank(ShadowType), b0) ==
        Some(Parsed(header.body, memPtr.pos))
      modifies this`header, memPtr
      ensures Valid()
      ensures header.objectName == old(header.objectName) && header.bounds == old(header.bounds)
      ensures var r := WalkFields(memPtr.data, start, godVersion, Rank(ShadowType) + 1, b0);
        (ok <==> r.Some?) && (ok ==> r.value == Parsed(header.body, memPtr.pos))
    {
      var flag := memPtr.ReadI32LE();
      if flag.None? {
        return false;
      }
      header := header.(body := header.body.(shadowType := if flag.value == 1 then 2 else 0));
      return true;
    }

    /** The fields after the shadow info: `unknown1` after revision 12,
        tread and control after revision 5, then the shadow fields. */
    method LoadTail(ghost start: nat, ghost b0: Body) returns (ok: bool)
      requires Valid() && start <= |memPtr.data|
      requires WalkFields(memPtr.data, start, godVersion, 10, b0) == Some(Parsed(header.body, memPtr.pos))
      modifies this`header, memPtr
      ensures Valid()
      ensures header.objectName == old(header.objectName) && header.bounds == old(header.bounds)
      ensures var r := WalkFields(memPtr.data, start, godVersion, 16, b0);
        (ok <==> r.Some?) && (ok ==> r.value == Parsed(header.body, memPtr.pos))
    {
      ghost var data, v := memPtr.data, godVersion;
      if godVersion > 12 {
        ok := LoadField(Unknown1, start, b0);
        if !ok {
          WalkStops(data, start, v, b0, 11, 16);
          return;
        }
      } else {
        WalkSkip(data, start, v, b0, Unknown1);
      }
      if godVersion > 5 {
        ok := LoadField(HasTread, start, b0);
        if !ok {
          WalkStops(data, start, v, b0, 12, 16);
          return;
        }
        ok := LoadField(HasControl, start, b0);
        if !ok {
          WalkStops(data, start, v, b0, 13, 16);
          return;
        }
      } else {
        WalkSkip(data, start, v, b0, HasTread);
        WalkSkip(data, start, v, b0, HasControl);
      }
      ok := LoadShadow(start, b0);
    }

    /** The shadow type after revision 8: an int after revision 10, the
        yes/no flag in revisions 9 and 10. */
    method LoadShadowType(ghost start: nat, ghost b0: Body) returns (ok: bool)
      requires Valid() && start <= |memPtr.data|
      requires WalkFields(memPtr.data, start, godVersion, 13, b0) == Some(Parsed(header.body, memPtr.pos))
      modifies this`header, memPtr
      ensures Valid()
      ensures header.objectName == old(header.objectName) && header.bounds == old(header.bounds)
      ensures var r := WalkFields(memPtr.data, start, godVersion, 14, b0);
        (ok <==> r.Some?) && (ok ==> r.value == Parsed(header.body, memPtr.pos))
    {
      if godVersion > 10 {
        ok := LoadField(ShadowType, start, b0);
      } else if godVersion > 8 {
        ok := LoadShadowFlag(start, b0);
      } else {
        WalkSkip(memPtr.data, start, godVersion, b0, ShadowType);
        ok := true;
      }
    }

    /** The shadow type, the shadow radius, and the tread rate after revision 7. */
    method LoadShadow(ghost start: nat, ghost b0: Body) returns (ok: bool)
      requires Valid() && start <= |memPtr.data|
      requires WalkFields(memPtr.data, start, godVersion, 13, b0) == Some(Parsed(header.body, memPtr.pos))
      modifies this`header, memPtr
      ensures Valid()
      ensures header.objectName == old(header.objectName) && header.bounds == old(header.bounds)
      ensures var r := WalkFields(memPtr.data, start, godVersion, 16, b0);
        (ok <==> r.Some?) && (ok ==> r.value == Parsed(header.body, memPtr.pos))
    {
      ghost var data, v := memPtr.data, godVersion;
      ok := LoadShadowType(start, b0);
      if !ok {
        WalkStops(data, start, v, b0, 14, 16);
        return;
      }
      ok := LoadField(ShadowRadius, start, b0);
      if !ok {
        WalkStops(data, start, v, b0, 15, 16);
        return;
      }
      if godVersion > 7 {
        ok := LoadField(TreadPerMeter, start, b0);
      } else {
        WalkSkip(data, start, v, b0, TreadPerMeter);
      }
    }

    /** Every field after the bounds, in file order. */
    method LoadBody() returns (ok: bool)
      requires Valid()
      modifies this`header, memPtr
      ensures Valid()
      ensures header.objectName == old(header.objectName) && header.bounds == old(header.bounds)
      ensures var r := DecodeBody(memPtr.data, old(memPtr.pos), godVersion, old(header.body));
        (ok <==> r.Some?) && (ok ==> r.value == Parsed(header.body, memPtr.pos))
    {
      ghost var data, start, b0, v := memPtr.data, memPtr.pos, header.body, godVersion;
      WalkFieldsDecodes(data, start, v, 16, b0);
      assert FieldOrder[..16] == FieldOrder;
      ok := LoadLighting();
      if !ok {
        WalkStops(data, start, v, b0, 5, 16);
        return;
      }
      ok := LoadShadowInfo(start, b0);
      if !ok {
        WalkStops(data, start, v, b0, 10, 16);
        return;
      }
      ok := LoadTail(start, b0);
    }

    /** The header: the object name and its terminator, the bounds, then the
        fields after them. */
    method LoadHeader() returns (ok: bool)
      requires Valid()
      modifies this`header, memPtr
      ensures Valid()
      ensures var r := DecodeHeader(memPtr.data, old(memPtr.pos), godVersion, old(header));
        (ok <==> r.Some?) && (ok ==> r.value == Parsed(header, memPtr.pos))
    {
      var name := memPtr.ReadString();
      header := header.(objectName := name);
      memPtr.Skip(1);
      ok := LoadBounds();
      if !ok {
        return;
      }
      ok := LoadBody();
    }
  
    // -------------------------------------------------------------------------
    // start_import

    /** The six count sections after the header, into empty lists. */
    method LoadSections() returns (ok: bool)
      requires Valid()
      requires vertices == [] && normals == [] && uvs == [] && colors == [] && faces == []
      requires flags0 == [] && vertCount == [] && indexCount == [] && materials == []
      modifies this`vertices, this`normals, this`uvs, this`colors, this`faces
      modifies this`flags0, this`vertCount, this`indexCount, this`materials, memPtr
      ensures Valid()
      ensures var r := DecodeSections(memPtr.data, old(memPtr.pos), godVersion, header);
        (ok <==> r.Some?) && (ok ==> State() == Flatten(r.value))
    {
      ok := LoadVertices();
      if !ok {
        return;
      }
      ok := LoadFromNormals();
    }

    /** The sections from the normals on, after the earlier ones held. */
    method LoadFromNormals() returns (ok: bool)
      requires Valid()
      requires normals == [] && uvs == [] && colors == [] && faces == []
      requires flags0 == [] && vertCount == [] && indexCount == [] && materials == []
      modifies this`normals, this`uvs, this`colors, this`faces
      modifies this`flags0, this`vertCount, this`indexCount, this`materials, memPtr
      ensures Valid()
      ensures var r := NormalsFrom(memPtr.data, old(memPtr.pos), godVersion, header, vertices);
        (ok <==> r.Some?) && (ok ==> State() == Flatten(r.value))
    {
      ok := LoadNormals();
      if !ok {
        return;
      }
      ok := LoadFromUVs();
    }

    /** The sections from the uvs on, after the earlier ones held. */
    method LoadFromUVs() returns (ok: bool)
      requires Valid()
      requires uvs == [] && colors == [] && faces == []
      requires flags0 == [] && vertCount == [] && indexCount == [] && materials == []
      modifies this`uvs, this`colors, this`faces
      modifies this`flags0, this`vertCount, this`indexCount, this`materials, memPtr
      ensures Valid()
      ensures var r := UVsFrom(memPtr.data, old(memPtr.pos), godVersion, header, vertices, normals);
        (ok <==> r.Some?) && (ok ==> State() == Flatten(r.value))
    {
      ok := LoadUVs();
      if !ok {
        return;
      }
      ok := LoadFromColors();
    }

    /** The sections from the colors on, after the earlier ones held. */
    method LoadFromColors() returns (ok: bool)
      requires Valid()
      requires colors == [] && faces == []
      requires flags0 == [] && vertCount == [] && indexCount == [] && materials == []
      modifies this`colors, this`faces
      modifies this`flags0, this`vertCount, this`indexCount, this`materials, memPtr
      ensures Valid()
      ensures var r := ColorsFrom(memPtr.data, old(memPtr.pos), godVersion, header, vertices, normals, uvs);
        (ok <==> r.Some?) && (ok ==> State() == Flatten(r.value))
    {
      ok := LoadColors();
      if !ok {
        return;
      }
      ok := LoadFromFaces();
    }

    /** The sections from the faces on, after the earlier ones held. */
    method LoadFromFaces() returns (ok: bool)
      requires Valid()
      requires faces == []
      requires flags0 == [] && vertCount == [] && indexCount == [] && materials == []
      modifies this`faces
      modifies this`flags0, this`vertCount, this`indexCount, this`materials, memPtr
      ensures Valid()
      ensures var r := FacesFrom(memPtr.data, old(memPtr.pos), godVersion, header, vertices, normals, uvs, colors);
        (ok <==> r.Some?) && (ok ==> State() == Flatten(r.value))
    {
      ok := LoadFaces();
      if !ok {
        return;
      }
      ok := LoadBuckys();
    }

    /** `start_import`: `Cleanup`, the revision from the mesh root block's
        name, then a mapping of `contents` decoded from the start.  `false`
        stands for the load that raises. */
    method StartImport(contents: seq<byte>, meshRoot: string) returns (ok: bool)
      modifies this
      ensures godVersion == VersionOf(meshRoot)
      ensures var s := DecodeScene(contents, godVersion);
        (ok <==> s.Some?) && (ok ==> State() == Flatten(s.value))
    {
      Cleanup();
      godVersion := VersionOf(meshRoot);
      memPtr := new Cursor(contents);
      memPtr.Skip(DATA_POS);
      ok := LoadFile();
    }

    /** The decode on a cleaned-up importer whose mapping is past the
        preamble: the header, then the sections. */
    method LoadFile() returns (ok: bool)
      requires Valid() && memPtr.pos == Read(memPtr.data, 0, DATA_POS).next
      requires header.bounds == Cleared.bounds && header.body == Cleared.body
      requires vertices == [] && normals == [] && uvs == [] && colors == [] && faces == []
      requires flags0 == [] && vertCount == [] && indexCount == [] && materials == []
      modifies this`header, this`vertices, this`normals, this`uvs, this`colors, this`faces
      modifies this`flags0, this`vertCount, this`indexCount, this`materials, memPtr
      ensures var s := DecodeScene(memPtr.data, godVersion);
        (ok <==> s.Some?) && (ok ==> State() == Flatten(s.value))
    {
      ghost var data, v := memPtr.data, godVersion;
      ghost var h := DecodeHeader(data, memPtr.pos, v, Cleared);
      HeaderIgnoresName(data, memPtr.pos, v, header, Cleared);
      ok := LoadHeader();
      if !ok {
        return;
      }
      assert Parsed(header, memPtr.pos) == h.value;
      ok := LoadSections();
    }
  }

  /** A whole import on a fresh importer: the lists of the decoded file, or
      `None` where the source raises. */
  method ImportFile(contents: seq<byte>, meshRoot: string) returns (r: Option<Imported>)
    ensures var s := DecodeScene(contents, VersionOf(meshRoot));
      (r.Some? <==> s.Some?) && (r.Some? ==> r.value == Flatten(s.value))
  {
    var importer := new Importer();
    var ok := importer.StartImport(contents, meshRoot);
    if !ok {
      return None;
    }
    return Some(importer.State());
  }
}
