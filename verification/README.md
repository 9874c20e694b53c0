# GOD mesh decoder, modelled in Dafny

This project models the decoding half of `import_god.py`, the Blender importer
for `.god` mesh files. The importer maps
the file, skips a 52-byte preamble and reads:

- the scene header: the object name, the bounds, and a run of fields whose
  presence depends on the format revision (`godVersion`, chosen by the
  `MeshRootBlock<n>` option);
- six counted sections: vertices, normals, texture coordinates, vertex
  colours, faces, and buckets, which are material groups with an optional
  material and texture.

The model has two layers:

- **Pure decoding functions** of the file bytes and a read position
  (`ByteStream`, `Records`, `ArraySections`, `Buckets`, `HeaderFormat`,
  `SceneFormat`). Each returns the decoded value and the position after it
  (`Parsed`), or `None` where the importer raises.
- **An imperative `Importer` class** (`GodImport`) whose fields are the
  importer's attributes. Its loaders read through a `Cursor` (the mapping's
  read position, `MemCursor`). Each loader is proved to leave exactly what the
  matching decoding function describes.

`StartImport` is proved to decode exactly the files `DecodeScene` accepts, and
to leave the importer holding `Flatten` of the decoded scene.

The reading primitives follow the mmap semantics the code relies on:

- `read(n)` returns fewer bytes at the end of the file, or all remaining bytes
  when `n` is negative, and never fails.
- Only the 4-byte loads (`loadInt`, `loadFloat`) fail, because `struct.unpack`
  is handed fewer than four bytes.
- The 2-byte face indices and the terminator and padding skips never fail.

Floats are kept as their raw 32-bit words and ints as signed 32-bit values,
both read little end first.

The properties proved include:

- the revision mapping and its round trip through the block names;
- the `loadStr` clamp (2 + min(64, L-1) bytes, the whole rest for L = 0);
- bounds of 28 or 80 bytes;
- which header fields each revision reads, and the byte offset of each;
- the shadow-type rule for revisions 9 and 10, and the p1/p2 shadow point
  alias;
- section sizes 4 + 12N, 4 + 8N, 4 + 16N and 4 + 20N (faces clamped at the
  end of the file);
- buckets: no rewind after the material tag, and a material list that holds
  only the tagged buckets;
- texture probes that restore the position, with Texture1 overriding Texture0
  and the name empty otherwise.

## Behaviour worth noting

- `loadStr` clamps the payload to min(64, L-1) bytes. With L = 0 the clamp is
  -1, and `read(-1)` consumes the whole rest of the file
  (`ByteStream.ReadStrZeroPrefix`).
- `read(n)` never fails at the end of the mapping; it returns a short read.
  Only `struct.unpack` in `loadInt`/`loadFloat` fails.
- The material block holds 17 float words: diffuse, specular, specular power,
  emissive and ambient.
- The material lists (`materialName`, `diffuse`, … `textureName`) grow only
  for buckets that carry the material tag. So they are not aligned with
  `flags0`/`vertCount`/`indexCount` (`Buckets.MaterialPosition`,
  `Buckets.MaterialsAligned`).
- `Cleanup` does not reset `objectName`; `start_import` overwrites it when it
  reads the header (`HeaderFormat.HeaderIgnoresName`).

## Model

| member | source | states |
|---|---|---|
| ByteStream.Read | import_god.py:124-126 | `load(n)`: the next `n` bytes, or every remaining byte when fewer remain or `n` is negative; the position advances by the number of bytes returned |
| ByteStream.ReadWord | import_god.py:136-137 | `loadFloat` succeeds exactly when four bytes remain, and yields the little-endian word there |
| ByteStream.ReadInt | import_god.py:139-140 | `loadInt` succeeds exactly when four bytes remain, and yields the two's-complement value of the word there |
| ByteStream.ReadU16 | import_god.py:224 | a 2-byte read never fails; it stops at the end of the data and yields a value below 65536 |
| ByteStream.U16AtLittleEndian | import_god.py:224 | the 16-bit value is `int.from_bytes` of the possibly short 2-byte read |
| ByteStream.WordAtLittleEndian | import_god.py:136-140 | the word a 4-byte load yields is `int.from_bytes` of those four bytes, little end first |
| ByteStream.ReadStr | import_god.py:128-134 | `loadStr` never fails; the name is the bytes from just after the 2-byte prefix up to where the read stops; it is at most 64 bytes long unless the read ran to the end of the data |
| ByteStream.ReadStrConsumes | import_god.py:128-134 | with a prefix L ≥ 1 and the payload present, `loadStr` consumes exactly 2 + min(64, L-1) bytes, yields the bytes after the prefix, and leaves the terminator unread |
| ByteStream.ReadStrZeroPrefix | import_god.py:128-132 | a zero prefix makes the clamp -1, and the read takes every remaining byte |
| ByteStream.ReadStrRoundTrip | import_god.py:128-134 | a name of at most 64 bytes, written with prefix length+1 and a terminator, reads back as exactly that name, with the terminator next |
| ByteStream.EncodeDecodeLE | import_god.py:130 | decoding the k-byte little-endian encoding of v gives v back |
| ByteStream.DecodeEncodeLE | import_god.py:130 | encoding the decoded value of a byte string gives the same bytes back |
| ByteStream.SignedUnsigned | import_god.py:139-140 | the signed reading of a word inverts the encoding of a signed value |
| MemCursor.Cursor.constructor | import_god.py:432-434 | a fresh mapping of the file, positioned at its start |
| MemCursor.Cursor.Tell | import_god.py:296 | `tell()` returns the current position |
| MemCursor.Cursor.Seek | import_god.py:303 | `seek(p)` moves the position to `p` |
| MemCursor.Cursor.ReadBytes | import_god.py:124-126 | the cursor's `read(n)` returns and consumes exactly what `Read` describes |
| MemCursor.Cursor.Skip | import_god.py:267 | a discarded `read(n)` moves the position as `Read` does |
| MemCursor.Cursor.ReadU16LE | import_god.py:224 | `int.from_bytes(read(2), "little")` yields and consumes what `ReadU16` describes |
| MemCursor.Cursor.ReadWord32 | import_god.py:136-137 | `loadFloat` fails exactly when `ReadWord` does; otherwise it yields its word and moves past it |
| MemCursor.Cursor.ReadI32LE | import_god.py:139-140 | `loadInt` fails exactly when `ReadInt` does; otherwise it yields its value and moves past it |
| MemCursor.Cursor.ReadString | import_god.py:128-134 | `loadStr` yields and consumes what `ReadStr` describes |
| MeshRoot.VersionOf | import_god.py:399-423 | the option maps to one of the revisions 1, 2, 3, 5 … 13 |
| MeshRoot.VersionOfBlockName | import_god.py:399-423 | every revision the chain names is selected by `MeshRootBlock<n>` |
| MeshRoot.VersionOfNamesOnly | import_god.py:399-423 | a revision other than 1 is chosen only by its own block name; any other option, "MeshRootBlock4" included, falls back to 1 |
| Records.ReadVec3 | import_god.py:172-175 | three float loads: fail exactly when fewer than 12 bytes remain, else the three words at p, p+4, p+8 |
| Records.ReadUV | import_god.py:196-198 | two float loads: fail exactly when fewer than 8 bytes remain, else the words at p, p+4 |
| Records.ReadColor | import_god.py:207-211 | four int loads in b, g, r, a order: fail exactly when fewer than 16 bytes remain, else the four ints at p … p+12 |
| Records.ReadRgba | import_god.py:269-285 | a material colour fails exactly when fewer than 16 bytes remain, and otherwise takes exactly 16 |
| Records.RgbaInOrder | import_god.py:269-285 | a material colour is four float loads in a row; the first that fails makes it fail |
| Records.ReadTri | import_god.py:227-229 | three 2-byte corner indices at p, p+2, p+4; the position stops at the end of the data |
| Records.ReadFace | import_god.py:224-235 | a face never fails; it takes 20 bytes, clamped at the end of the data, and each of its ten indices is below 65536 |
| Records.ReadFaceInOrder | import_god.py:224-235 | a face is the bucket index, then the vertex, normal and uv index triples, each read where the previous one stopped |
| ArraySections.RecordList | import_god.py:171-175 | the `for` loop of a section: when it succeeds it holds exactly `n` records and ends inside the data |
| ArraySections.Section | import_god.py:166-175 | a count section, when it decodes, holds as many records as its count word says (none for a negative count) |
| ArraySections.Vec3Section | import_god.py:165-187 | `loadArray4_Vertices` / `loadArray4_Normals`: as many triples as the count word says |
| ArraySections.UVSection | import_god.py:189-198 | `loadArray4_UVs`: as many pairs as the count word says |
| ArraySections.ColorSection | import_god.py:200-211 | `loadArray4_Colors`: as many colours as the count word says |
| ArraySections.TotalList | import_god.py:219-240 | the face loop never fails and always holds exactly `n` faces |
| ArraySections.RecordListSize | import_god.py:171-175 | N fixed-size records fit exactly when N·size bytes remain, and then take exactly that many bytes |
| ArraySections.RecordListAt | import_god.py:171-175 | record i is the one decoded at p + size·i |
| ArraySections.RecordListStops | import_god.py:171-175 | once a record fails, every longer run of records fails |
| ArraySections.SectionSize | import_god.py:166-175 | a count section decodes exactly when its count word and Count(count) records fit, and then takes 4 + size·Count(count) bytes |
| ArraySections.SectionAt | import_god.py:166-175 | record i of a count section is decoded at p + 4 + size·i |
| ArraySections.Vec3SectionSize | import_god.py:165-187 | the vertex and normal sections take 4 + 12N bytes, and decode exactly when those bytes are there |
| ArraySections.Vec3SectionAt | import_god.py:171-175 | vertex (or normal) i is the three words at p + 4 + 12i |
| ArraySections.UVSectionSize | import_god.py:189-198 | the uv section takes 4 + 8N bytes, and decodes exactly when they are there |
| ArraySections.UVSectionAt | import_god.py:195-198 | uv pair i is the two words at p + 4 + 8i |
| ArraySections.ColorSectionSize | import_god.py:200-211 | the colour section takes 4 + 16N bytes, and decodes exactly when they are there |
| ArraySections.ColorSectionAt | import_god.py:206-211 | colour i is the four ints at p + 4 + 16i, in b, g, r, a order |
| ArraySections.TotalListSize | import_god.py:219-235 | N never-failing 20-byte records end at p + 20N, clamped to the end of the data |
| ArraySections.TotalListAt | import_god.py:219-240 | face record i is read at p + 20i, clamped to the end of the data |
| ArraySections.FaceSection | import_god.py:213-240 | the face section fails exactly when its count word is missing, and otherwise holds Count(count) faces |
| ArraySections.FaceSectionSize | import_god.py:213-240 | the face section ends at p + 4 + 20N, clamped to the end of the data: a short file still yields N faces |
| ArraySections.FaceSectionAt | import_god.py:219-240 | face i's bucket and nine corner indices are the unsigned 16-bit words from p + 4 + 20i on |
| ArraySections.FaceAtEnd | import_god.py:224-235 | past the end of the data a face reads as all zeros |
| Buckets.TextureName | import_god.py:292-331 | the texture reads of a material need at least the first tag word; from revision 2 on they always read at least the three trailing ints, 12 bytes |
| Buckets.ProbeTexture | import_god.py:296-303 | a probe fails only on a missing word; a different tag restores the position; a match consumes the tag and at least 8 more bytes |
| Buckets.ProbeInOrder | import_god.py:296-303 | the probe is the importer's order of reads: tag, put back when it differs, else name, terminator, type and mip count |
| Buckets.ProbeMatch | import_god.py:297-301 | a well-formed texture block consumes 4 + 2 + min(64, L-1) + 1 + 8 bytes and yields its name |
| Buckets.TextureNone | import_god.py:292-317 | with neither texture tag both probes put the word back: the name stays "" and only the three trailing ints are read, ending at p + 12 |
| Buckets.TextureFirstOnly | import_god.py:295-317 | a Texture0 block alone gives its name |
| Buckets.TextureSecondOnly | import_god.py:305-317 | a Texture1 block alone gives its name |
| Buckets.TextureSecondOverrides | import_god.py:295-317 | with both blocks, the Texture1 name overrides the Texture0 name |
| Buckets.TextureLegacy | import_god.py:318-331 | revision 1: the single texture tag gives its name; any other word is left unread and the name is "" |
| Buckets.LegacyPad | import_god.py:287-290 | revisions 2 to 9 skip three words (clamped at the end of the data); others skip nothing |
| Buckets.MaterialBlock | import_god.py:266-331 | a material's name is the `loadStr` result at its start, and the block takes at least the name, its terminator and the 17 colour words |
| Buckets.MaterialLayout | import_god.py:266-290 | a material's name is the clamped string; its 17 colour words lie right after the terminator; its texture follows the padding |
| Buckets.BucketAt | import_god.py:249-339 | a bucket takes at least 16 bytes; flags0, vertCount and indexCount are the ints at p, p+4, p+8; it has a material exactly when the word at p+12 is the material tag; without one it takes exactly 16 bytes (no rewind) and cannot fail; with one it fails exactly when the material block at p+16 fails, and otherwise holds that block and ends where it ends |
| Buckets.BucketSection | import_god.py:242-248 | the bucket section needs its count word and holds Count(count) buckets |
| Buckets.BucketList | import_god.py:248-339 | the bucket loop, when it succeeds, holds exactly `n` buckets in at least 16n bytes |
| Buckets.BucketListAt | import_god.py:248-339 | bucket i is the one decoded where the first i buckets end |
| Buckets.BucketListStops | import_god.py:248-263 | a failing bucket ends the section; every longer list fails too |
| Buckets.BucketListNext | import_god.py:248-339 | one more bucket extends the list by the bucket read where the list ends |
| Buckets.PlainBuckets | import_god.py:254-263 | N buckets without the material tag take exactly 16N bytes and have no material |
| Buckets.PlainBucketNext | import_god.py:254-263 | a bucket without the tag, where the list ends, adds exactly 16 bytes and a bucket without a material |
| Buckets.Flags0Of | import_god.py:254-260 | `buckys.flags0` has one entry per bucket, at the bucket's own index |
| Buckets.VertCountOf | import_god.py:255-260 | `buckys.vertCount` has one entry per bucket, at the bucket's own index |
| Buckets.IndexCountOf | import_god.py:256-260 | `buckys.indexCount` has one entry per bucket, at the bucket's own index |
| Buckets.MaterialsAligned | import_god.py:258-339 | the material lists are as long as the bucket lists exactly when every bucket carried the material tag |
| Buckets.MaterialPosition | import_god.py:333-339 | bucket i's material is at position "number of earlier tagged buckets" of the material lists, not at i |
| HeaderFormat.Present | import_god.py:443-478 | revision 1 stores only scale, quickLight, shadowPlane and shadowRadius; revision 13 stores every field |
| HeaderFormat.LaterRevisionsKeep | import_god.py:443-478 | a field stored by one revision is stored by every later one |
| HeaderFormat.DecodeBounds | import_god.py:142-163 | `loadBounds` fails exactly when its 28 bytes (80 in revision 1) do not fit, and then ends exactly there |
| HeaderFormat.BoundsLayout | import_god.py:142-163 | after revision 1: radius, width, height, breadth and offset are the seven words in order; revision 1: radius, a 64-byte matrix, three extents, with the offset left as it was |
| HeaderFormat.Apply | import_god.py:443-478 | storing a field of the table changes that field, to the word's float bits, signed int or shadow-type code, and no other field of the table |
| HeaderFormat.ApplyShadowPoint | import_god.py:455-458 | `p1` lies outside the table: the last shadow-point word sets p2.z and makes p1 the same point as p2; every other field leaves p1 as it was |
| HeaderFormat.DecodeFields | import_god.py:443-478 | one word per stored field of the table, in order; the end stays inside the data (its size is DecodeFieldsSize, its values DecodeFieldValue) |
| HeaderFormat.DecodeBody | import_god.py:443-478 | the whole table after the bounds takes exactly four bytes per field the revision stores |
| HeaderFormat.DecodeHeader | import_god.py:437-478 | a decoded header takes at least the 2-byte prefix, the terminator and the bounds (its exact size is HeaderSizeExact) |
| HeaderFormat.HeaderIgnoresName | import_god.py:437-441 | the name held before the decode has no effect on it |
| HeaderFormat.DecodeFieldsSize | import_god.py:443-478 | the fields take four bytes each, and decode exactly when all the fields the revision stores fit |
| HeaderFormat.DecodeFieldValue | import_god.py:443-478 | a stored field holds the word at four bytes per earlier stored field |
| HeaderFormat.DecodeFieldKept | import_god.py:443-478 | a field the revision does not store keeps its value |
| HeaderFormat.DecodeFieldsAppend | import_god.py:443-478 | decoding two runs of fields decodes the first, then the second from where it stopped |
| HeaderFormat.DecodeFieldsKeepPoints | import_god.py:443-478 | fields other than the shadow point leave p1 and p2 alone |
| HeaderFormat.LayoutCount | import_god.py:443-478 | how many fields each revision stores: 4, +2 above 1, +2 above 5, +1 above 7, +1 above 8, +5 above 11, +1 above 12 |
| HeaderFormat.HeaderSizeExact | import_god.py:437-478 | the header decodes exactly when the prefix L is there, L ≥ 1, and 2 + min(64, L-1) + 1 + bounds + 4·fields bytes fit; it ends exactly there |
| HeaderFormat.HeaderParts | import_god.py:441-478 | the header's fields are those decoded at the start of the fields |
| HeaderFormat.FieldsStartAt | import_god.py:437-441 | the fields start after the prefix, the clamped name, the terminator and the bounds |
| HeaderFormat.HeaderSplit | import_god.py:437-478 | the header is the name, then the terminator skip, then the bounds, then the fields, each read where the previous one stopped |
| HeaderFormat.HeaderPrefix | import_god.py:437-441 | a decodable header has a prefix L ≥ 1, its clamped name and its terminator, and bounds that fit |
| HeaderFormat.HeaderFieldLayout | import_god.py:443-478 | every field a revision stores is the word at its offset; every other one keeps its earlier value |
| HeaderFormat.TableFieldAt | import_god.py:443-478 | the same, for the fields decoded from a given position |
| HeaderFormat.FieldOrderDistinct | import_god.py:443-478 | no field is read twice |
| HeaderFormat.ShadowPointsAlias | import_god.py:452-458 | above revision 11 p1 is the same point as p2; older revisions leave both as they were |
| HeaderFormat.TablePoints | import_god.py:452-458 | the same, for the fields decoded from a given position |
| HeaderFormat.PointsStep | import_god.py:455-458 | the three shadow-point words make p1 equal to p2 |
| HeaderFormat.ShadowTypeRule | import_god.py:467-473 | above revision 10 the shadow type is the int read; in revisions 9 and 10 it is 2 when the int is 1 and 0 otherwise; below 9 it is not read |
| HeaderFormat.HeaderName | import_god.py:437 | the object name is the clamped payload after the 2-byte prefix |
| HeaderFormat.FieldStep | import_god.py:443-478 | one more field reads a word exactly when the revision stores it |
| HeaderFormat.FieldsStop | import_god.py:443-478 | once a field fails, decoding further fields fails too |
| HeaderFormat.WalkFieldsDecodes | import_god.py:443-478 | walking the fields one position at a time decodes exactly the table |
| HeaderFormat.WalkStepDecodes | import_god.py:443-478 | the walk and the table take each next field in the same way |
| HeaderFormat.WalkStops | import_god.py:443-478 | once the walk fails it stays failed |
| HeaderFormat.WalkSkip | import_god.py:443-478 | a field the revision does not store leaves the walk where it was |
| HeaderFormat.WalkSkipsShadowInfo | import_god.py:452-458 | before revision 12 none of the shadow-info fields is read |
| SceneFormat.DecodeScene | import_god.py:433-486 | a decodable file is longer than the 52-byte preamble, and the scene's header is the header decoded right after it |
| SceneFormat.Flatten | import_god.py:254-339 | the importer keeps one flags0, vertCount and indexCount per bucket, and at most one material per bucket |
| SceneFormat.DecodeSections | import_god.py:480-486 | a decoded scene keeps the header it was given |
| SceneFormat.NormalsFrom | import_god.py:481-486 | the sections from the normals on keep the header and the vertices already read |
| SceneFormat.UVsFrom | import_god.py:482-486 | the sections from the uvs on keep the header, vertices and normals already read |
| SceneFormat.ColorsFrom | import_god.py:483-486 | the sections from the colours on keep everything read before them |
| SceneFormat.FacesFrom | import_god.py:485-486 | the faces and buckets keep everything read before them |
| SceneFormat.BucketsFrom | import_god.py:486 | the bucket section changes only the buckets of the scene |
| SceneFormat.VerticesFirst | import_god.py:480 | the vertex section comes first: Count(count) vertices in 4 + 12N bytes |
| SceneFormat.NormalsNext | import_god.py:481 | the normal section follows: 4 + 12N bytes |
| SceneFormat.UVsNext | import_god.py:482 | the uv section follows: 4 + 8N bytes |
| SceneFormat.ColorsNext | import_god.py:483 | the colour section follows: 4 + 16N bytes |
| SceneFormat.FacesNext | import_god.py:485 | the face section follows; its count word must be there; its 20N bytes are clamped at the end of the data |
| SceneFormat.BucketsLast | import_god.py:486 | the bucket section comes last and holds Count(count) buckets |
| SceneFormat.SceneHeader | import_god.py:433-441 | a decodable file is longer than its 52-byte preamble, and its header starts right after it |
| SceneFormat.PreambleOnly | import_god.py:433-441 | a file no longer than the preamble never decodes |
| SceneFormat.CountWordMissing | import_god.py:166-243 | a count word cut short by the end of the file makes every section fail, the face section included, although its records never fail |
| SceneFormat.FlattenBuckets | import_god.py:254-339 | the importer's count lists keep bucket i at index i; its material is at the index given by the earlier tagged buckets |
| GodImport.Importer.constructor | import_god.py:53-120 | the class defaults: revision 13, no mapping, every number zero, every list empty |
| GodImport.Importer.Cleanup | import_god.py:341-392 | revision 13, no mapping, bounds, fields and lists reset; the object name kept |
| GodImport.Importer.ClearSections | import_god.py:383-387 | the vertex, normal, uv, colour and face lists are emptied |
| GodImport.Importer.ClearBuckets | import_god.py:388 | the bucket count lists and the material list are emptied |
| GodImport.Importer.LoadVec3 | import_god.py:172-174 | three float loads fail exactly when `ReadVec3` does, and otherwise yield its triple and move past it |
| GodImport.Importer.LoadUV | import_god.py:196-197 | two float loads, as `ReadUV` |
| GodImport.Importer.LoadColor | import_god.py:207-210 | four int loads, as `ReadColor` |
| GodImport.Importer.LoadRgba | import_god.py:269-272 | four float loads, as `ReadRgba` |
| GodImport.Importer.LoadTri | import_god.py:227-229 | three 2-byte reads, as `ReadTri` |
| GodImport.Importer.LoadFace | import_god.py:224-235 | ten 2-byte reads, as `ReadFace` |
| GodImport.Importer.LoadVec3s | import_god.py:171-175 | the `for` loop of triples succeeds exactly when the N records decode, and reads exactly them |
| GodImport.Importer.LoadUVList | import_god.py:195-198 | the `for` loop of uv pairs, as the record list |
| GodImport.Importer.LoadColorList | import_god.py:206-211 | the `for` loop of colours, as the record list |
| GodImport.Importer.LoadFaceList | import_god.py:219-240 | the `for` loop of faces never fails and reads the N faces of the clamped list |
| GodImport.Importer.LoadVertices | import_god.py:165-175 | `loadArray4_Vertices` fails exactly when the section does not decode; otherwise it appends the section's vertices and ends where the section ends |
| GodImport.Importer.LoadNormals | import_god.py:177-187 | `loadArray4_Normals`, as the 4 + 12N section |
| GodImport.Importer.LoadUVs | import_god.py:189-198 | `loadArray4_UVs`, as the 4 + 8N section |
| GodImport.Importer.LoadColors | import_god.py:200-211 | `loadArray4_Colors`, as the 4 + 16N section |
| GodImport.Importer.LoadFaces | import_god.py:213-240 | `loadArray4_Faces` fails only on a missing count word, and appends the section's faces |
| GodImport.Importer.LoadTextureProbe | import_god.py:296-303 | one texture probe, failing exactly when `ProbeTexture` does, and restoring the position on a different tag |
| GodImport.Importer.LoadTextures | import_god.py:292-331 | the texture reads of a material, ending with the name `TextureName` gives |
| GodImport.Importer.LoadMaterial | import_god.py:266-331 | a material block, as `MaterialBlock`, with the revision 2–9 padding |
| GodImport.Importer.LoadBucky | import_god.py:249-339 | one bucket, as `BucketAt` |
| GodImport.Importer.LoadBucketList | import_god.py:248-339 | the bucket loop, failing exactly when one of the N buckets fails |
| GodImport.Importer.LoadBuckys | import_god.py:242-339 | `loadArray4_Buckys` fails exactly when the section does not decode; otherwise it appends one count per bucket to each count list and one entry per tagged bucket to the material list |
| GodImport.Importer.LoadBounds | import_god.py:142-163 | `loadBounds` fails exactly when `DecodeBounds` does; only the bounds change |
| GodImport.Importer.LoadField | import_god.py:443-478 | one field load of the header chain: the walk one field further |
| GodImport.Importer.LoadLighting | import_god.py:443-450 | scale, quickLight, shadowPlane, then envMap and texTimer above revision 1 |
| GodImport.Importer.LoadShadowInfo | import_god.py:452-458 | the render radii and shadow point above revision 11, nothing otherwise |
| GodImport.Importer.LoadRenderRadii | import_god.py:452-454 | the two render radii |
| GodImport.Importer.LoadShadowPoint | import_god.py:455-458 | p2 word by word, then p1 := p2 |
| GodImport.Importer.LoadTail | import_god.py:460-478 | unknown1 above 12, hasTread and hasControl above 5, then the shadow fields |
| GodImport.Importer.LoadShadowFlag | import_god.py:469-473 | revisions 9 and 10: the flag int read, kept as 2 when it is 1 and 0 otherwise |
| GodImport.Importer.LoadShadowType | import_god.py:467-473 | the shadow type as the revision stores it, or nothing below 9 |
| GodImport.Importer.LoadShadow | import_god.py:467-478 | shadow type, shadow radius, and treadPerMeter above revision 7 |
| GodImport.Importer.LoadBody | import_god.py:443-478 | the whole if-chain after the bounds fails exactly when `DecodeBody` does, and otherwise leaves its fields |
| GodImport.Importer.LoadHeader | import_god.py:437-478 | name, terminator skip, bounds and fields: exactly `DecodeHeader` |
| GodImport.Importer.LoadSections | import_god.py:480-486 | the six sections, into empty lists, fail exactly when `DecodeSections` does; otherwise the lists are the flattened scene |
| GodImport.Importer.LoadFromNormals | import_god.py:481-486 | the sections from the normals on, after the vertices held |
| GodImport.Importer.LoadFromUVs | import_god.py:482-486 | the sections from the uvs on |
| GodImport.Importer.LoadFromColors | import_god.py:483-486 | the sections from the colours on |
| GodImport.Importer.LoadFromFaces | import_god.py:485-486 | the faces, then the buckets |
| GodImport.Importer.LoadFile | import_god.py:433-486 | after the preamble skip, the header and sections decode exactly the files `DecodeScene` accepts, and leave the importer holding the flattened scene |
| GodImport.Importer.StartImport | import_god.py:394-486 | `start_import`'s decode: the revision from the option, then success exactly when `DecodeScene` succeeds, with the importer holding the flattened scene |
| GodImport.ImportFile | import_god.py:394-488 | on a fresh importer, an import yields the flattened scene exactly when the file decodes |

## Left out

- The Blender section (import_god.py:490-580) is not modelled: mesh, uv layer, material and texture node creation, the mirroring and the rotation.
- File I/O is not modelled. The file's bytes are a parameter: `open`, `read`, `mmap`, `close`, the `filePath` option and the `streambuffer` copy.
- `streamsize`, `initPtr`, `vertToState`, `planes` and `stateMats` are not modelled: the decode never reads them, and `Cleanup`'s `stateMats` assignment is to a local. `mapPointer` and `memPtr` are one object (import_god.py:432-434); the `Cursor` models both, including the preamble read through `mapPointer`.
- `MAX_VERTS`, `MAX_TRIS`, `MAX_BUCKYS` and `MAX_MESHPERGROUP` are not modelled: the code declares them and never enforces them.
- ByteStream.ReadStr: names are kept as bytes; the `UnicodeDecodeError` that `.decode()` raises on bytes that are not UTF-8 is not modelled.
- MemCursor.Cursor.ReadString: the same; it never fails on non-UTF-8 names.
- ByteStream.ReadWord: `loadFloat` unpacks with `struct.unpack('f')`, which uses the host's native byte order; the model fixes little-endian, which is what it reads on a little-endian host.
- ByteStream.ReadInt: the same for `loadInt` and `struct.unpack('i')`.
- Floating point is not modelled: floats are their raw 32-bit words, with no NaN or rounding semantics.
- HeaderFormat.Apply: `texTimer` keeps the int read; the multiplication by 0.001 into a float is not modelled.
- The texture type, mip map count, team colour, environment map and overlay words are read and discarded, as in the code; their values are not kept.
- Partial state after an exception is not modelled. When a load fails, the loaders' contracts say nothing about the lists or header fields the code had already changed. For example, a bucket's three counts are appended before its tag is read, and bounds are assigned one word at a time.
- GodImport.Importer.LoadVec3s: the loop collects the records and the caller appends them once after the loop, not record by record. The same holds for LoadUVList, LoadColorList, LoadFaceList and LoadBucketList; on success the lists are the same.
- The face lists (`faces.verts`, `norms`, `uvs`, `buckyIndex`) are one sequence of `Face` values; `vtx` and `index`, never filled, are left out.
- The per-material lists (`materialName` … `textureName`) are one sequence of `Material` values.
- HeaderFormat.Apply: `shadowInfo_p1 = shadowInfo_p2` makes the two names share one list. The model copies the point; later writes through one name are not seen through the other, and the decode makes none.
- The importer's header fields are class attributes written one by one. The model keeps them as one `Header` value that each loader replaces.
