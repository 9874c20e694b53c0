/**
 * The bucket section (`loadArray4_Buckys`): a count, then for each bucket
 * three ints and a tag word.  When the tag is the material tag a material
 * block follows: name, four colours and a specular power, legacy padding, and
 * the texture probes.  A bucket without the tag has no material, and the tag
 * word is consumed all the same.
 */
module Buckets {
  import opened Wrappers
  import opened ByteStream
  import opened Records

  /** 0x9709513E, "Material", read as a signed int. */
  const MATERIAL_TAG: Int32 := -1760997058
  /** 0xF644CB33, "Texture0". */
  const TEXTURE0_TAG: Int32 := -163263693
  /** 0xF285D684, "Texture1". */
  const TEXTURE1_TAG: Int32 := -226109820
  /** 0x7951FC0B, "Texture": the single texture of revision-1 files. */
  const TEXTURE_TAG: Int32 := 2035416075

  /** The bytes of a texture block after its tag: prefix, name, terminator, type and mip count. */
  const TEXTURE_TAIL: nat := 2 + 1 + 8

  /** The per-material values the importer appends to its bucket lists. */
  datatype Material = Material(
    name: seq<byte>,
    diffuse: Rgba,
    specular: Rgba,
    specularPower: Word,
    emissive: Rgba,
    ambient: Rgba,
    texture: seq<byte>)

  datatype Bucket = Bucket(flags0: Int32, vertCount: Int32, indexCount: Int32, material: Option<Material>)

  // ---------------------------------------------------------------------------
  // Textures

  /** One texture probe: read a tag; on a match read the name, its
      terminator, the type and the mip count; otherwise seek back to where
      the tag started.  Only the loads can fail. */
  function ProbeTexture(data: seq<byte>, p: nat, tag: Int32): (r: Option<Parsed<Option<seq<byte>>>>)
    requires p <= |data|
    ensures r.Some? ==> p + WORD_SIZE <= |data| && p <= r.value.next <= |data|
    ensures p + WORD_SIZE <= |data| && IntAt(data, p) != tag ==> r == Some(Parsed(None, p))
    ensures r.Some? && r.value.value.Some? ==> IntAt(data, p) == tag && p + WORD_SIZE + 8 <= r.value.next
  {
    if |data| < p + WORD_SIZE then None
    else if IntAt(data, p) != tag then Some(Parsed(None, p))
    else
      var name := ReadStr(data, p + WORD_SIZE);
      var terminator := Min(name.next + 1, |data|);
      if |data| < terminator + 2 * WORD_SIZE then None
      else Some(Parsed(Some(name.value), terminator + 2 * WORD_SIZE))
  }

  /** The probe read in the order `loadArray4_Buckys` reads it: the tag (put
      back when it differs), the name, its terminator, the texture type and the
      mip map count. */
  lemma ProbeInOrder(data: seq<byte>, p: nat, tag: Int32)
    requires p <= |data|
    ensures ProbeTexture(data, p, tag) ==
      var t :- ReadInt(data, p);
      if t.value != tag then Some(Parsed(None, p))
      else
        var name := ReadStr(data, t.next);
        var terminator := Read(data, name.next, 1);
        var kind :- ReadInt(data, terminator.next);
        var mips :- ReadInt(data, kind.next);
        Some(Parsed(Some(name.value), mips.next))
  {
  }

  /** Where a matching texture block at `q` ends, for a name prefix of at least 1. */
  function ProbeEnd(data: seq<byte>, q: nat): int {
    q + WORD_SIZE + TEXTURE_TAIL + StrPayload(U16At(data, q + WORD_SIZE))
  }

  /** The name a matching texture block at `q` carries. */
  function ProbeName(data: seq<byte>, q: nat): seq<byte>
    requires q + WORD_SIZE + 2 + StrPayload(U16At(data, q + WORD_SIZE)) <= |data|
    requires StrPayload(U16At(data, q + WORD_SIZE)) >= 0
  {
    data[q + WORD_SIZE + 2..q + WORD_SIZE + 2 + StrPayload(U16At(data, q + WORD_SIZE))]
  }

  /** A well-formed texture block: the tag, a name of prefix L >= 1 with its
      terminator, type and mip count, all within the data. */
  predicate TextureBlock(data: seq<byte>, q: nat, tag: Int32) {
    q + WORD_SIZE + 2 <= |data| && IntAt(data, q) == tag &&
    U16At(data, q + WORD_SIZE) >= 1 && ProbeEnd(data, q) <= |data|
  }

  /** A matching probe consumes 4 + 2 + min(64, L - 1) + 1 + 8 bytes and yields the name. */
  lemma ProbeMatch(data: seq<byte>, q: nat, tag: Int32)
    requires TextureBlock(data, q, tag)
    ensures ProbeTexture(data, q, tag) == Some(Parsed(Some(ProbeName(data, q)), ProbeEnd(data, q)))
  {
    ReadStrConsumes(data, q + WORD_SIZE);
  }

  /** The texture name the material keeps: a Texture1 block overrides a
      Texture0 block; with neither it is empty. */
  function ChosenTexture(t0: Option<seq<byte>>, t1: Option<seq<byte>>): seq<byte> {
    if t1.Some? then t1.value else if t0.Some? then t0.value else []
  }

  /** The textures of a material.  Revisions after 1 probe for Texture0, then
      for Texture1, then read team colour, environment map and overlay ints;
      revision 1 probes for its single texture. */
  function TextureName(data: seq<byte>, p: nat, v: int): (r: Option<Parsed<seq<byte>>>)
    requires p <= |data|
    ensures r.Some? ==> p + WORD_SIZE <= |data| && p <= r.value.next <= |data|
    ensures r.Some? && v > 1 ==> p + 3 * WORD_SIZE <= r.value.next
  {
    if v > 1 then
      var t0 :- ProbeTexture(data, p, TEXTURE0_TAG);
      var t1 :- ProbeTexture(data, t0.next, TEXTURE1_TAG);
      var teamColor :- ReadInt(data, t1.next);
      var envMap :- ReadInt(data, teamColor.next);
      var overlay :- ReadInt(data, envMap.next);
      Some(Parsed(ChosenTexture(t0.value, t1.value), overlay.next))
    else
      var t :- ProbeTexture(data, p, TEXTURE_TAG);
      Some(Parsed(ChosenTexture(None, t.value), t.next))
  }

  /** Neither texture tag: the name stays empty, and the probes restore the
      position, so the three trailing ints are the 12 bytes at `p`. */
  lemma TextureNone(data: seq<byte>, p: nat, v: int)
    requires v > 1 && p + 12 <= |data|
    requires IntAt(data, p) != TEXTURE0_TAG && IntAt(data, p) != TEXTURE1_TAG
    ensures TextureName(data, p, v) == Some(Parsed([], p + 12))
  {
  }

  /** A Texture0 block alone: its name is kept. */
  lemma TextureFirstOnly(data: seq<byte>, p: nat, v: int)
    requires v > 1 && TextureBlock(data, p, TEXTURE0_TAG)
    requires ProbeEnd(data, p) + 12 <= |data| && IntAt(data, ProbeEnd(data, p)) != TEXTURE1_TAG
    ensures TextureName(data, p, v) == Some(Parsed(ProbeName(data, p), ProbeEnd(data, p) + 12))
  {
    ProbeMatch(data, p, TEXTURE0_TAG);
  }

  /** A Texture1 block alone (no Texture0 before it): its name is kept. */
  lemma TextureSecondOnly(data: seq<byte>, p: nat, v: int)
    requires v > 1 && TextureBlock(data, p, TEXTURE1_TAG)
    requires ProbeEnd(data, p) + 12 <= |data|
    ensures TextureName(data, p, v) == Some(Parsed(ProbeName(data, p), ProbeEnd(data, p) + 12))
  {
    ProbeMatch(data, p, TEXTURE1_TAG);
  }

  /** Both blocks: the Texture1 name overrides the Texture0 name. */
  lemma TextureSecondOverrides(data: seq<byte>, p: nat, v: int)
    requires v > 1 && TextureBlock(data, p, TEXTURE0_TAG)
    requires TextureBlock(data, ProbeEnd(data, p), TEXTURE1_TAG)
    requires ProbeEnd(data, ProbeEnd(data, p)) + 12 <= |data|
    ensures var q := ProbeEnd(data, p);
      TextureName(data, p, v) == Some(Parsed(ProbeName(data, q), ProbeEnd(data, q) + 12))
  {
    var q := ProbeEnd(data, p);
    ProbeMatch(data, p, TEXTURE0_TAG);
    ProbeMatch(data, q, TEXTURE1_TAG);
  }

  /** Revision 1: the single texture tag gives its name; any other word is
      left unread and the name is empty. */
  lemma TextureLegacy(data: seq<byte>, p: nat, v: int)
    requires v <= 1 && p + WORD_SIZE <= |data|
    ensures IntAt(data, p) != TEXTURE_TAG ==> TextureName(data, p, v) == Some(Parsed([], p))
    ensures TextureBlock(data, p, TEXTURE_TAG) ==>
      TextureName(data, p, v) == Some(Parsed(ProbeName(data, p), ProbeEnd(data, p)))
  {
    if TextureBlock(data, p, TEXTURE_TAG) {
      ProbeMatch(data, p, TEXTURE_TAG);
    }
  }

  // ---------------------------------------------------------------------------
  // Materials and buckets

  /** Revisions 2 to 9 pad the material with three unused words (three `read(4)`s). */
  function LegacyPad(data: seq<byte>, p: nat, v: int): (q: nat)
    requires p <= |data|
    ensures q == if 1 < v < 10 then Min(p + 12, |data|) else p
  {
    if 1 < v < 10 then Read(data, Read(data, Read(data, p, 4).next, 4).next, 4).next
    else p
  }

  /** The material block after a material tag. */
  function MaterialBlock(data: seq<byte>, p: nat, v: int): (r: Option<Parsed<Material>>)
    requires p <= |data|
    ensures r.Some? ==> p <= r.value.next <= |data|
    ensures r.Some? ==> r.value.value.name == ReadStr(data, p).value
    ensures r.Some? ==> ReadStr(data, p).next + 1 + COLOURS_SIZE <= r.value.next
  {
    var name := ReadStr(data, p);
    var terminator := Read(data, name.next, 1);
    var diffuse :- ReadRgba(data, terminator.next);
    var specular :- ReadRgba(data, diffuse.next);
    var power :- ReadWord(data, specular.next);
    var emissive :- ReadRgba(data, power.next);
    var ambient :- ReadRgba(data, emissive.next);
    var texture :- TextureName(data, LegacyPad(data, ambient.next, v), v);
    Some(Parsed(Material(name.value, diffuse.value, specular.value, power.value,
                         emissive.value, ambient.value, texture.value), texture.next))
  }

  /** Bytes of the colour block: diffuse, specular, power, emissive, ambient. */
  const COLOURS_SIZE: nat := 17 * WORD_SIZE

  /** The colour words of a material lie right after its name's terminator,
      seventeen words in a row. */
  lemma MaterialLayout(data: seq<byte>, p: nat, v: int)
    requires p <= |data| && MaterialBlock(data, p, v).Some?
    ensures var m := MaterialBlock(data, p, v).value;
      var name := ReadStr(data, p);
      var q := Read(data, name.next, 1).next;
      m.value.name == name.value &&
      q + COLOURS_SIZE <= |data| &&
      m.value.diffuse == Rgba(WordAt(data, q), WordAt(data, q + 4), WordAt(data, q + 8), WordAt(data, q + 12)) &&
      m.value.specular == Rgba(WordAt(data, q + 16), WordAt(data, q + 20), WordAt(data, q + 24), WordAt(data, q + 28)) &&
      m.value.specularPower == WordAt(data, q + 32) &&
      m.value.emissive == Rgba(WordAt(data, q + 36), WordAt(data, q + 40), WordAt(data, q + 44), WordAt(data, q + 48)) &&
      m.value.ambient == Rgba(WordAt(data, q + 52), WordAt(data, q + 56), WordAt(data, q + 60), WordAt(data, q + 64)) &&
      TextureName(data, LegacyPad(data, q + COLOURS_SIZE, v), v) == Some(Parsed(m.value.texture, m.next))
  {
  }

  /** One bucket: flags0, vertex count, index count, the tag word, and a
      material block when the tag is the material tag.  There is no seek
      back: a bucket without a material takes exactly 16 bytes. */
  function BucketAt(data: seq<byte>, p: nat, v: int): (r: Option<Parsed<Bucket>>)
    requires p <= |data|
    ensures r.Some? ==> p + 16 <= r.value.next <= |data|
    ensures r.Some? ==>
      r.value.value.flags0 == IntAt(data, p) &&
      r.value.value.vertCount == IntAt(data, p + 4) &&
      r.value.value.indexCount == IntAt(data, p + 8) &&
      (r.value.value.material.Some? <==> IntAt(data, p + 12) == MATERIAL_TAG) &&
      (r.value.value.material.None? ==> r.value.next == p + 16)
    ensures p + 16 <= |data| && IntAt(data, p + 12) != MATERIAL_TAG ==> r.Some?
    ensures p + 16 <= |data| && IntAt(data, p + 12) == MATERIAL_TAG ==>
      var m := MaterialBlock(data, p + 16, v);
      (r.Some? <==> m.Some?) &&
      (r.Some? ==> r.value.value.material == Some(m.value.value) && r.value.next == m.value.next)
  {
    var flags0 :- ReadInt(data, p);
    var vertCount :- ReadInt(data, flags0.next);
    var indexCount :- ReadInt(data, vertCount.next);
    var tag :- ReadInt(data, indexCount.next);
    if tag.value == MATERIAL_TAG then
      var m :- MaterialBlock(data, tag.next, v);
      Some(Parsed(Bucket(flags0.value, vertCount.value, indexCount.value, Some(m.value)), m.next))
    else
      Some(Parsed(Bucket(flags0.value, vertCount.value, indexCount.value, None), tag.next))
  }

  /** BucketAt as a reader value for the list lemmas. */
  function BucketReader(v: int): (seq<byte>, nat) --> Option<Parsed<Bucket>> {
    (d: seq<byte>, q: nat) requires q <= |d| => BucketAt(d, q, v)
  }

  /** `read` may fail, and otherwise consumes at least `min` bytes. */
  ghost predicate Advancing<T>(data: seq<byte>, min: nat, read: (seq<byte>, nat) --> Option<Parsed<T>>) {
    forall q: nat :: q <= |data| ==>
      read.requires(data, q) && (read(data, q).Some? ==> q + min <= read(data, q).value.next <= |data|)
  }

  lemma BucketsAdvance(data: seq<byte>, v: int)
    ensures Advancing(data, 16, BucketReader(v))
  {
  }

  /** `n` variable-size records read one after the other from `p`. */
  function ReadList<T>(data: seq<byte>, p: nat, n: nat, min: nat, read: (seq<byte>, nat) --> Option<Parsed<T>>)
    : (r: Option<Parsed<seq<T>>>)
    requires p <= |data|
    requires Advancing(data, min, read)
    ensures r.Some? ==> |r.value.value| == n && p + min * n <= r.value.next <= |data|
  {
    if n == 0 then Some(Parsed([], p))
    else
      var prev :- ReadList(data, p, n - 1, min, read);
      var x :- read(data, prev.next);
      Some(Parsed(prev.value + [x.value], x.next))
  }

  /** `n` buckets read one after the other from `p`. */
  function BucketList(data: seq<byte>, p: nat, v: int, n: nat): (r: Option<Parsed<seq<Bucket>>>)
    requires p <= |data|
    ensures r.Some? ==> |r.value.value| == n && p + 16 * n <= r.value.next <= |data|
  {
    BucketsAdvance(data, v);
    ReadList(data, p, n, 16, BucketReader(v))
  }

  /** `loadArray4_Buckys`: a count, then that many buckets. */
  function BucketSection(data: seq<byte>, p: nat, v: int): (r: Option<Parsed<seq<Bucket>>>)
    requires p <= |data|
    ensures r.Some? ==> p + WORD_SIZE <= |data| && r.value.next <= |data|
    ensures r.Some? ==> |r.value.value| == Count(IntAt(data, p))
  {
    var count :- ReadInt(data, p);
    BucketList(data, count.next, v, Count(count.value))
  }

  /** A shorter list is a prefix of a longer one. */
  lemma {:induction false} ReadListPrefix<T>(data: seq<byte>, p: nat, k: nat, n: nat, min: nat,
                                            read: (seq<byte>, nat) --> Option<Parsed<T>>)
    requires p <= |data| && k <= n
    requires Advancing(data, min, read)
    requires ReadList(data, p, n, min, read).Some?
    ensures ReadList(data, p, k, min, read).Some?
    ensures ReadList(data, p, k, min, read).value.value == ReadList(data, p, n, min, read).value.value[..k]
  {
    if k < n {
      ReadListPrefix(data, p, k, n - 1, min, read);
      var prev := ReadList(data, p, n - 1, min, read).value;
      assert ReadList(data, p, n, min, read).value.value[..n - 1] == prev.value;
    }
  }

  /** After a failing read, every longer list fails too. */
  lemma {:induction false} ReadListStops<T>(data: seq<byte>, p: nat, k: nat, n: nat, min: nat,
                                           read: (seq<byte>, nat) --> Option<Parsed<T>>)
    requires p <= |data| && k < n
    requires Advancing(data, min, read)
    requires ReadList(data, p, k, min, read).Some?
    requires read(data, ReadList(data, p, k, min, read).value.next).None?
    ensures ReadList(data, p, n, min, read).None?
  {
    if n - 1 > k {
      ReadListStops(data, p, k, n - 1, min, read);
    }
  }

  /** Bucket `i` is the one decoded where the first `i` buckets end. */
  lemma BucketListAt(data: seq<byte>, p: nat, v: int, n: nat, i: nat)
    requires p <= |data| && i < n
    requires BucketList(data, p, v, n).Some?
    ensures BucketList(data, p, v, i).Some?
    ensures BucketAt(data, BucketList(data, p, v, i).value.next, v).Some?
    ensures BucketAt(data, BucketList(data, p, v, i).value.next, v).value.value ==
      BucketList(data, p, v, n).value.value[i]
  {
    BucketsAdvance(data, v);
    ReadListPrefix(data, p, i + 1, n, 16, BucketReader(v));
    var whole := BucketList(data, p, v, n).value.value;
    assert whole[..i + 1][i] == whole[i];
  }

  /** A failing bucket ends the section: every longer list fails too. */
  lemma BucketListStops(data: seq<byte>, p: nat, v: int, k: nat, n: nat)
    requires p <= |data| && k < n
    requires BucketList(data, p, v, k).Some?
    requires BucketAt(data, BucketList(data, p, v, k).value.next, v).None?
    ensures BucketList(data, p, v, n).None?
  {
    BucketsAdvance(data, v);
    ReadListStops(data, p, k, n, 16, BucketReader(v));
  }

  /** Buckets without materials take exactly 16 bytes each. */
  lemma {:induction false} PlainBuckets(data: seq<byte>, p: nat, v: int, n: nat)
    requires p + 16 * n <= |data|
    requires forall i :: 0 <= i < n ==> IntAt(data, p + 16 * i + 12) != MATERIAL_TAG
    ensures BucketList(data, p, v, n).Some?
    ensures BucketList(data, p, v, n).value.next == p + 16 * n
    ensures forall b :: b in BucketList(data, p, v, n).value.value ==> b.material.None?
  {
    if n > 0 {
      PlainBuckets(data, p, v, n - 1);
      assert IntAt(data, p + 16 * (n - 1) + 12) != MATERIAL_TAG;
      PlainBucketNext(data, p, v, n - 1);
    }
  }

  /** The step of PlainBuckets: a bucket without a material right where the
      list ends adds exactly 16 bytes and that bucket. */
  lemma PlainBucketNext(data: seq<byte>, p: nat, v: int, n: nat)
    requires p + 16 * (n + 1) <= |data|
    requires BucketList(data, p, v, n).Some? && BucketList(data, p, v, n).value.next == p + 16 * n
    requires IntAt(data, p + 16 * n + 12) != MATERIAL_TAG
    ensures var prev := BucketList(data, p, v, n).value.value;
      var r := BucketList(data, p, v, n + 1);
      r.Some? && r.value.next == p + 16 * (n + 1) &&
      r.value.value == prev + [r.value.value[n]] && r.value.value[n].material.None?
  {
    BucketListNext(data, p, v, n);
  }

  /** One more bucket extends the list by the bucket read where the list ends. */
  lemma BucketListNext(data: seq<byte>, p: nat, v: int, n: nat)
    requires p <= |data| && BucketList(data, p, v, n).Some?
    ensures var prev := BucketList(data, p, v, n).value;
      var x := BucketAt(data, prev.next, v);
      BucketList(data, p, v, n + 1) == if x.None? then None else Some(Parsed(prev.value + [x.value.value], x.value.next))
  {
  }

  // ---------------------------------------------------------------------------
  // The importer's bucket lists

  /** `buckys.flags0`, `buckys.vertCount`, `buckys.indexCount`: one entry per bucket. */
  function Flags0Of(bs: seq<Bucket>): (r: seq<Int32>)
    ensures |r| == |bs| && forall i :: 0 <= i < |bs| ==> r[i] == bs[i].flags0
  {
    if bs == [] then [] else Flags0Of(bs[..|bs| - 1]) + [bs[|bs| - 1].flags0]
  }

  function VertCountOf(bs: seq<Bucket>): (r: seq<Int32>)
    ensures |r| == |bs| && forall i :: 0 <= i < |bs| ==> r[i] == bs[i].vertCount
  {
    if bs == [] then [] else VertCountOf(bs[..|bs| - 1]) + [bs[|bs| - 1].vertCount]
  }

  function IndexCountOf(bs: seq<Bucket>): (r: seq<Int32>)
    ensures |r| == |bs| && forall i :: 0 <= i < |bs| ==> r[i] == bs[i].indexCount
  {
    if bs == [] then [] else IndexCountOf(bs[..|bs| - 1]) + [bs[|bs| - 1].indexCount]
  }

  /** The material lists: one entry per bucket that carried the material
      tag, in bucket order. */
  function MaterialsOf(bs: seq<Bucket>): (r: seq<Material>)
    ensures |r| <= |bs|
  {
    if bs == [] then []
    else
      var last := bs[|bs| - 1];
      MaterialsOf(bs[..|bs| - 1]) + if last.material.Some? then [last.material.value] else []
  }

  /** The material lists are as long as the bucket lists exactly when every
      bucket carried a material. */
  lemma {:induction false} MaterialsAligned(bs: seq<Bucket>)
    ensures |MaterialsOf(bs)| == |bs| <==> forall i :: 0 <= i < |bs| ==> bs[i].material.Some?
  {
    if bs != [] {
      var init := bs[..|bs| - 1];
      MaterialsAligned(init);
      assert forall i :: 0 <= i < |init| ==> init[i] == bs[i];
    }
  }

  /** The material of bucket `i` sits at position "number of earlier buckets
      with a material" of the material lists, not at position `i`. */
  lemma {:induction false} MaterialPosition(bs: seq<Bucket>, i: nat)
    requires i < |bs| && bs[i].material.Some?
    ensures |MaterialsOf(bs[..i])| < |MaterialsOf(bs)|
    ensures MaterialsOf(bs)[|MaterialsOf(bs[..i])|] == bs[i].material.value
  {
    var init := bs[..|bs| - 1];
    if i < |bs| - 1 {
      MaterialPosition(init, i);
      assert init[..i] == bs[..i];
    } else {
      assert init == bs[..i];
    }
  }
}
