/**
 * The scene header: object name, bounds, and the version-gated fields that
 * follow.  The fields after the bounds are described by a table of the
 * fields, in file order, and the revisions that store each of them.  `DecodeFields` walks that table; the importer's
 * if-chain is proved to read exactly the same thing.
 */
module HeaderFormat {
  import opened Wrappers
  import opened ByteStream
  import opened Records

  /** dataPos: the header starts after a 52-byte preamble that is skipped unread. */
  const DATA_POS: nat := 52

  /** The unused transform matrix that revision-1 bounds carry after the radius. */
  const MATRIX_SIZE: nat := 64

  const Origin: Vec3 := Vec3(0, 0, 0)

  datatype Bounds = Bounds(radius: Word, width: Word, height: Word, breadth: Word, offset: Vec3)

  /** The fields that follow the bounds; which of them a file stores depends on its revision. */
  datatype Body = Body(
    scale: Word,
    quickLight: Int32,
    shadowPlane: Int32,
    envMap: Int32,
    texTimer: Int32,
    radxRender: Word,
    radyRender: Word,
    p1: Vec3,
    p2: Vec3,
    unknown1: Word,
    hasTread: Int32,
    hasControl: Int32,
    shadowType: Int32,
    shadowRadius: Word,
    treadPerMeter: Word)

  datatype Header = Header(objectName: seq<byte>, bounds: Bounds, body: Body)

  /** The header as `Cleanup` leaves it: every number zero (the word of 0.0 is 0). */
  const Cleared: Header :=
    Header([], Bounds(0, 0, 0, 0, Origin), Body(0, 0, 0, 0, 0, 0, 0, Origin, Origin, 0, 0, 0, 0, 0, 0))

  // ---------------------------------------------------------------------------
  // Bounds

  /** Bytes of the bounds block: seven words, or radius + matrix + three words in revision 1. */
  function BoundsSize(v: int): nat {
    if v > 1 then 28 else 80
  }

  /** `loadBounds`: fails exactly when the block does not fit. */
  function DecodeBounds(data: seq<byte>, p: nat, v: int, b0: Bounds): (r: Option<Parsed<Bounds>>)
    requires p <= |data|
    ensures r.Some? <==> p + BoundsSize(v) <= |data|
    ensures r.Some? ==> r.value.next == p + BoundsSize(v)
  {
    if v > 1 then
      var radius :- ReadWord(data, p);
      var width :- ReadWord(data, radius.next);
      var height :- ReadWord(data, width.next);
      var breadth :- ReadWord(data, height.next);
      var offset :- ReadVec3(data, breadth.next);
      Some(Parsed(Bounds(radius.value, width.value, height.value, breadth.value, offset.value), offset.next))
    else
      var radius :- ReadWord(data, p);
      var matrix := Read(data, radius.next, MATRIX_SIZE);
      var width :- ReadWord(data, matrix.next);
      var height :- ReadWord(data, width.next);
      var breadth :- ReadWord(data, height.next);
      Some(Parsed(Bounds(radius.value, width.value, height.value, breadth.value, b0.offset), breadth.next))
  }

  /** Where each bounds word lies.  Revision 1 has the radius, a 64-byte matrix
      and three extents, and keeps the offset it had; later revisions have the
      radius, three extents and the offset. */
  lemma BoundsLayout(data: seq<byte>, p: nat, v: int, b0: Bounds)
    requires p <= |data|
    requires DecodeBounds(data, p, v, b0).Some?
    ensures var b := DecodeBounds(data, p, v, b0).value.value;
      b.radius == WordAt(data, p) &&
      (v > 1 ==>
        b.width == WordAt(data, p + 4) && b.height == WordAt(data, p + 8) && b.breadth == WordAt(data, p + 12) &&
        b.offset == Vec3(WordAt(data, p + 16), WordAt(data, p + 20), WordAt(data, p + 24))) &&
      (v <= 1 ==>
        b.width == WordAt(data, p + 68) && b.height == WordAt(data, p + 72) && b.breadth == WordAt(data, p + 76) &&
        b.offset == b0.offset)
  {
  }

  // ---------------------------------------------------------------------------
  // The version policy for the fields after the bounds

  datatype Field =
    | Scale | QuickLight | ShadowPlane | EnvMap | TexTimer
    | RadxRender | RadyRender | P2X | P2Y | P2Z | Unknown1
    | HasTread | HasControl | ShadowType | ShadowRadius | TreadPerMeter

  /** The order in which the fields follow one another in the file. */
  const FieldOrder: seq<Field> :=
    [Scale, QuickLight, ShadowPlane, EnvMap, TexTimer, RadxRender, RadyRender, P2X, P2Y, P2Z,
     Unknown1, HasTread, HasControl, ShadowType, ShadowRadius, TreadPerMeter]

  /** Whether revision `v` stores field `f`.  Revision 1 stores only the four
      fields every revision has; revision 13 stores all of them. */
  predicate Present(f: Field, v: int)
    ensures v <= 1 ==> (Present(f, v) <==> f in {Scale, QuickLight, ShadowPlane, ShadowRadius})
    ensures v >= 13 ==> Present(f, v)
  {
    match f
    case EnvMap | TexTimer => v > 1
    case RadxRender | RadyRender | P2X | P2Y | P2Z => v > 11
    case Unknown1 => v > 12
    case HasTread | HasControl => v > 5
    case ShadowType => v > 8
    case TreadPerMeter => v > 7
    case _ => true
  }

  /** A later revision stores every field an earlier one does: revisions only
      add fields. */
  lemma LaterRevisionsKeep(f: Field, v: int, w: int)
    requires v <= w && Present(f, v)
    ensures Present(f, w)
  {
  }

  /** The value the header keeps from the word `w` read for field `f`: a float's
      raw bits, an int's signed value; revisions 9 and 10 store a yes/no shadow
      flag, kept as shadow type 2 (semi-live) when it is 1 and 0 (oval) otherwise. */
  function Stored(f: Field, v: int, w: Word): int {
    match f
    case QuickLight | ShadowPlane | EnvMap | TexTimer | HasTread | HasControl => Signed(w)
    case ShadowType => if v > 10 then Signed(w) else if Signed(w) == 1 then 2 else 0
    case _ => w
  }

  /** The header's value for field `f`. */
  function Get(h: Body, f: Field): int {
    match f
    case Scale => h.scale
    case QuickLight => h.quickLight
    case ShadowPlane => h.shadowPlane
    case EnvMap => h.envMap
    case TexTimer => h.texTimer
    case RadxRender => h.radxRender
    case RadyRender => h.radyRender
    case P2X => h.p2.x
    case P2Y => h.p2.y
    case P2Z => h.p2.z
    case Unknown1 => h.unknown1
    case HasTread => h.hasTread
    case HasControl => h.hasControl
    case ShadowType => h.shadowType
    case ShadowRadius => h.shadowRadius
    case TreadPerMeter => h.treadPerMeter
  }

  /** Store the word read for field `f`.  The last shadow-point word also makes
      p1 the same point as p2. */
  function Apply(h: Body, f: Field, v: int, w: Word): (r: Body)
    ensures forall g :: Get(r, g) == if g == f then Stored(f, v, w) else Get(h, g)
  {
    match f
    case Scale => h.(scale := w)
    case QuickLight => h.(quickLight := Signed(w))
    case ShadowPlane => h.(shadowPlane := Signed(w))
    case EnvMap => h.(envMap := Signed(w))
    case TexTimer => h.(texTimer := Signed(w))
    case RadxRender => h.(radxRender := w)
    case RadyRender => h.(radyRender := w)
    case P2X => h.(p2 := h.p2.(x := w))
    case P2Y => h.(p2 := h.p2.(y := w))
    case P2Z => var p2 := h.p2.(z := w); h.(p2 := p2, p1 := p2)
    case Unknown1 => h.(unknown1 := w)
    case HasTread => h.(hasTread := Signed(w))
    case HasControl => h.(hasControl := Signed(w))
    case ShadowType => h.(shadowType := if v > 10 then Signed(w) else if Signed(w) == 1 then 2 else 0)
    case ShadowRadius => h.(shadowRadius := w)
    case TreadPerMeter => h.(treadPerMeter := w)
  }

  /** `p1` is not a field of the table: it is set only by the last shadow-point
      word, which makes it the same point as `p2`; every other field leaves it. */
  lemma ApplyShadowPoint(h: Body, f: Field, v: int, w: Word)
    ensures var r := Apply(h, f, v, w);
      (f == P2Z ==> r.p1 == r.p2 && r.p2 == h.p2.(z := w)) && (f != P2Z ==> r.p1 == h.p1)
  {
  }

  /** The fields of `fs` that revision `v` stores, in order. */
  function Filter(fs: seq<Field>, v: int): (r: seq<Field>)
    ensures |r| <= |fs|
  {
    if fs == [] then []
    else Filter(fs[..|fs| - 1], v) + if Present(fs[|fs| - 1], v) then [fs[|fs| - 1]] else []
  }

  /** The fields revision `v` stores after its bounds. */
  function Layout(v: int): seq<Field> {
    Filter(FieldOrder, v)
  }

  /** Walk the table: read one word for every field that revision `v` stores. */
  function DecodeFields(data: seq<byte>, p: nat, v: int, fs: seq<Field>, h: Body): (r: Option<Parsed<Body>>)
    requires p <= |data|
    ensures r.Some? ==> p <= r.value.next <= |data|
  {
    if fs == [] then Some(Parsed(h, p))
    else
      var prev :- DecodeFields(data, p, v, fs[..|fs| - 1], h);
      var f := fs[|fs| - 1];
      if Present(f, v) then
        var w :- ReadWord(data, prev.next);
        Some(Parsed(Apply(prev.value, f, v, w.value), w.next))
      else
        Some(prev)
  }

  /** The table-driven fields that follow the bounds, in file order. */
  function DecodeBody(data: seq<byte>, p: nat, v: int, b0: Body): (r: Option<Parsed<Body>>)
    requires p <= |data|
    ensures r.Some? ==> p <= r.value.next <= |data|
    ensures r.Some? ==> r.value.next == p + WORD_SIZE * |Layout(v)|
  {
    DecodeFieldsSize(data, p, v, FieldOrder, b0);
    DecodeFields(data, p, v, FieldOrder, b0)
  }

  /** The object name (`loadStr` and the skip of its terminator), then bounds,
      then the table-driven fields, starting from the header `h0`. */
  function DecodeHeader(data: seq<byte>, pos: nat, v: int, h0: Header): (r: Option<Parsed<Header>>)
    requires pos <= |data|
    ensures r.Some? ==> pos <= r.value.next <= |data|
    ensures r.Some? ==> pos + 2 + 1 + BoundsSize(v) <= r.value.next
  {
    var name := ReadStr(data, pos);
    var terminator := Read(data, name.next, 1);
    var bounds :- DecodeBounds(data, terminator.next, v, h0.bounds);
    var body :- DecodeBody(data, bounds.next, v, h0.body);
    Some(Parsed(Header(name.value, bounds.value, body.value), body.next))
  }

  /** The name already held plays no part in the decode: only the bounds and
      the body fields are defaults for the ones a revision does not read. */
  lemma HeaderIgnoresName(data: seq<byte>, pos: nat, v: int, h0: Header, h1: Header)
    requires pos <= |data| && h0.bounds == h1.bounds && h0.body == h1.body
    ensures DecodeHeader(data, pos, v, h0) == DecodeHeader(data, pos, v, h1)
  {
  }

  // ---------------------------------------------------------------------------
  // Layout in closed form

  /** The header's byte count for revision `v` and name prefix `len`. */
  function HeaderSize(v: int, len: nat): int {
    2 + StrPayload(len) + 1 + BoundsSize(v) + WORD_SIZE * |Layout(v)|
  }

  /** Where the table-driven fields start: after prefix, name, terminator and
      bounds (FieldsStartAt gives it in closed form). */
  function FieldsStart(data: seq<byte>, pos: nat, v: int): int
    requires pos <= |data|
  {
    Read(data, ReadStr(data, pos).next, 1).next + BoundsSize(v)
  }

  /** Offset of field `f` from FieldsStart: four bytes per stored field before it. */
  function FieldOffset(f: Field, v: int): nat {
    WORD_SIZE * |Filter(FieldOrder[..Rank(f)], v)|
  }

  function Rank(f: Field): (k: nat)
    ensures k < |FieldOrder| && FieldOrder[k] == f
  {
    match f
    case Scale => 0
    case QuickLight => 1
    case ShadowPlane => 2
    case EnvMap => 3
    case TexTimer => 4
    case RadxRender => 5
    case RadyRender => 6
    case P2X => 7
    case P2Y => 8
    case P2Z => 9
    case Unknown1 => 10
    case HasTread => 11
    case HasControl => 12
    case ShadowType => 13
    case ShadowRadius => 14
    case TreadPerMeter => 15
  }

  /** The fields take four bytes each, and their decoding fails exactly when
      they do not all fit. */
  lemma {:induction false} DecodeFieldsSize(data: seq<byte>, p: nat, v: int, fs: seq<Field>, h: Body)
    requires p <= |data|
    ensures DecodeFields(data, p, v, fs, h).Some? <==> p + WORD_SIZE * |Filter(fs, v)| <= |data|
    ensures DecodeFields(data, p, v, fs, h).Some? ==>
      DecodeFields(data, p, v, fs, h).value.next == p + WORD_SIZE * |Filter(fs, v)|
  {
    if fs != [] {
      DecodeFieldsSize(data, p, v, fs[..|fs| - 1], h);
    }
  }

  /** A stored field holds the word at its own offset: four bytes for every
      stored field before it. */
  lemma {:induction false} DecodeFieldValue(data: seq<byte>, p: nat, v: int, fs: seq<Field>, h: Body, j: nat)
    requires p <= |data|
    requires forall i, k :: 0 <= i < k < |fs| ==> fs[i] != fs[k]
    requires DecodeFields(data, p, v, fs, h).Some?
    requires j < |fs| && Present(fs[j], v)
    ensures var q := p + WORD_SIZE * |Filter(fs[..j], v)|;
      q + WORD_SIZE <= |data| &&
      Get(DecodeFields(data, p, v, fs, h).value.value, fs[j]) == Stored(fs[j], v, WordAt(data, q))
  {
    var init := fs[..|fs| - 1];
    var f := fs[|fs| - 1];
    DecodeFieldsSize(data, p, v, init, h);
    var prev := DecodeFields(data, p, v, init, h).value;
    if j < |fs| - 1 {
      DecodeFieldValue(data, p, v, init, h, j);
      assert fs[..j] == init[..j];
      assert fs[j] == init[j] != f;
    } else {
      assert fs[..j] == init;
    }
  }

  /** A field that `fs` does not store keeps the value it had. */
  lemma {:induction false} DecodeFieldKept(data: seq<byte>, p: nat, v: int, fs: seq<Field>, h: Body, g: Field)
    requires p <= |data|
    requires DecodeFields(data, p, v, fs, h).Some?
    requires g !in fs || !Present(g, v)
    ensures Get(DecodeFields(data, p, v, fs, h).value.value, g) == Get(h, g)
  {
    if fs != [] {
      var init := fs[..|fs| - 1];
      assert g in init ==> g in fs;
      DecodeFieldKept(data, p, v, init, h, g);
    }
  }

  /** A stored field before the end of `fs` leaves room for itself. */
  lemma {:induction false} FilterPrefixBound(fs: seq<Field>, j: nat, v: int)
    requires j < |fs| && Present(fs[j], v)
    ensures |Filter(fs[..j], v)| + 1 <= |Filter(fs, v)|
  {
    if j < |fs| - 1 {
      FilterPrefixBound(fs[..|fs| - 1], j, v);
      assert fs[..|fs| - 1][..j] == fs[..j];
    } else {
      assert fs[..|fs| - 1] == fs[..j];
    }
  }

  /** Decoding `fs + gs` decodes `fs`, then `gs` from where it stopped. */
  lemma {:induction false} DecodeFieldsAppend(data: seq<byte>, p: nat, v: int, fs: seq<Field>, gs: seq<Field>, h: Body)
    requires p <= |data|
    ensures DecodeFields(data, p, v, fs + gs, h) ==
      match DecodeFields(data, p, v, fs, h)
      case None => None
      case Some(mid) => DecodeFields(data, mid.next, v, gs, mid.value)
  {
    if gs == [] {
      assert fs + gs == fs;
    } else {
      DecodeFieldsAppend(data, p, v, fs, gs[..|gs| - 1], h);
      assert (fs + gs)[..|fs + gs| - 1] == fs + gs[..|gs| - 1];
    }
  }

  /** Fields other than the shadow point leave both shadow points alone. */
  lemma {:induction false} DecodeFieldsKeepPoints(data: seq<byte>, p: nat, v: int, fs: seq<Field>, h: Body)
    requires p <= |data|
    requires forall j :: 0 <= j < |fs| ==> fs[j] !in {P2X, P2Y, P2Z}
    requires DecodeFields(data, p, v, fs, h).Some?
    ensures DecodeFields(data, p, v, fs, h).value.value.p1 == h.p1
    ensures DecodeFields(data, p, v, fs, h).value.value.p2 == h.p2
  {
    if fs != [] {
      DecodeFieldsKeepPoints(data, p, v, fs[..|fs| - 1], h);
    }
  }

  /** The number of fields each revision stores after its bounds. */
  lemma LayoutCount(v: int)
    ensures |Layout(v)| == 4 + (if v > 1 then 2 else 0) + (if v > 5 then 2 else 0) + (if v > 7 then 1 else 0)
      + (if v > 8 then 1 else 0) + (if v > 11 then 5 else 0) + (if v > 12 then 1 else 0)
  {
    CountThroughTexTimer(v);
    CountThroughShadowPoint(v);
    CountThroughTread(v);
    assert FieldOrder[..16] == FieldOrder;
  }

  lemma CountThroughTexTimer(v: int)
    ensures |Filter(FieldOrder[..5], v)| == 3 + (if v > 1 then 2 else 0)
  {
    var fo := FieldOrder;
    assert fo[..0] == [];
    FilterStep(fo, 0, v); FilterStep(fo, 1, v); FilterStep(fo, 2, v); FilterStep(fo, 3, v); FilterStep(fo, 4, v);
  }

  lemma CountThroughShadowPoint(v: int)
    ensures |Filter(FieldOrder[..10], v)| == |Filter(FieldOrder[..5], v)| + (if v > 11 then 5 else 0)
  {
    var fo := FieldOrder;
    FilterStep(fo, 5, v); FilterStep(fo, 6, v); FilterStep(fo, 7, v); FilterStep(fo, 8, v); FilterStep(fo, 9, v);
  }

  lemma CountThroughTread(v: int)
    ensures |Filter(FieldOrder[..16], v)| == |Filter(FieldOrder[..10], v)| + (if v > 12 then 1 else 0)
      + (if v > 5 then 2 else 0) + (if v > 8 then 1 else 0) + 1 + (if v > 7 then 1 else 0)
  {
    CountThroughControl(v);
    var fo := FieldOrder;
    FilterStep(fo, 13, v); FilterStep(fo, 14, v); FilterStep(fo, 15, v);
  }

  lemma CountThroughControl(v: int)
    ensures |Filter(FieldOrder[..13], v)| == |Filter(FieldOrder[..10], v)| + (if v > 12 then 1 else 0)
      + (if v > 5 then 2 else 0)
  {
    var fo := FieldOrder;
    FilterStep(fo, 10, v); FilterStep(fo, 11, v); FilterStep(fo, 12, v);
  }

  lemma FilterStep(fs: seq<Field>, k: nat, v: int)
    requires k < |fs|
    ensures |Filter(fs[..k + 1], v)| == |Filter(fs[..k], v)| + if Present(fs[k], v) then 1 else 0
  {
    assert fs[..k + 1][..k] == fs[..k];
  }

  // ---------------------------------------------------------------------------
  // The header as a whole

  /** Where decoding reaches once the name and its terminator are read. */
  lemma {:induction false} NameThenTerminator(data: seq<byte>, pos: nat)
    requires pos <= |data|
    ensures var len := U16At(data, pos);
      var terminator := Read(data, ReadStr(data, pos).next, 1);
      if pos + 2 <= |data| && len >= 1 && pos + 2 + StrPayload(len) + 1 <= |data| then
        ReadStr(data, pos) == Parsed(data[pos + 2..pos + 2 + StrPayload(len)], pos + 2 + StrPayload(len)) &&
        terminator.next == pos + 2 + StrPayload(len) + 1
      else
        terminator.next == |data|
  {
    var len := U16At(data, pos);
    var prefix := ReadU16(data, pos);
    var name := ReadStr(data, pos);
    if pos + 2 > |data| {
      assert prefix.next == |data|;
    } else if len < 1 {
      assert name.next == |data|;
    }
  }

  /** The header takes exactly HeaderSize(v, L) bytes, L being the name's
      length prefix; it decodes exactly when the prefix is there, L is at least
      1, and the whole of it fits. */
  lemma HeaderSizeExact(data: seq<byte>, pos: nat, v: int, h0: Header)
    requires pos <= |data|
    ensures DecodeHeader(data, pos, v, h0).Some? <==>
      pos + 2 <= |data| && U16At(data, pos) >= 1 && pos + HeaderSize(v, U16At(data, pos)) <= |data|
    ensures DecodeHeader(data, pos, v, h0).Some? ==>
      DecodeHeader(data, pos, v, h0).value.next == pos + HeaderSize(v, U16At(data, pos))
  {
    NameThenTerminator(data, pos);
    var name := ReadStr(data, pos);
    var terminator := Read(data, name.next, 1);
    var bounds := DecodeBounds(data, terminator.next, v, h0.bounds);
    if bounds.Some? {
      DecodeFieldsSize(data, bounds.value.next, v, FieldOrder, h0.body);
    }
  }

  /** The table-driven fields of a decoded header are those read at FieldsStart. */
  lemma HeaderParts(data: seq<byte>, pos: nat, v: int, h0: Header)
    requires pos <= |data|
    requires DecodeHeader(data, pos, v, h0).Some?
    ensures var h := DecodeHeader(data, pos, v, h0).value;
      DecodeBody(data, FieldsStart(data, pos, v), v, h0.body) == Some(Parsed(h.value.body, h.next))
  {
    HeaderSplit(data, pos, v, h0);
  }

  /** The fields start after the prefix, the clamped name, the terminator and the bounds. */
  lemma FieldsStartAt(data: seq<byte>, pos: nat, v: int, h0: Header)
    requires pos <= |data|
    requires DecodeHeader(data, pos, v, h0).Some?
    ensures FieldsStart(data, pos, v) == pos + 2 + StrPayload(U16At(data, pos)) + 1 + BoundsSize(v)
  {
    HeaderPrefix(data, pos, v, h0);
  }

  /** The steps of DecodeHeader, one by one: the name, then the terminator,
      then the bounds, then the table-driven fields. */
  lemma HeaderSplit(data: seq<byte>, pos: nat, v: int, h0: Header)
    requires pos <= |data|
    requires DecodeHeader(data, pos, v, h0).Some?
    ensures var name := ReadStr(data, pos);
      var t := Read(data, name.next, 1).next;
      var h := DecodeHeader(data, pos, v, h0).value;
      var b := DecodeBounds(data, t, v, h0.bounds);
      h.value.objectName == name.value &&
      b == Some(Parsed(h.value.bounds, b.value.next)) &&
      DecodeBody(data, b.value.next, v, h0.body) == Some(Parsed(h.value.body, h.next))
  {
  }

  lemma HeaderPrefix(data: seq<byte>, pos: nat, v: int, h0: Header)
    requires pos <= |data|
    requires DecodeHeader(data, pos, v, h0).Some?
    ensures var n := StrPayload(U16At(data, pos));
      0 <= n && pos + 2 + n + 1 <= |data| &&
      ReadStr(data, pos) == Parsed(data[pos + 2..pos + 2 + n], pos + 2 + n) &&
      Read(data, pos + 2 + n, 1).next == pos + 2 + n + 1 &&
      DecodeBounds(data, pos + 2 + n + 1, v, h0.bounds).Some?
  {
    NameThenTerminator(data, pos);
    var name := ReadStr(data, pos);
    var terminator := Read(data, name.next, 1);
    assert DecodeBounds(data, terminator.next, v, h0.bounds).Some?;
  }

  /** Every table field of the header is the word at its offset when the
      revision stores it, and keeps its earlier value when not. */
  lemma HeaderFieldLayout(data: seq<byte>, pos: nat, v: int, h0: Header, f: Field)
    requires pos <= |data|
    requires DecodeHeader(data, pos, v, h0).Some?
    ensures var h := DecodeHeader(data, pos, v, h0).value.value;
      var start := FieldsStart(data, pos, v);
      (Present(f, v) ==>
         start + FieldOffset(f, v) + WORD_SIZE <= |data| &&
         Get(h.body, f) == Stored(f, v, WordAt(data, start + FieldOffset(f, v)))) &&
      (!Present(f, v) ==> Get(h.body, f) == Get(h0.body, f))
  {
    var h := DecodeHeader(data, pos, v, h0).value;
    HeaderParts(data, pos, v, h0);
    BodyFieldAt(data, FieldsStart(data, pos, v), v, h0.body, h.value.body, h.next, f);
  }

  /** TableFieldAt, for a body known by its value. */
  lemma BodyFieldAt(data: seq<byte>, p: nat, v: int, h: Body, b: Body, q: nat, f: Field)
    requires p <= |data|
    requires DecodeBody(data, p, v, h) == Some(Parsed(b, q))
    ensures Present(f, v) ==>
      p + FieldOffset(f, v) + WORD_SIZE <= |data| && Get(b, f) == Stored(f, v, WordAt(data, p + FieldOffset(f, v)))
    ensures !Present(f, v) ==> Get(b, f) == Get(h, f)
  {
    TableFieldAt(data, p, v, h, f);
  }

  /** The same, for the table walk on its own. */
  lemma TableFieldAt(data: seq<byte>, p: nat, v: int, h: Body, f: Field)
    requires p <= |data|
    requires DecodeBody(data, p, v, h).Some?
    ensures var r := DecodeBody(data, p, v, h).value.value;
      (Present(f, v) ==>
         p + FieldOffset(f, v) + WORD_SIZE <= |data| &&
         Get(r, f) == Stored(f, v, WordAt(data, p + FieldOffset(f, v)))) &&
      (!Present(f, v) ==> Get(r, f) == Get(h, f))
  {
    FieldOrderDistinct();
    if Present(f, v) {
      DecodeFieldValue(data, p, v, FieldOrder, h, Rank(f));
    } else {
      DecodeFieldKept(data, p, v, FieldOrder, h, f);
    }
  }

  lemma FieldOrderDistinct()
    ensures forall i, j :: 0 <= i < j < |FieldOrder| ==> FieldOrder[i] != FieldOrder[j]
  {
    forall i, j | 0 <= i < j < |FieldOrder|
      ensures FieldOrder[i] != FieldOrder[j]
    {
      RankOf(FieldOrder[i], i);
      RankOf(FieldOrder[j], j);
    }
  }

  lemma RankOf(f: Field, i: nat)
    requires i < |FieldOrder| && FieldOrder[i] == f
    ensures Rank(f) == i
  {
  }

  /** Revisions above 11 read the shadow point p2 and leave p1 the same point;
      older ones touch neither. */
  lemma ShadowPointsAlias(data: seq<byte>, pos: nat, v: int, h0: Header)
    requires pos <= |data|
    requires DecodeHeader(data, pos, v, h0).Some?
    ensures var h := DecodeHeader(data, pos, v, h0).value.value;
      (v > 11 ==> h.body.p1 == h.body.p2) && (v <= 11 ==> h.body.p1 == h0.body.p1 && h.body.p2 == h0.body.p2)
  {
    HeaderParts(data, pos, v, h0);
    TablePoints(data, FieldsStart(data, pos, v), v, h0.body);
  }

  /** The same, for the table walk on its own. */
  lemma TablePoints(data: seq<byte>, p: nat, v: int, h: Body)
    requires p <= |data|
    requires DecodeBody(data, p, v, h).Some?
    ensures var r := DecodeBody(data, p, v, h).value.value;
      (v > 11 ==> r.p1 == r.p2) && (v <= 11 ==> r.p1 == h.p1 && r.p2 == h.p2)
  {
    var before := FieldOrder[..7];
    var points := [P2X, P2Y, P2Z];
    var after := FieldOrder[10..];
    assert FieldOrder == before + points + after;
    DecodeFieldsAppend(data, p, v, before + points, after, h);
    DecodeFieldsAppend(data, p, v, before, points, h);
    var low := DecodeFields(data, p, v, before, h).value;
    var mid := DecodeFields(data, low.next, v, points, low.value).value;
    DecodeFieldsKeepPoints(data, p, v, before, h);
    DecodeFieldsKeepPoints(data, mid.next, v, after, mid.value);
    PointsStep(data, low.next, v, low.value);
  }

  /** The three shadow-point words: p1 becomes p2 when they are read. */
  lemma PointsStep(data: seq<byte>, p: nat, v: int, h: Body)
    requires p <= |data|
    requires DecodeFields(data, p, v, [P2X, P2Y, P2Z], h).Some?
    ensures var r := DecodeFields(data, p, v, [P2X, P2Y, P2Z], h).value.value;
      (v > 11 ==> r.p1 == r.p2) && (v <= 11 ==> r.p1 == h.p1 && r.p2 == h.p2)
  {
    var xs, xys, xyzs := [P2X], [P2X, P2Y], [P2X, P2Y, P2Z];
    assert xyzs[..2] == xys && xys[..1] == xs && xs[..0] == [];
    var x := DecodeFields(data, p, v, xs, h).value;
    var xy := DecodeFields(data, p, v, xys, h).value;
    var r := DecodeFields(data, p, v, xyzs, h).value;
    if v <= 11 {
      assert DecodeFields(data, p, v, [], h) == Some(Parsed(h, p));
      assert x == Parsed(h, p);
      assert xy == x;
      assert r == xy;
    } else {
      assert r.value == Apply(xy.value, P2Z, v, WordAt(data, xy.next));
    }
  }

  /** The shadow type: the raw int above revision 10; in revisions 9 and 10, 2
      when the stored flag is 1 and 0 otherwise; below 9 it is not read. */
  lemma ShadowTypeRule(data: seq<byte>, pos: nat, v: int, h0: Header)
    requires pos <= |data|
    requires DecodeHeader(data, pos, v, h0).Some?
    ensures var h := DecodeHeader(data, pos, v, h0).value.value;
      var q := FieldsStart(data, pos, v) + FieldOffset(ShadowType, v);
      (v > 8 ==> q + WORD_SIZE <= |data|) &&
      (v > 10 ==> h.body.shadowType == IntAt(data, q)) &&
      (8 < v <= 10 ==> h.body.shadowType == if IntAt(data, q) == 1 then 2 else 0) &&
      (v <= 8 ==> h.body.shadowType == h0.body.shadowType)
  {
    HeaderFieldLayout(data, pos, v, h0, ShadowType);
  }

  /** The object name is the clamped payload after the 2-byte prefix. */
  lemma HeaderName(data: seq<byte>, pos: nat, v: int, h0: Header)
    requires pos <= |data|
    requires DecodeHeader(data, pos, v, h0).Some?
    ensures var n := StrPayload(U16At(data, pos));
      0 <= n && pos + 2 + n <= |data| &&
      DecodeHeader(data, pos, v, h0).value.value.objectName == data[pos + 2..pos + 2 + n]
  {
    HeaderPrefix(data, pos, v, h0);
    HeaderSplit(data, pos, v, h0);
  }

  // ---------------------------------------------------------------------------
  // The table walked one field at a time, as the importer's if-chain does

  /** Decoding one more field of the file order: nothing when the revision
      does not store it, else one more word. */
  lemma FieldStep(data: seq<byte>, p: nat, v: int, h: Body, k: nat)
    requires p <= |data| && k < |FieldOrder|
    ensures DecodeFields(data, p, v, FieldOrder[..k + 1], h) ==
      match DecodeFields(data, p, v, FieldOrder[..k], h)
      case None => None
      case Some(prev) =>
        if !Present(FieldOrder[k], v) then Some(prev)
        else if prev.next + WORD_SIZE <= |data| then
          Some(Parsed(Apply(prev.value, FieldOrder[k], v, WordAt(data, prev.next)), prev.next + WORD_SIZE))
        else None
  {
    assert FieldOrder[..k + 1][..k] == FieldOrder[..k];
  }

  /** Once a prefix of the fields fails, every longer prefix fails. */
  lemma FieldsStop(data: seq<byte>, p: nat, v: int, h: Body, k: nat, m: nat)
    requires p <= |data| && k <= m <= |FieldOrder|
    requires DecodeFields(data, p, v, FieldOrder[..k], h).None?
    ensures DecodeFields(data, p, v, FieldOrder[..m], h).None?
  {
    DecodeFieldsAppend(data, p, v, FieldOrder[..k], FieldOrder[k..m], h);
    assert FieldOrder[..k] + FieldOrder[k..m] == FieldOrder[..m];
  }

  // ---------------------------------------------------------------------------
  // The walk by position

  /** The first `k` fields of the table, walked by their position in it: the
      form in which the importer's straight-line code reads them. */
  function WalkFields(data: seq<byte>, p: nat, v: int, k: nat, h: Body): (r: Option<Parsed<Body>>)
    requires p <= |data| && k <= |FieldOrder|
    ensures r.Some? ==> p <= r.value.next <= |data|
  {
    if k == 0 then Some(Parsed(h, p))
    else
      var prev :- WalkFields(data, p, v, k - 1, h);
      var f := FieldOrder[k - 1];
      if Present(f, v) then
        var w :- ReadWord(data, prev.next);
        Some(Parsed(Apply(prev.value, f, v, w.value), w.next))
      else
        Some(prev)
  }

  /** The walk by position is the table walk over the first `k` fields. */
  lemma {:induction false} WalkFieldsDecodes(data: seq<byte>, p: nat, v: int, k: nat, h: Body)
    requires p <= |data| && k <= |FieldOrder|
    ensures WalkFields(data, p, v, k, h) == DecodeFields(data, p, v, FieldOrder[..k], h)
  {
    if k == 0 {
      assert FieldOrder[..0] == [];
    } else {
      WalkFieldsDecodes(data, p, v, k - 1, h);
      WalkStepDecodes(data, p, v, k - 1, h);
    }
  }

  /** The step of WalkFieldsDecodes: the walk and the decode of the prefix
      take the same next field in the same way. */
  lemma WalkStepDecodes(data: seq<byte>, p: nat, v: int, k: nat, h: Body)
    requires p <= |data| && k < |FieldOrder|
    requires WalkFields(data, p, v, k, h) == DecodeFields(data, p, v, FieldOrder[..k], h)
    ensures WalkFields(data, p, v, k + 1, h) == DecodeFields(data, p, v, FieldOrder[..k + 1], h)
  {
    FieldStep(data, p, v, h, k);
  }

  /** Once the walk fails it stays failed. */
  lemma {:induction false} WalkStops(data: seq<byte>, p: nat, v: int, h: Body, k: nat, m: nat)
    requires p <= |data| && k <= m <= |FieldOrder|
    requires WalkFields(data, p, v, k, h).None?
    ensures WalkFields(data, p, v, m, h).None?
  {
    if k < m {
      WalkStops(data, p, v, h, k, m - 1);
    }
  }

  /** Before revision 12 the walk reads none of the shadow info fields. */
  lemma WalkSkipsShadowInfo(data: seq<byte>, p: nat, v: int, h: Body)
    requires p <= |data| && v <= 11
    ensures WalkFields(data, p, v, 10, h) == WalkFields(data, p, v, 5, h)
  {
    WalkSkip(data, p, v, h, RadxRender);
    WalkSkip(data, p, v, h, RadyRender);
    WalkSkip(data, p, v, h, P2X);
    WalkSkip(data, p, v, h, P2Y);
    WalkSkip(data, p, v, h, P2Z);
  }

  /** A field that revision `v` does not store leaves the walk where it was. */
  lemma WalkSkip(data: seq<byte>, p: nat, v: int, h: Body, f: Field)
    requires p <= |data| && !Present(f, v)
    ensures WalkFields(data, p, v, Rank(f) + 1, h) == WalkFields(data, p, v, Rank(f), h)
  {
  }
}
