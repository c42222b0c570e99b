/** Packed YAFFS2 tags: four 32-bit fields, extra header information folded into them, and an ECC over
    their sixteen bytes. */
module PackedTags {
  import opened Basics
  import opened Words
  import opened ByteBits
  import opened EccTable
  import opened Ecc

  const FILE: bv32 := 1       // YAFFS_OBJECT_TYPE_FILE
  const HARDLINK: bv32 := 4
  const ERASED: bv32 := 0xffffffff
  const LOWEST_SEQ: bv32 := 0x00001000
  const HIGHEST_SEQ: bv32 := 0xefffff00

  const EXTRA: bv32 := 0x80000000
  const SHRINK: bv32 := 0x40000000
  const SHADOWS: bv32 := 0x20000000
  const FLAGS: bv32 := 0xf0000000

  /** The fields of yaffs_ext_tags that are packed. */
  datatype Tags = Tags(
    used: bool, obj: bv32, chunk: bv32, nBytes: bv32, seqNumber: bv32,
    extra: bool, parent: bv32, isShrink: bool, shadows: bool, objType: bv32, length: bv32, equiv: bv32)

  datatype Packed = Packed(seqNumber: bv32, obj: bv32, chunk: bv32, nBytes: bv32)

  // ----- the flag bits -----

  function ObjWord(obj: bv32, kind: bv32): bv32 { (obj & !FLAGS) | (kind << 28) }
  function KindOf(w: bv32): bv32 { w >> 28 }
  function LowBits(w: bv32): bv32 { w & !FLAGS }
  function Or32(a: bv32, b: bv32): bv32 { a | b }
  function FlagIf(c: bool, flag: bv32): bv32 { if c then flag else 0 }
  function ParentWord(parent: bv32, isShrink: bool, shadows: bool): bv32 {
    Or32(Or32(Or32(EXTRA, parent), FlagIf(isShrink, SHRINK)), FlagIf(shadows, SHADOWS))
  }
  predicate HasFlag(w: bv32, flag: bv32) { w & flag != 0 }

  lemma ObjWordBits(obj: bv32, kind: bv32)
    requires obj < 0x10000000 && kind < 16
    ensures KindOf(ObjWord(obj, kind)) == kind && LowBits(ObjWord(obj, kind)) == obj
  {
  }

  lemma OrHigh(w: bv32, flag: bv32)
    requires LowBits(flag) == 0
    ensures LowBits(Or32(w, flag)) == LowBits(w) && LowBits(Or32(flag, w)) == LowBits(w)
  {
  }

  lemma LowSmall(w: bv32)
    requires w < 0x10000000
    ensures LowBits(w) == w
  {
  }

  lemma FlagsHigh(isShrink: bool, shadows: bool)
    ensures LowBits(EXTRA) == 0 && LowBits(FlagIf(isShrink, SHRINK)) == 0 && LowBits(FlagIf(shadows, SHADOWS)) == 0
  {
  }

  lemma ParentWordLow(parent: bv32, isShrink: bool, shadows: bool)
    requires parent < 0x10000000
    ensures LowBits(ParentWord(parent, isShrink, shadows)) == parent
  {
    hide LowBits, FlagIf, Or32;
    var s, h := FlagIf(isShrink, SHRINK), FlagIf(shadows, SHADOWS);
    FlagsHigh(isShrink, shadows);
    LowSmall(parent);
    OrHigh(parent, EXTRA);
    OrHigh(Or32(EXTRA, parent), s);
    OrHigh(Or32(Or32(EXTRA, parent), s), h);
  }

  lemma ParentWordFlags(parent: bv32, isShrink: bool, shadows: bool)
    requires parent < 0x10000000
    ensures var w := ParentWord(parent, isShrink, shadows);
      HasFlag(w, EXTRA) && (HasFlag(w, SHRINK) <==> isShrink) && (HasFlag(w, SHADOWS) <==> shadows)
  {
    if isShrink { if shadows { } else { } } else { if shadows { } else { } }
  }

  lemma NoFlag(chunk: bv32)
    requires chunk < 0x10000000
    ensures !HasFlag(chunk, EXTRA)
  {
  }

  // ----- packing the fields -----

  /** yaffs_pack_tags2_tags_only */
  function Pack(t: Tags): Packed {
    if t.chunk == 0 && t.extra then
      Packed(t.seqNumber, ObjWord(t.obj, t.objType), ParentWord(t.parent, t.isShrink, t.shadows),
             if t.objType == HARDLINK then t.equiv else if t.objType == FILE then t.length else 0)
    else Packed(t.seqNumber, t.obj, t.chunk, t.nBytes)
  }

  function Blank(): Tags { Tags(false, 0, 0, 0, 0, false, 0, false, false, 0, 0, 0) }

  /** yaffs_unpack_tags2_tags_only */
  function Unpack(p: Packed): Tags {
    if p.seqNumber == ERASED then Blank()
    else if HasFlag(p.chunk, EXTRA) then
      var kind := KindOf(p.obj);
      Tags(true, LowBits(p.obj), 0, 0, p.seqNumber, true, LowBits(p.chunk), HasFlag(p.chunk, SHRINK),
          HasFlag(p.chunk, SHADOWS),
           kind, if kind == HARDLINK then 0 else p.nBytes, if kind == HARDLINK then p.nBytes else 0)
    else Blank().(used := true, obj := p.obj, chunk := p.chunk, nBytes := p.nBytes, seqNumber := p.seqNumber)
  }

  /** What survives packing: an object header's byte count does not, and only the extra fields of
      its type do. */
  function Packable(t: Tags): Tags {
    if t.chunk == 0 && t.extra then
      t.(used := true, nBytes := 0, length := if t.objType == FILE then t.length else 0,
         equiv := if t.objType == HARDLINK then t.equiv else 0)
    else Blank().(used := true, obj := t.obj, chunk := t.chunk, nBytes := t.nBytes, seqNumber := t.seqNumber)
  }

  /** Ids below 2^28 leave the top four bits to the flags and the type. */
  predicate InRange(t: Tags) {
    && t.obj < 0x10000000 && t.chunk < 0x10000000 && t.parent < 0x10000000 && t.objType < 16
    && LOWEST_SEQ <= t.seqNumber <= HIGHEST_SEQ
  }

  /** Packing and unpacking without errors. */
  lemma UnpackPack(t: Tags)
    requires InRange(t)
    ensures Unpack(Pack(t)) == Packable(t)
  {
    hide ObjWord, ParentWord, KindOf, LowBits, HasFlag;
    if t.chunk == 0 && t.extra {
      ObjWordBits(t.obj, t.objType);
      ParentWordLow(t.parent, t.isShrink, t.shadows);
      ParentWordFlags(t.parent, t.isShrink, t.shadows);
    } else {
      NoFlag(t.chunk);
    }
  }

  // ----- the sixteen bytes -----

  function Byte0(w: bv32): bv8 { (w & 0xff) as bv8 }
  function Byte1(w: bv32): bv8 { ((w >> 8) & 0xff) as bv8 }
  function Byte2(w: bv32): bv8 { ((w >> 16) & 0xff) as bv8 }
  function Byte3(w: bv32): bv8 { (w >> 24) as bv8 }

  function Join(a: bv8, b: bv8, c: bv8, d: bv8): bv32 {
    (a as bv32) | ((b as bv32) << 8) | ((c as bv32) << 16) | ((d as bv32) << 24)
  }

  lemma JoinBytes(w: bv32)
    ensures Join(Byte0(w), Byte1(w), Byte2(w), Byte3(w)) == w
  {
  }

  function BytesOf(w: bv32): (r: Bytes)
    ensures |r| == 4
  {
    [Byte0(w), Byte1(w), Byte2(w), Byte3(w)]
  }

  function WordAt(b: Bytes, i: nat): bv32
    requires i + 4 <= |b|
  {
    Join(b[i], b[i + 1], b[i + 2], b[i + 3])
  }

  const SIZE := 16

  function Image(p: Packed): (r: Bytes)
    ensures |r| == SIZE
  {
    BytesOf(p.seqNumber) + BytesOf(p.obj) + BytesOf(p.chunk) + BytesOf(p.nBytes)
  }

  function Fields(b: Bytes): Packed
    requires |b| == SIZE
  {
    Packed(WordAt(b, 0), WordAt(b, 4), WordAt(b, 8), WordAt(b, 12))
  }

  lemma FieldsOfImage(p: Packed)
    ensures Fields(Image(p)) == p
  {
    hide Byte0, Byte1, Byte2, Byte3, Join;
    JoinBytes(p.seqNumber);
    JoinBytes(p.obj);
    JoinBytes(p.chunk);
    JoinBytes(p.nBytes);
  }

  // ----- with ECC -----

  datatype Stored = Stored(bytes: Bytes, ecc: Ecc)
  datatype EccResult = NoError | Fixed | Unfixed | Unknown

  /** yaffs_pack_tags2 */
  function PackEcc(t: Tags): Stored { Stored(Image(Pack(t)), Calc(Image(Pack(t)))) }

  function ResultOf(r: int): EccResult {
    match r case 0 => NoError case 1 => Fixed case -1 => Unfixed case _ => Unknown
  }

  /** yaffs_unpack_tags2: tags that look erased are not checked. */
  function UnpackEcc(s: Stored): (Tags, EccResult)
    requires |s.bytes| == SIZE
  {
    if Fields(s.bytes).seqNumber == ERASED then (Blank(), NoError)
    else
      var o := Correct(s.bytes, s.ecc, Calc(s.bytes));
      (if |o.data| == SIZE then Unpack(Fields(o.data)) else Blank(), ResultOf(o.result))
  }

  lemma LegalSeq(t: Tags)
    requires InRange(t)
    ensures t.seqNumber != ERASED && Fields(Image(Pack(t))).seqNumber == t.seqNumber
  {
    hide ObjWord, ParentWord, Image, Fields;
    FieldsOfImage(Pack(t));
  }

  /** Undamaged tags come back with no error. */
  lemma CleanTags(t: Tags)
    requires InRange(t)
    ensures UnpackEcc(PackEcc(t)) == (Packable(t), NoError)
  {
    hide Pack, Unpack, Packable, Image, Fields, Calc, Correct;
    LegalSeq(t);
    FieldsOfImage(Pack(t));
    UnpackPack(t);
    EqualEcc(Image(Pack(t)), Calc(Image(Pack(t))));
  }

  /** One flipped bit of the stored ECC is harmless. */
  lemma DamagedEcc(t: Tags, e: Ecc)
    requires InRange(t) && OneBitOff(e, PackEcc(t).ecc)
    ensures UnpackEcc(PackEcc(t).(ecc := e)) == (Packable(t), Fixed)
  {
    hide Pack, Unpack, Packable, Image, Fields, Calc, Correct, OneBitOff;
    LegalSeq(t);
    FieldsOfImage(Pack(t));
    UnpackPack(t);
    SingleEccBit(Image(Pack(t)), e, Calc(Image(Pack(t))));
  }

  /** One flipped bit of the tags is repaired exactly when it does not make them look erased. */
  lemma DamagedTags(t: Tags, i: nat, f: nat)
    requires InRange(t) && i < SIZE && f < 8
    ensures var s := PackEcc(t); var bad := s.(bytes := Flip(s.bytes, i, f));
      UnpackEcc(bad) == (Packable(t), Fixed) <==> Fields(bad.bytes).seqNumber != ERASED
  {
    hide Pack, Unpack, Packable, Image, Fields, Calc, Correct, Pow2, Flip;
    var b := Image(Pack(t));
    assert |Flip(b, i, f)| == SIZE by { FlipLength(b, i, f); }
    EnoughBits();
    FieldsOfImage(Pack(t));
    UnpackPack(t);
    SingleDataBit(b, i, f);
  }

  lemma FlipLength(b: Bytes, i: nat, f: nat)
    requires i < |b|
    ensures |Flip(b, i, f)| == |b|
  {
  }

  lemma EnoughBits()
    ensures SIZE <= Pow2(32)
  {
    assert Pow2(5) == 32;
    PowUp(5, 32);
  }

  lemma {:induction false} PowUp(a: nat, b: nat)
    requires a <= b
    ensures Pow2(a) <= Pow2(b)
  {
    if a < b { PowUp(a, b - 1); }
  }

  // ----- which tags can come to look erased -----

  lemma AllOnes(a: bv8, b: bv8, c: bv8, d: bv8)
    ensures Join(a, b, c, d) == ERASED <==> a == 0xff && b == 0xff && c == 0xff && d == 0xff
  {
  }

  /** The legal sequence numbers one flipped bit away from the erased pattern. */
  predicate NearErased(n: bv32) { n == 0x7fffffff || n == 0xbfffffff || n == 0xdfffffff }

  lemma TopByte(a: bv8, b: bv8, c: bv8, d: bv8)
    requires Join(a, b, c, d) <= HIGHEST_SEQ
    ensures d != 0xff
  {
  }

  lemma TopByteFlip(d: bv8, f: nat)
    requires f < 8 && Toggle(d, f) == 0xff && Join(0xff, 0xff, 0xff, d) <= HIGHEST_SEQ
    ensures NearErased(Join(0xff, 0xff, 0xff, d))
  {
    assert d == Toggle(0xff, f) by { ToggleTwice(d, f); }
    match f
    case 0 => case 1 => case 2 => case 3 => case 4 => case 5 => case 6 => case _ =>
  }

  lemma LooksErased(n: bv32, b: Bytes, i: nat, f: nat)
    requires |b| == SIZE && i < SIZE && f < 8 && WordAt(b, 0) == n && LOWEST_SEQ <= n <= HIGHEST_SEQ
    ensures WordAt(Flip(b, i, f), 0) == ERASED ==> NearErased(n)
  {
    hide Join, Toggle, NearErased;
    var c := Flip(b, i, f);
    AllOnes(c[0], c[1], c[2], c[3]);
    TopByte(b[0], b[1], b[2], b[3]);
    if WordAt(c, 0) == ERASED { TopByteFlip(b[3], f); }
  }

  /** Legal tags survive any one flipped bit, unless their sequence number is one of three. */
  lemma TagsSurvive(t: Tags, i: nat, f: nat)
    requires InRange(t) && !NearErased(t.seqNumber) && i < SIZE && f < 8
    ensures var s := PackEcc(t); UnpackEcc(s.(bytes := Flip(s.bytes, i, f))) == (Packable(t), Fixed)
  {
    hide Pack, Unpack, Packable, Image, Calc, Correct, Flip, NearErased, UnpackEcc, WordAt;
    LegalSeq(t);
    FlipLength(Image(Pack(t)), i, f);
    LooksErased(t.seqNumber, Image(Pack(t)), i, f);
    DamagedTags(t, i, f);
  }

  /** The bit whose loss makes such a number look erased. */
  function WeakBit(n: bv32): nat { if n == 0x7fffffff then 7 else if n == 0xbfffffff then 6 else 5 }

  /** Those three are lost to a single flipped bit: the tags read back as an erased chunk. */
  lemma TagsLost(t: Tags)
    requires InRange(t) && NearErased(t.seqNumber)
    ensures var s := PackEcc(t);
      UnpackEcc(s.(bytes := Flip(s.bytes, 3, WeakBit(t.seqNumber)))) == (Blank(), NoError)
  {
    hide Pack, Unpack, Packable, Calc, Correct, Image;
    LegalSeq(t);
    WeakWord(t.seqNumber, Image(Pack(t)));
  }

  lemma WeakWord(n: bv32, b: Bytes)
    requires NearErased(n) && |b| == SIZE && WordAt(b, 0) == n
    ensures WordAt(Flip(b, 3, WeakBit(n)), 0) == ERASED
  {
    var c := Flip(b, 3, WeakBit(n));
    WeakJoin(n, b[0], b[1], b[2], b[3]);
  }

  lemma WeakJoin(n: bv32, a: bv8, b: bv8, c: bv8, d: bv8)
    requires NearErased(n) && Join(a, b, c, d) == n
    ensures Join(a, b, c, Toggle(d, WeakBit(n))) == ERASED
  {
    if n == 0x7fffffff { } else if n == 0xbfffffff { } else { }
  }
}
