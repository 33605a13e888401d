/** The three physical fragment records.  A packed record stores its lengths
    in 8-bit bitfields; the normal and strobe records share one layout with
    20-bit lengths and two 64-bit byte offsets.  A C bitfield assignment keeps
    the value modulo 2^width, and every setter here does the same. */
module GkRecords {
  import opened GkConstants

  /** Width of the packed length bitfields.  The packed word holds a 4-bit pad,
      two 1-bit flags, a 2-bit orientation and three lengths, and must be 32 bits. */
  const PackedLenBits: nat := 8
  const PackedPadBits: nat := 4
  /** Width of the normal/strobe length bitfields: reads up to 1048575 bases. */
  const NormalLenBits: nat := 20

  /** Largest length each layout can hold. */
  const MaxPackedLen: nat := 255
  const MaxNormalLen: nat := 1048575

  /** The packed layout fills exactly one 32-bit word, and the three normal
      lengths leave a pad of at least one bit in their 64-bit word. */
  lemma LayoutWidths()
    ensures PackedPadBits + 1 + 1 + 2 + 3 * PackedLenBits == 32
    ensures 3 * NormalLenBits < 64
    ensures MaxPackedLen + 1 == Pow2(PackedLenBits)
    ensures MaxNormalLen + 1 == Pow2(NormalLenBits)
  {
  }

  type Bit = x: nat | x < 2
  type Orient2 = x: nat | x < 4
  type PackedLen = x: nat | x < 256
  type NormalLen = x: nat | x < 0x10_0000

  /** A store-local identifier; its width is not part of this model. */
  type Iid = nat

  /** A universal read identifier, opaque here.  `UidUndefined` is what the
      undefined-UID constructor yields; `UidZero` is the all-zero bit pattern a
      cleared record holds.  The model takes the two to be different values. */
  datatype Uid = UidUndefined | UidZero | UidIssued(id: nat)

  /** The identifiers every layout begins with. */
  datatype Ids = Ids(readUID: Uid, readIID: Iid, mateIID: Iid, libraryIID: Iid)

  const ZeroIds: Ids := Ids(UidZero, 0, 0, 0)

  datatype IidField = ReadIID | MateIID | LibraryIID

  function IdsIid(ids: Ids, f: IidField): Iid
  {
    match f
    case ReadIID => ids.readIID
    case MateIID => ids.mateIID
    case LibraryIID => ids.libraryIID
  }

  /** Store `v` in one local-identifier field; the identifiers keep no width
      limit here, so the value is stored as given. */
  function IdsWithIid(ids: Ids, f: IidField, v: Iid): (r: Ids)
    ensures IdsIid(r, f) == v
    ensures forall g :: g != f ==> IdsIid(r, g) == IdsIid(ids, g)
    ensures r.readUID == ids.readUID
  {
    match f
    case ReadIID => ids.(readIID := v)
    case MateIID => ids.(mateIID := v)
    case LibraryIID => ids.(libraryIID := v)
  }

  /** gkPackedFragment. */
  datatype PackedRecord = PackedRecord(
    ids: Ids,
    deleted: Bit, nonrandom: Bit, orientation: Orient2,
    seqLen: PackedLen, clearBeg: PackedLen, clearEnd: PackedLen)

  /** gkNormalFragment and gkStrobeFragment, whose layouts are identical. */
  datatype LongRecord = LongRecord(
    ids: Ids,
    deleted: Bit, nonrandom: Bit, orientation: Orient2,
    seqLen: NormalLen, clearBeg: NormalLen, clearEnd: NormalLen,
    seqOffset: U64, qltOffset: U64)

  const ZeroPacked: PackedRecord := PackedRecord(ZeroIds, 0, 0, 0, 0, 0, 0)
  const ZeroLong: LongRecord := LongRecord(ZeroIds, 0, 0, 0, 0, 0, 0, 0, 0)

  /** The bitfields every layout has. */
  datatype BitField = Deleted | NonRandom | Orientation | SeqLen | ClearBeg | ClearEnd

  datatype Layout = PackedLayout | LongLayout

  /** Declared width of a bitfield in a layout. */
  function FieldBits(layout: Layout, f: BitField): nat
  {
    match f
    case Deleted => 1
    case NonRandom => 1
    case Orientation => 2
    case _ => if layout == PackedLayout then PackedLenBits else NormalLenBits
  }

  /** Number of values a bitfield can hold: 2^width. */
  function FieldLimit(layout: Layout, f: BitField): (m: nat)
    ensures m == Pow2(FieldBits(layout, f))
    ensures f.SeqLen? || f.ClearBeg? || f.ClearEnd? ==>
              m - 1 == (if layout == PackedLayout then MaxPackedLen else MaxNormalLen)
  {
    LayoutWidths();
    Pow2(FieldBits(layout, f))
  }

  function PackedBits(p: PackedRecord, f: BitField): (r: nat)
    ensures r < FieldLimit(PackedLayout, f)
  {
    match f
    case Deleted => p.deleted
    case NonRandom => p.nonrandom
    case Orientation => p.orientation
    case SeqLen => p.seqLen
    case ClearBeg => p.clearBeg
    case ClearEnd => p.clearEnd
  }

  /** Assign a `uint32` to one bitfield of a packed record: the field keeps
      the value modulo 2^width and nothing else changes. */
  function PackedWithBits(p: PackedRecord, f: BitField, v: U32): (q: PackedRecord)
    ensures PackedBits(q, f) == v % FieldLimit(PackedLayout, f)
    ensures forall g :: g != f ==> PackedBits(q, g) == PackedBits(p, g)
    ensures q.ids == p.ids
  {
    var m := FieldLimit(PackedLayout, f);
    match f
    case Deleted => p.(deleted := v % m)
    case NonRandom => p.(nonrandom := v % m)
    case Orientation => p.(orientation := v % m)
    case SeqLen => p.(seqLen := v % m)
    case ClearBeg => p.(clearBeg := v % m)
    case ClearEnd => p.(clearEnd := v % m)
  }

  function LongBits(l: LongRecord, f: BitField): (r: nat)
    ensures r < FieldLimit(LongLayout, f)
  {
    match f
    case Deleted => l.deleted
    case NonRandom => l.nonrandom
    case Orientation => l.orientation
    case SeqLen => l.seqLen
    case ClearBeg => l.clearBeg
    case ClearEnd => l.clearEnd
  }

  /** Assign a `uint32` to one bitfield of a normal/strobe record: the field
      keeps the value modulo 2^width; identifiers, offsets and the other
      bitfields do not change. */
  function LongWithBits(l: LongRecord, f: BitField, v: U32): (q: LongRecord)
    ensures LongBits(q, f) == v % FieldLimit(LongLayout, f)
    ensures forall g :: g != f ==> LongBits(q, g) == LongBits(l, g)
    ensures q.ids == l.ids && q.seqOffset == l.seqOffset && q.qltOffset == l.qltOffset
  {
    var m := FieldLimit(LongLayout, f);
    match f
    case Deleted => l.(deleted := v % m)
    case NonRandom => l.(nonrandom := v % m)
    case Orientation => l.(orientation := v % m)
    case SeqLen => l.(seqLen := v % m)
    case ClearBeg => l.(clearBeg := v % m)
    case ClearEnd => l.(clearEnd := v % m)
  }

  /** A value round-trips through a bitfield exactly when it fits its width. */
  lemma TruncationKeepsFittingValues(layout: Layout, f: BitField, v: U32)
    ensures (v % FieldLimit(layout, f) == v) == (v < FieldLimit(layout, f))
  {
  }

  /** The packed layout cannot hold a 256-base length: it reads back as 0,
      and a 300-base length reads back as 44. */
  lemma PackedLengthWraps(p: PackedRecord)
    ensures PackedBits(PackedWithBits(p, SeqLen, MaxPackedLen), SeqLen) == MaxPackedLen
    ensures PackedBits(PackedWithBits(p, SeqLen, MaxPackedLen + 1), SeqLen) == 0
    ensures PackedBits(PackedWithBits(p, SeqLen, 300), SeqLen) == 44
  {
  }

  /** Orientation is two bits wide, so the antinormal code 4 reads back as
      unknown (0) in every layout. */
  lemma AntinormalReadsBackUnknown(p: PackedRecord, l: LongRecord)
    ensures PackedBits(PackedWithBits(p, Orientation, OrientAntinormal), Orientation) == OrientUnknown
    ensures LongBits(LongWithBits(l, Orientation, OrientAntinormal), Orientation) == OrientUnknown
  {
  }
}
