/** The per-kind switch behind every fragment accessor.  Given the handle's
    record kind and its record storage, a read selects the field of the one
    active record and a write changes only that field; any kind other than
    packed, normal or strobe reads as the default and writes nothing. */
module GkDispatch {
  import opened GkConstants
  import opened GkRecords

  /** The handle's record storage.  The source overlays the three layouts in
      one union; here each layout is its own record. */
  datatype FragmentData = FragmentData(packed: PackedRecord, normal: LongRecord, strobe: LongRecord)

  /** The storage after it has been filled with zero bytes. */
  const ZeroData: FragmentData := FragmentData(ZeroPacked, ZeroLong, ZeroLong)

  /** The kinds that select a record; every other value, the error kind
      included, selects none. */
  predicate IsRecordKind(t: U32)
  {
    t == GkFragmentPacked || t == GkFragmentNormal || t == GkFragmentStrobe
  }

  function LayoutOf(t: U32): Layout
  {
    if t == GkFragmentPacked then PackedLayout else LongLayout
  }

  /** Every record that kind `t` does not select is the same in `a` and `b`. */
  predicate SameInactive(t: U32, a: FragmentData, b: FragmentData)
  {
    && (t != GkFragmentPacked ==> a.packed == b.packed)
    && (t != GkFragmentNormal ==> a.normal == b.normal)
    && (t != GkFragmentStrobe ==> a.strobe == b.strobe)
  }

  /** The 64-bit byte offsets of the two long records are the same in `a` and `b`. */
  predicate SameOffsets(a: FragmentData, b: FragmentData)
  {
    && a.normal.seqOffset == b.normal.seqOffset && a.normal.qltOffset == b.normal.qltOffset
    && a.strobe.seqOffset == b.strobe.seqOffset && a.strobe.qltOffset == b.strobe.qltOffset
  }

  // ---------------------------------------------------------------------
  // Bitfields: deleted, nonrandom, orientation, seqLen, clearBeg, clearEnd

  /** Read a bitfield of the active record, 0 when no record is active. */
  function GetBits(t: U32, fr: FragmentData, f: BitField): (r: U32)
    ensures IsRecordKind(t) ==> r < FieldLimit(LayoutOf(t), f)
    ensures !IsRecordKind(t) ==> r == 0
  {
    if t == GkFragmentPacked then PackedBits(fr.packed, f)
    else if t == GkFragmentNormal then LongBits(fr.normal, f)
    else if t == GkFragmentStrobe then LongBits(fr.strobe, f)
    else 0
  }

  /** Write a `uint32` into a bitfield of the active record.  Reading the
      field back gives the value modulo 2^width; identifiers, offsets, the
      other bitfields and the inactive records do not change; with no active
      record nothing changes at all. */
  function SetBits(t: U32, fr: FragmentData, f: BitField, v: U32): (fr': FragmentData)
    ensures GetBits(t, fr', f) == if IsRecordKind(t) then v % FieldLimit(LayoutOf(t), f) else 0
    ensures forall g :: g != f ==> GetBits(t, fr', g) == GetBits(t, fr, g)
    ensures forall g :: GetIid(t, fr', g) == GetIid(t, fr, g)
    ensures GetUid(t, fr') == GetUid(t, fr)
    ensures SameOffsets(fr, fr') && SameInactive(t, fr, fr')
    ensures !IsRecordKind(t) ==> fr' == fr
  {
    if t == GkFragmentPacked then fr.(packed := PackedWithBits(fr.packed, f, v))
    else if t == GkFragmentNormal then fr.(normal := LongWithBits(fr.normal, f, v))
    else if t == GkFragmentStrobe then fr.(strobe := LongWithBits(fr.strobe, f, v))
    else fr
  }

  // ---------------------------------------------------------------------
  // Local identifiers: readIID, mateIID, libraryIID

  /** Read a local identifier of the active record, 0 when no record is active. */
  function GetIid(t: U32, fr: FragmentData, f: IidField): (r: Iid)
    ensures !IsRecordKind(t) ==> r == 0
  {
    if t == GkFragmentPacked then IdsIid(fr.packed.ids, f)
    else if t == GkFragmentNormal then IdsIid(fr.normal.ids, f)
    else if t == GkFragmentStrobe then IdsIid(fr.strobe.ids, f)
    else 0
  }

  /** Write a local identifier of the active record; nothing else changes. */
  function SetIid(t: U32, fr: FragmentData, f: IidField, v: Iid): (fr': FragmentData)
    ensures GetIid(t, fr', f) == if IsRecordKind(t) then v else 0
    ensures forall g :: g != f ==> GetIid(t, fr', g) == GetIid(t, fr, g)
    ensures forall g :: GetBits(t, fr', g) == GetBits(t, fr, g)
    ensures GetUid(t, fr') == GetUid(t, fr)
    ensures SameOffsets(fr, fr') && SameInactive(t, fr, fr')
    ensures !IsRecordKind(t) ==> fr' == fr
  {
    if t == GkFragmentPacked then fr.(packed := fr.packed.(ids := IdsWithIid(fr.packed.ids, f, v)))
    else if t == GkFragmentNormal then fr.(normal := fr.normal.(ids := IdsWithIid(fr.normal.ids, f, v)))
    else if t == GkFragmentStrobe then fr.(strobe := fr.strobe.(ids := IdsWithIid(fr.strobe.ids, f, v)))
    else fr
  }

  // ---------------------------------------------------------------------
  // Universal identifier

  /** Read the universal identifier of the active record, the undefined UID
      when no record is active. */
  function GetUid(t: U32, fr: FragmentData): (r: Uid)
    ensures !IsRecordKind(t) ==> r == UidUndefined
  {
    if t == GkFragmentPacked then fr.packed.ids.readUID
    else if t == GkFragmentNormal then fr.normal.ids.readUID
    else if t == GkFragmentStrobe then fr.strobe.ids.readUID
    else UidUndefined
  }

  /** Write the universal identifier of the active record; nothing else changes. */
  function SetUid(t: U32, fr: FragmentData, u: Uid): (fr': FragmentData)
    ensures GetUid(t, fr') == if IsRecordKind(t) then u else UidUndefined
    ensures forall g :: GetIid(t, fr', g) == GetIid(t, fr, g)
    ensures forall g :: GetBits(t, fr', g) == GetBits(t, fr, g)
    ensures SameOffsets(fr, fr') && SameInactive(t, fr, fr')
    ensures !IsRecordKind(t) ==> fr' == fr
  {
    if t == GkFragmentPacked then fr.(packed := fr.packed.(ids := fr.packed.ids.(readUID := u)))
    else if t == GkFragmentNormal then fr.(normal := fr.normal.(ids := fr.normal.ids.(readUID := u)))
    else if t == GkFragmentStrobe then fr.(strobe := fr.strobe.(ids := fr.strobe.ids.(readUID := u)))
    else fr
  }

  // ---------------------------------------------------------------------
  // Byte offsets, which only the long layouts have

  /** Offset of the read's bases in bulk storage: the stored 64-bit value for
      a normal or strobe record, 0 for a packed record or no record. */
  function SequenceOffset(t: U32, fr: FragmentData): (r: U64)
    ensures t == GkFragmentNormal ==> r == fr.normal.seqOffset
    ensures t == GkFragmentStrobe ==> r == fr.strobe.seqOffset
    ensures t != GkFragmentNormal && t != GkFragmentStrobe ==> r == 0
  {
    if t == GkFragmentPacked then 0
    else if t == GkFragmentNormal then fr.normal.seqOffset
    else if t == GkFragmentStrobe then fr.strobe.seqOffset
    else 0
  }

  /** Offset of the read's quality values in bulk storage, chosen like
      `SequenceOffset`. */
  function QualityOffset(t: U32, fr: FragmentData): (r: U64)
    ensures t == GkFragmentNormal ==> r == fr.normal.qltOffset
    ensures t == GkFragmentStrobe ==> r == fr.strobe.qltOffset
    ensures t != GkFragmentNormal && t != GkFragmentStrobe ==> r == 0
  {
    if t == GkFragmentPacked then 0
    else if t == GkFragmentNormal then fr.normal.qltOffset
    else if t == GkFragmentStrobe then fr.strobe.qltOffset
    else 0
  }

  // ---------------------------------------------------------------------
  // Properties of sequences of writes

  datatype Option<T> = None | Some(value: T)

  /** One bitfield setter call. */
  datatype Write = Write(field: BitField, value: U32)

  /** The storage after a sequence of bitfield writes, in order. */
  function ApplyWrites(t: U32, fr: FragmentData, ws: seq<Write>): FragmentData
  {
    if ws == [] then fr
    else
      var last := ws[|ws| - 1];
      SetBits(t, ApplyWrites(t, fr, ws[..|ws| - 1]), last.field, last.value)
  }

  /** The value of the last write to field `f`, if any. */
  function LastWrite(ws: seq<Write>, f: BitField): Option<U32>
  {
    if ws == [] then None
    else if ws[|ws| - 1].field == f then Some(ws[|ws| - 1].value)
    else LastWrite(ws[..|ws| - 1], f)
  }

  /** After any sequence of setter calls, a field reads back the last value
      written to it (truncated to its width), or its old value when it was
      never written; the inactive records and offsets never change. */
  lemma {:induction false} LastWriteWins(t: U32, fr: FragmentData, ws: seq<Write>, f: BitField)
    ensures GetBits(t, ApplyWrites(t, fr, ws), f) ==
              match LastWrite(ws, f)
              case None => GetBits(t, fr, f)
              case Some(v) => if IsRecordKind(t) then v % FieldLimit(LayoutOf(t), f) else 0
    ensures SameInactive(t, fr, ApplyWrites(t, fr, ws)) && SameOffsets(fr, ApplyWrites(t, fr, ws))
  {
    if ws != [] {
      LastWriteWins(t, fr, ws[..|ws| - 1], f);
    }
  }

  /** Writing a clear range whose bounds fit the active layout and are
      ordered reads back exactly, in order. */
  lemma ClearRangeRoundTrip(t: U32, fr: FragmentData, b: U32, e: U32)
    requires IsRecordKind(t)
    requires b <= e < FieldLimit(LayoutOf(t), ClearEnd)
    ensures var fr' := SetBits(t, SetBits(t, fr, ClearBeg, b), ClearEnd, e);
            GetBits(t, fr', ClearBeg) == b && GetBits(t, fr', ClearEnd) == e
  {
    var m := FieldLimit(LayoutOf(t), ClearBeg);
    assert m == FieldLimit(LayoutOf(t), ClearEnd) && b % m == b && e % m == e;
  }

  /** Nothing keeps a written clear range ordered: on a packed record the
      range (10, 300) reads back as (10, 44). */
  lemma ClearRangeOrderNotKept(fr: FragmentData)
    ensures var fr' := SetBits(GkFragmentPacked, SetBits(GkFragmentPacked, fr, ClearBeg, 10), ClearEnd, 300);
            GetBits(GkFragmentPacked, fr', ClearBeg) == 10 && GetBits(GkFragmentPacked, fr', ClearEnd) == 44
  {
  }
}
