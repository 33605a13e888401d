/** The fragment handle, the one access path to a read's record, and the
    part of the store it talks to: a read-only flag and the clear-range
    directory that keeps earlier versions of the read's clear range. */
module GkFragmentHandle {
  import opened GkConstants
  import opened GkRecords
  import opened GkDispatch

  /** Capacity of each scratch buffer the handle allocates in gatekeeper mode:
      the longest normal read plus a terminating byte. */
  const BufferLen: nat := MaxNormalLen + 1

  /** A clear range: begin and end offsets into the read. */
  datatype ClearPair = ClearPair(begin: U32, end: U32)

  /** The store a handle is bound to, reduced to what the handle uses.  For
      each clear-range version that has a directory (1 to 16), `clearRange`
      holds the pair that directory keeps for the read in hand. */
  class GkStore {
    var isReadOnly: bool
    var clearRange: map<U32, ClearPair>

    ghost predicate Valid()
      reads this
    {
      forall w :: w in clearRange ==> ClearLatest < w < ClearNum
    }

    /** A store with a directory for each version in `versions`; each starts
        with the empty range. */
    constructor (readOnly: bool, versions: set<U32>)
      requires forall w :: w in versions ==> ClearLatest < w < ClearNum
      ensures Valid()
      ensures isReadOnly == readOnly
      ensures clearRange.Keys == versions
      ensures forall w :: w in clearRange ==> clearRange[w] == ClearPair(0, 0)
    {
      isReadOnly := readOnly;
      clearRange := map w | w in versions :: ClearPair(0, 0);
    }

    /** The directory's set for version `which`: it now keeps (begin, end). */
    method SetClearRegion(which: U32, begin: U32, end: U32)
      requires Valid() && which in clearRange
      modifies this
      ensures Valid()
      ensures isReadOnly == old(isReadOnly)
      ensures clearRange == old(clearRange)[which := ClearPair(begin, end)]
    {
      clearRange := clearRange[which := ClearPair(begin, end)];
    }
  }

  /** gkFragment: a record kind, the record storage, load flags, the
      gatekeeper-mode flag, the bound store and three byte buffers. */
  class GkFragment {
    var recordType: U32
    var hasSEQ: bool
    var hasQLT: bool
    var isGKP: bool
    var gkp: GkStore?
    var fr: FragmentData
    var enc: array?<char>
    var seqBuf: array?<char>
    var qltBuf: array?<char>

    /** In gatekeeper mode the three buffers are allocated, distinct and of
        full capacity. */
    ghost predicate Valid()
      reads this
    {
      isGKP ==>
        && enc != null && seqBuf != null && qltBuf != null
        && enc.Length == BufferLen && seqBuf.Length == BufferLen && qltBuf.Length == BufferLen
        && enc != seqBuf && enc != qltBuf && seqBuf != qltBuf
    }

    /** Only the record storage may have changed. */
    twostate predicate OnlyRecordChanged()
      reads this
    {
      && recordType == old(recordType)
      && hasSEQ == old(hasSEQ) && hasQLT == old(hasQLT) && isGKP == old(isGKP)
      && gkp == old(gkp)
      && enc == old(enc) && seqBuf == old(seqBuf) && qltBuf == old(qltBuf)
    }

    /** A fresh handle: error kind, no flags, no store, zeroed record and no
        buffers, so every getter reads its default. */
    constructor ()
      ensures Valid()
      ensures recordType == GkFragmentError
      ensures !hasSEQ && !hasQLT && !isGKP && gkp == null
      ensures fr == ZeroData
      ensures enc == null && seqBuf == null && qltBuf == null
      ensures GetReadUID() == UidUndefined
      ensures GetReadIID() == 0 && GetMateIID() == 0 && GetLibraryIID() == 0
      ensures GetIsDeleted() == 0 && GetIsNonRandom() == 0 && GetOrientation() == 0
      ensures GetSequenceLength() == 0 && GetQualityLength() == 0
      ensures GetSequenceOffset() == 0 && GetQualityOffset() == 0
      ensures GetClearRegion(ClearLatest) == ClearPair(0, 0)
    {
      recordType := GkFragmentError;
      hasSEQ, hasQLT := false, false;
      isGKP := false;
      gkp := null;
      fr := ZeroData;
      enc, seqBuf, qltBuf := null, null, null;
    }

    // -------------------------------------------------------------------
    // Clear ranges

    /** The clear range of version `which`: the active record's own fields
        for the latest version, otherwise exactly the pair the store's
        directory for that version holds. */
    function GetClearRegion(which: U32 := ClearLatest): (r: ClearPair)
      reads this, gkp
      requires which != ClearLatest ==> gkp != null && which in gkp.clearRange
      ensures which == ClearLatest && IsRecordKind(recordType) ==>
                r.begin < FieldLimit(LayoutOf(recordType), ClearBeg) &&
                r.end < FieldLimit(LayoutOf(recordType), ClearEnd)
      ensures which == ClearLatest && !IsRecordKind(recordType) ==> r == ClearPair(0, 0)
      ensures which != ClearLatest ==> r == gkp.clearRange[which]
    {
      if which == ClearLatest then
        ClearPair(GetBits(recordType, fr, ClearBeg), GetBits(recordType, fr, ClearEnd))
      else
        gkp.clearRange[which]
    }

    function GetClearRegionBegin(which: U32 := ClearLatest): (r: U32)
      reads this, gkp
      requires which != ClearLatest ==> gkp != null && which in gkp.clearRange
      ensures r == GetClearRegion(which).begin
    {
      if which == ClearLatest then GetBits(recordType, fr, ClearBeg) else gkp.clearRange[which].begin
    }

    function GetClearRegionEnd(which: U32 := ClearLatest): (r: U32)
      reads this, gkp
      requires which != ClearLatest ==> gkp != null && which in gkp.clearRange
      ensures r == GetClearRegion(which).end
    {
      if which == ClearLatest then GetBits(recordType, fr, ClearEnd) else gkp.clearRange[which].end
    }

    /** End minus begin in `uint32` arithmetic: the true length of an ordered
        range, and a wrapped-around value when begin exceeds end. */
    function GetClearRegionLength(which: U32 := ClearLatest): (r: U32)
      reads this, gkp
      requires which != ClearLatest ==> gkp != null && which in gkp.clearRange
      ensures var c := GetClearRegion(which);
              (c.begin <= c.end ==> r == c.end - c.begin) &&
              (c.end < c.begin ==> r == U32Modulus - (c.begin - c.end))
    {
      var c := GetClearRegion(which);
      U32Sub(c.end, c.begin)
    }

    /** Write a clear range.  The active record's own clear fields always take
        (begin, end), truncated to their width; for any version other than
        the latest the untruncated pair is also handed to that version's
        directory.  Neither begin <= end nor end <= seqLen is checked. */
    method SetClearRegion(begin: U32, end: U32, which: U32)
      requires gkp != null && gkp.Valid() && !gkp.isReadOnly
      requires which != ClearLatest ==> which in gkp.clearRange
      modifies this, gkp
      ensures OnlyRecordChanged() && gkp.Valid() && gkp.isReadOnly == old(gkp.isReadOnly)
      ensures fr == SetBits(recordType, SetBits(recordType, old(fr), ClearBeg, begin), ClearEnd, end)
      ensures GetClearRegion(ClearLatest) ==
                if IsRecordKind(recordType)
                then ClearPair(begin % FieldLimit(LayoutOf(recordType), ClearBeg),
                               end % FieldLimit(LayoutOf(recordType), ClearEnd))
                else ClearPair(0, 0)
      ensures which != ClearLatest ==> gkp.clearRange == old(gkp.clearRange)[which := ClearPair(begin, end)]
      ensures which == ClearLatest ==> gkp.clearRange == old(gkp.clearRange)
    {
      fr := SetBits(recordType, fr, ClearBeg, begin);
      fr := SetBits(recordType, fr, ClearEnd, end);
      if which != ClearLatest {
        gkp.SetClearRegion(which, begin, end);
      }
    }

    // -------------------------------------------------------------------
    // Field getters

    function GetReadUID(): (r: Uid)
      reads this
      ensures !IsRecordKind(recordType) ==> r == UidUndefined
    {
      GetUid(recordType, fr)
    }

    function GetReadIID(): (r: Iid)
      reads this
      ensures !IsRecordKind(recordType) ==> r == 0
    {
      GetIid(recordType, fr, ReadIID)
    }

    function GetMateIID(): (r: Iid)
      reads this
      ensures !IsRecordKind(recordType) ==> r == 0
    {
      GetIid(recordType, fr, MateIID)
    }

    function GetLibraryIID(): (r: Iid)
      reads this
      ensures !IsRecordKind(recordType) ==> r == 0
    {
      GetIid(recordType, fr, LibraryIID)
    }

    function GetIsDeleted(): (r: U32)
      reads this
      ensures r < 2
      ensures !IsRecordKind(recordType) ==> r == 0
    {
      GetBits(recordType, fr, Deleted)
    }

    function GetIsNonRandom(): (r: U32)
      reads this
      ensures r < 2
      ensures !IsRecordKind(recordType) ==> r == 0
    {
      GetBits(recordType, fr, NonRandom)
    }

    /** A two-bit orientation code: never the antinormal code 4. */
    function GetOrientation(): (r: U32)
      reads this
      ensures r < 4 && r != OrientAntinormal
      ensures !IsRecordKind(recordType) ==> r == OrientUnknown
    {
      GetBits(recordType, fr, Orientation)
    }

    function GetSequenceLength(): (r: U32)
      reads this
      ensures r <= MaxNormalLen
      ensures recordType == GkFragmentPacked ==> r <= MaxPackedLen
      ensures !IsRecordKind(recordType) ==> r == 0
    {
      GetBits(recordType, fr, SeqLen)
    }

    /** Quality values come one per base. */
    function GetQualityLength(): (r: U32)
      reads this
      ensures r == GetSequenceLength()
    {
      GetBits(recordType, fr, SeqLen)
    }

    function GetSequenceOffset(): (r: U64)
      reads this
      ensures recordType == GkFragmentNormal ==> r == fr.normal.seqOffset
      ensures recordType == GkFragmentStrobe ==> r == fr.strobe.seqOffset
      ensures recordType != GkFragmentNormal && recordType != GkFragmentStrobe ==> r == 0
    {
      SequenceOffset(recordType, fr)
    }

    function GetQualityOffset(): (r: U64)
      reads this
      ensures recordType == GkFragmentNormal ==> r == fr.normal.qltOffset
      ensures recordType == GkFragmentStrobe ==> r == fr.strobe.qltOffset
      ensures recordType != GkFragmentNormal && recordType != GkFragmentStrobe ==> r == 0
    {
      QualityOffset(recordType, fr)
    }

    // -------------------------------------------------------------------
    // Byte buffers

    /** The decoded-bases buffer itself.  Only a handle that loaded its bases,
        or one in gatekeeper mode, may ask; in gatekeeper mode the buffer is
        there, has full capacity and is neither the quality buffer nor the
        encoding scratch buffer. */
    function GetSequence(): (r: array?<char>)
      reads this
      requires Valid()
      requires isGKP || hasSEQ
      ensures r == seqBuf
      ensures isGKP ==> r != null && r.Length == BufferLen && r != qltBuf && r != enc
    {
      seqBuf
    }

    /** The decoded-quality buffer, under the same terms as `GetSequence`. */
    function GetQuality(): (r: array?<char>)
      reads this
      requires Valid()
      requires isGKP || hasQLT
      ensures r == qltBuf
      ensures isGKP ==> r != null && r.Length == BufferLen && r != seqBuf && r != enc
    {
      qltBuf
    }

    // -------------------------------------------------------------------
    // Gatekeeper mode and record-kind changes

    /** Enter gatekeeper mode.  The first call sets every flag, binds the
        store and allocates three fresh buffers; once in gatekeeper mode a
        call changes nothing, and in particular does not rebind the store. */
    method EnableGatekeeperMode(g: GkStore?)
      requires Valid()
      modifies this
      ensures Valid() && isGKP
      ensures recordType == old(recordType) && fr == old(fr)
      ensures old(isGKP) ==>
                hasSEQ == old(hasSEQ) && hasQLT == old(hasQLT) && gkp == old(gkp) &&
                enc == old(enc) && seqBuf == old(seqBuf) && qltBuf == old(qltBuf)
      ensures !old(isGKP) ==> hasSEQ && hasQLT && gkp == g && fresh(enc) && fresh(seqBuf) && fresh(qltBuf)
    {
      if !isGKP {
        isGKP := true;
        hasSEQ := true;
        hasQLT := true;
        gkp := g;
        enc := new char[BufferLen];
        seqBuf := new char[BufferLen];
        qltBuf := new char[BufferLen];
      }
    }

    /** Change the record kind.  Only the kind changes: the record storage is
        not zeroed (that is `Clear`'s job). */
    method SetType(t: U32)
      requires isGKP
      modifies this
      ensures recordType == t && fr == old(fr)
      ensures hasSEQ == old(hasSEQ) && hasQLT == old(hasQLT) && isGKP == old(isGKP) && gkp == old(gkp)
      ensures enc == old(enc) && seqBuf == old(seqBuf) && qltBuf == old(qltBuf)
    {
      recordType := t;
    }

    /** Zero the record storage, so that every field of whatever kind is
        active reads zero. */
    method Clear()
      modifies this
      ensures OnlyRecordChanged() && fr == ZeroData
      ensures forall f :: GetBits(recordType, fr, f) == 0
      ensures forall f :: GetIid(recordType, fr, f) == 0
      ensures GetReadUID() == if IsRecordKind(recordType) then UidZero else UidUndefined
      ensures GetSequenceOffset() == 0 && GetQualityOffset() == 0
    {
      fr := ZeroData;
    }

    // -------------------------------------------------------------------
    // Field setters.  Only `SetLength` demands gatekeeper mode; the others
    // are open to any caller.

    method SetReadUID(u: Uid)
      modifies this
      ensures OnlyRecordChanged() && fr == SetUid(recordType, old(fr), u)
      ensures GetReadUID() == if IsRecordKind(recordType) then u else UidUndefined
    {
      fr := SetUid(recordType, fr, u);
    }

    method SetLength(l: U32)
      requires isGKP
      modifies this
      ensures OnlyRecordChanged() && fr == SetBits(recordType, old(fr), SeqLen, l)
      ensures GetSequenceLength() ==
                if IsRecordKind(recordType) then l % FieldLimit(LayoutOf(recordType), SeqLen) else 0
    {
      fr := SetBits(recordType, fr, SeqLen, l);
    }

    method SetLibraryIID(l: Iid)
      modifies this
      ensures OnlyRecordChanged() && fr == SetIid(recordType, old(fr), LibraryIID, l)
      ensures GetLibraryIID() == if IsRecordKind(recordType) then l else 0
    {
      fr := SetIid(recordType, fr, LibraryIID, l);
    }

    method SetMateIID(i: Iid)
      modifies this
      ensures OnlyRecordChanged() && fr == SetIid(recordType, old(fr), MateIID, i)
      ensures GetMateIID() == if IsRecordKind(recordType) then i else 0
    {
      fr := SetIid(recordType, fr, MateIID, i);
    }

    method SetOrientation(i: U32)
      modifies this
      ensures OnlyRecordChanged() && fr == SetBits(recordType, old(fr), Orientation, i)
      ensures GetOrientation() == if IsRecordKind(recordType) then i % 4 else 0
    {
      fr := SetBits(recordType, fr, Orientation, i);
    }

    method SetIsDeleted(i: U32)
      modifies this
      ensures OnlyRecordChanged() && fr == SetBits(recordType, old(fr), Deleted, i)
      ensures GetIsDeleted() == if IsRecordKind(recordType) then i % 2 else 0
    {
      fr := SetBits(recordType, fr, Deleted, i);
    }

    method SetIsNonRandom(i: U32)
      modifies this
      ensures OnlyRecordChanged() && fr == SetBits(recordType, old(fr), NonRandom, i)
      ensures GetIsNonRandom() == if IsRecordKind(recordType) then i % 2 else 0
    {
      fr := SetBits(recordType, fr, NonRandom, i);
    }
  }
}
