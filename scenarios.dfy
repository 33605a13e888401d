/** Callers of the fragment handle, each driving it through a short sequence
    of calls and stating what the getters then return. */
module GkScenarios {
  import opened GkConstants
  import opened GkRecords
  import opened GkDispatch
  import opened GkFragmentHandle

  /** Author a normal read of 120 bases with clear range (5, 115), recorded
      under the CLR version: the record's own latest range reads back as
      (5, 115), of length 110, and the sequence length as 120. */
  method AuthorNormalRead() returns (len: U32, latest: ClearPair, size: U32)
    ensures len == 120 && latest == ClearPair(5, 115) && size == 110
  {
    var N := LayoutOf(GkFragmentNormal);
    assert FieldLimit(N, SeqLen) == FieldLimit(N, ClearBeg) == FieldLimit(N, ClearEnd) == 0x10_0000;
    assert 120 % 0x10_0000 == 120 && 5 % 0x10_0000 == 5 && 115 % 0x10_0000 == 115;
    var store := new GkStore(false, {ClearClr});
    var h := new GkFragment();
    h.EnableGatekeeperMode(store);
    h.SetType(GkFragmentNormal);
    h.Clear();
    h.SetLength(120);
    assert h.GetSequenceLength() == 120;
    label Set:
    h.SetClearRegion(5, 115, ClearClr);
    assert h.GetSequenceLength() == 120 by {
      assert h.fr == SetBits(GkFragmentNormal, SetBits(GkFragmentNormal, old@Set(h.fr), ClearBeg, 5), ClearEnd, 115);
    }
    assert h.GetClearRegion() == ClearPair(5, 115);
    len := h.GetSequenceLength();
    latest := h.GetClearRegion();
    size := h.GetClearRegionLength();
  }

  /** A packed record holds a 200-base and a 255-base length; 256 reads back
      as 0 and 300 as 44, while a normal record keeps 300. */
  method PackedLengthBoundary() returns (l200: U32, l255: U32, l256: U32, l300: U32, normal300: U32)
    ensures l200 == 200 && l255 == 255 && l256 == 0 && l300 == 44 && normal300 == 300
  {
    assert FieldLimit(LayoutOf(GkFragmentPacked), SeqLen) == 256;
    assert FieldLimit(LayoutOf(GkFragmentNormal), SeqLen) == 0x10_0000;
    assert 200 % 256 == 200 && 255 % 256 == 255 && 256 % 256 == 0 && 300 % 256 == 44;
    assert 300 % 0x10_0000 == 300;
    var h := new GkFragment();
    h.EnableGatekeeperMode(null);
    h.SetType(GkFragmentPacked);
    h.SetLength(200);
    l200 := h.GetSequenceLength();
    h.SetLength(255);
    l255 := h.GetSequenceLength();
    h.SetLength(256);
    l256 := h.GetSequenceLength();
    h.SetLength(300);
    l300 := h.GetSequenceLength();
    h.SetType(GkFragmentNormal);
    h.SetLength(300);
    normal300 := h.GetSequenceLength();
  }

  /** Changing the kind does not zero the record: a deleted packed read that
      is switched to normal and back to packed is still deleted.  After
      `Clear` every field reads zero. */
  method SetTypeKeepsFields() returns (deletedAfterSwitch: U32, deletedAfterClear: U32)
    ensures deletedAfterSwitch == 1 && deletedAfterClear == 0
  {
    var h := new GkFragment();
    h.EnableGatekeeperMode(null);
    h.SetType(GkFragmentPacked);
    h.SetIsDeleted(1);
    h.SetType(GkFragmentNormal);
    h.SetType(GkFragmentPacked);
    deletedAfterSwitch := h.GetIsDeleted();
    h.Clear();
    deletedAfterClear := h.GetIsDeleted();
  }

  /** The unguarded setters work on a fresh handle, whose kind is the error
      kind, and change nothing there: once the handle is switched to a packed
      record, every field still reads as the zeroed record it started with. */
  method ErrorKindIgnoresWrites() returns (deleted: U32, orient: U32, mate: Iid, uid: Uid)
    ensures deleted == 0 && orient == 0 && mate == 0 && uid == UidZero
  {
    var h := new GkFragment();
    h.SetIsDeleted(1);
    h.SetOrientation(OrientInnie);
    h.SetMateIID(42);
    h.SetReadUID(UidIssued(7));
    h.EnableGatekeeperMode(null);
    h.SetType(GkFragmentPacked);
    deleted := h.GetIsDeleted();
    orient := h.GetOrientation();
    mate := h.GetMateIID();
    uid := h.GetReadUID();
  }

  /** Gatekeeper mode is entered once: a second call with another store keeps
      the first store and all three of the first buffers. */
  method GatekeeperModeOnce(g1: GkStore, g2: GkStore) returns (bound: GkStore?, sameBuffers: bool)
    ensures bound == g1 && sameBuffers
  {
    var h := new GkFragment();
    h.EnableGatekeeperMode(g1);
    var e, s, q := h.enc, h.seqBuf, h.qltBuf;
    h.EnableGatekeeperMode(g2);
    bound := h.gkp;
    sameBuffers := e == h.enc && s == h.seqBuf && q == h.qltBuf;
  }
}
