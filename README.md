# gkFragment: the compact fragment record and its accessor, in Dafny

This project models the fragment (sequencing-read) record of the Celera
Assembler gatekeeper store, as declared in
`extract_sequences/src/common/gkFragment.H`. It covers:

- the three physical record layouts:
  - packed, with 8-bit lengths;
  - normal and strobe, with 20-bit lengths and two 64-bit byte offsets;
- the `gkFragment` handle, which keeps a record kind and the record storage;
- the get/set switch that routes every field access to the active layout;
- the clear-range accessors, which read the record's own fields for the
  latest version and ask the store's clear-range directory for any other
  version;
- gatekeeper (authoring) mode, kind changes and record clearing;
- the orientation, clear-range and record-kind name tables.

Files and modules:

- `constants.dfy` (`GkConstants`): the `uint32`/`uint64` types, the numeric
  codes and the three name tables.
- `records.dfy` (`GkRecords`): the identifiers, the packed record, the
  normal/strobe record and the bitfield reads and writes on each. A write
  keeps the value modulo 2^width, as a C bitfield assignment does.
- `dispatch.dfy` (`GkDispatch`): the record storage and the per-kind
  `switch` of the `gkFragment_get`/`gkFragment_set` macros, as pure
  functions of the kind and the storage.
- `fragment.dfy` (`GkFragmentHandle`): the handle as a class whose methods
  update its fields in place, and the part of the store it uses.
- `scenarios.dfy` (`GkScenarios`): callers that drive a handle through short
  call sequences and state what the getters then return.

Constants fixed by the model:

- The packed length width is 8 bits. The `#if` at gkFragment.H:125 forces
  4+1+1+2+3·B = 32, so the largest packed length is 255.
- The normal/strobe length width is 20 bits, following the 1048575-base
  limit at gkFragment.H:102. So `AS_READ_MAX_NORMAL_LEN` is 1048575, and
  each gatekeeper buffer holds 1048576 bytes.

Three behaviours of the code that one might expect to be otherwise:

- One might expect `setType` (gkFragment.H:421) to zero the record; it
  does not. It only assigns the kind, so fields written under one kind are
  still there after switching away and back (`SetTypeKeepsFields`). Only
  `clear` zeroes the record.
- `setClearRegion` (gkFragment.H:295-301) asserts only that the store is
  not read-only. It does not demand gatekeeper mode, and it checks neither
  begin <= end nor end <= seqLen. A range that does not fit the layout is
  truncated and can come back out of order (`ClearRangeOrderNotKept`).
- Only `setType` and `setLength` demand gatekeeper mode. The UID, library,
  mate, orientation, deleted and non-random setters are open to any caller.

## Model

| member | source | states |
|---|---|---|
| `GkConstants.OrientName` | extract_sequences/src/common/gkFragment.H:29-37 | every orientation code 0..4 has a one-letter name, U I O N A in code order |
| `GkConstants.ClearName` | extract_sequences/src/common/gkFragment.H:45-72 | every version 0..16 has a name; each of LATEST=0, CLR=1, VEC=2, MAX=3, TAINT=4, OBTINITIAL=5, OBTMERGE=6 and OBTCHIMERA=7 is named by exactly its own code; version 8+k is `ECR_k`; no earlier name starts with `E` |
| `GkConstants.ClearNamesDistinct` | extract_sequences/src/common/gkFragment.H:65-72 | no two clear-range versions share a name, so a name identifies one version |
| `GkConstants.TypeName` | extract_sequences/src/common/gkFragment.H:84-91 | each record kind 0..3 has its name: ERROR, PACKED, NORMAL, STROBE, and no other kind has that name |
| `GkConstants.NameTablesCoverCodes` | extract_sequences/src/common/gkFragment.H:29-91 | the tables hold 5, 17 and 4 names, each one past the largest code, and the error version 255 is outside the clear table |
| `GkConstants.U32Sub` | extract_sequences/src/common/gkFragment.H:275-284 | `uint32` end − begin is the difference when begin <= end, and 2^32 − (begin − end) when it wraps |
| `GkRecords.LayoutWidths` | extract_sequences/src/common/gkFragment.H:117-151 | the packed fields fill exactly 32 bits; the normal lengths fit in 64 bits; the largest lengths are 2^8 − 1 and 2^20 − 1 |
| `GkRecords.IdsWithIid` | extract_sequences/src/common/gkFragment.H:111-115 | writing one local identifier reads back exactly and leaves the other identifiers and the UID unchanged |
| `GkRecords.FieldLimit` | extract_sequences/src/common/gkFragment.H:117-151 | each bitfield holds 2^width values; the length fields hold up to 255 (packed) or 1048575 (normal/strobe) |
| `GkRecords.PackedBits` | extract_sequences/src/common/gkFragment.H:117-123 | every packed bitfield is below 2^width |
| `GkRecords.PackedWithBits` | extract_sequences/src/common/gkFragment.H:117-127 | a packed bitfield write reads back modulo 2^width and changes no other field |
| `GkRecords.LongBits` | extract_sequences/src/common/gkFragment.H:143-151 | every normal/strobe bitfield is below 2^width |
| `GkRecords.LongWithBits` | extract_sequences/src/common/gkFragment.H:143-154 | a normal/strobe bitfield write reads back modulo 2^width and leaves identifiers, offsets and the other bitfields unchanged |
| `GkRecords.TruncationKeepsFittingValues` | extract_sequences/src/common/gkFragment.H:117-151 | a value comes back from a bitfield unchanged exactly when it is below 2^width |
| `GkRecords.PackedLengthWraps` | extract_sequences/src/common/gkFragment.H:99-123 | a packed length of 255 reads back as 255, 256 as 0 and 300 as 44 |
| `GkRecords.AntinormalReadsBackUnknown` | extract_sequences/src/common/gkFragment.H:29-33 | the antinormal code 4 stored in the 2-bit orientation field reads back as unknown (0) in every layout |
| `GkDispatch.GetBits` | extract_sequences/src/common/gkFragment.H:198-209 | a bitfield read under a record kind is below that layout's 2^width; under any other kind it is 0 |
| `GkDispatch.SetBits` | extract_sequences/src/common/gkFragment.H:212-223 | set-then-get gives the value modulo 2^width for the active kind (0 with no active kind); other bitfields, identifiers, UID, offsets and inactive records unchanged; no change at all under a non-record kind |
| `GkDispatch.GetIid` | extract_sequences/src/common/gkFragment.H:310-326 | a local identifier reads 0 under a non-record kind |
| `GkDispatch.SetIid` | extract_sequences/src/common/gkFragment.H:212-223 | set-then-get returns the identifier exactly for a record kind (0 otherwise); every other field and the inactive records unchanged |
| `GkDispatch.GetUid` | extract_sequences/src/common/gkFragment.H:304-308 | the UID reads as the undefined UID under a non-record kind |
| `GkDispatch.SetUid` | extract_sequences/src/common/gkFragment.H:212-223 | set-then-get returns the UID for a record kind (undefined otherwise); every other field and the inactive records unchanged |
| `GkDispatch.SequenceOffset` | extract_sequences/src/common/gkFragment.H:358-373 | the stored 64-bit sequence offset for normal and strobe, 0 for packed and every other kind |
| `GkDispatch.QualityOffset` | extract_sequences/src/common/gkFragment.H:375-390 | the stored 64-bit quality offset for normal and strobe, 0 for packed and every other kind |
| `GkDispatch.LastWriteWins` | extract_sequences/src/common/gkFragment.H:212-223 | after any sequence of bitfield writes, each field reads the last value written to it (truncated), or its old value if never written; inactive records and offsets never change |
| `GkDispatch.ClearRangeRoundTrip` | extract_sequences/src/common/gkFragment.H:295-298 | an ordered clear range that fits the active layout is read back exactly |
| `GkDispatch.ClearRangeOrderNotKept` | extract_sequences/src/common/gkFragment.H:295-298 | on a packed record the range (10, 300) reads back as (10, 44): end before begin |
| `GkFragmentHandle.GkStore.SetClearRegion` | extract_sequences/src/common/gkFragment.H:299-300 | the directory for the given version now keeps the pair it was handed; its other versions are unchanged |
| `GkFragmentHandle.GkFragment.constructor` | extract_sequences/src/common/gkFragment.H:227-248 | error kind, all flags clear, no store, zeroed record, no buffers; every identifier, flag, length, offset and latest-clear getter reads its default |
| `GkFragmentHandle.GkFragment.GetClearRegion` | extract_sequences/src/common/gkFragment.H:286-294 | `which` defaults to latest, as in the source; latest: the active record's clear fields, below 2^width, or (0, 0) with no active kind; any other version: exactly the directory's pair |
| `GkFragmentHandle.GkFragment.GetClearRegionBegin` | extract_sequences/src/common/gkFragment.H:256-264 | the begin of the same version's clear range |
| `GkFragmentHandle.GkFragment.GetClearRegionEnd` | extract_sequences/src/common/gkFragment.H:265-273 | the end of the same version's clear range |
| `GkFragmentHandle.GkFragment.GetClearRegionLength` | extract_sequences/src/common/gkFragment.H:275-284 | end − begin for an ordered range; 2^32 − (begin − end) when begin exceeds end |
| `GkFragmentHandle.GkFragment.SetClearRegion` | extract_sequences/src/common/gkFragment.H:295-301 | needs a bound, writable store; the record's clear fields always take (begin, end) modulo 2^width, so latest reads them back; only a non-latest version hands the untruncated pair to its directory; nothing but the record and that directory changes |
| `GkFragmentHandle.GkFragment.GetReadUID` | extract_sequences/src/common/gkFragment.H:304-308 | the undefined UID under a non-record kind |
| `GkFragmentHandle.GkFragment.GetReadIID` | extract_sequences/src/common/gkFragment.H:310-314 | 0 under a non-record kind |
| `GkFragmentHandle.GkFragment.GetMateIID` | extract_sequences/src/common/gkFragment.H:316-320 | 0 under a non-record kind |
| `GkFragmentHandle.GkFragment.GetLibraryIID` | extract_sequences/src/common/gkFragment.H:322-326 | 0 under a non-record kind |
| `GkFragmentHandle.GkFragment.GetIsDeleted` | extract_sequences/src/common/gkFragment.H:328-332 | 0 or 1; 0 under a non-record kind |
| `GkFragmentHandle.GkFragment.GetIsNonRandom` | extract_sequences/src/common/gkFragment.H:334-338 | 0 or 1; 0 under a non-record kind |
| `GkFragmentHandle.GkFragment.GetOrientation` | extract_sequences/src/common/gkFragment.H:340-344 | a code 0..3, never antinormal; unknown under a non-record kind |
| `GkFragmentHandle.GkFragment.GetSequenceLength` | extract_sequences/src/common/gkFragment.H:346-350 | at most 1048575, at most 255 for a packed record, 0 under a non-record kind |
| `GkFragmentHandle.GkFragment.GetQualityLength` | extract_sequences/src/common/gkFragment.H:352-356 | always equal to the sequence length |
| `GkFragmentHandle.GkFragment.GetSequenceOffset` | extract_sequences/src/common/gkFragment.H:358-373 | the active long record's sequence offset; 0 for packed and the error kind |
| `GkFragmentHandle.GkFragment.GetQualityOffset` | extract_sequences/src/common/gkFragment.H:375-390 | the active long record's quality offset; 0 for packed and the error kind |
| `GkFragmentHandle.GkFragment.GetSequence` | extract_sequences/src/common/gkFragment.H:392-398 | callable only in gatekeeper mode or with bases loaded; returns the handle's sequence buffer itself; in gatekeeper mode it exists, holds 1048576 bytes and is neither the quality nor the encoding buffer |
| `GkFragmentHandle.GkFragment.GetQuality` | extract_sequences/src/common/gkFragment.H:399-402 | callable only in gatekeeper mode or with qualities loaded; returns the handle's quality buffer itself; in gatekeeper mode it exists, holds 1048576 bytes and is neither the sequence nor the encoding buffer |
| `GkFragmentHandle.GkFragment.EnableGatekeeperMode` | extract_sequences/src/common/gkFragment.H:407-419 | the first call sets all three flags, binds the store and allocates three fresh full-size buffers; a later call changes nothing and does not rebind; kind and record never change |
| `GkFragmentHandle.GkFragment.SetType` | extract_sequences/src/common/gkFragment.H:421 | needs gatekeeper mode; only the kind changes, the record is not zeroed |
| `GkFragmentHandle.GkFragment.SetReadUID` | extract_sequences/src/common/gkFragment.H:422 | unguarded; the UID reads back for a record kind; only the record changes |
| `GkFragmentHandle.GkFragment.SetLength` | extract_sequences/src/common/gkFragment.H:423 | needs gatekeeper mode; the length reads back modulo 2^8 (packed) or 2^20 (normal/strobe), 0 with no active kind |
| `GkFragmentHandle.GkFragment.SetLibraryIID` | extract_sequences/src/common/gkFragment.H:424 | unguarded; reads back exactly for a record kind; only the record changes |
| `GkFragmentHandle.GkFragment.SetMateIID` | extract_sequences/src/common/gkFragment.H:425 | unguarded; reads back exactly for a record kind; only the record changes |
| `GkFragmentHandle.GkFragment.SetOrientation` | extract_sequences/src/common/gkFragment.H:427 | unguarded; reads back modulo 4 for a record kind |
| `GkFragmentHandle.GkFragment.SetIsDeleted` | extract_sequences/src/common/gkFragment.H:428 | unguarded; reads back modulo 2 for a record kind |
| `GkFragmentHandle.GkFragment.SetIsNonRandom` | extract_sequences/src/common/gkFragment.H:429 | unguarded; reads back modulo 2 for a record kind |
| `GkFragmentHandle.GkFragment.Clear` | extract_sequences/src/common/gkFragment.H:431 | the record is all zero: every bitfield, identifier and offset reads 0, and the UID is the zero pattern; kind, flags, store and buffers unchanged |
| `GkScenarios.AuthorNormalRead` | extract_sequences/src/common/gkFragment.H:286-301 | an authored normal read of 120 bases with clear (5, 115) set under CLR reports length 120, (5, 115) as its latest range, and clear length 110 |
| `GkScenarios.PackedLengthBoundary` | extract_sequences/src/common/gkFragment.H:117-127 | packed lengths 200 and 255 read back; 256 reads back as 0 and 300 as 44; a normal record keeps 300 |
| `GkScenarios.SetTypeKeepsFields` | extract_sequences/src/common/gkFragment.H:421-431 | a deleted flag survives a switch to normal and back to packed; after clear it reads 0 |
| `GkScenarios.ErrorKindIgnoresWrites` | extract_sequences/src/common/gkFragment.H:198-223 | on a fresh handle (error kind) the unguarded setters change nothing: after switching to a packed record, deleted, orientation and mate read 0 and the UID is the zero pattern of the untouched record |
| `GkScenarios.GatekeeperModeOnce` | extract_sequences/src/common/gkFragment.H:407-419 | a second call with another store keeps the first store and all three first buffers (encoding, sequence, quality) |

## Left out

- Union aliasing (gkFragment.H:452-456): the source overlays the three
  layouts in one union. The model keeps three separate records, so
  reading a layout other than the one last written does not reinterpret
  the other layout's bytes. After `setType` without `clear`, the model
  shows the old contents of the newly selected layout, not its raw-memory
  reinterpretation.
- `safe_malloc`, `safe_free` and the destructor (gkFragment.H:249-253,
  415-417): each buffer is an array that is either absent or allocated. A
  destructor has no Dafny counterpart.
- The store and the clear-range directory are not part of this model; the
  file shows only `gkp->isReadOnly` and `gkp->clearRange[which]`. The
  directory is modelled as a map from each version that has a directory
  (1..16) to the pair it keeps for the read in hand; its set replaces that
  pair. The map is not keyed by read, and a new directory starts at (0, 0).
  A version outside the map is excluded by a precondition: the source would
  index past the directory array or follow a null pointer there.
- `AS_UID` and `AS_IID` are not part of this model. A UID is an opaque value.
  Local identifiers are unbounded naturals, stored without truncation.
- GkRecords.Uid: the model assumes that the undefined UID (`UidUndefined`)
  and the all-zero pattern a cleared record holds (`UidZero`) are different
  values. The file does not show whether they coincide, so a UID read from a
  cleared record may in fact equal the undefined UID, which the model cannot
  express.
- `tiid`, the legacy `clrBgn`/`vecBgn`/`maxBgn`/`tntBgn` pairs
  (gkFragment.H:236-239, 436, 444-447) and the layouts' pad bits: these are
  plain storage with no logic beyond being zeroed.
- The commented-out offset assertions (gkFragment.H:366, 383) are not active
  code.
- `hasSEQ`, `hasQLT`, `isGKP` and `isReadOnly` are `uint32` flags in the
  source and booleans here (nonzero is true). The store's own code, which
  sets `hasSEQ`, `hasQLT`, the byte offsets and the record from disk, is
  not part of this model, so this file has no setter for the offsets.
- The contents of the byte buffers are not modelled: the buffers exist
  with their capacity, and nothing is read from or written into them.
