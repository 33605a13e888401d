/** Numeric codes and display-name tables shared by every fragment record:
    mate orientations, clear-range versions and record kinds. */
module GkConstants {

  /** The source's `uint32` and `uint64`. */
  type U32 = x: int | 0 <= x < 0x1_0000_0000
  type U64 = x: int | 0 <= x < 0x1_0000_0000_0000_0000

  /** Number of distinct values of a `uint32`; unsigned arithmetic wraps modulo this. */
  const U32Modulus: nat := 0x1_0000_0000

  /** 2 to the power `n`: the number of values an `n`-bit unsigned bitfield can hold. */
  function Pow2(n: nat): (r: nat)
    ensures r > 0
  {
    if n == 0 then 1 else 2 * Pow2(n - 1)
  }

  /** `uint32` subtraction: `e - b` wrapped into 32 bits, as C computes it. */
  function U32Sub(e: U32, b: U32): (r: U32)
    ensures b <= e ==> r == e - b
    ensures e < b ==> r == U32Modulus - (b - e)
    ensures (r + b) % U32Modulus == e
  {
    (e - b) % U32Modulus
  }

  // ---------------------------------------------------------------------
  // Mate orientations

  const OrientUnknown: U32 := 0
  const OrientInnie: U32 := 1
  const OrientOuttie: U32 := 2
  const OrientNormal: U32 := 3
  /** Not a valid mate orientation; kept for symmetry. */
  const OrientAntinormal: U32 := 4

  const OrientNames: seq<string> := ["U", "I", "O", "N", "A"]

  /** The one-letter display name of an orientation code. */
  function OrientName(o: U32): (name: string)
    requires o <= OrientAntinormal
    ensures |name| == 1
    ensures name[0] == "UIONA"[o]
  {
    OrientNames[o]
  }

  // ---------------------------------------------------------------------
  // Clear-range versions

  /** Not a stored version: "read the record's own clear fields". */
  const ClearLatest: U32 := 0
  const ClearClr: U32 := 1
  const ClearVec: U32 := 2
  const ClearMax: U32 := 3
  const ClearTnt: U32 := 4
  const ClearObtInitial: U32 := 5
  const ClearObtMerge: U32 := 6
  const ClearObtChimera: U32 := 7
  const ClearEcr0: U32 := 8
  const ClearEcr8: U32 := 16
  const ClearError: U32 := 255
  const ClearNum: U32 := 17

  const ClearNames: seq<string> := [
    "LATEST",
    "CLR", "VEC", "MAX", "TAINT",
    "OBTINITIAL", "OBTMERGE", "OBTCHIMERA",
    "ECR_0", "ECR_1", "ECR_2", "ECR_3", "ECR_4", "ECR_5", "ECR_6", "ECR_7", "ECR_8"
  ]

  /** The display name of a clear-range version.  The nine extend-clear-range
      iterations are named `ECR_` followed by their iteration digit. */
  function ClearName(which: U32): (name: string)
    requires which < ClearNum
    ensures (which == ClearLatest) == (name == "LATEST")
    ensures ClearEcr0 <= which ==> name == "ECR_" + [('0' as int + (which - ClearEcr0)) as char]
    ensures (which == ClearClr) == (name == "CLR")
    ensures (which == ClearVec) == (name == "VEC")
    ensures (which == ClearMax) == (name == "MAX")
    ensures (which == ClearTnt) == (name == "TAINT")
    ensures (which == ClearObtInitial) == (name == "OBTINITIAL")
    ensures (which == ClearObtMerge) == (name == "OBTMERGE")
    ensures (which == ClearObtChimera) == (name == "OBTCHIMERA")
    ensures which < ClearEcr0 ==> |name| >= 3 && name[0] != 'E'
  {
    ClearNames[which]
  }

  /** No two clear-range versions share a display name, so a name read back
      from a file or a user identifies exactly one version. */
  lemma ClearNamesDistinct(i: U32, j: U32)
    requires i < ClearNum && j < ClearNum && i != j
    ensures ClearName(i) != ClearName(j)
  {
  }

  // ---------------------------------------------------------------------
  // Record kinds

  const GkFragmentError: U32 := 0
  const GkFragmentPacked: U32 := 1
  const GkFragmentNormal: U32 := 2
  const GkFragmentStrobe: U32 := 3
  const TypeNum: U32 := 4

  const TypeNames: seq<string> := ["ERROR", "PACKED", "NORMAL", "STROBE"]

  /** The display name of a record kind. */
  function TypeName(t: U32): (name: string)
    requires t < TypeNum
    ensures (t == GkFragmentError) == (name == "ERROR")
    ensures (t == GkFragmentPacked) == (name == "PACKED")
    ensures (t == GkFragmentNormal) == (name == "NORMAL")
    ensures (t == GkFragmentStrobe) == (name == "STROBE")
  {
    TypeNames[t]
  }

  /** Every defined code indexes its name table in bounds, and the error
      sentinel for clear ranges lies outside the table. */
  lemma NameTablesCoverCodes()
    ensures |OrientNames| == OrientAntinormal + 1
    ensures |ClearNames| == ClearNum == ClearEcr8 + 1
    ensures |TypeNames| == TypeNum == GkFragmentStrobe + 1
    ensures ClearError >= ClearNum
  {
  }
}
