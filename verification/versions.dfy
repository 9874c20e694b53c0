/**
 * The MeshRoot block selector: the importer's enum option names a format
 * revision, which `start_import` turns into `godVersion`.
 */
module MeshRoot {

  /** The revisions the selector can name; no option selects revision 4. */
  predicate IsVersion(v: int) {
    v in {1, 2, 3, 5, 6, 7, 8, 9, 10, 11, 12, 13}
  }

  function DigitChar(d: nat): char
    requires d < 10
  {
    "0123456789"[d]
  }

  /** Decimal rendering of a natural number, without leading zeros. */
  function Decimal(n: nat): (s: string)
    ensures |s| >= 1
  {
    if n < 10 then [DigitChar(n)] else Decimal(n / 10) + [DigitChar(n % 10)]
  }

  /** "MeshRootBlock<n>", the option value that names revision `n`. */
  function BlockName(n: nat): string {
    "MeshRootBlock" + Decimal(n)
  }

  /** The if/elif chain of `start_import`: eleven names map to their revision,
      everything else, "MeshRootBlock1" included, to revision 1. */
  function VersionOf(meshRoot: string): (v: int)
    ensures IsVersion(v)
  {
    if meshRoot == "MeshRootBlock13" then 13
    else if meshRoot == "MeshRootBlock12" then 12
    else if meshRoot == "MeshRootBlock11" then 11
    else if meshRoot == "MeshRootBlock10" then 10
    else if meshRoot == "MeshRootBlock9" then 9
    else if meshRoot == "MeshRootBlock8" then 8
    else if meshRoot == "MeshRootBlock7" then 7
    else if meshRoot == "MeshRootBlock6" then 6
    else if meshRoot == "MeshRootBlock5" then 5
    else if meshRoot == "MeshRootBlock3" then 3
    else if meshRoot == "MeshRootBlock2" then 2
    else 1
  }

  /** Every named revision round-trips through its block name. */
  lemma VersionOfBlockName(n: nat)
    requires IsVersion(n)
    ensures VersionOf(BlockName(n)) == n
  {
    DecimalSmall();
    if n == 1 {
      assert BlockName(1) == "MeshRootBlock1";
    } else if n == 2 {
      assert BlockName(2) == "MeshRootBlock2";
    } else if n == 3 {
      assert BlockName(3) == "MeshRootBlock3";
    } else if n == 5 {
      assert BlockName(5) == "MeshRootBlock5";
    } else if n == 6 {
      assert BlockName(6) == "MeshRootBlock6";
    } else if n == 7 {
      assert BlockName(7) == "MeshRootBlock7";
    } else if n == 8 {
      assert BlockName(8) == "MeshRootBlock8";
    } else if n == 9 {
      assert BlockName(9) == "MeshRootBlock9";
    } else if n == 10 {
      assert BlockName(10) == "MeshRootBlock10";
    } else if n == 11 {
      assert BlockName(11) == "MeshRootBlock11";
    } else if n == 12 {
      assert BlockName(12) == "MeshRootBlock12";
    } else {
      assert BlockName(13) == "MeshRootBlock13";
    }
  }

  lemma DecimalSmall()
    ensures Decimal(1) == "1" && Decimal(2) == "2" && Decimal(3) == "3" && Decimal(5) == "5"
    ensures Decimal(6) == "6" && Decimal(7) == "7" && Decimal(8) == "8" && Decimal(9) == "9"
    ensures Decimal(10) == "10" && Decimal(11) == "11" && Decimal(12) == "12" && Decimal(13) == "13"
  {
  }

  /** A revision other than 1 is selected only by its own block name; so an
      unknown option, or a near miss, falls back to revision 1. */
  lemma VersionOfNamesOnly(meshRoot: string)
    ensures VersionOf(meshRoot) == 1 || meshRoot == BlockName(VersionOf(meshRoot))
  {
    DecimalSmall();
  }
}
