/**
 * Names inside the slice archive.  An archive `B.<ext>` holds the G-code entry
 * `B.slice/B.gcode` and one PNG per slice, `B.slice/B<index>.png`, the index
 * zero-padded to one more character than the decimal spelling of the slice
 * count announced in the G-code.
 */
module Entries {
  import opened Wrappers
  import opened Text

  /** The position of the first `c` in `s` (`String.indexOf`), None where Java returns -1. */
  function IndexOf(s: string, c: char): (r: Option<nat>)
    ensures r.Some? ==> r.value < |s| && s[r.value] == c && c !in s[..r.value]
    ensures r.None? <==> c !in s
    decreases |s|
  {
    if s == [] then None
    else if s[0] == c then Some(0)
    else
      match IndexOf(s[1..], c)
      case None => None
      case Some(k) =>
        assert s[..k + 1] == [s[0]] + s[1..][..k];
        Some(k + 1)
  }

  /**
   * The archive's base name: the file name up to its first dot.  Java's
   * `substring(0, indexOf('.'))` throws for a name without a dot; that is None.
   */
  function BaseName(fileName: string): (r: Option<string>)
    ensures r.None? <==> '.' !in fileName
    ensures r.Some? ==> '.' !in r.value && r.value + ['.'] <= fileName
  {
    match IndexOf(fileName, '.')
    case None => None
    case Some(k) =>
      assert fileName[..k + 1] == fileName[..k] + ['.'];
      Some(fileName[..k])
  }

  /** The directory every entry sits in. */
  function SliceFolder(base: string): string {
    base + ".slice/"
  }

  /** The G-code entry the driver reads line by line. */
  function GcodeEntry(base: string): string {
    SliceFolder(base) + base + ".gcode"
  }

  /** `(sliceCount + "").length() + 1`: the width the slice index is padded to. */
  function PadWidth(sliceCount: nat): nat {
    |Decimal(sliceCount)| + 1
  }

  /** The PNG entry drawn for slice `index` of an archive announcing `sliceCount` slices. */
  function ImageEntry(base: string, sliceCount: nat, index: nat): string {
    SliceFolder(base) + base + ZeroPad(index, PadWidth(sliceCount)) + ".png"
  }

  /**
   * The image a slice directive asks for: slice `index` of the archive `base`,
   * which announced `sliceCount` slices.  Its entry name is `Name()`.
   */
  datatype ImageRef = ImageRef(base: string, sliceCount: nat, index: nat) {
    function Name(): string {
      ImageEntry(base, sliceCount, index)
    }
  }

  lemma SplitThree(a: string, p: string, x: string)
    ensures var e := a + p + x;
      e[..|a|] == a && e[|e| - |x|..] == x && e[|a|..|e| - |x|] == p
  {
  }

  /**
   * An image entry splits back into its folder, the base name, a digit run that
   * reads as the index and is at least the pad width and never shorter than the
   * index's own digits, and the `.png` extension.
   */
  lemma ImageEntryParts(base: string, sliceCount: nat, index: nat)
    ensures var e := ImageEntry(base, sliceCount, index);
      var n := |SliceFolder(base) + base|;
      var digits := e[n..|e| - 4];
      && e[..n] == SliceFolder(base) + base
      && e[|e| - 4..] == ".png"
      && AllDigits(digits) && DigitsValue(digits) == index
      && |digits| == Max(|Decimal(sliceCount)| + 1, |Decimal(index)|)
  {
    var p := ZeroPad(index, PadWidth(sliceCount));
    assert ImageEntry(base, sliceCount, index) == (SliceFolder(base) + base) + p + ".png";
    SplitThree(SliceFolder(base) + base, p, ".png");
  }

  /** Different slices of one archive never share an entry. */
  lemma ImageEntryInjective(base: string, sliceCount: nat, i: nat, j: nat)
    requires ImageEntry(base, sliceCount, i) == ImageEntry(base, sliceCount, j)
    ensures i == j
  {
    ImageEntryParts(base, sliceCount, i);
    ImageEntryParts(base, sliceCount, j);
  }

  /** No image entry is the G-code entry. */
  lemma ImageEntryIsNotGcode(base: string, sliceCount: nat, index: nat)
    ensures ImageEntry(base, sliceCount, index) != GcodeEntry(base)
  {
    var e := ImageEntry(base, sliceCount, index);
    var g := GcodeEntry(base);
    assert e[|e| - 1] == 'g';
    assert g[|g| - 1] == 'e';
  }

  lemma ElevenSlicesPad()
    ensures ZeroPad(3, PadWidth(11)) == "003"
  {
    assert Decimal(1) == "1";
    assert Decimal(11) == "1" + "1";
    assert Decimal(3) == "3";
    assert Zeros(2) == "00";
    assert ZeroPad(3, 3) == "00" + "3";
  }

  /** Eleven slices give a width of three: slice 3 of `B` is `B.slice/B003.png`. */
  lemma ElevenSlicesExample()
    ensures ImageEntry("B", 11, 3) == "B.slice/B003.png"
  {
    ElevenSlicesPad();
  }

  lemma NoTruncationPad()
    ensures ZeroPad(123, PadWidth(9)) == "123"
  {
    assert Decimal(9) == "9";
    assert Decimal(1) == "1";
    assert Decimal(12) == "1" + "2";
    assert Decimal(123) == "12" + "3";
  }

  /** An index wider than the pad is written in full: slice 123 of nine slices is `B123`. */
  lemma NoTruncationExample()
    ensures ImageEntry("B", 9, 123) == "B.slice/B123.png"
  {
    NoTruncationPad();
  }
}
