/** The fixed-width text helpers of the Go daemon. Go strings are byte
    sequences, so every length here counts bytes. */
module GoText {
  import opened Bytes

  /** Cut to `width`, or fill on the right with spaces up to `width`. */
  function PadRight(s: seq<byte>, width: nat): (r: seq<byte>)
    ensures |r| == width
    ensures |s| >= width ==> r == s[..width]
    ensures |s| < width ==> r[..|s|] == s && forall i :: |s| <= i < width ==> r[i] == SPACE
  {
    if |s| >= width then s[..width] else s + Repeat(SPACE, width - |s|)
  }

  /** Cut to `width`, or put the text in the middle: `pad / 2` spaces on the
      left and the rest (never fewer) on the right. */
  function CenterString(s: seq<byte>, width: nat): (r: seq<byte>)
    ensures |r| == width
    ensures |s| >= width ==> r == s[..width]
    ensures |s| < width ==>
      var left := (width - |s|) / 2;
      && r[left..left + |s|] == s
      && (forall i :: 0 <= i < left ==> r[i] == SPACE)
      && (forall i :: left + |s| <= i < width ==> r[i] == SPACE)
      && left <= width - |s| - left <= left + 1
  {
    if |s| >= width then s[..width]
    else
      var padding := width - |s|;
      var left := padding / 2;
      Repeat(SPACE, left) + s + Repeat(SPACE, padding - left)
  }

  /** Padding a text that already has the width changes nothing, so applying
      either helper twice is applying it once. */
  lemma FitIdempotent(s: seq<byte>, width: nat)
    ensures PadRight(PadRight(s, width), width) == PadRight(s, width)
    ensures CenterString(CenterString(s, width), width) == CenterString(s, width)
  {
  }
}
