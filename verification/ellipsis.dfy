/**
 * The truncation decision of `drawTextEllipsis` in renderer.js. The canvas
 * text measurement is a parameter `width`; drawing itself is not modelled.
 */
module Ellipsis {

  const Ell := "…"

  /** The loop of `drawTextEllipsis`: drop the last character while the text
      with the ellipsis appended is still wider than `maxW`. It stops at the
      longest prefix that fits with the ellipsis, or at the empty string. */
  function Shorten(t: string, maxW: real, width: string -> real): (k: string)
    ensures |k| <= |t| && k == t[..|k|]
    ensures |k| == 0 || width(k + Ell) <= maxW
    ensures forall j :: |k| < j <= |t| ==> width(t[..j] + Ell) > maxW
    decreases |t|
  {
    if |t| > 0 && width(t + Ell) > maxW then
      var k := Shorten(t[..|t| - 1], maxW, width);
      assert forall j :: |k| < j < |t| ==> t[..|t| - 1][..j] == t[..j];
      assert t[..|t|] == t;
      k
    else t
  }

  /** The text drawn: the whole text when it fits, else the shortened text
      followed by the ellipsis. */
  function EllipsisText(text: string, maxW: real, width: string -> real): (r: string)
    ensures width(text) <= maxW ==> r == text
    ensures width(text) > maxW ==> exists k :: 0 <= k <= |text| && r == text[..k] + Ell
    ensures width(text) > maxW ==> r == Shorten(text, maxW, width) + Ell
  {
    if width(text) <= maxW then text
    else
      var k := Shorten(text, maxW, width);
      assert k == text[..|k|];
      k + Ell
  }

  /** The drawn text fits whenever the ellipsis alone fits. */
  lemma EllipsisFits(text: string, maxW: real, width: string -> real)
    requires width(Ell) <= maxW
    ensures width(EllipsisText(text, maxW, width)) <= maxW
  {
    if width(text) > maxW {
      var k := Shorten(text, maxW, width);
      if |k| == 0 {
        assert k + Ell == Ell;
      }
    }
  }

  /** When appending the ellipsis never makes a text narrower, a text that
      does not fit loses at least one character. */
  lemma EllipsisShortens(text: string, maxW: real, width: string -> real)
    requires |text| > 0 && width(text) > maxW
    requires width(text + Ell) >= width(text)
    ensures |Shorten(text, maxW, width)| < |text|
  {
    assert text[..|text|] == text;
  }
}
