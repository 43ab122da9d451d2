/** The contrast sampler of `checkTextContrast`: which boxes are sampled,
    where the background band lies, the WCAG 2.x contrast ratio and the
    threshold decision. The image decoder is external: its size is a
    parameter and pixel extraction is a function from a rectangle to the raw
    bytes of that region, `None` when the extraction throws. */
module Contrast {
  import opened Boxes

  datatype Color = Color(r: Byte, g: Byte, b: Byte)

  /** The raw bytes of a region, or `None` when extraction fails. */
  type Extractor = Rect -> Option<seq<Byte>>

  /** The exponent branch `x => x^2.4` of the sRGB transfer function, which
      the model leaves abstract, maps [0, 1] into [0, 1]. */
  ghost predicate GammaInUnit(gamma: real -> real) {
    forall x :: 0.0 <= x <= 1.0 ==> 0.0 <= gamma(x) <= 1.0
  }

  /** One channel of `luminance`: `v / 255`, then the piecewise transfer
      function of the relative-luminance definition of WCAG 2.1. */
  function Linearize(v: Byte, gamma: real -> real): (l: real)
    requires GammaInUnit(gamma)
    ensures 0.0 <= l <= 1.0
  {
    var c := v as real / 255.0;
    if c <= 0.03928 then c / 12.92 else gamma((c + 0.055) / 1.055)
  }

  /** `luminance(rgb)`: the weighted channel sum, always within [0, 1]. */
  function Luminance(rgb: Color, gamma: real -> real): (l: real)
    requires GammaInUnit(gamma)
    ensures 0.0 <= l <= 1.0
  {
    0.2126 * Linearize(rgb.r, gamma) + 0.7152 * Linearize(rgb.g, gamma) + 0.0722 * Linearize(rgb.b, gamma)
  }

  function MaxReal(a: real, b: real): real {
    if a >= b then a else b
  }

  function MinReal(a: real, b: real): real {
    if a <= b then a else b
  }

  /** `(max(l1, l2) + 0.05) / (min(l1, l2) + 0.05)` for two luminances in
      [0, 1]: the ratio lies between 1 and 21. */
  function LuminanceRatio(l1: real, l2: real): (ratio: real)
    requires 0.0 <= l1 <= 1.0 && 0.0 <= l2 <= 1.0
    ensures 1.0 <= ratio <= 21.0
  {
    var hi, lo := MaxReal(l1, l2) + 0.05, MinReal(l1, l2) + 0.05;
    assert 0.05 <= lo <= hi <= 1.05;
    RatioBounds(hi, lo);
    hi / lo
  }

  lemma RatioBounds(hi: real, lo: real)
    requires 0.05 <= lo <= hi <= 1.05
    ensures 1.0 <= hi / lo <= 21.0
  {
    assert hi / lo * lo == hi;
  }

  /** `contrastRatio(c1, c2)`: always between 1 (no contrast) and 21. */
  function ContrastRatio(c1: Color, c2: Color, gamma: real -> real): (ratio: real)
    requires GammaInUnit(gamma)
    ensures 1.0 <= ratio <= 21.0
  {
    LuminanceRatio(Luminance(c1, gamma), Luminance(c2, gamma))
  }

  /** The ratio does not depend on which luminance is the text's, and a
      luminance against itself has ratio exactly 1. */
  lemma LuminanceRatioSymmetric(l1: real, l2: real)
    requires 0.0 <= l1 <= 1.0 && 0.0 <= l2 <= 1.0
    ensures LuminanceRatio(l1, l2) == LuminanceRatio(l2, l1)
    ensures LuminanceRatio(l1, l1) == 1.0
  {
    assert MaxReal(l1, l2) == MaxReal(l2, l1) && MinReal(l1, l2) == MinReal(l2, l1);
    var l := l1 + 0.05;
    assert l / l == 1.0;
  }

  /** The ratio does not depend on which color is the text and which the
      background, and a color against itself has ratio exactly 1. */
  lemma ContrastRatioSymmetric(c1: Color, c2: Color, gamma: real -> real)
    requires GammaInUnit(gamma)
    ensures ContrastRatio(c1, c2, gamma) == ContrastRatio(c2, c1, gamma)
    ensures ContrastRatio(c1, c1, gamma) == 1.0
  {
    LuminanceRatioSymmetric(Luminance(c1, gamma), Luminance(c2, gamma));
  }

  /** When the exponent branch sends 1 to 1, black on white has ratio 21. */
  lemma BlackOnWhite(gamma: real -> real)
    requires GammaInUnit(gamma) && gamma(1.0) == 1.0
    ensures ContrastRatio(Color(0, 0, 0), Color(255, 255, 255), gamma) == 21.0
  {
    assert Linearize(255, gamma) == 1.0 by {
      assert (255 as Byte) as real / 255.0 == 1.0;
      assert (1.0 + 0.055) / 1.055 == 1.0;
    }
    assert Linearize(0, gamma) == 0.0;
    assert Luminance(Color(255, 255, 255), gamma) == 1.0;
    assert Luminance(Color(0, 0, 0), gamma) == 0.0;
  }

  /** The WCAG 2.1 success criterion 1.4.3 minimum for normal text. */
  const DefaultThreshold: real := 4.5

  /** A rectangle of positive size that lies inside an image of the given size. */
  predicate InsideImage(r: Rect, imgWidth: int, imgHeight: int) {
    r.w > 0 && r.h > 0 && r.x >= 0 && r.y >= 0 && r.x + r.w <= imgWidth && r.y + r.h <= imgHeight
  }

  /** A box is sampled only if it has a positive size and lies inside the image. */
  predicate Eligible(t: TextBox, imgWidth: int, imgHeight: int) {
    InsideImage(RectOf(t), imgWidth, imgHeight)
  }

  /** `bgTop = Math.max(t.y - 5, 0)`. */
  function BandTop(t: TextBox): int {
    if t.y - 5 >= 0 then t.y - 5 else 0
  }

  /** The 5-pixel background band: same left edge and width as the box. */
  function BackgroundBand(t: TextBox): Rect {
    Rect(t.x, BandTop(t), t.w, 5)
  }

  predicate BandFits(t: TextBox, imgHeight: int) {
    BandTop(t) + 5 <= imgHeight
  }

  /** For a sampled box, the band sits directly above it when the box is at
      least 5 px from the top; otherwise it is clamped to the top rows and
      overlaps the box, and it is only used when the image is at least 5 px
      high. */
  lemma BandPlacement(t: TextBox, imgWidth: int, imgHeight: int)
    requires Eligible(t, imgWidth, imgHeight)
    ensures BackgroundBand(t).x == t.x && BackgroundBand(t).w == t.w && BackgroundBand(t).y >= 0
    ensures t.y >= 5 ==> BackgroundBand(t).y + 5 == t.y && BandFits(t, imgHeight)
    ensures t.y < 5 ==> BackgroundBand(t).y == 0 && (BandFits(t, imgHeight) <==> imgHeight >= 5)
    ensures BandFits(t, imgHeight) <==> t.y >= 5 || imgHeight >= 5
  {
  }

  /** The eligibility test is exactly "the text rectangle lies inside the
      image", and once the band fits, both extractions are asked for
      rectangles inside the image. */
  lemma SampledInside(t: TextBox, imgWidth: int, imgHeight: int)
    ensures Eligible(t, imgWidth, imgHeight) <==> InsideImage(RectOf(t), imgWidth, imgHeight)
    ensures Eligible(t, imgWidth, imgHeight) && BandFits(t, imgHeight) ==>
      InsideImage(BackgroundBand(t), imgWidth, imgHeight)
  {
  }

  /** The first three bytes of a raw buffer, which are the first pixel when
      the image has at least three channels. A buffer shorter than three bytes
      reads `undefined` for the missing ones, the luminance is NaN and no
      comparison holds: `None`. */
  function FirstColor(buffer: seq<Byte>): (c: Option<Color>)
    ensures c.Some? <==> |buffer| >= 3
    ensures c.Some? ==> c.value.r == buffer[0] && c.value.g == buffer[1] && c.value.b == buffer[2]
  {
    if |buffer| >= 3 then Some(Color(buffer[0], buffer[1], buffer[2])) else None
  }

  /** The text color and the background color sampled for a box, when both
      extractions succeed and both buffers hold at least three bytes. */
  function SampleColors(t: TextBox, extract: Extractor): (r: Option<(Color, Color)>)
    ensures r.Some? <==>
      extract(RectOf(t)).Some? && extract(BackgroundBand(t)).Some? &&
      |extract(RectOf(t)).value| >= 3 && |extract(BackgroundBand(t)).value| >= 3
    ensures r.Some? ==>
      Some(r.value.0) == FirstColor(extract(RectOf(t)).value) &&
      Some(r.value.1) == FirstColor(extract(BackgroundBand(t)).value)
  {
    var roi := extract(RectOf(t));
    var bg := extract(BackgroundBand(t));
    if roi.None? || bg.None? then None
    else
      var text, back := FirstColor(roi.value), FirstColor(bg.value);
      if text.None? || back.None? then None else Some((text.value, back.value))
  }

  /** What the loop body does with one box: the issue it emits, if any. An
      issue is emitted iff the box is sampled, the band fits, both samples
      succeed and the ratio is strictly below the threshold. */
  function BoxContrast(t: TextBox, imgWidth: int, imgHeight: int, extract: Extractor,
                       gamma: real -> real, threshold: real): (r: Option<ContrastIssue>)
    requires GammaInUnit(gamma)
    ensures r.Some? <==>
      Eligible(t, imgWidth, imgHeight) && BandFits(t, imgHeight) && SampleColors(t, extract).Some? &&
      ContrastRatio(SampleColors(t, extract).value.0, SampleColors(t, extract).value.1, gamma) < threshold
    ensures r.Some? ==>
      r.value.text == t.text && r.value.position == RectOf(t) &&
      r.value.ratio < threshold && r.value.threshold == threshold && 1.0 <= r.value.ratio <= 21.0
  {
    if !Eligible(t, imgWidth, imgHeight) then None
    else if !BandFits(t, imgHeight) then None
    else
      match SampleColors(t, extract)
      case None => None
      case Some((text, back)) =>
        var ratio := ContrastRatio(text, back, gamma);
        if ratio < threshold then Some(ContrastIssue(t.text, RectOf(t), ratio, threshold)) else None
  }

  /** The issues `checkTextContrast` returns for `boxes`, in input order. */
  function ContrastIssues(boxes: seq<TextBox>, imgWidth: int, imgHeight: int, extract: Extractor,
                          gamma: real -> real, threshold: real): (r: seq<ContrastIssue>)
    requires GammaInUnit(gamma)
    ensures |r| <= |boxes|
    ensures forall k :: 0 <= k < |r| ==> r[k].ratio < threshold
  {
    if boxes == [] then []
    else
      var t := boxes[|boxes| - 1];
      var one := BoxContrast(t, imgWidth, imgHeight, extract, gamma, threshold);
      ContrastIssues(boxes[..|boxes| - 1], imgWidth, imgHeight, extract, gamma, threshold)
        + (if one.Some? then [one.value] else [])
  }

  /** `checkTextContrast(imageBuffer, textData, threshold)`, with the image
      size and the pixel extraction given; the extractions run one box after
      the other. */
  method CheckTextContrast(imgWidth: int, imgHeight: int, textData: seq<TextBox>, extract: Extractor,
                           gamma: real -> real, threshold: real) returns (issues: seq<ContrastIssue>)
    requires GammaInUnit(gamma)
    ensures issues == ContrastIssues(textData, imgWidth, imgHeight, extract, gamma, threshold)
  {
    issues := [];
    for i := 0 to |textData|
      invariant issues == ContrastIssues(textData[..i], imgWidth, imgHeight, extract, gamma, threshold)
    {
      var t := textData[i];
      assert textData[..i + 1][..i] == textData[..i];
      if t.w > 0 && t.h > 0 && t.x >= 0 && t.y >= 0 && t.x + t.w <= imgWidth && t.y + t.h <= imgHeight {
        var roi := extract(Rect(t.x, t.y, t.w, t.h));
        if roi.Some? {
          var bgTop := if t.y - 5 >= 0 then t.y - 5 else 0;
          if bgTop + 5 <= imgHeight {
            var bg := extract(Rect(t.x, bgTop, t.w, 5));
            if bg.Some? {
              var textColor, bgColor := FirstColor(roi.value), FirstColor(bg.value);
              if textColor.Some? && bgColor.Some? {
                var ratio := ContrastRatio(textColor.value, bgColor.value, gamma);
                if ratio < threshold {
                  issues := issues + [ContrastIssue(t.text, Rect(t.x, t.y, t.w, t.h), ratio, threshold)];
                }
              }
            }
          }
        }
      }
    }
    assert textData[..|textData|] == textData;
  }

  /** The loop treats each box on its own. */
  lemma {:induction false} ContrastAppend(a: seq<TextBox>, b: seq<TextBox>, imgWidth: int, imgHeight: int,
                                           extract: Extractor, gamma: real -> real, threshold: real)
    requires GammaInUnit(gamma)
    ensures ContrastIssues(a + b, imgWidth, imgHeight, extract, gamma, threshold)
         == ContrastIssues(a, imgWidth, imgHeight, extract, gamma, threshold)
          + ContrastIssues(b, imgWidth, imgHeight, extract, gamma, threshold)
  {
    if b == [] {
      assert a + b == a;
    } else {
      assert (a + b)[..|a + b| - 1] == a + b[..|b| - 1];
      ContrastAppend(a, b[..|b| - 1], imgWidth, imgHeight, extract, gamma, threshold);
    }
  }

  /** A box whose extraction fails is skipped and the loop carries on with
      the boxes after it. */
  lemma ExtractionFailureSkips(a: seq<TextBox>, t: TextBox, b: seq<TextBox>, imgWidth: int, imgHeight: int,
                               extract: Extractor, gamma: real -> real, threshold: real)
    requires GammaInUnit(gamma)
    requires extract(RectOf(t)).None? || extract(BackgroundBand(t)).None?
    ensures ContrastIssues(a + [t] + b, imgWidth, imgHeight, extract, gamma, threshold)
         == ContrastIssues(a, imgWidth, imgHeight, extract, gamma, threshold)
          + ContrastIssues(b, imgWidth, imgHeight, extract, gamma, threshold)
  {
    var A := ContrastIssues(a, imgWidth, imgHeight, extract, gamma, threshold);
    var B := ContrastIssues(b, imgWidth, imgHeight, extract, gamma, threshold);
    ContrastAppend(a + [t], b, imgWidth, imgHeight, extract, gamma, threshold);
    ContrastAppend(a, [t], imgWidth, imgHeight, extract, gamma, threshold);
    SkippedBox(t, imgWidth, imgHeight, extract, gamma, threshold);
    assert ContrastIssues(a + [t], imgWidth, imgHeight, extract, gamma, threshold) == A + [];
    assert A + [] == A;
  }

  lemma SkippedBox(t: TextBox, imgWidth: int, imgHeight: int, extract: Extractor, gamma: real -> real,
                   threshold: real)
    requires GammaInUnit(gamma)
    requires extract(RectOf(t)).None? || extract(BackgroundBand(t)).None?
    ensures ContrastIssues([t], imgWidth, imgHeight, extract, gamma, threshold) == []
  {
    assert SampleColors(t, extract).None?;
    assert [t][..0] == [];
  }

  /** An issue is in the result exactly when some box's loop body emits it. */
  lemma {:induction false} ContrastMembers(boxes: seq<TextBox>, imgWidth: int, imgHeight: int, extract: Extractor,
                                            gamma: real -> real, threshold: real, issue: ContrastIssue)
    requires GammaInUnit(gamma)
    ensures issue in ContrastIssues(boxes, imgWidth, imgHeight, extract, gamma, threshold) <==>
      exists t :: t in boxes && BoxContrast(t, imgWidth, imgHeight, extract, gamma, threshold) == Some(issue)
  {
    if boxes != [] {
      var init := boxes[..|boxes| - 1];
      ContrastMembers(init, imgWidth, imgHeight, extract, gamma, threshold, issue);
      assert boxes == init + [boxes[|boxes| - 1]];
      assert forall t :: t in boxes <==> t in init || t == boxes[|boxes| - 1];
    }
  }
}
