/** The rule engine: the box validity predicate and the five detectors
    (text size, button size, heading hierarchy, vertical spacing, alignment).
    Each detector is a loop that appends to a local issue list; each is proved
    equal to a specification function, and the properties the rule promises
    are lemmas about that function. */
module Rules {
  import opened Boxes
  import opened Sorting

  /** `isValidBox`: the text and the four coordinates are typed, so what is
      left to check is a positive width and height. */
  predicate IsValidBox(t: TextBox) {
    t.w > 0 && t.h > 0
  }

  // ---------------------------------------------------------------- text size

  predicate IsSmallText(t: TextBox, minSizePx: int) {
    IsValidBox(t) && t.h < minSizePx
  }

  function TextSizeIssue(t: TextBox, minSizePx: int): Issue {
    Issue(RectOf(t), Text, TextTooSmall(t.h, minSizePx), High)
  }

  /** The issues `checkTextSize` emits for `boxes`, one per flagged box, in
      input order. */
  function TextSizeIssues(boxes: seq<TextBox>, minSizePx: int): (r: seq<Issue>)
    ensures |r| <= |boxes|
    ensures forall k :: 0 <= k < |r| ==>
      r[k].kind == Text && r[k].severity == High &&
      0 < r[k].boundingBox.h < minSizePx && r[k].boundingBox.w > 0
  {
    if boxes == [] then []
    else
      var t := boxes[|boxes| - 1];
      TextSizeIssues(boxes[..|boxes| - 1], minSizePx)
        + (if IsSmallText(t, minSizePx) then [TextSizeIssue(t, minSizePx)] else [])
  }

  /** `checkTextSize(textData, minSizePx)`. */
  method CheckTextSize(textData: seq<TextBox>, minSizePx: int) returns (issues: seq<Issue>)
    ensures issues == TextSizeIssues(textData, minSizePx)
  {
    issues := [];
    for i := 0 to |textData|
      invariant issues == TextSizeIssues(textData[..i], minSizePx)
    {
      var t := textData[i];
      if IsValidBox(t) && t.h < minSizePx {
        issues := issues + [TextSizeIssue(t, minSizePx)];
      }
      assert textData[..i + 1][..i] == textData[..i];
    }
    assert textData[..|textData|] == textData;
  }

  /** The detector handles each box on its own: input order is kept. */
  lemma {:induction false} TextSizeAppend(a: seq<TextBox>, b: seq<TextBox>, minSizePx: int)
    ensures TextSizeIssues(a + b, minSizePx) == TextSizeIssues(a, minSizePx) + TextSizeIssues(b, minSizePx)
  {
    if b == [] {
      assert a + b == a;
    } else {
      assert (a + b)[..|a + b| - 1] == a + b[..|b| - 1];
      TextSizeAppend(a, b[..|b| - 1], minSizePx);
    }
  }

  /** An issue is emitted exactly for the valid boxes lower than `minSizePx`,
      with the box's rectangle copied unchanged. */
  lemma {:induction false} TextSizeMembers(boxes: seq<TextBox>, minSizePx: int, issue: Issue)
    ensures issue in TextSizeIssues(boxes, minSizePx) <==>
      exists t :: t in boxes && IsSmallText(t, minSizePx) && issue == TextSizeIssue(t, minSizePx)
  {
    if boxes != [] {
      var init := boxes[..|boxes| - 1];
      TextSizeMembers(init, minSizePx, issue);
      assert boxes == init + [boxes[|boxes| - 1]];
      assert forall t :: t in boxes <==> t in init || t == boxes[|boxes| - 1];
    }
  }

  /** A box exactly `minSizePx` high, or higher, is never flagged. */
  lemma {:induction false} TextSizeBoundary(boxes: seq<TextBox>, minSizePx: int)
    requires forall k :: 0 <= k < |boxes| ==> boxes[k].h >= minSizePx
    ensures TextSizeIssues(boxes, minSizePx) == []
  {
    if boxes != [] {
      TextSizeBoundary(boxes[..|boxes| - 1], minSizePx);
    }
  }

  // -------------------------------------------------------------- button size

  predicate IsSmallButton(e: TextBox, minSize: int) {
    IsValidBox(e) && (e.w < minSize || e.h < minSize)
  }

  function ButtonSizeIssue(e: TextBox, minSize: int): Issue {
    Issue(RectOf(e), Button, ButtonTooSmall(e.w, e.h, minSize), High)
  }

  /** The issues `checkButtonSize` emits for `elements`, in input order. */
  function ButtonSizeIssues(elements: seq<TextBox>, minSize: int): (r: seq<Issue>)
    ensures |r| <= |elements|
    ensures forall k :: 0 <= k < |r| ==>
      r[k].kind == Button && r[k].severity == High &&
      (r[k].boundingBox.w < minSize || r[k].boundingBox.h < minSize)
  {
    if elements == [] then []
    else
      var e := elements[|elements| - 1];
      ButtonSizeIssues(elements[..|elements| - 1], minSize)
        + (if IsSmallButton(e, minSize) then [ButtonSizeIssue(e, minSize)] else [])
  }

  /** `checkButtonSize(elements, minSize)`. */
  method CheckButtonSize(elements: seq<TextBox>, minSize: int) returns (issues: seq<Issue>)
    ensures issues == ButtonSizeIssues(elements, minSize)
  {
    issues := [];
    for i := 0 to |elements|
      invariant issues == ButtonSizeIssues(elements[..i], minSize)
    {
      var e := elements[i];
      if IsValidBox(e) && (e.w < minSize || e.h < minSize) {
        issues := issues + [ButtonSizeIssue(e, minSize)];
      }
      assert elements[..i + 1][..i] == elements[..i];
    }
    assert elements[..|elements|] == elements;
  }

  lemma {:induction false} ButtonSizeAppend(a: seq<TextBox>, b: seq<TextBox>, minSize: int)
    ensures ButtonSizeIssues(a + b, minSize) == ButtonSizeIssues(a, minSize) + ButtonSizeIssues(b, minSize)
  {
    if b == [] {
      assert a + b == a;
    } else {
      assert (a + b)[..|a + b| - 1] == a + b[..|b| - 1];
      ButtonSizeAppend(a, b[..|b| - 1], minSize);
    }
  }

  /** An issue is emitted exactly for the valid boxes narrower or lower than
      `minSize`, each with severity high and the box's rectangle. */
  lemma {:induction false} ButtonSizeMembers(elements: seq<TextBox>, minSize: int, issue: Issue)
    ensures issue in ButtonSizeIssues(elements, minSize) <==>
      exists e :: e in elements && IsSmallButton(e, minSize) && issue == ButtonSizeIssue(e, minSize)
  {
    if elements != [] {
      var init := elements[..|elements| - 1];
      ButtonSizeMembers(init, minSize, issue);
      assert elements == init + [elements[|elements| - 1]];
      assert forall e :: e in elements <==> e in init || e == elements[|elements| - 1];
    }
  }

  // -------------------------------------------------------- heading hierarchy

  predicate IsHeading(t: TextBox) {
    IsValidBox(t) && t.h > 20
  }

  /** The valid boxes taller than 20 px, in input order. */
  function Headings(boxes: seq<TextBox>): (r: seq<TextBox>)
    ensures forall k :: 0 <= k < |r| ==> IsHeading(r[k])
  {
    if boxes == [] then []
    else
      var t := boxes[|boxes| - 1];
      Headings(boxes[..|boxes| - 1]) + (if IsHeading(t) then [t] else [])
  }

  /** The headings are taken from the input, each at most as often as it
      occurs there. */
  lemma {:induction false} HeadingsFromInput(boxes: seq<TextBox>)
    ensures multiset(Headings(boxes)) <= multiset(boxes)
  {
    if boxes != [] {
      var init := boxes[..|boxes| - 1];
      HeadingsFromInput(init);
      assert boxes == init + [boxes[|boxes| - 1]];
    }
  }

  /** The filter keeps every heading and nothing else. */
  lemma {:induction false} HeadingsMembers(boxes: seq<TextBox>, t: TextBox)
    ensures t in Headings(boxes) <==> t in boxes && IsHeading(t)
  {
    if boxes != [] {
      var init := boxes[..|boxes| - 1];
      HeadingsMembers(init, t);
      assert boxes == init + [boxes[|boxes| - 1]];
    }
  }

  /** The filter keeps input order: it distributes over concatenation. */
  lemma {:induction false} HeadingsAppend(a: seq<TextBox>, b: seq<TextBox>)
    ensures Headings(a + b) == Headings(a) + Headings(b)
  {
    if b == [] {
      assert a + b == a;
    } else {
      var init, t := b[..|b| - 1], b[|b| - 1];
      var ab := a + b;
      HeadingsAppend(a, init);
      assert ab[..|ab| - 1] == a + init && ab[|ab| - 1] == t;
      var tail := if IsHeading(t) then [t] else [];
      assert Headings(ab) == Headings(a + init) + tail;
      assert Headings(b) == Headings(init) + tail;
    }
  }

  /** The sort key of the comparator `(a, b) => b.h - a.h`. */
  function NegHeight(t: TextBox): int {
    -t.h
  }

  function HierarchyIssue(upper: TextBox, lower: TextBox): Issue {
    Issue(RectOf(upper), HeadingHierarchy,
          HierarchyInconsistent(upper.text, upper.h, lower.text, lower.h), Medium)
  }

  /** The adjacent-pair scan over the sorted headings: it flags the earlier
      box of every pair whose height increases. */
  function HierarchyIssues(hs: seq<TextBox>): seq<Issue>
  {
    if |hs| < 2 then []
    else
      var n := |hs|;
      HierarchyIssues(hs[..n - 1])
        + (if hs[n - 2].h < hs[n - 1].h then [HierarchyIssue(hs[n - 2], hs[n - 1])] else [])
  }

  /** The scan emits nothing exactly when the heights never increase. */
  lemma {:induction false} HierarchyIssuesEmpty(hs: seq<TextBox>)
    ensures HierarchyIssues(hs) == [] <==> forall i :: 0 <= i < |hs| - 1 ==> hs[i].h >= hs[i + 1].h
  {
    if |hs| >= 2 {
      var n := |hs|;
      var init := hs[..n - 1];
      HierarchyIssuesEmpty(init);
      assert forall i :: 0 <= i < n - 1 ==> init[i] == hs[i];
    }
  }

  /** `checkHeadingHierarchy(textData)`: after the descending sort by height
      the flagging condition cannot hold, so no issue is ever emitted. */
  method CheckHeadingHierarchy(textData: seq<TextBox>) returns (issues: seq<Issue>)
    ensures issues == HierarchyIssues(SortBy(Headings(textData), NegHeight))
    ensures issues == []
  {
    var headings := SortBy(Headings(textData), NegHeight);
    issues := ScanHierarchy(headings);
    HierarchyNeverFlags(textData);
  }

  /** The loop of `checkHeadingHierarchy` over consecutive pairs. */
  method ScanHierarchy(headings: seq<TextBox>) returns (issues: seq<Issue>)
    ensures issues == HierarchyIssues(headings)
  {
    issues := [];
    if |headings| > 1 {
      for i := 0 to |headings| - 1
        invariant issues == HierarchyIssues(headings[..i + 1])
      {
        if headings[i].h < headings[i + 1].h {
          issues := issues + [HierarchyIssue(headings[i], headings[i + 1])];
        }
        assert headings[..i + 2][..i + 1] == headings[..i + 1];
      }
      assert headings[..|headings|] == headings;
    }
  }

  /** The detector is unreachable: for every input the sorted headings never
      increase in height. */
  lemma HierarchyNeverFlags(boxes: seq<TextBox>)
    ensures HierarchyIssues(SortBy(Headings(boxes), NegHeight)) == []
  {
    var hs := SortBy(Headings(boxes), NegHeight);
    SortBySorted(Headings(boxes), NegHeight);
    HierarchyIssuesEmpty(hs);
    forall i | 0 <= i < |hs| - 1 ensures hs[i].h >= hs[i + 1].h {
      assert NegHeight(hs[i]) <= NegHeight(hs[i + 1]);
    }
  }

  /** Read on its own, the pair scan does flag an increasing pair: only the
      sort in front of it makes the rule dead. */
  lemma HierarchyScanFlagsIncrease()
    ensures HierarchyIssues([TextBox("a", 0, 0, 10, 24), TextBox("b", 0, 40, 10, 30)])
         == [HierarchyIssue(TextBox("a", 0, 0, 10, 24), TextBox("b", 0, 40, 10, 30))]
  {
    var hs := [TextBox("a", 0, 0, 10, 24), TextBox("b", 0, 40, 10, 30)];
    assert hs[..1] == [hs[0]];
  }

  // ------------------------------------------------------------------ spacing

  /** The sort key of the comparator `(a, b) => a.y - b.y`. */
  function YOf(t: TextBox): int {
    t.y
  }

  /** The vertical gap between the bottom of `current` and the top of `next`. */
  function Gap(current: TextBox, next: TextBox): int {
    next.y - (current.y + current.h)
  }

  function SpacingIssue(current: TextBox, spacing: int, minSpacing: int): Issue {
    Issue(RectOf(current), Spacing, SpacingTooSmall(spacing, minSpacing), Low)
  }

  /** The adjacent-pair scan of `checkSpacing` over the y-sorted boxes: at
      most one issue per pair, so at most `n - 1` issues. */
  function SpacingIssues(sorted: seq<TextBox>, minSpacing: int): (r: seq<Issue>)
    ensures |sorted| <= 1 ==> r == []
    ensures |sorted| > 1 ==> |r| <= |sorted| - 1
    ensures forall k :: 0 <= k < |r| ==> r[k].kind == Spacing && r[k].severity == Low
  {
    if |sorted| < 2 then []
    else
      var n := |sorted|;
      var current, next := sorted[n - 2], sorted[n - 1];
      SpacingIssues(sorted[..n - 1], minSpacing)
        + (if 0 < Gap(current, next) < minSpacing
           then [SpacingIssue(current, Gap(current, next), minSpacing)] else [])
  }

  /** `checkSpacing(textData, minSpacing)`. No validity filter is applied. */
  method CheckSpacing(textData: seq<TextBox>, minSpacing: int) returns (issues: seq<Issue>)
    ensures issues == SpacingIssues(SortBy(textData, YOf), minSpacing)
    ensures |issues| <= if |textData| == 0 then 0 else |textData| - 1
  {
    var sorted := SortBy(textData, YOf);
    issues := ScanSpacing(sorted, minSpacing);
  }

  /** The loop of `checkSpacing` over consecutive pairs of the sorted boxes. */
  method ScanSpacing(sorted: seq<TextBox>, minSpacing: int) returns (issues: seq<Issue>)
    ensures issues == SpacingIssues(sorted, minSpacing)
  {
    issues := [];
    if |sorted| > 1 {
      for i := 0 to |sorted| - 1
        invariant issues == SpacingIssues(sorted[..i + 1], minSpacing)
      {
        var current := sorted[i];
        var next := sorted[i + 1];
        var spacing := next.y - (current.y + current.h);
        if spacing > 0 && spacing < minSpacing {
          issues := issues + [SpacingIssue(current, spacing, minSpacing)];
        }
        assert sorted[..i + 2][..i + 1] == sorted[..i + 1];
      }
      assert sorted[..|sorted|] == sorted;
    }
  }

  /** An issue is emitted exactly for the earlier box of each consecutive
      pair (in ascending y) whose gap lies strictly between 0 and `minSpacing`. */
  lemma {:induction false} SpacingMembers(sorted: seq<TextBox>, minSpacing: int, issue: Issue)
    ensures issue in SpacingIssues(sorted, minSpacing) <==>
      exists i :: 0 <= i < |sorted| - 1 && 0 < Gap(sorted[i], sorted[i + 1]) < minSpacing
                  && issue == SpacingIssue(sorted[i], Gap(sorted[i], sorted[i + 1]), minSpacing)
  {
    if |sorted| >= 2 {
      var n := |sorted|;
      var init := sorted[..n - 1];
      SpacingMembers(init, minSpacing, issue);
      assert forall i :: 0 <= i < n - 1 ==> init[i] == sorted[i];
      var last := if 0 < Gap(sorted[n - 2], sorted[n - 1]) < minSpacing
                  then [SpacingIssue(sorted[n - 2], Gap(sorted[n - 2], sorted[n - 1]), minSpacing)] else [];
      assert SpacingIssues(sorted, minSpacing) == SpacingIssues(init, minSpacing) + last;
      if issue in last {
        assert 0 <= n - 2 < |sorted| - 1;
      }
    }
  }

  /** The two boxes `{y: 0, h: 10}` and `{y: 15, h: 5}` are 5 px apart and
      flagged with `minSpacing` 8; moving the second to y 20 makes the gap 10
      and nothing is flagged. */
  lemma SpacingExample()
    ensures SpacingIssues(SortBy([TextBox("a", 0, 0, 30, 10), TextBox("b", 0, 15, 30, 5)], YOf), 8)
         == [SpacingIssue(TextBox("a", 0, 0, 30, 10), 5, 8)]
    ensures SpacingIssues(SortBy([TextBox("a", 0, 0, 30, 10), TextBox("b", 0, 20, 30, 5)], YOf), 8) == []
  {
    var a, b, c := TextBox("a", 0, 0, 30, 10), TextBox("b", 0, 15, 30, 5), TextBox("b", 0, 20, 30, 5);
    assert SortBy([b], YOf) == [b];
    assert [a, b][1..] == [b];
    assert SortBy([a, b], YOf) == [a, b];
    assert SortBy([c], YOf) == [c];
    assert [a, c][1..] == [c];
    assert SortBy([a, c], YOf) == [a, c];
    assert [a, b][..1] == [a];
    assert [a, c][..1] == [a];
  }

  /** Unlike the other detectors, spacing does not filter with `IsValidBox`:
      a box of width 0 is still flagged. */
  lemma SpacingIgnoresValidity()
    ensures !IsValidBox(TextBox("a", 0, 0, 0, 10))
    ensures SpacingIssues([TextBox("a", 0, 0, 0, 10), TextBox("b", 0, 15, 30, 5)], 8)
         == [SpacingIssue(TextBox("a", 0, 0, 0, 10), 5, 8)]
  {
    assert [TextBox("a", 0, 0, 0, 10), TextBox("b", 0, 15, 30, 5)][..1] == [TextBox("a", 0, 0, 0, 10)];
  }

  // ---------------------------------------------------------------- alignment

  /** `Math.round(y / tolerance)`: `floor(y / tolerance + 1/2)`, computed on
      integers (Dafny's `/` floors when the divisor is positive). */
  function RoundDiv(y: int, tolerance: int): int
    requires tolerance != 0
  {
    if tolerance > 0 then (2 * y + tolerance) / (2 * tolerance)
    else (-(2 * y + tolerance)) / (-2 * tolerance)
  }

  /** `RoundDiv(y, t)` is the integer nearest to `y / t`, halves rounding
      up (towards the larger quotient) as `Math.round` does. Multiplying by a
      negative `t` flips the bounds. */
  lemma RoundDivNearest(y: int, tolerance: int)
    requires tolerance != 0
    ensures var n := RoundDiv(y, tolerance);
            tolerance > 0 ==> 2 * n * tolerance - tolerance <= 2 * y < 2 * n * tolerance + tolerance
    ensures var n := RoundDiv(y, tolerance);
            tolerance < 0 ==> 2 * n * tolerance + tolerance < 2 * y <= 2 * n * tolerance - tolerance
  {
    var n := RoundDiv(y, tolerance);
    if tolerance > 0 {
      var d := 2 * tolerance;
      assert 2 * y + tolerance == n * d + (2 * y + tolerance) % d;
      assert n * d == 2 * n * tolerance;
    } else {
      var d := -2 * tolerance;
      assert -(2 * y + tolerance) == n * d + (-(2 * y + tolerance)) % d;
      assert n * d == -2 * n * tolerance;
    }
  }

  /** The bucket key `Math.round(y / tolerance) * tolerance`: the multiple
      of the tolerance nearest to `y`, halves going to the larger quotient.
      With tolerance 0 every key is NaN, so all boxes share one bucket, here
      key 0. */
  function AlignKey(y: int, tolerance: int): (key: int)
    ensures tolerance == 0 ==> key == 0
    ensures exists n: int :: key == n * tolerance
    ensures tolerance > 0 ==> 2 * key - tolerance <= 2 * y < 2 * key + tolerance
    ensures tolerance < 0 ==> 2 * key + tolerance < 2 * y <= 2 * key - tolerance
  {
    if tolerance == 0 then assert 0 == 0 * tolerance; 0
    else
      var n := RoundDiv(y, tolerance);
      RoundDivNearest(y, tolerance);
      assert 2 * n * tolerance == 2 * (n * tolerance);
      n * tolerance
  }

  /** The key of a box, as a function value. */
  function KeyOf(tolerance: int): TextBox -> int {
    (t: TextBox) => AlignKey(t.y, tolerance)
  }

  /** The bucket `groups[key]` after the first pass over `boxes`: the valid
      boxes with that key, in input order. */
  function Bucket(boxes: seq<TextBox>, keyOf: TextBox -> int, key: int): (r: seq<TextBox>)
    ensures forall k :: 0 <= k < |r| ==> IsValidBox(r[k]) && keyOf(r[k]) == key
  {
    if boxes == [] then []
    else
      var t := boxes[|boxes| - 1];
      Bucket(boxes[..|boxes| - 1], keyOf, key)
        + (if IsValidBox(t) && keyOf(t) == key then [t] else [])
  }

  /** A bucket holds every valid box with its key and nothing else. */
  lemma {:induction false} BucketMembers(boxes: seq<TextBox>, keyOf: TextBox -> int, key: int, t: TextBox)
    ensures t in Bucket(boxes, keyOf, key) <==> t in boxes && IsValidBox(t) && keyOf(t) == key
  {
    if boxes != [] {
      var init := boxes[..|boxes| - 1];
      BucketMembers(init, keyOf, key, t);
      assert boxes == init + [boxes[|boxes| - 1]];
    }
  }

  /** The value `line.map(e => e.x)` collects. */
  function XOf(t: TextBox): int {
    t.x
  }

  /** A bucket is flagged when its x-spread exceeds the tolerance. */
  predicate Misaligned(line: seq<TextBox>, tolerance: int) {
    line != [] && MaxOf(line, XOf) - MinOf(line, XOf) > tolerance
  }

  function AlignmentIssue(t: TextBox): Issue {
    Issue(RectOf(t), Alignment, AlignmentInconsistent, Low)
  }

  /** `line.forEach(e => issues.push(...))`. */
  function AlignmentIssues(line: seq<TextBox>): (r: seq<Issue>)
    ensures |r| == |line|
  {
    if line == [] then []
    else AlignmentIssues(line[..|line| - 1]) + [AlignmentIssue(line[|line| - 1])]
  }

  /** What the second pass emits when it visits the buckets in the order `keys`. */
  function EmitBuckets(all: seq<TextBox>, keyOf: TextBox -> int, keys: seq<int>, tolerance: int): seq<Issue>
  {
    if keys == [] then []
    else
      var line := Bucket(all, keyOf, keys[|keys| - 1]);
      EmitBuckets(all, keyOf, keys[..|keys| - 1], tolerance)
        + (if Misaligned(line, tolerance) then AlignmentIssues(line) else [])
  }

  /** The reference reading of the rule: a valid box is flagged when the
      bucket of all valid boxes sharing its key is misaligned. */
  predicate Flagged(all: seq<TextBox>, keyOf: TextBox -> int, tolerance: int, t: TextBox) {
    IsValidBox(t) && Misaligned(Bucket(all, keyOf, keyOf(t)), tolerance)
  }

  /** The issues of the flagged boxes of `part`, in input order. */
  function FlaggedIn(all: seq<TextBox>, part: seq<TextBox>, keyOf: TextBox -> int, tolerance: int): seq<Issue>
  {
    if part == [] then []
    else
      var t := part[|part| - 1];
      FlaggedIn(all, part[..|part| - 1], keyOf, tolerance)
        + (if Flagged(all, keyOf, tolerance, t) then [AlignmentIssue(t)] else [])
  }

  predicate Distinct(keys: seq<int>) {
    forall a, b :: 0 <= a < b < |keys| ==> keys[a] != keys[b]
  }

  /** The keys of the valid boxes of `boxes`, each once, in first-seen order. */
  function FirstSeenKeys(boxes: seq<TextBox>, keyOf: TextBox -> int): seq<int>
  {
    if boxes == [] then []
    else
      var t := boxes[|boxes| - 1];
      var init := FirstSeenKeys(boxes[..|boxes| - 1], keyOf);
      init + (if IsValidBox(t) && keyOf(t) !in init then [keyOf(t)] else [])
  }

  /** The object `groups` after the first pass over `boxes`: each valid
      box appended to the list under its key. */
  function GroupsOf(boxes: seq<TextBox>, keyOf: TextBox -> int): map<int, seq<TextBox>>
  {
    if boxes == [] then map[]
    else
      var t := boxes[|boxes| - 1];
      var g := GroupsOf(boxes[..|boxes| - 1], keyOf);
      if !IsValidBox(t) then g
      else g[keyOf(t) := (if keyOf(t) in g then g[keyOf(t)] else []) + [t]]
  }

  /** The first pass of `checkAlignment`: `groups[key]` collects the valid
      boxes by key, and `keys` lists the keys in first-seen order. */
  method GroupByKey(textData: seq<TextBox>, keyOf: TextBox -> int)
    returns (groups: map<int, seq<TextBox>>, keys: seq<int>)
    ensures groups == GroupsOf(textData, keyOf) && keys == FirstSeenKeys(textData, keyOf)
  {
    groups, keys := map[], [];
    for i := 0 to |textData|
      invariant groups == GroupsOf(textData[..i], keyOf) && keys == FirstSeenKeys(textData[..i], keyOf)
      invariant forall k :: k in groups <==> k in keys
    {
      var t := textData[i];
      assert textData[..i + 1][..i] == textData[..i];
      if !IsValidBox(t) { continue; }
      var key := keyOf(t);
      if key !in groups {
        groups := groups[key := []];
        keys := keys + [key];
      }
      groups := groups[key := groups[key] + [t]];
    }
    assert textData[..|textData|] == textData;
  }

  /** After the first pass, the keys present are the first-seen keys, each
      once, and each list is the bucket of its key. */
  lemma {:induction false} GroupsOfBuckets(boxes: seq<TextBox>, keyOf: TextBox -> int)
    ensures Distinct(FirstSeenKeys(boxes, keyOf))
    ensures forall k :: k in GroupsOf(boxes, keyOf) <==> k in FirstSeenKeys(boxes, keyOf)
    ensures forall k :: k in GroupsOf(boxes, keyOf) ==> GroupsOf(boxes, keyOf)[k] == Bucket(boxes, keyOf, k)
    ensures forall k :: k !in GroupsOf(boxes, keyOf) ==> Bucket(boxes, keyOf, k) == []
    ensures forall k :: k in GroupsOf(boxes, keyOf) ==> Bucket(boxes, keyOf, k) != []
  {
    if boxes != [] {
      var init := boxes[..|boxes| - 1];
      var t := boxes[|boxes| - 1];
      GroupsOfBuckets(init, keyOf);
      assert init + [t] == boxes;
      forall k ensures Bucket(boxes, keyOf, k)
                       == Bucket(init, keyOf, k) + (if IsValidBox(t) && keyOf(t) == k then [t] else []) {
        BucketSnoc(init, t, keyOf, k);
      }
      FirstSeenSnoc(init, t, keyOf);
      if IsValidBox(t) && keyOf(t) !in FirstSeenKeys(init, keyOf) {
        DistinctSnoc(FirstSeenKeys(init, keyOf), keyOf(t));
      }
    }
  }

  /** Every key `Object.values` visits has its bucket in `groups`. */
  lemma GroupsOfValues(boxes: seq<TextBox>, keyOf: TextBox -> int)
    ensures var g, order := GroupsOf(boxes, keyOf), ValuesOrder(FirstSeenKeys(boxes, keyOf));
      forall j :: 0 <= j < |order| ==> order[j] in g && g[order[j]] == Bucket(boxes, keyOf, order[j])
  {
    var keys := FirstSeenKeys(boxes, keyOf);
    var g, order := GroupsOf(boxes, keyOf), ValuesOrder(keys);
    GroupsOfBuckets(boxes, keyOf);
    ValuesOrderPermutes(keys);
    forall j | 0 <= j < |order| ensures order[j] in g && g[order[j]] == Bucket(boxes, keyOf, order[j]) {
      assert order[j] in multiset(order);
    }
  }

  lemma DistinctSnoc(keys: seq<int>, key: int)
    requires Distinct(keys) && key !in keys
    ensures Distinct(keys + [key])
  {
    var ks := keys + [key];
    forall a, b | 0 <= a < b < |ks| ensures ks[a] != ks[b] {
      if b == |keys| {
        assert ks[a] in keys;
      } else {
        assert ks[a] == keys[a] && ks[b] == keys[b];
      }
    }
  }

  lemma BucketSnoc(boxes: seq<TextBox>, t: TextBox, keyOf: TextBox -> int, key: int)
    ensures Bucket(boxes + [t], keyOf, key)
         == Bucket(boxes, keyOf, key) + (if IsValidBox(t) && keyOf(t) == key then [t] else [])
  {
    assert (boxes + [t])[..|boxes|] == boxes;
  }

  lemma FirstSeenSnoc(boxes: seq<TextBox>, t: TextBox, keyOf: TextBox -> int)
    ensures var init := FirstSeenKeys(boxes, keyOf);
      FirstSeenKeys(boxes + [t], keyOf)
        == init + (if IsValidBox(t) && keyOf(t) !in init then [keyOf(t)] else [])
  {
    assert (boxes + [t])[..|boxes|] == boxes;
  }

  // `Object.values(groups)` visits the keys that are array indices
  // (0 <= k < 2^32 - 1) in ascending order, then all other keys in the
  // order they were created.

  const ArrayIndexLimit := 0x1_0000_0000 - 1

  predicate IsArrayIndex(k: int) {
    0 <= k < ArrayIndexLimit
  }

  function IndexKeys(keys: seq<int>): (r: seq<int>)
    ensures forall j :: 0 <= j < |r| ==> IsArrayIndex(r[j])
  {
    if keys == [] then []
    else (if IsArrayIndex(keys[0]) then [keys[0]] else []) + IndexKeys(keys[1..])
  }

  function OtherKeys(keys: seq<int>): (r: seq<int>)
    ensures forall j :: 0 <= j < |r| ==> !IsArrayIndex(r[j])
  {
    if keys == [] then []
    else (if IsArrayIndex(keys[0]) then [] else [keys[0]]) + OtherKeys(keys[1..])
  }

  function Identity(k: int): int {
    k
  }

  /** The order in which `Object.values` visits keys created in the order `keys`. */
  function ValuesOrder(keys: seq<int>): seq<int> {
    SortBy(IndexKeys(keys), Identity) + OtherKeys(keys)
  }

  lemma {:induction false} SplitKeysPermutes(keys: seq<int>)
    ensures multiset(IndexKeys(keys)) + multiset(OtherKeys(keys)) == multiset(keys)
  {
    if keys != [] {
      SplitKeysPermutes(keys[1..]);
      assert keys == [keys[0]] + keys[1..];
    }
  }

  /** The visiting order is a rearrangement of the creation order: array
      indices first and ascending, then the other keys as created. */
  lemma ValuesOrderPermutes(keys: seq<int>)
    ensures multiset(ValuesOrder(keys)) == multiset(keys)
    ensures var n := |IndexKeys(keys)|;
      && (forall i, j :: 0 <= i < j < n ==> ValuesOrder(keys)[i] <= ValuesOrder(keys)[j])
      && (forall j :: 0 <= j < |ValuesOrder(keys)| ==> (IsArrayIndex(ValuesOrder(keys)[j]) <==> j < n))
      && ValuesOrder(keys)[n..] == OtherKeys(keys)
  {
    var ix := IndexKeys(keys);
    var sorted := SortBy(ix, Identity);
    SortByPermutes(ix, Identity);
    SortBySorted(ix, Identity);
    SplitKeysPermutes(keys);
    var r := ValuesOrder(keys);
    assert r == sorted + OtherKeys(keys);
    forall j | 0 <= j < |sorted| ensures IsArrayIndex(sorted[j]) {
      assert sorted[j] in multiset(ix);
    }
    assert r[|ix|..] == OtherKeys(keys);
  }

  /** A value occurs at most once in a sequence exactly when it is counted at
      most once. */
  lemma {:induction false} DistinctCounts(keys: seq<int>)
    ensures Distinct(keys) <==> forall k :: multiset(keys)[k] <= 1
  {
    if keys != [] {
      var rest := keys[1..];
      DistinctCounts(rest);
      assert keys == [keys[0]] + rest;
      if Distinct(keys) {
        assert keys[0] !in rest by {
          forall b | 0 <= b < |rest| ensures rest[b] != keys[0] {
            assert rest[b] == keys[b + 1];
          }
        }
        assert Distinct(rest) by {
          forall a, b | 0 <= a < b < |rest| ensures rest[a] != rest[b] {
            assert rest[a] == keys[a + 1] && rest[b] == keys[b + 1];
          }
        }
      } else if forall k :: multiset(keys)[k] <= 1 {
        assert multiset(rest)[keys[0]] == 0 by {
          assert multiset(keys)[keys[0]] == multiset(rest)[keys[0]] + 1;
        }
        assert forall k :: multiset(rest)[k] <= 1 by {
          forall k ensures multiset(rest)[k] <= 1 {
            assert multiset(rest)[k] <= multiset(keys)[k];
          }
        }
        forall a, b | 0 <= a < b < |keys| ensures keys[a] != keys[b] {
          if a == 0 {
            assert keys[b] == rest[b - 1];
          } else {
            assert keys[a] == rest[a - 1] && keys[b] == rest[b - 1];
          }
        }
        assert false;
      }
    }
  }

  /** The visiting order lists every created key exactly once. */
  lemma ValuesOrderDistinct(keys: seq<int>)
    requires Distinct(keys)
    ensures Distinct(ValuesOrder(keys))
    ensures forall k :: k in ValuesOrder(keys) <==> k in keys
  {
    ValuesOrderPermutes(keys);
    DistinctCounts(keys);
    DistinctCounts(ValuesOrder(keys));
    forall k ensures k in ValuesOrder(keys) <==> k in keys {
      assert k in ValuesOrder(keys) <==> k in multiset(ValuesOrder(keys));
    }
  }

  /** Keys created in the order 10, 0, -5 are visited as 0, 10, -5. */
  lemma ValuesOrderExample()
    ensures ValuesOrder([10, 0, -5]) == [0, 10, -5]
  {
    var keys := [10, 0, -5];
    assert keys[1..] == [0, -5] && keys[1..][1..] == [-5] && keys[1..][1..][1..] == [];
    assert IndexKeys([-5]) == [] && OtherKeys([-5]) == [-5];
    assert IndexKeys([0, -5]) == [0] && OtherKeys([0, -5]) == [-5];
    assert IndexKeys(keys) == [10, 0] && OtherKeys(keys) == [-5];
    IndexSortExample();
  }

  lemma IndexSortExample()
    ensures SortBy([10, 0], Identity) == [0, 10]
  {
    assert [10, 0][1..] == [0] && [0][1..] == [];
    assert SortBy([0], Identity) == [0];
    assert Insert(10, [0], Identity) == [0] + Insert(10, [], Identity);
  }

  /** What `checkAlignment` returns: the flagged buckets in the order
      `Object.values` visits them. */
  function AlignmentResult(textData: seq<TextBox>, tolerance: int): seq<Issue> {
    var keyOf := KeyOf(tolerance);
    EmitBuckets(textData, keyOf, ValuesOrder(FirstSeenKeys(textData, keyOf)), tolerance)
  }

  /** `checkAlignment(textData, tolerance)`: bucket the valid boxes by key,
      then flag every member of each bucket whose x-spread exceeds the
      tolerance. As a multiset the result is exactly the flagged boxes. */
  method CheckAlignment(textData: seq<TextBox>, tolerance: int) returns (issues: seq<Issue>)
    ensures issues == AlignmentResult(textData, tolerance)
    ensures multiset(issues) == multiset(FlaggedIn(textData, textData, KeyOf(tolerance), tolerance))
  {
    var keyOf := KeyOf(tolerance);
    var groups, keys := GroupByKey(textData, keyOf);
    var order := ValuesOrder(keys);
    GroupsOfValues(textData, keyOf);
    issues := EmitPass(textData, keyOf, groups, order, tolerance);
    AlignmentResultFlagged(textData, tolerance);
  }

  /** The second pass of `checkAlignment`: visit the buckets in the order
      `keys` and flag every member of a bucket whose x-spread exceeds the
      tolerance. */
  method EmitPass(ghost all: seq<TextBox>, ghost keyOf: TextBox -> int, groups: map<int, seq<TextBox>>,
                  keys: seq<int>, tolerance: int) returns (issues: seq<Issue>)
    requires forall j :: 0 <= j < |keys| ==> keys[j] in groups && groups[keys[j]] == Bucket(all, keyOf, keys[j])
    ensures issues == EmitBuckets(all, keyOf, keys, tolerance)
  {
    issues := [];
    for j := 0 to |keys|
      invariant issues == EmitBuckets(all, keyOf, keys[..j], tolerance)
    {
      var line := groups[keys[j]];
      if line != [] && MaxOf(line, XOf) - MinOf(line, XOf) > tolerance {
        issues := PushAlignmentIssues(issues, line);
      }
      assert keys[..j + 1][..j] == keys[..j];
    }
    assert keys[..|keys|] == keys;
  }

  /** The result holds exactly the issues of the flagged boxes: the order
      in which the buckets are visited changes only their order. */
  lemma AlignmentResultFlagged(textData: seq<TextBox>, tolerance: int)
    ensures multiset(AlignmentResult(textData, tolerance))
         == multiset(FlaggedIn(textData, textData, KeyOf(tolerance), tolerance))
  {
    var keys := FirstSeenKeys(textData, KeyOf(tolerance));
    GroupsOfBuckets(textData, KeyOf(tolerance));
    ValuesOrderDistinct(keys);
    AlignmentCovered(textData, KeyOf(tolerance), ValuesOrder(keys), tolerance);
  }

  /** `line.forEach(e => issues.push(...))`: one issue per member, in order. */
  method PushAlignmentIssues(issues0: seq<Issue>, line: seq<TextBox>) returns (issues: seq<Issue>)
    ensures issues == issues0 + AlignmentIssues(line)
  {
    issues := issues0;
    for m := 0 to |line|
      invariant issues == issues0 + AlignmentIssues(line[..m])
    {
      assert line[..m + 1][..m] == line[..m];
      issues := issues + [AlignmentIssue(line[m])];
    }
    assert line[..|line|] == line;
  }

  // The multiset argument below works with an abstract set of bad keys, so
  // that the arithmetic of the spread does not enter it.

  /** The misaligned keys of `all`, as a predicate. */
  function BadKey(all: seq<TextBox>, keyOf: TextBox -> int, tolerance: int): int -> bool {
    k => Misaligned(Bucket(all, keyOf, k), tolerance)
  }

  /** The issues of the valid boxes of `part` whose key is bad. */
  function Marked(part: seq<TextBox>, keyOf: TextBox -> int, bad: int -> bool): seq<Issue>
  {
    if part == [] then []
    else
      var t := part[|part| - 1];
      Marked(part[..|part| - 1], keyOf, bad)
        + (if IsValidBox(t) && bad(keyOf(t)) then [AlignmentIssue(t)] else [])
  }

  /** The issues of the valid boxes of `part` whose key is `key`, when it is bad. */
  function MarkedWithKey(part: seq<TextBox>, keyOf: TextBox -> int, bad: int -> bool, key: int): seq<Issue>
  {
    if part == [] then []
    else
      var t := part[|part| - 1];
      MarkedWithKey(part[..|part| - 1], keyOf, bad, key)
        + (if IsValidBox(t) && bad(keyOf(t)) && keyOf(t) == key then [AlignmentIssue(t)] else [])
  }

  /** The boxes of `part` whose key is not `key`. */
  function WithoutKey(part: seq<TextBox>, keyOf: TextBox -> int, key: int): (r: seq<TextBox>)
  {
    if part == [] then []
    else
      var t := part[|part| - 1];
      WithoutKey(part[..|part| - 1], keyOf, key) + (if keyOf(t) != key then [t] else [])
  }

  /** `MarkedWithKey` over a sequence of keys. */
  function EmitKeys(part: seq<TextBox>, keyOf: TextBox -> int, bad: int -> bool, keys: seq<int>): seq<Issue>
  {
    if keys == [] then []
    else EmitKeys(part, keyOf, bad, keys[..|keys| - 1]) + MarkedWithKey(part, keyOf, bad, keys[|keys| - 1])
  }

  lemma {:induction false} FlaggedAsMarked(all: seq<TextBox>, part: seq<TextBox>, keyOf: TextBox -> int, tolerance: int)
    ensures FlaggedIn(all, part, keyOf, tolerance) == Marked(part, keyOf, BadKey(all, keyOf, tolerance))
  {
    if part != [] {
      FlaggedAsMarked(all, part[..|part| - 1], keyOf, tolerance);
    }
  }

  /** One bucket of the second pass emits exactly the marked boxes with its key. */
  lemma {:induction false} BucketEmitsMarked(part: seq<TextBox>, keyOf: TextBox -> int, bad: int -> bool, key: int)
    ensures (if bad(key) then AlignmentIssues(Bucket(part, keyOf, key)) else [])
         == MarkedWithKey(part, keyOf, bad, key)
  {
    if part != [] {
      var init := part[..|part| - 1];
      var t := part[|part| - 1];
      BucketEmitsMarked(init, keyOf, bad, key);
      var b := Bucket(init, keyOf, key);
      if IsValidBox(t) && keyOf(t) == key {
        assert Bucket(part, keyOf, key) == b + [t];
        assert (b + [t])[..|b|] == b;
        assert AlignmentIssues(b + [t]) == AlignmentIssues(b) + [AlignmentIssue(t)];
      } else {
        assert Bucket(part, keyOf, key) == b;
        assert MarkedWithKey(part, keyOf, bad, key) == MarkedWithKey(init, keyOf, bad, key);
      }
    }
  }

  lemma {:induction false} EmitBucketsAsKeys(all: seq<TextBox>, keyOf: TextBox -> int, keys: seq<int>, tolerance: int)
    ensures EmitBuckets(all, keyOf, keys, tolerance) == EmitKeys(all, keyOf, BadKey(all, keyOf, tolerance), keys)
  {
    if keys != [] {
      var bad := BadKey(all, keyOf, tolerance);
      var key := keys[|keys| - 1];
      EmitBucketsAsKeys(all, keyOf, keys[..|keys| - 1], tolerance);
      BucketEmitsMarked(all, keyOf, bad, key);
      assert bad(key) == Misaligned(Bucket(all, keyOf, key), tolerance);
    }
  }

  lemma {:induction false} MarkedWithOtherKey(part: seq<TextBox>, keyOf: TextBox -> int, bad: int -> bool, key: int, other: int)
    requires key != other
    ensures MarkedWithKey(part, keyOf, bad, other) == MarkedWithKey(WithoutKey(part, keyOf, key), keyOf, bad, other)
  {
    if part != [] {
      var init := part[..|part| - 1];
      var t := part[|part| - 1];
      MarkedWithOtherKey(init, keyOf, bad, key, other);
      var w := WithoutKey(init, keyOf, key);
      if keyOf(t) != key {
        assert WithoutKey(part, keyOf, key) == w + [t];
        assert (w + [t])[..|w|] == w;
        assert MarkedWithKey(w + [t], keyOf, bad, other)
            == MarkedWithKey(w, keyOf, bad, other)
             + (if IsValidBox(t) && bad(keyOf(t)) && keyOf(t) == other then [AlignmentIssue(t)] else []);
      } else {
        assert WithoutKey(part, keyOf, key) == w;
      }
    }
  }

  lemma {:induction false} EmitKeysWithout(part: seq<TextBox>, keyOf: TextBox -> int, bad: int -> bool, keys: seq<int>, key: int)
    requires key !in keys
    ensures EmitKeys(part, keyOf, bad, keys) == EmitKeys(WithoutKey(part, keyOf, key), keyOf, bad, keys)
  {
    if keys != [] {
      EmitKeysWithout(part, keyOf, bad, keys[..|keys| - 1], key);
      MarkedWithOtherKey(part, keyOf, bad, key, keys[|keys| - 1]);
    }
  }

  lemma {:induction false} MarkedSplit(part: seq<TextBox>, keyOf: TextBox -> int, bad: int -> bool, key: int)
    ensures multiset(Marked(part, keyOf, bad))
         == multiset(MarkedWithKey(part, keyOf, bad, key)) + multiset(Marked(WithoutKey(part, keyOf, key), keyOf, bad))
  {
    if part != [] {
      var init := part[..|part| - 1];
      var t := part[|part| - 1];
      MarkedSplit(init, keyOf, bad, key);
      var w := WithoutKey(init, keyOf, key);
      var mark := if IsValidBox(t) && bad(keyOf(t)) then [AlignmentIssue(t)] else [];
      var m0, k0, r0 := Marked(init, keyOf, bad), MarkedWithKey(init, keyOf, bad, key), Marked(w, keyOf, bad);
      assert multiset(m0) == multiset(k0) + multiset(r0);
      assert Marked(part, keyOf, bad) == m0 + mark;
      if keyOf(t) != key {
        MarkedSnoc(w, t, keyOf, bad);
        assert WithoutKey(part, keyOf, key) == w + [t];
        assert MarkedWithKey(part, keyOf, bad, key) == k0;
        assert multiset(Marked(w + [t], keyOf, bad)) == multiset(r0) + multiset(mark);
      } else {
        assert WithoutKey(part, keyOf, key) == w;
        assert MarkedWithKey(part, keyOf, bad, key) == k0 + mark;
      }
    }
  }

  lemma MarkedSnoc(w: seq<TextBox>, t: TextBox, keyOf: TextBox -> int, bad: int -> bool)
    ensures Marked(w + [t], keyOf, bad)
         == Marked(w, keyOf, bad) + (if IsValidBox(t) && bad(keyOf(t)) then [AlignmentIssue(t)] else [])
  {
    assert (w + [t])[..|w|] == w;
  }

  lemma {:induction false} WithoutKeyMembers(part: seq<TextBox>, keyOf: TextBox -> int, key: int, t: TextBox)
    ensures t in WithoutKey(part, keyOf, key) ==> t in part && keyOf(t) != key
  {
    if part != [] {
      var init := part[..|part| - 1];
      WithoutKeyMembers(init, keyOf, key, t);
      assert part == init + [part[|part| - 1]];
    }
  }

  lemma {:induction false} NoneMarked(part: seq<TextBox>, keyOf: TextBox -> int, bad: int -> bool)
    requires forall t :: t in part ==> !(IsValidBox(t) && bad(keyOf(t)))
    ensures Marked(part, keyOf, bad) == []
  {
    if part != [] {
      assert part[|part| - 1] in part;
      assert forall t :: t in part[..|part| - 1] ==> t in part;
      NoneMarked(part[..|part| - 1], keyOf, bad);
    }
  }

  lemma {:induction false} EmitKeysCover(part: seq<TextBox>, keyOf: TextBox -> int, bad: int -> bool, keys: seq<int>)
    requires Distinct(keys)
    requires forall t :: t in part && IsValidBox(t) && bad(keyOf(t)) ==> keyOf(t) in keys
    ensures multiset(EmitKeys(part, keyOf, bad, keys)) == multiset(Marked(part, keyOf, bad))
    decreases |keys|
  {
    if keys == [] {
      NoneMarked(part, keyOf, bad);
    } else {
      var init := keys[..|keys| - 1];
      var key := keys[|keys| - 1];
      assert key !in init by {
        assert forall a :: 0 <= a < |init| ==> init[a] == keys[a];
      }
      var rest := WithoutKey(part, keyOf, key);
      forall t | t in rest && IsValidBox(t) && bad(keyOf(t)) ensures keyOf(t) in init {
        WithoutKeyMembers(part, keyOf, key, t);
        assert keyOf(t) in keys;
        assert keys == init + [key];
      }
      EmitKeysCover(rest, keyOf, bad, init);
      EmitKeysWithout(part, keyOf, bad, init, key);
      MarkedSplit(part, keyOf, bad, key);
    }
  }

  /** When the keys visited are distinct and cover every valid box, the
      second pass emits exactly the flagged boxes, each once. */
  lemma AlignmentCovered(all: seq<TextBox>, keyOf: TextBox -> int, keys: seq<int>, tolerance: int)
    requires Distinct(keys)
    requires forall k :: k !in keys ==> Bucket(all, keyOf, k) == []
    ensures multiset(EmitBuckets(all, keyOf, keys, tolerance)) == multiset(FlaggedIn(all, all, keyOf, tolerance))
  {
    var bad := BadKey(all, keyOf, tolerance);
    EmitBucketsAsKeys(all, keyOf, keys, tolerance);
    FlaggedAsMarked(all, all, keyOf, tolerance);
    forall t | t in all && IsValidBox(t) && bad(keyOf(t)) ensures keyOf(t) in keys {
      assert Bucket(all, keyOf, keyOf(t)) != [];
    }
    EmitKeysCover(all, keyOf, bad, keys);
  }

  /** `isValidBox` gates the text-size, button-size, heading and alignment
      detectors: a box without positive width and height is ignored by each
      of them, wherever it sits in the input. */
  lemma InvalidBoxIgnored(a: seq<TextBox>, t: TextBox, b: seq<TextBox>, minSizePx: int, minSize: int,
                          keyOf: TextBox -> int, key: int)
    requires !IsValidBox(t)
    ensures TextSizeIssues(a + [t] + b, minSizePx) == TextSizeIssues(a + b, minSizePx)
    ensures ButtonSizeIssues(a + [t] + b, minSize) == ButtonSizeIssues(a + b, minSize)
    ensures Headings(a + [t] + b) == Headings(a + b)
    ensures Bucket([t], keyOf, key) == []
  {
    var none: seq<TextBox> := [];
    assert [t][..0] == none;
    assert TextSizeIssues(a + [t] + b, minSizePx) == TextSizeIssues(a + b, minSizePx) by {
      TextSizeAppend(a + [t], b, minSizePx);
      TextSizeAppend(a, [t], minSizePx);
      TextSizeAppend(a, b, minSizePx);
    }
    assert ButtonSizeIssues(a + [t] + b, minSize) == ButtonSizeIssues(a + b, minSize) by {
      ButtonSizeAppend(a + [t], b, minSize);
      ButtonSizeAppend(a, [t], minSize);
      ButtonSizeAppend(a, b, minSize);
    }
    assert Headings(a + [t] + b) == Headings(a + b) by {
      HeadingsAppend(a + [t], b);
      HeadingsAppend(a, [t]);
      HeadingsAppend(a, b);
    }
  }

  /** A bucket of one box has spread 0 and is never flagged. */
  lemma SingleBoxAligned(t: TextBox, tolerance: int)
    requires tolerance >= 0
    ensures !Misaligned([t], tolerance)
  {
  }

  /** Boxes at (x 10, y 0), (x 40, y 2) and (x 12, y 3) with tolerance 5:
      0/5 and 2/5 round to 0 but 3/5 rounds to 1, so the third box sits alone
      in bucket 5 and only the first two are flagged. */
  const ExampleA := TextBox("a", 10, 0, 20, 10)
  const ExampleB := TextBox("b", 40, 2, 20, 10)
  const ExampleC := TextBox("c", 12, 3, 20, 10)

  lemma AlignmentExampleBuckets()
    ensures Bucket([ExampleA, ExampleB, ExampleC], KeyOf(5), 0) == [ExampleA, ExampleB]
    ensures Bucket([ExampleA, ExampleB, ExampleC], KeyOf(5), 5) == [ExampleC]
  {
    var a, b, c := ExampleA, ExampleB, ExampleC;
    var keyOf := KeyOf(5);
    assert keyOf(a) == 0 && keyOf(b) == 0 && keyOf(c) == 5;
    assert [a, b, c][..2] == [a, b] && [a, b][..1] == [a] && [a][..0] == [];
    assert Bucket([a], keyOf, 0) == [a] && Bucket([a], keyOf, 5) == [];
    assert Bucket([a, b], keyOf, 0) == [a, b] && Bucket([a, b], keyOf, 5) == [];
  }

  lemma AlignmentExample()
    ensures FlaggedIn([ExampleA, ExampleB, ExampleC], [ExampleA, ExampleB, ExampleC], KeyOf(5), 5)
         == [AlignmentIssue(ExampleA), AlignmentIssue(ExampleB)]
  {
    var a, b, c := ExampleA, ExampleB, ExampleC;
    var all := [a, b, c];
    var keyOf := KeyOf(5);
    AlignmentExampleBuckets();
    assert keyOf(a) == 0 && keyOf(b) == 0 && keyOf(c) == 5;
    assert MinOf([a, b], XOf) == 10 && MaxOf([a, b], XOf) == 40 by {
      assert [a, b][1..] == [b];
    }
    assert Flagged(all, keyOf, 5, a) && Flagged(all, keyOf, 5, b) && !Flagged(all, keyOf, 5, c);
    assert all[..2] == [a, b] && [a, b][..1] == [a] && [a][..0] == [];
    assert FlaggedIn(all, [a], keyOf, 5) == [AlignmentIssue(a)];
    assert FlaggedIn(all, [a, b], keyOf, 5) == [AlignmentIssue(a), AlignmentIssue(b)];
  }
}
