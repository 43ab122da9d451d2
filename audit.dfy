/** The line grouper and the `/upload` wiring: every detector's output is
    clustered into horizontal lines, and each line is reported once, as its
    first issue with a box covering the whole line. */
module Audit {
  import opened Boxes
  import opened Sorting
  import Ocr
  import Rules
  import Contrast

  // ---------------------------------------------------------------------
  // Input filter and sort
  // ---------------------------------------------------------------------

  /** The kept elements: those with a `boundingBox` (whose `y` is always a
      number here). Contrast findings carry `position` instead and are dropped. */
  function Cleaned(elements: seq<Element>): (r: seq<Issue>)
    ensures |r| <= |elements|
    ensures forall i :: i in r <==> RuleElement(i) in elements
  {
    if elements == [] then []
    else
      var e := elements[|elements| - 1];
      Cleaned(elements[..|elements| - 1]) + (if e.RuleElement? then [e.issue] else [])
  }

  /** The sort key of the grouper: `boundingBox.y`, ascending. */
  function IssueY(i: Issue): int {
    i.boundingBox.y
  }

  /** Absolute value, as `Math.abs`. */
  function Abs(n: int): int {
    if n < 0 then -n else n
  }

  // ---------------------------------------------------------------------
  // Clustering
  // ---------------------------------------------------------------------

  /** A line under construction: its representative `y` and its members. */
  datatype LineGroup = LineGroup(y: int, items: seq<Issue>)

  /** `groups.find(...)` from position `from` on: the index of the first
      group whose representative is within `yThreshold` of `y`, inclusive. */
  function FindFrom(groups: seq<LineGroup>, y: int, yThreshold: int, from: nat): (r: Option<nat>)
    requires from <= |groups|
    ensures r.Some? ==> from <= r.value < |groups| && Abs(groups[r.value].y - y) <= yThreshold
    ensures r.Some? ==> forall k :: from <= k < r.value ==> Abs(groups[k].y - y) > yThreshold
    ensures r.None? ==> forall k :: from <= k < |groups| ==> Abs(groups[k].y - y) > yThreshold
    decreases |groups| - from
  {
    if from == |groups| then None
    else if Abs(groups[from].y - y) <= yThreshold then Some(from)
    else FindFrom(groups, y, yThreshold, from + 1)
  }

  function FindGroup(groups: seq<LineGroup>, y: int, yThreshold: int): Option<nat> {
    FindFrom(groups, y, yThreshold, 0)
  }

  /** One step of the `forEach`: the element joins the first group within
      the threshold, or opens a new group whose representative is its own y. */
  function Place(groups: seq<LineGroup>, el: Issue, yThreshold: int): seq<LineGroup> {
    match FindGroup(groups, el.boundingBox.y, yThreshold)
    case None => groups + [LineGroup(el.boundingBox.y, [el])]
    case Some(k) => groups[k := LineGroup(groups[k].y, groups[k].items + [el])]
  }

  /** An element that no representative is within the threshold of opens
      a new group at the end, with its own y as representative. */
  lemma PlaceOpens(groups: seq<LineGroup>, el: Issue, yThreshold: int)
    requires forall k :: 0 <= k < |groups| ==> Abs(groups[k].y - el.boundingBox.y) > yThreshold
    ensures Place(groups, el, yThreshold) == groups + [LineGroup(el.boundingBox.y, [el])]
  {
  }

  /** Otherwise the element joins the first group within the threshold, at
      the end of its members; the representative and every other group stay
      as they were. */
  lemma PlaceJoins(groups: seq<LineGroup>, el: Issue, yThreshold: int, k: nat)
    requires k < |groups| && Abs(groups[k].y - el.boundingBox.y) <= yThreshold
    requires forall j :: 0 <= j < k ==> Abs(groups[j].y - el.boundingBox.y) > yThreshold
    ensures Place(groups, el, yThreshold) == groups[k := LineGroup(groups[k].y, groups[k].items + [el])]
  {
  }

  /** The groups after the `forEach` over `sorted`. Every group is non-empty
      and its representative is its first member's y. */
  function Cluster(sorted: seq<Issue>, yThreshold: int): (groups: seq<LineGroup>)
    ensures |groups| <= |sorted|
    ensures Headed(groups)
  {
    if sorted == [] then []
    else Place(Cluster(sorted[..|sorted| - 1], yThreshold), sorted[|sorted| - 1], yThreshold)
  }

  /** All members of the groups, group after group. */
  function Flatten(groups: seq<LineGroup>): seq<Issue> {
    if groups == [] then []
    else Flatten(groups[..|groups| - 1]) + groups[|groups| - 1].items
  }

  /** Every group is non-empty and is led by the member that opened it. */
  ghost predicate Headed(groups: seq<LineGroup>) {
    forall k :: 0 <= k < |groups| ==>
      groups[k].items != [] && groups[k].y == groups[k].items[0].boundingBox.y
  }

  /** Every member lies at or below its representative and, after the
      first, within the threshold of it. */
  ghost predicate Banded(groups: seq<LineGroup>, yThreshold: int) {
    forall k, m :: 0 <= k < |groups| && 0 <= m < |groups[k].items| ==>
      0 <= groups[k].items[m].boundingBox.y - groups[k].y &&
      (m > 0 ==> groups[k].items[m].boundingBox.y - groups[k].y <= yThreshold)
  }

  /** Representatives are more than the threshold apart, in order. */
  ghost predicate Spread(groups: seq<LineGroup>, yThreshold: int) {
    forall i, j :: 0 <= i < j < |groups| ==> groups[j].y - groups[i].y > yThreshold
  }

  /** No representative lies below `y`. */
  ghost predicate AllAtOrAbove(groups: seq<LineGroup>, y: int) {
    forall k :: 0 <= k < |groups| ==> groups[k].y <= y
  }

  /** What the clustering maintains over a y-sorted prefix `s`. */
  ghost predicate Clustered(groups: seq<LineGroup>, s: seq<Issue>, yThreshold: int) {
    && Flatten(groups) == s
    && Headed(groups)
    && Banded(groups, yThreshold)
    && Spread(groups, yThreshold)
    && (s != [] ==> AllAtOrAbove(groups, s[|s| - 1].boundingBox.y))
  }

  lemma FlattenUpdateLast(groups: seq<LineGroup>, el: Issue)
    requires groups != []
    ensures var n := |groups| - 1;
      Flatten(groups[n := LineGroup(groups[n].y, groups[n].items + [el])]) == Flatten(groups) + [el]
  {
    var n := |groups| - 1;
    var g := groups[n := LineGroup(groups[n].y, groups[n].items + [el])];
    assert g[..n] == groups[..n];
  }

  lemma FlattenAppend(groups: seq<LineGroup>, g: LineGroup)
    ensures Flatten(groups + [g]) == Flatten(groups) + g.items
  {
    assert (groups + [g])[..|groups|] == groups;
  }

  /** Headed groups flatten to nothing only when there are none. */
  lemma {:induction false} FlattenNonEmpty(groups: seq<LineGroup>)
    requires Headed(groups)
    ensures groups != [] ==> Flatten(groups) != []
  {
    if groups != [] {
      assert groups[|groups| - 1].items != [];
    }
  }

  /** An element that opens a new group, in y order, keeps the groups
      clustered. */
  lemma PlaceNew(groups: seq<LineGroup>, s: seq<Issue>, el: Issue, yThreshold: int)
    requires Clustered(groups, s, yThreshold)
    requires s != [] ==> s[|s| - 1].boundingBox.y <= el.boundingBox.y
    requires groups != [] ==> s != []
    requires forall k :: 0 <= k < |groups| ==> Abs(groups[k].y - el.boundingBox.y) > yThreshold
    ensures Clustered(groups + [LineGroup(el.boundingBox.y, [el])], s + [el], yThreshold)
  {
    var y := el.boundingBox.y;
    var g := groups + [LineGroup(y, [el])];
    FlattenAppend(groups, LineGroup(y, [el]));
    assert AllAtOrAbove(groups, y);
    assert Headed(g);
    assert Banded(g, yThreshold) by {
      forall k, m | 0 <= k < |g| && 0 <= m < |g[k].items|
        ensures 0 <= g[k].items[m].boundingBox.y - g[k].y
        ensures m > 0 ==> g[k].items[m].boundingBox.y - g[k].y <= yThreshold
      {
        if k < |groups| {
          assert g[k] == groups[k];
        }
      }
    }
    assert Spread(g, yThreshold) by {
      forall i, j | 0 <= i < j < |g| ensures g[j].y - g[i].y > yThreshold {
        if j < |groups| {
          assert g[i] == groups[i] && g[j] == groups[j];
        } else {
          assert g[i] == groups[i];
          assert groups[i].y <= y;
        }
      }
    }
    assert AllAtOrAbove(g, (s + [el])[|s|].boundingBox.y);
  }

  /** An element within the threshold of a representative, in y order, can
      only be within that of the last one, and joining it there keeps the
      groups clustered. */
  lemma PlaceJoin(groups: seq<LineGroup>, s: seq<Issue>, el: Issue, yThreshold: int, k: nat)
    requires Clustered(groups, s, yThreshold)
    requires s != [] ==> s[|s| - 1].boundingBox.y <= el.boundingBox.y
    requires groups != [] ==> s != []
    requires k < |groups| && Abs(groups[k].y - el.boundingBox.y) <= yThreshold
    requires forall j :: 0 <= j < k ==> Abs(groups[j].y - el.boundingBox.y) > yThreshold
    ensures k == |groups| - 1
    ensures Clustered(groups[k := LineGroup(groups[k].y, groups[k].items + [el])], s + [el], yThreshold)
  {
    var y := el.boundingBox.y;
    var n := |groups| - 1;
    assert AllAtOrAbove(groups, y);
    assert k == n;
    var g := groups[n := LineGroup(groups[n].y, groups[n].items + [el])];
    FlattenUpdateLast(groups, el);
    assert Headed(g) by {
      forall j | 0 <= j < |g|
        ensures g[j].items != [] && g[j].y == g[j].items[0].boundingBox.y
      {
        if j < n { assert g[j] == groups[j]; }
      }
    }
    assert Banded(g, yThreshold) by {
      forall j, m | 0 <= j < |g| && 0 <= m < |g[j].items|
        ensures 0 <= g[j].items[m].boundingBox.y - g[j].y
        ensures m > 0 ==> g[j].items[m].boundingBox.y - g[j].y <= yThreshold
      {
        if j < n {
          assert g[j] == groups[j];
        } else if m < |groups[n].items| {
          assert g[j].items[m] == groups[n].items[m];
        } else {
          assert g[j].items[m] == el;
        }
      }
    }
    assert Spread(g, yThreshold) by {
      forall i, j | 0 <= i < j < |g| ensures g[j].y - g[i].y > yThreshold {
        assert g[i].y == groups[i].y && g[j].y == groups[j].y;
      }
    }
    assert AllAtOrAbove(g, (s + [el])[|s|].boundingBox.y) by {
      forall j | 0 <= j < |g| ensures g[j].y <= y {
        assert g[j].y == groups[j].y;
      }
    }
  }

  /** Placing the next element in y order keeps the groups clustered. */
  lemma PlaceKeepsClustered(groups: seq<LineGroup>, s: seq<Issue>, el: Issue, yThreshold: int)
    requires Clustered(groups, s, yThreshold)
    requires s != [] ==> s[|s| - 1].boundingBox.y <= el.boundingBox.y
    ensures Clustered(Place(groups, el, yThreshold), s + [el], yThreshold)
  {
    FlattenNonEmpty(groups);
    match FindGroup(groups, el.boundingBox.y, yThreshold)
    case None =>
      PlaceNew(groups, s, el, yThreshold);
    case Some(k) =>
      PlaceJoin(groups, s, el, yThreshold, k);
  }

  /** On y-sorted input the clustering invariant holds of the result. */
  lemma {:induction false} ClusterClustered(sorted: seq<Issue>, yThreshold: int)
    requires SortedBy(sorted, IssueY)
    ensures Clustered(Cluster(sorted, yThreshold), sorted, yThreshold)
  {
    if sorted != [] {
      var n := |sorted| - 1;
      var init, last := sorted[..n], sorted[n];
      SortedByPrefix(sorted, IssueY, n);
      ClusterClustered(init, yThreshold);
      if n > 0 {
        assert init[n - 1] == sorted[n - 1];
        assert IssueY(sorted[n - 1]) <= IssueY(last);
      }
      var g := Cluster(init, yThreshold);
      assert init + [last] == sorted;
      assert Cluster(sorted, yThreshold) == Place(g, last, yThreshold);
      PlaceKeepsClustered(g, init, last, yThreshold);
    }
  }

  // ---------------------------------------------------------------------
  // Merged boxes
  // ---------------------------------------------------------------------

  function Left(i: Issue): int { i.boundingBox.x }
  function Top(i: Issue): int { i.boundingBox.y }
  function Right(i: Issue): int { i.boundingBox.x + i.boundingBox.w }
  function Bottom(i: Issue): int { i.boundingBox.y + i.boundingBox.h }

  /** The map step for one group: the first member with its `boundingBox`
      replaced by the smallest box covering every member. */
  function Merge(g: LineGroup): (r: Issue)
    requires g.items != []
    ensures r.kind == g.items[0].kind && r.message == g.items[0].message
    ensures r.severity == g.items[0].severity
    ensures forall k :: 0 <= k < |g.items| ==>
      r.boundingBox.x <= Left(g.items[k]) && Right(g.items[k]) <= r.boundingBox.x + r.boundingBox.w &&
      r.boundingBox.y <= Top(g.items[k]) && Bottom(g.items[k]) <= r.boundingBox.y + r.boundingBox.h
    ensures exists k :: 0 <= k < |g.items| && r.boundingBox.x == Left(g.items[k])
    ensures exists k :: 0 <= k < |g.items| && r.boundingBox.y == Top(g.items[k])
    ensures exists k :: 0 <= k < |g.items| && r.boundingBox.x + r.boundingBox.w == Right(g.items[k])
    ensures exists k :: 0 <= k < |g.items| && r.boundingBox.y + r.boundingBox.h == Bottom(g.items[k])
  {
    var x := MinOf(g.items, Left);
    var y := MinOf(g.items, Top);
    var w := MaxOf(g.items, Right) - x;
    var h := MaxOf(g.items, Bottom) - y;
    g.items[0].(boundingBox := Rect(x, y, w, h))
  }

  /** `groups.map(...)`, one merged record per group. */
  function MergeAll(groups: seq<LineGroup>): (r: seq<Issue>)
    requires forall k :: 0 <= k < |groups| ==> groups[k].items != []
    ensures |r| == |groups|
  {
    if groups == [] then []
    else MergeAll(groups[..|groups| - 1]) + [Merge(groups[|groups| - 1])]
  }

  lemma {:induction false} MergeAllAt(groups: seq<LineGroup>, k: nat)
    requires forall j :: 0 <= j < |groups| ==> groups[j].items != []
    requires k < |groups|
    ensures MergeAll(groups)[k] == Merge(groups[k])
  {
    if k < |groups| - 1 {
      MergeAllAt(groups[..|groups| - 1], k);
    }
  }

  /** What `groupByLine(elements, yThreshold)` returns: at most one record
      per kept element. */
  function LineGroups(elements: seq<Element>, yThreshold: int): (r: seq<Issue>)
    ensures |r| <= |Cleaned(elements)|
  {
    MergeAll(Cluster(SortBy(Cleaned(elements), IssueY), yThreshold))
  }

  /** `groupByLine(elements, yThreshold)`: filter, sort by y, cluster
      greedily into lines by mutating the list of groups, then merge. */
  method GroupByLine(elements: seq<Element>, yThreshold: int) returns (result: seq<Issue>)
    ensures result == LineGroups(elements, yThreshold)
    ensures |result| <= |Cleaned(elements)|
  {
    var cleaned := Cleaned(elements);
    var sorted := SortBy(cleaned, IssueY);
    var groups := ClusterLines(sorted, yThreshold);
    result := MergeAll(groups);
  }

  /** The `forEach` of `groupByLine`: each element joins the first group
      within the threshold, or pushes a new group of its own. */
  method ClusterLines(sorted: seq<Issue>, yThreshold: int) returns (groups: seq<LineGroup>)
    ensures groups == Cluster(sorted, yThreshold)
  {
    groups := [];
    for i := 0 to |sorted|
      invariant groups == Cluster(sorted[..i], yThreshold)
    {
      var el := sorted[i];
      assert sorted[..i + 1][..i] == sorted[..i];
      var found := FindGroup(groups, el.boundingBox.y, yThreshold);
      var k: nat;
      ghost var before := groups;
      if found.None? {
        groups := groups + [LineGroup(el.boundingBox.y, [])];
        k := |groups| - 1;
      } else {
        k := found.value;
      }
      groups := groups[k := LineGroup(groups[k].y, groups[k].items + [el])];
      if found.None? {
        assert groups[..|before|] == before;
        assert groups[|before|].items == [el];
        assert groups == groups[..|before|] + [groups[|before|]];
      }
    }
    assert sorted[..|sorted|] == sorted;
  }

  // ---------------------------------------------------------------------
  // Properties of the grouper
  // ---------------------------------------------------------------------

  /** Elements without a `boundingBox` never reach the output: a list of
      contrast findings always groups to nothing. */
  lemma ContrastNeverGrouped(cs: seq<ContrastIssue>, yThreshold: int)
    ensures LineGroups(WrapContrast(cs), yThreshold) == []
  {
    CleanedNoRule(WrapContrast(cs));
  }

  lemma {:induction false} CleanedNoRule(elements: seq<Element>)
    requires forall k :: 0 <= k < |elements| ==> elements[k].ContrastElement?
    ensures Cleaned(elements) == []
  {
    if elements != [] {
      CleanedNoRule(elements[..|elements| - 1]);
    }
  }

  /** The lines of `groupByLine`: its sorted input is split into groups,
      each kept element in exactly one group and in y order; each group is
      led by the element that opened it; every member lies at or below its
      representative and, after the first, within the threshold; and the
      representatives are more than the threshold apart, in order. */
  lemma GroupByLinePartition(elements: seq<Element>, yThreshold: int)
    ensures var sorted := SortBy(Cleaned(elements), IssueY);
      var groups := Cluster(sorted, yThreshold);
      && Flatten(groups) == sorted
      && multiset(Flatten(groups)) == multiset(Cleaned(elements))
      && Headed(groups) && Banded(groups, yThreshold) && Spread(groups, yThreshold)
  {
    var kept := Cleaned(elements);
    SortBySorted(kept, IssueY);
    SortByPermutes(kept, IssueY);
    ClusterClustered(SortBy(kept, IssueY), yThreshold);
  }

  /** With a non-negative threshold every member is within the threshold of
      its representative, and the representatives strictly increase. */
  lemma GroupByLineLines(elements: seq<Element>, yThreshold: int)
    requires yThreshold >= 0
    ensures WithinThreshold(Cluster(SortBy(Cleaned(elements), IssueY), yThreshold), yThreshold)
    ensures Ascending(Cluster(SortBy(Cleaned(elements), IssueY), yThreshold))
  {
    GroupByLinePartition(elements, yThreshold);
    LinesOf(Cluster(SortBy(Cleaned(elements), IssueY), yThreshold), yThreshold);
  }

  /** Every member lies within the threshold of its group's representative. */
  ghost predicate WithinThreshold(groups: seq<LineGroup>, yThreshold: int) {
    forall k, m :: 0 <= k < |groups| && 0 <= m < |groups[k].items| ==>
      Abs(groups[k].items[m].boundingBox.y - groups[k].y) <= yThreshold
  }

  /** The representatives strictly increase from group to group. */
  ghost predicate Ascending(groups: seq<LineGroup>) {
    forall i, j :: 0 <= i < j < |groups| ==> groups[i].y < groups[j].y
  }

  lemma LinesOf(groups: seq<LineGroup>, yThreshold: int)
    requires yThreshold >= 0 && Headed(groups) && Banded(groups, yThreshold) && Spread(groups, yThreshold)
    ensures WithinThreshold(groups, yThreshold)
    ensures Ascending(groups)
  {
    forall k, m | 0 <= k < |groups| && 0 <= m < |groups[k].items|
      ensures Abs(groups[k].items[m].boundingBox.y - groups[k].y) <= yThreshold
    {
      if m == 0 {
        assert groups[k].items[0].boundingBox.y == groups[k].y;
      }
    }
  }

  /** Output record `k` is group `k` merged, and its box sits at the
      group's representative y. */
  lemma GroupByLineMerged(elements: seq<Element>, yThreshold: int, k: nat)
    requires k < |Cluster(SortBy(Cleaned(elements), IssueY), yThreshold)|
    ensures var groups := Cluster(SortBy(Cleaned(elements), IssueY), yThreshold);
      && |LineGroups(elements, yThreshold)| == |groups|
      && LineGroups(elements, yThreshold)[k] == Merge(groups[k])
      && LineGroups(elements, yThreshold)[k].boundingBox.y == groups[k].y
  {
    var groups := Cluster(SortBy(Cleaned(elements), IssueY), yThreshold);
    GroupByLinePartition(elements, yThreshold);
    MergeAllAt(groups, k);
    var r := Merge(groups[k]);
    var m :| 0 <= m < |groups[k].items| && r.boundingBox.y == Top(groups[k].items[m]);
    assert r.boundingBox.y <= Top(groups[k].items[0]);
  }

  /** No kept element, no line; some kept element, some line. */
  lemma GroupByLineEmpty(elements: seq<Element>, yThreshold: int)
    ensures LineGroups(elements, yThreshold) == [] <==> Cleaned(elements) == []
  {
    GroupByLinePartition(elements, yThreshold);
    FlattenNonEmpty(Cluster(SortBy(Cleaned(elements), IssueY), yThreshold));
  }

  /** A lone issue comes out unchanged. */
  lemma GroupSingleton(i: Issue, yThreshold: int)
    ensures LineGroups([RuleElement(i)], yThreshold) == [i]
  {
    var g := LineGroup(i.boundingBox.y, [i]);
    assert [RuleElement(i)][..0] == [];
    assert Cleaned([RuleElement(i)]) == [i];
    assert SortBy([i], IssueY) == [i] by {
      assert [i][1..] == [];
    }
    assert Cluster([i], yThreshold) == [g] by {
      assert [i][..0] == [];
      assert FindGroup([], i.boundingBox.y, yThreshold) == None;
      assert Place([], i, yThreshold) == [g];
    }
    assert MergeAll([g]) == [Merge(g)] by {
      assert [g][..0] == [];
    }
    MergeSingleton(i);
  }

  lemma MergeSingleton(i: Issue)
    ensures Merge(LineGroup(i.boundingBox.y, [i])) == i
  {
    var items := [i];
    assert MinOf(items, Left) == i.boundingBox.x && MinOf(items, Top) == i.boundingBox.y;
    assert MaxOf(items, Right) == i.boundingBox.x + i.boundingBox.w;
    assert MaxOf(items, Bottom) == i.boundingBox.y + i.boundingBox.h;
  }

  // ---------------------------------------------------------------------
  // The /upload handler
  // ---------------------------------------------------------------------

  /** The text boxes handed to the button detector: text longer than three
      characters, in input order. */
  function ButtonCandidates(textData: seq<TextBox>): (r: seq<TextBox>)
    ensures |r| <= |textData|
    ensures forall t :: t in r <==> t in textData && |t.text| > 3
  {
    if textData == [] then []
    else
      var t := textData[|textData| - 1];
      ButtonCandidates(textData[..|textData| - 1]) + (if |t.text| > 3 then [t] else [])
  }

  /** The filter keeps the candidates' relative order. */
  lemma {:induction false} ButtonCandidatesAppend(a: seq<TextBox>, b: seq<TextBox>)
    ensures ButtonCandidates(a + b) == ButtonCandidates(a) + ButtonCandidates(b)
    decreases |b|
  {
    if b == [] {
      assert a + b == a;
    } else {
      var b0 := b[..|b| - 1];
      assert (a + b)[..|a + b| - 1] == a + b0;
      assert b[..|b| - 1] == b0;
      ButtonCandidatesAppend(a, b0);
    }
  }

  /** Wrapping a detector's output for the grouper. */
  function Wrap(issues: seq<Issue>): (r: seq<Element>)
    ensures |r| == |issues|
    ensures forall k :: 0 <= k < |r| ==> r[k] == RuleElement(issues[k])
  {
    seq(|issues|, k requires 0 <= k < |issues| => RuleElement(issues[k]))
  }

  function WrapContrast(cs: seq<ContrastIssue>): seq<Element> {
    seq(|cs|, k requires 0 <= k < |cs| => ContrastElement(cs[k]))
  }

  lemma {:induction false} CleanedWrap(issues: seq<Issue>)
    ensures Cleaned(Wrap(issues)) == issues
  {
    if issues != [] {
      var n := |issues| - 1;
      assert Wrap(issues)[..n] == Wrap(issues[..n]);
      CleanedWrap(issues[..n]);
      assert issues[..n] + [issues[n]] == issues;
    }
  }

  /** The JSON body of a successful `/upload`. */
  datatype AuditReport = AuditReport(
    groupedTextSizeIssues: seq<Issue>,
    groupedContrastIssues: seq<Issue>,
    groupedButtonSizeIssues: seq<Issue>,
    headingIssues: seq<Issue>,
    spacingIssues: seq<Issue>,
    alignmentIssues: seq<Issue>)

  /** The thresholds the handler passes. */
  const MinTextSize := 16
  const MinButtonSize := 44
  const MinSpacing := 8
  const AlignTolerance := 5
  const LineThreshold := 20

  /** The report as a function of the OCR boxes and the contrast findings. */
  function Report(textData: seq<TextBox>, contrastIssues: seq<ContrastIssue>): AuditReport {
    AuditReport(
      LineGroups(Wrap(Rules.TextSizeIssues(textData, MinTextSize)), LineThreshold),
      LineGroups(WrapContrast(contrastIssues), LineThreshold),
      LineGroups(Wrap(Rules.ButtonSizeIssues(ButtonCandidates(textData), MinButtonSize)), LineThreshold),
      LineGroups(Wrap(Rules.HierarchyIssues(SortBy(Rules.Headings(textData), Rules.NegHeight))), LineThreshold),
      LineGroups(Wrap(Rules.SpacingIssues(SortBy(textData, Rules.YOf), MinSpacing)), LineThreshold),
      LineGroups(Wrap(Rules.AlignmentResult(textData, AlignTolerance)), LineThreshold))
  }

  /** The audit step of the handler: run the five detectors (the button
      detector on the candidates only) and group each list into lines. The
      contrast and heading lists always come out empty. */
  method RunAudit(textData: seq<TextBox>, contrastIssues: seq<ContrastIssue>) returns (report: AuditReport)
    ensures report == Report(textData, contrastIssues)
    ensures report.groupedContrastIssues == [] && report.headingIssues == []
  {
    var textSizeIssues := Rules.CheckTextSize(textData, MinTextSize);
    var buttonCandidates := ButtonCandidates(textData);
    var buttonSizeIssues := Rules.CheckButtonSize(buttonCandidates, MinButtonSize);
    var headingIssues := Rules.CheckHeadingHierarchy(textData);
    var spacingIssues := Rules.CheckSpacing(textData, MinSpacing);
    var alignmentIssues := Rules.CheckAlignment(textData, AlignTolerance);
    var g1 := GroupByLine(Wrap(textSizeIssues), LineThreshold);
    var g2 := GroupByLine(WrapContrast(contrastIssues), LineThreshold);
    var g3 := GroupByLine(Wrap(buttonSizeIssues), LineThreshold);
    var g4 := GroupByLine(Wrap(headingIssues), LineThreshold);
    var g5 := GroupByLine(Wrap(spacingIssues), LineThreshold);
    var g6 := GroupByLine(Wrap(alignmentIssues), LineThreshold);
    report := AuditReport(g1, g2, g3, g4, g5, g6);
    ContrastNeverGrouped(contrastIssues, LineThreshold);
    CleanedWrap([]);
  }

  /** What `POST /upload` answers: 400 without an image, 500 when a step
      throws, otherwise the grouped report as JSON. */
  datatype Response = BadRequest | ServerError | Ok(report: AuditReport)

  /** The upload handler. `image` is the uploaded file's bytes, if any;
      `meta` is the image decoder's answer (`None` when reading the metadata
      throws, which the OCR step swallows and the contrast step does not);
      `recognized` is the OCR engine's word list (`None` when it throws). */
  method Upload(image: Option<seq<Byte>>, meta: Option<Ocr.ImageMeta>, recognized: Option<seq<Ocr.RawWord>>,
                extract: Contrast.Extractor, gamma: real -> real) returns (response: Response)
    requires Contrast.GammaInUnit(gamma)
    ensures image.None? <==> response.BadRequest?
    ensures image.Some? && meta.None? <==> response.ServerError?
    ensures response.Ok? ==>
      var textData := Ocr.ExtractTextWithBoxes(image, meta, recognized);
      response.report == Report(textData,
        Contrast.ContrastIssues(textData, meta.value.width, meta.value.height, extract, gamma,
                                Contrast.DefaultThreshold))
    ensures image.Some? && meta.Some? &&
            (image.value == [] || meta.value.width == 0 || meta.value.height == 0 || recognized.None?)
            ==> response == Ok(AuditReport([], [], [], [], [], []))
  {
    if image.None? {
      return BadRequest;
    }
    var textData := Ocr.ExtractTextWithBoxes(image, meta, recognized);
    if meta.None? {
      return ServerError;
    }
    var contrastIssues := Contrast.CheckTextContrast(meta.value.width, meta.value.height, textData,
                                                     extract, gamma, Contrast.DefaultThreshold);
    var report := RunAudit(textData, contrastIssues);
    response := Ok(report);
    if textData == [] {
      EmptyReport(contrastIssues);
      assert report == AuditReport([], [], [], [], [], []);
    }
  }

  // ---------------------------------------------------------------------
  // Pipeline-level facts
  // ---------------------------------------------------------------------

  /** Every box the OCR step produces passes the detectors' validity test
      and has non-empty trimmed text. */
  lemma NormalizedBoxesValid(buffer: Option<seq<Byte>>, meta: Option<Ocr.ImageMeta>,
                             recognized: Option<seq<Ocr.RawWord>>)
    ensures forall t :: t in Ocr.ExtractTextWithBoxes(buffer, meta, recognized) ==>
      Rules.IsValidBox(t) && t.x >= 0 && t.y >= 0 && Ocr.Trim(t.text) == t.text && t.text != []
  {
    var r := Ocr.ExtractTextWithBoxes(buffer, meta, recognized);
    forall t | t in r
      ensures Rules.IsValidBox(t) && t.x >= 0 && t.y >= 0 && Ocr.Trim(t.text) == t.text && t.text != []
    {
      assert r == Ocr.NormalizeWords(recognized.value);
    }
  }

  /** One 12 px box and one 20 px box: the grouped text-size list is exactly
      the issue about the small box. */
  lemma SmallTextReported()
    ensures var small := TextBox("Hello", 10, 10, 50, 12);
      var big := TextBox("World", 10, 100, 50, 20);
      Report([small, big], []).groupedTextSizeIssues ==
        [Issue(Rect(10, 10, 50, 12), Text, TextTooSmall(12, 16), High)]
  {
    var small := TextBox("Hello", 10, 10, 50, 12);
    var big := TextBox("World", 10, 100, 50, 20);
    assert [small, big][..1] == [small];
    assert [small][..0] == [];
    assert Rules.TextSizeIssues([small, big], MinTextSize) == [Rules.TextSizeIssue(small, MinTextSize)];
    var i := Issue(Rect(10, 10, 50, 12), Text, TextTooSmall(12, 16), High);
    assert Wrap([i]) == [RuleElement(i)];
    GroupSingleton(i, LineThreshold);
  }

  /** With no text boxes every list of the report is empty, whatever the
      contrast findings are. */
  lemma EmptyReport(contrastIssues: seq<ContrastIssue>)
    ensures Report([], contrastIssues) == AuditReport([], [], [], [], [], [])
  {
    var none: seq<TextBox> := [];
    CleanedWrap([]);
    ContrastNeverGrouped(contrastIssues, LineThreshold);
    assert Rules.AlignmentResult(none, AlignTolerance) == [];
  }

  const LineA := Issue(Rect(0, 0, 10, 10), Text, TextTooSmall(10, 16), High)
  const LineB := Issue(Rect(20, 5, 10, 10), Text, TextTooSmall(10, 16), High)
  const LineC := Issue(Rect(0, 30, 10, 10), Text, TextTooSmall(10, 16), High)

  lemma LineExampleClusters()
    ensures Cluster([LineA, LineB, LineC], 20) == [LineGroup(0, [LineA, LineB]), LineGroup(30, [LineC])]
  {
    var g1 := [LineGroup(0, [LineA])];
    var g2 := [LineGroup(0, [LineA, LineB])];
    assert Cluster([LineA], 20) == g1 by {
      assert [LineA][..0] == [];
      assert FindGroup([], 0, 20) == None;
    }
    assert Cluster([LineA, LineB], 20) == g2 by {
      assert [LineA, LineB][..1] == [LineA];
      assert FindGroup(g1, 5, 20) == Some(0);
      assert [LineA] + [LineB] == [LineA, LineB];
    }
    assert [LineA, LineB, LineC][..2] == [LineA, LineB];
    assert FindGroup(g2, 30, 20) == None by {
      assert FindFrom(g2, 30, 20, 1) == None;
    }
  }

  /** The y sort puts the example issues in the order A, B, C. */
  lemma LineExampleSorted()
    ensures SortBy([LineC, LineA, LineB], IssueY) == [LineA, LineB, LineC]
  {
    var s := [LineC, LineA, LineB];
    assert s[1..] == [LineA, LineB] && s[1..][1..] == [LineB] && s[1..][1..][1..] == [];
    assert SortBy([LineB], IssueY) == [LineB];
    assert SortBy([LineA, LineB], IssueY) == [LineA, LineB];
    assert [LineA, LineB][1..] == [LineB] && [LineB][1..] == [];
    assert Insert(LineC, [LineB], IssueY) == [LineB, LineC];
  }

  lemma LineExampleMerged()
    ensures Merge(LineGroup(0, [LineA, LineB])) == Issue(Rect(0, 0, 30, 15), Text, TextTooSmall(10, 16), High)
  {
    var items := [LineA, LineB];
    assert items[1..] == [LineB];
    assert MinOf([LineB], Left) == 20 && MinOf([LineB], Top) == 5;
    assert MaxOf([LineB], Right) == 30 && MaxOf([LineB], Bottom) == 15;
    assert MinOf(items, Left) == 0;
    assert MinOf(items, Top) == 0;
    assert MaxOf(items, Right) == 30;
    assert MaxOf(items, Bottom) == 15;
  }

  lemma LineExampleMergeAll()
    ensures MergeAll([LineGroup(0, [LineA, LineB]), LineGroup(30, [LineC])])
      == [Issue(Rect(0, 0, 30, 15), Text, TextTooSmall(10, 16), High), LineC]
  {
    var groups := [LineGroup(0, [LineA, LineB]), LineGroup(30, [LineC])];
    var r := MergeAll(groups);
    MergeAllAt(groups, 0);
    MergeAllAt(groups, 1);
    LineExampleMerged();
    MergeSingleton(LineC);
    assert r[0] == Issue(Rect(0, 0, 30, 15), Text, TextTooSmall(10, 16), High);
    assert r[1] == LineC;
  }

  /** Issues at y = 0, 5 and 30 with threshold 20: the first two share a
      line whose box is their union, the third stands alone. */
  lemma LineExample()
    ensures LineGroups(Wrap([LineC, LineA, LineB]), 20)
      == [Issue(Rect(0, 0, 30, 15), Text, TextTooSmall(10, 16), High), LineC]
  {
    var s := [LineC, LineA, LineB];
    var sorted := [LineA, LineB, LineC];
    CleanedWrap(s);
    LineExampleSorted();
    assert SortBy(Cleaned(Wrap(s)), IssueY) == sorted;
    LineExampleClusters();
    LineExampleMergeAll();
  }
}
