/** Shared records of the audit pipeline: rectangles, normalized text boxes,
    rule issues, contrast issues and the elements the line grouper accepts. */
module Boxes {

  datatype Option<+T> = None | Some(value: T)

  /** One byte of an image buffer or of a raw pixel sample. */
  newtype Byte = b: int | 0 <= b < 256

  /** An axis-aligned rectangle in pixel coordinates, origin top-left. */
  datatype Rect = Rect(x: int, y: int, w: int, h: int)

  /** A normalized OCR word: `{text, x, y, w, h}`. */
  datatype TextBox = TextBox(text: string, x: int, y: int, w: int, h: int)

  /** The `{x, y, w, h}` part of a text box, as every detector copies it. */
  function RectOf(t: TextBox): Rect
  {
    Rect(t.x, t.y, t.w, t.h)
  }

  /** The `type` field of a rule issue, as spelled by the detectors. */
  datatype Kind = Text | Button | HeadingHierarchy | Spacing | Alignment

  datatype Severity = Low | Medium | High

  /** The `message` field, kept as the values its template interpolates. */
  datatype Message =
    | TextTooSmall(height: int, minSizePx: int)
    | ButtonTooSmall(width: int, height: int, minSize: int)
    | HierarchyInconsistent(upperText: string, upperH: int, lowerText: string, lowerH: int)
    | SpacingTooSmall(spacing: int, minSpacing: int)
    | AlignmentInconsistent

  /** An issue emitted by one of the five rule detectors. */
  datatype Issue = Issue(boundingBox: Rect, kind: Kind, message: Message, severity: Severity)

  /** An issue emitted by the contrast sampler: it has a `position`, and no
      `boundingBox`, `type` or `severity`. `ratio` is the unrounded ratio. */
  datatype ContrastIssue = ContrastIssue(text: string, position: Rect, ratio: real, threshold: real)

  /** Anything handed to the line grouper. */
  datatype Element = RuleElement(issue: Issue) | ContrastElement(finding: ContrastIssue)

  /** `Math.min(...items.map(f))` over a non-empty list, as both the
      alignment detector and the line grouper compute it: a lower bound that
      some member attains. */
  function MinOf<T>(items: seq<T>, f: T -> int): (m: int)
    requires items != []
    ensures forall k :: 0 <= k < |items| ==> m <= f(items[k])
    ensures exists k :: 0 <= k < |items| && m == f(items[k])
  {
    if |items| == 1 then f(items[0])
    else
      var rest := MinOf(items[1..], f);
      assert forall k :: 1 <= k < |items| ==> items[k] == items[1..][k - 1];
      if f(items[0]) <= rest then f(items[0]) else rest
  }

  /** `Math.max(...items.map(f))` over a non-empty list: an upper bound that
      some member attains. */
  function MaxOf<T>(items: seq<T>, f: T -> int): (m: int)
    requires items != []
    ensures forall k :: 0 <= k < |items| ==> f(items[k]) <= m
    ensures exists k :: 0 <= k < |items| && m == f(items[k])
  {
    if |items| == 1 then f(items[0])
    else
      var rest := MaxOf(items[1..], f);
      assert forall k :: 1 <= k < |items| ==> items[k] == items[1..][k - 1];
      if f(items[0]) >= rest then f(items[0]) else rest
  }
}
