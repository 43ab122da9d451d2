/** The box normalizer of `extractTextWithBoxes`: the guards in front of the
    OCR call and the `filter(...).map(...)` chain over the recognized words.
    The image decoder and the OCR engine are external: their answers are
    parameters, with `None` standing for a call that threw. */
module Ocr {
  import opened Boxes

  /** The characters `String.prototype.trim` removes: WhiteSpace (tab,
      vertical tab, form feed, space, no-break space, byte order mark and the
      other Space_Separator characters) and LineTerminator. */
  predicate IsWhitespace(c: char) {
    || c == '\t' || c == '\n' || c == '\U{000B}' || c == '\U{000C}' || c == '\r'
    || c == ' ' || c == '\U{00A0}' || c == '\U{1680}'
    || ('\U{2000}' <= c <= '\U{200A}')
    || c == '\U{2028}' || c == '\U{2029}' || c == '\U{202F}' || c == '\U{205F}'
    || c == '\U{3000}' || c == '\U{FEFF}'
  }

  /** Drops leading whitespace: the result is the suffix of `s` that starts
      at its first non-whitespace character. */
  function TrimStart(s: string): (r: string)
    ensures |r| <= |s| && r == s[|s| - |r|..]
    ensures forall k :: 0 <= k < |s| - |r| ==> IsWhitespace(s[k])
    ensures r != [] ==> !IsWhitespace(r[0])
  {
    if s != [] && IsWhitespace(s[0]) then TrimStart(s[1..]) else s
  }

  /** Drops trailing whitespace: the result is the prefix of `s` that ends
      at its last non-whitespace character. */
  function TrimEnd(s: string): (r: string)
    ensures |r| <= |s| && r == s[..|r|]
    ensures forall k :: |r| <= k < |s| ==> IsWhitespace(s[k])
    ensures r != [] ==> !IsWhitespace(r[|r| - 1])
  {
    if s != [] && IsWhitespace(s[|s| - 1]) then TrimEnd(s[..|s| - 1]) else s
  }

  /** `String.prototype.trim`. */
  function Trim(s: string): string {
    TrimEnd(TrimStart(s))
  }

  /** Trimming keeps the part of `s` between its leading and its trailing
      whitespace: a contiguous slice with whitespace only on either side. */
  lemma TrimSlice(s: string)
    ensures |s| - |TrimStart(s)| + |Trim(s)| <= |s|
    ensures Trim(s) == s[|s| - |TrimStart(s)|..][..|Trim(s)|]
    ensures forall k :: 0 <= k < |s| - |TrimStart(s)| ==> IsWhitespace(s[k])
    ensures forall k :: |s| - |TrimStart(s)| + |Trim(s)| <= k < |s| ==> IsWhitespace(s[k])
  {
    var a := TrimStart(s);
    var r := TrimEnd(a);
    assert forall k :: |s| - |a| + |r| <= k < |s| ==> s[k] == a[k - (|s| - |a|)];
  }

  /** Trimming yields the empty string exactly for whitespace-only input, and
      otherwise a string that neither starts nor ends with whitespace. */
  lemma TrimEmptyIff(s: string)
    ensures Trim(s) == [] <==> forall k :: 0 <= k < |s| ==> IsWhitespace(s[k])
    ensures Trim(s) != [] ==> !IsWhitespace(Trim(s)[0]) && !IsWhitespace(Trim(s)[|Trim(s)| - 1])
  {
    var a := TrimStart(s);
    if Trim(s) == [] {
      forall k | 0 <= k < |s| ensures IsWhitespace(s[k]) {
        if k >= |s| - |a| {
          assert s[k] == a[k - (|s| - |a|)];
        }
      }
    } else {
      var r := Trim(s);
      assert r == a[..|r|];
      assert r[0] == a[0];
      var k := |s| - |a|;
      assert s[k] == a[0] && !IsWhitespace(s[k]);
    }
  }

  /** Trimming twice changes nothing more. */
  lemma TrimIdempotent(s: string)
    ensures Trim(Trim(s)) == Trim(s)
  {
    var r := Trim(s);
    TrimEmptyIff(s);
    if r != [] {
      assert TrimStart(r) == r;
      assert TrimEnd(r) == r;
    }
  }

  /** A bounding-box coordinate as OCR reports it; `NotNum` is any value whose
      `typeof` is not "number" (absent included). */
  datatype Coord = Num(n: int) | NotNum

  datatype RawBBox = RawBBox(x0: Coord, y0: Coord, x1: Coord, y1: Coord)

  /** One entry of the OCR word list; `NoWord` is a falsy entry, `None`
      fields are absent ones. */
  datatype RawWord = NoWord | Word(text: Option<string>, bbox: Option<RawBBox>)

  /** The image metadata the decoder reports; 0 stands for a missing size. */
  datatype ImageMeta = ImageMeta(width: nat, height: nat)

  /** The filter predicate: a present word with a truthy text whose trimmed
      form is non-empty, and a bbox of four numbers with `x1 > x0` and
      `y1 > y0`. */
  predicate Keep(w: RawWord) {
    && w.Word?
    && w.text.Some? && w.text.value != "" && Trim(w.text.value) != ""
    && w.bbox.Some?
    && w.bbox.value.x0.Num? && w.bbox.value.y0.Num?
    && w.bbox.value.x1.Num? && w.bbox.value.y1.Num?
    && w.bbox.value.x1.n > w.bbox.value.x0.n
    && w.bbox.value.y1.n > w.bbox.value.y0.n
  }

  /** What the filter drops: whitespace-only text, a missing bbox, a
      non-numeric corner, and an empty width. */
  lemma KeepExamples()
    ensures !Keep(Word(Some(" \t "), Some(RawBBox(Num(0), Num(0), Num(5), Num(5)))))
    ensures !Keep(Word(Some("Hi"), None))
    ensures !Keep(Word(Some("Hi"), Some(RawBBox(NotNum, Num(0), Num(5), Num(5)))))
    ensures !Keep(Word(Some("Hi"), Some(RawBBox(Num(3), Num(0), Num(3), Num(5)))))
    ensures Keep(Word(Some(" Hi "), Some(RawBBox(Num(-3), Num(2), Num(7), Num(12)))))
  {
    assert TrimStart(" ") == [] by { assert " "[1..] == []; }
    assert TrimStart("\t ") == [] by { assert "\t "[1..] == " "; }
    assert TrimStart(" \t ") == [] by { assert " \t "[1..] == "\t "; }
    assert Trim(" \t ") == [];
    HiTrimmed();
  }

  /** The two-letter word of the examples, with one space on each side. */
  lemma HiTrimmed()
    ensures Trim(" Hi ") == "Hi"
  {
    assert !IsWhitespace('H');
    assert TrimStart("Hi ") == "Hi ";
    assert TrimStart(" Hi ") == "Hi " by { assert " Hi "[1..] == "Hi "; }
    assert TrimEnd("Hi") == "Hi" by { assert !IsWhitespace('i'); }
    assert TrimEnd("Hi ") == "Hi" by { assert "Hi "[..2] == "Hi"; }
  }

  function Max(a: int, b: int): int {
    if a >= b then a else b
  }

  /** Every normalized box has non-empty trimmed text, non-negative x and y
      and positive w and h. */
  predicate WellFormed(t: TextBox) {
    t.text != [] && Trim(t.text) == t.text && t.x >= 0 && t.y >= 0 && t.w > 0 && t.h > 0
  }

  /** The map step: trimmed text; x and y clamped at 0; w and h from the
      unclamped corners, so the clamp moves the left or top edge but does not
      shrink the box. */
  function Normalize(w: RawWord): (t: TextBox)
    requires Keep(w)
    ensures WellFormed(t)
    ensures t.text == Trim(w.text.value) && t.text != []
    ensures t.x >= 0 && t.y >= 0
    ensures t.x == w.bbox.value.x0.n || (w.bbox.value.x0.n < 0 && t.x == 0)
    ensures t.y == w.bbox.value.y0.n || (w.bbox.value.y0.n < 0 && t.y == 0)
    ensures t.w == w.bbox.value.x1.n - w.bbox.value.x0.n > 0
    ensures t.h == w.bbox.value.y1.n - w.bbox.value.y0.n > 0
  {
    var b := w.bbox.value;
    TrimIdempotent(w.text.value);
    TextBox(Trim(w.text.value),
            Max(0, b.x0.n), Max(0, b.y0.n),
            Max(0, b.x1.n - b.x0.n), Max(0, b.y1.n - b.y0.n))
  }

  /** A word at a negative left edge is moved to x = 0 and keeps its width. */
  lemma NormalizeExample()
    ensures Normalize(Word(Some(" Hi "), Some(RawBBox(Num(-3), Num(2), Num(7), Num(12)))))
            == TextBox("Hi", 0, 2, 10, 10)
  {
    HiTrimmed();
  }

  /** The `filter(...).map(...)` chain over the recognized words. */
  function NormalizeWords(words: seq<RawWord>): (r: seq<TextBox>)
    ensures |r| <= |words|
    ensures forall k :: 0 <= k < |r| ==> WellFormed(r[k])
  {
    if words == [] then []
    else
      (if Keep(words[0]) then [Normalize(words[0])] else []) + NormalizeWords(words[1..])
  }

  /** Normalization works word by word: it keeps input order and never merges
      or removes duplicates. */
  lemma {:induction false} NormalizeAppend(a: seq<RawWord>, b: seq<RawWord>)
    ensures NormalizeWords(a + b) == NormalizeWords(a) + NormalizeWords(b)
  {
    if a == [] {
      assert a + b == b;
    } else {
      assert (a + b)[1..] == a[1..] + b;
      NormalizeAppend(a[1..], b);
    }
  }

  /** A box is in the output exactly when some kept input word normalizes to it. */
  lemma {:induction false} NormalizeMembers(words: seq<RawWord>, t: TextBox)
    ensures t in NormalizeWords(words) <==> exists w :: w in words && Keep(w) && Normalize(w) == t
  {
    if words != [] {
      NormalizeMembers(words[1..], t);
      assert forall w :: w in words <==> w == words[0] || w in words[1..];
    }
  }

  /** `extractTextWithBoxes`: an absent or empty buffer, a decoder failure,
      a missing width or height, or an OCR failure all give the empty list;
      otherwise the normalized words. */
  function ExtractTextWithBoxes(buffer: Option<seq<Byte>>, meta: Option<ImageMeta>,
                                recognized: Option<seq<RawWord>>): (r: seq<TextBox>)
    ensures (buffer.None? || buffer.value == []) ==> r == []
    ensures (meta.None? || meta.value.width == 0 || meta.value.height == 0) ==> r == []
    ensures recognized.None? ==> r == []
    ensures (buffer.Some? && buffer.value != [] && meta.Some? && meta.value.width > 0 &&
             meta.value.height > 0 && recognized.Some?) ==> r == NormalizeWords(recognized.value)
  {
    if buffer.None? || |buffer.value| == 0 then []
    else if meta.None? then []
    else if meta.value.width == 0 || meta.value.height == 0 then []
    else if recognized.None? then []
    else NormalizeWords(recognized.value)
  }
}
