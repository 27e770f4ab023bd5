/**
 * Extraction of the generated page from the completion's free text: the
 * slice from the first "<!DOCTYPE html>" to the end of the first "</html>",
 * refused when it is shorter than 100 UTF-16 code units. This is a
 * substring search, not an HTML parser.
 */
module HtmlExtract {
  import opened JsString
  import opened Utf16

  const Doctype: JsText := BmpUnits("<!DOCTYPE html>")
  const Closing: JsText := BmpUnits("</html>")

  /** The code unit of '<'. */
  const Angle: CodeUnit := 0x3C

  /** Pages shorter than this many UTF-16 code units are refused (`html.length < 100`). */
  const MinLength: nat := 100

  /**
   * `message.slice(message.indexOf(Doctype), message.indexOf(Closing) + Closing.length)`.
   * A missing marker makes `indexOf` answer -1, which `slice` reads as
   * "one character from the end".
   */
  function ExtractHtml(message: JsText): (html: JsText)
    ensures |html| <= |message|
  {
    Slice(message, IndexOf(message, Doctype), IndexOf(message, Closing) + |Closing|)
  }

  predicate Accepted(html: JsText) {
    MinLength <= |html|
  }

  /** `html` opens with the doctype marker and ends with the closing tag. */
  predicate IsDocument(html: JsText) {
    && |Doctype| <= |html| && html[..|Doctype|] == Doctype
    && |Closing| <= |html| && html[|html| - |Closing|..] == Closing
  }

  /** Whatever the message, the extracted text is one contiguous piece of it. */
  lemma ExtractIsSubstring(message: JsText)
    ensures exists a, b :: 0 <= a <= b <= |message| && ExtractHtml(message) == message[a..b]
  {
    var html := ExtractHtml(message);
    var a := RelativeIndex(IndexOf(message, Doctype), |message|);
    assert html == message[a..a + |html|];
  }

  /**
   * A missing marker, or a first "</html>" that comes before the first
   * "<!DOCTYPE html>", leaves a slice of at most six characters, so the
   * page is always refused.
   */
  lemma MisplacedMarkerRejected(message: JsText)
    requires || !Occurs(message, Doctype)
             || !Occurs(message, Closing)
             || IndexOf(message, Closing) < IndexOf(message, Doctype)
    ensures |ExtractHtml(message)| < |Closing|
    ensures !Accepted(ExtractHtml(message))
  {
  }

  /**
   * An accepted page is exactly the text from the first doctype marker to
   * the end of the first closing tag, which comes after it; so it opens
   * with the doctype and ends with the closing tag.
   */
  lemma AcceptedIsDocument(message: JsText)
    requires Accepted(ExtractHtml(message))
    ensures Occurs(message, Doctype) && Occurs(message, Closing)
    ensures IndexOf(message, Doctype) < IndexOf(message, Closing)
    ensures ExtractHtml(message)
         == message[IndexOf(message, Doctype)..IndexOf(message, Closing) + |Closing|]
    ensures IsDocument(ExtractHtml(message))
  {
    var start, end := IndexOf(message, Doctype), IndexOf(message, Closing);
    if !Occurs(message, Doctype) || !Occurs(message, Closing) || end < start {
      MisplacedMarkerRejected(message);
    }
    var html := ExtractHtml(message);
    assert html == message[start..end + |Closing|];
    assert html[..|Doctype|] == message[start..start + |Doctype|];
    assert html[|html| - |Closing|..] == message[end..end + |Closing|];
  }

  /** Both markers start with '<' and contain no other. */
  lemma OneOpeningAngle()
    ensures |Doctype| == 15 && |Closing| == 7
    ensures Doctype[0] == Angle && Closing[0] == Angle
    ensures forall k :: 0 < k < |Doctype| ==> Doctype[k] != Angle
    ensures forall k :: 0 < k < |Closing| ==> Closing[k] != Angle
  {
  }

  /** A marker with a single leading '<' cannot start just before another '<'. */
  lemma NotAcrossAngle(m: JsText, marker: JsText, i: int, j: int)
    requires forall k :: 0 < k < |marker| ==> marker[k] != Angle
    requires 0 <= j < |m| && m[j] == Angle && i < j < i + |marker|
    ensures !OccursAt(m, marker, i)
  {
  }

  /** A marker that does not occur in a piece of `m` does not occur inside it. */
  lemma NotInside(m: JsText, piece: JsText, at: nat, marker: JsText, i: int)
    requires at + |piece| <= |m| && m[at..at + |piece|] == piece
    requires !Occurs(piece, marker)
    requires at <= i && i + |marker| <= at + |piece|
    ensures !OccursAt(m, marker, i)
  {
    assert forall t :: 0 <= t < |piece| ==> piece[t] == m[at + t];
    assert m[i..i + |marker|] == piece[i - at..i - at + |marker|];
    assert !OccursAt(piece, marker, i - at);
  }

  /** The first doctype marker of `prefix + Doctype + rest` is the one after the prefix. */
  lemma DoctypeAfterPrefix(m: JsText, prefix: JsText)
    requires |prefix| + |Doctype| <= |m|
    requires m[..|prefix|] == prefix && m[|prefix|..|prefix| + |Doctype|] == Doctype
    requires !Occurs(prefix, Doctype)
    ensures IndexOf(m, Doctype) == |prefix|
  {
    var p := |prefix|;
    assert OccursAt(m, Doctype, p);
    OneOpeningAngle();
    assert m[p] == Doctype[0];
    forall i | 0 <= i < p ensures !OccursAt(m, Doctype, i) {
      if i + |Doctype| <= p {
        assert m[0..p] == prefix;
        NotInside(m, prefix, 0, Doctype, i);
      } else {
        NotAcrossAngle(m, Doctype, i, p);
      }
    }
  }

  /**
   * The first closing tag of `prefix + Doctype + body + Closing + suffix`
   * is the one after the body.
   */
  lemma ClosingAfterBody(m: JsText, prefix: JsText, body: JsText)
    requires |prefix| + |Doctype| + |body| + |Closing| <= |m|
    requires m[..|prefix|] == prefix
    requires m[|prefix|..|prefix| + |Doctype|] == Doctype
    requires m[|prefix| + |Doctype|..|prefix| + |Doctype| + |body|] == body
    requires m[|prefix| + |Doctype| + |body|..|prefix| + |Doctype| + |body| + |Closing|] == Closing
    requires !Occurs(prefix, Closing) && !Occurs(body, Closing)
    ensures IndexOf(m, Closing) == |prefix| + |Doctype| + |body|
  {
    var p, b := |prefix|, |prefix| + |Doctype|;
    var k := b + |body|;
    assert OccursAt(m, Closing, k);
    OneOpeningAngle();
    assert m[p] == Doctype[0] && m[k] == Closing[0];
    forall i | 0 <= i < k ensures !OccursAt(m, Closing, i) {
      if i + |Closing| <= p {
        assert m[0..p] == prefix;
        NotInside(m, prefix, 0, Closing, i);
      } else if i < p {
        NotAcrossAngle(m, Closing, i, p);
      } else if i < b {
        assert m[i] == Doctype[i - p];
        assert m[p + 1] == Doctype[1];
      } else if i + |Closing| <= k {
        NotInside(m, body, b, Closing, i);
      } else {
        NotAcrossAngle(m, Closing, i, k);
      }
    }
  }

  /** Where the pieces of `prefix + Doctype + body + Closing + suffix` lie. */
  lemma Layout(prefix: JsText, body: JsText, suffix: JsText)
    ensures var m, p := prefix + Doctype + body + Closing + suffix, |prefix|;
      && m[..p] == prefix
      && m[p..p + |Doctype|] == Doctype
      && m[p + |Doctype|..p + |Doctype| + |body|] == body
      && m[p + |Doctype| + |body|..p + |Doctype| + |body| + |Closing|] == Closing
      && m[p..p + |Doctype| + |body| + |Closing|] == Doctype + body + Closing
  {
  }

  /**
   * Round trip: a page `Doctype + body + Closing` placed after a prefix
   * without either marker, with no "</html>" inside the body, is extracted
   * exactly, whatever follows it.
   */
  lemma RoundTrip(prefix: JsText, body: JsText, suffix: JsText)
    requires !Occurs(prefix, Doctype) && !Occurs(prefix, Closing)
    requires !Occurs(body, Closing)
    ensures ExtractHtml(prefix + Doctype + body + Closing + suffix) == Doctype + body + Closing
  {
    var m := prefix + Doctype + body + Closing + suffix;
    Layout(prefix, body, suffix);
    DoctypeAfterPrefix(m, prefix);
    ClosingAfterBody(m, prefix, body);
  }

  /** Text made of surrogates only has no '<', so no closing tag. */
  lemma NoClosingAmongSurrogates(units: JsText)
    requires forall k :: 0 <= k < |units| ==> 0xD800 <= units[k] < 0xE000
    ensures !Occurs(units, Closing)
  {
    OneOpeningAngle();
    forall i ensures !OccursAt(units, Closing, i) {
      if 0 <= i && i + |Closing| <= |units| {
        assert units[i..i + |Closing|][0] == units[i];
      }
    }
  }

  /**
   * The 100 minimum counts UTF-16 code units: a page whose body is `n`
   * code points above U+FFFF (emoji, say) is 22 + 2n code units long, so
   * it is accepted from n = 39 on, though it has only 22 + n code points.
   */
  lemma AcceptanceCountsCodeUnits(body: string)
    requires forall i :: 0 <= i < |body| ==> 0x1_0000 <= body[i] as int
    ensures var page := Doctype + Units(body) + Closing;
      && ExtractHtml(page) == page
      && |page| == |Doctype| + |Closing| + 2 * |body|
      && (Accepted(ExtractHtml(page)) <==> 39 <= |body|)
  {
    var units := Units(body);
    AstralUnits(body);
    NoClosingAmongSurrogates(units);
    var none: JsText := [];
    assert !Occurs(none, Doctype) && !Occurs(none, Closing);
    RoundTrip(none, units, none);
    assert none + Doctype + units + Closing + none == Doctype + units + Closing;
  }
}
