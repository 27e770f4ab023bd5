/** The errors `makeReal` raises, and the text of an endpoint error. */
module Failures {
  import opened Wrappers
  import opened JsString
  import opened Utf16

  datatype Error =
    | NoSelection            // "First select something to make real."
    | NoSvg                  // "Could not get the SVG."
    | Endpoint(text: JsText) // the completion endpoint answered with an error; `text` is the message
    | TooShort               // "Could not generate a design from those wireframes."
    | Thrown(reason: string) // a collaborator threw; the error is passed on unchanged

  /** How many code units of the endpoint's error message are kept. */
  const KeptPrefix: nat := 100

  /** "..." */
  const Ellipsis: JsText := BmpUnits("...")

  /** "undefined", the text of an absent value in a template literal. */
  const Undefined: JsText := BmpUnits("undefined")

  /**
   * The message of the error raised when the endpoint reports one: the
   * template `${json.error.message?.slice(0, 100)}...`. The message is cut
   * to its first 100 UTF-16 code units and "..." is appended; an absent
   * message prints as "undefined".
   */
  function EndpointMessage(message: Option<JsText>): (r: JsText)
    ensures 3 <= |r| && r[|r| - 3..] == Ellipsis
    ensures message.None? ==> r == Undefined + Ellipsis
    ensures message.Some? ==>
      var kept := if |message.value| < KeptPrefix then |message.value| else KeptPrefix;
      r == message.value[..kept] + Ellipsis
    ensures message.Some? && |message.value| <= KeptPrefix ==> r == message.value + Ellipsis
    ensures message.Some? ==> |r| <= KeptPrefix + 3
  {
    assert |Ellipsis| == 3;
    match message
    case None => Undefined + Ellipsis
    case Some(m) =>
      var cut := Slice(m, 0, KeptPrefix);
      assert cut == m[..if |m| < KeptPrefix then |m| else KeptPrefix];
      cut + Ellipsis
  }
}
