/**
 * JavaScript strings are sequences of UTF-16 code units: `length`,
 * `indexOf` and `slice` count and index code units, and a code point
 * above U+FFFF takes two of them (a surrogate pair). Dafny's `string`
 * is a sequence of code points, so the texts whose lengths and indices
 * matter are modelled as `JsText`.
 */
module Utf16 {

  newtype CodeUnit = x: int | 0 <= x < 0x1_0000

  /** A JavaScript string, as the code units it is made of. */
  type JsText = seq<CodeUnit>

  /** The UTF-16 encoding of one code point: one unit, or a surrogate pair. */
  function Encode(c: char): (r: JsText)
    ensures |r| == (if c as int < 0x1_0000 then 1 else 2)
    ensures c as int < 0x1_0000 ==> r[0] as int == c as int
    ensures 0x1_0000 <= c as int ==> 0xD800 <= r[0] < 0xDC00 <= r[1] < 0xE000
  {
    var v := c as int;
    if v < 0x1_0000 then [v as CodeUnit]
    else [(0xD800 + (v - 0x1_0000) / 0x400) as CodeUnit, (0xDC00 + (v - 0x1_0000) % 0x400) as CodeUnit]
  }

  /** The JavaScript string holding the text `s`. */
  function Units(s: string): JsText {
    if s == [] then [] else Encode(s[0]) + Units(s[1..])
  }

  /** No code point of `s` needs a surrogate pair. */
  predicate InBmp(s: string) {
    forall i :: 0 <= i < |s| ==> s[i] as int < 0x1_0000
  }

  /** The code units of a text without surrogate pairs: one per code point, of the same value. */
  function BmpUnits(s: string): (r: JsText)
    requires InBmp(s)
    ensures |r| == |s|
    ensures forall i :: 0 <= i < |s| ==> r[i] as int == s[i] as int
  {
    seq(|s|, i requires 0 <= i < |s| => s[i] as int as CodeUnit)
  }

  /**
   * A text of n code points is between n and 2n code units long in
   * JavaScript, and exactly n long when no code point is above U+FFFF.
   */
  lemma {:induction false} UnitsLength(s: string)
    ensures |s| <= |Units(s)| <= 2 * |s|
    ensures |Units(s)| == |s| <==> InBmp(s)
  {
    if s != [] {
      UnitsLength(s[1..]);
      if InBmp(s[1..]) && s[0] as int < 0x1_0000 {
        assert forall i :: 0 < i < |s| ==> s[i] == s[1..][i - 1];
      }
      if !InBmp(s[1..]) {
        var i :| 0 <= i < |s[1..]| && s[1..][i] as int >= 0x1_0000;
        assert s[i + 1] == s[1..][i];
      }
    }
  }

  /** For a text without surrogate pairs the two encodings agree. */
  lemma {:induction false} BmpUnitsAreUnits(s: string)
    requires InBmp(s)
    ensures Units(s) == BmpUnits(s)
  {
    if s != [] {
      assert InBmp(s[1..]) by {
        assert forall i :: 0 <= i < |s[1..]| ==> s[1..][i] == s[i + 1];
      }
      BmpUnitsAreUnits(s[1..]);
    }
  }

  /** A text of code points above U+FFFF only is twice as long in code units, all of them surrogates. */
  lemma {:induction false} AstralUnits(s: string)
    requires forall i :: 0 <= i < |s| ==> 0x1_0000 <= s[i] as int
    ensures |Units(s)| == 2 * |s|
    ensures forall k :: 0 <= k < |Units(s)| ==> 0xD800 <= Units(s)[k] < 0xE000
  {
    if s != [] {
      assert forall i :: 0 <= i < |s[1..]| ==> s[1..][i] == s[i + 1];
      AstralUnits(s[1..]);
      var head, rest := Encode(s[0]), Units(s[1..]);
      assert Units(s) == head + rest;
      forall k | 0 <= k < |Units(s)| ensures 0xD800 <= Units(s)[k] < 0xE000 {
        if 2 <= k {
          assert Units(s)[k] == rest[k - 2];
        }
      }
    }
  }
}
