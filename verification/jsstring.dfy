/** JavaScript's view of a string. A Dafny `string` is a sequence of Unicode
    scalar values; a JavaScript string is a sequence of UTF-16 code units, and
    `.length` counts those units, so a character outside the Basic
    Multilingual Plane (an emoji, say) counts twice. */
module JsStrings {

  /** `s.length` in JavaScript: one unit per character up to U+FFFF, two
      (a surrogate pair) per character above it. */
  function Utf16Length(s: string): (r: nat)
    ensures |s| <= r <= 2 * |s|
    ensures r == |s| <==> forall i :: 0 <= i < |s| ==> s[i] as int <= 0xFFFF
    decreases |s|
  {
    if |s| == 0 then 0
    else
      var rest := Utf16Length(s[1..]);
      assert forall i :: 1 <= i < |s| ==> s[i] == s[1..][i - 1];
      (if s[0] as int <= 0xFFFF then 1 else 2) + rest
  }
}
