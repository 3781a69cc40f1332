/**
 * `String.prototype.substring` as ECMA-262 (section 22.1.3.25) defines it:
 * both positions are clamped to [0, length] and swapped if out of order.
 * Strings here are sequences of characters; positions count characters.
 */
module JsString {

  function Clamp(x: int, len: nat): (r: nat)
    ensures r <= len
  {
    if x < 0 then 0 else if x > len then len else x
  }

  /** `s.substring(start, end)`; `s.substring(start)` is `Substring(s, start, |s|)`. */
  function Substring(s: string, start: int, end: int): string {
    var a, b := Clamp(start, |s|), Clamp(end, |s|);
    if a <= b then s[a..b] else s[b..a]
  }
}
