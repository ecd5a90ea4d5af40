/** utils/helpers.py: the title sanitiser and the sampling-value check. */
module Helpers {
  import opened Wrappers

  /** Python's `str.isascii()` on one character: a code point below 128. */
  predicate IsAscii(c: char) {
    c as int < 128
  }

  /** A character the sanitiser keeps as it is: ASCII and not a space. */
  predicate IsKept(c: char) {
    IsAscii(c) && c != ' '
  }

  /** A title made only of kept characters: no spaces and nothing outside ASCII.
      It may still hold `/` or be `.`, so it is not always one path component. */
  predicate IsSafeTitle(s: string) {
    forall i :: 0 <= i < |s| ==> IsKept(s[i])
  }

  /** `restrict_to_ascii`: every character that is not ASCII, or is a space,
      becomes an underscore; every other character is copied. */
  function RestrictToAscii(title: string): (r: string)
    ensures |r| == |title|
    ensures IsSafeTitle(r)
    ensures forall i :: 0 <= i < |title| && IsKept(title[i]) ==> r[i] == title[i]
    ensures forall i :: 0 <= i < |title| && !IsKept(title[i]) ==> r[i] == '_'
  {
    if |title| == 0 then ""
    else [if IsKept(title[0]) then title[0] else '_'] + RestrictToAscii(title[1..])
  }

  /** Sanitising is idempotent. */
  lemma RestrictToAsciiIdempotent(title: string)
    ensures RestrictToAscii(RestrictToAscii(title)) == RestrictToAscii(title)
  {
  }

  /** The sanitiser leaves a title unchanged exactly when it holds only kept characters. */
  lemma RestrictToAsciiFixpoint(title: string)
    ensures RestrictToAscii(title) == title <==> IsSafeTitle(title)
  {
  }

  /** A title made only of non-ASCII characters and spaces becomes a row of
      underscores of the same length. */
  lemma RestrictToAsciiNothingKept(title: string)
    requires forall i :: 0 <= i < |title| ==> !IsKept(title[i])
    ensures RestrictToAscii(title) == seq(|title|, _ => '_')
  {
  }

  /** Sanitising commutes with concatenation: each character is treated on its own. */
  lemma RestrictToAsciiAppend(a: string, b: string)
    ensures RestrictToAscii(a + b) == RestrictToAscii(a) + RestrictToAscii(b)
  {
  }

  /** The positive-integer check both command-line front ends share: the
      value itself when it is positive, otherwise the given error. */
  function CheckPositive<E>(num: int, error: E): (r: Result<int, E>)
    ensures r.Ok? <==> num > 0
    ensures r.Ok? ==> r.value == num
    ensures r.Err? ==> r.error == error
  {
    if num <= 0 then Err(error) else Ok(num)
  }

  /** `InvalidFPSValueError` and its class-level message. */
  datatype FpsError = InvalidFpsValue {
    function Message(): string {
      "Argument must be a positive integer value"
    }
  }

  /** `check_value`, on the integer `int(arg)` has already produced. */
  function CheckValue(num: int): (r: Result<int, FpsError>)
    ensures r.Ok? ==> r.value == num && r.value > 0
    ensures r.Err? <==> num <= 0
  {
    CheckPositive(num, InvalidFpsValue)
  }
}
