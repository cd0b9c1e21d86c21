/** Numbers spelled in base 256 and in base 32, most significant first. */
module Numerals {
  function Power(base: nat, n: nat): nat {
    if n == 0 then 1 else base * Power(base, n - 1)
  }

  /** The number that bytes spell. */
  function BytesNumber(bytes: seq<nat>): nat {
    if bytes == [] then 0 else BytesNumber(bytes[..|bytes| - 1]) * 256 + bytes[|bytes| - 1]
  }

  /** The number that five-bit digits spell. */
  function DigitsNumber(digits: seq<nat>): nat {
    if digits == [] then 0 else DigitsNumber(digits[..|digits| - 1]) * 32 + digits[|digits| - 1]
  }

  lemma BytesLast(front: seq<nat>, last: nat)
    ensures BytesNumber(front + [last]) == BytesNumber(front) * 256 + last
  {
    assert (front + [last])[..|front|] == front;
  }

  lemma DigitsLast(front: seq<nat>, last: nat)
    ensures DigitsNumber(front + [last]) == DigitsNumber(front) * 32 + last
  {
    assert (front + [last])[..|front|] == front;
  }
}
