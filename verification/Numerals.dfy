/** Reading decimal numerals: what the digits of a printed number stand for. */
module Numerals {

  predicate IsNumber(s: string) {
    s != "" && forall i :: 0 <= i < |s| ==> '0' <= s[i] <= '9'
  }

  /** The number a text of digits stands for. */
  function Number(s: string): nat
    requires forall i :: 0 <= i < |s| ==> '0' <= s[i] <= '9'
  {
    if s == "" then 0 else 10 * Number(s[..|s| - 1]) + (s[|s| - 1] as int - '0' as int)
  }

  predicate Reads(s: string, n: int) {
    IsNumber(s) && Number(s) == n
  }

  lemma AppendDigit(front: string, c: char, n: nat)
    requires '0' <= c <= '9' && c as int - '0' as int == n % 10
    requires if front == "" then n < 10 else Reads(front, n / 10)
    ensures Reads(front + [c], n)
  {
    assert (front + [c])[..|front|] == front;
  }
}
