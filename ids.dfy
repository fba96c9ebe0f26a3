/**
 * Element identifiers. Endpoint references may be given as strings or numbers and are
 * looked up by their string form (`id.toString()` in src/index.js). Ids that the host
 * graph generates for elements added without one are drawn from a reserved namespace.
 */
module Ids {

  /** An edge endpoint as a caller supplies it: a string id or an integer id (of magnitude below 10^21). */
  datatype EndpointRef = IdString(s: string) | IdNumber(n: int) {
    /** The canonical string key the endpoint is looked up by. */
    function Key(): string {
      match this
      case IdString(s) => s
      case IdNumber(n) => IntToString(n)
    }
  }

  predicate IsDigit(c: char) {
    '0' <= c <= '9'
  }

  function Digit(d: nat): (c: char)
    requires d < 10
    ensures IsDigit(c) && DigitValue(c) == d
  {
    (48 + d) as char
  }

  /** The value of a decimal digit; any other character counts as 0. */
  function DigitValue(c: char): nat {
    if IsDigit(c) then (c as int - '0' as int) as nat else 0
  }

  /** Decimal notation of a natural number, as JavaScript's `toString` writes integers below 10^21. */
  function NatToString(n: nat): (s: string)
    ensures |s| > 0
    ensures forall i :: 0 <= i < |s| ==> IsDigit(s[i])
  {
    if n < 10 then [Digit(n)] else NatToString(n / 10) + [Digit(n % 10)]
  }

  /** Decimal notation of an integer, with a leading '-' when negative. */
  function IntToString(n: int): string {
    if n < 0 then "-" + NatToString(-n) else NatToString(n)
  }

  /** Reads a string of decimal digits back; used as the inverse of NatToString. */
  function ParseNat(s: string): nat {
    if s == [] then 0 else 10 * ParseNat(s[..|s| - 1]) + DigitValue(s[|s| - 1])
  }

  function ParseInt(s: string): int {
    if |s| > 0 && s[0] == '-' then -(ParseNat(s[1..]) as int) else ParseNat(s)
  }

  lemma {:induction false} ParseNatToString(n: nat)
    ensures ParseNat(NatToString(n)) == n
  {
    if n >= 10 {
      var s := NatToString(n);
      assert s[..|s| - 1] == NatToString(n / 10);
      ParseNatToString(n / 10);
    }
  }

  lemma ParseIntToString(n: int)
    ensures ParseInt(IntToString(n)) == n
  {
    if n < 0 {
      assert IntToString(n)[1..] == NatToString(-n);
      ParseNatToString(-n);
    } else {
      assert IsDigit(NatToString(n)[0]);
      ParseNatToString(n);
    }
  }

  /** Distinct numeric endpoint ids never collapse onto the same key. */
  lemma NumberKeysInjective(a: int, b: int)
    ensures IdNumber(a).Key() == IdNumber(b).Key() ==> a == b
  {
    ParseIntToString(a);
    ParseIntToString(b);
  }

  /** The first character of every host-generated id; user ids never start with it. */
  const GenMark: char := '#'

  predicate IsGenerated(id: string) {
    |id| > 0 && id[0] == GenMark
  }

  /** The counter value a generated id was made from. */
  function GenNumber(id: string): nat
    requires IsGenerated(id)
  {
    ParseNat(id[1..])
  }

  /** The id the host generates from counter value `n`. */
  function GenId(n: nat): (id: string)
    ensures IsGenerated(id) && GenNumber(id) == n
  {
    var id := [GenMark] + NatToString(n);
    assert id[1..] == NatToString(n);
    ParseNatToString(n);
    id
  }

  /** An id a caller may give an element: not empty and outside the generated namespace. */
  predicate IsUserId(id: string) {
    id != "" && !IsGenerated(id)
  }
}
