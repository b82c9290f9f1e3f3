/**
 * Bytes on the connection and the decimal text the server reads and writes:
 * `String.getBytes()` for header and listing text, `String.valueOf` for
 * `Content-Length` and listing sizes, and `Integer.parseInt` for the
 * configured port.
 */
module Wire {
  import opened Wrappers

  /** An octet written to the socket or read from a file. */
  newtype byte = x: int | 0 <= x < 256

  const QUESTION_MARK: byte := 63

  predicate IsAscii(s: string) {
    forall i :: 0 <= i < |s| ==> s[i] as int < 128
  }

  /** One character under a US-ASCII platform charset: unmappable characters become '?'. */
  function EncodeChar(c: char): byte {
    if c as int < 128 then c as int as byte else QUESTION_MARK
  }

  /** `s.getBytes()`: one byte per character. */
  function Encode(s: string): seq<byte> {
    seq(|s|, i requires 0 <= i < |s| => EncodeChar(s[i]))
  }

  /** Reading bytes back as characters, one per byte. */
  function Decode(b: seq<byte>): string {
    seq(|b|, i requires 0 <= i < |b| => b[i] as int as char)
  }

  /** Concatenation regroups freely; stated once so that long concatenations need not be regrouped by search. */
  lemma AppendAssociates<T>(a: seq<T>, b: seq<T>, c: seq<T>)
    ensures (a + b) + c == a + (b + c)
  {
  }

  /** Writing two strings one after the other puts the same bytes on the wire as writing their concatenation. */
  lemma EncodeAppend(s: string, t: string)
    ensures Encode(s + t) == Encode(s) + Encode(t)
  {
    assert |Encode(s + t)| == |Encode(s) + Encode(t)|;
    forall i | 0 <= i < |s + t|
      ensures Encode(s + t)[i] == (Encode(s) + Encode(t))[i]
    {
      if i < |s| {
        assert (s + t)[i] == s[i];
      } else {
        assert (s + t)[i] == t[i - |s|];
      }
    }
  }

  /** ASCII text survives the trip to bytes and back unchanged. */
  lemma DecodeEncode(s: string)
    requires IsAscii(s)
    ensures Decode(Encode(s)) == s
  {
    assert |Decode(Encode(s))| == |s|;
    forall i | 0 <= i < |s|
      ensures Decode(Encode(s))[i] == s[i]
    {
      assert s[i] as int < 128;
    }
  }

  // ---------------------------------------------------------------------
  // Decimal text

  predicate IsDigit(c: char) {
    '0' <= c <= '9'
  }

  predicate AllDigits(s: string) {
    forall i :: 0 <= i < |s| ==> IsDigit(s[i])
  }

  function DigitChar(d: nat): (c: char)
    requires d < 10
    ensures IsDigit(c) && c as int - '0' as int == d
  {
    ('0' as int + d) as char
  }

  /** `String.valueOf` of a non-negative number: its decimal digits, without leading zeros. */
  function NatToString(n: nat): (r: string)
    ensures |r| >= 1 && AllDigits(r)
    ensures r[0] == '0' ==> n == 0 && r == "0"
    ensures |r| == 1 <==> n < 10
    decreases n
  {
    if n < 10 then [DigitChar(n)] else NatToString(n / 10) + [DigitChar(n % 10)]
  }

  /** The number a string of decimal digits denotes. */
  function DigitsValue(s: string): nat
    requires AllDigits(s)
  {
    if s == [] then 0 else DigitsValue(s[..|s| - 1]) * 10 + (s[|s| - 1] as int - '0' as int)
  }

  /** Reading back the digits that `NatToString` produces gives the original number. */
  lemma {:induction false} DigitsValueOfNatToString(n: nat)
    ensures DigitsValue(NatToString(n)) == n
    decreases n
  {
    if n >= 10 {
      var s := NatToString(n);
      assert s[..|s| - 1] == NatToString(n / 10);
      DigitsValueOfNatToString(n / 10);
    }
  }

  const INT_MIN: int := -0x8000_0000
  const INT_MAX: int := 0x7fff_ffff

  /**
   * `Integer.parseInt(s)`: an optional '+' or '-' followed by at least one
   * decimal digit, within the range of a 32-bit `int`; `None` stands for the
   * `NumberFormatException` thrown otherwise.
   */
  function ParseInt(s: string): (r: Option<int>)
    ensures r.Some? ==> INT_MIN <= r.value <= INT_MAX
    ensures r.Some? ==> s != [] && (IsDigit(s[0]) || s[0] == '-' || s[0] == '+')
  {
    if s == [] then None
    else
      var digits := if s[0] == '-' || s[0] == '+' then s[1..] else s;
      if digits == [] || !AllDigits(digits) then None
      else
        var magnitude: int := DigitsValue(digits);
        var v := if s[0] == '-' then -magnitude else magnitude;
        if INT_MIN <= v <= INT_MAX then Some(v) else None
  }

  /**
   * Which texts parse, and to what: one or more decimal digits, bare or after
   * a '+', give their value, and after a '-' its negation, whenever that
   * value fits in an `int`; a text of any of these forms whose value does not
   * fit is rejected.
   */
  lemma ParseIntOfDigits(d: string)
    requires d != [] && AllDigits(d)
    ensures ParseInt(d) == (if DigitsValue(d) <= INT_MAX then Some(DigitsValue(d) as int) else None)
    ensures ParseInt("+" + d) == (if DigitsValue(d) <= INT_MAX then Some(DigitsValue(d) as int) else None)
    ensures ParseInt("-" + d) == (if DigitsValue(d) <= -INT_MIN then Some(-(DigitsValue(d) as int)) else None)
  {
    assert ("+" + d)[1..] == d;
    assert ("-" + d)[1..] == d;
  }

  /**
   * Every other text is rejected: whatever parses is an optional sign
   * followed by at least one digit, and its value is that of the digits,
   * negated after a '-'.
   */
  lemma ParseIntOnlyOfDigits(s: string)
    ensures ParseInt(s).Some? ==>
      var d := if s[0] == '+' || s[0] == '-' then s[1..] else s;
      d != [] && AllDigits(d) &&
      (s == d || s == "+" + d || s == "-" + d) &&
      ParseInt(s).value == (if s[0] == '-' then -(DigitsValue(d) as int) else DigitsValue(d) as int)
  {
    if ParseInt(s).Some? && (s[0] == '+' || s[0] == '-') {
      assert s == [s[0]] + s[1..];
    }
  }

  /** Every number an `int` can hold is parsed back from its own decimal text. */
  lemma ParseIntOfNatToString(n: nat)
    requires n <= INT_MAX
    ensures ParseInt(NatToString(n)) == Some(n)
  {
    DigitsValueOfNatToString(n);
  }
}
