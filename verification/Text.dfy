/** Digits and numerals, text as octets, and searching in text. */
module Text {
  import opened Bytes

  /** The ASCII octets of a text. */
  function Ascii(s: string): (b: seq<byte>)
    ensures |b| == |s|
  {
    seq(|s|, i requires 0 <= i < |s| => (s[i] as int) % 256)
  }

  function DigitChar(d: nat): char
    requires d < 10
  {
    '0' + d as char
  }

  /** What "%d" and operator<< print for a number that is not negative. */
  function Decimal(n: nat): (s: string)
    ensures |s| > 0
  {
    if n < 10 then [DigitChar(n)] else Decimal(n / 10) + [DigitChar(n % 10)]
  }

  /** A hexadecimal digit, in lower case. */
  function HexDigit(d: nat): char
    requires d < 16
  {
    if d < 10 then (48 + d) as char else (87 + d) as char
  }

  /** The value of a hexadecimal digit, and -1 for any other character. */
  function HexVal(c: char): (v: int)
    ensures -1 <= v < 16
  {
    var code := c as int;
    if 48 <= code <= 57 then code - 48
    else if 97 <= code <= 102 then code - 87
    else if 65 <= code <= 70 then code - 55
    else -1
  }

  lemma HexDigitValue(d: nat)
    requires d < 16
    ensures HexVal(HexDigit(d)) == d && HexDigit(d) != ':' && HexDigit(d) != '.' && HexDigit(d) != '\0'
    ensures HexDigit(d) == '0' <==> d == 0
  {
  }

  /** Where the first of some characters is; the length of the text if there is none. */
  function FindAny(s: string, any: string): (i: nat)
    ensures i <= |s|
  {
    if s == [] || s[0] in any then 0 else 1 + FindAny(s[1..], any)
  }

  lemma {:induction false} FindsFirst(s: string, any: string)
    ensures var i := FindAny(s, any);
      (forall k :: 0 <= k < i ==> s[k] !in any) && (i < |s| ==> s[i] in any)
    decreases |s|
  {
    if s != [] && s[0] !in any {
      FindsFirst(s[1..], any);
    }
  }

  /** The first of the characters stands behind a text that has none of them. */
  lemma FindBehind(a: string, b: string, any: string)
    requires forall c :: c in a ==> c !in any
    requires b == "" || b[0] in any
    ensures FindAny(a + b, any) == |a|
  {
    FindsFirst(a + b, any);
    assert b != "" ==> (a + b)[|a|] == b[0];
    forall k | 0 <= k < |a| ensures (a + b)[k] !in any {
      assert (a + b)[k] == a[k];
    }
  }
}
