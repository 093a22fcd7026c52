/**
  Java text as the generator sees it: a `String` is a sequence of `char`s, and a
  `char` is one UTF-16 code unit. Modelling code units as integers below 0x10000
  keeps lone surrogates representable, exactly as they are in a Java string.
 */
module Utf16 {

  import opened Wrappers

  /** One Java `char`. */
  type CodeUnit = c: int | 0 <= c < 0x1_0000

  /** One Java `String`. */
  type Text = seq<CodeUnit>

  predicate IsAscii(s: string)
  {
    forall i | 0 <= i < |s| :: s[i] as int < 0x80
  }

  /** The code units of an ASCII literal, one per character. */
  function Ascii(s: string): (t: Text)
    requires IsAscii(s)
    ensures |t| == |s|
    ensures forall i | 0 <= i < |s| :: t[i] == s[i] as int
  {
    if s == [] then [] else [s[0] as int] + Ascii(s[1..])
  }

  /**
    Concatenation regroups freely. Stated once, so that proofs about long
    chains of writes can regroup in a small context.
   */
  lemma Assoc(a: Text, b: Text, c: Text)
    ensures a + b + c == a + (b + c)
  {
  }

  /** Regrouping a text written in four pieces. */
  lemma Regroup(a: Text, b: Text, c: Text, d: Text)
    ensures a + b + c + d == a + (b + c + d)
    ensures a + b + c + d == a + (b + (c + d))
    ensures a + b + c + d == a + b + (c + d)
  {
  }

  /** The lower-case hexadecimal digit for `d`, as `%x` prints it. */
  function HexDigit(d: int): (c: CodeUnit)
    requires 0 <= d < 16
  {
    if d < 10 then '0' as int + d else 'a' as int + (d - 10)
  }

  /** `String.format("%04x", v)`: four lower-case hexadecimal digits, zero padded. */
  function Hex4(v: CodeUnit): (t: Text)
  {
    var d3, v1 := v % 16, v / 16;
    var d2, v2 := v1 % 16, v1 / 16;
    var d1, d0 := v2 % 16, v2 / 16;
    [HexDigit(d0), HexDigit(d1), HexDigit(d2), HexDigit(d3)]
  }

  /** The value of a hexadecimal digit of either case (HEXDIG of RFC 8259), if `c` is one. */
  function HexValue(c: CodeUnit): (r: Option<int>)
    ensures r.Some? ==> 0 <= r.value < 16
  {
    if '0' as int <= c <= '9' as int then Some(c - '0' as int)
    else if 'a' as int <= c <= 'f' as int then Some(c - 'a' as int + 10)
    else if 'A' as int <= c <= 'F' as int then Some(c - 'A' as int + 10)
    else None
  }

  /** Reads four hexadecimal digits as one code unit. */
  function ParseHex4(t: Text): (r: Option<CodeUnit>)
    requires |t| == 4
  {
    match (HexValue(t[0]), HexValue(t[1]), HexValue(t[2]), HexValue(t[3]))
    case (Some(a), Some(b), Some(c), Some(d)) => Some(((a * 16 + b) * 16 + c) * 16 + d)
    case _ => None
  }

  /** Reading back what `%04x` printed gives the code unit again. */
  lemma {:induction false} ParseHex4OfHex4(v: CodeUnit)
    ensures ParseHex4(Hex4(v)) == Some(v)
  {
    var d3, v1 := v % 16, v / 16;
    var d2, v2 := v1 % 16, v1 / 16;
    var d1, d0 := v2 % 16, v2 / 16;
    HexValueOfHexDigit(d0);
    HexValueOfHexDigit(d1);
    HexValueOfHexDigit(d2);
    HexValueOfHexDigit(d3);
    assert v2 == d0 * 16 + d1;
    assert v1 == v2 * 16 + d2;
    assert v == v1 * 16 + d3;
  }

  lemma HexValueOfHexDigit(d: int)
    requires 0 <= d < 16
    ensures HexValue(HexDigit(d)) == Some(d)
  {
  }
}
