/**
  `JsonUtils.escapeJson` and its `REPLACEMENT_CHARS` table.

  The escape is specified per code unit: `Replacement(c)` is what the source
  substitutes for `c` (or `None` when `c` is copied verbatim), and `Escape(s)`
  concatenates `EscapeUnit` over `s` in order. The source's run-copying loop,
  `EscapeJson`, is proved to compute exactly `Escape`. As an independent
  partner, `Unescape` decodes the body of a JSON string as section 7 of
  RFC 8259 defines it, and `Escape` is proved to be inverted by it.
 */
module JsonUtils {

  import opened Wrappers
  import opened Utf16

  const BACKSLASH: CodeUnit := '\\' as int
  const QUOTE: CodeUnit := '"' as int
  const LINE_SEPARATOR: CodeUnit := 0x2028
  const PARAGRAPH_SEPARATOR: CodeUnit := 0x2029

  /** The fixed replacement texts `\u2028` and `\u2029`. */
  const LINE_SEPARATOR_ESCAPE: Text := [BACKSLASH, 'u' as int, '2' as int, '0' as int, '2' as int, '8' as int]
  const PARAGRAPH_SEPARATOR_ESCAPE: Text := [BACKSLASH, 'u' as int, '2' as int, '0' as int, '2' as int, '9' as int]

  /** `String.format("\\u%04x", c)`. */
  function UnicodeEscape(c: CodeUnit): (r: Text)
  {
    [BACKSLASH, 'u' as int] + Hex4(c)
  }

  /** The letter of the two-character escape the table gives `c`, if any. */
  function ShortEscapeLetter(c: CodeUnit): (r: Option<CodeUnit>)
  {
    if c == QUOTE then Some('"' as int)
    else if c == BACKSLASH then Some('\\' as int)
    else if c == 0x09 then Some('t' as int)
    else if c == 0x08 then Some('b' as int)
    else if c == 0x0A then Some('n' as int)
    else if c == 0x0D then Some('r' as int)
    else if c == 0x0C then Some('f' as int)
    else None
  }

  /**
    Entry `c` of `REPLACEMENT_CHARS` (for `c < 128`) once the static initializer
    has run: the short forms override the `\u%04x` entries of 0x00-0x1F, and
    every other entry stays null.
   */
  function TableEntry(c: CodeUnit): (r: Option<Text>)
    requires c < 128
  {
    match ShortEscapeLetter(c)
    case Some(letter) => Some([BACKSLASH, letter])
    case None => if c <= 0x1F then Some(UnicodeEscape(c)) else None
  }

  /** What `escapeJson` writes in place of the code unit `c`; `None` means `c` is copied. */
  function Replacement(c: CodeUnit): (r: Option<Text>)
  {
    if c < 128 then TableEntry(c)
    else if c == LINE_SEPARATOR then Some(LINE_SEPARATOR_ESCAPE)
    else if c == PARAGRAPH_SEPARATOR then Some(PARAGRAPH_SEPARATOR_ESCAPE)
    else None
  }

  function EscapeUnit(c: CodeUnit): (r: Text)
  {
    match Replacement(c)
    case Some(r) => r
    case None => [c]
  }

  /** The specification of `escapeJson`: each code unit replaced or kept, in order. */
  function Escape(s: Text): (r: Text)
  {
    if |s| == 0 then [] else EscapeUnit(s[0]) + Escape(s[1..])
  }

  predicate NeedsEscape(c: CodeUnit)
  {
    Replacement(c).Some?
  }

  predicate NoneNeedEscape(s: Text)
  {
    forall k | 0 <= k < |s| :: !NeedsEscape(s[k])
  }

  predicate IsReplacementTable(table: array<Option<Text>>)
    reads table
  {
    table.Length == 128 && forall c | 0 <= c < 128 :: table[c] == TableEntry(c)
  }

  /** The static initializer of `JsonUtils`: fills `REPLACEMENT_CHARS`. */
  method BuildReplacementChars() returns (table: array<Option<Text>>)
    ensures IsReplacementTable(table)
  {
    table := new Option<Text>[128](_ => None);
    for i := 0 to 0x20
      invariant forall c | 0 <= c < i :: table[c] == Some(UnicodeEscape(c))
      invariant forall c | i <= c < 128 :: table[c] == None
    {
      table[i] := Some(UnicodeEscape(i));
    }
    table[QUOTE] := Some([BACKSLASH, '"' as int]);
    table[BACKSLASH] := Some([BACKSLASH, '\\' as int]);
    table[0x09] := Some([BACKSLASH, 't' as int]);
    table[0x08] := Some([BACKSLASH, 'b' as int]);
    table[0x0A] := Some([BACKSLASH, 'n' as int]);
    table[0x0D] := Some([BACKSLASH, 'r' as int]);
    table[0x0C] := Some([BACKSLASH, 'f' as int]);
  }

  /**
    The lookup at the head of `escapeJson`'s loop body: the table entry below
    128, the fixed texts for U+2028 and U+2029, and null for everything else.
   */
  method LookupReplacement(table: array<Option<Text>>, c: CodeUnit) returns (replacement: Option<Text>)
    requires IsReplacementTable(table)
    ensures replacement == Replacement(c)
  {
    if c < 128 {
      replacement := table[c];
    } else if c == LINE_SEPARATOR {
      replacement := Some(LINE_SEPARATOR_ESCAPE);
    } else if c == PARAGRAPH_SEPARATOR {
      replacement := Some(PARAGRAPH_SEPARATOR_ESCAPE);
    } else {
      replacement := None;
    }
  }

  /**
    `escapeJson`: scans the input once, copying each maximal run of code units
    that need no escape in one piece before writing a replacement.
   */
  method EscapeJson(table: array<Option<Text>>, input: Text) returns (result: Text)
    requires IsReplacementTable(table)
    ensures result == Escape(input)
  {
    result := [];
    var last := 0;
    var length := |input|;
    for i := 0 to length
      invariant last <= i
      invariant result == Escape(input[..last])
      invariant NoneNeedEscape(input[last..i])
    {
      var replacement := LookupReplacement(table, input[i]);
      if replacement.None? {
        ExtendRun(input, last, i);
        continue;
      }
      FlushRun(input, last, i);
      if last < i {
        result := result + input[last..i];
      } else {
        assert input[last..i] == [];
      }
      result := result + replacement.value;
      last := i + 1;
      assert input[last..i + 1] == [];
    }
    FlushRun(input, last, length);
    if last < length {
      result := result + input[last..length];
    } else {
      assert input[last..length] == [];
    }
    assert input[..length] == input;
  }

  /** A code unit that needs no escape lengthens the pending run. */
  lemma ExtendRun(input: Text, last: nat, i: nat)
    requires last <= i < |input|
    requires NoneNeedEscape(input[last..i]) && !NeedsEscape(input[i])
    ensures NoneNeedEscape(input[last..i + 1])
  {
    assert input[last..i + 1] == input[last..i] + [input[i]];
  }

  /** Copying a run that needs no escape in one piece agrees with `Escape`. */
  lemma FlushRun(input: Text, last: nat, i: nat)
    requires last <= i <= |input|
    requires NoneNeedEscape(input[last..i])
    ensures Escape(input[..i]) == Escape(input[..last]) + input[last..i]
    ensures i < |input| ==> Escape(input[..i + 1]) == Escape(input[..last]) + input[last..i] + EscapeUnit(input[i])
  {
    assert input[..i] == input[..last] + input[last..i];
    EscapeConcat(input[..last], input[last..i]);
    EscapeIdentity(input[last..i]);
    if i < |input| {
      assert input[..i + 1] == input[..i] + [input[i]];
      EscapeConcat(input[..i], [input[i]]);
      assert Escape([input[i]]) == EscapeUnit(input[i]) + Escape([]);
    }
  }

  /** `Escape` maps concatenation to concatenation. */
  lemma {:induction false} EscapeConcat(a: Text, b: Text)
    ensures Escape(a + b) == Escape(a) + Escape(b)
  {
    if |a| == 0 {
      assert a + b == b;
    } else {
      assert (a + b)[1..] == a[1..] + b;
      EscapeConcat(a[1..], b);
    }
  }

  /** The output equals the input when no code unit needs escaping. */
  lemma {:induction false} EscapeIdentity(s: Text)
    requires NoneNeedEscape(s)
    ensures Escape(s) == s
  {
    if |s| > 0 {
      assert NoneNeedEscape(s[1..]) by {
        forall k | 0 <= k < |s[1..]| ensures !NeedsEscape(s[1..][k]) {
          assert s[1..][k] == s[k + 1];
        }
      }
      EscapeIdentity(s[1..]);
    }
  }

  /** Every replacement is a backslash escape of at least two code units. */
  lemma ReplacementStartsWithBackslash(c: CodeUnit)
    requires NeedsEscape(c)
    ensures |Replacement(c).value| >= 2 && Replacement(c).value[0] == BACKSLASH
  {
  }

  /**
    Exactly the C0 controls, `"`, `\`, U+2028 and U+2029 are escaped; every
    other code unit (`/`, DEL, all other non-ASCII text) is copied.
   */
  lemma NeedsEscapeExactly(c: CodeUnit)
    ensures NeedsEscape(c) <==> c < 0x20 || c == QUOTE || c == BACKSLASH || c == LINE_SEPARATOR || c == PARAGRAPH_SEPARATOR
  {
  }

  /**
    Every replacement is either the short form `\x` of a short-escape letter, or
    `\u` followed by the code unit's own four lower-case hexadecimal digits; the
    fixed texts for U+2028 and U+2029 are of the second kind.
   */
  lemma ReplacementForm(c: CodeUnit)
    requires NeedsEscape(c)
    ensures ShortEscapeLetter(c).Some? ==> Replacement(c).value == [BACKSLASH, ShortEscapeLetter(c).value]
    ensures ShortEscapeLetter(c).None? ==> Replacement(c).value == UnicodeEscape(c)
  {
    if c >= 128 {
      SeparatorReplacements();
    }
  }

  /** The fixed texts for U+2028 and U+2029 are exactly the `\u%04x` escapes of those code units. */
  lemma SeparatorReplacements()
    ensures Replacement(LINE_SEPARATOR) == Some(UnicodeEscape(LINE_SEPARATOR))
    ensures Replacement(PARAGRAPH_SEPARATOR) == Some(UnicodeEscape(PARAGRAPH_SEPARATOR))
  {
    assert 0x2028 / 16 == 0x202 && 0x2029 / 16 == 0x202 && 0x202 / 16 == 0x20 && 0x20 / 16 == 2;
    assert Hex4(LINE_SEPARATOR) == [HexDigit(2), HexDigit(0), HexDigit(2), HexDigit(8)];
    assert UnicodeEscape(LINE_SEPARATOR) == LINE_SEPARATOR_ESCAPE;
    assert Hex4(PARAGRAPH_SEPARATOR) == [HexDigit(2), HexDigit(0), HexDigit(2), HexDigit(9)];
    assert UnicodeEscape(PARAGRAPH_SEPARATOR) == PARAGRAPH_SEPARATOR_ESCAPE;
  }

  /** The C0 controls without a short form become `\u00` and two lower-case hex digits. */
  lemma ControlEscapeForm(c: CodeUnit)
    requires c < 0x20 && ShortEscapeLetter(c).None?
    ensures EscapeUnit(c) == Ascii("\\u00") + [HexDigit(c / 16), HexDigit(c % 16)]
  {
  }

  /** Escaping never shortens, and keeps the length exactly when nothing needs escaping. */
  lemma {:induction false} EscapeLength(s: Text)
    ensures |Escape(s)| >= |s|
    ensures |Escape(s)| == |s| <==> NoneNeedEscape(s)
  {
    if |s| > 0 {
      EscapeLength(s[1..]);
      assert NoneNeedEscape(s) <==> !NeedsEscape(s[0]) && NoneNeedEscape(s[1..]) by {
        if !NeedsEscape(s[0]) && NoneNeedEscape(s[1..]) {
          forall k | 0 <= k < |s| ensures !NeedsEscape(s[k]) {
            if k > 0 { assert s[k] == s[1..][k - 1]; }
          }
        }
      }
    }
  }

  /** The output equals the input if and only if no code unit needs escaping. */
  lemma EscapeIsIdentityIff(s: Text)
    ensures Escape(s) == s <==> NoneNeedEscape(s)
  {
    EscapeLength(s);
    if NoneNeedEscape(s) {
      EscapeIdentity(s);
    }
  }

  /** A code unit that may stand unescaped inside a JSON string and in script text. */
  predicate SafeInString(c: CodeUnit)
  {
    c >= 0x20 && c != LINE_SEPARATOR && c != PARAGRAPH_SEPARATOR
  }

  /** Neither a kept code unit nor any replacement holds a control or a line or paragraph separator. */
  lemma EscapeUnitIsSafe(c: CodeUnit)
    ensures forall k | 0 <= k < |EscapeUnit(c)| :: SafeInString(EscapeUnit(c)[k])
  {
    if NeedsEscape(c) {
      ReplacementForm(c);
      if ShortEscapeLetter(c).None? {
        var h := Hex4(c);
        assert forall k | 0 <= k < 4 :: h[k] >= '0' as int && h[k] <= 'f' as int;
        assert EscapeUnit(c) == [BACKSLASH, 'u' as int] + h;
      }
    }
  }

  /** The output holds no raw control code unit and no raw U+2028 or U+2029. */
  lemma {:induction false} EscapeIsSafe(s: Text)
    ensures forall k | 0 <= k < |Escape(s)| :: SafeInString(Escape(s)[k])
  {
    if |s| > 0 {
      EscapeIsSafe(s[1..]);
      var head := EscapeUnit(s[0]);
      EscapeUnitIsSafe(s[0]);
      forall k | 0 <= k < |Escape(s)| ensures SafeInString(Escape(s)[k]) {
        if k >= |head| {
          assert Escape(s)[k] == Escape(s[1..])[k - |head|];
        }
      }
    }
  }

  // Decoding a JSON string body (section 7 of RFC 8259), the partner of Escape.

  /** The code unit a two-character escape `\x` stands for, if `x` is one of `"\/bfnrt`. */
  function ShortUnescape(letter: CodeUnit): (r: Option<CodeUnit>)
  {
    if letter == '"' as int then Some(QUOTE)
    else if letter == '\\' as int then Some(BACKSLASH)
    else if letter == '/' as int then Some('/' as int)
    else if letter == 'b' as int then Some(0x08)
    else if letter == 'f' as int then Some(0x0C)
    else if letter == 'n' as int then Some(0x0A)
    else if letter == 'r' as int then Some(0x0D)
    else if letter == 't' as int then Some(0x09)
    else None
  }

  function Prepend(c: CodeUnit, rest: Option<Text>): (r: Option<Text>)
  {
    match rest
    case Some(t) => Some([c] + t)
    case None => None
  }

  /**
    The code units a JSON string body denotes, or `None` when the body is not
    valid: a raw `"` or control character, or a malformed escape.
   */
  function Unescape(t: Text): (r: Option<Text>)
    decreases |t|
  {
    if |t| == 0 then Some([])
    else if t[0] == BACKSLASH then
      if |t| < 2 then None
      else if t[1] == 'u' as int then
        if |t| < 6 then None
        else match ParseHex4(t[2..6])
          case Some(v) => Prepend(v, Unescape(t[6..]))
          case None => None
      else match ShortUnescape(t[1])
        case Some(c) => Prepend(c, Unescape(t[2..]))
        case None => None
    else if t[0] < 0x20 || t[0] == QUOTE then None
    else Prepend(t[0], Unescape(t[1..]))
  }

  /** Decoding the escape of one code unit, followed by anything, gives that code unit first. */
  lemma UnescapeEscapeUnit(c: CodeUnit, rest: Text)
    ensures Unescape(EscapeUnit(c) + rest) == Prepend(c, Unescape(rest))
  {
    var t := EscapeUnit(c) + rest;
    if !NeedsEscape(c) {
      assert t[1..] == rest;
    } else if ShortEscapeLetter(c).Some? {
      assert t[2..] == rest;
    } else {
      ReplacementForm(c);
      assert t[2..6] == Hex4(c);
      ParseHex4OfHex4(c);
      assert t[6..] == rest;
    }
  }

  /** Round trip: a JSON reader recovers the exact input from the escaped text. */
  lemma {:induction false} UnescapeEscape(s: Text)
    ensures Unescape(Escape(s)) == Some(s)
  {
    if |s| > 0 {
      UnescapeEscapeUnit(s[0], Escape(s[1..]));
      UnescapeEscape(s[1..]);
      assert [s[0]] + s[1..] == s;
    }
  }
}
