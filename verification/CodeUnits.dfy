/** Texts as the UTF-16 code units the client's strings are made of. */
module CodeUnits {

  newtype CodeUnit = u: int | 0 <= u < 0x1_0000

  type Text = seq<CodeUnit>

  const TAB: CodeUnit := 9
  const NEWLINE: CodeUnit := 10
  const RETURN: CodeUnit := 13
  const SPACE: CodeUnit := 32
  const QUOTE: CodeUnit := 34
  const PLUS: CodeUnit := 43
  const COMMA: CodeUnit := 44
  const MINUS: CodeUnit := 45
  const DOT: CodeUnit := 46
  const SLASH: CodeUnit := 47
  const ZERO: CodeUnit := 48
  const NINE: CodeUnit := 57
  const COLON: CodeUnit := 58
  const UPPER_E: CodeUnit := 69
  const LBRACKET: CodeUnit := 91
  const BACKSLASH: CodeUnit := 92
  const RBRACKET: CodeUnit := 93
  const LOWER_A: CodeUnit := 97
  const LOWER_Z: CodeUnit := 122
  const LBRACE: CodeUnit := 123
  const RBRACE: CodeUnit := 125

  predicate IsHigh(u: CodeUnit) {
    0xd800 <= u <= 0xdbff
  }

  predicate IsLow(u: CodeUnit) {
    0xdc00 <= u <= 0xdfff
  }

  /** The length of a text in UTF-8; a lone surrogate takes the three bytes of its replacement. */
  function Utf8Length(t: Text): nat {
    if t == [] then 0
    else if t[0] < 0x80 then 1 + Utf8Length(t[1..])
    else if t[0] < 0x800 then 2 + Utf8Length(t[1..])
    else if |t| > 1 && IsHigh(t[0]) && IsLow(t[1]) then 4 + Utf8Length(t[2..])
    else 3 + Utf8Length(t[1..])
  }

  predicate IsDigit(u: CodeUnit) {
    ZERO <= u <= NINE
  }

  /** A literal of the source, unit by unit. Every literal used is ASCII. */
  function Units(literal: string): (t: Text)
    requires forall k :: 0 <= k < |literal| ==> literal[k] < 128 as char
    ensures |t| == |literal|
    ensures forall k :: 0 <= k < |t| ==> t[k] as int == literal[k] as int
  {
    seq(|literal|, k requires 0 <= k < |literal| => literal[k] as int as CodeUnit)
  }

  /** Where `unit` last stands before `before`, or -1: `text.lastIndexOf(unit, before - 1)`. */
  function LastBefore(text: Text, unit: CodeUnit, before: nat): (at: int)
    requires before <= |text|
    ensures -1 <= at < before
    ensures at >= 0 ==> text[at] == unit
    ensures forall k :: at < k < before ==> text[k] != unit
  {
    if before == 0 then -1
    else if text[before - 1] == unit then before - 1
    else LastBefore(text, unit, before - 1)
  }
}
