/** JavaScript strings: sequences of UTF-16 code units, lone surrogates included. */
module Text {
  import opened Basics

  type Unit = u: int | 0 <= u < 0x10000

  type Text = seq<Unit>

  const TAB: Unit := 0x09
  const LF: Unit := 0x0A
  const CR: Unit := 0x0D
  const SPACE: Unit := 0x20
  const QUOTE: Unit := 0x22
  const COMMA: Unit := 0x2C
  const DOT: Unit := 0x2E
  const SLASH: Unit := 0x2F
  const COLON: Unit := 0x3A
  const SEMICOLON: Unit := 0x3B
  const EQUALS: Unit := 0x3D
  const STAR: Unit := 0x2A
  const BACKSLASH: Unit := 0x5C
  const BOM: Unit := 0xFEFF

  /** The text of an ASCII literal. */
  function Ascii(s: string): (t: Text)
    requires forall i :: 0 <= i < |s| ==> s[i] < 128 as char
    ensures |t| == |s| && forall i :: 0 <= i < |s| ==> t[i] == s[i] as int
  {
    seq(|s|, i requires 0 <= i < |s| => s[i] as int)
  }

  /** What `\s` and `trim` count as white space. */
  predicate IsSpace(u: Unit) {
    || 0x09 <= u <= 0x0D || u == 0x20 || u == 0xA0 || u == 0x1680 || 0x2000 <= u <= 0x200A
    || u == 0x2028 || u == 0x2029 || u == 0x202F || u == 0x205F || u == 0x3000 || u == 0xFEFF
  }

  predicate All(kind: Unit -> bool, t: Text) {
    forall k :: 0 <= k < |t| ==> kind(t[k])
  }

  /** `indexOf` of one code unit from a position: the first place it stands at, or -1. */
  function IndexOf(s: Text, u: Unit, from: nat): (i: int)
    requires from <= |s|
    ensures i == -1 || from <= i < |s|
    ensures forall k :: from <= k < (if i == -1 then |s| else i) ==> s[k] != u
    ensures i != -1 ==> s[i] == u
    decreases |s| - from
  {
    if from == |s| then -1 else if s[from] == u then from else IndexOf(s, u, from + 1)
  }

  predicate IsDigit(u: Unit) { 0x30 <= u <= 0x39 }

  /** A non-negative integer in decimal, as a template string prints it. */
  function Decimal(n: nat): (t: Text)
    ensures |t| > 0 && forall k | 0 <= k < |t| :: IsDigit(t[k])
  {
    var digit: Unit := 0x30 + n % 10;
    if n < 10 then [digit] else Decimal(n / 10) + [digit]
  }
}
