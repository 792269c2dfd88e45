/**
 * The character classes the xqDoc lexer distinguishes, following the
 * `NameStartChar` and `NameChar` productions of XML 1.0 (fifth edition,
 * section 2.3) with the colon left out, as for an NCName.
 */
module CharacterClasses {
  datatype CharClass = NameStartChar | NameChar | Digit | Dot | HyphenMinus | Semicolon | Hash | Whitespace | OtherChar

  predicate InRange(c: char, lo: int, hi: int) {
    lo <= c as int <= hi
  }

  predicate IsNameStart(c: char) {
    InRange(c, 'A' as int, 'Z' as int) || c == '_' || InRange(c, 'a' as int, 'z' as int) ||
    InRange(c, 0xC0, 0xD6) || InRange(c, 0xD8, 0xF6) || InRange(c, 0xF8, 0x2FF) ||
    InRange(c, 0x370, 0x37D) || InRange(c, 0x37F, 0x1FFF) || InRange(c, 0x200C, 0x200D) ||
    InRange(c, 0x2070, 0x218F) || InRange(c, 0x2C00, 0x2FEF) || InRange(c, 0x3001, 0xD7FF) ||
    InRange(c, 0xF900, 0xFDCF) || InRange(c, 0xFDF0, 0xFFFD) || InRange(c, 0x10000, 0xEFFFF)
  }

  predicate IsDigit(c: char) {
    '0' <= c <= '9'
  }

  predicate IsHexDigit(c: char) {
    IsDigit(c) || 'a' <= c <= 'f' || 'A' <= c <= 'F'
  }

  predicate IsAlphaNumeric(c: char) {
    IsDigit(c) || 'a' <= c <= 'z' || 'A' <= c <= 'Z'
  }

  /** `CharacterClass.getCharClass`. */
  function ClassOf(c: char): (r: CharClass)
    ensures r == Semicolon <==> c == ';'
    ensures r == Hash <==> c == '#'
    ensures r == Digit <==> IsDigit(c)
    ensures r == Whitespace <==> c == ' ' || c == '\t' || c == '\r' || c == '\n'
    ensures r == NameStartChar <==> IsNameStart(c)
  {
    if c == ';' then Semicolon
    else if c == '#' then Hash
    else if c == '.' then Dot
    else if c == '-' then HyphenMinus
    else if IsDigit(c) then Digit
    else if c == ' ' || c == '\t' || c == '\r' || c == '\n' then Whitespace
    else if IsNameStart(c) then NameStartChar
    else if c as int == 0xB7 || InRange(c, 0x300, 0x36F) || InRange(c, 0x203F, 0x2040) then NameChar
    else OtherChar
  }
}
