/**
 * Character classes used by the normalisers and the id parser.
 *
 * IsSpace is exactly Python's whitespace set (str.isspace, the `\s` class of
 * `re` on str patterns, and what str.split() and str.strip() treat as
 * blanks). IsWordChar, Lower and IsDigit stand in for the Unicode tables of
 * `\w`, str.lower() and `\d`: they cover ASCII, Latin-1, kana, the CJK
 * unified ideographs (with Extension A) and Hangul syllables; Lower maps one
 * character to one character. The other modules use these tables directly
 * (for example, that '_' is no digit), and the lemmas at the end of this
 * module relate the classes to one another.
 */
module Chars {

  predicate IsSpace(c: char) {
    ('\t' <= c <= '\r') || ('\U{1C}' <= c <= '\U{1F}') || c == ' ' ||
    c == '\U{85}' || c == '\U{A0}' || c == '\U{1680}' ||
    ('\U{2000}' <= c <= '\U{200A}') || c == '\U{2028}' || c == '\U{2029}' ||
    c == '\U{202F}' || c == '\U{205F}' || c == '\U{3000}'
  }

  /** The explicit punctuation list of the first substitution in normalize_key. */
  predicate IsListedPunct(c: char) {
    c in ".,;:!?()[]&'\"\U{FF5E}-"
  }

  /** CJK symbols and punctuation (U+3000-U+303F) and half/full-width forms (U+FF00-U+FFEF). */
  predicate InFullWidthBlock(c: char) {
    ('\U{3000}' <= c <= '\U{303F}') || ('\U{FF00}' <= c <= '\U{FFEF}')
  }

  predicate IsUpper(c: char) {
    ('A' <= c <= 'Z') || ('\U{C0}' <= c <= '\U{DE}' && c != '\U{D7}')
  }

  /** Letters and digits of the covered blocks, and "_": ASCII; the Latin-1
      letters, ª, µ, º, the superscripts ², ³, ¹ and the fractions ¼, ½, ¾;
      hiragana and katakana with their iteration marks and the prolonged
      sound mark ー; the CJK unified ideographs with Extension A; Hangul
      syllables. */
  predicate IsWordChar(c: char) {
    ('0' <= c <= '9') || ('a' <= c <= 'z') || IsUpper(c) || c == '_' ||
    c == '\U{AA}' || c == '\U{B2}' || c == '\U{B3}' || c == '\U{B5}' ||
    c == '\U{B9}' || c == '\U{BA}' || ('\U{BC}' <= c <= '\U{BE}') ||
    ('\U{DF}' <= c <= '\U{FF}' && c != '\U{F7}') ||
    ('\U{3041}' <= c <= '\U{3096}') || ('\U{309D}' <= c <= '\U{309F}') ||
    ('\U{30A1}' <= c <= '\U{30FA}') || ('\U{30FC}' <= c <= '\U{30FF}') ||
    ('\U{3400}' <= c <= '\U{4DBF}') ||
    ('\U{4E00}' <= c <= '\U{9FFF}') || ('\U{AC00}' <= c <= '\U{D7A3}')
  }

  function Lower(c: char): char {
    if IsUpper(c) then (c as int + 32) as char else c
  }

  predicate IsDigit(c: char) {
    '0' <= c <= '9'
  }

  function DigitValue(c: char): (d: nat)
    requires IsDigit(c)
    ensures d < 10
  {
    c as int - '0' as int
  }

  function DigitChar(d: nat): (c: char)
    requires d < 10
    ensures IsDigit(c) && DigitValue(c) == d
  {
    ('0' as int + d) as char
  }

  /** A word character is none of the characters the key normaliser strips first. */
  lemma WordCharIsPlain(c: char)
    requires IsWordChar(c)
    ensures !IsSpace(c) && !IsListedPunct(c) && !InFullWidthBlock(c)
  {
  }

  /** Lower-casing keeps word characters word characters and is idempotent. */
  lemma LowerKeepsWordChar(c: char)
    requires IsWordChar(c)
    ensures IsWordChar(Lower(c)) && Lower(Lower(c)) == Lower(c)
  {
  }
}
