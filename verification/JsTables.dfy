/** The tables of characters and words behind the brace check of pkg/configdef/validate.go,
    by code point and by ECMAScript's own words. */
module JsTables {

  import opened BraceMatch

  lemma IdentCharsExactly(c: char, continued: bool)
    ensures IsIdentChar(c, continued)
       <==> var n := c as int;
            n == 0x24 || n == 0x5F || 0x41 <= n <= 0x5A || 0x61 <= n <= 0x7A || (continued && 0x30 <= n <= 0x39)
  {
  }

  lemma SpacesExactly(c: char)
    ensures IsJSSpace(c) <==> c as int in [0x20, 0x09, 0x0A, 0x0D]
  {
  }

  lemma QuotesExactly(c: char)
    ensures IsQuote(c) <==> c as int in [0x22, 0x27, 0x60]
  {
  }

  /** The flags of regular expressions. */
  lemma FlagsExactly(c: char)
    ensures IsRegexFlag(c) <==> c in "dgimsuvy"
  {
    assert "dgimsuvy"[0] == 'd' && "dgimsuvy"[1] == 'g' && "dgimsuvy"[2] == 'i' && "dgimsuvy"[3] == 'm';
    assert "dgimsuvy"[4] == 's' && "dgimsuvy"[5] == 'u' && "dgimsuvy"[6] == 'v' && "dgimsuvy"[7] == 'y';
  }

  /** After these words an expression follows, so a slash starts a regular expression. */
  lemma RegexKeywordsExactly(word: string)
    ensures IsRegexKeyword(word)
       <==> word in ["await", "case", "delete", "do", "else", "in", "instanceof", "new", "return", "throw", "typeof",
                     "void", "yield"]
  {
  }

  lemma ControlKeywordsExactly(word: string)
    ensures IsControlKeyword(word) <==> word in ["for", "if", "while", "with"]
  {
  }

  /** After the start of the code, an opening bracket, a separator or an operator. */
  lemma OperatorsExactly(prev: char)
    ensures RegexMayFollow(prev)
       <==> || prev as int == 0 || prev in ['(', '[', '{'] || prev in [',', ':', ';', '?', '=']
            || prev in ['!', '&', '|', '~', '^'] || prev in ['+', '-', '*', '%', '<', '>']
  {
  }
}
