/** tomlKey, quoteTOMLString and isBareTOMLKey of pkg/configdef/live.go, and a decoder
    written from the sections "Keys" and "String" of TOML v1.0.0. */
module TomlKey {

  import opened Wrappers

  const DELETE: char := 0x7F as char

  // ---------------------------------------------------------------- the printer

  predicate IsBareChar(c: char) {
    'A' <= c <= 'Z' || 'a' <= c <= 'z' || '0' <= c <= '9' || c == '_' || c == '-'
  }

  /** The characters of bare keys in TOML v1.0.0, "Keys". */
  lemma BareExactly(c: char)
    ensures IsBareChar(c)
       <==> var n := c as int; 0x41 <= n <= 0x5A || 0x61 <= n <= 0x7A || 0x30 <= n <= 0x39 || n == 0x5F || n == 0x2D
  {
  }

  predicate AllBare(name: string) {
    forall i :: 0 <= i < |name| ==> IsBareChar(name[i])
  }

  function HexDigit(d: nat): char
    requires d < 16
  {
    if d < 10 then ('0' as int + d) as char else ('A' as int + d - 10) as char
  }

  /** The letter after the backslash for the characters that have one. */
  function Letter(c: char): Option<char> {
    match c
    case '"' => Some('"')
    case '\\' => Some('\\')
    case '\n' => Some('n')
    case '\t' => Some('t')
    case '\r' => Some('r')
    case _ => None
  }

  function Hex4(c: char): string
    requires c < ' '
  {
    [HexDigit(0), HexDigit(0), HexDigit(c as int / 16), HexDigit(c as int % 16)]
  }

  function Escaped(c: char): string {
    match Letter(c)
    case Some(letter) => ['\\', letter]
    case None => if c < ' ' then ['\\', 'u'] + Hex4(c) else [c]
  }

  function EscapedAll(name: string): string {
    if name == "" then "" else Escaped(name[0]) + EscapedAll(name[1..])
  }

  function Quoted(name: string): string {
    "\"" + EscapedAll(name) + "\""
  }

  function Printed(name: string): string {
    if name != "" && AllBare(name) then name else Quoted(name)
  }

  lemma {:induction false} EscapedSnoc(name: string, c: char)
    ensures EscapedAll(name + [c]) == EscapedAll(name) + Escaped(c)
  {
    if name == "" {
      assert [c][1..] == "";
      assert "" + [c] == [c] && Escaped(c) + "" == Escaped(c);
    } else {
      assert (name + [c])[1..] == name[1..] + [c];
      EscapedSnoc(name[1..], c);
    }
  }

  method IsBareTOMLKey(name: string) returns (bare: bool)
    ensures bare == AllBare(name)
  {
    for i := 0 to |name|
      invariant AllBare(name[..i])
    {
      if !IsBareChar(name[i]) {
        return false;
      }
    }
    return true;
  }

  lemma EscapedStep(name: string, i: nat)
    requires i < |name|
    ensures "\"" + EscapedAll(name[..i + 1]) == ("\"" + EscapedAll(name[..i])) + Escaped(name[i])
  {
    assert name[..i + 1] == name[..i] + [name[i]];
    EscapedSnoc(name[..i], name[i]);
  }

  method QuoteTOMLString(name: string) returns (buf: string)
    ensures buf == Quoted(name)
  {
    buf := "\"";
    for i := 0 to |name|
      invariant buf == "\"" + EscapedAll(name[..i])
    {
      EscapedStep(name, i);
      buf := buf + Escaped(name[i]);
    }
    assert name[..|name|] == name;
    buf := buf + "\"";
  }

  method TomlKey(name: string) returns (key: string)
    ensures key == Printed(name)
  {
    if name != "" {
      var bare := IsBareTOMLKey(name);
      if bare {
        return name;
      }
    }
    key := QuoteTOMLString(name);
  }

  // ---------------------------------------------------------------- the decoder

  predicate NonAscii(c: char) {
    c as int >= 0x80
  }

  /** basic-unescaped. */
  predicate BasicChar(c: char) {
    c == ' ' || c == '\t' || c == '!' || 0x23 <= c as int <= 0x5B || 0x5D <= c as int <= 0x7E || NonAscii(c)
  }

  /** literal-char. */
  predicate LiteralChar(c: char) {
    c == '\t' || 0x20 <= c as int <= 0x26 || 0x28 <= c as int <= 0x7E || NonAscii(c)
  }

  function HexValue(c: char): Option<nat> {
    if '0' <= c <= '9' then Some(c as int - '0' as int)
    else if 'A' <= c <= 'F' then Some(c as int - 'A' as int + 10)
    else if 'a' <= c <= 'f' then Some(c as int - 'a' as int + 10)
    else None
  }

  function HexNumber(s: string): Option<nat> {
    if s == "" then Some(0)
    else
      match (HexNumber(s[..|s| - 1]), HexValue(s[|s| - 1]))
      case (Some(high), Some(low)) => Some(16 * high + low)
      case _ => None
  }

  /** A Unicode scalar value. */
  function ScalarOf(n: nat): Option<char> {
    if n < 0xD800 || 0xE000 <= n < 0x11_0000 then Some(n as char) else None
  }

  function Unescape(c: char): Option<char> {
    match c
    case 'b' => Some(0x08 as char)
    case 't' => Some('\t')
    case 'n' => Some('\n')
    case 'f' => Some(0x0C as char)
    case 'r' => Some('\r')
    case '"' => Some('"')
    case '\\' => Some('\\')
    case _ => None
  }

  function DecodeHex(s: string, digits: nat): Option<char>
    requires digits <= |s|
  {
    match HexNumber(s[..digits]) case Some(n) => ScalarOf(n) case None => None
  }

  /** What a basic string starts with: its closing mark at the end of the text, a
      character and the text after it, or something TOML does not allow. */
  datatype Piece = End | Char(c: char, rest: string) | Illegal

  function PieceOf(c: Option<char>, rest: string): Piece {
    match c case Some(value) => Char(value, rest) case None => Illegal
  }

  function FirstPiece(s: string, lenient: bool): (p: Piece)
    ensures p.Char? ==> |p.rest| < |s|
  {
    if s == "" then Illegal
    else if s[0] == '"' then (if |s| == 1 then End else Illegal)
    else if s[0] == '\\' then
      if |s| == 1 then Illegal
      else if s[1] == 'u' then (if |s| < 6 then Illegal else PieceOf(DecodeHex(s[2..], 4), s[6..]))
      else if s[1] == 'U' then (if |s| < 10 then Illegal else PieceOf(DecodeHex(s[2..], 8), s[10..]))
      else PieceOf(Unescape(s[1]), s[2..])
    else if BasicChar(s[0]) || (lenient && s[0] == DELETE) then Char(s[0], s[1..])
    else Illegal
  }

  function Prepend(c: char, rest: Option<string>): Option<string> {
    match rest case Some(tail) => Some([c] + tail) case None => None
  }

  /** A basic string after its opening quotation mark, which must end the text. A lenient
      decoder also reads a raw U+007F, which TOML does not allow. */
  function DecodeBasic(s: string, lenient: bool): Option<string>
    decreases |s|
  {
    match FirstPiece(s, lenient)
    case End => Some("")
    case Char(c, rest) => Prepend(c, DecodeBasic(rest, lenient))
    case Illegal => None
  }

  function DecodeLiteral(s: string): Option<string> {
    if s == "" then None
    else if s[0] == '\'' then (if |s| == 1 then Some("") else None)
    else if LiteralChar(s[0]) then Prepend(s[0], DecodeLiteral(s[1..]))
    else None
  }

  function DecodeKeyWith(s: string, lenient: bool): Option<string> {
    if s == "" then None
    else if s[0] == '"' then DecodeBasic(s[1..], lenient)
    else if s[0] == '\'' then DecodeLiteral(s[1..])
    else if AllBare(s) then Some(s)
    else None
  }

  function DecodeKey(s: string): Option<string> {
    DecodeKeyWith(s, false)
  }

  // ---------------------------------------------------------------- the round trip

  lemma HexDecodes(c: char)
    requires c < ' '
    ensures DecodeHex(Hex4(c), 4) == Some(c)
  {
    var s := Hex4(c);
    assert s[..4] == s && s[..3][..2] == s[..2] && s[..2][..1] == s[..1] && s[..1][..0] == "";
    assert HexNumber(s[..1]) == Some(0) && HexNumber(s[..2]) == Some(0);
    assert HexNumber(s[..3]) == Some(c as int / 16);
  }

  lemma UnicodePiece(c: char, rest: string, lenient: bool)
    requires c < ' '
    ensures FirstPiece(['\\', 'u'] + Hex4(c) + rest, lenient) == Char(c, rest)
  {
    var s := ['\\', 'u'] + Hex4(c) + rest;
    HexDecodes(c);
    assert s[2..][..4] == Hex4(c)[..4];
    assert s[6..] == rest;
  }

  lemma EscapedPiece(c: char, rest: string, lenient: bool)
    ensures FirstPiece(Escaped(c) + rest, lenient) == if c == DELETE && !lenient then Illegal else Char(c, rest)
  {
    match Letter(c) {
      case Some(letter) =>
        assert (['\\', letter] + rest)[2..] == rest;
      case None =>
        if c < ' ' {
          UnicodePiece(c, rest, lenient);
        } else {
          assert ([c] + rest)[1..] == rest;
        }
    }
  }

  lemma {:induction false} EscapedAllDecodes(name: string, lenient: bool)
    ensures DecodeBasic(EscapedAll(name) + "\"", lenient) == if DELETE in name && !lenient then None else Some(name)
  {
    if name == "" {
      assert EscapedAll(name) + "\"" == "\"";
    } else {
      EscapedAllDecodes(name[1..], lenient);
      EscapedPiece(name[0], EscapedAll(name[1..]) + "\"", lenient);
      assert EscapedAll(name) + "\"" == Escaped(name[0]) + (EscapedAll(name[1..]) + "\"");
      assert name == [name[0]] + name[1..];
    }
  }

  lemma KeyDecodes(name: string, lenient: bool)
    ensures DecodeKeyWith(Printed(name), lenient) == if DELETE in name && !lenient then None else Some(name)
  {
    if name != "" && AllBare(name) {
      assert IsBareChar(name[0]);
      forall c | c in name ensures c != DELETE {
        var i :| 0 <= i < |name| && name[i] == c;
      }
    } else {
      EscapedAllDecodes(name, lenient);
      assert Quoted(name)[1..] == EscapedAll(name) + "\"";
    }
  }

  /** Printing a key and decoding it gives the key back, exactly when U+007F is not in it:
      the printer writes that one control character raw, and TOML forbids it raw. */
  lemma KeyRoundTrip(name: string)
    ensures DecodeKey(Printed(name)) == if DELETE in name then None else Some(name)
  {
    KeyDecodes(name, false);
  }

  lemma {:induction false} EscapedLonger(name: string)
    ensures |EscapedAll(name)| >= |name|
  {
    if name != "" {
      EscapedLonger(name[1..]);
    }
  }

  /** A key is printed bare exactly when the bare text decodes to it. */
  lemma BareOnlyWhenItDecodes(name: string)
    ensures Printed(name) == name <==> DecodeKey(name) == Some(name)
  {
    EscapedLonger(name);
    if name != "" && name[0] == '"' {
      BasicShorter(name[1..]);
    } else if name != "" && name[0] == '\'' {
      LiteralShorter(name[1..]);
    }
  }

  lemma {:induction false} BasicShorter(s: string)
    ensures DecodeBasic(s, false).Some? ==> |DecodeBasic(s, false).value| < |s|
    decreases |s|
  {
    if FirstPiece(s, false).Char? {
      BasicShorter(FirstPiece(s, false).rest);
    }
  }

  lemma {:induction false} LiteralShorter(s: string)
    ensures DecodeLiteral(s).Some? ==> |DecodeLiteral(s).value| < |s|
  {
    if |s| > 0 {
      LiteralShorter(s[1..]);
    }
  }

  /** Two names that print alike are the same name. */
  lemma PrintedInjective(a: string, b: string)
    requires Printed(a) == Printed(b)
    ensures a == b
  {
    KeyDecodes(a, true);
    KeyDecodes(b, true);
  }
}
