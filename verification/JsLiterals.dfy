/** String and regular-expression literals of JavaScript as a grammar, and where skipJSString
    and skipJSRegex of pkg/configdef/validate.go find their ends. */
module JsLiterals {

  import opened BraceMatch
  import opened InlineCode
  import opened Sequences

  /** The inside of a string literal. */
  datatype Body = EndBody | Chr(c: char, rest: Body) | Esc(c: char, rest: Body)

  /** The inside of a regular expression. */
  datatype Pattern = EndPattern | PatChr(c: char, rest: Pattern) | PatEsc(c: char, rest: Pattern)
                   | Class(body: Body, rest: Pattern)

  function BodyText(b: Body): string {
    match b
    case EndBody => ""
    case Chr(c, rest) => [c] + BodyText(rest)
    case Esc(c, rest) => ['\\', c] + BodyText(rest)
  }

  function PatternText(p: Pattern): string {
    match p
    case EndPattern => ""
    case PatChr(c, rest) => [c] + PatternText(rest)
    case PatEsc(c, rest) => ['\\', c] + PatternText(rest)
    case Class(body, rest) => ("[" + BodyText(body) + "]") + PatternText(rest)
  }

  predicate LegalBody(b: Body, quote: char) {
    match b
    case EndBody => true
    case Chr(c, rest) => c != quote && c != '\\' && LegalBody(rest, quote)
    case Esc(_, rest) => LegalBody(rest, quote)
  }

  predicate LegalPattern(p: Pattern) {
    match p
    case EndPattern => true
    case PatChr(c, rest) => c != '/' && c != '[' && c != '\\' && c != '\n' && LegalPattern(rest)
    case PatEsc(c, rest) => c != '\n' && LegalPattern(rest)
    case Class(body, rest) => LegalBody(body, ']') && '\n' !in BodyText(body) && LegalPattern(rest)
  }

  /** s has `piece` at position i. */
  predicate Holds(s: string, i: nat, piece: string) {
    i + |piece| <= |s| && s[i..i + |piece|] == piece
  }

  /** s ends with pat, which starts nowhere between `from` and there. */
  predicate EndsFirst(s: string, from: nat, pat: string) {
    && from + |pat| <= |s| && Holds(s, |s| - |pat|, pat)
    && forall i :: from <= i < |s| - |pat| ==> !Holds(s, i, pat)
  }

  // ---------------------------------------------------------------- reading a piece at a place

  lemma HoldsSplit(s: string, i: nat, a: string, b: string)
    requires Holds(s, i, a + b)
    ensures Holds(s, i, a) && Holds(s, i + |a|, b)
  {
    assert s[i..i + |a|] == (a + b)[..|a|] == a;
    assert s[i + |a|..i + |a| + |b|] == (a + b)[|a|..] == b;
  }

  lemma HoldsChar(s: string, i: nat, c: char)
    requires Holds(s, i, [c])
    ensures s[i] == c
  {
    assert s[i..i + 1][0] == c;
  }

  lemma {:induction false} IndexIs(s: string, from: nat, at: nat, pat: string)
    requires from <= at && Holds(s, at, pat) && pat != ""
    requires forall i :: from <= i < at ==> !Holds(s, i, pat)
    ensures IndexFrom(s, from, pat) == at
    decreases at - from
  {
    if from < at {
      assert !Holds(s, from, pat);
      IndexIs(s, from + 1, at, pat);
    }
  }

  lemma PartOf(s: string, i: nat, piece: string, k: nat, n: nat)
    requires Holds(s, i, piece) && i <= k && k + n <= i + |piece|
    ensures s[k..k + n] == piece[k - i..k - i + n]
  {
    assert forall x {:trigger s[x]} :: i <= x < i + |piece| ==> s[x] == s[i..i + |piece|][x - i];
  }

  /** The first pat of a piece that ends with its first pat is found there in the text. */
  lemma IndexOfPiece(s: string, i: nat, piece: string, from: nat, pat: string)
    requires Holds(s, i, piece) && pat != "" && EndsFirst(piece, from, pat)
    ensures IndexFrom(s, i + from, pat) == i + |piece| - |pat|
  {
    var at := i + |piece| - |pat|;
    PartOf(s, i, piece, at, |pat|);
    forall k | i + from <= k < at ensures !Holds(s, k, pat) {
      assert !Holds(piece, k - i, pat);
      PartOf(s, i, piece, k, |pat|);
    }
    IndexIs(s, i + from, at, pat);
  }

  lemma ChrFront(s: string, i: nat, c: char, text: string, last: string)
    requires Holds(s, i, ([c] + text) + last)
    ensures s[i] == c && Holds(s, i + 1, text + last)
  {
    Reassociate([c], text, last);
    HoldsSplit(s, i, [c], text + last);
    HoldsChar(s, i, c);
  }

  lemma EscFront(s: string, i: nat, c: char, text: string, last: string)
    requires Holds(s, i, (['\\', c] + text) + last) && !OddEscapes(s, i)
    ensures s[i] == '\\' && s[i + 1] == c && Holds(s, i + 2, text + last)
    ensures OddEscapes(s, i + 1) && !OddEscapes(s, i + 2)
  {
    Reassociate(['\\', c], text, last);
    HoldsSplit(s, i, ['\\', c], text + last);
    assert s[i..i + 2][0] == s[i] && s[i..i + 2][1] == s[i + 1];
  }

  // ---------------------------------------------------------------- strings

  lemma {:induction false} BodyEnds(s: string, i: nat, b: Body, quote: char)
    requires IsQuote(quote) && LegalBody(b, quote) && Holds(s, i, BodyText(b) + [quote]) && !OddEscapes(s, i)
    ensures StringEnd(s, i, quote) == i + |BodyText(b)| + 1
    decreases b
  {
    match b {
      case EndBody =>
        assert "" + [quote] == [quote];
        HoldsChar(s, i, quote);
      case Chr(c, rest) =>
        ChrFront(s, i, c, BodyText(rest), [quote]);
        BodyEnds(s, i + 1, rest, quote);
      case Esc(c, rest) =>
        EscFront(s, i, c, BodyText(rest), [quote]);
        BodyEnds(s, i + 2, rest, quote);
        assert StringEnd(s, i + 1, quote) == StringEnd(s, i + 2, quote);
    }
  }

  // ---------------------------------------------------------------- regular expressions

  lemma ClassChr(s: string, i: nat)
    requires i < |s| && !OddEscapes(s, i) && s[i] != ']' && s[i] != '\\' && s[i] != '\n'
    ensures RegexEnd(s, i, true) == RegexEnd(s, i + 1, true) && !OddEscapes(s, i + 1)
  {
  }

  lemma PlainChr(s: string, i: nat)
    requires i < |s| && !OddEscapes(s, i) && s[i] !in {'/', '[', '\\', '\n'}
    ensures RegexEnd(s, i, false) == RegexEnd(s, i + 1, false) && !OddEscapes(s, i + 1)
  {
  }

  lemma EscapedChr(s: string, i: nat, inClass: bool)
    requires i + 1 < |s| && !OddEscapes(s, i) && s[i] == '\\' && s[i + 1] != '\n'
    ensures RegexEnd(s, i, inClass) == RegexEnd(s, i + 2, inClass)
  {
    assert RegexEnd(s, i + 1, inClass) == RegexEnd(s, i + 2, inClass);
  }

  /** f is RegexEnd on s. */
  ghost predicate ReadsRegex(f: (nat, bool) -> int, s: string) {
    forall i: nat, inClass {:trigger RegexEnd(s, i, inClass)} :: i <= |s| ==> f(i, inClass) == RegexEnd(s, i, inClass)
  }

  lemma RegexMoves(f: (nat, bool) -> int, s: string, i: nat, inClass: bool, j: nat, after: bool)
    requires ReadsRegex(f, s) && i <= |s| && j <= |s| && RegexEnd(s, i, inClass) == RegexEnd(s, j, after)
    ensures f(i, inClass) == f(j, after)
  {
  }

  lemma {:induction false} ClassEnds(f: (nat, bool) -> int, s: string, i: nat, b: Body, j: nat)
    requires LegalBody(b, ']') && '\n' !in BodyText(b) && Holds(s, i, BodyText(b) + "]") && !OddEscapes(s, i)
    requires ReadsRegex(f, s) && j == i + |BodyText(b)| + 1
    ensures f(i, true) == f(j, false) && !OddEscapes(s, j)
    decreases b
  {
    match b {
      case EndBody =>
        assert "" + "]" == "]";
        HoldsChar(s, i, ']');
        RegexMoves(f, s, i, true, j, false);
      case Chr(c, rest) =>
        ChrFront(s, i, c, BodyText(rest), "]");
        assert BodyText(b)[0] == c && forall x :: x in BodyText(rest) ==> x in BodyText(b);
        ClassChr(s, i);
        RegexMoves(f, s, i, true, i + 1, true);
        ClassEnds(f, s, i + 1, rest, j);
      case Esc(c, rest) =>
        EscFront(s, i, c, BodyText(rest), "]");
        assert BodyText(b)[1] == c && forall x :: x in BodyText(rest) ==> x in BodyText(b);
        EscapedChr(s, i, true);
        RegexMoves(f, s, i, true, i + 2, true);
        ClassEnds(f, s, i + 2, rest, j);
    }
  }

  /** A character class is passed over up to its first unescaped bracket. */
  lemma ClassPasses(f: (nat, bool) -> int, s: string, i: nat, b: Body, text: string, last: string, j: nat)
    requires LegalBody(b, ']') && '\n' !in BodyText(b) && ReadsRegex(f, s) && j == i + |BodyText(b)| + 2
    requires Holds(s, i, (("[" + BodyText(b) + "]") + text) + last) && !OddEscapes(s, i)
    ensures Holds(s, j, text + last) && f(i, false) == f(j, false) && !OddEscapes(s, j)
  {
    var bracket := "[" + BodyText(b) + "]";
    Reassociate(bracket, text, last);
    HoldsSplit(s, i, bracket, text + last);
    Reassociate("[", BodyText(b), "]");
    HoldsSplit(s, i, "[", BodyText(b) + "]");
    HoldsChar(s, i, '[');
    RegexMoves(f, s, i, false, i + 1, true);
    ClassEnds(f, s, i + 1, b, j);
  }

  /** Inside a regular expression the text up to the slash that ends it is passed over. */
  lemma {:induction false} PatternEnds(f: (nat, bool) -> int, s: string, i: nat, p: Pattern, j: nat)
    requires LegalPattern(p) && Holds(s, i, PatternText(p) + "/") && !OddEscapes(s, i) && ReadsRegex(f, s)
    requires j == i + |PatternText(p)|
    ensures j < |s| && s[j] == '/' && f(i, false) == f(j, false) && !OddEscapes(s, j)
    decreases p
  {
    match p {
      case EndPattern =>
        assert "" + "/" == "/";
        HoldsChar(s, i, '/');
      case PatChr(c, rest) =>
        ChrFront(s, i, c, PatternText(rest), "/");
        PlainChr(s, i);
        RegexMoves(f, s, i, false, i + 1, false);
        PatternEnds(f, s, i + 1, rest, j);
      case PatEsc(c, rest) =>
        EscFront(s, i, c, PatternText(rest), "/");
        EscapedChr(s, i, false);
        RegexMoves(f, s, i, false, i + 2, false);
        PatternEnds(f, s, i + 2, rest, j);
      case Class(body, rest) =>
        ClassPasses(f, s, i, body, PatternText(rest), "/", i + |BodyText(body)| + 2);
        PatternEnds(f, s, i + |BodyText(body)| + 2, rest, j);
    }
  }

  predicate AllFlags(flags: string) {
    forall c :: c in flags ==> IsRegexFlag(c)
  }

  lemma {:induction false} FlagsPass(s: string, i: nat, flags: string)
    requires Holds(s, i, flags) && AllFlags(flags)
    requires i + |flags| < |s| ==> !IsRegexFlag(s[i + |flags|])
    ensures FlagsEnd(s, i) == i + |flags|
    decreases |flags|
  {
    if flags != "" {
      assert flags == [flags[0]] + flags[1..] && flags[0] in flags;
      HoldsSplit(s, i, [flags[0]], flags[1..]);
      HoldsChar(s, i, flags[0]);
      FlagsPass(s, i + 1, flags[1..]);
    }
  }

  /** The text of a regular expression after its opening slash. */
  function RegexText(p: Pattern, flags: string): string {
    (PatternText(p) + "/") + flags
  }

  /** s has a legal regular expression from just after its opening slash at i up to j. */
  predicate SpellsRegex(s: string, i: nat, p: Pattern, flags: string, j: nat) {
    && LegalPattern(p) && AllFlags(flags) && Holds(s, i, RegexText(p, flags)) && j == i + |RegexText(p, flags)|
    && (j < |s| ==> !IsRegexFlag(s[j]))
  }

  lemma SlashEnds(s: string, i: nat, p: Pattern, slash: nat)
    requires LegalPattern(p) && Holds(s, i, PatternText(p) + "/") && !OddEscapes(s, i) && slash == i + |PatternText(p)|
    ensures slash < |s| && RegexEnd(s, i, false) == FlagsEnd(s, slash + 1)
  {
    var f := (i: nat, inClass: bool) => if i <= |s| then RegexEnd(s, i, inClass) else 0;
    PatternEnds(f, s, i, p, slash);
    assert f(i, false) == RegexEnd(s, i, false) && f(slash, false) == RegexEnd(s, slash, false);
  }

  /** A regular expression ends after the flags that follow its first slash outside classes
      and escapes. */
  lemma RegexEnds(s: string, i: nat, p: Pattern, flags: string, j: nat)
    requires SpellsRegex(s, i, p, flags, j) && !OddEscapes(s, i)
    ensures RegexEnd(s, i, false) == j
  {
    HoldsSplit(s, i, PatternText(p) + "/", flags);
    var slash := i + |PatternText(p)|;
    SlashEnds(s, i, p, slash);
    FlagsPass(s, slash + 1, flags);
  }

  // ---------------------------------------------------------------- and the other way round

  lemma HoldsJoin(s: string, i: nat, a: string, b: string)
    requires Holds(s, i, a) && Holds(s, i + |a|, b)
    ensures Holds(s, i, a + b)
  {
    assert s[i..i + |a + b|] == s[i..i + |a|] + s[i + |a|..i + |a| + |b|];
  }

  lemma ChrAgain(s: string, i: nat, text: string, last: string)
    requires i < |s| && Holds(s, i + 1, text + last)
    ensures Holds(s, i, ([s[i]] + text) + last)
  {
    HoldsJoin(s, i, [s[i]], text + last);
    Reassociate([s[i]], text, last);
  }

  lemma EscAgain(s: string, i: nat, text: string, last: string)
    requires i + 1 < |s| && s[i] == '\\' && Holds(s, i + 2, text + last)
    ensures Holds(s, i, (['\\', s[i + 1]] + text) + last)
  {
    HoldsJoin(s, i, ['\\', s[i + 1]], text + last);
    Reassociate(['\\', s[i + 1]], text, last);
  }

  lemma {:induction false} ClassFound(s: string, i: nat) returns (b: Body, j: nat)
    requires i <= |s| && !OddEscapes(s, i) && RegexEnd(s, i, true) >= 0
    ensures LegalBody(b, ']') && '\n' !in BodyText(b) && Holds(s, i, BodyText(b) + "]")
    ensures j == i + |BodyText(b)| + 1 && RegexEnd(s, i, true) == RegexEnd(s, j, false) && !OddEscapes(s, j)
    decreases |s| - i
  {
    if s[i] == ']' {
      b, j := EndBody, i + 1;
      assert "" + "]" == "]" == s[i..i + 1];
    } else if s[i] == '\\' {
      EscapedLast(s, i, true);
      EscapedChr(s, i, true);
      var rest, end := ClassFound(s, i + 2);
      b, j := Esc(s[i + 1], rest), end;
      EscAgain(s, i, BodyText(rest), "]");
    } else {
      ClassChr(s, i);
      var rest, end := ClassFound(s, i + 1);
      b, j := Chr(s[i], rest), end;
      ChrAgain(s, i, BodyText(rest), "]");
    }
  }

  lemma EscapedLast(s: string, i: nat, inClass: bool)
    requires i < |s| && !OddEscapes(s, i) && s[i] == '\\' && RegexEnd(s, i, inClass) >= 0
    ensures i + 1 < |s| && s[i + 1] != '\n' && !OddEscapes(s, i + 2)
  {
    assert RegexEnd(s, i, inClass) == RegexEnd(s, i + 1, inClass) && OddEscapes(s, i + 1);
  }

  lemma {:induction false} PatternFound(s: string, i: nat) returns (p: Pattern, slash: nat)
    requires i <= |s| && !OddEscapes(s, i) && RegexEnd(s, i, false) >= 0
    ensures LegalPattern(p) && Holds(s, i, PatternText(p) + "/") && slash == i + |PatternText(p)|
    decreases |s| - i
  {
    if s[i] == '/' {
      p, slash := EndPattern, i;
      assert "" + "/" == "/" == s[i..i + 1];
    } else if s[i] == '\\' {
      EscapedLast(s, i, false);
      EscapedChr(s, i, false);
      var rest, end := PatternFound(s, i + 2);
      p, slash := PatEsc(s[i + 1], rest), end;
      EscAgain(s, i, PatternText(rest), "/");
    } else if s[i] == '[' {
      var body, j := ClassFound(s, i + 1);
      var rest, end := PatternFound(s, j);
      p, slash := Class(body, rest), end;
      ClassAgain(s, i, body, j, PatternText(rest), "/");
    } else {
      PlainChr(s, i);
      var rest, end := PatternFound(s, i + 1);
      p, slash := PatChr(s[i], rest), end;
      ChrAgain(s, i, PatternText(rest), "/");
    }
  }

  lemma ClassAgain(s: string, i: nat, b: Body, j: nat, text: string, last: string)
    requires i < |s| && s[i] == '[' && Holds(s, i + 1, BodyText(b) + "]") && j == i + |BodyText(b)| + 2
    requires Holds(s, j, text + last)
    ensures Holds(s, i, (("[" + BodyText(b) + "]") + text) + last)
  {
    var bracket := "[" + BodyText(b) + "]";
    assert s[i..i + 1] == "[";
    HoldsJoin(s, i, "[", BodyText(b) + "]");
    Reassociate("[", BodyText(b), "]");
    HoldsJoin(s, i, bracket, text + last);
    Reassociate(bracket, text, last);
  }

  lemma {:induction false} FlagsFound(s: string, i: nat) returns (flags: string)
    requires i <= |s|
    ensures AllFlags(flags) && Holds(s, i, flags) && FlagsEnd(s, i) == i + |flags|
    ensures i + |flags| < |s| ==> !IsRegexFlag(s[i + |flags|])
    decreases |s| - i
  {
    if i < |s| && IsRegexFlag(s[i]) {
      var rest := FlagsFound(s, i + 1);
      flags := [s[i]] + rest;
      HoldsJoin(s, i, [s[i]], rest);
    } else {
      flags := "";
      assert s[i..i] == "";
    }
  }

  /** For every text: skipJSRegex finds an end exactly when a legal regular expression with
      all its flags ends there. */
  lemma RegexExactly(s: string, i: nat, j: nat)
    requires i <= |s| && !OddEscapes(s, i)
    ensures RegexEnd(s, i, false) == j <==> exists p, flags :: SpellsRegex(s, i, p, flags, j)
  {
    if RegexEnd(s, i, false) == j {
      var p, slash := PatternFound(s, i);
      HoldsSplit(s, i, PatternText(p), "/");
      var flags := FlagsFound(s, slash + 1);
      HoldsJoin(s, i, PatternText(p) + "/", flags);
      var end := i + |RegexText(p, flags)|;
      assert SpellsRegex(s, i, p, flags, end);
      RegexEnds(s, i, p, flags, end);
    } else if exists p, flags :: SpellsRegex(s, i, p, flags, j) {
      var p, flags :| SpellsRegex(s, i, p, flags, j);
      RegexEnds(s, i, p, flags, j);
    }
  }

  lemma StringStep(s: string, i: nat, quote: char)
    requires i < |s| && !OddEscapes(s, i) && s[i] != quote && StringEnd(s, i, quote) >= 0
    ensures StringEnd(s, i, quote) == StringEnd(s, i + 1, quote) && (OddEscapes(s, i + 1) <==> s[i] == '\\')
    ensures s[i] == '\\' ==>
              i + 1 < |s| && StringEnd(s, i, quote) == StringEnd(s, i + 2, quote) && !OddEscapes(s, i + 2)
  {
  }

  lemma {:induction false} BodyFound(s: string, i: nat, quote: char) returns (b: Body)
    requires i <= |s| && IsQuote(quote) && !OddEscapes(s, i) && StringEnd(s, i, quote) >= 0
    ensures LegalBody(b, quote) && Holds(s, i, BodyText(b) + [quote])
    decreases |s| - i
  {
    if s[i] == quote {
      b := EndBody;
      assert "" + [quote] == [quote] == s[i..i + 1];
    } else {
      StringStep(s, i, quote);
      if s[i] == '\\' {
        var rest := BodyFound(s, i + 2, quote);
        b := Esc(s[i + 1], rest);
        EscAgain(s, i, BodyText(rest), [quote]);
      } else {
        var rest := BodyFound(s, i + 1, quote);
        b := Chr(s[i], rest);
        ChrAgain(s, i, BodyText(rest), [quote]);
      }
    }
  }

  // ---------------------------------------------------------------- what starts at a place

  /** A string literal from i up to j. */
  ghost predicate StringAt(s: string, i: nat, j: nat)
    requires i < |s|
  {
    exists b :: LegalBody(b, s[i]) && Holds(s, i + 1, BodyText(b) + [s[i]]) && j == i + |BodyText(b)| + 2
  }

  /** A comment from i up to the end of its line. */
  predicate LineCommentAt(s: string, i: nat, j: nat) {
    i <= j <= |s| && '\n' !in s[i..j] && (j < |s| ==> s[j] == '\n')
  }

  /** A comment from i up to and with its first closing mark, or all that is left. */
  predicate BlockCommentAt(s: string, i: nat, j: nat) {
    if j == |s| && (forall k :: i + 2 <= k < |s| ==> !Holds(s, k, "*/")) then true
    else i + 4 <= j <= |s| && Holds(s, j - 2, "*/") && forall k :: i + 2 <= k < j - 2 ==> !Holds(s, k, "*/")
  }

  /** A regular expression from just after its opening slash at i up to j. */
  ghost predicate RegexAt(s: string, i: nat, j: nat) {
    exists p, flags :: SpellsRegex(s, i, p, flags, j)
  }

  lemma StringExactly(s: string, i: nat, j: nat)
    requires i < |s| && IsQuote(s[i])
    ensures StringEnd(s, i + 1, s[i]) == j <==> StringAt(s, i, j)
  {
    if StringEnd(s, i + 1, s[i]) == j {
      var b := BodyFound(s, i + 1, s[i]);
      BodyEnds(s, i + 1, b, s[i]);
    } else if StringAt(s, i, j) {
      var b :| LegalBody(b, s[i]) && Holds(s, i + 1, BodyText(b) + [s[i]]) && j == i + |BodyText(b)| + 2;
      BodyEnds(s, i + 1, b, s[i]);
    }
  }

  lemma {:induction false} FirstFound(s: string, from: nat, pat: string)
    requires from <= |s| && pat != ""
    ensures var at := IndexFrom(s, from, pat);
            if at < 0 then forall k :: from <= k < |s| ==> !Holds(s, k, pat)
            else Holds(s, at, pat) && forall k :: from <= k < at ==> !Holds(s, k, pat)
    decreases |s| - from
  {
    if from + |pat| <= |s| && s[from..from + |pat|] != pat {
      FirstFound(s, from + 1, pat);
    }
  }

  lemma LineCommentExactly(s: string, i: nat, j: nat)
    requires i + 1 < |s| && s[i] == '/' && s[i + 1] == '/'
    ensures LineCommentEnd(s, i) == j <==> LineCommentAt(s, i, j)
  {
    FirstFound(s, i, "\n");
    var end := LineCommentEnd(s, i);
    assert forall k {:trigger s[k]} :: 0 <= k < |s| ==> (Holds(s, k, "\n") <==> s[k] == '\n') by {
      assert forall k {:trigger s[k]} :: 0 <= k < |s| ==> s[k..k + 1] == [s[k]];
    }
    assert LineCommentAt(s, i, end);
    assert forall k {:trigger s[k]} :: i <= k < end ==> s[k] == s[i..end][k - i];
    assert LineCommentAt(s, i, j) ==> forall k {:trigger s[k]} :: i <= k < j ==> s[k] == s[i..j][k - i];
  }

  lemma BlockCommentExactly(s: string, i: nat, j: nat)
    requires i + 1 < |s|
    ensures BlockCommentEnd(s, i) == j <==> BlockCommentAt(s, i, j)
  {
    FirstFound(s, i + 2, "*/");
  }

  /** For every text and place: a string, a comment or a regular expression is passed over
      exactly when one of them ends there, all by its own grammar; anything else is code
      unless it starts a string or a regular expression that does not end. */
  lemma SkipsExactly(s: string, i: nat, startRegex: bool, j: nat)
    requires i < |s|
    ensures SkipLexical(s, i, startRegex) == PassedOver(j)
       <==> || (IsQuote(s[i]) && StringAt(s, i, j))
            || (s[i] == '/' && i + 1 < |s| && s[i + 1] == '/' && LineCommentAt(s, i, j))
            || (s[i] == '/' && i + 1 < |s| && s[i + 1] == '*' && BlockCommentAt(s, i, j))
            || (s[i] == '/' && i + 1 < |s| && s[i + 1] !in {'/', '*'} && startRegex && RegexAt(s, i + 1, j))
    ensures SkipLexical(s, i, startRegex) == Ordinary
       <==> !IsQuote(s[i]) && (s[i] != '/' || i + 1 == |s| || (s[i + 1] !in {'/', '*'} && !startRegex))
  {
    if IsQuote(s[i]) {
      StringExactly(s, i, j);
    } else if s[i] == '/' && i + 1 < |s| {
      if s[i + 1] == '/' {
        LineCommentExactly(s, i, j);
      } else if s[i + 1] == '*' {
        BlockCommentExactly(s, i, j);
      } else {
        RegexExactly(s, i + 1, j);
      }
    }
  }
}
