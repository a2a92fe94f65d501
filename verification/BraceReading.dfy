/** What the matcher of pkg/configdef/validate.go makes of any text: it counts the braces of
    its code. What is code is said here without the matcher and its fields: a `/` is taken
    for a regular expression by a look back over the signs read so far. */
module BraceReading {

  import opened BraceGrammar
  import opened BraceMatch
  import opened InlineCode
  import opened RegexPlaces

  /** The sign of something passed over between i and j: none for a comment. */
  function SignFor(s: string, i: nat, j: nat): Sign
    requires i < j <= |s|
  {
    if s[i] == '/' && i + 1 < |s| && s[i + 1] in {'/', '*'} then Blank else Literal(s[j - 1])
  }

  /** What starts at i after `code`: a string, a comment, a regular expression or none. */
  function LexicalAt(s: string, i: nat, code: Signs): (lex: Lexical)
    requires i < |s|
    ensures lex.PassedOver? ==> i < lex.end <= |s|
  {
    SkipLexical(s, i, LiteralMayStart(code, |code|))
  }

  /** The text from i on, read after `code`, with strings, comments, regular expressions,
      white space and escaped characters blanked out; all of it from a literal without an
      end. */
  function CodeOnly(s: string, i: nat, code: Signs): (m: string)
    requires i <= |s|
    ensures |m| == |s| - i
    decreases |s| - i
  {
    if i == |s| then ""
    else
      match LexicalAt(s, i, code)
      case Unterminated => Spaces(|s| - i)
      case PassedOver(j) => Spaces(j - i) + CodeOnly(s, j, code + [SignFor(s, i, j)])
      case Ordinary =>
        if IsJSSpace(s[i]) then Spaces(1) + CodeOnly(s, i + 1, code + [Blank])
        else if OddEscapes(s, i) then Spaces(1) + CodeOnly(s, i + 1, code)
        else [s[i]] + CodeOnly(s, i + 1, code + [Mark(s[i])])
  }

  /** The code of the text is blanks or one character, and the code of the rest. */
  lemma CodeSplit(s: string, i: nat, code: Signs) returns (j: nat, next: Signs, head: string)
    requires i < |s|
    ensures i < j <= |s| && |head| == j - i
    ensures head == Spaces(j - i) || (head == [s[i]] && !OddEscapes(s, i))
    ensures CodeOnly(s, i, code) == head + CodeOnly(s, j, next)
  {
    match LexicalAt(s, i, code) {
      case Unterminated => j, next, head := |s|, code, Spaces(|s| - i);
      case PassedOver(end) => j, next, head := end, code + [SignFor(s, i, end)], Spaces(end - i);
      case Ordinary =>
        j := i + 1;
        next := if IsJSSpace(s[i]) then code + [Blank] else if OddEscapes(s, i) then code else code + [Mark(s[i])];
        head := if IsJSSpace(s[i]) || OddEscapes(s, i) then Spaces(1) else [s[i]];
    }
  }

  /** Where m is not blank it has the unescaped characters of s from i on. */
  predicate TakenFrom(s: string, i: nat, m: string)
    requires i <= |s| && |m| == |s| - i
  {
    forall k :: 0 <= k < |m| && m[k] != ' ' ==> m[k] == s[i + k] && !OddEscapes(s, i + k)
  }

  lemma TakenJoin(s: string, i: nat, j: nat, head: string, rest: string)
    requires i < j <= |s| && |head| == j - i && |rest| == |s| - j && TakenFrom(s, j, rest)
    requires head == Spaces(j - i) || (head == [s[i]] && !OddEscapes(s, i))
    ensures TakenFrom(s, i, head + rest)
  {
    var m := head + rest;
    forall k | 0 <= k < |m| && m[k] != ' ' ensures m[k] == s[i + k] && !OddEscapes(s, i + k) {
      if k < j - i {
        assert m[k] == head[k];
      } else {
        assert m[k] == rest[k - (j - i)];
      }
    }
  }

  /** What is left is unescaped characters of the text, each at its place. */
  lemma {:induction false} CodeIsText(s: string, i: nat, code: Signs)
    requires i <= |s|
    ensures TakenFrom(s, i, CodeOnly(s, i, code))
    decreases |s| - i
  {
    if i < |s| {
      var j, next, head := CodeSplit(s, i, code);
      CodeIsText(s, j, next);
      TakenJoin(s, i, j, head, CodeOnly(s, j, next));
    }
  }

  // ---------------------------------------------------------------- escaped characters

  /** The backslash before an escaped character was the last sign. */
  predicate EscapeSeen(s: string, i: nat, code: Signs)
    requires i <= |s|
  {
    i < |s| && !IsJSSpace(s[i]) && OddEscapes(s, i) ==> code != [] && code[|code| - 1] == Mark('\\')
  }

  lemma {:induction false} FlagsLast(s: string, i: nat)
    requires 0 < i <= |s| && s[i - 1] != '\\'
    ensures s[FlagsEnd(s, i) - 1] != '\\'
    decreases |s| - i
  {
    if i < |s| && IsRegexFlag(s[i]) {
      FlagsLast(s, i + 1);
    }
  }

  lemma {:induction false} RegexLast(s: string, i: nat, inClass: bool)
    requires i <= |s| && RegexEnd(s, i, inClass) >= 0
    ensures s[RegexEnd(s, i, inClass) - 1] != '\\'
    decreases |s| - i
  {
    if OddEscapes(s, i) {
      RegexLast(s, i + 1, inClass);
    } else if inClass {
      RegexLast(s, i + 1, s[i] != ']');
    } else if s[i] == '[' {
      RegexLast(s, i + 1, true);
    } else if s[i] == '/' {
      FlagsLast(s, i + 1);
    } else {
      RegexLast(s, i + 1, false);
    }
  }

  lemma {:induction false} StringLast(s: string, i: nat, quote: char)
    requires i <= |s| && StringEnd(s, i, quote) >= 0
    ensures s[StringEnd(s, i, quote) - 1] == quote
    decreases |s| - i
  {
    if !(s[i] == quote && !OddEscapes(s, i)) {
      StringLast(s, i + 1, quote);
    }
  }

  /** A comment that ends before the text does ends with a slash or before a new line. */
  lemma CommentLast(s: string, i: nat, j: nat)
    requires i + 1 < |s| && s[i] == '/' && (s[i + 1] == '/' || s[i + 1] == '*') && j < |s|
    requires j == if s[i + 1] == '/' then LineCommentEnd(s, i) else BlockCommentEnd(s, i)
    ensures s[j] == '\n' || s[j - 1] == '/'
  {
    if s[i + 1] == '/' {
      assert s[j..j + 1][0] == '\n';
    } else {
      assert s[j - 2..j][1] == '/';
    }
  }

  /** After something that is passed over no escaped character follows. */
  lemma NoEscapeAfter(s: string, i: nat, startRegex: bool, j: nat)
    requires i < |s| && SkipLexical(s, i, startRegex) == PassedOver(j)
    ensures j < |s| && !IsJSSpace(s[j]) ==> !OddEscapes(s, j)
  {
    if j < |s| {
      if IsQuote(s[i]) {
        StringLast(s, i + 1, s[i]);
      } else if CommentAt(s, i) {
        CommentLast(s, i, j);
      } else {
        RegexLast(s, i + 1, false);
      }
    }
  }

  // ---------------------------------------------------------------- what the matcher does

  /** At an escaped character the matcher remembers no word: nothing changes. */
  lemma EscapedMoves(s: string, i: nat, depth: int, code: Signs)
    requires i < |s| && OddEscapes(s, i) && EscapeSeen(s, i, code) && !IsJSSpace(s[i])
    requires LexicalAt(s, i, code).Ordinary?
    ensures MoveAt(s, i, StateAfter(depth, code)) == Skip(i + 1, StateAfter(depth, code))
  {
    StartsExactly(code, |code|);
    NoWordAfter(code);
  }

  lemma {:induction false} NoWordAfter(code: Signs)
    requires code != [] && code[|code| - 1] == Mark('\\')
    ensures After(code, |code|).punct.ident == ""
  {
    JsPunctAgrees(code, |code|);
  }

  lemma LexicalMoves(s: string, i: nat, depth: int, code: Signs, j: nat)
    requires i < |s| && LexicalAt(s, i, code) == PassedOver(j)
    ensures MoveAt(s, i, StateAfter(depth, code)) == Skip(j, StateAfter(depth, code + [SignFor(s, i, j)]))
  {
    StartsExactly(code, |code|);
    PassedOverMoves(s, i, StateAfter(depth, code), j);
    StateNext(depth, code, depth, SignFor(s, i, j));
  }

  lemma SpaceMoves(s: string, i: nat, depth: int, code: Signs)
    requires i < |s| && IsJSSpace(s[i]) && LexicalAt(s, i, code).Ordinary?
    ensures MoveAt(s, i, StateAfter(depth, code)) == Skip(i + 1, StateAfter(depth, code + [Blank]))
  {
    var st := StateAfter(depth, code);
    StartsExactly(code, |code|);
    FinishTwice(st.punct);
    StateNext(depth, code, depth, Blank);
  }

  lemma MarkMoves(s: string, i: nat, depth: int, code: Signs)
    requires i < |s| && !IsJSSpace(s[i]) && !OddEscapes(s, i) && LexicalAt(s, i, code).Ordinary?
    ensures MoveAt(s, i, StateAfter(depth, code))
         == if s[i] == '}' && depth == 1 then Return
            else Look(StateAfter(Deeper(s[i], depth), code + [Mark(s[i])]))
  {
    var st := StateAfter(depth, code);
    StartsExactly(code, |code|);
    if !IsIdentChar(s[i], st.punct.ident != "") {
      SawFinished(st.punct, s[i], st.adjacent);
    }
    StateNext(depth, code, Deeper(s[i], depth), Mark(s[i]));
  }

  lemma UnendedMoves(s: string, i: nat, depth: int, code: Signs)
    requires i < |s| && LexicalAt(s, i, code).Unterminated?
    ensures MoveAt(s, i, StateAfter(depth, code)) == GiveUp
  {
    StartsExactly(code, |code|);
  }

  // ---------------------------------------------------------------- the whole text

  /** end is where the plain counter ends on the code of the rest. */
  predicate PlainFrom(s: string, i: nat, depth: int, code: Signs, end: int)
    requires i <= |s|
  {
    end == Shift(PlainEnd(CodeOnly(s, i, code), depth), i)
  }

  lemma PlainSkips(s: string, i: nat, j: nat, depth: int, code: Signs, next: Signs, end: int)
    requires i < j <= |s| && CodeOnly(s, i, code) == Spaces(j - i) + CodeOnly(s, j, next)
    requires PlainFrom(s, j, depth, next, end)
    ensures PlainFrom(s, i, depth, code, end)
  {
    PlainEndSpaces(j - i, CodeOnly(s, j, next), depth);
  }

  lemma PlainMarks(s: string, i: nat, depth: int, code: Signs, next: Signs, end: int)
    requires i < |s| && CodeOnly(s, i, code) == [s[i]] + CodeOnly(s, i + 1, next)
    requires if s[i] == '}' && depth == 1 then end == i + 1 else PlainFrom(s, i + 1, Deeper(s[i], depth), next, end)
    ensures PlainFrom(s, i, depth, code, end)
  {
    PlainEndCons(s[i], CodeOnly(s, i + 1, next), depth);
  }

  /** g is the matcher on s after some code; what it remembers stays out of the proof. */
  lemma {:induction false} EndIsPlain(g: (nat, int, Signs) -> int, s: string, i: nat, depth: int, code: Signs)
    requires ReadsAfter(g, s) && i <= |s| && EscapeSeen(s, i, code)
    ensures PlainFrom(s, i, depth, code, g(i, depth, code))
    decreases |s| - i
  {
    if i == |s| {
      EndsNowhere(g, s, depth, code);
    } else {
      match LexicalAt(s, i, code) {
        case Unterminated => Unended(g, s, i, depth, code);
        case PassedOver(j) =>
          var next := code + [SignFor(s, i, j)];
          PassesTo(g, s, i, depth, code, j, next);
          EndIsPlain(g, s, j, depth, next);
          PlainSkips(s, i, j, depth, code, next, g(i, depth, code));
        case Ordinary =>
          if IsJSSpace(s[i]) || OddEscapes(s, i) {
            var next := if IsJSSpace(s[i]) then code + [Blank] else code;
            BlankTo(g, s, i, depth, code, next);
            EndIsPlain(g, s, i + 1, depth, next);
            PlainSkips(s, i, i + 1, depth, code, next, g(i, depth, code));
          } else {
            var next := code + [Mark(s[i])];
            MarkTo(g, s, i, depth, code, next);
            if !(s[i] == '}' && depth == 1) {
              EndIsPlain(g, s, i + 1, Deeper(s[i], depth), next);
            }
            PlainMarks(s, i, depth, code, next, g(i, depth, code));
          }
      }
    }
  }

  lemma EndsNowhere(g: (nat, int, Signs) -> int, s: string, depth: int, code: Signs)
    requires ReadsAfter(g, s)
    ensures PlainFrom(s, |s|, depth, code, g(|s|, depth, code))
  {
    assert g(|s|, depth, code) == EndFrom(s, |s|, StateAfter(depth, code));
  }

  lemma Unended(g: (nat, int, Signs) -> int, s: string, i: nat, depth: int, code: Signs)
    requires ReadsAfter(g, s) && i < |s| && LexicalAt(s, i, code).Unterminated?
    ensures PlainFrom(s, i, depth, code, g(i, depth, code))
  {
    UnendedMoves(s, i, depth, code);
    NoEnd(|s| - i, depth);
    assert g(i, depth, code) == EndFrom(s, i, StateAfter(depth, code));
  }

  lemma CodeAfterLexical(s: string, i: nat, code: Signs, j: nat, next: Signs)
    requires i < |s| && LexicalAt(s, i, code) == PassedOver(j) && next == code + [SignFor(s, i, j)]
    ensures CodeOnly(s, i, code) == Spaces(j - i) + CodeOnly(s, j, next)
  {
  }

  lemma EndAfterLexical(s: string, i: nat, depth: int, code: Signs, j: nat, next: Signs)
    requires i < |s| && LexicalAt(s, i, code) == PassedOver(j) && next == code + [SignFor(s, i, j)]
    ensures EndFrom(s, i, StateAfter(depth, code)) == EndFrom(s, j, StateAfter(depth, next))
  {
    LexicalMoves(s, i, depth, code, j);
  }

  lemma PassesTo(g: (nat, int, Signs) -> int, s: string, i: nat, depth: int, code: Signs, j: nat, next: Signs)
    requires ReadsAfter(g, s) && i < |s| && LexicalAt(s, i, code) == PassedOver(j)
    requires next == code + [SignFor(s, i, j)]
    ensures g(i, depth, code) == g(j, depth, next) && EscapeSeen(s, j, next)
    ensures CodeOnly(s, i, code) == Spaces(j - i) + CodeOnly(s, j, next)
  {
    CodeAfterLexical(s, i, code, j, next);
    NoEscapeAfter(s, i, LiteralMayStart(code, |code|), j);
    EndAfterLexical(s, i, depth, code, j, next);
    assert g(i, depth, code) == EndFrom(s, i, StateAfter(depth, code));
    assert g(j, depth, next) == EndFrom(s, j, StateAfter(depth, next));
  }

  lemma BlankTo(g: (nat, int, Signs) -> int, s: string, i: nat, depth: int, code: Signs, next: Signs)
    requires ReadsAfter(g, s) && i < |s| && LexicalAt(s, i, code).Ordinary? && EscapeSeen(s, i, code)
    requires if IsJSSpace(s[i]) then next == code + [Blank] else OddEscapes(s, i) && next == code
    ensures g(i, depth, code) == g(i + 1, depth, next) && EscapeSeen(s, i + 1, next)
    ensures CodeOnly(s, i, code) == Spaces(1) + CodeOnly(s, i + 1, next)
  {
    if IsJSSpace(s[i]) {
      SpaceMoves(s, i, depth, code);
    } else {
      EscapedMoves(s, i, depth, code);
    }
    assert g(i, depth, code) == EndFrom(s, i, StateAfter(depth, code));
    assert g(i + 1, depth, next) == EndFrom(s, i + 1, StateAfter(depth, next));
  }

  lemma MarkTo(g: (nat, int, Signs) -> int, s: string, i: nat, depth: int, code: Signs, next: Signs)
    requires ReadsAfter(g, s) && i < |s| && LexicalAt(s, i, code).Ordinary?
    requires !IsJSSpace(s[i]) && !OddEscapes(s, i) && next == code + [Mark(s[i])]
    ensures EscapeSeen(s, i + 1, next) && CodeOnly(s, i, code) == [s[i]] + CodeOnly(s, i + 1, next)
    ensures g(i, depth, code)
         == if s[i] == '}' && depth == 1 then i + 1 else g(i + 1, Deeper(s[i], depth), next)
  {
    MarkMoves(s, i, depth, code);
    assert g(i, depth, code) == EndFrom(s, i, StateAfter(depth, code));
    assert g(i + 1, Deeper(s[i], depth), next) == EndFrom(s, i + 1, StateAfter(Deeper(s[i], depth), next));
  }

  /** For every text and every unescaped place in it: the group ends where the plain depth
      counter ends on the code of the text. */
  lemma GroupEndIsPlain(s: string, idx: nat)
    requires idx <= |s| && !OddEscapes(s, idx)
    ensures GroupEnd(s, idx) == Shift(PlainEnd(CodeOnly(s, idx, []), 0), idx)
  {
    var g := (i: nat, depth: int, code: Signs) => if i <= |s| then EndFrom(s, i, StateAfter(depth, code)) else 0;
    EndIsPlain(g, s, idx, 0, []);
    assert g(idx, 0, []) == EndFrom(s, idx, StateAfter(0, []));
  }
}
