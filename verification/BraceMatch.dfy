/** The brace checks of pkg/configdef/validate.go: a matcher for {{...}} groups that knows
    JavaScript strings, comments and regular expressions, and the check for braces that
    break MDX. `Punct` is the value of jsPunct, what the matcher remembers of the code
    before the place it looks at. */
module BraceMatch {

  import opened InlineCode
  import opened Sequences

  const NONE: char := 0 as char

  // ---------------------------------------------------------------- characters and words

  predicate IsIdentChar(c: char, continued: bool) {
    c == '_' || c == '$' || 'A' <= c <= 'Z' || 'a' <= c <= 'z' || (continued && '0' <= c <= '9')
  }

  predicate IsJSSpace(c: char) {
    c == ' ' || c == '\t' || c == '\n' || c == '\r'
  }

  predicate IsQuote(c: char) {
    c == '"' || c == '\'' || c == '`'
  }

  predicate IsRegexFlag(c: char) {
    c in {'d', 'g', 'i', 'm', 's', 'u', 'v', 'y'}
  }

  predicate IsRegexKeyword(word: string) {
    word in {"return", "throw", "case", "else", "do", "typeof", "delete", "void", "new", "yield", "await",
             "in", "instanceof"}
  }

  predicate IsControlKeyword(word: string) {
    word in {"if", "while", "for", "with"}
  }

  predicate RegexMayFollow(prev: char) {
    prev in {NONE, '(', '[', '{', ',', '=', ':', ';', '!', '&', '|', '?', '+', '-', '*', '%', '^', '~', '<', '>'}
  }

  // ---------------------------------------------------------------- what the matcher remembers

  datatype Punct = Punct(
    prev: char,
    before: char,
    ident: string,
    parenDepth: nat,
    keyword: bool,
    member: bool,
    control: bool,
    afterCtrl: bool,
    forCtrl: bool,
    forParen: bool)

  function Fresh(): Punct {
    Punct(NONE, NONE, "", 0, false, false, false, false, false, false)
  }

  function FinishIdent(p: Punct): Punct {
    if p.ident == "" then p
    else
      var ofInFor := p.ident == "of" && p.forParen && p.parenDepth > 0;
      p.(keyword := !p.member && (IsRegexKeyword(p.ident) || ofInFor),
         control := !p.member && IsControlKeyword(p.ident),
         forCtrl := !p.member && p.ident == "for",
         ident := "", member := false)
  }

  function SawPunct(p: Punct, c: char, adjacent: bool): Punct {
    p.(before := if adjacent then p.prev else NONE, prev := c)
  }

  function TrackControl(p: Punct, c: char): Punct {
    if c == '(' then
      var opens := p.control && p.parenDepth == 0;
      p.(parenDepth := if opens then 1 else if p.parenDepth > 0 then p.parenDepth + 1 else 0,
         forParen := if opens then p.forCtrl else p.forParen,
         control := false, forCtrl := false, afterCtrl := false)
    else if c == ')' then
      if p.parenDepth == 0 then p.(afterCtrl := false)
      else if p.parenDepth == 1 then p.(parenDepth := 0, afterCtrl := true, forParen := false)
      else p.(parenDepth := p.parenDepth - 1)
    else p.(control := false, forCtrl := false, afterCtrl := false)
  }

  function Saw(p: Punct, c: char, adjacent: bool): Punct {
    if IsIdentChar(c, p.ident != "") then
      var first := p.ident == "";
      SawPunct(p.(member := if first then p.prev == '.' else p.member,
                  afterCtrl := !first && p.afterCtrl,
                  ident := p.ident + [c]), c, adjacent)
    else SawPunct(TrackControl(FinishIdent(p).(keyword := false), c), c, adjacent)
  }

  predicate CanStartRegex(p: Punct) {
    || p.keyword || p.afterCtrl
    || (!(p.prev == '+' && p.before == '+') && !(p.prev == '-' && p.before == '-') && RegexMayFollow(p.prev))
  }

  /** After a string or a regular expression that ends with `last`. */
  function AfterLiteral(p: Punct, last: char): Punct {
    p.(ident := "", keyword := false, member := false, control := false, afterCtrl := false,
       prev := last, before := NONE)
  }

  predicate CommentAt(content: string, start: nat)
    requires start < |content|
  {
    content[start] == '/' && start + 1 < |content| && (content[start + 1] == '/' || content[start + 1] == '*')
  }

  function AfterLexical(p: Punct, content: string, start: nat, end: nat): Punct
    requires start < end <= |content|
  {
    if CommentAt(content, start) then p else AfterLiteral(p, content[end - 1])
  }

  // ---------------------------------------------------------------- strings, comments, regular expressions

  /** The first place at or after `from` where s continues with pat, -1 when there is none. */
  function IndexFrom(s: string, from: nat, pat: string): (i: int)
    requires from <= |s|
    ensures i == -1 || (from <= i && i + |pat| <= |s| && s[i..i + |pat|] == pat)
    decreases |s| - from
  {
    if from + |pat| > |s| then -1
    else if s[from..from + |pat|] == pat then from
    else if from == |s| then -1
    else IndexFrom(s, from + 1, pat)
  }

  /** Just after the quote that ends a string whose text goes on at position i. */
  function StringEnd(content: string, i: nat, quote: char): (end: int)
    requires i <= |content|
    ensures end == -1 || i < end <= |content|
    decreases |content| - i
  {
    if i == |content| then -1
    else if content[i] == quote && !OddEscapes(content, i) then i + 1
    else StringEnd(content, i + 1, quote)
  }

  function FlagsEnd(content: string, i: nat): (end: nat)
    requires i <= |content|
    ensures i <= end <= |content|
    decreases |content| - i
  {
    if i < |content| && IsRegexFlag(content[i]) then FlagsEnd(content, i + 1) else i
  }

  function RegexEnd(content: string, i: nat, inClass: bool): (end: int)
    requires i <= |content|
    ensures end == -1 || i < end <= |content|
    decreases |content| - i
  {
    if i == |content| || content[i] == '\n' then -1
    else if OddEscapes(content, i) then RegexEnd(content, i + 1, inClass)
    else if inClass then RegexEnd(content, i + 1, content[i] != ']')
    else if content[i] == '[' then RegexEnd(content, i + 1, true)
    else if content[i] == '/' then FlagsEnd(content, i + 1)
    else RegexEnd(content, i + 1, false)
  }

  function LineCommentEnd(content: string, pos: nat): (end: nat)
    requires pos + 1 < |content| && content[pos] == '/' && content[pos + 1] == '/'
    ensures pos < end <= |content|
  {
    var newline := IndexFrom(content, pos, "\n");
    if newline < 0 then |content| else newline
  }

  function BlockCommentEnd(content: string, pos: nat): (end: nat)
    requires pos + 1 < |content|
    ensures pos < end <= |content|
  {
    var close := IndexFrom(content, pos + 2, "*/");
    if close < 0 then |content| else close + 2
  }

  /** What starts at a position: nothing special, or text that is passed over. */
  datatype Lexical = Ordinary | Unterminated | PassedOver(end: nat)

  function Until(end: int): Lexical {
    if end < 0 then Unterminated else PassedOver(end)
  }

  function SkipLexical(content: string, pos: nat, startRegex: bool): (lex: Lexical)
    requires pos < |content|
    ensures lex.PassedOver? ==> pos < lex.end <= |content|
  {
    if IsQuote(content[pos]) then Until(StringEnd(content, pos + 1, content[pos]))
    else if content[pos] != '/' || pos + 1 == |content| then Ordinary
    else if content[pos + 1] == '/' then PassedOver(LineCommentEnd(content, pos))
    else if content[pos + 1] == '*' then PassedOver(BlockCommentEnd(content, pos))
    else if startRegex then Until(RegexEnd(content, pos + 1, false))
    else Ordinary
  }

  // ---------------------------------------------------------------- the matcher

  datatype State = State(depth: int, punct: Punct, adjacent: bool)

  /** What the matcher does at a position: give up, return, look at a character as code, or
      pass over text that cannot hold a brace of the group. */
  datatype Move = GiveUp | Return | Look(st: State) | Skip(next: nat, st: State)

  function Brace(c: char, st: State): Move {
    if c == '{' then Look(State(st.depth + 1, Saw(st.punct, c, st.adjacent), true))
    else if c == '}' then
      if st.depth - 1 == 0 then Return else Look(State(st.depth - 1, Saw(st.punct, c, st.adjacent), true))
    else Look(State(st.depth, Saw(st.punct, c, st.adjacent), true))
  }

  function MoveAt(content: string, pos: nat, st: State): (m: Move)
    requires pos < |content|
    ensures m.Skip? ==> pos < m.next <= |content| && m.st.depth == st.depth
    ensures m.Return? ==> content[pos] == '}' && st.depth == 1 && !OddEscapes(content, pos)
    ensures m.Look? ==> m.st.depth == Deeper(content[pos], st.depth) && !(content[pos] == '}' && st.depth == 1)
  {
    var c := content[pos];
    var punct := if IsIdentChar(c, st.punct.ident != "") then st.punct else FinishIdent(st.punct);
    match SkipLexical(content, pos, CanStartRegex(punct))
    case Unterminated => GiveUp
    case PassedOver(end) => Skip(end, State(st.depth, AfterLexical(punct, content, pos, end), false))
    case Ordinary =>
      if IsJSSpace(c) then Skip(pos + 1, State(st.depth, FinishIdent(punct), false))
      else if OddEscapes(content, pos) then Skip(pos + 1, st.(punct := punct))
      else Brace(c, st.(punct := punct))
  }

  /** The place just after the brace that brings the depth to 0, -1 when there is none. */
  function EndFrom(content: string, pos: nat, st: State): int
    requires pos <= |content|
    decreases |content| - pos
  {
    if pos == |content| then -1
    else
      match MoveAt(content, pos, st)
      case GiveUp => -1
      case Return => pos + 1
      case Look(next) => EndFrom(content, pos + 1, next)
      case Skip(end, next) => EndFrom(content, end, next)
  }

  function GroupEnd(content: string, idx: nat): int
    requires idx <= |content|
  {
    EndFrom(content, idx, State(0, Fresh(), false))
  }

  // ---------------------------------------------------------------- a plain depth counter

  function Deeper(c: char, depth: int): int {
    if c == '{' then depth + 1 else if c == '}' then depth - 1 else depth
  }

  /** How many characters of s bring the depth to 0 with a closing brace, -1 when none do. */
  function PlainEnd(s: string, depth: int): (n: int)
    ensures n == -1 || (0 < n <= |s| && s[n - 1] == '}')
  {
    if s == "" then -1
    else if s[0] == '}' && depth == 1 then 1
    else
      var rest := PlainEnd(s[1..], Deeper(s[0], depth));
      if rest < 0 then -1 else 1 + rest
  }

  function Spaces(n: nat): string {
    seq(n, _ => ' ')
  }

  function Shift(n: int, offset: nat): int {
    if n < 0 then -1 else n + offset
  }

  lemma {:induction false} PlainEndSpaces(n: nat, s: string, depth: int)
    ensures PlainEnd(Spaces(n) + s, depth) == Shift(PlainEnd(s, depth), n)
  {
    if n == 0 {
      assert Spaces(0) + s == s;
    } else {
      PlainEndSpaces(n - 1, s, depth);
      assert (Spaces(n) + s)[1..] == Spaces(n - 1) + s;
    }
  }

  lemma PlainEndCons(c: char, s: string, depth: int)
    ensures PlainEnd([c] + s, depth)
         == if c == '}' && depth == 1 then 1 else Shift(PlainEnd(s, Deeper(c, depth)), 1)
  {
    assert ([c] + s)[1..] == s;
  }

  lemma NoEnd(n: nat, depth: int)
    ensures PlainEnd(Spaces(n), depth) == -1
  {
    PlainEndSpaces(n, "", depth);
    assert Spaces(n) + "" == Spaces(n);
  }

  /** f is the matcher on s. Lemmas that speak of f keep the matcher's own definition out of
      their proofs. */
  ghost predicate Reads(f: (nat, State) -> int, s: string) {
    forall i: nat, st: State {:trigger EndFrom(s, i, st)} :: i <= |s| ==> f(i, st) == EndFrom(s, i, st)
  }

  function Matcher(s: string): (nat, State) -> int {
    (i: nat, st: State) => if i <= |s| then EndFrom(s, i, st) else 0
  }

  lemma NoneAtEnd(f: (nat, State) -> int, s: string, st: State)
    requires Reads(f, s)
    ensures f(|s|, st) == -1
  {
    assert f(|s|, st) == EndFrom(s, |s|, st);
  }

  lemma MoveShape(f: (nat, State) -> int, s: string, i: nat, st: State) returns (j: nat, next: State)
    requires Reads(f, s) && i < |s|
    ensures i < j <= |s|
    ensures f(i, st) == -1 || f(i, st) == f(j, next) || (f(i, st) == i + 1 && s[i] == '}' && !OddEscapes(s, i))
  {
    var move := MoveAt(s, i, st);
    next := if move.Look? || move.Skip? then move.st else st;
    j := if move.Skip? then move.next else i + 1;
    assert f(i, st) == EndFrom(s, i, st);
    assert move.Look? || move.Skip? ==> f(j, next) == EndFrom(s, j, next);
  }

  lemma {:induction false} ShapeReads(f: (nat, State) -> int, s: string, i: nat, st: State)
    requires Reads(f, s) && i <= |s|
    ensures var r := f(i, st); r == -1 || (i < r <= |s| && s[r - 1] == '}' && !OddEscapes(s, r - 1))
    decreases |s| - i
  {
    if i == |s| {
      NoneAtEnd(f, s, st);
    } else {
      var j, next := MoveShape(f, s, i, st);
      ShapeReads(f, s, j, next);
    }
  }

  /** The matcher makes progress and stops just after an unescaped closing brace. */
  lemma EndShape(content: string, pos: nat, st: State)
    requires pos <= |content|
    ensures var r := EndFrom(content, pos, st);
            r == -1 || (pos < r <= |content| && content[r - 1] == '}' && !OddEscapes(content, r - 1))
  {
    var f := Matcher(content);
    assert Reads(f, content);
    ShapeReads(f, content, pos, st);
    assert f(pos, st) == EndFrom(content, pos, st);
  }

  /** A character that starts no string, comment or regular expression and escapes nothing. */
  predicate IsPlain(c: char) {
    !IsQuote(c) && c != '/' && c != '\\'
  }

  predicate AllPlain(s: string) {
    forall c :: c in s ==> IsPlain(c)
  }

  lemma PlainMove(f: (nat, State) -> int, s: string, i: nat, st: State) returns (next: State)
    requires Reads(f, s) && i < |s| && IsPlain(s[i]) && !OddEscapes(s, i)
    ensures s[i] == '}' && st.depth == 1 ==> f(i, st) == i + 1
    ensures !(s[i] == '}' && st.depth == 1) ==> f(i, st) == f(i + 1, next) && next.depth == Deeper(s[i], st.depth)
  {
    var move := MoveAt(s, i, st);
    next := if move.Look? || move.Skip? then move.st else st;
    assert f(i, st) == EndFrom(s, i, st);
    assert move.Look? || move.Skip? ==> f(i + 1, next) == EndFrom(s, i + 1, next);
  }

  lemma {:induction false} PlainReads(f: (nat, State) -> int, s: string, i: nat, st: State)
    requires Reads(f, s) && i <= |s| && AllPlain(s) && f(|s|, st) == -1
    ensures f(i, st) == Shift(PlainEnd(s[i..], st.depth), i)
    decreases |s| - i
  {
    if i < |s| {
      assert s[i] in s && (i > 0 ==> s[i - 1] in s);
      assert s[i..] == [s[i]] + s[i + 1..];
      PlainEndCons(s[i], s[i + 1..], st.depth);
      var next := PlainMove(f, s, i, st);
      NoneAtEnd(f, s, next);
      PlainReads(f, s, i + 1, next);
    }
  }

  /** Without quotes, slashes and backslashes the matcher is the plain counter. */
  lemma PlainGroupEnd(content: string, pos: nat, st: State)
    requires pos <= |content| && AllPlain(content)
    ensures EndFrom(content, pos, st) == Shift(PlainEnd(content[pos..], st.depth), pos)
  {
    var f := Matcher(content);
    assert Reads(f, content);
    NoneAtEnd(f, content, st);
    PlainReads(f, content, pos, st);
    assert f(pos, st) == EndFrom(content, pos, st);
  }

  // ---------------------------------------------------------------- braces that break MDX

  /** What starts at a position of a line: a complete span to leave out, a comment that
      does not end, or one character. */
  datatype Span = Removed(end: nat) | OpenComment | Single

  function SpanAt(line: string, idx: nat): (span: Span)
    requires idx < |line|
    ensures span.Removed? ==> idx < span.end <= |line|
  {
    if "{/*" <= line[idx..] && !OddEscapes(line, idx) then
      var close := IndexFrom(line, idx, "*/}");
      if close < 0 then OpenComment else Removed(close + 3)
    else if "{{" <= line[idx..] && !OddEscapes(line, idx) then
      EndShape(line, idx, State(0, Fresh(), false));
      if GroupEnd(line, idx) < 0 then Single else Removed(GroupEnd(line, idx))
    else Single
  }

  /** The line from idx on without its complete spans. */
  function StripFrom(line: string, idx: nat): string
    requires idx <= |line|
    decreases |line| - idx
  {
    if idx == |line| then ""
    else
      match SpanAt(line, idx)
      case Removed(end) => StripFrom(line, end)
      case OpenComment => line[idx..]
      case Single => [line[idx]] + StripFrom(line, idx + 1)
  }

  predicate BreaksAt(s: string, i: nat)
    requires i < |s|
  {
    (s[i] == '{' || s[i] == '}') && !OddEscapes(s, i)
  }

  /** An unescaped brace at position i or later. */
  predicate BreaksFrom(s: string, i: nat)
    requires i <= |s|
    decreases |s| - i
  {
    i < |s| && (BreaksAt(s, i) || BreaksFrom(s, i + 1))
  }

  predicate HasUnescapedBrace(line: string) {
    BreaksFrom(StripFrom(line, 0), 0)
  }

  /** Read in one pass over the line itself: an unescaped brace outside every complete span. */
  predicate BreaksOutside(line: string, idx: nat)
    requires idx <= |line|
    decreases |line| - idx
  {
    idx < |line| &&
    match SpanAt(line, idx)
    case Removed(end) => BreaksOutside(line, end)
    case OpenComment => BreaksFrom(line, idx)
    case Single => BreaksAt(line, idx) || BreaksOutside(line, idx + 1)
  }

  lemma {:induction false} BreaksFromShift(a: string, i: nat, b: string, j: nat)
    requires i <= |a| && j <= |b| && a[i..] == b[j..] && OddEscapes(a, i) == OddEscapes(b, j)
    ensures BreaksFrom(a, i) == BreaksFrom(b, j)
    decreases |a| - i
  {
    if i < |a| {
      assert a[i] == a[i..][0] == b[j..][0] == b[j];
      assert a[i + 1..] == a[i..][1..] == b[j..][1..] == b[j + 1..];
      BreaksFromShift(a, i + 1, b, j + 1);
    }
  }

  lemma LastOfThree(s: string, i: nat, pat: string)
    requires i + 3 <= |s| && |pat| == 3 && s[i..i + 3] == pat
    ensures s[i + 2] == pat[2]
  {
    assert s[i..i + 3][2] == s[i + 2];
  }

  lemma RemovedUnescaped(line: string, idx: nat)
    requires idx < |line| && SpanAt(line, idx).Removed?
    ensures !OddEscapes(line, idx) && !OddEscapes(line, SpanAt(line, idx).end)
  {
    EndShape(line, idx, State(0, Fresh(), false));
    var end := SpanAt(line, idx).end;
    if "{/*" <= line[idx..] {
      LastOfThree(line, end - 3, "*/}");
    }
  }

  /** `out` is written, and line is still to be stripped from idx on. */
  lemma {:induction false} StripThenLook(out: string, line: string, idx: nat)
    requires idx <= |line| && OddEscapes(out, |out|) == OddEscapes(line, idx)
    ensures BreaksFrom(out + StripFrom(line, idx), |out|) == BreaksOutside(line, idx)
    decreases |line| - idx
  {
    var all := out + StripFrom(line, idx);
    if idx < |line| {
      match SpanAt(line, idx) {
        case Removed(end) =>
          RemovedUnescaped(line, idx);
          StripThenLook(out, line, end);
        case OpenComment =>
          OddEscapesPrefix(out, line[idx..], |out|);
          assert all[|out|..] == line[idx..];
          BreaksFromShift(all, |out|, line, idx);
        case Single =>
          var more := StripFrom(line, idx + 1);
          Reassociate(out, [line[idx]], more);
          OddEscapesPrefix(out, [line[idx]], |out|);
          OddEscapesPrefix(out, [line[idx]] + more, |out|);
          StripThenLook(out + [line[idx]], line, idx + 1);
      }
    }
  }

  /** Leaving spans out first changes no escape: for every line the check answers whether
      the line itself has an unescaped brace outside its complete spans. */
  lemma CheckReadsTheLine(line: string)
    ensures HasUnescapedBrace(line) == BreaksOutside(line, 0)
  {
    StripThenLook("", line, 0);
    assert "" + StripFrom(line, 0) == StripFrom(line, 0);
  }

  lemma FirstThree(s: string, pat: string)
    requires |pat| == 3
    ensures pat <= s <==> |s| >= 3 && s[0] == pat[0] && s[1] == pat[1] && s[2] == pat[2]
  {
  }

  /** When the removed span of a comment is a comment: its two marks overlap exactly when
      the line goes on with an opening mark whose star also closes it. */
  lemma CommentComplete(line: string, idx: nat)
    requires idx < |line| && "{/*" <= line[idx..] && SpanAt(line, idx).Removed?
    ensures SpanAt(line, idx).end - idx >= 6 <==> !("{/*/}" <= line[idx..])
    ensures "{/*/}" <= line[idx..] <==> SpanAt(line, idx) == Removed(idx + 5)
  {
    var rest := line[idx..];
    var close := IndexFrom(line, idx, "*/}");
    FirstThree(rest, "{/*");
    assert line[close..close + 3][0] == line[close] && line[close..close + 3][1] == line[close + 1];
    assert line[close..close + 3][2] == line[close + 2];
    assert rest[0] == line[idx] && rest[1] == line[idx + 1] && rest[2] == line[idx + 2];
    assert close >= idx + 2;
    if close == idx + 2 {
      assert rest[3] == line[idx + 3] && rest[4] == line[idx + 4];
    } else if "{/*/}" <= rest {
      assert line[idx + 3] == rest[3] == '/' && line[idx + 4] == rest[4] == '}';
      FirstAt(line, idx, idx + 2, "*/}");
      assert false;
    }
  }

  lemma {:induction false} FirstAt(s: string, from: nat, at: nat, pat: string)
    requires from <= at && at + |pat| <= |s| && s[at..at + |pat|] == pat
    ensures from <= IndexFrom(s, from, pat) <= at
    decreases at - from
  {
    if from < at && s[from..from + |pat|] != pat {
      FirstAt(s, from + 1, at, pat);
    }
  }

  /** Such a line: it is accepted although its comment is not complete. */
  lemma OverlappingComment()
    ensures !HasUnescapedBrace("{/*/}")
  {
    var line := "{/*/}";
    assert line[..3] == "{/*" && line[0..] == line;
    FirstAt(line, 0, 2, "*/}");
    CommentComplete(line, 0);
    assert SpanAt(line, 0) == Removed(5);
    CheckReadsTheLine(line);
  }
}
