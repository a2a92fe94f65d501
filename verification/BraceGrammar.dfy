/** Which lines the brace check of pkg/configdef/validate.go accepts, said as a grammar:
    text without braces, escaped characters, complete comments, and {{...}} groups that
    hold nested groups, string literals, block comments, regular expressions and divisions.
    Which of the last two a slash is depends on the signs before it. */
module BraceGrammar {

  import opened BraceMatch
  import opened InlineCode
  import opened JsLiterals
  import opened RegexPlaces
  import opened Sequences

  /** The inside of a brace group. */
  datatype Items =
    | Nil
    | Code(c: char, rest: Items)
    | Str(quote: char, body: Body, rest: Items)
    | Note(text: string, rest: Items)
    | Group(inner: Items, rest: Items)
    | Regex(pattern: Pattern, flags: string, rest: Items)
    | Divide(rest: Items)

  datatype Line =
    | Done
    | Plain(c: char, rest: Line)
    | Escaped(c: char, rest: Line)
    | Comment(text: string, rest: Line)
    | Braced(first: Items, inner: Items, rest: Line)

  function ItemsText(items: Items): string {
    match items
    case Nil => ""
    case Code(c, rest) => [c] + ItemsText(rest)
    case Str(quote, body, rest) => ([quote] + BodyText(body) + [quote]) + ItemsText(rest)
    case Note(text, rest) => ("/*" + text + "*/") + ItemsText(rest)
    case Group(inner, rest) => ("{" + ItemsText(inner) + "}") + ItemsText(rest)
    case Regex(pattern, flags, rest) => ("/" + RegexText(pattern, flags)) + ItemsText(rest)
    case Divide(rest) => "/" + ItemsText(rest)
  }

  function SignOf(c: char): Sign {
    if IsJSSpace(c) then Blank else Mark(c)
  }

  /** What the pieces are to a slash after them. */
  function SignsOf(items: Items): Signs {
    match items
    case Nil => []
    case Code(c, rest) => [SignOf(c)] + SignsOf(rest)
    case Str(quote, _, rest) => [Literal(quote)] + SignsOf(rest)
    case Note(_, rest) => [Blank] + SignsOf(rest)
    case Group(inner, rest) => ([Mark('{')] + SignsOf(inner) + [Mark('}')]) + SignsOf(rest)
    case Regex(_, flags, rest) => [Literal(LastChar(flags))] + SignsOf(rest)
    case Divide(rest) => [Mark('/')] + SignsOf(rest)
  }

  function LastChar(flags: string): char {
    if flags == "" then '/' else flags[|flags| - 1]
  }

  function LineText(line: Line): string {
    match line
    case Done => ""
    case Plain(c, rest) => [c] + LineText(rest)
    case Escaped(c, rest) => ['\\', c] + LineText(rest)
    case Comment(text, rest) => ("{/*" + text + "*/}") + LineText(rest)
    case Braced(first, inner, rest) => ("{" + ItemsText(Group(first, inner)) + "}") + LineText(rest)
  }

  /** The character after a piece: that of the next one, or the brace that ends the group. */
  function NextChar(rest: Items): char {
    if ItemsText(rest) == "" then '}' else ItemsText(rest)[0]
  }

  predicate RegexHere(pattern: Pattern, flags: string, code: Signs, next: char) {
    && LiteralMayStart(code, |code|) && LegalPattern(pattern) && AllFlags(flags)
    && PatternText(pattern) != "" && PatternText(pattern)[0] != '*' && !IsRegexFlag(next)
  }

  predicate DivideHere(code: Signs, next: char) {
    !LiteralMayStart(code, |code|) && next != '/' && next != '*'
  }

  /** The pieces are legal after `code`. */
  predicate LegalItems(items: Items, code: Signs) {
    match items
    case Nil => true
    case Code(c, rest) => IsPlain(c) && c != '{' && c != '}' && LegalItems(rest, code + [SignOf(c)])
    case Str(quote, body, rest) => IsQuote(quote) && LegalBody(body, quote) && LegalItems(rest, code + [Literal(quote)])
    case Note(text, rest) => EndsFirst("/*" + text + "*/", 2, "*/") && LegalItems(rest, code + [Blank])
    case Group(inner, rest) =>
      && LegalItems(inner, code + [Mark('{')])
      && LegalItems(rest, ((code + [Mark('{')]) + SignsOf(inner)) + [Mark('}')])
    case Regex(pattern, flags, rest) =>
      && RegexHere(pattern, flags, code, NextChar(rest))
      && LegalItems(rest, code + [Literal(LastChar(flags))])
    case Divide(rest) => DivideHere(code, NextChar(rest)) && LegalItems(rest, code + [Mark('/')])
  }

  /** The pieces are legal inside the braces of a group. */
  predicate LegalGroup(items: Items) {
    LegalItems(items, [Mark('{')])
  }

  predicate LegalLine(line: Line) {
    match line
    case Done => true
    case Plain(c, rest) => c != '{' && c != '}' && c != '\\' && LegalLine(rest)
    case Escaped(_, rest) => LegalLine(rest)
    case Comment(text, rest) => EndsFirst("{/*" + text + "*/}", 0, "*/}") && LegalLine(rest)
    case Braced(first, inner, rest) => LegalGroup(Group(first, inner)) && LegalLine(rest)
  }

  // ---------------------------------------------------------------- what the matcher makes of the pieces

  /** The matcher after `code`, at some depth. */
  function StateAfter(depth: int, code: Signs): State {
    var seen := After(code, |code|);
    State(depth, seen.punct, seen.adjacent)
  }

  lemma AfterPrefix(code: Signs, more: Signs, n: nat)
    requires n <= |code|
    ensures After(code + more, n) == After(code, n)
  {
    ghost var same := (i: nat, seen: Seen) => i <= |code| ==> seen == After(code, i);
    assert After(code, 0) == Seen(Fresh(), false);
    forall i: nat, seen | i < |code + more| && same(i, seen) ensures same(i + 1, Next(seen, (code + more)[i])) {
      if i < |code| {
        AfterNext(code, i);
      }
    }
    AtEveryPlace(code + more, n, same);
  }

  lemma AfterNext(code: Signs, i: nat)
    requires i < |code|
    ensures After(code, i + 1) == Next(After(code, i), code[i])
  {
  }

  function NextState(st: State, depth: int, sign: Sign): State {
    var seen := Next(Seen(st.punct, st.adjacent), sign);
    State(depth, seen.punct, seen.adjacent)
  }

  lemma StateNext(depth: int, code: Signs, deeper: int, sign: Sign)
    ensures StateAfter(deeper, code + [sign]) == NextState(StateAfter(depth, code), deeper, sign)
  {
    AfterPrefix(code, [sign], |code|);
  }

  /** g is the matcher on s, after some code. The lemmas below speak of g, so that the
      matcher and what it remembers stay out of their proofs. */
  ghost predicate ReadsAfter(g: (nat, int, Signs) -> int, s: string) {
    forall i: nat, depth, code {:trigger EndFrom(s, i, StateAfter(depth, code))} ::
      i <= |s| ==> g(i, depth, code) == EndFrom(s, i, StateAfter(depth, code))
  }

  /** The matcher goes from i to j, where the sign has been added and the depth changed. */
  lemma Moves(g: (nat, int, Signs) -> int, s: string, i: nat, depth: int, code: Signs, j: nat, deeper: int, sign: Sign)
    requires ReadsAfter(g, s) && i < j <= |s|
    requires var st := StateAfter(depth, code);
             var next := NextState(st, deeper, sign);
             MoveAt(s, i, st) == Skip(j, next) || (j == i + 1 && MoveAt(s, i, st) == Look(next))
    ensures g(i, depth, code) == g(j, deeper, code + [sign])
  {
    StateNext(depth, code, deeper, sign);
    assert g(i, depth, code) == EndFrom(s, i, StateAfter(depth, code));
    assert g(j, deeper, code + [sign]) == EndFrom(s, j, StateAfter(deeper, code + [sign]));
  }

  lemma SawFinished(p: Punct, c: char, adjacent: bool)
    requires !IsIdentChar(c, p.ident != "")
    ensures Saw(FinishIdent(p), c, adjacent) == Saw(p, c, adjacent)
  {
    FinishTwice(p);
    FinishKeeps(p);
  }

  /** A character that starts no literal or comment and is not escaped. */
  lemma CharMoves(s: string, i: nat, st: State)
    requires i < |s| && !OddEscapes(s, i) && !(s[i] == '}' && st.depth == 1)
    requires IsPlain(s[i]) || (s[i] == '/' && i + 1 < |s| && s[i + 1] != '/' && s[i + 1] != '*'
                               && !CanStartRegex(FinishIdent(st.punct)))
    ensures var next := NextState(st, Deeper(s[i], st.depth), SignOf(s[i]));
            MoveAt(s, i, st) == if IsJSSpace(s[i]) then Skip(i + 1, next) else Look(next)
  {
    FinishTwice(st.punct);
    if !IsIdentChar(s[i], st.punct.ident != "") {
      SawFinished(st.punct, s[i], st.adjacent);
    }
  }

  lemma PassedOverMoves(s: string, i: nat, st: State, j: nat)
    requires i < |s| && (IsQuote(s[i]) || s[i] == '/')
    requires SkipLexical(s, i, CanStartRegex(FinishIdent(st.punct))) == PassedOver(j)
    ensures i < j <= |s|
    ensures MoveAt(s, i, st) == Skip(j, NextState(st, st.depth, if CommentAt(s, i) then Blank else Literal(s[j - 1])))
  {
  }

  lemma CodePasses(g: (nat, int, Signs) -> int, s: string, i: nat, c: char, depth: int, code: Signs)
    requires ReadsAfter(g, s) && Holds(s, i, [c]) && !OddEscapes(s, i) && IsPlain(c) && c != '{' && c != '}'
    ensures g(i, depth, code) == g(i + 1, depth, code + [SignOf(c)]) && !OddEscapes(s, i + 1)
  {
    HoldsChar(s, i, c);
    CharMoves(s, i, StateAfter(depth, code));
    Moves(g, s, i, depth, code, i + 1, depth, SignOf(c));
  }

  lemma BracePasses(g: (nat, int, Signs) -> int, s: string, i: nat, c: char, depth: int, code: Signs)
    requires ReadsAfter(g, s) && Holds(s, i, [c]) && !OddEscapes(s, i) && (c == '{' || (c == '}' && depth != 1))
    ensures g(i, depth, code) == g(i + 1, Deeper(c, depth), code + [Mark(c)]) && !OddEscapes(s, i + 1)
  {
    HoldsChar(s, i, c);
    CharMoves(s, i, StateAfter(depth, code));
    Moves(g, s, i, depth, code, i + 1, Deeper(c, depth), Mark(c));
  }

  /** A slash where no regular expression may start. */
  lemma DividePasses(g: (nat, int, Signs) -> int, s: string, i: nat, depth: int, code: Signs)
    requires ReadsAfter(g, s) && Holds(s, i, "/") && !OddEscapes(s, i) && i + 1 < |s| && DivideHere(code, s[i + 1])
    ensures g(i, depth, code) == g(i + 1, depth, code + [Mark('/')]) && !OddEscapes(s, i + 1)
  {
    HoldsChar(s, i, '/');
    StartsExactly(code, |code|);
    CharMoves(s, i, StateAfter(depth, code));
    Moves(g, s, i, depth, code, i + 1, depth, Mark('/'));
  }

  /** Text that is passed over whatever may start here. */
  lemma PassesOver(g: (nat, int, Signs) -> int, s: string, i: nat, depth: int, code: Signs, j: nat, sign: Sign)
    requires ReadsAfter(g, s) && i < j <= |s| && (IsQuote(s[i]) || s[i] == '/')
    requires SkipLexical(s, i, CanStartRegex(FinishIdent(After(code, |code|).punct))) == PassedOver(j)
    requires sign == if CommentAt(s, i) then Blank else Literal(s[j - 1])
    ensures g(i, depth, code) == g(j, depth, code + [sign])
  {
    PassedOverMoves(s, i, StateAfter(depth, code), j);
    Moves(g, s, i, depth, code, j, depth, sign);
  }

  lemma StringSkips(s: string, i: nat, quote: char, b: Body, j: nat, startRegex: bool)
    requires Holds(s, i, [quote] + BodyText(b) + [quote]) && j == i + |BodyText(b)| + 2
    requires IsQuote(quote) && LegalBody(b, quote) && !OddEscapes(s, i)
    ensures SkipLexical(s, i, startRegex) == PassedOver(j) && !OddEscapes(s, j) && s[i] == s[j - 1] == quote
  {
    Reassociate([quote], BodyText(b), [quote]);
    HoldsSplit(s, i, [quote], BodyText(b) + [quote]);
    HoldsSplit(s, i + 1, BodyText(b), [quote]);
    HoldsChar(s, i, quote);
    HoldsChar(s, j - 1, quote);
    BodyEnds(s, i + 1, b, quote);
  }

  lemma NoteSkips(s: string, i: nat, text: string, j: nat, startRegex: bool)
    requires Holds(s, i, "/*" + text + "*/") && j == i + |text| + 4
    requires EndsFirst("/*" + text + "*/", 2, "*/")
    ensures SkipLexical(s, i, startRegex) == PassedOver(j) && !OddEscapes(s, j) && s[i] == '/' && CommentAt(s, i)
  {
    var piece := "/*" + text + "*/";
    assert s[i] == piece[0] && s[i + 1] == piece[1] && s[j - 1] == piece[|text| + 3];
    IndexOfPiece(s, i, piece, 2, "*/");
  }

  lemma StringPasses(g: (nat, int, Signs) -> int, s: string, i: nat, quote: char, b: Body, depth: int,
                     code: Signs, j: nat)
    requires ReadsAfter(g, s) && Holds(s, i, [quote] + BodyText(b) + [quote]) && j == i + |BodyText(b)| + 2
    requires IsQuote(quote) && LegalBody(b, quote) && !OddEscapes(s, i)
    ensures g(i, depth, code) == g(j, depth, code + [Literal(quote)]) && !OddEscapes(s, j)
  {
    StringSkips(s, i, quote, b, j, CanStartRegex(FinishIdent(After(code, |code|).punct)));
    PassesOver(g, s, i, depth, code, j, Literal(quote));
  }

  lemma NotePasses(g: (nat, int, Signs) -> int, s: string, i: nat, text: string, depth: int, code: Signs, j: nat)
    requires ReadsAfter(g, s) && Holds(s, i, "/*" + text + "*/") && j == i + |text| + 4
    requires EndsFirst("/*" + text + "*/", 2, "*/")
    ensures g(i, depth, code) == g(j, depth, code + [Blank]) && !OddEscapes(s, j)
  {
    NoteSkips(s, i, text, j, CanStartRegex(FinishIdent(After(code, |code|).punct)));
    PassesOver(g, s, i, depth, code, j, Blank);
  }

  lemma LastOf(s: string, i: nat, p: Pattern, flags: string, j: nat)
    requires Holds(s, i, RegexText(p, flags)) && AllFlags(flags) && j == i + |RegexText(p, flags)|
    ensures j > 0 && s[j - 1] == LastChar(flags) && s[j - 1] != '\\'
  {
    HoldsSplit(s, i, PatternText(p) + "/", flags);
    if flags == "" {
      HoldsSplit(s, i, PatternText(p), "/");
      HoldsChar(s, j - 1, '/');
    } else {
      var k := j - |flags|;
      assert s[k..j][|flags| - 1] == s[j - 1] && LastChar(flags) in flags;
    }
  }

  lemma {:induction false} RegexSkips(s: string, i: nat, p: Pattern, flags: string, j: nat)
    requires Holds(s, i, "/" + RegexText(p, flags)) && LegalPattern(p) && AllFlags(flags) && !OddEscapes(s, i)
    requires j == i + 1 + |RegexText(p, flags)| < |s| && !IsRegexFlag(s[j])
    requires PatternText(p) != "" && PatternText(p)[0] != '*'
    ensures SkipLexical(s, i, true) == PassedOver(j) && !OddEscapes(s, j)
    ensures s[i] == '/' && !CommentAt(s, i) && s[j - 1] == LastChar(flags)
  {
    HoldsSplit(s, i, "/", RegexText(p, flags));
    HoldsChar(s, i, '/');
    assert SpellsRegex(s, i + 1, p, flags, j);
    RegexEnds(s, i + 1, p, flags, j);
    LastOf(s, i + 1, p, flags, j);
    FirstOfPattern(s, i + 1, p, flags);
  }

  lemma FirstOfPattern(s: string, i: nat, p: Pattern, flags: string)
    requires Holds(s, i, RegexText(p, flags)) && LegalPattern(p) && PatternText(p) != ""
    ensures s[i] == PatternText(p)[0] != '/'
  {
    HoldsSplit(s, i, PatternText(p) + "/", flags);
    HoldsSplit(s, i, PatternText(p), "/");
    assert s[i..i + |PatternText(p)|][0] == s[i];
  }

  lemma RegexPasses(g: (nat, int, Signs) -> int, s: string, i: nat, p: Pattern, flags: string, depth: int,
                    code: Signs, j: nat)
    requires ReadsAfter(g, s) && Holds(s, i, "/" + RegexText(p, flags)) && !OddEscapes(s, i)
    requires j == i + 1 + |RegexText(p, flags)| < |s| && RegexHere(p, flags, code, s[j])
    ensures g(i, depth, code) == g(j, depth, code + [Literal(LastChar(flags))]) && !OddEscapes(s, j)
  {
    RegexSkips(s, i, p, flags, j);
    StartsExactly(code, |code|);
    PassesOver(g, s, i, depth, code, j, Literal(LastChar(flags)));
  }

  lemma HoldsGroup(s: string, i: nat, inner: string)
    requires Holds(s, i, "{" + inner + "}")
    ensures Holds(s, i, "{") && Holds(s, i + 1, inner + "}") && Holds(s, i + 1 + |inner|, "}")
  {
    HoldsSplit(s, i, "{" + inner, "}");
    Reassociate("{", inner, "}");
    HoldsSplit(s, i, "{", inner + "}");
  }

  /** The first piece of some items, as text, and the code after it. */
  function FirstPiece(items: Items): string
    requires items != Nil
  {
    match items
    case Code(c, _) => [c]
    case Str(quote, body, _) => [quote] + BodyText(body) + [quote]
    case Note(text, _) => "/*" + text + "*/"
    case Group(inner, _) => "{" + ItemsText(inner) + "}"
    case Regex(pattern, flags, _) => "/" + RegexText(pattern, flags)
    case Divide(_) => "/"
  }

  function Onwards(items: Items, code: Signs): Signs
    requires items != Nil
  {
    match items
    case Code(c, _) => code + [SignOf(c)]
    case Str(quote, _, _) => code + [Literal(quote)]
    case Note(_, _) => code + [Blank]
    case Group(inner, _) => ((code + [Mark('{')]) + SignsOf(inner)) + [Mark('}')]
    case Regex(_, flags, _) => code + [Literal(LastChar(flags))]
    case Divide(_) => code + [Mark('/')]
  }

  lemma OnwardsSigns(items: Items, code: Signs)
    requires items != Nil
    ensures code + SignsOf(items) == Onwards(items, code) + SignsOf(items.rest)
  {
    var more := SignsOf(items.rest);
    match items {
      case Code(c, _) => Reassociate(code, [SignOf(c)], more);
      case Str(quote, _, _) => Reassociate(code, [Literal(quote)], more);
      case Note(_, _) => Reassociate(code, [Blank], more);
      case Group(inner, _) =>
        var signs := SignsOf(inner);
        Reassociate(code, [Mark('{')], signs);
        Reassociate(code, [Mark('{')] + signs, [Mark('}')]);
        Reassociate(code, ([Mark('{')] + signs) + [Mark('}')], more);
      case Regex(_, flags, _) => Reassociate(code, [Literal(LastChar(flags))], more);
      case Divide(_) => Reassociate(code, [Mark('/')], more);
    }
  }

  lemma {:induction false} GroupPasses(g: (nat, int, Signs) -> int, s: string, i: nat, inner: Items, depth: int,
                                       code: Signs)
    requires Holds(s, i, "{" + ItemsText(inner) + "}") && ReadsAfter(g, s) && !OddEscapes(s, i) && depth >= 1
    requires LegalItems(inner, code + [Mark('{')])
    ensures var j, next := i + |ItemsText(inner)| + 2, ((code + [Mark('{')]) + SignsOf(inner)) + [Mark('}')];
            g(i, depth, code) == g(j, depth, next) && !OddEscapes(s, j)
    decreases inner, 1
  {
    HoldsGroup(s, i, ItemsText(inner));
    BracePasses(g, s, i, '{', depth, code);
    var close := i + 1 + |ItemsText(inner)|;
    ItemsPass(g, s, i + 1, inner, depth + 1, code + [Mark('{')], close);
    BracePasses(g, s, close, '}', depth + 1, (code + [Mark('{')]) + SignsOf(inner));
  }

  lemma {:induction false} PiecePasses(g: (nat, int, Signs) -> int, s: string, i: nat, items: Items, depth: int,
                                       code: Signs, j: nat)
    requires LegalItems(items, code) && items != Nil && j == i + |FirstPiece(items)| && depth >= 1 && ReadsAfter(g, s)
    requires Holds(s, i, FirstPiece(items)) && !OddEscapes(s, i) && j < |s| && s[j] == NextChar(items.rest)
    ensures g(i, depth, code) == g(j, depth, Onwards(items, code)) && !OddEscapes(s, j)
    decreases items, -1
  {
    match items {
      case Code(c, _) => CodePasses(g, s, i, c, depth, code);
      case Str(quote, body, _) => StringPasses(g, s, i, quote, body, depth, code, j);
      case Note(text, _) => NotePasses(g, s, i, text, depth, code, j);
      case Group(inner, _) => GroupPasses(g, s, i, inner, depth, code);
      case Regex(pattern, flags, _) => RegexPasses(g, s, i, pattern, flags, depth, code, j);
      case Divide(_) => DividePasses(g, s, i, depth, code);
    }
  }

  lemma ItemsSplit(items: Items)
    requires items != Nil
    ensures ItemsText(items) == FirstPiece(items) + ItemsText(items.rest)
  {
  }

  lemma NextThere(s: string, j: nat, rest: Items, text: string)
    requires text == ItemsText(rest) && Holds(s, j, text + "}")
    ensures s[j] == NextChar(rest)
  {
    assert s[j..j + |text + "}"|][0] == s[j];
  }

  lemma FirstPieceThere(s: string, i: nat, items: Items, piece: string, j: nat)
    requires items != Nil && Holds(s, i, ItemsText(items) + "}") && piece == FirstPiece(items) && j == i + |piece|
    ensures Holds(s, i, piece) && Holds(s, j, ItemsText(items.rest) + "}") && s[j] == NextChar(items.rest)
  {
    var text := ItemsText(items.rest);
    ItemsSplit(items);
    Reassociate(piece, text, "}");
    HoldsSplit(s, i, piece, text + "}");
    NextThere(s, j, items.rest, text);
  }

  /** The pieces inside a group leave the depth as it was. */
  lemma {:induction false} ItemsPass(g: (nat, int, Signs) -> int, s: string, i: nat, items: Items, depth: int,
                                     code: Signs, j: nat)
    requires LegalItems(items, code) && Holds(s, i, ItemsText(items) + "}") && !OddEscapes(s, i) && depth >= 1
    requires ReadsAfter(g, s) && j == i + |ItemsText(items)|
    ensures g(i, depth, code) == g(j, depth, code + SignsOf(items)) && !OddEscapes(s, j)
    decreases items, 0
  {
    if items == Nil {
      assert code + [] == code;
    } else {
      var k := i + |FirstPiece(items)|;
      FirstPieceThere(s, i, items, FirstPiece(items), k);
      PiecePasses(g, s, i, items, depth, code, k);
      OnwardsSigns(items, code);
      ItemsPass(g, s, k, items.rest, depth, Onwards(items, code), j);
    }
  }

  lemma ClosesAt(s: string, i: nat, code: Signs)
    requires Holds(s, i, "}") && !OddEscapes(s, i)
    ensures EndFrom(s, i, StateAfter(1, code)) == i + 1
  {
    HoldsChar(s, i, '}');
  }

  lemma GroupCloses(g: (nat, int, Signs) -> int, s: string, i: nat, items: Items)
    requires Holds(s, i, "{" + ItemsText(items) + "}") && LegalGroup(items) && !OddEscapes(s, i) && ReadsAfter(g, s)
    ensures g(i, 0, []) == i + |ItemsText(items)| + 2
  {
    HoldsGroup(s, i, ItemsText(items));
    BracePasses(g, s, i, '{', 0, []);
    assert [] + [Mark('{')] == [Mark('{')];
    var close := i + 1 + |ItemsText(items)|;
    ItemsPass(g, s, i + 1, items, 1, [Mark('{')], close);
    ClosesAt(s, close, [Mark('{')] + SignsOf(items));
  }

  /** A group of legal pieces ends at its own closing brace. */
  lemma GroupEnds(s: string, i: nat, items: Items)
    requires Holds(s, i, "{" + ItemsText(items) + "}") && LegalGroup(items) && !OddEscapes(s, i)
    ensures GroupEnd(s, i) == i + |ItemsText(items)| + 2
  {
    var g := (i: nat, depth: int, code: Signs) => if i <= |s| then EndFrom(s, i, StateAfter(depth, code)) else 0;
    assert ReadsAfter(g, s);
    GroupCloses(g, s, i, items);
    assert g(i, 0, []) == EndFrom(s, i, StateAfter(0, []));
  }

  // ---------------------------------------------------------------- what the check makes of a line

  lemma PrefixAt(s: string, i: nat, piece: string, start: string)
    requires Holds(s, i, piece) && start <= piece
    ensures start <= s[i..]
  {
    assert s[i..][..|piece|] == piece;
    assert s[i..][..|start|] == piece[..|start|];
  }

  lemma BracedSpan(s: string, i: nat, first: Items, inner: Items)
    requires Holds(s, i, "{" + ItemsText(Group(first, inner)) + "}")
    requires LegalGroup(Group(first, inner)) && !OddEscapes(s, i)
    ensures SpanAt(s, i) == Removed(i + |ItemsText(Group(first, inner))| + 2)
  {
    var piece := "{" + ItemsText(Group(first, inner)) + "}";
    GroupEnds(s, i, Group(first, inner));
    assert piece[0] == '{' && piece[1] == ItemsText(Group(first, inner))[0] == '{';
    assert piece[..2] == "{{";
    PrefixAt(s, i, piece, "{{");
    assert s[i..][1] == '{';
  }

  lemma CommentSpan(s: string, i: nat, text: string)
    requires Holds(s, i, "{/*" + text + "*/}")
    requires EndsFirst("{/*" + text + "*/}", 0, "*/}") && !OddEscapes(s, i)
    ensures SpanAt(s, i) == Removed(i + |text| + 6) && !OddEscapes(s, i + |text| + 6)
  {
    var piece := "{/*" + text + "*/}";
    PrefixAt(s, i, piece, "{/*");
    IndexOfPiece(s, i, piece, 0, "*/}");
    assert s[i + |text| + 5] == piece[|text| + 5];
  }

  /** h is BreaksOutside on s. */
  ghost predicate ReadsLine(h: nat -> bool, s: string) {
    forall i: nat {:trigger BreaksOutside(s, i)} :: i <= |s| ==> h(i) == BreaksOutside(s, i)
  }

  lemma PlainKept(h: nat -> bool, s: string, i: nat, c: char)
    requires ReadsLine(h, s) && Holds(s, i, [c]) && c != '{' && c != '}' && !OddEscapes(s, i)
    ensures h(i) == h(i + 1) && (c != '\\' ==> !OddEscapes(s, i + 1))
  {
    HoldsChar(s, i, c);
    assert s[i..][0] == c;
    assert h(i) == BreaksOutside(s, i) && h(i + 1) == BreaksOutside(s, i + 1);
  }

  lemma EscapeKept(h: nat -> bool, s: string, i: nat, c: char)
    requires ReadsLine(h, s) && Holds(s, i, ['\\', c]) && !OddEscapes(s, i)
    ensures h(i) == h(i + 2) && !OddEscapes(s, i + 2)
  {
    assert ['\\', c] == ['\\'] + [c];
    HoldsSplit(s, i, ['\\'], [c]);
    PlainKept(h, s, i, '\\');
    HoldsChar(s, i, '\\');
    HoldsChar(s, i + 1, c);
    assert OddEscapes(s, i + 1) && SpanAt(s, i + 1) == Single;
    assert h(i + 1) == BreaksOutside(s, i + 1) && h(i + 2) == BreaksOutside(s, i + 2);
  }

  lemma SpanKept(h: nat -> bool, s: string, i: nat, j: nat)
    requires ReadsLine(h, s) && i < |s| && SpanAt(s, i) == Removed(j)
    ensures h(i) == h(j) && !OddEscapes(s, j)
  {
    RemovedUnescaped(s, i);
    assert h(i) == BreaksOutside(s, i) && h(j) == BreaksOutside(s, j);
  }

  function LinePiece(line: Line): string
    requires line != Done
  {
    match line
    case Plain(c, _) => [c]
    case Escaped(c, _) => ['\\', c]
    case Comment(text, _) => "{/*" + text + "*/}"
    case Braced(first, inner, _) => "{" + ItemsText(Group(first, inner)) + "}"
  }

  lemma PieceKept(h: nat -> bool, s: string, i: nat, line: Line, piece: string, j: nat)
    requires LegalLine(line) && line != Done && piece == LinePiece(line) && j == i + |piece|
    requires Holds(s, i, piece) && !OddEscapes(s, i) && ReadsLine(h, s)
    ensures h(i) == h(j) && !OddEscapes(s, j)
  {
    match line {
      case Plain(c, rest) => PlainKept(h, s, i, c);
      case Escaped(c, rest) => EscapeKept(h, s, i, c);
      case Comment(text, rest) =>
        CommentSpan(s, i, text);
        SpanKept(h, s, i, j);
      case Braced(first, inner, rest) =>
        BracedSpan(s, i, first, inner);
        SpanKept(h, s, i, j);
    }
  }

  lemma LineSplit(line: Line)
    requires line != Done
    ensures LineText(line) == LinePiece(line) + LineText(line.rest)
  {
  }

  lemma {:induction false} LinePasses(h: nat -> bool, s: string, i: nat, line: Line)
    requires LegalLine(line) && Holds(s, i, LineText(line)) && i + |LineText(line)| == |s| && !OddEscapes(s, i)
    requires ReadsLine(h, s) && !h(|s|)
    ensures !h(i)
    decreases line
  {
    if line != Done {
      var piece := LinePiece(line);
      LineSplit(line);
      HoldsSplit(s, i, piece, LineText(line.rest));
      PieceKept(h, s, i, line, piece, i + |piece|);
      LinePasses(h, s, i + |piece|, line.rest);
    }
  }

  /** Every line of the grammar is accepted. */
  lemma LegalLinesAccepted(line: Line)
    requires LegalLine(line)
    ensures !HasUnescapedBrace(LineText(line))
  {
    var s := LineText(line);
    var h := (i: nat) => i <= |s| && BreaksOutside(s, i);
    assert ReadsLine(h, s);
    LinePasses(h, s, 0, line);
    assert h(0) == BreaksOutside(s, 0);
    CheckReadsTheLine(s);
  }
}
