/** The loops of the brace checks in pkg/configdef/validate.go, and jsPunct as the object
    that they update; each method is tied to its function in BraceMatch. */
module JsPunct {

  import opened BraceMatch
  import opened InlineCode
  import opened Sequences

  method SkipJSString(content: string, pos: nat) returns (end: int)
    requires pos < |content|
    ensures end == StringEnd(content, pos + 1, content[pos])
  {
    var quote := content[pos];
    for i := pos + 1 to |content|
      invariant StringEnd(content, i, quote) == StringEnd(content, pos + 1, quote)
    {
      if content[i] == quote {
        var odd := OddEscapesBefore(content, i);
        if !odd {
          return i + 1;
        }
      }
    }
    return -1;
  }

  method SkipJSRegexpFlags(content: string, pos: nat) returns (end: nat)
    requires pos <= |content|
    ensures end == FlagsEnd(content, pos)
  {
    end := pos;
    while end < |content| && IsRegexFlag(content[end])
      invariant pos <= end <= |content| && FlagsEnd(content, end) == FlagsEnd(content, pos)
    {
      end := end + 1;
    }
  }

  method SkipJSRegex(content: string, pos: nat) returns (end: int)
    requires pos < |content|
    ensures end == RegexEnd(content, pos + 1, false)
  {
    var inClass := false;
    for i := pos + 1 to |content|
      invariant RegexEnd(content, i, inClass) == RegexEnd(content, pos + 1, false)
    {
      if content[i] == '\n' {
        return -1;
      }
      var odd := OddEscapesBefore(content, i);
      if odd {
        continue;
      }
      if inClass {
        if content[i] == ']' {
          inClass := false;
        }
      } else if content[i] == '[' {
        inClass := true;
      } else if content[i] == '/' {
        end := SkipJSRegexpFlags(content, i + 1);
        return;
      }
    }
    return -1;
  }

  method SkipJSLexical(content: string, pos: nat, startRegex: bool) returns (lex: Lexical)
    requires pos < |content|
    ensures lex == SkipLexical(content, pos, startRegex)
  {
    if IsQuote(content[pos]) {
      var end := SkipJSString(content, pos);
      return Until(end);
    }
    if content[pos] == '/' && pos + 1 < |content| {
      if content[pos + 1] == '/' {
        return PassedOver(LineCommentEnd(content, pos));
      }
      if content[pos + 1] == '*' {
        return PassedOver(BlockCommentEnd(content, pos));
      }
      if startRegex {
        var end := SkipJSRegex(content, pos);
        return Until(end);
      }
    }
    return Ordinary;
  }

  class JsPunct {
    var prev: char
    var before: char
    var ident: string
    var parenDepth: nat
    var keyword: bool
    var member: bool
    var control: bool
    var afterCtrl: bool
    var forCtrl: bool
    var forParen: bool

    ghost function View(): Punct
      reads this
    {
      Punct(prev, before, ident, parenDepth, keyword, member, control, afterCtrl, forCtrl, forParen)
    }

    constructor ()
      ensures View() == Fresh()
    {
      prev, before, ident, parenDepth, keyword := NONE, NONE, "", 0, false;
      member, control, afterCtrl, forCtrl, forParen := false, false, false, false, false;
    }

    method CanStartRegex() returns (can: bool)
      ensures can == BraceMatch.CanStartRegex(View())
    {
      if keyword || afterCtrl {
        return true;
      }
      if (prev == '+' && before == '+') || (prev == '-' && before == '-') {
        return false;
      }
      return RegexMayFollow(prev);
    }

    method FinishIdent()
      modifies this
      ensures View() == BraceMatch.FinishIdent(old(View()))
    {
      if ident == "" {
        return;
      }
      var isFor := ident == "for";
      var ofInFor := ident == "of" && forParen && parenDepth > 0;
      keyword := !member && (IsRegexKeyword(ident) || ofInFor);
      control := !member && IsControlKeyword(ident);
      forCtrl := !member && isFor;
      ident, member := "", false;
    }

    method SawPunct(c: char, adjacent: bool)
      modifies this
      ensures View() == BraceMatch.SawPunct(old(View()), c, adjacent)
    {
      before := if adjacent then prev else NONE;
      prev := c;
    }

    method TrackControl(c: char)
      modifies this
      ensures View() == BraceMatch.TrackControl(old(View()), c)
    {
      if c == '(' {
        if control && parenDepth == 0 {
          parenDepth := 1;
          forParen := forCtrl;
        } else if parenDepth > 0 {
          parenDepth := parenDepth + 1;
        }
        control, forCtrl, afterCtrl := false, false, false;
      } else if c == ')' {
        if parenDepth == 0 {
          afterCtrl := false;
          return;
        }
        parenDepth := parenDepth - 1;
        if parenDepth == 0 {
          afterCtrl, forParen := true, false;
        }
      } else {
        control, forCtrl, afterCtrl := false, false, false;
      }
    }

    method Saw(c: char, adjacent: bool)
      modifies this
      ensures View() == BraceMatch.Saw(old(View()), c, adjacent)
    {
      if IsIdentChar(c, ident != "") {
        if ident == "" {
          member := prev == '.';
          afterCtrl := false;
        }
        ident := ident + [c];
        SawPunct(c, adjacent);
        return;
      }
      FinishIdent();
      keyword := false;
      TrackControl(c);
      SawPunct(c, adjacent);
    }

    method AfterLexical(content: string, start: nat, end: nat)
      requires start < end <= |content|
      modifies this
      ensures View() == BraceMatch.AfterLexical(old(View()), content, start, end)
    {
      if content[start] == '/' && start + 1 < |content| && (content[start + 1] == '/' || content[start + 1] == '*') {
        return;
      }
      ident, keyword, member, control, afterCtrl := "", false, false, false, false;
      prev, before := content[end - 1], NONE;
    }

    /** done, or the new depth; the character is next to what was seen before it. */
    method Brace(c: char, depth: int, adjacent: bool) returns (done: bool, newDepth: int)
      modifies this
      ensures match BraceMatch.Brace(c, State(depth, old(View()), adjacent))
              case Return => done
              case Look(st) => !done && st == State(newDepth, View(), true)
              case _ => false
    {
      if c == '{' {
        Saw(c, adjacent);
        return false, depth + 1;
      }
      if c == '}' {
        if depth - 1 == 0 {
          return true, 0;
        }
        Saw(c, adjacent);
        return false, depth - 1;
      }
      Saw(c, adjacent);
      return false, depth;
    }
  }

  /** One turn of the loop: the next position, -1 to give up, or done. */
  method Turn(content: string, pos: nat, punct: JsPunct, depth: int, adjacent: bool)
    returns (done: bool, next: int, newDepth: int, newAdjacent: bool)
    requires pos < |content|
    modifies punct
    ensures match MoveAt(content, pos, State(depth, old(punct.View()), adjacent))
            case GiveUp => !done && next == -1
            case Return => done
            case Look(st) => !done && next == pos + 1 && st == State(newDepth, punct.View(), newAdjacent)
            case Skip(end, st) => !done && next == end && st == State(newDepth, punct.View(), newAdjacent)
  {
    done, newDepth, newAdjacent := false, depth, adjacent;
    if !IsIdentChar(content[pos], punct.ident != "") {
      punct.FinishIdent();
    }
    var startRegex := punct.CanStartRegex();
    var lex := SkipJSLexical(content, pos, startRegex);
    match lex {
      case Unterminated =>
        return false, -1, depth, adjacent;
      case PassedOver(end) =>
        punct.AfterLexical(content, pos, end);
        return false, end, depth, false;
      case Ordinary =>
        next := pos + 1;
        if IsJSSpace(content[pos]) {
          punct.FinishIdent();
          newAdjacent := false;
          return;
        }
        var odd := OddEscapesBefore(content, pos);
        if !odd {
          done, newDepth := punct.Brace(content[pos], depth, adjacent);
          newAdjacent := true;
        }
    }
  }

  method BalancedBraceEnd(content: string, idx: nat) returns (end: int)
    requires idx <= |content|
    ensures end == GroupEnd(content, idx)
  {
    var depth, adjacent := 0, false;
    var punct := new JsPunct();
    var pos := idx;
    while pos < |content|
      invariant fresh(punct) && idx <= pos <= |content|
      invariant EndFrom(content, pos, State(depth, punct.View(), adjacent)) == GroupEnd(content, idx)
    {
      var done, next;
      done, next, depth, adjacent := Turn(content, pos, punct, depth, adjacent);
      if done {
        return pos + 1;
      }
      if next < 0 {
        return -1;
      }
      pos := next;
    }
    return -1;
  }

  /** f is StripFrom on line. */
  ghost predicate ReadsStrip(f: nat -> string, line: string) {
    forall i: nat {:trigger StripFrom(line, i)} :: i <= |line| ==> f(i) == StripFrom(line, i)
  }

  lemma StripNext(f: nat -> string, line: string, idx: nat, span: Span, out: string)
    requires ReadsStrip(f, line) && idx < |line| && SpanAt(line, idx) == span
    ensures match span
            case Removed(end) => out + f(idx) == out + f(end)
            case OpenComment => out + f(idx) == out + line[idx..]
            case Single => out + f(idx) == (out + [line[idx]]) + f(idx + 1)
  {
    assert f(idx) == StripFrom(line, idx);
    match span {
      case Removed(end) => assert f(end) == StripFrom(line, end);
      case OpenComment =>
      case Single =>
        assert f(idx + 1) == StripFrom(line, idx + 1);
        Reassociate(out, [line[idx]], f(idx + 1));
    }
  }

  method StripAllowedBraces(line: string) returns (out: string)
    ensures out == StripFrom(line, 0)
  {
    ghost var f := (i: nat) => if i <= |line| then StripFrom(line, i) else "";
    assert ReadsStrip(f, line);
    out := "";
    var idx := 0;
    while idx < |line|
      invariant 0 <= idx <= |line| && out + f(idx) == f(0)
    {
      var odd := OddEscapesBefore(line, idx);
      ghost var span := SpanAt(line, idx);
      StripNext(f, line, idx, span, out);
      if "{/*" <= line[idx..] && !odd {
        var close := IndexFrom(line, idx, "*/}");
        if close < 0 {
          assert f(0) == StripFrom(line, 0);
          return out + line[idx..];
        }
        idx := close + 3;
      } else if "{{" <= line[idx..] && !odd {
        EndShape(line, idx, State(0, Fresh(), false));
        var end := BalancedBraceEnd(line, idx);
        if end < 0 {
          out := out + [line[idx]];
          idx := idx + 1;
        } else {
          idx := end;
        }
      } else {
        out := out + [line[idx]];
        idx := idx + 1;
      }
    }
    assert f(idx) == "" && f(0) == StripFrom(line, 0);
  }

  method CheckBraces(line: string) returns (found: bool)
    ensures found == HasUnescapedBrace(line)
  {
    var stripped := StripAllowedBraces(line);
    for idx := 0 to |stripped|
      invariant BreaksFrom(stripped, idx) == BreaksFrom(stripped, 0)
    {
      if stripped[idx] != '{' && stripped[idx] != '}' {
        continue;
      }
      var odd := OddEscapesBefore(stripped, idx);
      if !odd {
        return true;
      }
    }
    return false;
  }
}
