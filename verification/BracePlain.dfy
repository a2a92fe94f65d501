/** The brace check of pkg/configdef/validate.go on lines without quotes, slashes and
    backslashes: there it decides a grammar. */
module BracePlain {

  import opened BraceGrammar
  import opened BraceMatch
  import opened InlineCode
  import opened JsLiterals
  import opened RegexPlaces

  /** Pieces that are single characters and groups of them. */
  predicate Bare(items: Items) {
    match items
    case Nil => true
    case Code(c, rest) => IsPlain(c) && c != '{' && c != '}' && Bare(rest)
    case Group(inner, rest) => Bare(inner) && Bare(rest)
    case _ => false
  }

  lemma {:induction false} BareLegal(items: Items, code: Signs)
    requires Bare(items)
    ensures LegalItems(items, code)
  {
    match items {
      case Nil =>
      case Code(c, rest) => BareLegal(rest, code + [SignOf(c)]);
      case Group(inner, rest) =>
        BareLegal(inner, code + [Mark('{')]);
        BareLegal(rest, ((code + [Mark('{')]) + SignsOf(inner)) + [Mark('}')]);
    }
  }

  /** The pieces up to the brace that closes depth, when the plain counter finds an end. */
  lemma {:induction false} Pieces(s: string, depth: int) returns (items: Items, close: nat)
    requires depth >= 1 && PlainEnd(s, depth) >= 0 && AllPlain(s)
    ensures Closes(s, depth, items, close)
    decreases |s|, 2
  {
    var tail := s[1..];
    Tail(s, tail, depth);
    if s[0] == '}' {
      items, close := Nil, 0;
      assert s[..0] == ItemsText(Nil);
    } else if s[0] == '{' {
      items, close := GroupFirst(s, tail, depth);
    } else {
      items, close := CodeFirst(s, tail, depth);
    }
  }

  /** s is some items, then the brace at `close` that takes the counter below depth. */
  predicate Closes(s: string, depth: int, items: Items, close: nat) {
    && Bare(items) && close < |s| && s[close] == '}' && s[..close] == ItemsText(items)
    && PlainEnd(s, depth) == EndAfter(s, depth, close)
  }

  lemma {:induction false} CodeFirst(s: string, tail: string, depth: int) returns (items: Items, close: nat)
    requires s != "" && tail == s[1..] && IsPlain(s[0]) && s[0] != '{' && s[0] != '}' && depth >= 1 && AllPlain(tail)
    requires PlainEnd(tail, depth) >= 0 && PlainEnd(s, depth) == 1 + PlainEnd(tail, depth)
    ensures Closes(s, depth, items, close)
    decreases |s|, 1
  {
    var rest, last := Pieces(tail, depth);
    items, close := Code(s[0], rest), last + 1;
    assert s[..close] == [s[0]] + tail[..last];
    EndsLater(s, tail, depth, last, 1);
  }

  lemma {:induction false} GroupFirst(s: string, tail: string, depth: int) returns (items: Items, close: nat)
    requires s != "" && tail == s[1..] && s[0] == '{' && depth >= 1 && AllPlain(tail)
    requires PlainEnd(tail, depth + 1) >= 0 && PlainEnd(s, depth) == 1 + PlainEnd(tail, depth + 1)
    ensures Closes(s, depth, items, close)
    decreases |s|, 1
  {
    var inner, mid := Pieces(tail, depth + 1);
    var after := tail[mid + 1..];
    assert forall c :: c in after ==> c in tail;
    var rest, last := Pieces(after, depth);
    items, close := Group(inner, rest), mid + 2 + last;
    GroupFound(s, tail, depth, mid, after, last, inner, rest);
  }

  lemma EndsLater(s: string, after: string, depth: int, last: nat, offset: nat)
    requires offset <= |s| && after == s[offset..] && last < |after| && EndAfter(after, depth, last) >= 0
    requires PlainEnd(s, depth) == EndAfter(after, depth, last) + offset
    ensures PlainEnd(s, depth) == EndAfter(s, depth, last + offset)
  {
    assert after[last + 1..] == s[last + offset + 1..];
  }

  /** The plain counter from depth on, when s has its first unmatched closing brace at close. */
  function EndAfter(s: string, depth: int, close: nat): int
    requires close < |s|
  {
    if depth == 1 then close + 1 else Shift(PlainEnd(s[close + 1..], depth - 1), close + 1)
  }

  lemma Tail(s: string, tail: string, depth: int)
    requires PlainEnd(s, depth) >= 0 && AllPlain(s) && s != "" && tail == s[1..]
    ensures AllPlain(tail) && IsPlain(s[0])
    ensures s[0] == '}' && depth == 1 ==> PlainEnd(s, depth) == 1
    ensures !(s[0] == '}' && depth == 1) ==>
              PlainEnd(tail, Deeper(s[0], depth)) >= 0 && PlainEnd(s, depth) == 1 + PlainEnd(tail, Deeper(s[0], depth))
  {
    assert s[0] in s;
  }

  lemma GroupFound(s: string, tail: string, depth: int, mid: nat, after: string, last: nat, inner: Items, rest: Items)
    requires s != "" && tail == s[1..] && s[0] == '{' && depth >= 1 && mid < |tail| && after == tail[mid + 1..]
    requires Closes(tail, depth + 1, inner, mid) && Closes(after, depth, rest, last)
    requires PlainEnd(tail, depth + 1) >= 0 && PlainEnd(s, depth) == 1 + PlainEnd(tail, depth + 1)
    ensures Closes(s, depth, Group(inner, rest), mid + 2 + last)
  {
    GroupText(s, tail, mid, after, last, inner, rest);
    EndsLater(s, after, depth, last, mid + 2);
  }

  lemma GroupText(s: string, tail: string, mid: nat, after: string, last: nat, inner: Items, rest: Items)
    requires s != "" && s[0] == '{' && tail == s[1..] && mid < |tail| && tail[mid] == '}' && after == tail[mid + 1..]
    requires last < |after| && tail[..mid] == ItemsText(inner) && after[..last] == ItemsText(rest)
    ensures s[..mid + 2 + last] == ItemsText(Group(inner, rest)) && s[mid + 2 + last] == after[last]
    ensures s[mid + 3 + last..] == after[last + 1..]
  {
    assert s[..mid + 2 + last] == ("{" + tail[..mid] + "}") + after[..last];
  }

  lemma BracedPieces(s: string, i: nat, end: nat) returns (first: Items, inner: Items)
    requires AllPlain(s) && i < |s| && SpanAt(s, i) == Removed(end)
    ensures Bare(Group(first, inner)) && Holds(s, i, "{" + ItemsText(Group(first, inner)) + "}")
    ensures end == i + |ItemsText(Group(first, inner))| + 2
  {
    var all := s[i..];
    var tail := BracedTail(s, i, end, all);
    var items, close := Pieces(tail, 1);
    StartsWithGroup(items, tail, close);
    first, inner := items.inner, items.rest;
    BracedText(s, i, all, tail, close);
  }

  lemma StartsWithGroup(items: Items, tail: string, close: nat)
    requires Bare(items) && close < |tail| && tail[close] == '}' && tail[..close] == ItemsText(items)
    requires tail[0] == '{'
    ensures items.Group?
  {
    assert close > 0 && tail[..close][0] == '{';
  }

  lemma BracedText(s: string, i: nat, all: string, tail: string, close: nat)
    requires i < |s| && all == s[i..] && all[0] == '{' && tail == all[1..] && close < |tail| && tail[close] == '}'
    ensures Holds(s, i, "{" + tail[..close] + "}")
  {
    assert all[..close + 2] == "{" + tail[..close] + "}";
    assert s[i..i + close + 2] == all[..close + 2];
  }

  lemma BracedTail(s: string, i: nat, end: nat, all: string) returns (tail: string)
    requires AllPlain(s) && i < |s| && all == s[i..] && SpanAt(s, i) == Removed(end)
    ensures all != "" && all[0] == '{' && tail == all[1..] && tail != "" && tail[0] == '{' && AllPlain(tail)
    ensures PlainEnd(tail, 1) >= 0 && end == i + 1 + PlainEnd(tail, 1)
  {
    assert forall c :: c in all ==> c in s;
    assert |all| > 1 ==> IsPlain(all[1]) by {
      assert |all| > 1 ==> all[1] in all;
    }
    PlainGroupEnd(s, i, State(0, Fresh(), false));
    tail := all[1..];
    assert forall c :: c in tail ==> c in all;
    assert all == ['{'] + tail;
    PlainEndCons('{', tail, 0);
  }

  lemma NoComment(s: string, i: nat)
    requires AllPlain(s) && i < |s|
    ensures SpanAt(s, i) != OpenComment
  {
    assert |s[i..]| > 1 ==> s[i..][1] in s;
  }

  /** line is the text of s from i on. */
  predicate Spells(line: Line, s: string, i: nat) {
    LegalLine(line) && Holds(s, i, LineText(line)) && i + |LineText(line)| == |s|
  }

  lemma FrontPiece(s: string, i: nat, line: Line, piece: string, j: nat)
    requires LegalLine(line) && line != Done && piece == LinePiece(line) && j == i + |piece|
    requires Holds(s, i, piece) && Spells(line.rest, s, j)
    ensures Spells(line, s, i)
  {
    HoldsJoin(s, i, piece, LineText(line.rest));
  }

  lemma NotFlagged(s: string, i: nat)
    requires i < |s| && !BreaksOutside(s, i) && AllPlain(s)
    ensures SpanAt(s, i).Removed? ==> !BreaksOutside(s, SpanAt(s, i).end)
    ensures SpanAt(s, i) == Single ==> !BreaksOutside(s, i + 1) && s[i] != '{' && s[i] != '}' && s[i] != '\\'
  {
    assert s[i] in s && (i > 0 ==> s[i - 1] in s);
  }

  lemma {:induction false} AcceptedPieces(s: string, i: nat) returns (line: Line)
    requires AllPlain(s) && i <= |s| && !BreaksOutside(s, i)
    ensures Spells(line, s, i)
    decreases |s| - i
  {
    if i == |s| {
      line := Done;
    } else {
      NotFlagged(s, i);
      NoComment(s, i);
      var span := SpanAt(s, i);
      var rest := AcceptedPieces(s, if span.Removed? then span.end else i + 1);
      line := AcceptedFirst(s, i, span, rest);
    }
  }

  lemma AcceptedFirst(s: string, i: nat, span: Span, rest: Line) returns (line: Line)
    requires AllPlain(s) && i < |s| && span == SpanAt(s, i) && span != OpenComment
    requires Spells(rest, s, if span.Removed? then span.end else i + 1)
    requires span == Single ==> s[i] != '{' && s[i] != '}' && s[i] != '\\'
    ensures Spells(line, s, i)
  {
    if span.Removed? {
      var first, inner := BracedPieces(s, i, span.end);
      line := Braced(first, inner, rest);
      BareLegal(Group(first, inner), [Mark('{')]);
      FrontPiece(s, i, line, "{" + ItemsText(Group(first, inner)) + "}", span.end);
    } else {
      line := Plain(s[i], rest);
      FrontPiece(s, i, line, [s[i]], i + 1);
    }
  }

  predicate Writes(line: Line, s: string) {
    LegalLine(line) && LineText(line) == s
  }

  /** A line without quotes, slashes and backslashes is accepted exactly when it is text
      without braces and balanced {{...}} groups. */
  lemma PlainLineAccepted(s: string)
    requires AllPlain(s)
    ensures !HasUnescapedBrace(s) <==> exists line :: Writes(line, s)
  {
    CheckReadsTheLine(s);
    if !HasUnescapedBrace(s) {
      var line := AcceptedPieces(s, 0);
      assert s[0..|s|] == s;
      assert Writes(line, s);
    } else if exists line :: Writes(line, s) {
      var line :| Writes(line, s);
      LegalLinesAccepted(line);
    }
  }
}
