/** Where a `/` starts a regular expression: jsPunct of pkg/configdef/validate.go keeps ten
    fields up to date to tell. Here the code before a place is a list of signs, what must
    hold of it is said by looking back over the list, and jsPunct is proved to agree. */
module RegexPlaces {

  import opened BraceMatch
  import opened ControlParens

  /** A character of code, white space or a comment, or a whole string or regular
      expression, of which only the last character matters. */
  datatype Sign = Mark(c: char) | Blank | Literal(last: char)

  type Signs = seq<Sign>

  // ---------------------------------------------------------------- what jsPunct makes of code

  datatype Seen = Seen(punct: Punct, adjacent: bool)

  function Next(seen: Seen, sign: Sign): Seen {
    match sign
    case Mark(c) => Seen(Saw(seen.punct, c, seen.adjacent), true)
    case Blank => Seen(FinishIdent(seen.punct), false)
    case Literal(last) => Seen(AfterLiteral(FinishIdent(seen.punct), last), false)
  }

  /** jsPunct after the first n signs. */
  function After(code: Signs, n: nat): Seen
    requires n <= |code|
  {
    if n == 0 then Seen(Fresh(), false) else Next(After(code, n - 1), code[n - 1])
  }

  // ---------------------------------------------------------------- looking back from place n

  /** The place after the last sign before n that is no blank. */
  function Trim(code: Signs, n: nat): (t: nat)
    requires n <= |code|
    ensures t <= n
  {
    if n > 0 && code[n - 1].Blank? then Trim(code, n - 1) else n
  }

  /** The word that ends at n. */
  function Word(code: Signs, n: nat): (w: string)
    requires n <= |code|
    ensures |w| <= n
  {
    if n == 0 || !code[n - 1].Mark? then ""
    else
      var before := Word(code, n - 1);
      if IsIdentChar(code[n - 1].c, before != "") then before + [code[n - 1].c] else ""
  }

  /** The character before n, blanks apart. */
  function Prev(code: Signs, n: nat): char
    requires n <= |code|
  {
    var t := Trim(code, n);
    if t == 0 then NONE else if code[t - 1].Mark? then code[t - 1].c
    else if code[t - 1].Literal? then code[t - 1].last else NONE
  }

  /** The word before n, blanks apart; "" for the name of a property. */
  function FreeWord(code: Signs, n: nat): string
    requires n <= |code|
  {
    var w := Word(code, Trim(code, n));
    if w != "" && Prev(code, Trim(code, n) - |w|) == '.' then "" else w
  }

  /** Like Trim, but also over closing parentheses: a keyword that one follows is still a
      keyword to jsPunct, though no JavaScript has one there. */
  function TrimClosed(code: Signs, n: nat): (t: nat)
    requires n <= |code|
    ensures t <= n
  {
    if n > 0 && (code[n - 1].Blank? || code[n - 1] == Mark(')')) then TrimClosed(code, n - 1) else n
  }

  /** The control keyword before n, "" without one. */
  function ControlWord(code: Signs, n: nat): string
    requires n <= |code|
  {
    var w := FreeWord(code, TrimClosed(code, n));
    if IsControlKeyword(w) then w else ""
  }

  function ParenOf(code: Signs, i: nat): Paren
    requires i < |code|
  {
    if code[i] == Mark('(') then
      var word := ControlWord(code, i);
      if word == "" then Opening else Head(word == "for")
    else if code[i] == Mark(')') then Closing
    else Neither
  }

  function ParensTo(code: Signs, n: nat): (ps: seq<Paren>)
    requires n <= |code|
    ensures |ps| == n
  {
    if n == 0 then [] else ParensTo(code, n - 1) + [ParenOf(code, n - 1)]
  }

  function Parens(code: Signs): (ps: seq<Paren>)
    ensures |ps| == |code|
  {
    ParensTo(code, |code|)
  }

  predicate AfterKeyword(code: Signs, n: nat)
    requires n <= |code|
  {
    IsRegexKeyword(FreeWord(code, n)) || (FreeWord(code, n) == "of" && InFor(Parens(code), Trim(code, n)))
  }

  /** The sign before n, blanks apart, closes the outermost control parenthesis. */
  predicate AfterControl(code: Signs, n: nat)
    requires n <= |code|
  {
    Trim(code, n) > 0 && ClosesOutermost(Parens(code), Trim(code, n) - 1)
  }

  /** `++` or `--` stands before n. */
  predicate Doubled(code: Signs, n: nat)
    requires n <= |code|
  {
    var t := Trim(code, n);
    t >= 2 && code[t - 1] == code[t - 2] && (code[t - 1] == Mark('+') || code[t - 1] == Mark('-'))
  }

  /** A `/` at n starts a regular expression. */
  predicate LiteralMayStart(code: Signs, n: nat)
    requires n <= |code|
  {
    AfterKeyword(code, n) || AfterControl(code, n) || (RegexMayFollow(Prev(code, n)) && !Doubled(code, n))
  }

  // ---------------------------------------------------------------- words and characters

  /** The part of jsPunct that is about words and characters. */
  ghost predicate WordsAgree(code: Signs, n: nat, seen: Seen)
    requires n <= |code|
  {
    var t := Trim(code, n);
    && seen.punct.ident == Word(code, n)
    && seen.punct.prev == Prev(code, n)
    && (seen.punct.ident != "" ==> seen.punct.member == (Prev(code, n - |Word(code, n)|) == '.'))
    && (seen.adjacent <==> n > 0 && code[n - 1].Mark?)
    && seen.punct.before == (if t >= 2 && code[t - 1].Mark? && code[t - 2].Mark? then code[t - 2].c else NONE)
  }

  lemma WordsBlank(code: Signs, n: nat, seen: Seen)
    requires n < |code| && WordsAgree(code, n, seen) && code[n].Blank?
    ensures WordsAgree(code, n + 1, Next(seen, code[n]))
  {
  }

  lemma WordsLiteral(code: Signs, n: nat, seen: Seen)
    requires n < |code| && WordsAgree(code, n, seen) && code[n].Literal?
    ensures WordsAgree(code, n + 1, Next(seen, code[n]))
  {
  }

  lemma FinishKeeps(p: Punct)
    ensures FinishIdent(p).prev == p.prev && FinishIdent(p).ident == "" && FinishIdent(p).parenDepth == p.parenDepth
    ensures FinishIdent(p).afterCtrl == p.afterCtrl && FinishIdent(p).forParen == p.forParen
  {
  }

  lemma TrackKeeps(p: Punct, c: char)
    ensures TrackControl(p, c).prev == p.prev && TrackControl(p, c).ident == p.ident
    ensures TrackControl(p, c).keyword == p.keyword
  {
    if c == '(' {
    } else if c == ')' {
    } else {
    }
  }

  lemma SawWords(p: Punct, c: char, adjacent: bool)
    ensures var q := Saw(p, c, adjacent);
            && q.prev == c && q.before == (if adjacent then p.prev else NONE)
            && q.ident == (if IsIdentChar(c, p.ident != "") then p.ident + [c] else "")
            && (q.ident != "" ==> q.member == if p.ident == "" then p.prev == '.' else p.member)
  {
    if !IsIdentChar(c, p.ident != "") {
      FinishKeeps(p);
      TrackKeeps(FinishIdent(p).(keyword := false), c);
    }
  }

  lemma WordsMark(code: Signs, n: nat, seen: Seen, next: Seen)
    requires n < |code| && WordsAgree(code, n, seen) && code[n].Mark? && next.adjacent
    requires var c, p, q := code[n].c, seen.punct, next.punct;
             && q.prev == c && q.before == (if seen.adjacent then p.prev else NONE)
             && q.ident == (if IsIdentChar(c, p.ident != "") then p.ident + [c] else "")
             && (q.ident != "" ==> q.member == if p.ident == "" then p.prev == '.' else p.member)
    ensures WordsAgree(code, n + 1, next)
  {
    assert Trim(code, n + 1) == n + 1;
    assert n > 0 && code[n - 1].Mark? ==> Trim(code, n) == n;
  }

  // ---------------------------------------------------------------- one sign

  lemma SawOpen(p: Punct, adjacent: bool)
    ensures var q, f := Saw(p, '(', adjacent), FinishIdent(p);
            && !q.afterCtrl
            && q.parenDepth == (if p.parenDepth > 0 then p.parenDepth + 1 else if f.control then 1 else 0)
            && q.forParen == (if p.parenDepth == 0 && f.control then f.forCtrl else p.forParen)
  {
    FinishKeeps(p);
  }

  lemma SawClose(p: Punct, adjacent: bool)
    ensures var q := Saw(p, ')', adjacent);
            && q.parenDepth == (if p.parenDepth == 0 then 0 else p.parenDepth - 1)
            && q.afterCtrl == (p.parenDepth == 1 || (p.parenDepth > 1 && p.afterCtrl))
            && (q.parenDepth > 0 ==> q.forParen == p.forParen)
  {
    FinishKeeps(p);
  }

  lemma SawLetter(p: Punct, c: char, adjacent: bool)
    requires IsIdentChar(c, p.ident != "")
    ensures var q := Saw(p, c, adjacent);
            q.parenDepth == p.parenDepth && q.forParen == p.forParen && q.afterCtrl == (p.ident != "" && p.afterCtrl)
  {
  }

  lemma SawElse(p: Punct, c: char, adjacent: bool)
    requires c != '(' && c != ')' && !IsIdentChar(c, p.ident != "")
    ensures var q := Saw(p, c, adjacent); q.parenDepth == p.parenDepth && q.forParen == p.forParen && !q.afterCtrl
  {
    FinishKeeps(p);
  }

  lemma SawKeyword(p: Punct, c: char, adjacent: bool)
    requires !IsIdentChar(c, p.ident != "")
    ensures !Saw(p, c, adjacent).keyword && Saw(p, c, adjacent).ident == ""
  {
    FinishKeeps(p);
    TrackKeeps(FinishIdent(p).(keyword := false), c);
  }

  lemma SawControl(p: Punct, c: char, adjacent: bool)
    requires !IsIdentChar(c, p.ident != "")
    ensures var q, f := Saw(p, c, adjacent), FinishIdent(p);
            q.control == (c == ')' && f.control) && (q.control ==> q.forCtrl == f.forCtrl)
  {
    if c == '(' {
    } else if c == ')' {
    } else {
    }
  }

  /** The part of jsPunct that is about keywords, with the word read so far finished. */
  ghost predicate FlagsAgree(code: Signs, n: nat, f: Punct)
    requires n <= |code|
  {
    && f.keyword == AfterKeyword(code, n)
    && f.control == (ControlWord(code, n) != "")
    && (f.control ==> f.forCtrl == (ControlWord(code, n) == "for"))
  }

  /** The part of jsPunct that is about parentheses. */
  predicate ParensAgree(place: Place, p: Punct) {
    match place
    case Free => p.parenDepth == 0
    case Within(_, depth, isFor) => p.parenDepth == depth > 0 && p.forParen == isFor && !p.afterCtrl
  }

  predicate FlagsGive(paren: Paren, f: Punct) {
    f.control == paren.Head? && (f.control ==> f.forCtrl == paren.isFor)
  }

  lemma OpenAgrees(place: Place, n: nat, paren: Paren, p: Punct, adjacent: bool)
    requires ParensAgree(place, p) && (paren.Head? || paren.Opening?) && FlagsGive(paren, FinishIdent(p))
    ensures ParensAgree(PlaceNext(paren, n, place), Saw(p, '(', adjacent)) && !Saw(p, '(', adjacent).afterCtrl
  {
    SawOpen(p, adjacent);
  }

  lemma CloseAgrees(place: Place, n: nat, p: Punct, adjacent: bool)
    requires ParensAgree(place, p)
    ensures ParensAgree(PlaceNext(Closing, n, place), Saw(p, ')', adjacent))
    ensures Saw(p, ')', adjacent).afterCtrl == (place.Within? && place.depth == 1)
  {
    SawClose(p, adjacent);
  }

  lemma KeptAgrees(place: Place, n: nat, p: Punct, q: Punct)
    requires ParensAgree(place, p) && q.parenDepth == p.parenDepth && q.forParen == p.forParen
    requires q.afterCtrl ==> p.afterCtrl
    ensures ParensAgree(PlaceNext(Neither, n, place), q)
  {
  }

  lemma {:induction false} ParensToAt(code: Signs, n: nat, i: nat)
    requires i < n <= |code|
    ensures ParensTo(code, n)[i] == ParenOf(code, i)
  {
    if i < n - 1 {
      ParensToAt(code, n - 1, i);
    }
  }

  lemma {:induction false} ParensAt(code: Signs, i: nat)
    requires i < |code|
    ensures Parens(code)[i] == ParenOf(code, i)
  {
    ParensToAt(code, |code|, i);
  }

  lemma WordEnds(code: Signs, n: nat)
    requires n <= |code| && Word(code, n) != ""
    ensures Trim(code, n) == n == TrimClosed(code, n) && n > 0 && ParenOf(code, n - 1) == Neither
  {
  }

  lemma FreeWordIs(code: Signs, n: nat, seen: Seen)
    requires n <= |code| && WordsAgree(code, n, seen) && seen.punct.ident != ""
    ensures FreeWord(code, n) == FreeWord(code, TrimClosed(code, n))
    ensures FreeWord(code, n) == if seen.punct.member then "" else seen.punct.ident
    ensures Trim(code, n) == n
  {
    WordEnds(code, n);
  }

  lemma FinishFlags(p: Punct, w: string, f: Punct)
    requires p.ident != "" && w == (if p.member then "" else p.ident) && f == FinishIdent(p)
    ensures f.keyword == (IsRegexKeyword(w) || (w == "of" && p.forParen && p.parenDepth > 0))
    ensures f.control == IsControlKeyword(w) && f.forCtrl == (w == "for")
  {
  }

  lemma FlagsOfWord(code: Signs, n: nat, seen: Seen, f: Punct)
    requires n <= |code| && WordsAgree(code, n, seen) && seen.punct.ident != "" && f == FinishIdent(seen.punct)
    requires ParensAgree(PlaceAt(Parens(code), n), seen.punct)
    ensures FlagsAgree(code, n, f)
  {
    FreeWordIs(code, n, seen);
    InForIs(Parens(code), n);
    FinishFlags(seen.punct, FreeWord(code, n), f);
  }

  lemma {:induction false} FlagsCleared(code: Signs, n: nat, f: Punct)
    requires n < |code| && (code[n].Literal? || (code[n].Mark? && code[n] != Mark(')') && Word(code, n + 1) == ""))
    requires !f.keyword && !f.control
    ensures FlagsAgree(code, n + 1, f)
  {
    assert Trim(code, n + 1) == n + 1 == TrimClosed(code, n + 1) && Word(code, n + 1) == "";
  }

  lemma {:induction false} FlagsClosed(code: Signs, n: nat, f: Punct, g: Punct)
    requires n < |code| && code[n] == Mark(')') && FlagsAgree(code, n, f)
    requires !g.keyword && g.control == f.control && (g.control ==> g.forCtrl == f.forCtrl)
    ensures FlagsAgree(code, n + 1, g)
  {
    assert Trim(code, n + 1) == n + 1 && Word(code, n + 1) == "" && TrimClosed(code, n + 1) == TrimClosed(code, n);
  }

  lemma FlagsBlank(code: Signs, n: nat, f: Punct)
    requires n < |code| && code[n].Blank? && FlagsAgree(code, n, f)
    ensures FlagsAgree(code, n + 1, f)
  {
  }

  // ---------------------------------------------------------------- the whole of jsPunct

  ghost predicate Agrees(code: Signs, n: nat, seen: Seen)
    requires n <= |code|
  {
    && WordsAgree(code, n, seen) && FlagsAgree(code, n, FinishIdent(seen.punct))
    && ParensAgree(PlaceAt(Parens(code), n), seen.punct) && seen.punct.afterCtrl == AfterControl(code, n)
  }

  /** After a sign that is no blank only a closing parenthesis can be the end of a head. */
  lemma {:induction false} AfterSign(code: Signs, n: nat)
    requires n < |code|
    ensures AfterControl(code, n + 1) == if code[n].Blank? then AfterControl(code, n) else
              var place := PlaceAt(Parens(code), n);
              code[n] == Mark(')') && place.Within? && place.depth == 1
  {
    ParensAt(code, n);
    if !code[n].Blank? {
      assert Trim(code, n + 1) == n + 1;
      ClosesIs(Parens(code), n);
    }
  }

  lemma FinishTwice(p: Punct)
    ensures FinishIdent(FinishIdent(p)) == FinishIdent(p)
  {
  }

  lemma BlankParens(code: Signs, n: nat, p: Punct, f: Punct)
    requires n < |code| && code[n].Blank?
    requires ParensAgree(PlaceAt(Parens(code), n), p) && p.afterCtrl == AfterControl(code, n)
    requires f.parenDepth == p.parenDepth && f.forParen == p.forParen && f.afterCtrl == p.afterCtrl
    ensures ParensAgree(PlaceAt(Parens(code), n + 1), f) && f.afterCtrl == AfterControl(code, n + 1)
  {
    AfterSign(code, n);
    ParensAt(code, n);
    KeptAgrees(PlaceAt(Parens(code), n), n, p, f);
  }

  lemma AgreesBlank(code: Signs, n: nat, seen: Seen)
    requires n < |code| && code[n].Blank? && Agrees(code, n, seen)
    ensures Agrees(code, n + 1, Next(seen, code[n]))
  {
    var f := FinishIdent(seen.punct);
    FinishKeeps(seen.punct);
    FinishTwice(seen.punct);
    WordsBlank(code, n, seen);
    BlankParens(code, n, seen.punct, f);
    FlagsBlank(code, n, f);
  }

  lemma AgreesLiteral(code: Signs, n: nat, seen: Seen)
    requires n < |code| && code[n].Literal? && Agrees(code, n, seen)
    ensures Agrees(code, n + 1, Next(seen, code[n]))
  {
    WordsLiteral(code, n, seen);
    FinishKeeps(seen.punct);
    AfterSign(code, n);
    ParensAt(code, n);
    var q := Next(seen, code[n]).punct;
    KeptAgrees(PlaceAt(Parens(code), n), n, seen.punct, q);
    FlagsCleared(code, n, q);
  }

  predicate SpellsParen(c: char, paren: Paren) {
    if c == '(' then paren.Head? || paren.Opening? else if c == ')' then paren.Closing? else paren.Neither?
  }

  lemma MarkPlace(place: Place, n: nat, paren: Paren, p: Punct, c: char, adjacent: bool)
    requires ParensAgree(place, p) && SpellsParen(c, paren) && (c == '(' ==> FlagsGive(paren, FinishIdent(p)))
    requires p.ident != "" ==> !p.afterCtrl
    ensures ParensAgree(PlaceNext(paren, n, place), Saw(p, c, adjacent))
    ensures Saw(p, c, adjacent).afterCtrl == (c == ')' && place.Within? && place.depth == 1)
  {
    if c == '(' {
      OpenAgrees(place, n, paren, p, adjacent);
    } else if c == ')' {
      CloseAgrees(place, n, p, adjacent);
    } else {
      if IsIdentChar(c, p.ident != "") {
        SawLetter(p, c, adjacent);
      } else {
        SawElse(p, c, adjacent);
      }
      KeptAgrees(place, n, p, Saw(p, c, adjacent));
    }
  }

  lemma {:induction false} ParenGives(code: Signs, n: nat, c: char, f: Punct)
    requires n < |code| && code[n] == Mark(c) && FlagsAgree(code, n, f)
    ensures SpellsParen(c, ParenOf(code, n)) && (c == '(' ==> FlagsGive(ParenOf(code, n), f))
  {
  }

  lemma WordNoControl(code: Signs, n: nat)
    requires n <= |code| && Word(code, n) != ""
    ensures !AfterControl(code, n)
  {
    WordEnds(code, n);
    ParensAt(code, n - 1);
  }

  lemma {:induction false} MarkParens(code: Signs, n: nat, p: Punct, f: Punct, c: char, adjacent: bool)
    requires n < |code| && code[n] == Mark(c) && f == FinishIdent(p) && FlagsAgree(code, n, f)
    requires ParensAgree(PlaceAt(Parens(code), n), p) && (p.ident != "" ==> !p.afterCtrl)
    ensures ParensAgree(PlaceAt(Parens(code), n + 1), Saw(p, c, adjacent))
    ensures Saw(p, c, adjacent).afterCtrl == AfterControl(code, n + 1)
  {
    AfterSign(code, n);
    ParensAt(code, n);
    ParenGives(code, n, c, f);
    MarkPlace(PlaceAt(Parens(code), n), n, ParenOf(code, n), p, c, adjacent);
  }

  lemma {:induction false} FlagsMark(code: Signs, n: nat, seen: Seen, c: char, q: Punct)
    requires n < |code| && code[n] == Mark(c) && FlagsAgree(code, n, FinishIdent(seen.punct))
    requires seen.punct.ident == Word(code, n) && q == Saw(seen.punct, c, seen.adjacent)
    requires !IsIdentChar(c, seen.punct.ident != "")
    ensures FlagsAgree(code, n + 1, q) && q.ident == ""
  {
    SawKeyword(seen.punct, c, seen.adjacent);
    SawControl(seen.punct, c, seen.adjacent);
    if c == ')' {
      FlagsClosed(code, n, FinishIdent(seen.punct), q);
    } else {
      FlagsCleared(code, n, q);
    }
  }

  lemma {:induction false} AgreesMark(code: Signs, n: nat, seen: Seen, c: char)
    requires n < |code| && code[n] == Mark(c) && Agrees(code, n, seen)
    ensures Agrees(code, n + 1, Next(seen, code[n]))
  {
    var next := Next(seen, code[n]);
    SawWords(seen.punct, c, seen.adjacent);
    WordsMark(code, n, seen, next);
    if seen.punct.ident != "" {
      WordNoControl(code, n);
    }
    MarkParens(code, n, seen.punct, FinishIdent(seen.punct), c, seen.adjacent);
    if IsIdentChar(c, seen.punct.ident != "") {
      FlagsOfWord(code, n + 1, next, FinishIdent(next.punct));
    } else {
      FlagsMark(code, n, seen, c, next.punct);
    }
  }

  lemma AgreesNext(code: Signs, n: nat, seen: Seen)
    requires n < |code| && Agrees(code, n, seen)
    ensures Agrees(code, n + 1, Next(seen, code[n]))
  {
    match code[n] {
      case Blank => AgreesBlank(code, n, seen);
      case Literal(_) => AgreesLiteral(code, n, seen);
      case Mark(c) => AgreesMark(code, n, seen, c);
    }
  }

  /** What holds at the start and is kept by every sign holds at every place. */
  lemma {:induction false} AtEveryPlace(code: Signs, n: nat, holds: (nat, Seen) -> bool)
    requires n <= |code| && holds(0, Seen(Fresh(), false))
    requires forall i: nat, seen :: i < |code| && holds(i, seen) ==> holds(i + 1, Next(seen, code[i]))
    ensures holds(n, After(code, n))
  {
    if n > 0 {
      AtEveryPlace(code, n - 1, holds);
    }
  }

  lemma AgreesStart(code: Signs)
    ensures Agrees(code, 0, Seen(Fresh(), false))
  {
  }

  ghost predicate MeansAgrees(code: Signs, holds: (nat, Seen) -> bool) {
    forall i: nat, seen {:trigger holds(i, seen)} :: holds(i, seen) <==> i <= |code| && Agrees(code, i, seen)
  }

  lemma HoldsNext(code: Signs, holds: (nat, Seen) -> bool, i: nat, seen: Seen)
    requires MeansAgrees(code, holds) && i < |code| && holds(i, seen)
    ensures holds(i + 1, Next(seen, code[i]))
  {
    AgreesNext(code, i, seen);
  }

  lemma HoldsEverywhere(code: Signs, holds: (nat, Seen) -> bool, n: nat)
    requires MeansAgrees(code, holds) && holds(0, Seen(Fresh(), false)) && n <= |code|
    ensures holds(n, After(code, n))
  {
    forall i: nat, seen | i < |code| && holds(i, seen) ensures holds(i + 1, Next(seen, code[i])) {
      HoldsNext(code, holds, i, seen);
    }
    AtEveryPlace(code, n, holds);
  }

  lemma JsPunctAgrees(code: Signs, n: nat)
    requires n <= |code|
    ensures Agrees(code, n, After(code, n))
  {
    AgreesStart(code);
    HoldsEverywhere(code, (i: nat, seen: Seen) => i <= |code| && Agrees(code, i, seen), n);
  }

  lemma CanStart(code: Signs, n: nat, seen: Seen, f: Punct)
    requires n <= |code| && Agrees(code, n, seen) && f == FinishIdent(seen.punct)
    ensures CanStartRegex(f) <==> LiteralMayStart(code, n)
  {
    FinishKeeps(seen.punct);
    assert f.before == seen.punct.before;
  }

  /** For all code jsPunct takes a `/` for the start of a regular expression exactly after a
      keyword that an expression may follow, after the parenthesis that ends the head of an
      outermost control statement, and after an operator that is not `++` or `--`. */
  lemma StartsExactly(code: Signs, n: nat)
    requires n <= |code|
    ensures CanStartRegex(FinishIdent(After(code, n).punct)) <==> LiteralMayStart(code, n)
  {
    JsPunctAgrees(code, n);
    CanStart(code, n, After(code, n), FinishIdent(After(code, n).punct));
  }

  // ---------------------------------------------------------------- what that means

  lemma NoKeyword()
    ensures !IsRegexKeyword("") && !IsControlKeyword("") && !RegexMayFollow(')')
  {
  }

  lemma {:induction false} AfterClosing(code: Signs, n: nat, m: nat, closes: bool)
    requires n < |code| && m == n + 1 && code[n] == Mark(')') && (ClosesOutermost(Parens(code), n) <==> closes)
    ensures LiteralMayStart(code, m) <==> closes
  {
    NoKeyword();
    assert Trim(code, m) == m && Word(code, m) == "" && Prev(code, m) == ')';
  }

  lemma {:induction false} BalancedCloses(code: Signs, i: nat, n: nat)
    requires n < |code| && Balanced(Parens(code), i, n)
    ensures code[n] == Mark(')')
  {
    var ps := Parens(code);
    assert Nesting(ps, i, n) >= 1 && Nesting(ps, i, n + 1) == Nesting(ps, i, n) + Turn(ps[n]);
    ParensAt(code, n);
  }

  /** After the head of a control statement a `/` starts a regular expression exactly when
      the statement does not stand inside the head of another one. */
  lemma HeadThenLiteral(code: Signs, i: nat, n: nat)
    requires n < |code| && Balanced(Parens(code), i, n)
    ensures LiteralMayStart(code, n + 1) <==> Alone(Parens(code), i)
  {
    BalancedCloses(code, i, n);
    ControlEnds(Parens(code), i, n);
    AfterClosing(code, n, n + 1, Alone(Parens(code), i));
  }

  /** White space and comments change nothing; after a string or a regular expression a `/`
      divides. */
  lemma AfterPassedOver(code: Signs, n: nat)
    requires n < |code| && (code[n].Blank? || (code[n].Literal? && !RegexMayFollow(code[n].last)))
    ensures LiteralMayStart(code, n + 1) <==> code[n].Blank? && LiteralMayStart(code, n)
  {
    AfterSign(code, n);
    if code[n].Literal? {
      assert Trim(code, n + 1) == n + 1 && Word(code, n + 1) == "";
    }
  }

  /** How many signs like the last one stand before n, blanks apart. */
  function RunBefore(code: Signs, n: nat): (k: nat)
    requires n <= |code|
    ensures k <= n
  {
    if n == 0 then 0 else if n >= 2 && code[n - 1] == code[n - 2] then 1 + RunBefore(code, n - 1) else 1
  }

  lemma {:induction false} RunIsMarks(code: Signs, n: nat)
    requires n <= |code|
    ensures RunBefore(code, n) >= 2 <==> n >= 2 && code[n - 1] == code[n - 2]
  {
    if n >= 2 {
      RunIsMarks(code, n - 1);
    }
  }

  /** JavaScript reads a run of plus or minus signs two at a time, so that it ends in `++` or
      `--` when its length is even. jsPunct agrees, and has a `/` after it divide, exactly
      unless the length is odd and more than one. */
  lemma {:induction false} SignRuns(code: Signs, n: nat)
    requires n <= |code| && Trim(code, n) > 0
    requires code[Trim(code, n) - 1] == Mark('+') || code[Trim(code, n) - 1] == Mark('-')
    ensures var k := RunBefore(code, Trim(code, n));
            (LiteralMayStart(code, n) <==> k % 2 != 0) <==> !(k % 2 != 0 && k > 1)
  {
    var t := Trim(code, n);
    RunIsMarks(code, t);
    AfterOperator(code, n, t);
  }

  lemma {:induction false} AfterOperator(code: Signs, n: nat, t: nat)
    requires n <= |code| && t == Trim(code, n) > 0 && (code[t - 1] == Mark('+') || code[t - 1] == Mark('-'))
    ensures LiteralMayStart(code, n) <==> !Doubled(code, n)
  {
    NoKeyword();
    ParensAt(code, t - 1);
    assert Word(code, t) == "" && RegexMayFollow(Prev(code, n));
  }

  function Marks(s: string): Signs {
    seq(|s|, i requires 0 <= i < |s| => Mark(s[i]))
  }

  lemma HeadWords(code: Signs)
    requires code == Marks("if(()=>{if(x)")
    ensures ControlWord(code, 2) == "if" && ControlWord(code, 3) == "" && ControlWord(code, 10) == "if"
  {
    assert Word(code, 0) == "" && Word(code, 1) == "i" && Word(code, 2) == "if";
    assert Word(code, 8) == "" && Word(code, 9) == "i" && Word(code, 10) == "if";
  }

  lemma TwoHeads(code: Signs, i: nat)
    requires code == Marks("if(()=>{if(x)") && i < 13
    ensures Parens(code)[i] == if i in {2, 10} then Head(false) else if i == 3 then Opening
                               else if i in {4, 12} then Closing else Neither
  {
    HeadWords(code);
    ParensAt(code, i);
  }

  lemma {:induction false} SecondInside(ps: seq<Paren>)
    requires |ps| == 13 && ps[2] == ps[10] == Head(false) && ps[3] == Opening && ps[4] == ps[12] == Closing
    requires forall i :: 5 <= i < 12 && i != 10 ==> ps[i] == Neither
    ensures Balanced(ps, 10, 12) && !Alone(ps, 10)
  {
    assert Nesting(ps, 2, 4) == 2 && Nesting(ps, 2, 6) == 1 && Nesting(ps, 2, 8) == 1 && Nesting(ps, 2, 10) == 1;
    assert Nesting(ps, 10, 12) == 1;
    assert OpenAt(ps, 2, 10);
  }

  /** The head of the inner statement here is valid, and a regular expression may follow it
      in JavaScript; jsPunct takes a `/` after it for a division. */
  lemma HeadInsideHead()
    ensures var code := Marks("if(()=>{if(x)");
            Balanced(Parens(code), 10, 12) && !LiteralMayStart(code, 13)
  {
    var code := Marks("if(()=>{if(x)");
    forall i: nat | i < 13 {
      TwoHeads(code, i);
    }
    SecondInside(Parens(code));
    HeadThenLiteral(code, 10, 12);
  }
}
