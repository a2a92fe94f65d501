/** What the readers of one line in pkg/configdef/validate.go recognise, said by the shape of
    the line: indents, fences, list markers, headings, rules and underlines. */
module BlockLines {

  import opened BlockScan
  import opened FreshName
  import opened ItemColumns

  // ---------------------------------------------------------------- blanks and indents

  /** White space is what Unicode calls so. */
  lemma SpaceExactly(c: char)
    ensures IsSpace(c)
       <==> c as int in [0x09, 0x0A, 0x0B, 0x0C, 0x0D, 0x20, 0x85, 0xA0, 0x1680, 0x2000, 0x2001, 0x2002, 0x2003, 0x2004,
                         0x2005, 0x2006, 0x2007, 0x2008, 0x2009, 0x200A, 0x2028, 0x2029, 0x202F, 0x205F, 0x3000]
  {
  }

  predicate AllSpace(s: string) {
    forall i :: 0 <= i < |s| ==> IsSpace(s[i])
  }

  predicate Bare(s: string) {
    s != "" ==> !IsSpace(s[0]) && !IsSpace(s[|s| - 1])
  }

  lemma {:induction false} LeftSpace(s: string) returns (a: string)
    ensures AllSpace(a) && s == a + TrimLeft(s) && (TrimLeft(s) != "" ==> !IsSpace(TrimLeft(s)[0]))
  {
    if s != "" && IsSpace(s[0]) {
      a := LeftSpace(s[1..]);
      assert s == [s[0]] + s[1..];
      a := [s[0]] + a;
    } else {
      a := "";
    }
  }

  lemma {:induction false} RightSpace(s: string) returns (b: string)
    ensures AllSpace(b) && s == TrimRight(s) + b && (TrimRight(s) != "" ==> !IsSpace(TrimRight(s)[|TrimRight(s)| - 1]))
  {
    if s != "" && IsSpace(s[|s| - 1]) {
      b := RightSpace(s[..|s| - 1]);
      assert s == s[..|s| - 1] + [s[|s| - 1]];
      b := b + [s[|s| - 1]];
    } else {
      b := "";
    }
  }

  /** Trimming takes white space from both ends, and all of it. */
  lemma TrimExactly(s: string) returns (a: string, b: string)
    ensures AllSpace(a) && AllSpace(b) && s == a + TrimSpace(s) + b && Bare(TrimSpace(s))
  {
    a := LeftSpace(s);
    var left := TrimLeft(s);
    b := RightSpace(left);
    assert s == a + (TrimRight(left) + b);
    if TrimRight(left) != "" {
      assert TrimRight(left)[0] == left[0];
    }
  }

  /** A tab goes to the next multiple of four. */
  lemma TabStops(col: nat)
    ensures col < NextTab(col) <= col + 4 && NextTab(col) % 4 == 0
  {
  }

  lemma {:induction false} ColumnFirst(blanks: string, col: nat, j: nat)
    requires 0 < j <= |blanks|
    ensures ColumnAfter(blanks, col, j)
         == ColumnAfter(blanks[1..], if blanks[0] == '\t' then NextTab(col) else col + 1, j - 1)
    decreases j
  {
    if j > 1 {
      ColumnFirst(blanks, col, j - 1);
    }
  }

  /** The indent is the column that the blanks before the text reach. */
  lemma {:induction false} IndentIs(blanks: string, rest: string, col: nat)
    requires forall i :: 0 <= i < |blanks| ==> IsPad(blanks[i])
    requires rest != "" ==> !IsPad(rest[0])
    ensures IndentFrom(blanks + rest, col) == ColumnAfter(blanks, col, |blanks|)
  {
    if blanks == "" {
      assert blanks + rest == rest;
    } else {
      var next := if blanks[0] == '\t' then NextTab(col) else col + 1;
      IndentIs(blanks[1..], rest, next);
      assert (blanks + rest)[1..] == blanks[1..] + rest;
      ColumnFirst(blanks, col, |blanks|);
    }
  }

  // ---------------------------------------------------------------- fences

  /** A run of at least three marks, and after backticks no other backtick. */
  predicate FenceShape(t: string, mark: char, n: nat) {
    && (mark == '`' || mark == '~') && 3 <= n <= |t|
    && AllOf(t[..n], mark) && (n < |t| ==> t[n] != mark)
    && (mark == '`' ==> forall i :: n <= i < |t| ==> t[i] != '`')
  }

  lemma RunLengthIs(s: string, c: char, n: nat)
    requires n <= |s| && AllOf(s[..n], c) && (n < |s| ==> s[n] != c)
    ensures RunLength(s, c) == n
  {
    RunIs(s, c);
    var k := RunLength(s, c);
    assert forall i :: 0 <= i < n ==> s[i] == s[..n][i];
    assert forall i :: 0 <= i < k ==> s[i] == s[..k][i];
  }

  lemma OpenerExactly(t: string, mark: char, n: nat)
    ensures FenceOpener(t) == Fence(mark, n) <==> FenceShape(t, mark, n)
  {
    if t != "" {
      RunIs(t, t[0]);
    }
    if FenceShape(t, mark, n) {
      assert t[..n][0] == t[0];
      RunLengthIs(t, mark, n);
    }
  }

  // ---------------------------------------------------------------- list markers

  predicate IsDigit(c: char) {
    '0' <= c <= '9'
  }

  predicate AllDigits(s: string) {
    forall i :: 0 <= i < |s| ==> IsDigit(s[i])
  }

  /** A number reads back. */
  lemma {:induction false} NumberReadsBack(n: nat)
    ensures Number(Decimal(n)) == n && AllDigits(Decimal(n))
  {
    if n < 10 {
      assert Decimal(n)[..0] == "";
      assert Number("") == 0;
    } else {
      NumberReadsBack(n / 10);
      assert Decimal(n)[..|Decimal(n)| - 1] == Decimal(n / 10);
    }
  }

  /** and zeroes before it do not count. */
  lemma {:induction false} NumberZero(s: string)
    ensures Number("0" + s) == Number(s)
  {
    if s == "" {
      assert "0" + s == "0" && "0"[..0] == "";
      assert Number("") == 0;
    } else {
      NumberZero(s[..|s| - 1]);
      assert ("0" + s)[..|"0" + s| - 1] == "0" + s[..|s| - 1];
    }
  }

  lemma {:induction false} DigitsAre(s: string, limit: nat)
    ensures var d := Digits(s, limit); AllDigits(s[..d]) && (d < limit && d < |s| ==> !IsDigit(s[d]))
  {
    if limit > 0 && s != "" && IsDigit(s[0]) {
      var d := Digits(s[1..], limit - 1);
      DigitsAre(s[1..], limit - 1);
      assert s[..d + 1] == [s[0]] + s[1..][..d];
    }
  }

  /** A bullet, or one to nine digits and a dot or a parenthesis. */
  predicate MarkerShape(t: string, end: nat, start: int) {
    || (t != "" && (t[0] == '-' || t[0] == '*' || t[0] == '+') && end == 1 && start == -1)
    || (2 <= end <= 10 && end <= |t| && AllDigits(t[..end - 1]) && (t[end - 1] == '.' || t[end - 1] == ')')
        && start == Number(t[..end - 1]))
  }

  lemma DigitsIs(t: string, n: nat)
    requires n <= 9 && n < |t| && AllDigits(t[..n]) && !IsDigit(t[n])
    ensures Digits(t, 9) == n
  {
    DigitsAre(t, 9);
    var d := Digits(t, 9);
    assert forall i :: 0 <= i < n ==> t[i] == t[..n][i];
    assert forall i :: 0 <= i < d ==> t[i] == t[..d][i];
  }

  lemma MarkerExactly(t: string, end: nat, start: int)
    ensures ListMarker(t) == Marker(end, start) <==> MarkerShape(t, end, start)
  {
    DigitsAre(t, 9);
    if 2 <= end <= 10 && end <= |t| && AllDigits(t[..end - 1]) && (t[end - 1] == '.' || t[end - 1] == ')') {
      DigitsIs(t, end - 1);
      assert t[..end - 1][0] == t[0];
    }
  }

  /** There is something after the marker that is not white space. */
  lemma ContentExactly(t: string, end: nat, start: int)
    requires ListMarker(t) == Marker(end, start)
    ensures ListItemHasContent(t) <==> exists i :: end <= i < |t| && !IsSpace(t[i])
  {
    var rest := t[end..];
    var a, b := TrimExactly(rest);
    if TrimSpace(rest) == "" {
      assert rest == a + b;
      forall i | end <= i < |t| ensures IsSpace(t[i]) {
        assert t[i] == rest[i - end];
      }
    } else {
      assert rest[|a|] == TrimSpace(rest)[0];
      assert t[end + |a|] == rest[|a|];
    }
  }

  /** A list item is a marker that ends the line or has a blank after it; at the end of the
      line its content column is one past the marker. */
  lemma ItemExactly(indent: nat, t: string)
    ensures ListItemSplit(indent, t).Item?
       <==> exists end: nat, start :: MarkerShape(t, end, start) && (end == |t| || IsPad(t[end]))
    ensures forall start :: MarkerShape(t, |t|, start) ==> ListItemSplit(indent, t) == Item(indent + |t| + 1, "")
  {
    match ListMarker(t) {
      case Marker(end, start) =>
        MarkerExactly(t, end, start);
        if end < |t| && IsPad(t[end]) {
          PaddingThere(t, end, indent + end, end, indent + end);
        }
      case NoMarker =>
    }
    forall e: nat, n | MarkerShape(t, e, n) ensures ListMarker(t) == Marker(e, n) {
      MarkerExactly(t, e, n);
    }
  }

  lemma {:induction false} PaddingThere(t: string, end: nat, start: nat, idx: nat, col: nat)
    requires end <= idx <= |t| && end < |t| && start <= col
    requires col > start || (idx < |t| && IsPad(t[idx]))
    ensures Padding(t, end, start, idx, col).Item?
    decreases |t| - idx
  {
    if idx < |t| && IsPad(t[idx]) {
      var next := if t[idx] == ' ' then col + 1 else NextTab(col);
      if next - start < TAB_WIDTH {
        PaddingThere(t, end, start, idx + 1, next);
      }
    }
  }

  // ---------------------------------------------------------------- headings and rules

  /** One to six `#`, and a blank after them or nothing. */
  predicate HeadingShape(t: string) {
    exists n :: 1 <= n <= 6 && n <= |t| && AllOf(t[..n], '#') && (n == |t| || IsPad(t[n]))
  }

  lemma HeadingExactly(t: string)
    ensures AtxHeading(t) <==> HeadingShape(t)
  {
    RunIs(t, '#');
    if HeadingShape(t) {
      var n :| 1 <= n <= 6 && n <= |t| && AllOf(t[..n], '#') && (n == |t| || IsPad(t[n]));
      RunLengthIs(t, '#', n);
    }
  }

  /** mark stands at three places, with only blanks besides it. */
  predicate RuleOf(t: string, mark: char) {
    && (forall i :: 0 <= i < |t| ==> IsPad(t[i]) || t[i] == mark)
    && exists i, j, k :: 0 <= i < j < k < |t| && t[i] == t[j] == t[k] == mark
  }

  predicate RuleShape(t: string) {
    RuleOf(t, '-') || RuleOf(t, '*') || RuleOf(t, '_')
  }

  /** places are where c is in s. */
  predicate PlacesOf(s: string, c: char, places: seq<nat>) {
    InOrder(places, |s|) && (forall i :: 0 <= i < |places| ==> s[places[i]] == c)
    && forall k :: 0 <= k < |s| && s[k] == c ==> k in places
  }

  lemma {:induction false} CountPlaces(s: string, c: char) returns (places: seq<nat>)
    ensures PlacesOf(s, c, places) && |places| == CountOf(s, c)
  {
    if s == "" {
      places := [];
    } else {
      var init := s[..|s| - 1];
      places := CountPlaces(init, c);
      assert forall k :: 0 <= k < |init| ==> init[k] == s[k];
      if s[|init|] == c {
        places := places + [|init|];
        assert |init| in places;
      }
    }
  }

  lemma RuleExactly(t: string, mark: char)
    ensures ThematicOf(t, mark) <==> RuleOf(t, mark)
  {
    var places := CountPlaces(t, mark);
    if CountOf(t, mark) >= 3 {
      assert t[places[0]] == t[places[1]] == t[places[2]] == mark;
    }
    if i, j, k :| 0 <= i < j < k < |t| && t[i] == t[j] == t[k] == mark {
      ThreePlaces(places, i, j, k);
    }
  }

  lemma ThreePlaces(places: seq<nat>, i: nat, j: nat, k: nat)
    requires i in places && j in places && k in places && i < j < k
    ensures |places| >= 3
  {
    var a :| 0 <= a < |places| && places[a] == i;
    var b :| 0 <= b < |places| && places[b] == j;
    var c :| 0 <= c < |places| && places[c] == k;
    assert a != b && b != c && a != c;
  }

  /** A run of `=` or of `-`. */
  predicate UnderlineShape(t: string) {
    t != "" && (AllOf(t, '=') || AllOf(t, '-'))
  }

  lemma UnderlineExactly(t: string)
    ensures SetextUnderline(t) <==> UnderlineShape(t)
  {
    if t != "" {
      RunIs(t, t[0]);
    }
  }
}
