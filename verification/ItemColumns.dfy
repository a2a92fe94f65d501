/** Where the content of a list item starts: listItemSplit of pkg/configdef/validate.go
    against CommonMark 0.31.2 section 5.2. */
module ItemColumns {

  import opened BlockScan

  predicate IsPad(c: char) {
    c == ' ' || c == '\t'
  }

  /** The column after the first j blanks, from column `start`. */
  function ColumnAfter(blanks: string, start: nat, j: nat): (col: nat)
    requires j <= |blanks|
    ensures col >= start + j
  {
    if j == 0 then start
    else if blanks[j - 1] == '\t' then NextTab(ColumnAfter(blanks, start, j - 1))
    else ColumnAfter(blanks, start, j - 1) + 1
  }

  lemma {:induction false} ColumnsGrow(blanks: string, start: nat, i: nat, j: nat)
    requires i < j <= |blanks|
    ensures ColumnAfter(blanks, start, i) < ColumnAfter(blanks, start, j)
    decreases j
  {
    if i < j - 1 {
      ColumnsGrow(blanks, start, i, j - 1);
    }
  }

  /** Some of the blanks end exactly four columns after the marker. */
  predicate StopsAtFour(blanks: string, start: nat) {
    exists j :: 0 <= j <= |blanks| && ColumnAfter(blanks, start, j) == start + TAB_WIDTH
  }

  /** trimmed is a marker up to `end`, then blanks, then text. */
  predicate ItemLine(trimmed: string, end: nat, blanks: string, text: string) {
    && end <= |trimmed| && trimmed[end..] == blanks + text && blanks != ""
    && (forall i :: 0 <= i < |blanks| ==> IsPad(blanks[i])) && text != "" && !IsPad(text[0])
  }

  lemma BlankAt(trimmed: string, end: nat, blanks: string, text: string, i: nat)
    requires ItemLine(trimmed, end, blanks, text) && i <= |blanks|
    ensures end + i < |trimmed| && trimmed[end + i] == (if i < |blanks| then blanks[i] else text[0])
    ensures trimmed[end + |blanks|..] == text
  {
    assert trimmed[end + i] == trimmed[end..][i] == (blanks + text)[i];
    assert trimmed[end + |blanks|..] == trimmed[end..][|blanks|..];
  }

  lemma NoStop(blanks: string, start: nat, i: nat)
    requires i < |blanks| && ColumnAfter(blanks, start, i) < start + TAB_WIDTH < ColumnAfter(blanks, start, i + 1)
    ensures !StopsAtFour(blanks, start)
  {
    forall j | 0 <= j <= |blanks| ensures ColumnAfter(blanks, start, j) != start + TAB_WIDTH {
      if j < i {
        ColumnsGrow(blanks, start, j, i);
      } else if j > i + 1 {
        ColumnsGrow(blanks, start, i + 1, j);
      }
    }
  }

  /** What the padding loop gives for blanks that reach `last`, when some of them stop at the
      fourth column or none does. */
  predicate Splits(item: Item, trimmed: string, end: nat, start: nat, text: string, last: nat, stops: bool) {
    if last <= start + TAB_WIDTH then item == Item(last, text)
    else if stops then item.Item? && item.col == start + TAB_WIDTH
    else end < |trimmed| && item == Item(start + 1, trimmed[end + 1..])
  }

  lemma {:induction false} PaddingIs(trimmed: string, end: nat, start: nat, blanks: string, text: string, i: nat,
                                     last: nat, stops: bool)
    requires ItemLine(trimmed, end, blanks, text) && i <= |blanks| && stops == StopsAtFour(blanks, start)
    requires ColumnAfter(blanks, start, i) < start + TAB_WIDTH && last == ColumnAfter(blanks, start, |blanks|)
    ensures var item := Padding(trimmed, end, start, end + i, ColumnAfter(blanks, start, i));
            Splits(item, trimmed, end, start, text, last, stops)
    decreases |blanks| - i
  {
    BlankAt(trimmed, end, blanks, text, i);
    if i < |blanks| {
      var next := ColumnAfter(blanks, start, i + 1);
      if next < start + TAB_WIDTH {
        PaddingIs(trimmed, end, start, blanks, text, i + 1, last, stops);
      } else {
        PaddingEnds(trimmed, end, start, blanks, text, i, last, stops);
      }
    } else {
      ColumnsGrow(blanks, start, 0, |blanks|);
    }
  }

  /** The turn of the loop that reaches the fourth column. */
  lemma PaddingEnds(trimmed: string, end: nat, start: nat, blanks: string, text: string, i: nat, last: nat, stops: bool)
    requires ItemLine(trimmed, end, blanks, text) && i < |blanks| && stops == StopsAtFour(blanks, start)
    requires ColumnAfter(blanks, start, i) < start + TAB_WIDTH <= ColumnAfter(blanks, start, i + 1)
    requires last == ColumnAfter(blanks, start, |blanks|)
    ensures var item := Padding(trimmed, end, start, end + i, ColumnAfter(blanks, start, i));
            Splits(item, trimmed, end, start, text, last, stops)
  {
    BlankAt(trimmed, end, blanks, text, i);
    if i + 1 < |blanks| {
      ColumnsGrow(blanks, start, i + 1, |blanks|);
    }
    if ColumnAfter(blanks, start, i + 1) == start + TAB_WIDTH {
      assert stops;
    } else {
      NoStop(blanks, start, i);
    }
  }

  /** The content column of CommonMark 0.31.2 section 5.2: after up to four columns of
      blanks at the text, after more than that one column past the marker. */
  function CommonColumn(start: nat, last: nat): nat {
    if last <= start + TAB_WIDTH then last else start + 1
  }

  lemma SplitIsPadding(indent: nat, trimmed: string, end: nat, number: int, blanks: string, text: string)
    requires ListMarker(trimmed) == Marker(end, number) && ItemLine(trimmed, end, blanks, text)
    ensures ListItemSplit(indent, trimmed) == Padding(trimmed, end, indent + end, end, indent + end)
  {
    BlankAt(trimmed, end, blanks, text, 0);
  }

  lemma ItemSplits(indent: nat, trimmed: string, end: nat, number: int, blanks: string, text: string, start: nat,
                   last: nat, stops: bool, item: Item)
    requires ListMarker(trimmed) == Marker(end, number) && ItemLine(trimmed, end, blanks, text)
    requires start == indent + end && last == ColumnAfter(blanks, start, |blanks|)
    requires stops == StopsAtFour(blanks, start) && item == ListItemSplit(indent, trimmed)
    ensures Splits(item, trimmed, end, start, text, last, stops)
  {
    PaddingIs(trimmed, end, start, blanks, text, 0, last, stops);
    SplitIsPadding(indent, trimmed, end, number, blanks, text);
  }

  lemma SplitColumn(item: Item, trimmed: string, end: nat, start: nat, text: string, last: nat, stops: bool)
    requires Splits(item, trimmed, end, start, text, last, stops)
    ensures item.Item? && (last <= start + TAB_WIDTH ==> item == Item(last, text))
    ensures item.col == CommonColumn(start, last) <==> last <= start + TAB_WIDTH || !stops
  {
  }

  /** The content column of every item with text is that of CommonMark, and up to four
      columns of blanks all go, exactly unless more than four columns of blanks pass through
      the fourth: then it is the fourth. */
  lemma ItemColumn(indent: nat, trimmed: string, end: nat, number: int, blanks: string, text: string, start: nat,
                   last: nat, stops: bool)
    requires ListMarker(trimmed) == Marker(end, number) && ItemLine(trimmed, end, blanks, text)
    requires start == indent + end && last == ColumnAfter(blanks, start, |blanks|)
    requires stops == StopsAtFour(blanks, start)
    ensures var item := ListItemSplit(indent, trimmed);
            && item.Item? && (last <= start + TAB_WIDTH ==> item == Item(last, text))
            && (item.col == CommonColumn(start, last) <==> last <= start + TAB_WIDTH || !stops)
  {
    var item := ListItemSplit(indent, trimmed);
    ItemSplits(indent, trimmed, end, number, blanks, text, start, last, stops, item);
    SplitColumn(item, trimmed, end, start, text, last, stops);
  }

  /** Five blanks: the program has the content start at column 5, CommonMark at column 2. */
  lemma FiveBlanks()
    ensures ListItemSplit(0, "-     a") == Item(5, " a") && CommonColumn(1, 6) == 2
  {
    var trimmed := "-     a";
    assert ListMarker(trimmed) == Marker(1, BULLET_START);
    assert Padding(trimmed, 1, 1, 4, 4) == Item(5, trimmed[5..]);
    assert Padding(trimmed, 1, 1, 3, 3) == Item(5, trimmed[5..]);
    assert Padding(trimmed, 1, 1, 2, 2) == Item(5, trimmed[5..]);
    assert trimmed[5..] == " a";
  }
}
