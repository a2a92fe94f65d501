/** What the scanner of markdown keeps, said line by line without its fields: each line has a
    kind, decided by its shape and by a look back over the kinds of the lines before it. */
module BlockReading {

  import opened BlockLines
  import opened BlockScan
  import opened ItemColumns
  import opened Sequences
  import opened Wrappers

  /** Text is written out: `leaf` for a heading, a rule or an underline, anything else is
      part of a paragraph; `item` is the content column of a list item that starts there.
      An opener may stand on the first line of an item too. */
  datatype Kind =
    | BlankLine
    | Text(leaf: bool, item: Option<nat>)
    | Code
    | Opener(mark: char, length: nat, base: nat, item: Option<nat>)
    | Body
    | Closer

  datatype Read = Read(kind: Kind, indent: nat)

  type Reads = seq<Read>

  // ---------------------------------------------------------------- looking back

  /** The line before is paragraph text. */
  predicate AfterText(seen: Reads) {
    seen != [] && seen[|seen| - 1].kind.Text? && !seen[|seen| - 1].kind.leaf
  }

  /** The opener of the fence that is still open. */
  function OpenFenceOf(seen: Reads): Option<Kind> {
    if seen == [] then None
    else
      var last := seen[|seen| - 1].kind;
      if last.Opener? then Some(last) else if last.Body? then OpenFenceOf(seen[..|seen| - 1]) else None
  }

  function ItemOf(kind: Kind): Option<nat> {
    if kind.Text? || kind.Opener? then kind.item else None
  }

  /** A line that ends the list items whose content column it does not reach. */
  predicate EndsItems(kind: Kind) {
    kind.Text? || kind.Code? || kind.Opener?
  }

  function Least(a: nat, b: nat): nat {
    if a < b then a else b
  }

  /** The content columns, the outermost first, of the list items that a line with this
      indent is in: no line since reached less far. */
  function Columns(seen: Reads, indent: nat): seq<nat> {
    if seen == [] then []
    else
      var init, last := seen[..|seen| - 1], seen[|seen| - 1];
      var low := if EndsItems(last.kind) then Least(indent, last.indent) else indent;
      match ItemOf(last.kind)
      case Some(col) => Columns(init, low) + if col <= indent then [col] else []
      case None => Columns(init, low)
  }

  /** The column that the indent counts from: that of the innermost item. */
  function Base(seen: Reads, indent: nat): nat {
    var cols := Columns(seen, indent);
    if cols == [] then 0 else cols[|cols| - 1]
  }

  // ---------------------------------------------------------------- the kind of the next line

  /** A list item may interrupt a paragraph only with text, and with a bullet or number 1. */
  ghost predicate ItemMayStart(seen: Reads, trimmed: string) {
    AfterText(seen) ==>
      exists end: nat, start ::
        MarkerShape(trimmed, end, start) && (start == -1 || start == 1)
        && exists i :: end <= i < |trimmed| && !IsSpace(trimmed[i])
  }

  /** An underline makes a heading of the paragraph before it. */
  predicate Underlines(seen: Reads, trimmed: string) {
    AfterText(seen) && UnderlineShape(trimmed)
  }

  /** The list item that starts on this line, when it is not indented too far. */
  ghost function ItemAt(seen: Reads, indent: nat, trimmed: string): Item {
    if !Underlines(seen, trimmed) && ItemMayStart(seen, trimmed) then ListItemSplit(indent, trimmed) else NoItem
  }

  ghost function OutsideKind(seen: Reads, indent: nat, trimmed: string): Kind {
    if trimmed == "" then BlankLine
    else
      var base := Base(seen, indent);
      var item := ItemAt(seen, indent, trimmed);
      if base + 4 <= indent then (if AfterText(seen) then Text(false, None) else Code)
      else if FenceOpener(trimmed).Fence? then
        var fence := FenceOpener(trimmed);
        Opener(fence.mark, fence.length, base, None)
      else if item.Item? && FenceOpener(TrimSpace(item.rest)).Fence? then
        var fence := FenceOpener(TrimSpace(item.rest));
        Opener(fence.mark, fence.length, item.col, Some(item.col))
      else
        Text(HeadingShape(trimmed) || RuleShape(trimmed) || Underlines(seen, trimmed),
             if item.Item? && !RuleShape(trimmed) then Some(item.col) else None)
  }

  /** The kind of a line after the lines read: inside a fence it closes it, belongs to it, or
      ends it by standing left of it. */
  ghost function KindOf(seen: Reads, line: string): Kind {
    var indent, trimmed := LeadingIndent(line), TrimSpace(line);
    match OpenFenceOf(seen)
    case Some(fence) =>
      if fence.Opener? && Closing(line, fence.base, fence.mark, fence.length) then Closer
      else if fence.Opener? && (trimmed == "" || indent >= fence.base) then Body
      else OutsideKind(seen, indent, trimmed)
    case None => OutsideKind(seen, indent, trimmed)
  }

  /** Text and blank lines are written out. */
  predicate Keeps(kind: Kind) {
    kind.Text? || kind.BlankLine?
  }

  ghost function Reading(lines: seq<string>): (seen: Reads)
    ensures |seen| == |lines|
  {
    if lines == [] then []
    else
      var before, last := Reading(lines[..|lines| - 1]), lines[|lines| - 1];
      before + [Read(KindOf(before, last), LeadingIndent(last))]
  }

  /** The lines that are kept. */
  ghost function KeptLines(lines: seq<string>, seen: Reads): seq<string>
    requires |seen| == |lines|
  {
    if lines == [] then []
    else
      var n := |lines| - 1;
      KeptLines(lines[..n], seen[..n]) + if Keeps(seen[n].kind) then [lines[n]] else []
  }

  // ---------------------------------------------------------------- the scanner agrees

  /** The content columns of the scanner are those of the look back. */
  ghost predicate SameColumns(seen: Reads, lists: seq<nat>) {
    forall low: nat {:trigger Columns(seen, low)} :: Popped(lists, low) == Columns(seen, low)
  }

  /** The scanner after the lines read, a fence apart. */
  ghost predicate AgreesOutside(seen: Reads, st: Scan) {
    && Good(st) && !st.inFence && SameColumns(seen, st.lists)
    && st.lastWasParagraph == AfterText(seen) && (st.canStartIndented || st.inIndented <==> !AfterText(seen))
  }

  /** The scanner in a fence. */
  ghost predicate AgreesInside(seen: Reads, st: Scan, fence: Kind) {
    && fence.Opener? && Good(st) && st.inFence && SameColumns(seen, st.lists)
    && st.mark == fence.mark && st.length == fence.length && st.fenceBase == fence.base
    && !AfterText(seen)
  }

  ghost predicate Agrees(seen: Reads, st: Scan) {
    match OpenFenceOf(seen)
    case Some(fence) => AgreesInside(seen, st, fence)
    case None => AgreesOutside(seen, st)
  }

  lemma {:induction false} PoppedTwice(lists: seq<nat>, a: nat, b: nat)
    ensures Popped(Popped(lists, a), b) == Popped(lists, Least(a, b))
  {
    if lists != [] && a < lists[|lists| - 1] {
      PoppedTwice(lists[..|lists| - 1], a, b);
    } else if lists != [] && b < lists[|lists| - 1] {
      var init := lists[..|lists| - 1];
      assert Popped(lists, a) == lists;
    }
  }

  lemma ColumnsNext(seen: Reads, read: Read, low: nat)
    ensures Columns(seen + [read], low)
         == Columns(seen, if EndsItems(read.kind) then Least(low, read.indent) else low)
            + match ItemOf(read.kind) case Some(col) => (if col <= low then [col] else []) case None => []
  {
    assert (seen + [read])[..|seen|] == seen;
  }

  lemma LastRead(seen: Reads, read: Read)
    ensures AfterText(seen + [read]) <==> read.kind.Text? && !read.kind.leaf
    ensures OpenFenceOf(seen + [read])
         == if read.kind.Opener? then Some(read.kind) else if read.kind.Body? then OpenFenceOf(seen) else None
  {
    assert (seen + [read])[..|seen|] == seen;
  }

  /** A line that starts no item leaves the stack as it was matched to the line. */
  lemma SameAfter(seen: Reads, lists: seq<nat>, read: Read)
    requires SameColumns(seen, lists) && ItemOf(read.kind) == None
    ensures SameColumns(seen + [read], if EndsItems(read.kind) then Popped(lists, read.indent) else lists)
  {
    forall low: nat ensures Popped(if EndsItems(read.kind) then Popped(lists, read.indent) else lists, low)
                         == Columns(seen + [read], low) {
      ColumnsNext(seen, read, low);
      PoppedTwice(lists, read.indent, low);
      assert Least(low, read.indent) == Least(read.indent, low);
    }
  }

  lemma SameWithItem(seen: Reads, lists: seq<nat>, read: Read, col: nat)
    requires SameColumns(seen, lists) && EndsItems(read.kind) && ItemOf(read.kind) == Some(col) && read.indent < col
    ensures SameColumns(seen + [read], Popped(lists, read.indent) + [col])
  {
    var popped := Popped(lists, read.indent);
    forall low: nat ensures Popped(popped + [col], low) == Columns(seen + [read], low) {
      ColumnsNext(seen, read, low);
      PoppedTwice(lists, read.indent, low);
      assert (popped + [col])[..|popped|] == popped;
    }
  }

  lemma BaseIs(seen: Reads, st: Scan, indent: nat)
    requires AgreesOutside(seen, st)
    ensures var popped := PopLists(st, indent);
            && popped.lists == Popped(st.lists, indent) && popped.contentIndent == Base(seen, indent) <= indent
            && Rel(popped, indent) == indent - Base(seen, indent)
  {
    PoppedFacts(st.lists, indent);
    assert Popped(st.lists, indent) == Columns(seen, indent);
  }

  lemma MayStartIs(seen: Reads, trimmed: string)
    ensures AllowListItem(AfterText(seen), trimmed) <==> ItemMayStart(seen, trimmed)
  {
    match ListMarker(trimmed) {
      case Marker(end, start) =>
        MarkerExactly(trimmed, end, start);
        ContentExactly(trimmed, end, start);
      case NoMarker =>
    }
    forall end: nat, start | MarkerShape(trimmed, end, start) ensures ListMarker(trimmed) == Marker(end, start) {
      MarkerExactly(trimmed, end, start);
    }
  }

  /** What the scanner makes of a line that opens a fence. */
  lemma OpensIs(seen: Reads, st: Scan, indent: nat, trimmed: string)
    requires AgreesOutside(seen, st) && trimmed != ""
    ensures var popped, kind := PopLists(st, indent), OutsideKind(seen, indent, trimmed);
            OpenFence(popped, indent, Rel(popped, indent), trimmed)
            == match kind
               case Opener(mark, length, base, Some(col)) => Used(StartFence(PushList(popped, col), mark, length, base))
               case Opener(mark, length, base, None) => Used(StartFence(popped, mark, length, base))
               case _ => Unused(popped)
  {
    BaseIs(seen, st, indent);
    MayStartIs(seen, trimmed);
    UnderlineExactly(trimmed);
  }

  lemma OpenerAgrees(seen: Reads, st: Scan, indent: nat, trimmed: string, kind: Kind)
    requires AgreesOutside(seen, st) && trimmed != "" && kind == OutsideKind(seen, indent, trimmed) && kind.Opener?
    ensures var popped := PopLists(st, indent);
            var next := OpenFence(popped, indent, Rel(popped, indent), trimmed).next;
            AgreesInside(seen + [Read(kind, indent)], next, kind) && next.kept == st.kept
  {
    var popped := PopLists(st, indent);
    SyncedGood(st, indent, trimmed);
    OpenFenceGood(popped, indent, Rel(popped, indent), trimmed);
    OpensIs(seen, st, indent, trimmed);
    LastRead(seen, Read(kind, indent));
    match kind.item {
      case Some(col) => SameWithItem(seen, st.lists, Read(kind, indent), col);
      case None => SameAfter(seen, st.lists, Read(kind, indent));
    }
  }

  lemma BlankAgrees(seen: Reads, st: Scan, line: string, indent: nat)
    requires AgreesOutside(seen, st)
    ensures var next := Outside(st, line, indent, "");
            AgreesOutside(seen + [Read(BlankLine, indent)], next) && next.kept == st.kept + [line]
  {
    assert OpenFence(st, indent, Rel(st, indent), "") == Unused(st);
    LastRead(seen, Read(BlankLine, indent));
    SameAfter(seen, st.lists, Read(BlankLine, indent));
    OutsideGood(st, line, indent, "");
  }

  lemma CodeAgrees(seen: Reads, st: Scan, line: string, indent: nat, trimmed: string)
    requires AgreesOutside(seen, st) && trimmed != "" && OutsideKind(seen, indent, trimmed) == Code
    ensures var next := Outside(PopLists(st, indent), line, indent, trimmed);
            AgreesOutside(seen + [Read(Code, indent)], next) && next.kept == st.kept
  {
    OpensIs(seen, st, indent, trimmed);
    BaseIs(seen, st, indent);
    SyncedGood(st, indent, trimmed);
    LastRead(seen, Read(Code, indent));
    SameAfter(seen, st.lists, Read(Code, indent));
  }

  /** The state after a line of text, a fence and its list item apart. */
  lemma TextWritten(seen: Reads, st: Scan, line: string, indent: nat, trimmed: string, kind: Kind)
    requires AgreesOutside(seen, st) && trimmed != "" && kind == OutsideKind(seen, indent, trimmed) && kind.Text?
    ensures var popped := PopLists(st, indent);
            var next := Outside(popped, line, indent, trimmed);
            && next.kept == st.kept + [line] && !next.inFence && !next.inIndented
            && next.canStartIndented == kind.leaf && next.lastWasParagraph == !kind.leaf
            && next.lists == popped.lists + match kind.item case Some(col) => [col] case None => []
  {
    var popped := PopLists(st, indent);
    OpensIs(seen, st, indent, trimmed);
    BaseIs(seen, st, indent);
    MayStartIs(seen, trimmed);
    UnderlineExactly(trimmed);
    HeadingExactly(trimmed);
    RuleExactly(trimmed, '-');
    RuleExactly(trimmed, '*');
    RuleExactly(trimmed, '_');
    assert Outside(popped, line, indent, trimmed) == WriteContent(popped, line, indent, trimmed, Rel(popped, indent));
  }

  lemma TextAgrees(seen: Reads, st: Scan, line: string, indent: nat, trimmed: string, kind: Kind)
    requires AgreesOutside(seen, st) && trimmed != "" && kind == OutsideKind(seen, indent, trimmed) && kind.Text?
    ensures var next := Outside(PopLists(st, indent), line, indent, trimmed);
            AgreesOutside(seen + [Read(kind, indent)], next) && next.kept == st.kept + [line]
  {
    TextWritten(seen, st, line, indent, trimmed, kind);
    SyncedGood(st, indent, trimmed);
    OutsideGood(PopLists(st, indent), line, indent, trimmed);
    LastRead(seen, Read(kind, indent));
    match kind.item {
      case Some(col) => SameWithItem(seen, st.lists, Read(kind, indent), col);
      case None => SameAfter(seen, st.lists, Read(kind, indent));
    }
  }

  lemma OutsideAgrees(seen: Reads, st: Scan, line: string, indent: nat, trimmed: string, kind: Kind)
    requires AgreesOutside(seen, st) && kind == OutsideKind(seen, indent, trimmed)
    ensures var next := Outside(Synced(st, indent, trimmed), line, indent, trimmed);
            && Agrees(seen + [Read(kind, indent)], next)
            && next.kept == st.kept + if Keeps(kind) then [line] else []
  {
    LastRead(seen, Read(kind, indent));
    if trimmed == "" {
      BlankAgrees(seen, st, line, indent);
    } else {
      match kind {
        case Code => CodeAgrees(seen, st, line, indent, trimmed);
        case Text(_, _) => TextAgrees(seen, st, line, indent, trimmed, kind);
        case Opener(_, _, _, _) => OpenerAgrees(seen, st, indent, trimmed, kind);
      }
    }
  }

  /** A line in a fence that neither closes it nor belongs to it is read as if the fence had
      just been closed. */
  lemma FenceLeft(seen: Reads, st: Scan, fence: Kind, line: string)
    requires AgreesInside(seen, st, fence)
    requires !Closing(line, fence.base, fence.mark, fence.length)
    requires TrimSpace(line) != "" && LeadingIndent(line) < fence.base
    ensures AgreesOutside(seen, FenceOver(st))
    ensures Step(st, line) == StepAt(FenceOver(st), line, LeadingIndent(line), TrimSpace(line))
  {
    var indent := LeadingIndent(line);
    CloserIsARun(line, fence.base, fence.mark, fence.length);
    PoppedTwice(st.lists, indent, indent);
    assert PopLists(FenceOver(PopLists(st, indent)), indent) == PopLists(FenceOver(st), indent);
  }

  lemma InsideAgrees(seen: Reads, st: Scan, fence: Kind, line: string, read: Read)
    requires AgreesInside(seen, st, fence) && OpenFenceOf(seen) == Some(fence)
    requires read == Read(KindOf(seen, line), LeadingIndent(line)) && (read.kind == Closer || read.kind == Body)
    ensures Agrees(seen + [read], Step(st, line)) && Step(st, line).kept == st.kept
  {
    CloserIsARun(line, fence.base, fence.mark, fence.length);
    LastRead(seen, read);
    SameAfter(seen, st.lists, read);
  }

  lemma OutsideIsNot(seen: Reads, indent: nat, trimmed: string)
    ensures var kind := OutsideKind(seen, indent, trimmed); kind != Closer && kind != Body
  {
  }

  lemma StepAgrees(seen: Reads, st: Scan, line: string)
    requires Agrees(seen, st)
    ensures var read := Read(KindOf(seen, line), LeadingIndent(line));
            && Agrees(seen + [read], Step(st, line))
            && Step(st, line).kept == st.kept + if Keeps(read.kind) then [line] else []
  {
    var indent, trimmed := LeadingIndent(line), TrimSpace(line);
    var read := Read(KindOf(seen, line), indent);
    OutsideIsNot(seen, indent, trimmed);
    match OpenFenceOf(seen) {
      case None => OutsideAgrees(seen, st, line, indent, trimmed, read.kind);
      case Some(fence) =>
        if read.kind == Closer || read.kind == Body {
          InsideAgrees(seen, st, fence, line, read);
        } else {
          FenceLeft(seen, st, fence, line);
          OutsideAgrees(seen, FenceOver(st), line, indent, trimmed, read.kind);
        }
    }
  }

  /** For every text: the scanner writes exactly the lines that are read as text or blank. */
  lemma {:induction false} KeptExactly(lines: seq<string>)
    ensures Agrees(Reading(lines), Steps(Start(), lines))
    ensures Steps(Start(), lines).kept == KeptLines(lines, Reading(lines))
  {
    if lines == [] {
      assert Agrees([], Start());
    } else {
      var init, last := lines[..|lines| - 1], lines[|lines| - 1];
      KeptExactly(init);
      StepAgrees(Reading(init), Steps(Start(), init), last);
      assert Reading(lines)[..|init|] == Reading(init);
    }
  }

  // ---------------------------------------------------------------- indented code

  /** One more line is read and kept or not. */
  lemma OneMoreLine(lines: seq<string>, line: string)
    ensures var seen := Reading(lines);
            && Reading(lines + [line]) == seen + [Read(KindOf(seen, line), LeadingIndent(line))]
            && Steps(Start(), lines + [line]).kept
               == Steps(Start(), lines).kept + if Keeps(KindOf(seen, line)) then [line] else []
  {
    assert (lines + [line])[..|lines|] == lines;
    StepsAppend(Start(), lines, [line]);
    StepsOne(Steps(Start(), lines), line);
    KeptExactly(lines);
    StepAgrees(Reading(lines), Steps(Start(), lines), line);
  }

  /** A line that starts no item can only lower what later lines are measured from. */
  lemma BaseNext(seen: Reads, read: Read, indent: nat)
    requires EndsItems(read.kind) && ItemOf(read.kind) == None
    ensures Base(seen + [read], indent) == Base(seen, Least(indent, read.indent))
  {
    ColumnsNext(seen, read, indent);
  }

  /** A line with text that is indented four columns or more past col. */
  predicate Deep(line: string, col: nat) {
    TrimSpace(line) != "" && LeadingIndent(line) >= col + 4
  }

  /** The lines are measured from col. */
  ghost predicate From(seen: Reads, lines: seq<string>, col: nat) {
    forall line :: line in lines ==> Base(seen, LeadingIndent(line)) == col
  }

  lemma DeepLine(seen: Reads, line: string, col: nat, lines: seq<string>)
    requires OpenFenceOf(seen) == None && Deep(line, col) && Base(seen, LeadingIndent(line)) == col
    requires From(seen, lines, col)
    ensures var kind := KindOf(seen, line);
            var next := seen + [Read(kind, LeadingIndent(line))];
            && kind == (if AfterText(seen) then Text(false, None) else Code)
            && OpenFenceOf(next) == None && AfterText(next) == AfterText(seen) && From(next, lines, col)
  {
    var read := Read(KindOf(seen, line), LeadingIndent(line));
    LastRead(seen, read);
    forall other | other in lines ensures Base(seen + [read], LeadingIndent(other)) == col {
      BaseNext(seen, read, LeadingIndent(other));
    }
  }

  lemma AppendSnoc(before: seq<string>, init: seq<string>, last: string)
    ensures before + (init + [last]) == (before + init) + [last]
  {
  }

  /** What is known after some lines that are measured from col. */
  ghost predicate DeepState(lines: seq<string>, text: bool, run: seq<string>, col: nat) {
    var seen := Reading(lines); OpenFenceOf(seen) == None && AfterText(seen) == text && From(seen, run, col)
  }

  lemma DeepNext(lines: seq<string>, line: string, text: bool, run: seq<string>, col: nat)
    requires DeepState(lines, text, run, col) && Deep(line, col) && line in run
    ensures DeepState(lines + [line], text, run, col)
    ensures Steps(Start(), lines + [line]).kept == Steps(Start(), lines).kept + if text then [line] else []
  {
    DeepLine(Reading(lines), line, col, run);
    OneMoreLine(lines, line);
  }

  /** What holds of no lines, and of one line more, holds of all. */
  lemma {:induction false} LineByLine(holds: seq<string> -> bool, run: seq<string>)
    requires holds([])
    requires forall some, line :: holds(some) && line in run ==> holds(some + [line])
    ensures holds(run)
  {
    if run != [] {
      var init, last := run[..|run| - 1], run[|run| - 1];
      assert forall line :: line in init ==> line in run;
      LineByLine(holds, init);
      assert run == init + [last] && last in run;
    }
  }

  /** The lines so far are left out, or kept when they go on with a paragraph. */
  ghost predicate RunDone(before: seq<string>, run: seq<string>, text: bool, lines: seq<string>, col: nat) {
    && DeepState(before + run, text, lines, col)
    && Steps(Start(), before + run).kept == Steps(Start(), before).kept + if text then run else []
  }

  lemma RunNext(before: seq<string>, run: seq<string>, line: string, text: bool, lines: seq<string>, col: nat)
    requires RunDone(before, run, text, lines, col) && Deep(line, col) && line in lines
    ensures RunDone(before, run + [line], text, lines, col)
  {
    DeepNext(before + run, line, text, lines, col);
    AppendSnoc(before, run, line);
    AppendSnoc(Steps(Start(), before).kept, run, line);
  }

  lemma DeepRun(before: seq<string>, run: seq<string>, text: bool, col: nat)
    requires DeepState(before, text, run, col) && forall line :: line in run ==> Deep(line, col)
    ensures RunDone(before, run, text, run, col)
  {
    assert before + [] == before;
    forall some, line | RunDone(before, some, text, run, col) && line in run
      ensures RunDone(before, some + [line], text, run, col) {
      RunNext(before, some, line, text, run, col);
    }
    LineByLine(some => RunDone(before, some, text, run, col), run);
  }

  /** CommonMark 0.31.2 section 4.4, after any lines that leave no fence open and at any
      content column: a run of lines indented four columns or more past it is left out,
      exactly unless it follows paragraph text, which it cannot interrupt; then all of it is
      kept. */
  lemma IndentedRun(before: seq<string>, run: seq<string>, col: nat)
    requires OpenFenceOf(Reading(before)) == None && run != []
    requires forall line :: line in run ==> Deep(line, col)
    requires forall line :: line in run ==> Base(Reading(before), LeadingIndent(line)) == col
    ensures Steps(Start(), before + run).kept == Steps(Start(), before).kept <==> !AfterText(Reading(before))
    ensures AfterText(Reading(before)) ==> Steps(Start(), before + run).kept == Steps(Start(), before).kept + run
  {
    DeepRun(before, run, AfterText(Reading(before)), col);
    if AfterText(Reading(before)) {
      assert |Steps(Start(), before).kept + run| > |Steps(Start(), before).kept|;
    }
  }

  /** At the start of a text it is always left out. */
  lemma IndentedStart(run: seq<string>)
    requires forall line :: line in run ==> Deep(line, 0)
    ensures Steps(Start(), run).kept == []
  {
    assert [] + run == run;
    DeepRun([], run, false, 0);
  }

  /** After a line of paragraph text it is always kept. */
  lemma IndentedAfterText(before: seq<string>, line: string, run: seq<string>, col: nat)
    requires OpenFenceOf(Reading(before)) == None && run != []
    requires var kind := KindOf(Reading(before), line); kind.Text? && !kind.leaf
    requires forall deep :: deep in run ==> Deep(deep, col)
    requires forall deep :: deep in run ==> Base(Reading(before + [line]), LeadingIndent(deep)) == col
    ensures Steps(Start(), before + [line] + run).kept == Steps(Start(), before).kept + [line] + run
  {
    OneMoreLine(before, line);
    LastRead(Reading(before), Read(KindOf(Reading(before), line), LeadingIndent(line)));
    IndentedRun(before + [line], run, col);
  }
}
