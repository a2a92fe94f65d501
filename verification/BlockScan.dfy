/** mdScan and stripCodeBlocks of pkg/configdef/validate.go: a line at a time, with a
    stack of list content columns and at most one open fence, code blocks are left out
    of a markdown text. Follows CommonMark 0.31.2 sections 4.1 to 4.5 and 5.2 as far as
    the program does. A line is a sequence of characters without a newline. */
module BlockScan {

  import opened Sequences

  const MIN_FENCE_LEN: nat := 3
  const MAX_FENCE_INDENT: nat := 3
  const TAB_WIDTH: nat := 4
  const BULLET_START := -1

  datatype Fence = NoFence | Fence(mark: char, length: nat)
  datatype Marker = NoMarker | Marker(end: nat, start: int)
  datatype Item = NoItem | Item(col: nat, rest: string)

  // ---------------------------------------------------------------- reading one line

  /** White space as strings.TrimSpace knows it. */
  predicate IsSpace(c: char) {
    var n := c as int;
    || 9 <= n <= 13 || n == 32 || n == 0x85 || n == 0xA0 || n == 0x1680
    || 0x2000 <= n <= 0x200A || n == 0x2028 || n == 0x2029 || n == 0x202F || n == 0x205F || n == 0x3000
  }

  function TrimLeft(s: string): string {
    if s != "" && IsSpace(s[0]) then TrimLeft(s[1..]) else s
  }

  function TrimRight(s: string): string {
    if s != "" && IsSpace(s[|s| - 1]) then TrimRight(s[..|s| - 1]) else s
  }

  function TrimSpace(s: string): string {
    TrimRight(TrimLeft(s))
  }

  predicate IsBlank(s: string) {
    forall i :: 0 <= i < |s| ==> s[i] == ' ' || s[i] == '\t'
  }

  function NextTab(col: nat): nat {
    col + TAB_WIDTH - col % TAB_WIDTH
  }

  /** The column reached by the white space at the start of line, from column col on. */
  function IndentFrom(line: string, col: nat): nat {
    if line == "" then col
    else if line[0] == ' ' then IndentFrom(line[1..], col + 1)
    else if line[0] == '\t' then IndentFrom(line[1..], NextTab(col))
    else col
  }

  function LeadingIndent(line: string): nat {
    IndentFrom(line, 0)
  }

  function RunLength(s: string, c: char): (n: nat)
    ensures n <= |s|
  {
    if s != "" && s[0] == c then 1 + RunLength(s[1..], c) else 0
  }

  function FenceOpener(line: string): Fence {
    if |line| < MIN_FENCE_LEN || (line[0] != '`' && line[0] != '~') then NoFence
    else
      var length := RunLength(line, line[0]);
      if length < MIN_FENCE_LEN || (line[0] == '`' && '`' in line[length..]) then NoFence
      else Fence(line[0], length)
  }

  function FenceCloser(line: string): Fence {
    match FenceOpener(line)
    case Fence(mark, length) => if length <= |line| && IsBlank(line[length..]) then Fence(mark, length) else NoFence
    case NoFence => NoFence
  }

  predicate FenceClosed(rel: int, trimmed: string, mark: char, length: nat) {
    var fence := FenceCloser(trimmed);
    0 <= rel <= MAX_FENCE_INDENT && fence.Fence? && fence.mark == mark && fence.length >= length
  }

  function Digits(s: string, limit: nat): (n: nat)
    ensures n <= |s| && n <= limit
  {
    if limit > 0 && s != "" && '0' <= s[0] <= '9' then 1 + Digits(s[1..], limit - 1) else 0
  }

  function Number(s: string): nat {
    if s == "" then 0
    else 10 * Number(s[..|s| - 1]) + (if '0' <= s[|s| - 1] <= '9' then s[|s| - 1] as int - '0' as int else 0)
  }

  function ListMarker(trimmed: string): (m: Marker)
    ensures m.Marker? ==> 0 < m.end <= |trimmed|
  {
    if trimmed == "" then NoMarker
    else if trimmed[0] in {'-', '*', '+'} then Marker(1, BULLET_START)
    else
      var digits := Digits(trimmed, 9);
      if digits == 0 || digits >= |trimmed| || trimmed[digits] !in {'.', ')'} then NoMarker
      else Marker(digits + 1, Number(trimmed[..digits]))
  }

  /** The padding after a list marker that ends at index `end` and column `start`: idx is
      the next character, col its column. */
  function Padding(trimmed: string, end: nat, start: nat, idx: nat, col: nat): (item: Item)
    requires end < |trimmed| && end <= idx <= |trimmed| && start <= col
    ensures item.Item? ==> item.col > start
    decreases |trimmed| - idx
  {
    if idx == |trimmed| then (if col == start then NoItem else Item(col, ""))
    else if trimmed[idx] != ' ' && trimmed[idx] != '\t' then
      (if col == start then NoItem else Item(col, trimmed[idx..]))
    else
      var next := if trimmed[idx] == ' ' then col + 1 else NextTab(col);
      if next - start > TAB_WIDTH then Item(start + 1, trimmed[end + 1..])
      else if next - start >= TAB_WIDTH then Item(next, trimmed[idx + 1..])
      else Padding(trimmed, end, start, idx + 1, next)
  }

  /** The content column of a list item, and the line after the marker and its padding. */
  function ListItemSplit(indent: nat, trimmed: string): (item: Item)
    ensures item.Item? ==> item.col > indent
  {
    match ListMarker(trimmed)
    case NoMarker => NoItem
    case Marker(end, _) =>
      if end == |trimmed| then Item(indent + end + 1, "")
      else if trimmed[end] != ' ' && trimmed[end] != '\t' then NoItem
      else Padding(trimmed, end, indent + end, end, indent + end)
  }

  predicate ListItemHasContent(trimmed: string) {
    match ListMarker(trimmed)
    case NoMarker => false
    case Marker(end, _) => end < |trimmed| && TrimSpace(trimmed[end..]) != ""
  }

  predicate AtxHeading(trimmed: string) {
    var hashes := RunLength(trimmed, '#');
    1 <= hashes <= 6 && (hashes == |trimmed| || trimmed[hashes] == ' ' || trimmed[hashes] == '\t')
  }

  /** s is mark, spaces and tabs only. */
  predicate OnlyMark(s: string, mark: char) {
    forall i :: 0 <= i < |s| ==> s[i] == ' ' || s[i] == '\t' || s[i] == mark
  }

  function CountOf(s: string, c: char): nat {
    if s == "" then 0 else CountOf(s[..|s| - 1], c) + (if s[|s| - 1] == c then 1 else 0)
  }

  predicate ThematicOf(s: string, mark: char) {
    OnlyMark(s, mark) && CountOf(s, mark) >= MIN_FENCE_LEN
  }

  /** At least three of one of - * _ with only spaces and tabs between. */
  predicate ThematicBreak(trimmed: string) {
    ThematicOf(trimmed, '-') || ThematicOf(trimmed, '*') || ThematicOf(trimmed, '_')
  }

  predicate SetextUnderline(trimmed: string) {
    trimmed != "" && (trimmed[0] == '=' || trimmed[0] == '-') && RunLength(trimmed, trimmed[0]) == |trimmed|
  }

  predicate LeafBlockLine(trimmed: string, lastWasParagraph: bool) {
    AtxHeading(trimmed) || (lastWasParagraph && SetextUnderline(trimmed)) || ThematicBreak(trimmed)
  }

  // ---------------------------------------------------------------- the scanner as a value

  /** The fields of mdScan; `kept` are the lines written out, in order, and mark, length
      and fenceBase are what the last fence was opened with. */
  datatype Scan = Scan(
    kept: seq<string>,
    lists: seq<nat>,
    inFence: bool,
    mark: char,
    length: nat,
    fenceBase: nat,
    inIndented: bool,
    canStartIndented: bool,
    lastWasParagraph: bool,
    contentIndent: nat)

  function Start(): Scan {
    Scan([], [], false, 0 as char, 0, 0, false, true, false, 0)
  }

  function Top(lists: seq<nat>): nat {
    if lists == [] then 0 else lists[|lists| - 1]
  }

  function Popped(lists: seq<nat>, indent: nat): seq<nat> {
    if lists != [] && indent < lists[|lists| - 1] then Popped(lists[..|lists| - 1], indent) else lists
  }

  function PopLists(st: Scan, indent: nat): Scan {
    var lists := Popped(st.lists, indent);
    st.(lists := lists, contentIndent := Top(lists))
  }

  function PushList(st: Scan, col: nat): Scan {
    st.(lists := st.lists + [col], contentIndent := col)
  }

  function StartFence(st: Scan, mark: char, length: nat, base: nat): Scan {
    st.(inFence := true, mark := mark, length := length, fenceBase := base,
        inIndented := false, canStartIndented := true, lastWasParagraph := false)
  }

  /** Whether a list item may start here, given what ListMarker says of the line. */
  predicate AllowListItem(lastWasParagraph: bool, trimmed: string) {
    !lastWasParagraph ||
    match ListMarker(trimmed)
    case NoMarker => false
    case Marker(_, start) => ListItemHasContent(trimmed) && (start == BULLET_START || start == 1)
  }

  /** A fence is over and the text after it starts a new block. */
  function FenceOver(st: Scan): Scan {
    st.(inFence := false, canStartIndented := true, lastWasParagraph := false)
  }

  /** What becomes of a line: it is used up, or still to be handled. */
  datatype Turn = Used(next: Scan) | Unused(next: Scan)

  function ContinueFence(st: Scan, indent: nat, trimmed: string): Turn {
    if FenceClosed(indent - st.fenceBase, trimmed, st.mark, st.length) then Used(FenceOver(st))
    else if trimmed == "" || indent >= st.fenceBase then Used(st)
    else Unused(FenceOver(PopLists(st, indent)))
  }

  /** A fence on the first line of a list item. */
  function ItemFence(st: Scan, indent: nat, trimmed: string): Turn {
    if st.lastWasParagraph && SetextUnderline(trimmed) then Unused(st)
    else
      match ListItemSplit(indent, trimmed)
      case NoItem => Unused(st)
      case Item(col, rest) =>
        if !AllowListItem(st.lastWasParagraph, trimmed) then Unused(st)
        else
          match FenceOpener(TrimSpace(rest))
          case Fence(mark, length) => Used(StartFence(PushList(st, col), mark, length, col))
          case NoFence => Unused(st)
  }

  function OpenFence(st: Scan, indent: nat, rel: nat, trimmed: string): Turn {
    if rel > MAX_FENCE_INDENT then Unused(st)
    else
      match FenceOpener(trimmed)
      case Fence(mark, length) => Used(StartFence(st, mark, length, st.contentIndent))
      case NoFence => ItemFence(st, indent, trimmed)
  }

  function WithItem(st: Scan, indent: nat, trimmed: string, rel: nat): Scan {
    if ThematicBreak(trimmed) || (st.lastWasParagraph && SetextUnderline(trimmed)) then st
    else
      match ListItemSplit(indent, trimmed)
      case Item(col, _) =>
        if rel <= MAX_FENCE_INDENT && AllowListItem(st.lastWasParagraph, trimmed) then PushList(st, col) else st
      case NoItem => st
  }

  function Written(st: Scan, line: string): Scan {
    st.(kept := st.kept + [line], inIndented := false)
  }

  function Paragraph(st: Scan, leaf: bool): Scan {
    st.(canStartIndented := leaf, lastWasParagraph := !leaf)
  }

  function WriteContent(st: Scan, line: string, indent: nat, trimmed: string, rel: nat): Scan {
    var leaf := rel <= MAX_FENCE_INDENT && LeafBlockLine(trimmed, st.lastWasParagraph);
    Paragraph(WithItem(Written(st, line), indent, trimmed, rel), leaf)
  }

  function Blank(st: Scan, line: string): Scan {
    st.(kept := st.kept + [line], inIndented := false, canStartIndented := true, lastWasParagraph := false)
  }

  function Rel(st: Scan, indent: nat): nat {
    if indent >= st.contentIndent then indent - st.contentIndent else indent
  }

  function Synced(st: Scan, indent: nat, trimmed: string): Scan {
    if trimmed == "" then st else PopLists(st, indent)
  }

  /** A line that opens no fence. */
  function Unfenced(st: Scan, line: string, indent: nat, trimmed: string, rel: nat): Scan {
    if trimmed == "" then Blank(st, line)
    else if rel > MAX_FENCE_INDENT && (st.canStartIndented || st.inIndented) then
      st.(inIndented := true, lastWasParagraph := false)
    else WriteContent(st, line, indent, trimmed, rel)
  }

  /** A line outside any fence, the list stack already matched to it. */
  function Outside(st: Scan, line: string, indent: nat, trimmed: string): Scan {
    var rel := Rel(st, indent);
    match OpenFence(st, indent, rel, trimmed)
    case Used(next) => next
    case Unused(_) => Unfenced(st, line, indent, trimmed, rel)
  }

  function StepAt(st: Scan, line: string, indent: nat, trimmed: string): Scan {
    if !st.inFence then Outside(Synced(st, indent, trimmed), line, indent, trimmed)
    else
      match ContinueFence(st, indent, trimmed)
      case Used(next) => next
      case Unused(next) => Outside(Synced(next, indent, trimmed), line, indent, trimmed)
  }

  function Step(st: Scan, line: string): Scan {
    StepAt(st, line, LeadingIndent(line), TrimSpace(line))
  }

  function Steps(st: Scan, lines: seq<string>): Scan {
    if lines == [] then st else Step(Steps(st, lines[..|lines| - 1]), lines[|lines| - 1])
  }

  /** Where the first newline is, |s| when there is none. */
  function NewlineAt(s: string): (i: nat)
    ensures i <= |s|
  {
    if s == "" || s[0] == '\n' then 0 else 1 + NewlineAt(s[1..])
  }

  function SplitLines(s: string): seq<string>
    decreases |s|
  {
    var i := NewlineAt(s);
    if i == |s| then [s] else [s[..i]] + SplitLines(s[i + 1..])
  }

  function WriteLines(lines: seq<string>): string {
    if lines == [] then "" else WriteLines(lines[..|lines| - 1]) + lines[|lines| - 1] + "\n"
  }

  function StripCodeBlocks(content: string): string {
    WriteLines(Steps(Start(), SplitLines(content)).kept)
  }

  // ---------------------------------------------------------------- what every scan keeps

  predicate Increasing(lists: seq<nat>) {
    forall i, j :: 0 <= i < j < |lists| ==> lists[i] < lists[j]
  }

  /** The list stack is strictly increasing with its top equal to contentIndent, and an
      open fence is at least three marks long and stands at the content column. */
  predicate Good(st: Scan) {
    && Increasing(st.lists)
    && st.contentIndent == Top(st.lists)
    && (st.inFence ==>
          st.length >= MIN_FENCE_LEN && (st.mark == '`' || st.mark == '~') && st.fenceBase == st.contentIndent)
  }

  lemma {:induction false} PoppedFacts(lists: seq<nat>, indent: nat)
    ensures Popped(lists, indent) <= lists
    ensures Popped(lists, indent) != [] ==> Top(Popped(lists, indent)) <= indent
  {
    if lists != [] && indent < lists[|lists| - 1] {
      PoppedFacts(lists[..|lists| - 1], indent);
    }
  }

  lemma PushIncreasing(lists: seq<nat>, col: nat)
    requires Increasing(lists) && Top(lists) < col
    ensures Increasing(lists + [col]) && Top(lists + [col]) == col
  {
  }

  lemma SyncedGood(st: Scan, indent: nat, trimmed: string)
    requires Good(st) && !st.inFence
    ensures var next := Synced(st, indent, trimmed);
            && Good(next) && next.kept == st.kept && !next.inFence
            && (trimmed != "" ==> Top(next.lists) <= indent)
  {
    PoppedFacts(st.lists, indent);
  }

  lemma PushGood(st: Scan, indent: nat, trimmed: string)
    requires Good(st) && !st.inFence && (trimmed != "" ==> Top(st.lists) <= indent)
    ensures forall col, rest :: ListItemSplit(indent, trimmed) == Item(col, rest) ==> Good(PushList(st, col))
    ensures Good(ItemFence(st, indent, trimmed).next) && ItemFence(st, indent, trimmed).next.kept == st.kept
  {
    match ListItemSplit(indent, trimmed) {
      case Item(col, _) => PushIncreasing(st.lists, col);
      case NoItem =>
    }
  }

  lemma OpenFenceGood(st: Scan, indent: nat, rel: nat, trimmed: string)
    requires Good(st) && !st.inFence && (trimmed != "" ==> Top(st.lists) <= indent)
    ensures Good(OpenFence(st, indent, rel, trimmed).next) && OpenFence(st, indent, rel, trimmed).next.kept == st.kept
  {
    PushGood(st, indent, trimmed);
  }

  lemma WriteContentGood(st: Scan, line: string, indent: nat, trimmed: string, rel: nat)
    requires Good(st) && !st.inFence && Top(st.lists) <= indent
    ensures Good(WriteContent(st, line, indent, trimmed, rel))
    ensures WriteContent(st, line, indent, trimmed, rel).kept == st.kept + [line]
  {
    PushGood(Written(st, line), indent, trimmed);
  }

  lemma OutsideGood(st: Scan, line: string, indent: nat, trimmed: string)
    requires Good(st) && !st.inFence && (trimmed != "" ==> Top(st.lists) <= indent)
    ensures var next := Outside(st, line, indent, trimmed);
            Good(next) && (next.kept == st.kept || next.kept == st.kept + [line])
  {
    OpenFenceGood(st, indent, Rel(st, indent), trimmed);
    if trimmed != "" {
      WriteContentGood(st, line, indent, trimmed, Rel(st, indent));
    }
  }

  lemma StepGood(st: Scan, line: string)
    requires Good(st)
    ensures Good(Step(st, line))
    ensures Step(st, line).kept == st.kept || Step(st, line).kept == st.kept + [line]
  {
    var indent, trimmed := LeadingIndent(line), TrimSpace(line);
    var outside := st;
    if st.inFence {
      PoppedFacts(st.lists, indent);
      outside := ContinueFence(st, indent, trimmed).next;
    }
    if !outside.inFence {
      SyncedGood(outside, indent, trimmed);
      OutsideGood(Synced(outside, indent, trimmed), line, indent, trimmed);
    }
  }

  predicate InOrder(places: seq<nat>, bound: nat) {
    && (forall i, j :: 0 <= i < j < |places| ==> places[i] < places[j])
    && (forall i :: 0 <= i < |places| ==> places[i] < bound)
  }

  function LinesAt(lines: seq<string>, places: seq<nat>): seq<string>
    requires InOrder(places, |lines|)
  {
    seq(|places|, i requires 0 <= i < |places| => lines[places[i]])
  }

  /** One more line, kept or not. */
  lemma LinesAtNext(init: seq<string>, last: string, places: seq<nat>)
    requires InOrder(places, |init|)
    ensures InOrder(places, |init| + 1) && LinesAt(init + [last], places) == LinesAt(init, places)
    ensures InOrder(places + [|init|], |init| + 1)
    ensures LinesAt(init + [last], places + [|init|]) == LinesAt(init, places) + [last]
  {
  }

  lemma KeptNext(before: Scan, after: Scan, kept: seq<string>, init: seq<string>, last: string, places: seq<nat>)
    returns (next: seq<nat>)
    requires InOrder(places, |init|) && before.kept == kept + LinesAt(init, places)
    requires after.kept == before.kept || after.kept == before.kept + [last]
    ensures InOrder(next, |init| + 1) && after.kept == kept + LinesAt(init + [last], next)
  {
    LinesAtNext(init, last, places);
    Reassociate(kept, LinesAt(init, places), [last]);
    next := if after.kept == before.kept then places else places + [|init|];
  }

  /** Every scan keeps the invariant, and writes whole input lines, each at most once and
      in their order. */
  lemma {:induction false} ScanGood(st: Scan, lines: seq<string>) returns (places: seq<nat>)
    requires Good(st)
    ensures Good(Steps(st, lines))
    ensures InOrder(places, |lines|) && Steps(st, lines).kept == st.kept + LinesAt(lines, places)
  {
    if lines == [] {
      places := [];
    } else {
      var init, last := lines[..|lines| - 1], lines[|lines| - 1];
      places := ScanGood(st, init);
      StepGood(Steps(st, init), last);
      places := KeptNext(Steps(st, init), Steps(st, lines), st.kept, init, last, places);
      assert init + [last] == lines;
    }
  }

  // ---------------------------------------------------------------- a fenced block

  lemma {:induction false} StepsAppend(st: Scan, a: seq<string>, b: seq<string>)
    ensures Steps(st, a + b) == Steps(Steps(st, a), b)
  {
    if b == [] {
      assert a + b == a;
    } else {
      StepsAppend(st, a, b[..|b| - 1]);
      assert (a + b)[..|a + b| - 1] == a + b[..|b| - 1];
    }
  }

  lemma StepsOne(st: Scan, line: string)
    ensures Steps(st, [line]) == Step(st, line)
  {
    assert [line][..0] == [];
    assert Steps(st, []) == st;
  }

  predicate AllOf(s: string, c: char) {
    forall i :: 0 <= i < |s| ==> s[i] == c
  }

  /** A line that ends a fence of n marks with content column base: nothing but marks, at
      least n of them, not indented more than three columns from base. */
  predicate Closing(line: string, base: nat, mark: char, n: nat) {
    && base <= LeadingIndent(line) <= base + MAX_FENCE_INDENT
    && AllOf(TrimSpace(line), mark) && |TrimSpace(line)| >= n
  }

  predicate Inside(line: string, base: nat, mark: char, n: nat) {
    !Closing(line, base, mark, n) && (TrimSpace(line) == "" || LeadingIndent(line) >= base)
  }

  lemma {:induction false} TrimRightEnd(s: string)
    ensures TrimRight(s) != "" ==> !IsSpace(TrimRight(s)[|TrimRight(s)| - 1])
  {
    if s != "" && IsSpace(s[|s| - 1]) {
      TrimRightEnd(s[..|s| - 1]);
    }
  }

  lemma {:induction false} RunIs(s: string, c: char)
    ensures AllOf(s[..RunLength(s, c)], c)
    ensures RunLength(s, c) == |s| <==> AllOf(s, c)
    ensures RunLength(s, c) < |s| ==> s[RunLength(s, c)] != c
  {
    if s != "" && s[0] == c {
      RunIs(s[1..], c);
      assert s == [c] + s[1..];
      assert s[..RunLength(s, c)] == [c] + s[1..][..RunLength(s[1..], c)];
    }
  }

  /** A trimmed line closes a fence exactly when it is a run of enough marks. */
  lemma CloserIsARun(line: string, base: nat, mark: char, n: nat)
    requires (mark == '`' || mark == '~') && n >= MIN_FENCE_LEN
    ensures FenceClosed(LeadingIndent(line) - base, TrimSpace(line), mark, n) <==> Closing(line, base, mark, n)
  {
    var trimmed := TrimSpace(line);
    TrimRightEnd(TrimLeft(line));
    RunIs(trimmed, mark);
    var length := RunLength(trimmed, mark);
    if length == |trimmed| {
      assert trimmed[length..] == "";
    } else if length >= MIN_FENCE_LEN {
      var tail := trimmed[length..];
      assert tail[|tail| - 1] == trimmed[|trimmed| - 1];
      assert IsSpace(' ') && IsSpace('\t');
      assert !IsBlank(tail);
    }
  }

  lemma StepInside(st: Scan, line: string)
    requires st.inFence && Good(st) && Inside(line, st.fenceBase, st.mark, st.length)
    ensures Step(st, line) == st
  {
    CloserIsARun(line, st.fenceBase, st.mark, st.length);
  }

  lemma {:induction false} StepsInside(st: Scan, body: seq<string>)
    requires st.inFence && Good(st)
    requires forall line :: line in body ==> Inside(line, st.fenceBase, st.mark, st.length)
    ensures Steps(st, body) == st
  {
    if body != [] {
      assert forall line :: line in body[..|body| - 1] ==> line in body;
      StepsInside(st, body[..|body| - 1]);
      StepInside(st, body[|body| - 1]);
    }
  }

  /** An opening line at the content column that the line is indented to. */
  predicate Opening(st: Scan, line: string, mark: char, n: nat) {
    && FenceOpener(TrimSpace(line)) == Fence(mark, n)
    && Rel(PopLists(st, LeadingIndent(line)), LeadingIndent(line)) <= MAX_FENCE_INDENT
  }

  lemma StepOpening(st: Scan, line: string, mark: char, n: nat)
    requires Good(st) && !st.inFence && Opening(st, line, mark, n)
    ensures var popped := PopLists(st, LeadingIndent(line));
            Step(st, line) == StartFence(popped, mark, n, popped.contentIndent) && Good(Step(st, line))
  {
    StepGood(st, line);
  }

  /** A complete fenced block, anywhere outside a fence and at any depth of lists, leaves
      nothing in the output and no trace in the state but the start of a new block. */
  lemma FencedBlock(st: Scan, opener: string, body: seq<string>, closer: string, mark: char, n: nat)
    requires Good(st) && !st.inFence && Opening(st, opener, mark, n)
    requires var base := PopLists(st, LeadingIndent(opener)).contentIndent;
             && (forall line :: line in body ==> Inside(line, base, mark, n))
             && Closing(closer, base, mark, n)
    ensures var popped := PopLists(st, LeadingIndent(opener));
            Steps(st, [opener] + body + [closer])
            == FenceOver(StartFence(popped, mark, n, popped.contentIndent))
  {
    var popped := PopLists(st, LeadingIndent(opener));
    var fenced := StartFence(popped, mark, n, popped.contentIndent);
    StepOpening(st, opener, mark, n);
    StepsOne(st, opener);
    StepsAppend(st, [opener], body);
    StepsInside(fenced, body);
    CloserIsARun(closer, popped.contentIndent, mark, n);
    StepsAppend(st, [opener] + body, [closer]);
    StepsOne(fenced, closer);
  }

  // ---------------------------------------------------------------- states that scan alike

  /** Two states that differ at most in what the last fence was, none being open. */
  predicate Alike(a: Scan, b: Scan) {
    a == b || (!a.inFence && a.(mark := b.mark, length := b.length, fenceBase := b.fenceBase) == b)
  }

  lemma AlikeOpenFence(a: Scan, b: Scan, indent: nat, rel: nat, trimmed: string)
    requires Alike(a, b) && !a.inFence
    ensures var x, y := OpenFence(a, indent, rel, trimmed), OpenFence(b, indent, rel, trimmed);
            x.Used? == y.Used? && Alike(x.next, y.next)
  {
  }

  lemma AlikeWriteContent(a: Scan, b: Scan, line: string, indent: nat, trimmed: string, rel: nat)
    requires Alike(a, b) && !a.inFence
    ensures Alike(WriteContent(a, line, indent, trimmed, rel), WriteContent(b, line, indent, trimmed, rel))
  {
  }

  lemma AlikeOutside(a: Scan, b: Scan, line: string, indent: nat, trimmed: string)
    requires Alike(a, b) && !a.inFence
    ensures Alike(Outside(a, line, indent, trimmed), Outside(b, line, indent, trimmed))
  {
    AlikeOpenFence(a, b, indent, Rel(a, indent), trimmed);
    AlikeWriteContent(a, b, line, indent, trimmed, Rel(a, indent));
  }

  lemma AlikeStep(a: Scan, b: Scan, line: string)
    requires Alike(a, b)
    ensures Alike(Step(a, line), Step(b, line))
  {
    if !a.inFence {
      var indent, trimmed := LeadingIndent(line), TrimSpace(line);
      AlikeOutside(Synced(a, indent, trimmed), Synced(b, indent, trimmed), line, indent, trimmed);
    }
  }

  lemma {:induction false} AlikeSteps(a: Scan, b: Scan, lines: seq<string>)
    requires Alike(a, b)
    ensures Alike(Steps(a, lines), Steps(b, lines))
  {
    if lines != [] {
      AlikeSteps(a, b, lines[..|lines| - 1]);
      AlikeStep(Steps(a, lines[..|lines| - 1]), Steps(b, lines[..|lines| - 1]), lines[|lines| - 1]);
    }
  }

  // ---------------------------------------------------------------- fenced blocks in a text

  function Repeat(c: char, n: nat): string {
    seq(n, _ => c)
  }

  function Unlines(lines: seq<string>): string {
    if lines == [] then "" else lines[0] + "\n" + Unlines(lines[1..])
  }

  predicate OneLine(s: string) {
    '\n' !in s
  }

  lemma {:induction false} NewlineAfter(line: string, rest: string)
    requires OneLine(line)
    ensures NewlineAt(line + ("\n" + rest)) == |line|
  {
    if line != "" {
      assert (line + ("\n" + rest))[1..] == line[1..] + ("\n" + rest);
      NewlineAfter(line[1..], rest);
    }
  }

  lemma SplitFirst(line: string, rest: string)
    requires OneLine(line)
    ensures SplitLines(line + ("\n" + rest)) == [line] + SplitLines(rest)
  {
    NewlineAfter(line, rest);
    var s := line + ("\n" + rest);
    assert s[..|line|] == line && s[|line| + 1..] == rest;
  }

  lemma RegroupText(a: string, b: string, c: string, d: string)
    ensures (a + b + c) + d == a + (b + (c + d))
  {
  }

  lemma FirstAnd(lines: seq<string>, more: seq<string>)
    requires lines != []
    ensures [lines[0]] + (lines[1..] + more) == lines + more
  {
  }

  lemma {:induction false} SplitUnlines(lines: seq<string>, rest: string)
    requires forall line :: line in lines ==> OneLine(line)
    ensures SplitLines(Unlines(lines) + rest) == lines + SplitLines(rest)
  {
    if lines == [] {
      assert Unlines(lines) + rest == rest;
    } else {
      SplitUnlines(lines[1..], rest);
      RegroupText(lines[0], "\n", Unlines(lines[1..]), rest);
      SplitFirst(lines[0], Unlines(lines[1..]) + rest);
      FirstAnd(lines, SplitLines(rest));
    }
  }

  lemma {:induction false} LeadingSpaces(k: nat, col: nat, s: string)
    requires s != "" && !IsSpace(s[0])
    ensures IndentFrom(Repeat(' ', k) + s, col) == col + k && TrimLeft(Repeat(' ', k) + s) == s
  {
    if k == 0 {
      assert Repeat(' ', k) + s == s;
    } else {
      LeadingSpaces(k - 1, col + 1, s);
      assert (Repeat(' ', k) + s)[1..] == Repeat(' ', k - 1) + s;
    }
  }

  lemma {:induction false} TrimRightOf(a: string, b: string)
    requires a != "" && !IsSpace(a[|a| - 1])
    ensures TrimRight(a + b) == a + TrimRight(b) && TrimRight(b) <= b
  {
    if b == "" {
      assert a + b == a;
    } else if IsSpace(b[|b| - 1]) {
      assert (a + b)[..|a + b| - 1] == a + b[..|b| - 1];
      TrimRightOf(a, b[..|b| - 1]);
    }
  }

  lemma {:induction false} RunThen(mark: char, n: nat, tail: string)
    requires tail == "" || tail[0] != mark
    ensures RunLength(Repeat(mark, n) + tail, mark) == n
  {
    if n == 0 {
      assert Repeat(mark, n) + tail == tail;
    } else {
      assert (Repeat(mark, n) + tail)[1..] == Repeat(mark, n - 1) + tail;
      RunThen(mark, n - 1, tail);
    }
  }

  /** What may follow the marks of an opening fence. */
  predicate InfoString(info: string, mark: char) {
    (info != "" ==> info[0] != mark) && (mark == '`' ==> '`' !in info)
  }

  predicate FenceMark(mark: char) {
    mark == '`' || mark == '~'
  }

  function OpeningLine(k: nat, mark: char, n: nat, info: string): string {
    Repeat(' ', k) + (Repeat(mark, n) + info)
  }

  lemma TrimmedMarks(k: nat, mark: char, n: nat, tail: string)
    requires FenceMark(mark) && n > 0
    ensures LeadingIndent(OpeningLine(k, mark, n, tail)) == k
    ensures TrimSpace(OpeningLine(k, mark, n, tail)) == Repeat(mark, n) + TrimRight(tail) && TrimRight(tail) <= tail
  {
    LeadingSpaces(k, 0, Repeat(mark, n) + tail);
    TrimRightOf(Repeat(mark, n), tail);
  }

  lemma OpenerShape(k: nat, mark: char, n: nat, info: string)
    requires FenceMark(mark) && n >= MIN_FENCE_LEN && InfoString(info, mark)
    ensures FenceOpener(TrimSpace(OpeningLine(k, mark, n, info))) == Fence(mark, n)
  {
    TrimmedMarks(k, mark, n, info);
    var tail := TrimRight(info);
    RunThen(mark, n, tail);
    assert (Repeat(mark, n) + tail)[n..] == tail;
  }

  /** The closing fences of CommonMark 0.31.2 section 4.5 are closing lines. */
  lemma CloserShape(k: nat, mark: char, m: nat, blanks: string, n: nat)
    requires FenceMark(mark) && k <= MAX_FENCE_INDENT && m >= n > 0 && IsBlank(blanks)
    ensures Closing(OpeningLine(k, mark, m, blanks), 0, mark, n)
  {
    TrimmedMarks(k, mark, m, blanks);
    TrimRightEnd(blanks);
  }

  predicate TopLevelFence(k: nat, mark: char, n: nat, info: string) {
    k <= MAX_FENCE_INDENT && FenceMark(mark) && n >= MIN_FENCE_LEN && InfoString(info, mark)
  }

  lemma OpensAtTop(st: Scan, k: nat, mark: char, n: nat, info: string)
    requires TopLevelFence(k, mark, n, info) && st.lists == []
    ensures Opening(st, OpeningLine(k, mark, n, info), mark, n)
    ensures PopLists(st, k).contentIndent == 0 && LeadingIndent(OpeningLine(k, mark, n, info)) == k
  {
    OpenerShape(k, mark, n, info);
    TrimmedMarks(k, mark, n, info);
  }

  lemma InsideAtTop(body: seq<string>, mark: char, n: nat)
    requires forall line :: line in body ==> !Closing(line, 0, mark, n)
    ensures forall line :: line in body ==> Inside(line, 0, mark, n)
  {
  }

  /** A place where a new block starts at the top level. */
  predicate AtTop(st: Scan) {
    && !st.inFence && st.lists == [] && st.contentIndent == 0
    && !st.inIndented && st.canStartIndented && !st.lastWasParagraph
  }

  lemma TopFence(st: Scan, k: nat, mark: char, n: nat, info: string, body: seq<string>, closer: string)
    requires AtTop(st) && TopLevelFence(k, mark, n, info) && Closing(closer, 0, mark, n)
    requires forall line :: line in body ==> !Closing(line, 0, mark, n)
    ensures Alike(Steps(st, [OpeningLine(k, mark, n, info)] + body + [closer]), st)
  {
    OpensAtTop(st, k, mark, n, info);
    InsideAtTop(body, mark, n);
    FencedBlock(st, OpeningLine(k, mark, n, info), body, closer, mark, n);
  }

  /** A complete fenced block between top-level blocks might as well not be there: what is
      kept of the lines before and after it is what is kept without it. */
  lemma FencedBlockMidDocument(before: seq<string>, k: nat, mark: char, n: nat, info: string,
                               body: seq<string>, closer: string, after: seq<string>)
    requires AtTop(Steps(Start(), before)) && TopLevelFence(k, mark, n, info) && Closing(closer, 0, mark, n)
    requires forall line :: line in body ==> !Closing(line, 0, mark, n)
    ensures Steps(Start(), before + ([OpeningLine(k, mark, n, info)] + body + [closer]) + after).kept
         == Steps(Start(), before + after).kept
  {
    var block := [OpeningLine(k, mark, n, info)] + body + [closer];
    var st := Steps(Start(), before);
    TopFence(st, k, mark, n, info, body, closer);
    StepsAppend(Start(), before + block, after);
    StepsAppend(Start(), before, block);
    StepsAppend(Start(), before, after);
    AlikeSteps(Steps(st, block), st, after);
  }

  lemma NothingBefore(block: seq<string>, lines: seq<string>)
    ensures [] + block + lines == block + lines && [] + lines == lines
  {
  }

  lemma BlockLines(k: nat, mark: char, n: nat, info: string, body: seq<string>, closer: string)
    requires FenceMark(mark) && OneLine(info) && OneLine(closer) && forall line :: line in body ==> OneLine(line)
    ensures forall line :: line in [OpeningLine(k, mark, n, info)] + body + [closer] ==> OneLine(line)
  {
  }

  /** A complete fenced block at the start of a text is transparent. */
  lemma {:induction false} FencedBlockTransparent(k: nat, mark: char, n: nat, info: string, body: seq<string>,
                                                  closer: string, rest: string)
    requires TopLevelFence(k, mark, n, info) && Closing(closer, 0, mark, n)
    requires forall line :: line in body ==> !Closing(line, 0, mark, n)
    requires OneLine(info) && OneLine(closer) && forall line :: line in body ==> OneLine(line)
    ensures StripCodeBlocks(Unlines([OpeningLine(k, mark, n, info)] + body + [closer]) + rest) == StripCodeBlocks(rest)
  {
    var block := [OpeningLine(k, mark, n, info)] + body + [closer];
    BlockLines(k, mark, n, info, body, closer);
    SplitUnlines(block, rest);
    FencedBlockMidDocument([], k, mark, n, info, body, closer, SplitLines(rest));
    NothingBefore(block, SplitLines(rest));
  }

  /** A fence at the start that nothing closes swallows the whole text. */
  lemma UnclosedFence(k: nat, mark: char, n: nat, info: string, body: seq<string>)
    requires TopLevelFence(k, mark, n, info) && OneLine(info)
    requires forall line :: line in body ==> OneLine(line) && !Closing(line, 0, mark, n)
    ensures StripCodeBlocks(Unlines([OpeningLine(k, mark, n, info)] + body)) == ""
  {
    var opener := OpeningLine(k, mark, n, info);
    SplitUnlines([opener] + body, "");
    assert Unlines([opener] + body) + "" == Unlines([opener] + body);
    assert [opener] + body + SplitLines("") == [opener] + (body + [""]);
    OpensAtTop(Start(), k, mark, n, info);
    StepOpening(Start(), opener, mark, n);
    StepsOne(Start(), opener);
    StepsAppend(Start(), [opener], body + [""]);
    assert Inside("", 0, mark, n);
    InsideAtTop(body, mark, n);
    StepsInside(Step(Start(), opener), body + [""]);
  }

  // ---------------------------------------------------------------- a text without code

  /** A line that no reading makes code: too little indent, and no fence mark in it. */
  predicate PlainLine(line: string) {
    LeadingIndent(line) <= MAX_FENCE_INDENT && '`' !in line && '~' !in line
  }

  lemma {:induction false} TrimMembers(s: string, c: char)
    ensures c in TrimLeft(s) ==> c in s
    ensures c in TrimRight(s) ==> c in s
  {
    if s != "" {
      TrimMembers(s[1..], c);
      TrimMembers(s[..|s| - 1], c);
    }
  }

  lemma {:induction false} PaddingMembers(trimmed: string, end: nat, start: nat, idx: nat, col: nat, c: char)
    requires end < |trimmed| && end <= idx <= |trimmed| && start <= col
    ensures var item := Padding(trimmed, end, start, idx, col); item.Item? && c in item.rest ==> c in trimmed
    decreases |trimmed| - idx
  {
    if idx < |trimmed| && (trimmed[idx] == ' ' || trimmed[idx] == '\t') {
      var next := if trimmed[idx] == ' ' then col + 1 else NextTab(col);
      if next - start < TAB_WIDTH {
        PaddingMembers(trimmed, end, start, idx + 1, next, c);
      }
    }
  }

  lemma NoMarkNoFence(s: string)
    requires '`' !in s && '~' !in s
    ensures FenceOpener(s) == NoFence && FenceOpener(TrimSpace(s)) == NoFence
  {
    TrimMembers(s, '`');
    TrimMembers(s, '~');
    TrimMembers(TrimLeft(s), '`');
    TrimMembers(TrimLeft(s), '~');
    assert forall t: string :: t != "" ==> t[0] in t;
  }

  lemma NoMarkNoItemFence(st: Scan, indent: nat, trimmed: string)
    requires '`' !in trimmed && '~' !in trimmed
    ensures ItemFence(st, indent, trimmed) == Unused(st)
  {
    match ListMarker(trimmed) {
      case NoMarker =>
      case Marker(end, _) =>
        if end < |trimmed| {
          PaddingMembers(trimmed, end, indent + end, end, indent + end, '`');
          PaddingMembers(trimmed, end, indent + end, end, indent + end, '~');
        }
        match ListItemSplit(indent, trimmed) {
          case Item(_, rest) => NoMarkNoFence(rest);
          case NoItem =>
        }
    }
  }

  lemma PlainStep(st: Scan, line: string)
    requires Good(st) && !st.inFence && PlainLine(line)
    ensures !Step(st, line).inFence && Step(st, line).kept == st.kept + [line]
  {
    var indent, trimmed := LeadingIndent(line), TrimSpace(line);
    NoMarkNoFence(line);
    TrimMembers(line, '`');
    TrimMembers(line, '~');
    TrimMembers(TrimLeft(line), '`');
    TrimMembers(TrimLeft(line), '~');
    NoMarkNoItemFence(Synced(st, indent, trimmed), indent, trimmed);
  }

  lemma {:induction false} PlainSteps(st: Scan, lines: seq<string>)
    requires Good(st) && !st.inFence && forall line :: line in lines ==> PlainLine(line)
    ensures Good(Steps(st, lines)) && !Steps(st, lines).inFence
    ensures Steps(st, lines).kept == st.kept + lines
  {
    if lines == [] {
      assert st.kept + lines == st.kept;
    } else {
      var init, last := lines[..|lines| - 1], lines[|lines| - 1];
      assert lines == init + [last];
      PlainSteps(st, init);
      StepGood(Steps(st, init), last);
      PlainStep(Steps(st, init), last);
      Reassociate(st.kept, init, [last]);
    }
  }

  /** A text of plain lines loses nothing. */
  lemma PlainTextKept(content: string)
    requires forall line :: line in SplitLines(content) ==> PlainLine(line)
    ensures StripCodeBlocks(content) == content + "\n"
  {
    PlainSteps(Start(), SplitLines(content));
    assert [] + SplitLines(content) == SplitLines(content);
    SplitWrites(content);
  }

  lemma {:induction false} WriteFront(line: string, rest: seq<string>)
    ensures WriteLines([line] + rest) == line + ("\n" + WriteLines(rest))
  {
    if rest == [] {
      assert [line] + rest == [line] && [line][..0] == [];
    } else {
      assert ([line] + rest)[..|rest|] == [line] + rest[..|rest| - 1];
      WriteFront(line, rest[..|rest| - 1]);
    }
  }

  lemma {:induction false} SplitWrites(s: string)
    ensures WriteLines(SplitLines(s)) == s + "\n"
    decreases |s|
  {
    var i := NewlineAt(s);
    NewlineIs(s);
    if i == |s| {
      WriteFront(s, []);
      assert [s] + [] == [s];
    } else {
      SplitWrites(s[i + 1..]);
      WriteFront(s[..i], SplitLines(s[i + 1..]));
      assert s == s[..i] + ("\n" + s[i + 1..]);
    }
  }

  lemma {:induction false} NewlineIs(s: string)
    ensures NewlineAt(s) < |s| ==> s[NewlineAt(s)] == '\n'
  {
    if s != "" && s[0] != '\n' {
      NewlineIs(s[1..]);
    }
  }
}
