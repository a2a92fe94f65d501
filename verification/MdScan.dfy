/** The loops of mdScan and stripCodeBlocks in pkg/configdef/validate.go, and mdScan as the
    object that is updated line by line; each method is tied to its function in BlockScan. */
module MdScan {

  import opened BlockScan

  // ---------------------------------------------------------------- the program's loops

  method CountLeadingIndent(line: string) returns (col: nat)
    ensures col == LeadingIndent(line)
  {
    col := 0;
    for i := 0 to |line|
      invariant IndentFrom(line[i..], col) == LeadingIndent(line)
    {
      assert line[i..][1..] == line[i + 1..];
      if line[i] == ' ' {
        col := col + 1;
      } else if line[i] == '\t' {
        col := NextTab(col);
      } else {
        return;
      }
    }
  }

  method CountRun(s: string, c: char) returns (length: nat)
    ensures length == RunLength(s, c)
  {
    length := 0;
    while length < |s| && s[length] == c
      invariant length <= |s| && RunLength(s, c) == length + RunLength(s[length..], c)
    {
      assert s[length..][1..] == s[length + 1..];
      length := length + 1;
    }
  }

  method ReadFenceOpener(line: string) returns (fence: Fence)
    ensures fence == FenceOpener(line)
  {
    if |line| < MIN_FENCE_LEN {
      return NoFence;
    }
    var mark := line[0];
    if mark != '`' && mark != '~' {
      return NoFence;
    }
    var length := CountRun(line, mark);
    if length < MIN_FENCE_LEN || (mark == '`' && '`' in line[length..]) {
      return NoFence;
    }
    return Fence(mark, length);
  }

  lemma NumberNext(s: string, i: nat)
    requires i < |s| && '0' <= s[i] <= '9'
    ensures Number(s[..i + 1]) == 10 * Number(s[..i]) + (s[i] as int - '0' as int)
  {
    assert s[..i + 1][..i] == s[..i];
  }

  method ConsumeListMarker(trimmed: string) returns (marker: Marker)
    ensures marker == ListMarker(trimmed)
  {
    if trimmed == "" {
      return NoMarker;
    }
    if trimmed[0] == '-' || trimmed[0] == '*' || trimmed[0] == '+' {
      return Marker(1, BULLET_START);
    }
    var digits, start := 0, 0;
    while digits < |trimmed| && digits < 9 && '0' <= trimmed[digits] <= '9'
      invariant digits <= |trimmed| && digits <= 9
      invariant Digits(trimmed, 9) == digits + Digits(trimmed[digits..], 9 - digits)
      invariant start == Number(trimmed[..digits])
    {
      assert trimmed[digits..][1..] == trimmed[digits + 1..];
      NumberNext(trimmed, digits);
      start := start * 10 + (trimmed[digits] as int - '0' as int);
      digits := digits + 1;
    }
    if digits == 0 || digits >= |trimmed| || (trimmed[digits] != '.' && trimmed[digits] != ')') {
      return NoMarker;
    }
    return Marker(digits + 1, start);
  }

  method SplitListItem(indent: nat, trimmed: string) returns (item: Item)
    ensures item == ListItemSplit(indent, trimmed)
  {
    var marker := ConsumeListMarker(trimmed);
    if marker == NoMarker {
      return NoItem;
    }
    var end := marker.end;
    var col := indent + end;
    if end == |trimmed| {
      return Item(col + 1, "");
    }
    if trimmed[end] != ' ' && trimmed[end] != '\t' {
      return NoItem;
    }
    var start, idx := col, end;
    while idx < |trimmed|
      invariant end <= idx <= |trimmed| && start <= col < start + TAB_WIDTH
      invariant Padding(trimmed, end, start, end, start) == Padding(trimmed, end, start, idx, col)
    {
      if trimmed[idx] != ' ' && trimmed[idx] != '\t' {
        return if col == start then NoItem else Item(col, trimmed[idx..]);
      }
      var advance := if trimmed[idx] == ' ' then 1 else TAB_WIDTH - col % TAB_WIDTH;
      if col - start + advance > TAB_WIDTH {
        return Item(start + 1, trimmed[end + 1..]);
      }
      col := col + advance;
      idx := idx + 1;
      if col - start >= TAB_WIDTH {
        return Item(col, trimmed[idx..]);
      }
    }
    return if col == start then NoItem else Item(col, "");
  }

  lemma CountNext(s: string, i: nat, c: char)
    requires i < |s|
    ensures CountOf(s[..i + 1], c) == CountOf(s[..i], c) + if s[i] == c then 1 else 0
    ensures OnlyMark(s[..i + 1], c) <==> OnlyMark(s[..i], c) && (s[i] == ' ' || s[i] == '\t' || s[i] == c)
  {
    assert s[..i + 1][..i] == s[..i];
    assert forall j :: 0 <= j < i ==> s[..i + 1][j] == s[..i][j];
  }

  /** The first i characters of s are blank, or mark and blanks with `count` marks. */
  predicate Marked(s: string, i: nat, marker: char, count: nat)
    requires i <= |s|
  {
    if marker == 0 as char then IsBlank(s[..i]) && count == 0
    else
      && (marker == '-' || marker == '*' || marker == '_') && OnlyMark(s[..i], marker)
      && count == CountOf(s[..i], marker) && count > 0
  }

  lemma {:induction false} CountBlank(s: string, c: char)
    requires IsBlank(s) && c != ' ' && c != '\t'
    ensures CountOf(s, c) == 0
  {
    if s != "" {
      CountBlank(s[..|s| - 1], c);
    }
  }

  lemma MarkedNext(s: string, i: nat, marker: char, count: nat)
    requires i < |s| && Marked(s, i, marker, count)
    ensures s[i] == ' ' || s[i] == '\t' ==> Marked(s, i + 1, marker, count)
    ensures (s[i] == '-' || s[i] == '*' || s[i] == '_') && (marker == 0 as char || marker == s[i])
            ==> Marked(s, i + 1, s[i], count + 1)
  {
    CountNext(s, i, marker);
    CountNext(s, i, s[i]);
    if marker == 0 as char && s[i] != ' ' && s[i] != '\t' {
      CountBlank(s[..i], s[i]);
    }
  }

  lemma MarkedEnd(s: string, marker: char, count: nat)
    requires Marked(s, |s|, marker, count)
    ensures ThematicBreak(s) <==> count >= MIN_FENCE_LEN
  {
    assert s[..|s|] == s;
    if marker == 0 as char {
      CountBlank(s, '-');
      CountBlank(s, '*');
      CountBlank(s, '_');
    } else {
      OtherMarks(s, marker, '-');
      OtherMarks(s, marker, '*');
      OtherMarks(s, marker, '_');
    }
  }

  lemma {:induction false} OtherMarks(s: string, marker: char, c: char)
    requires OnlyMark(s, marker) && c != ' ' && c != '\t'
    ensures c != marker ==> CountOf(s, c) == 0
  {
    if s != "" && c != marker {
      OtherMarks(s[..|s| - 1], marker, c);
    }
  }

  lemma NoBreak(s: string, i: nat, marker: char)
    requires i < |s| && s[i] != ' ' && s[i] != '\t'
    requires (s[i] != '-' && s[i] != '*' && s[i] != '_') || (exists j :: 0 <= j < i && s[j] == marker)
    requires marker != s[i] && marker != ' ' && marker != '\t'
    ensures !ThematicBreak(s)
  {
  }

  lemma {:induction false} MarkSeen(s: string, i: nat, marker: char)
    requires i <= |s| && CountOf(s[..i], marker) > 0
    ensures exists j :: 0 <= j < i && s[j] == marker
  {
    if s[i - 1] != marker {
      assert s[..i][..i - 1] == s[..i - 1];
      MarkSeen(s, i - 1, marker);
    }
  }

  method IsThematicBreak(trimmed: string) returns (found: bool)
    ensures found == ThematicBreak(trimmed)
  {
    var marker, count := 0 as char, 0;
    for i := 0 to |trimmed|
      invariant count >= 0 && Marked(trimmed, i, marker, count)
    {
      var c := trimmed[i];
      MarkedNext(trimmed, i, marker, count);
      if c == ' ' || c == '\t' {
        continue;
      }
      if c != '-' && c != '*' && c != '_' {
        return false;
      }
      if marker == 0 as char {
        marker := c;
      } else if c != marker {
        MarkSeen(trimmed, i, marker);
        NoBreak(trimmed, i, marker);
        return false;
      }
      count := count + 1;
    }
    MarkedEnd(trimmed, marker, count);
    found := count >= MIN_FENCE_LEN;
  }

  method IsSetextUnderline(trimmed: string) returns (found: bool)
    ensures found == SetextUnderline(trimmed)
  {
    if trimmed == "" {
      return false;
    }
    var marker := trimmed[0];
    if marker != '=' && marker != '-' {
      return false;
    }
    RunIs(trimmed, marker);
    for i := 1 to |trimmed|
      invariant AllOf(trimmed[..i], marker)
    {
      if trimmed[i] != marker {
        return false;
      }
    }
    assert trimmed[..|trimmed|] == trimmed;
    return true;
  }

  method IsAtxHeading(trimmed: string) returns (found: bool)
    ensures found == AtxHeading(trimmed)
  {
    var hashes := CountRun(trimmed, '#');
    if hashes < 1 || hashes > 6 {
      return false;
    }
    return hashes == |trimmed| || trimmed[hashes] == ' ' || trimmed[hashes] == '\t';
  }

  // ---------------------------------------------------------------- the scanner as an object

  class MdScan {
    var out: string
    var listIndents: seq<nat>
    var inFence: bool
    var fenceChar: char
    var fenceLen: nat
    var fenceBase: nat
    var inIndented: bool
    var canStartIndented: bool
    var lastWasParagraph: bool
    var contentIndent: nat
    ghost var kept: seq<string>

    ghost predicate Valid()
      reads this
    {
      out == WriteLines(kept)
    }

    ghost function View(): Scan
      reads this
    {
      Scan(kept, listIndents, inFence, fenceChar, fenceLen, fenceBase,
           inIndented, canStartIndented, lastWasParagraph, contentIndent)
    }

    constructor ()
      ensures Valid() && View() == Start()
    {
      out, listIndents, kept := "", [], [];
      inFence, fenceChar, fenceLen, fenceBase := false, 0 as char, 0, 0;
      inIndented, canStartIndented, lastWasParagraph, contentIndent := false, true, false, 0;
    }

    method PushList(col: nat)
      modifies `listIndents, `contentIndent
      ensures View() == BlockScan.PushList(old(View()), col)
    {
      listIndents := listIndents + [col];
      contentIndent := col;
    }

    method PopLists(indent: nat)
      modifies `listIndents, `contentIndent
      ensures View() == BlockScan.PopLists(old(View()), indent)
    {
      while |listIndents| > 0 && indent < listIndents[|listIndents| - 1]
        invariant Popped(listIndents, indent) == Popped(old(listIndents), indent)
        decreases |listIndents|
      {
        listIndents := listIndents[..|listIndents| - 1];
      }
      contentIndent := if |listIndents| == 0 then 0 else listIndents[|listIndents| - 1];
    }

    method StartFence(mark: char, length: nat, base: nat)
      modifies `inFence, `fenceChar, `fenceLen, `fenceBase, `inIndented, `canStartIndented, `lastWasParagraph
      ensures View() == BlockScan.StartFence(old(View()), mark, length, base)
    {
      inFence, fenceChar, fenceLen, fenceBase := true, mark, length, base;
      inIndented, canStartIndented, lastWasParagraph := false, true, false;
    }

    method ContinueFence(indent: nat, trimmed: string) returns (used: bool)
      modifies `listIndents, `contentIndent, `inFence, `canStartIndented, `lastWasParagraph
      ensures var turn := BlockScan.ContinueFence(old(View()), indent, trimmed);
              used == turn.Used? && View() == turn.next
    {
      if FenceClosed(indent - fenceBase, trimmed, fenceChar, fenceLen) {
        inFence, canStartIndented, lastWasParagraph := false, true, false;
        return true;
      }
      if trimmed == "" || indent >= fenceBase {
        return true;
      }
      inFence := false;
      PopLists(indent);
      canStartIndented, lastWasParagraph := true, false;
      return false;
    }

    method OpenFence(indent: nat, rel: nat, trimmed: string) returns (used: bool)
      modifies `inFence, `fenceChar, `fenceLen, `fenceBase, `inIndented, `canStartIndented, `lastWasParagraph
      modifies `listIndents, `contentIndent
      ensures var turn := BlockScan.OpenFence(old(View()), indent, rel, trimmed);
              used == turn.Used? && View() == turn.next
    {
      if rel > MAX_FENCE_INDENT {
        return false;
      }
      var fence := ReadFenceOpener(trimmed);
      if fence.Fence? {
        StartFence(fence.mark, fence.length, contentIndent);
        return true;
      }
      var underline := IsSetextUnderline(trimmed);
      if lastWasParagraph && underline {
        return false;
      }
      var item := SplitListItem(indent, trimmed);
      if item == NoItem || !AllowListItem(lastWasParagraph, trimmed) {
        return false;
      }
      fence := ReadFenceOpener(TrimSpace(item.rest));
      if fence.Fence? {
        PushList(item.col);
        StartFence(fence.mark, fence.length, item.col);
        return true;
      }
      return false;
    }

    method WriteLine(line: string)
      requires Valid()
      modifies `out, `kept
      ensures Valid() && View() == old(View()).(kept := old(kept) + [line])
    {
      out := out + line + "\n";
      kept := kept + [line];
      assert kept[..|kept| - 1] == old(kept);
    }

    method NoteItem(indent: nat, trimmed: string, rel: nat)
      modifies `listIndents, `contentIndent
      ensures View() == WithItem(old(View()), indent, trimmed, rel)
    {
      var thematic := IsThematicBreak(trimmed);
      var underline := IsSetextUnderline(trimmed);
      if !thematic && (!lastWasParagraph || !underline) {
        var item := SplitListItem(indent, trimmed);
        if item.Item? && rel <= MAX_FENCE_INDENT && AllowListItem(lastWasParagraph, trimmed) {
          PushList(item.col);
        }
      }
    }

    method IsLeafBlockLine(trimmed: string) returns (leaf: bool)
      ensures leaf == LeafBlockLine(trimmed, lastWasParagraph)
    {
      leaf := IsAtxHeading(trimmed);
      if !leaf && lastWasParagraph {
        leaf := IsSetextUnderline(trimmed);
      }
      if !leaf {
        leaf := IsThematicBreak(trimmed);
      }
    }

    method SetParagraph(leaf: bool)
      modifies `canStartIndented, `lastWasParagraph
      ensures View() == Paragraph(old(View()), leaf)
    {
      canStartIndented := leaf;
      lastWasParagraph := !leaf;
    }

    method WriteContent(line: string, indent: nat, trimmed: string, rel: nat)
      requires Valid()
      modifies this
      ensures Valid() && View() == BlockScan.WriteContent(old(View()), line, indent, trimmed, rel)
    {
      WriteLine(line);
      inIndented := false;
      assert View() == Written(old(View()), line);
      NoteItem(indent, trimmed, rel);
      var leaf := IsLeafBlockLine(trimmed);
      SetParagraph(rel <= MAX_FENCE_INDENT && leaf);
    }

    method HandleUnfenced(line: string, indent: nat, trimmed: string, rel: nat)
      requires Valid()
      modifies this
      ensures Valid() && View() == Unfenced(old(View()), line, indent, trimmed, rel)
    {
      if trimmed == "" {
        WriteLine(line);
        inIndented, canStartIndented, lastWasParagraph := false, true, false;
      } else if rel > MAX_FENCE_INDENT && (canStartIndented || inIndented) {
        inIndented, lastWasParagraph := true, false;
      } else {
        WriteContent(line, indent, trimmed, rel);
      }
    }

    method SyncList(indent: nat, trimmed: string)
      modifies `listIndents, `contentIndent
      ensures View() == Synced(old(View()), indent, trimmed)
    {
      if trimmed == "" {
        return;
      }
      PopLists(indent);
    }

    method HandleOutside(line: string, indent: nat, trimmed: string)
      requires Valid()
      modifies this
      ensures Valid() && View() == Outside(Synced(old(View()), indent, trimmed), line, indent, trimmed)
    {
      SyncList(indent, trimmed);
      var rel := if indent >= contentIndent then indent - contentIndent else indent;
      var used := OpenFence(indent, rel, trimmed);
      if !used {
        HandleUnfenced(line, indent, trimmed, rel);
      }
    }

    method Line(line: string)
      requires Valid()
      modifies this
      ensures Valid() && View() == Step(old(View()), line)
    {
      var indent := CountLeadingIndent(line);
      var trimmed := TrimSpace(line);
      if inFence {
        var used := ContinueFence(indent, trimmed);
        if used {
          return;
        }
      }
      HandleOutside(line, indent, trimmed);
    }
  }

  method StripCode(content: string) returns (text: string)
    ensures text == StripCodeBlocks(content)
  {
    var scan := new MdScan();
    var lines := SplitLines(content);
    for i := 0 to |lines|
      invariant fresh(scan) && scan.Valid() && scan.View() == Steps(Start(), lines[..i])
    {
      scan.Line(lines[i]);
      assert lines[..i + 1][..i] == lines[..i];
    }
    assert lines[..|lines|] == lines;
    text := scan.out;
  }
}
