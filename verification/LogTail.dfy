/** readFileTail and revBytes of pkg/unpackerr/logfiles.go: one page of a log file, read
    a byte at a time from the end and reversed in place. */
module LogTail {

  import opened Bytes

  // ---------------------------------------------------------------- the page as a slice

  /** Where the text starts when no further newline is found: a newline that opens the
      file is dropped. */
  function Floor(f: seq<byte>): nat
    requires f != []
  {
    if f[0] == NEWLINE then 1 else 0
  }

  /** Just after the k-th newline met when walking back from position p. */
  function Back(f: seq<byte>, p: nat, k: nat): (cut: nat)
    requires f != [] && p < |f| && k > 0
    ensures Floor(f) <= cut <= Larger(p, Floor(f))
  {
    if p == 0 then Floor(f)
    else if f[p - 1] == NEWLINE then (if k == 1 then p else Back(f, p - 1, k - 1))
    else Back(f, p - 1, k)
  }

  function Larger(a: nat, b: nat): nat {
    if a > b then a else b
  }

  /** Just after the k-th newline from the end; the last byte of the file does not count,
      because the newline there ends the last line. */
  function Cut(f: seq<byte>, k: nat): (cut: nat)
    requires f != []
    ensures Floor(f) <= cut <= |f|
  {
    if k == 0 then |f| else Back(f, |f| - 1, k)
  }

  lemma {:induction false} BackAntitone(f: seq<byte>, p: nat, k: nat, more: nat)
    requires f != [] && p < |f| && 0 < k <= more
    ensures Back(f, p, more) <= Back(f, p, k)
  {
    if p > 0 {
      if f[p - 1] != NEWLINE {
        BackAntitone(f, p - 1, k, more);
      } else if k > 1 {
        BackAntitone(f, p - 1, k - 1, more - 1);
      }
    }
  }

  lemma CutAntitone(f: seq<byte>, k: nat, more: nat)
    requires f != [] && k <= more
    ensures Cut(f, more) <= Cut(f, k)
  {
    if k > 0 {
      BackAntitone(f, |f| - 1, k, more);
    }
  }

  /** The last `count` lines of the file before the last `skip` lines. */
  function Page(f: seq<byte>, count: nat, skip: nat): seq<byte>
    requires f != []
  {
    CutAntitone(f, skip, count + skip);
    f[Cut(f, count + skip)..Cut(f, skip)]
  }

  // ---------------------------------------------------------------- what pages promise

  /** Two neighbouring pages are the page of both: paging tiles the file. */
  lemma PagesTile(f: seq<byte>, older: nat, newer: nat, skip: nat)
    requires f != []
    ensures Page(f, older, skip + newer) + Page(f, newer, skip) == Page(f, older + newer, skip)
  {
    CutAntitone(f, skip, newer + skip);
    CutAntitone(f, newer + skip, older + (newer + skip));
  }

  function Newlines(s: seq<byte>): nat {
    if s == [] then 0 else (if s[|s| - 1] == NEWLINE then 1 else 0) + Newlines(s[..|s| - 1])
  }

  lemma {:induction false} BackBottom(f: seq<byte>, p: nat, k: nat)
    requires f != [] && p < |f| && k > Newlines(f[..p])
    ensures Back(f, p, k) == Floor(f)
  {
    if p > 0 {
      assert f[..p][..p - 1] == f[..p - 1];
      if f[p - 1] == NEWLINE {
        BackBottom(f, p - 1, k - 1);
      } else {
        BackBottom(f, p - 1, k);
      }
    }
  }

  /** A page that asks for more lines than there are is the whole file, less a newline
      that opens it: no byte is out of reach of paging. */
  lemma WholeFile(f: seq<byte>, count: nat)
    requires f != [] && count > Newlines(f[..|f| - 1])
    ensures Page(f, count, 0) == if f[0] == NEWLINE then f[1..] else f
  {
    BackBottom(f, |f| - 1, count);
  }

  lemma {:induction false} NewlinesAppend(a: seq<byte>, b: seq<byte>)
    ensures Newlines(a + b) == Newlines(a) + Newlines(b)
  {
    if b == [] {
      assert a + b == a;
    } else {
      NewlinesAppend(a, b[..|b| - 1]);
      assert (a + b)[..|a + b| - 1] == a + b[..|b| - 1];
    }
  }

  lemma {:induction false} BackHas(f: seq<byte>, p: nat, k: nat)
    requires f != [] && p < |f| && 0 < k <= Newlines(f[..p])
    ensures 0 < Back(f, p, k) <= p && f[Back(f, p, k) - 1] == NEWLINE
    ensures Newlines(f[Back(f, p, k)..p]) == k - 1
  {
    assert f[..p][..p - 1] == f[..p - 1];
    if f[p - 1] == NEWLINE && k == 1 {
      assert f[p..p] == [];
    } else {
      var fewer := if f[p - 1] == NEWLINE then k - 1 else k;
      BackHas(f, p - 1, fewer);
      var cut := Back(f, p - 1, fewer);
      assert f[cut..p] == f[cut..p - 1] + [f[p - 1]];
      NewlinesAppend(f[cut..p - 1], [f[p - 1]]);
      assert [f[p - 1]][..0] == [];
    }
  }

  lemma NewlinesBetween(f: seq<byte>, lo: nat, mid: nat, hi: nat)
    requires lo <= mid <= hi <= |f|
    ensures Newlines(f[lo..hi]) == Newlines(f[lo..mid]) + Newlines(f[mid..hi])
  {
    assert f[lo..hi] == f[lo..mid] + f[mid..hi];
    NewlinesAppend(f[lo..mid], f[mid..hi]);
  }

  lemma CutHas(f: seq<byte>, k: nat)
    requires f != [] && 0 < k <= Newlines(f[..|f| - 1])
    ensures 0 < Cut(f, k) < |f| && f[Cut(f, k) - 1] == NEWLINE
    ensures Newlines(f[Cut(f, k)..|f| - 1]) == k - 1
  {
    BackHas(f, |f| - 1, k);
  }

  lemma CountBetween(f: seq<byte>, lo: nat, hi: nat, e: nat, count: nat, skip: nat)
    requires lo <= hi <= e <= |f| && count > 0
    requires Newlines(f[lo..e]) == count + skip - 1 && Newlines(f[hi..e]) == skip - 1
    ensures Newlines(f[lo..hi]) == count && lo < hi
  {
    NewlinesBetween(f, lo, hi, e);
    assert Newlines([]) == 0;
  }

  /** A page of `count` lines after `skip` > 0 lines, when the file has that many: it
      starts after a newline, ends with one, and holds exactly `count` of them. */
  lemma PageHasCountLines(f: seq<byte>, count: nat, skip: nat)
    requires f != [] && skip > 0 && count > 0 && count + skip <= Newlines(f[..|f| - 1])
    ensures var lo, hi := Cut(f, count + skip), Cut(f, skip);
            && 0 < lo < hi && f[lo - 1] == NEWLINE && f[hi - 1] == NEWLINE
            && Page(f, count, skip) == f[lo..hi] && Newlines(f[lo..hi]) == count
  {
    CutHas(f, count + skip);
    CutHas(f, skip);
    CutAntitone(f, skip, count + skip);
    CountBetween(f, Cut(f, count + skip), Cut(f, skip), |f| - 1, count, skip);
  }

  // ---------------------------------------------------------------- the program

  function Reversed(s: seq<byte>): seq<byte> {
    if s == [] then [] else Reversed(s[1..]) + [s[0]]
  }

  lemma {:induction false} ReversedFacts(s: seq<byte>)
    ensures |Reversed(s)| == |s| && forall k :: 0 <= k < |s| ==> Reversed(s)[k] == s[|s| - 1 - k]
  {
    if s != [] {
      ReversedFacts(s[1..]);
    }
  }

  /** The loop of revBytes: swaps from both ends. */
  method SwapEnds(data: array<byte>)
    modifies data
    ensures data[..] == Reversed(old(data[..]))
  {
    var i, j := 0, data.Length - 1;
    while i < j
      invariant 0 <= i <= data.Length && j == data.Length - 1 - i && i <= j + 1
      invariant forall k :: 0 <= k < i ==> data[k] == old(data[data.Length - 1 - k])
      invariant forall k :: j < k < data.Length ==> data[k] == old(data[data.Length - 1 - k])
      invariant forall k :: i <= k <= j ==> data[k] == old(data[k])
    {
      data[i], data[j] := data[j], data[i];
      i, j := i + 1, j - 1;
    }
    ReversedFacts(old(data[..]));
  }

  /** The buffer's bytes, reversed in place. */
  method RevBytes(output: seq<byte>) returns (data: array<byte>)
    ensures fresh(data) && data[..] == Reversed(output)
  {
    data := new byte[|output|](k requires 0 <= k < |output| => output[k]);
    assert data[..] == output;
    SwapEnds(data);
  }

  lemma ReversedFront(f: seq<byte>, i: nat, hi: nat)
    requires 0 < i <= hi <= |f|
    ensures Reversed(f[i..hi]) + [f[i - 1]] == Reversed(f[i - 1..hi])
  {
    assert f[i - 1..hi][1..] == f[i..hi];
  }

  lemma ReversedTwice(s: seq<byte>)
    ensures Reversed(Reversed(s)) == s
  {
    ReversedFacts(s);
    ReversedFacts(Reversed(s));
  }

  /** The scan so far: positions i and up are read, `found` newlines met among them. */
  ghost predicate Scanned(f: seq<byte>, i: nat, found: nat, count: nat, skip: nat, output: seq<byte>)
    requires f != [] && i <= |f|
  {
    var p := if i == |f| then i - 1 else i;
    && found < count + skip
    && Cut(f, count + skip) == Back(f, p, count + skip - found)
    && (if found < skip then output == [] && Cut(f, skip) == Back(f, p, skip - found)
        else i <= Cut(f, skip) && output == Reversed(f[i..Cut(f, skip)]))
  }

  /** One byte that is not a counted newline. */
  lemma ScanPlain(f: seq<byte>, i: nat, found: nat, count: nat, skip: nat, output: seq<byte>)
    requires f != [] && 0 < i <= |f| && Scanned(f, i, found, count, skip, output)
    requires i == |f| || f[i - 1] != NEWLINE
    ensures Scanned(f, i - 1, found, count, skip, if found >= skip then output + [f[i - 1]] else output)
  {
    if found >= skip {
      ReversedFront(f, i, Cut(f, skip));
    }
  }

  /** One counted newline, which may be the last one wanted. */
  lemma ScanNewline(f: seq<byte>, i: nat, found: nat, count: nat, skip: nat, output: seq<byte>)
    requires f != [] && 0 < i < |f| && Scanned(f, i, found, count, skip, output) && f[i - 1] == NEWLINE
    ensures var output' := if found + 1 >= skip then output + [f[i - 1]] else output;
            if found + 1 < count + skip then Scanned(f, i - 1, found + 1, count, skip, output')
            else i == Cut(f, count + skip) <= Cut(f, skip) && output' == Reversed(f[i - 1..Cut(f, skip)])
  {
    if found >= skip {
      ReversedFront(f, i, Cut(f, skip));
    } else if found + 1 == skip {
      assert f[i - 1..i] == [f[i - 1]] && Reversed([f[i - 1]]) == [f[i - 1]];
    }
  }

  /** What revBytes and the dropped opening newline leave of a finished scan. */
  lemma PageOf(f: seq<byte>, i: nat, count: nat, skip: nat, output: seq<byte>)
    requires f != [] && i < |f| && Cut(f, count + skip) <= Cut(f, skip)
    requires output == [] ==> Cut(f, count + skip) == Cut(f, skip)
    requires output != [] ==> i <= Cut(f, skip) && output == Reversed(f[i..Cut(f, skip)])
    requires output != [] ==> Cut(f, count + skip) == if f[i] == NEWLINE then i + 1 else i
    ensures var page := Reversed(output);
            Page(f, count, skip) == if page != [] && page[0] == NEWLINE then page[1..] else page
  {
    ReversedFacts(output);
    if output != [] {
      ReversedTwice(f[i..Cut(f, skip)]);
    }
  }

  method ReadFileTail(file: seq<byte>, count: nat, skip: nat) returns (page: seq<byte>)
    requires file != [] && count > 0
    ensures page == Page(file, count, skip)
  {
    var output: seq<byte> := [];
    var location, found := 0, 0;
    CutAntitone(file, skip, count + skip);
    assert Scanned(file, |file|, 0, count, skip, []);
    while true
      invariant -|file| < location <= 0
      invariant found >= 0 && Scanned(file, |file| + location, found, count, skip, output)
      decreases |file| + location
    {
      location := location - 1;
      var octet := file[|file| + location];
      if location != -1 && octet == NEWLINE {
        ScanNewline(file, |file| + location + 1, found, count, skip, output);
        found := found + 1;
      } else {
        ScanPlain(file, |file| + location + 1, found, count, skip, output);
      }
      if skip == 0 || found >= skip {
        output := output + [octet];
      }
      if found >= count + skip || location == -|file| {
        break;
      }
    }
    PageOf(file, |file| + location, count, skip, output);
    var data := RevBytes(output);
    page := data[..];
    if |page| > 0 && page[0] == NEWLINE {
      page := page[1..];
    }
  }
}
