/** logTee.Write and lineRing.add of pkg/unpackerr/logtee.go: bytes arrive in writes of
    any size and leave as lines. */
module LogTee {

  import opened Bytes
  import opened Sequences

  const RETURN: byte := 13

  type Text = seq<byte>

  function IndexByte(b: Text): (i: nat)
    ensures i <= |b|
  {
    if b == [] then 0 else if b[0] == NEWLINE then 0 else 1 + IndexByte(b[1..])
  }

  function TrimReturns(line: Text): Text {
    if line != [] && line[|line| - 1] == RETURN then TrimReturns(line[..|line| - 1]) else line
  }

  /** The first line of b and the bytes after its newline, when b has a newline. */
  datatype Head = Open | Line(line: Text, rest: Text)

  function FirstLine(b: Text): (h: Head)
    ensures h.Line? ==> |h.rest| < |b|
  {
    var i := IndexByte(b);
    if i == |b| then Open else Line(TrimReturns(b[..i]), b[i + 1..])
  }

  /** The complete lines of b, and what is left after the last newline. */
  function Lines(b: Text): seq<Text>
    decreases |b|
  {
    match FirstLine(b) case Open => [] case Line(line, rest) => [line] + Lines(rest)
  }

  function Leftover(b: Text): Text
    decreases |b|
  {
    match FirstLine(b) case Open => b case Line(_, rest) => Leftover(rest)
  }

  function NonEmpty(lines: seq<Text>): seq<Text> {
    if lines == [] then []
    else NonEmpty(lines[..|lines| - 1]) + (if lines[|lines| - 1] == [] then [] else [lines[|lines| - 1]])
  }

  function LastN(lines: seq<Text>, n: nat): seq<Text> {
    if |lines| <= n then lines else lines[|lines| - n..]
  }

  /** Everything a run of writes has done: the lines sent, the ring, the open line. */
  datatype State = State(sent: seq<Text>, ring: seq<Text>, buf: Text)

  function Ringed(ring: seq<Text>, line: Text, max: nat): seq<Text> {
    if line == [] then ring else LastN(ring + [line], max)
  }

  function RingedAll(ring: seq<Text>, lines: seq<Text>, max: nat): seq<Text> {
    if lines == [] then ring else Ringed(RingedAll(ring, lines[..|lines| - 1], max), lines[|lines| - 1], max)
  }

  /** The open line cut up: its complete lines sent, the rest still open. */
  function Settled(s: State, max: nat): State {
    State(s.sent + Lines(s.buf), RingedAll(s.ring, Lines(s.buf), max), Leftover(s.buf))
  }

  function Written(s: State, p: Text, max: nat): State {
    Settled(s.(buf := s.buf + p), max)
  }

  function WrittenAll(writes: seq<Text>, max: nat): State {
    if writes == [] then State([], [], [])
    else Written(WrittenAll(writes[..|writes| - 1], max), writes[|writes| - 1], max)
  }

  function Joined(writes: seq<Text>): Text {
    if writes == [] then [] else Joined(writes[..|writes| - 1]) + writes[|writes| - 1]
  }

  // ---------------------------------------------------------------- chunking

  lemma {:induction false} IndexAppend(a: Text, b: Text)
    ensures IndexByte(a) < |a| ==> IndexByte(a + b) == IndexByte(a)
  {
    if a != [] && a[0] != NEWLINE {
      assert (a + b)[1..] == a[1..] + b;
      IndexAppend(a[1..], b);
    }
  }

  lemma FirstLineAppend(a: Text, b: Text)
    ensures FirstLine(a).Line? ==> FirstLine(a + b) == Line(FirstLine(a).line, FirstLine(a).rest + b)
  {
    IndexAppend(a, b);
    var i := IndexByte(a);
    if i < |a| {
      assert (a + b)[..i] == a[..i] && (a + b)[i + 1..] == a[i + 1..] + b;
    }
  }

  /** Splitting a + b is splitting a, then what a left over followed by b. */
  lemma {:induction false} SplitAppend(a: Text, b: Text)
    ensures Lines(a + b) == Lines(a) + Lines(Leftover(a) + b)
    ensures Leftover(a + b) == Leftover(Leftover(a) + b)
    decreases |a|
  {
    match FirstLine(a) {
      case Open =>
        assert [] + Lines(a + b) == Lines(a + b);
      case Line(line, rest) =>
        FirstLineAppend(a, b);
        SplitAppend(rest, b);
        Reassociate([line], Lines(rest), Lines(Leftover(rest) + b));
    }
  }

  lemma LastNSnoc(lines: seq<Text>, line: Text, n: nat)
    ensures Ringed(LastN(lines, n), line, n) == LastN(lines + if line == [] then [] else [line], n)
  {
    assert lines + [] == lines;
  }

  lemma NonEmptySnoc(lines: seq<Text>, line: Text)
    ensures NonEmpty(lines + [line]) == NonEmpty(lines) + if line == [] then [] else [line]
  {
    assert (lines + [line])[..|lines|] == lines;
  }

  /** A line loses exactly the carriage returns at its end. */
  lemma {:induction false} TrimsExactly(line: Text) returns (n: nat)
    ensures n <= |line| && TrimReturns(line) == line[..n] && (n > 0 ==> line[n - 1] != RETURN)
    ensures forall i :: n <= i < |line| ==> line[i] == RETURN
  {
    n := |line|;
    if line != [] && line[|line| - 1] == RETURN {
      n := TrimsExactly(line[..|line| - 1]);
      assert line[..|line| - 1][..n] == line[..n];
      assert forall i :: 0 <= i < |line| - 1 ==> line[i] == line[..|line| - 1][i];
    }
  }

  /** The ring never holds more than max lines, and they are the last ones. */
  lemma LastNExactly(lines: seq<Text>, max: nat)
    ensures |LastN(lines, max)| == if |lines| < max then |lines| else max
    ensures LastN(lines, max) == lines[|lines| - |LastN(lines, max)|..]
  {
  }

  /** The ring after a run of lines is the last max of the non-empty ones. */
  lemma {:induction false} RingIsLast(before: seq<Text>, lines: seq<Text>, max: nat)
    ensures RingedAll(LastN(NonEmpty(before), max), lines, max) == LastN(NonEmpty(before + lines), max)
  {
    if lines == [] {
      assert before + lines == before;
    } else {
      var init, last := lines[..|lines| - 1], lines[|lines| - 1];
      RingIsLast(before, init, max);
      assert lines == init + [last];
      Reassociate(before, init, [last]);
      NonEmptySnoc(before + init, last);
      LastNSnoc(NonEmpty(before + init), last, max);
    }
  }

  /** However the bytes are cut into writes, the lines sent, the ring and the open line
      are those of splitting all the bytes at once. */
  lemma {:induction false} ChunkingDoesNotMatter(writes: seq<Text>, max: nat)
    ensures WrittenAll(writes, max)
         == State(Lines(Joined(writes)), LastN(NonEmpty(Lines(Joined(writes))), max), Leftover(Joined(writes)))
  {
    if writes == [] {
      assert NonEmpty([]) == [];
    } else {
      var init, last := writes[..|writes| - 1], writes[|writes| - 1];
      ChunkingDoesNotMatter(init, max);
      SplitAppend(Joined(init), last);
      RingIsLast(Lines(Joined(init)), Lines(Leftover(Joined(init)) + last), max);
    }
  }

  /** Nothing is left out and nothing invented: without carriage returns, the lines with
      their newlines and the open line are the bytes again. */
  function Unsplit(lines: seq<Text>, open: Text): Text {
    if lines == [] then open else lines[0] + [NEWLINE] + Unsplit(lines[1..], open)
  }

  lemma {:induction false} IndexIs(b: Text)
    ensures NEWLINE !in b[..IndexByte(b)] && (IndexByte(b) < |b| ==> b[IndexByte(b)] == NEWLINE)
  {
    if b != [] && b[0] != NEWLINE {
      IndexIs(b[1..]);
      assert b[..IndexByte(b)] == [b[0]] + b[1..][..IndexByte(b[1..])];
    }
  }

  lemma {:induction false} SplitLosesNothing(b: Text)
    requires RETURN !in b
    ensures Unsplit(Lines(b), Leftover(b)) == b && NEWLINE !in Leftover(b)
    ensures forall line :: line in Lines(b) ==> NEWLINE !in line
    decreases |b|
  {
    IndexIs(b);
    match FirstLine(b) {
      case Open =>
        assert b[..IndexByte(b)] == b;
      case Line(line, rest) =>
        var i := IndexByte(b);
        assert RETURN !in b[..i] && TrimReturns(b[..i]) == b[..i];
        SplitLosesNothing(rest);
        assert b == b[..i] + [NEWLINE] + b[i + 1..];
        assert Lines(b)[1..] == Lines(rest);
    }
  }

  // ---------------------------------------------------------------- the objects

  lemma {:induction false} RingedFront(ring: seq<Text>, line: Text, rest: seq<Text>, max: nat)
    ensures RingedAll(ring, [line] + rest, max) == RingedAll(Ringed(ring, line, max), rest, max)
  {
    if rest == [] {
      assert [line] + rest == [line] && [line][..0] == [];
    } else {
      assert ([line] + rest)[..|rest|] == [line] + rest[..|rest| - 1];
      RingedFront(ring, line, rest[..|rest| - 1], max);
    }
  }

  /** One turn of the loop in Write settles the same state; no newline, nothing to do. */
  lemma SettleStep(s: State, max: nat)
    ensures match FirstLine(s.buf)
            case Open => Settled(s, max) == s
            case Line(line, rest) =>
              Settled(s, max) == Settled(State(s.sent + [line], Ringed(s.ring, line, max), rest), max)
  {
    match FirstLine(s.buf) {
      case Open =>
      case Line(line, rest) =>
        RingedFront(s.ring, line, Lines(rest), max);
        Reassociate(s.sent, [line], Lines(rest));
    }
  }

  class LineRing {
    var lines: seq<Text>
    const max: nat

    constructor (max: nat)
      ensures lines == [] && this.max == max
    {
      this.max := max;
      lines := [];
    }

    method Add(line: Text)
      modifies this
      ensures lines == Ringed(old(lines), line, max)
    {
      if line == [] {
        return;
      }
      lines := lines + [line];
      if |lines| > max {
        lines := lines[|lines| - max..];
      }
    }
  }

  class Tee {
    const ring: LineRing
    var buf: Text
    var sent: seq<Text>  // what the live hub was told

    constructor (max: nat)
      ensures fresh(ring) && ring.max == max && View() == State([], [], [])
    {
      ring := new LineRing(max);
      buf, sent := [], [];
    }

    ghost function View(): State
      reads this, ring
    {
      State(sent, ring.lines, buf)
    }

    method Write(p: Text) returns (n: nat)
      modifies this, ring
      ensures n == |p| && View() == Written(old(View()), p, ring.max)
    {
      buf := buf + p;
      while true
        invariant Settled(View(), ring.max) == Written(old(View()), p, ring.max)
        decreases |buf|
      {
        var idx := IndexByte(buf);
        SettleStep(View(), ring.max);
        if idx == |buf| {
          break;
        }
        var line := TrimReturns(buf[..idx]);
        buf := buf[idx + 1..];
        ring.Add(line);
        sent := sent + [line];
      }
      n := |p|;
    }
  }
}
