/** stripInlineCode and findClosingBacktickRun of pkg/configdef/validate.go.

    A text is read as tokens: a maximal run of backticks that starts unescaped, or any
    other single character (an escaped backtick among them). A span is two runs of the
    same length with no run of that length between them, and stripping removes it. */
module InlineCode {

  import opened Sequences

  datatype Token = Other(c: char) | Ticks(n: nat)

  // ---------------------------------------------------------------- reading tokens

  /** Whether position i of s follows an odd number of backslashes. */
  predicate OddEscapes(s: string, i: nat)
    requires i <= |s|
  {
    i > 0 && s[i - 1] == '\\' && !OddEscapes(s, i - 1)
  }

  function TickRun(s: string, i: nat): (n: nat)
    requires i <= |s|
    ensures i + n <= |s|
    decreases |s| - i
  {
    if i < |s| && s[i] == '`' then 1 + TickRun(s, i + 1) else 0
  }

  /** The tokens of s from position i on; i is a token boundary. */
  function Tokens(s: string, i: nat): (ts: seq<Token>)
    requires i <= |s|
    decreases |s| - i
  {
    if i == |s| then []
    else if s[i] != '`' || OddEscapes(s, i) then [Other(s[i])] + Tokens(s, i + 1)
    else [Ticks(TickRun(s, i))] + Tokens(s, i + TickRun(s, i))
  }

  function Backticks(n: nat): string {
    if n == 0 then "" else Backticks(n - 1) + "`"
  }

  function Text(t: Token): string {
    match t case Other(c) => [c] case Ticks(n) => Backticks(n)
  }

  function Render(ts: seq<Token>): string {
    if ts == [] then "" else Text(ts[0]) + Render(ts[1..])
  }

  // ---------------------------------------------------------------- stripping tokens

  /** The first place of a token, |ts| when it is not there. */
  function Find(ts: seq<Token>, t: Token): (i: nat)
    ensures i <= |ts|
  {
    if ts == [] then 0 else if ts[0] == t then 0 else 1 + Find(ts[1..], t)
  }

  function StripTokens(ts: seq<Token>): seq<Token>
    decreases |ts|
  {
    if ts == [] then []
    else
      var closer := Find(ts[1..], ts[0]);
      if ts[0].Ticks? && closer < |ts| - 1 then StripTokens(ts[closer + 2..])
      else [ts[0]] + StripTokens(ts[1..])
  }

  function Strip(s: string): string {
    Render(StripTokens(Tokens(s, 0)))
  }

  // ---------------------------------------------------------------- the program's loops

  method OddEscapesBefore(content: string, idx: nat) returns (odd: bool)
    requires idx <= |content|
    ensures odd == OddEscapes(content, idx)
  {
    var slashes, j := 0, idx;
    while j > 0 && content[j - 1] == '\\'
      invariant 0 <= j <= idx && slashes == idx - j
      invariant OddEscapes(content, idx) == if slashes % 2 == 0 then OddEscapes(content, j) else !OddEscapes(content, j)
    {
      slashes, j := slashes + 1, j - 1;
    }
    odd := slashes % 2 == 1;
  }

  lemma {:induction false} TokensStep(s: string, i: nat)
    requires i < |s|
    ensures Tokens(s, i) != []
    ensures s[i] != '`' || OddEscapes(s, i) ==> Tokens(s, i)[0] == Other(s[i]) && Tokens(s, i)[1..] == Tokens(s, i + 1)
    ensures s[i] == '`' && !OddEscapes(s, i) ==>
              && TickRun(s, i) > 0 && Tokens(s, i)[0] == Ticks(TickRun(s, i))
              && Tokens(s, i)[1..] == Tokens(s, i + TickRun(s, i))
  {
  }

  method CountTicks(content: string, idx: nat) returns (run: nat)
    requires idx <= |content|
    ensures run == TickRun(content, idx)
  {
    run := 0;
    while idx + run < |content| && content[idx + run] == '`'
      invariant idx + run <= |content| && TickRun(content, idx) == run + TickRun(content, idx + run)
    {
      run := run + 1;
    }
  }

  /** Where the first run of exactly `run` backticks starts at or after i, -1 when there is
      none; i is a token boundary, and longer and shorter runs are passed over whole. */
  function Closer(s: string, i: nat, run: nat): (closer: int)
    requires i <= |s|
    ensures closer == -1 || i <= closer < |s|
    decreases |s| - i
  {
    if i == |s| then -1
    else if s[i] != '`' || OddEscapes(s, i) then Closer(s, i + 1, run)
    else if TickRun(s, i) == run then i
    else Closer(s, i + TickRun(s, i), run)
  }

  method FindClosingBacktickRun(content: string, from: nat, run: nat) returns (closer: int)
    requires from <= |content|
    ensures closer == Closer(content, from, run)
  {
    var idx := from;
    while idx < |content|
      invariant from <= idx <= |content| && Closer(content, idx, run) == Closer(content, from, run)
    {
      var odd := OddEscapesBefore(content, idx);
      if content[idx] != '`' || odd {
        idx := idx + 1;
      } else {
        var length := CountTicks(content, idx);
        if length == run {
          return idx;
        }
        idx := idx + length;
      }
    }
    closer := -1;
  }

  /** ts are the tokens in `skipped`, none of them a run of this length, and then nothing,
      or that run at position `closer` and the tokens after it. */
  predicate FirstOfItsLength(s: string, ts: seq<Token>, run: nat, closer: int, skipped: seq<Token>) {
    && Ticks(run) !in skipped
    && (if closer < 0 then ts == skipped
        else closer + run <= |s| && ts == skipped + [Ticks(run)] + Tokens(s, closer + run))
  }

  lemma FrontToken(s: string, first: Token, all: seq<Token>, rest: seq<Token>, run: nat, closer: int, more: seq<Token>)
    requires all != [] && all[0] == first && all[1..] == rest && first != Ticks(run)
    requires FirstOfItsLength(s, rest, run, closer, more)
    ensures FirstOfItsLength(s, all, run, closer, [first] + more)
  {
    assert all == [first] + rest;
  }

  lemma {:induction false} CloserHere(s: string, ts: seq<Token>, run: nat, closer: nat)
    requires ts != [] && ts[0] == Ticks(run) && closer + run <= |s| && ts[1..] == Tokens(s, closer + run)
    ensures FirstOfItsLength(s, ts, run, closer, [])
  {
    assert ts == [ts[0]] + ts[1..];
    assert [] + [Ticks(run)] == [Ticks(run)];
  }

  /** The loop finds the first run of the length among the tokens. */
  lemma {:induction false} CloserIsFirst(s: string, i: nat, run: nat) returns (skipped: seq<Token>)
    requires i <= |s|
    ensures FirstOfItsLength(s, Tokens(s, i), run, Closer(s, i, run), skipped)
    decreases |s| - i
  {
    if i == |s| {
      skipped := [];
    } else {
      TokensStep(s, i);
      var ts := Tokens(s, i);
      if ts[0] == Ticks(run) {
        skipped := [];
        CloserHere(s, ts, run, i);
      } else {
        var next := if ts[0].Ticks? then i + TickRun(s, i) else i + 1;
        var more := CloserIsFirst(s, next, run);
        skipped := [ts[0]] + more;
        FrontToken(s, ts[0], ts, Tokens(s, next), run, Closer(s, next, run), more);
      }
    }
  }

  lemma {:induction false} FindAfter(skipped: seq<Token>, t: Token, rest: seq<Token>)
    requires t !in skipped
    ensures Find(skipped, t) == |skipped|
    ensures Find(skipped + [t] + rest, t) == |skipped|
  {
    if skipped != [] {
      assert (skipped + [t] + rest)[1..] == skipped[1..] + [t] + rest;
      FindAfter(skipped[1..], t, rest);
    } else {
      assert [] + [t] + rest == [t] + rest;
    }
  }

  lemma StripKeeps(t: Token, rest: seq<Token>)
    requires t.Ticks? ==> t !in rest
    ensures StripTokens([t] + rest) == [t] + StripTokens(rest)
  {
    if t.Ticks? {
      FindAfter(rest, t, []);
    }
    assert ([t] + rest)[1..] == rest;
  }

  lemma StripDrops(t: Token, inner: seq<Token>, rest: seq<Token>)
    requires t.Ticks? && t !in inner
    ensures StripTokens([t] + inner + [t] + rest) == StripTokens(rest)
  {
    var ts := [t] + inner + [t] + rest;
    assert ts[1..] == inner + [t] + rest;
    FindAfter(inner, t, rest);
    assert ts[|inner| + 2..] == rest;
  }

  /** The output still to come when the tokens from position i on are left. */
  function Pending(s: string, i: nat): string
    requires i <= |s|
  {
    Render(StripTokens(Tokens(s, i)))
  }

  lemma PendingEnd(out: string, s: string)
    ensures out + Pending(s, |s|) == out
  {
  }

  lemma PendingOther(out: string, s: string, i: nat)
    requires i < |s| && (s[i] != '`' || OddEscapes(s, i))
    ensures out + Pending(s, i) == (out + [s[i]]) + Pending(s, i + 1)
  {
    StripKeeps(Other(s[i]), Tokens(s, i + 1));
    RenderCons(Other(s[i]), StripTokens(Tokens(s, i + 1)));
    Reassociate(out, [s[i]], Pending(s, i + 1));
  }

  lemma PendingKept(out: string, s: string, i: nat, run: nat)
    requires i < |s| && s[i] == '`' && !OddEscapes(s, i) && run == TickRun(s, i)
    requires Ticks(run) !in Tokens(s, i + run)
    ensures out + Pending(s, i) == (out + Backticks(run)) + Pending(s, i + run)
  {
    StripKeeps(Ticks(run), Tokens(s, i + run));
    RenderCons(Ticks(run), StripTokens(Tokens(s, i + run)));
    Reassociate(out, Backticks(run), Pending(s, i + run));
  }

  lemma PendingSpan(s: string, i: nat, run: nat, inner: seq<Token>, closer: nat)
    requires i < |s| && s[i] == '`' && !OddEscapes(s, i) && run == TickRun(s, i)
    requires closer + run <= |s| && Ticks(run) !in inner
    requires Tokens(s, i + run) == inner + [Ticks(run)] + Tokens(s, closer + run)
    ensures Pending(s, i) == Pending(s, closer + run)
  {
    TokensStep(s, i);
    StripSpan(Tokens(s, i), Ticks(run), inner, Tokens(s, closer + run));
  }

  lemma StripSpan(ts: seq<Token>, t: Token, inner: seq<Token>, rest: seq<Token>)
    requires t.Ticks? && t !in inner && ts != [] && ts[0] == t && ts[1..] == inner + [t] + rest
    ensures StripTokens(ts) == StripTokens(rest)
  {
    assert ts == [t] + inner + [t] + rest;
    StripDrops(t, inner, rest);
  }

  /** A run at position i: kept when it has no closer, else gone with all up to its closer. */
  lemma PendingRun(out: string, s: string, i: nat, run: nat, closer: int)
    requires i < |s| && s[i] == '`' && !OddEscapes(s, i) && run == TickRun(s, i) && closer == Closer(s, i + run, run)
    ensures closer < 0 ==> out + Pending(s, i) == (out + Backticks(run)) + Pending(s, i + run)
    ensures closer >= 0 ==> i + run <= closer && closer + run <= |s| && Pending(s, i) == Pending(s, closer + run)
  {
    var inner := CloserIsFirst(s, i + run, run);
    if closer < 0 {
      PendingKept(out, s, i, run);
    } else {
      PendingSpan(s, i, run, inner, closer);
    }
  }

  method StripInlineCode(content: string) returns (out: string)
    ensures out == Strip(content)
  {
    out := "";
    var idx := 0;
    while idx < |content|
      invariant 0 <= idx <= |content|
      invariant out + Pending(content, idx) == Pending(content, 0)
    {
      var odd := OddEscapesBefore(content, idx);
      if content[idx] != '`' || odd {
        PendingOther(out, content, idx);
        out := out + [content[idx]];
        idx := idx + 1;
      } else {
        var run := CountTicks(content, idx);
        var closer := FindClosingBacktickRun(content, idx + run, run);
        PendingRun(out, content, idx, run, closer);
        if closer < 0 {
          out := out + Backticks(run);
          idx := idx + run;
        } else {
          idx := closer + run;
        }
      }
    }
    PendingEnd(out, content);
  }

  lemma RenderCons(t: Token, ts: seq<Token>)
    ensures Render([t] + ts) == Text(t) + Render(ts)
  {
    assert ([t] + ts)[1..] == ts;
  }

  // ---------------------------------------------------------------- reading back what is left

  /** The token lists that some text is read as, when `odd` says whether an odd number of
      backslashes stands before it: a backtick alone is escaped, a run is not, and a run
      is not followed by a backtick. */
  predicate Readable(ts: seq<Token>, odd: bool) {
    ts == [] ||
    match ts[0]
    case Other(c) => (c == '`' ==> odd) && Readable(ts[1..], c == '\\' && !odd)
    case Ticks(n) =>
      && n > 0 && !odd && Readable(ts[1..], false)
      && (|ts| > 1 ==> ts[1].Other? && ts[1].c != '`')
  }

  lemma {:induction false} TickRunEnds(s: string, i: nat)
    requires i <= |s|
    ensures i + TickRun(s, i) < |s| ==> s[i + TickRun(s, i)] != '`'
    ensures TickRun(s, i) > 0 ==> !OddEscapes(s, i + TickRun(s, i))
    decreases |s| - i
  {
    if i < |s| && s[i] == '`' {
      TickRunEnds(s, i + 1);
    }
  }

  lemma {:induction false} TokensReadable(s: string, i: nat)
    requires i <= |s|
    ensures Readable(Tokens(s, i), OddEscapes(s, i))
    decreases |s| - i
  {
    if i < |s| {
      TokensStep(s, i);
      if s[i] != '`' || OddEscapes(s, i) {
        TokensReadable(s, i + 1);
      } else {
        var next := i + TickRun(s, i);
        TickRunEnds(s, i);
        TokensReadable(s, next);
        if next < |s| {
          TokensStep(s, next);
          assert Tokens(s, i)[1] == Tokens(s, i)[1..][0];
        }
      }
    }
  }

  lemma {:induction false} OddEscapesPrefix(p: string, q: string, i: nat)
    requires i <= |p|
    ensures OddEscapes(p + q, i) == OddEscapes(p, i)
  {
    if i > 0 {
      OddEscapesPrefix(p, q, i - 1);
    }
  }

  lemma {:induction false} BackticksFront(n: nat)
    requires n > 0
    ensures Backticks(n) == "`" + Backticks(n - 1)
  {
    if n > 1 {
      BackticksFront(n - 1);
      Reassociate("`", Backticks(n - 2), "`");
    }
  }

  /** n backticks after p that nothing continues are read as one run, and leave no odd escape. */
  lemma {:induction false} TickRunOf(p: string, n: nat, q: string)
    requires q == "" || q[0] != '`'
    ensures TickRun(p + Backticks(n) + q, |p|) == n
    ensures |p + Backticks(n)| == |p| + n
    ensures n > 0 ==> !OddEscapes(p + Backticks(n), |p| + n)
    decreases n
  {
    if n > 0 {
      BackticksFront(n);
      Reassociate(p, "`", Backticks(n - 1));
      TickRunOf(p + "`", n - 1, q);
    }
  }

  lemma {:induction false} RenderHead(ts: seq<Token>)
    requires ts != [] && ts[0].Other?
    ensures Render(ts) == [ts[0].c] + Render(ts[1..])
  {
  }

  /** A readable list that is written out after p is read back as itself. */
  lemma {:induction false} ReadBack(p: string, ts: seq<Token>)
    requires Readable(ts, OddEscapes(p, |p|))
    ensures Tokens(p + Render(ts), |p|) == ts
    decreases |ts|, 0
  {
    var s := p + Render(ts);
    if ts != [] {
      OddEscapesPrefix(p, Render(ts), |p|);
      match ts[0] {
        case Other(c) =>
          Reassociate(p, [c], Render(ts[1..]));
          OddEscapesPrefix(p, [c], |p|);
          assert s[|p|] == c;
          ReadBack(p + [c], ts[1..]);
          TokensStep(s, |p|);
        case Ticks(n) =>
          ReadBackRun(p, n, ts[1..]);
      }
    }
  }

  lemma {:induction false} ReadBackRun(p: string, n: nat, rest: seq<Token>)
    requires n > 0 && !OddEscapes(p, |p|) && Readable(rest, false)
    requires rest != [] ==> rest[0].Other? && rest[0].c != '`'
    ensures Tokens(p + (Backticks(n) + Render(rest)), |p|) == [Ticks(n)] + rest
    decreases |rest|, 1
  {
    var s := p + (Backticks(n) + Render(rest));
    if rest != [] {
      RenderHead(rest);
    }
    Reassociate(p, Backticks(n), Render(rest));
    TickRunOf(p, n, Render(rest));
    OddEscapesPrefix(p, Backticks(n) + Render(rest), |p|);
    BackticksFront(n);
    assert s[|p|] == '`';
    ReadBack(p + Backticks(n), rest);
    TokensStep(s, |p|);
  }

  lemma SplitAt(s: string, i: nat, j: nat)
    requires i <= j <= |s|
    ensures s[i..] == s[i..j] + s[j..]
  {
  }

  lemma RenderFirst(ts: seq<Token>, rest: string)
    requires ts != [] && Render(ts[1..]) == rest
    ensures Render(ts) == Text(ts[0]) + rest
  {
  }

  lemma {:induction false} RenderTokens(s: string, i: nat)
    requires i <= |s|
    ensures Render(Tokens(s, i)) == s[i..]
    decreases |s| - i
  {
    if i == |s| {
      assert s[i..] == "";
    } else {
      TokensStep(s, i);
      var next := if s[i] != '`' || OddEscapes(s, i) then i + 1 else i + TickRun(s, i);
      RenderTokens(s, next);
      RenderFirst(Tokens(s, i), s[next..]);
      SplitAt(s, i, next);
      BackticksAre(s, i);
    }
  }

  lemma {:induction false} BackticksAre(s: string, i: nat)
    requires i <= |s|
    ensures s[i..i + TickRun(s, i)] == Backticks(TickRun(s, i))
    decreases |s| - i
  {
    if i < |s| && s[i] == '`' {
      BackticksAre(s, i + 1);
      BackticksFront(TickRun(s, i));
      assert s[i..i + TickRun(s, i)] == "`" + s[i + 1..i + TickRun(s, i)];
    }
  }

  // ---------------------------------------------------------------- what stripping keeps

  lemma {:induction false} ReadableAfterRun(ts: seq<Token>, odd: bool, j: nat)
    requires Readable(ts, odd) && j < |ts| && ts[j].Ticks?
    ensures Readable(ts[j + 1..], false)
  {
    if j > 0 {
      assert ts[1..][j - 1] == ts[j] && ts[1..][j..] == ts[j + 1..];
      ReadableAfterRun(ts[1..], if ts[0].Other? then ts[0].c == '\\' && !odd else false, j - 1);
    }
  }

  lemma {:induction false} FindIs(ts: seq<Token>, t: Token)
    ensures Find(ts, t) < |ts| ==> ts[Find(ts, t)] == t && t !in ts[..Find(ts, t)]
    ensures Find(ts, t) == |ts| ==> t !in ts
  {
    if ts != [] && ts[0] != t {
      FindIs(ts[1..], t);
      assert ts == [ts[0]] + ts[1..];
      assert ts[..Find(ts, t)] == [ts[0]] + ts[1..][..Find(ts[1..], t)];
    }
  }

  /** Stripping joins no two runs and changes no escape to its right. */
  lemma {:induction false} StripReadable(ts: seq<Token>, odd: bool)
    requires Readable(ts, odd)
    ensures Readable(StripTokens(ts), odd)
    decreases |ts|
  {
    if ts != [] {
      var closer := Find(ts[1..], ts[0]);
      if ts[0].Ticks? && closer < |ts| - 1 {
        FindIs(ts[1..], ts[0]);
        ReadableAfterRun(ts, odd, closer + 1);
        StripReadable(ts[closer + 2..], false);
      } else {
        var rest := StripTokens(ts[1..]);
        StripReadable(ts[1..], if ts[0].Other? then ts[0].c == '\\' && !odd else false);
        assert ([ts[0]] + rest)[1..] == rest;
        if ts[0].Ticks? && |ts| > 1 {
          assert ts[1..][0] == ts[1];
          assert rest == [ts[1]] + StripTokens(ts[1..][1..]);
        }
      }
    }
  }

  lemma {:induction false} StripMembers(ts: seq<Token>)
    ensures forall t :: t in StripTokens(ts) ==> t in ts
    decreases |ts|
  {
    if ts != [] {
      assert ts == [ts[0]] + ts[1..];
      var closer := Find(ts[1..], ts[0]);
      if ts[0].Ticks? && closer < |ts| - 1 {
        StripMembers(ts[closer + 2..]);
      } else {
        StripMembers(ts[1..]);
      }
    }
  }

  /** No run has a closer: none is followed by another of its length. */
  predicate NoCloser(ts: seq<Token>) {
    ts == [] || ((ts[0].Ticks? ==> ts[0] !in ts[1..]) && NoCloser(ts[1..]))
  }

  lemma {:induction false} StripNoCloser(ts: seq<Token>)
    ensures NoCloser(StripTokens(ts))
    decreases |ts|
  {
    if ts != [] {
      var closer := Find(ts[1..], ts[0]);
      if ts[0].Ticks? && closer < |ts| - 1 {
        StripNoCloser(ts[closer + 2..]);
      } else {
        StripNoCloser(ts[1..]);
        StripMembers(ts[1..]);
        FindIs(ts[1..], ts[0]);
        assert ([ts[0]] + StripTokens(ts[1..]))[1..] == StripTokens(ts[1..]);
      }
    }
  }

  lemma {:induction false} NoCloserFixed(ts: seq<Token>)
    requires NoCloser(ts)
    ensures StripTokens(ts) == ts
  {
    if ts != [] {
      NoCloserFixed(ts[1..]);
      assert ts == [ts[0]] + ts[1..];
      if ts[0].Ticks? {
        FindAfter(ts[1..], ts[0], []);
      }
    }
  }

  /** What is left is read as exactly the tokens that were kept, and no run in it has a
      closer. */
  lemma StripReadsBack(s: string)
    ensures Tokens(Strip(s), 0) == StripTokens(Tokens(s, 0)) && NoCloser(Tokens(Strip(s), 0))
  {
    TokensReadable(s, 0);
    StripReadable(Tokens(s, 0), false);
    ReadBack("", StripTokens(Tokens(s, 0)));
    assert "" + Strip(s) == Strip(s);
    StripNoCloser(Tokens(s, 0));
  }

  /** Stripping inline code twice is stripping it once. */
  lemma StripIdempotent(s: string)
    ensures Strip(Strip(s)) == Strip(s)
  {
    StripReadsBack(s);
    NoCloserFixed(Tokens(Strip(s), 0));
  }

  /** A text is left alone exactly when no run in it has a closer. */
  lemma StripLeavesAlone(s: string)
    ensures Strip(s) == s <==> NoCloser(Tokens(s, 0))
  {
    StripReadsBack(s);
    if NoCloser(Tokens(s, 0)) {
      NoCloserFixed(Tokens(s, 0));
      RenderTokens(s, 0);
    }
  }

  // ---------------------------------------------------------------- the reference reading

  /** CommonMark 0.31.2 section 6.1: a text is cut into code spans and other tokens. */
  datatype Segment = Kept(t: Token) | Span(n: nat, inner: seq<Token>)

  function SegmentTokens(seg: Segment): seq<Token> {
    match seg case Kept(t) => [t] case Span(n, inner) => [Ticks(n)] + inner + [Ticks(n)]
  }

  function AllTokens(segs: seq<Segment>): seq<Token> {
    if segs == [] then [] else SegmentTokens(segs[0]) + AllTokens(segs[1..])
  }

  function KeptTokens(segs: seq<Segment>): seq<Token> {
    if segs == [] then []
    else (match segs[0] case Kept(t) => [t] case Span(_, _) => []) + KeptTokens(segs[1..])
  }

  /** A span holds no run of its own length, and a run is kept only without a closer. */
  predicate LegalCut(segs: seq<Segment>) {
    segs == [] || (LegalCut(segs[1..]) &&
                   LegalBefore(segs[0], AllTokens(segs[1..])))
  }

  predicate LegalBefore(seg: Segment, rest: seq<Token>) {
    match seg
    case Kept(t) => t.Ticks? ==> t !in rest
    case Span(n, inner) => Ticks(n) !in inner
  }

  /** Whatever way a text is legally cut, stripping keeps what the cut keeps. */
  lemma {:induction false} StripIsTheCut(segs: seq<Segment>)
    requires LegalCut(segs)
    ensures StripTokens(AllTokens(segs)) == KeptTokens(segs)
  {
    if segs != [] {
      StripIsTheCut(segs[1..]);
      var rest := AllTokens(segs[1..]);
      match segs[0] {
        case Kept(t) =>
          StripKeeps(t, rest);
        case Span(n, inner) =>
          StripDrops(Ticks(n), inner, rest);
          assert [] + KeptTokens(segs[1..]) == KeptTokens(segs[1..]);
      }
    }
  }

  lemma CutOff(seg: Segment, segs: seq<Segment>, ts: seq<Token>)
    requires LegalCut(segs) && ts == SegmentTokens(seg) + AllTokens(segs)
    requires LegalBefore(seg, AllTokens(segs))
    ensures LegalCut([seg] + segs) && AllTokens([seg] + segs) == ts
  {
    assert ([seg] + segs)[1..] == segs;
  }

  lemma SplitSpan(ts: seq<Token>, inner: seq<Token>, closer: nat)
    requires ts != [] && closer < |ts| - 1 && ts[1..][closer] == ts[0] && inner == ts[1..][..closer]
    ensures ts == [ts[0]] + inner + [ts[0]] + ts[closer + 2..]
  {
  }

  /** Every text can be cut legally, so the cut above is the reading, not just a reading. */
  lemma {:induction false} LegalCutExists(ts: seq<Token>) returns (segs: seq<Segment>)
    ensures LegalCut(segs) && AllTokens(segs) == ts
    decreases |ts|
  {
    if ts == [] {
      return [];
    }
    var closer := Find(ts[1..], ts[0]);
    FindIs(ts[1..], ts[0]);
    if ts[0].Ticks? && closer < |ts| - 1 {
      var rest := LegalCutExists(ts[closer + 2..]);
      var inner := ts[1..][..closer];
      SplitSpan(ts, inner, closer);
      CutOff(Span(ts[0].n, inner), rest, ts);
      return [Span(ts[0].n, inner)] + rest;
    }
    var rest := LegalCutExists(ts[1..]);
    assert ts == [ts[0]] + ts[1..];
    CutOff(Kept(ts[0]), rest, ts);
    return [Kept(ts[0])] + rest;
  }
}
