/**
 The log as the reader of the viewer thinks of it: a plain sequence of numbered
 lines and an unfinished last line. `LogBuffer` is proved to be this; the laws
 about whole streams and whole runs are proved here.
 */
module LogLines {
  import opened Text

  const LF: char := '\n'
  const CR: char := '\r'

  /** A line without the carriage return of a CRLF terminator. */
  function TrimCR(line: string): (r: string)
  {
    if |line| > 0 && line[|line| - 1] == CR then line[..|line| - 1] else line
  }

  function TrimAll(lines: seq<string>): (r: seq<string>)
    ensures |r| == |lines|
    ensures forall i | 0 <= i < |r| :: r[i] == TrimCR(lines[i])
  {
    seq(|lines|, i requires 0 <= i < |lines| => TrimCR(lines[i]))
  }

  /** The terminated lines of a text. */
  function Complete(s: string): (r: seq<string>)
  {
    var parts := Split(s, LF);
    parts[..|parts| - 1]
  }

  /** What follows the last terminator. */
  function Fragment(s: string): (r: string)
  {
    var parts := Split(s, LF);
    parts[|parts| - 1]
  }

  /** The lines `prepend` takes from a chunk: blank ones are skipped. */
  function OlderLines(chunk: string): (r: seq<string>)
  {
    TrimAll(NonEmpty(Split(chunk, LF)))
  }

  lemma {:induction false} NonEmptyCons(line: string, rest: seq<string>)
    ensures NonEmpty([line] + rest) == (if line == "" then [] else [line]) + NonEmpty(rest)
  {
    assert ([line] + rest)[1..] == rest;
    assert [] + NonEmpty(rest) == NonEmpty(rest);
  }

  /** Retained lines, the number of the first one, and the unfinished line. */
  datatype View = View(lines: seq<string>, firstSeq: int, pending: string) {
    function EndSeq(): (r: int) { firstSeq + |lines| }

    predicate Retains(n: int) { firstSeq <= n < EndSeq() }

    function LineAt(n: int): (r: string)
      requires Retains(n)
    {
      lines[n - firstSeq]
    }
  }

  const EMPTY := View([], 0, "")

  function KeepLast(v: View, max: nat): (r: View)
  {
    if |v.lines| <= max then v
    else v.(lines := v.lines[|v.lines| - max..], firstSeq := v.firstSeq + |v.lines| - max)
  }

  function Append(v: View, chunk: string, max: nat): (r: View)
  {
    if chunk == "" then v
    else
      var s := v.pending + chunk;
      KeepLast(View(v.lines + TrimAll(Complete(s)), v.firstSeq, Fragment(s)), max)
  }

  function Flush(v: View, max: nat): (r: View)
  {
    if v.pending == "" then v
    else KeepLast(View(v.lines + [TrimCR(v.pending)], v.firstSeq, ""), max)
  }

  function Prepend(v: View, chunk: string): (r: View)
  {
    var older := OlderLines(chunk);
    View(older + v.lines, v.firstSeq - |older|, v.pending)
  }

  // ----- splitting a text in two never matters

  lemma {:induction false} FragmentFree(s: string)
    ensures LF !in Fragment(s)
    ensures forall l | l in Complete(s) :: LF !in l
  {
    SplitFree(s, LF);
    var parts := Split(s, LF);
    assert parts[|parts| - 1] in parts;
  }

  lemma {:induction false} SplitSeam(s: string, b: string)
    ensures Split(s + b, LF) == Complete(s) + Split(Fragment(s) + b, LF)
  {
    var f := Fragment(s);
    FragmentFree(s);
    SplitAppendNone(f, b, LF);
    SplitAppend(s, b, LF);
    assert Split(s, LF) == Complete(s) + [f];
    FuseInit(Complete(s), f, Split(b, LF));
  }

  lemma {:induction false} CompleteAppend(s: string, b: string)
    ensures Complete(s + b) == Complete(s) + Complete(Fragment(s) + b)
    ensures Fragment(s + b) == Fragment(Fragment(s) + b)
  {
    SplitSeam(s, b);
    InitConcat(Complete(s), Split(Fragment(s) + b, LF));
  }

  lemma {:induction false} FuseInit(front: seq<string>, last: string, pb: seq<string>)
    requires |pb| >= 1
    ensures Fuse(front + [last], pb) == front + Fuse([last], pb)
  {
    var pa := front + [last];
    assert pa[..|pa| - 1] == front && pa[|pa| - 1] == last;
    assert [last][..0] == [];
  }

  lemma {:induction false} InitConcat(a: seq<string>, b: seq<string>)
    requires |b| >= 1
    ensures (a + b)[..|a + b| - 1] == a + b[..|b| - 1]
    ensures (a + b)[|a + b| - 1] == b[|b| - 1]
  {
  }

  /** One step of a scan for newlines: the text up to the next one is a line. */
  lemma {:induction false} ScanStep(text: string, start: nat, nl: nat)
    requires start <= nl < |text| && text[nl] == LF && LF !in text[start..nl]
    ensures Split(text[start..], LF) == [text[start..nl]] + Split(text[nl + 1..], LF)
    ensures Complete(text[start..]) == [text[start..nl]] + Complete(text[nl + 1..])
    ensures Fragment(text[start..]) == Fragment(text[nl + 1..])
  {
    SplitAtFirst(text[start..nl], LF, text[nl + 1..]);
    assert text[start..] == text[start..nl] + [LF] + text[nl + 1..];
    InitConcat([text[start..nl]], Split(text[nl + 1..], LF));
  }

  lemma {:induction false} ScanEnd(rest: string)
    requires LF !in rest
    ensures Complete(rest) == [] && Fragment(rest) == rest
  {
    SplitNone(rest, LF);
  }

  lemma {:induction false} TrimAllConcat(a: seq<string>, b: seq<string>)
    ensures TrimAll(a + b) == TrimAll(a) + TrimAll(b)
  {
  }

  /** Evicting early or late leaves the same window under the same numbers. */
  lemma {:induction false} KeepLastCompose(v: View, more: seq<string>, pending: string, max: nat)
    ensures var w := KeepLast(v, max);
            KeepLast(View(w.lines + more, w.firstSeq, pending), max)
            == KeepLast(View(v.lines + more, v.firstSeq, pending), max)
  {
    var w := KeepLast(v, max);
    if |v.lines| > max {
      var cut := |v.lines| - max;
      var all := v.lines + more;
      assert w.lines + more == all[cut..];
      assert all[cut..][|more|..] == all[cut + |more|..];
    }
  }

  /**
   Chunking never matters: two appends leave what one append of the joined text
   leaves, wherever the seam falls (inside a line, inside a CRLF pair, at a page
   boundary).
   */
  lemma {:induction false} Chunking(v: View, a: string, b: string, max: nat)
    ensures Append(Append(v, a, max), b, max) == Append(v, a + b, max)
  {
    if a == "" {
      assert a + b == b;
    } else if b == "" {
      assert a + b == a;
    } else {
      var s := v.pending + a;
      assert v.pending + (a + b) == s + b;
      CompleteAppend(s, b);
      var newer := TrimAll(Complete(Fragment(s) + b));
      TrimAllConcat(Complete(s), Complete(Fragment(s) + b));
      var mid := View(v.lines + TrimAll(Complete(s)), v.firstSeq, Fragment(s));
      KeepLastCompose(mid, newer, Fragment(s + b), max);
      assert mid.lines + newer == v.lines + (TrimAll(Complete(s)) + newer);
    }
  }

  /** Committing the unfinished line is the same as receiving its newline. */
  lemma {:induction false} FlushIsNewline(v: View, max: nat)
    requires LF !in v.pending
    ensures Flush(v, max) == if v.pending == "" then v else Append(v, [LF], max)
  {
    if v.pending != "" {
      var s := v.pending + [LF];
      SplitAtFirst(v.pending, LF, "");
      SplitNone("", LF);
      assert s == v.pending + [LF] + "";
      assert Split(s, LF) == [v.pending, ""];
      assert Complete(s) == [v.pending];
      assert TrimAll([v.pending]) == [TrimCR(v.pending)];
    }
  }

  // ----- what a prepended chunk adds

  /** A newline separates the lines of a chunk ... */
  lemma {:induction false} OlderConcat(a: string, b: string)
    ensures OlderLines(a + [LF] + b) == OlderLines(a) + OlderLines(b)
  {
    hide Split, NonEmpty;
    SplitBetween(a, LF, b);
    NonEmptyAppend(Split(a, LF), Split(b, LF));
    TrimAllConcat(NonEmpty(Split(a, LF)), NonEmpty(Split(b, LF)));
  }

  /** ... and between newlines there is one line, without one final carriage return, or none. */
  lemma {:induction false} OlderLine(l: string)
    requires LF !in l
    ensures OlderLines(l) == if l == "" then [] else [if l[|l| - 1] == CR then l[..|l| - 1] else l]
  {
    SplitNone(l, LF);
    NonEmptyCons(l, []);
    assert [l] + [] == [l];
    assert NonEmpty<char>([]) == [];
  }

  /** Prepending a chunk is prepending its parts, the later one first. */
  lemma {:induction false} PrependConcat(v: View, a: string, b: string)
    ensures Prepend(v, a + [LF] + b) == Prepend(Prepend(v, b), a)
  {
    hide OlderLines;
    OlderConcat(a, b);
    CatAssoc(OlderLines(a), OlderLines(b), v.lines);
  }

  /** A line comes in front, under the number before the first. */
  lemma {:induction false} PrependLine(v: View, l: string)
    requires LF !in l && l != ""
    ensures Prepend(v, l) == View([if l[|l| - 1] == CR then l[..|l| - 1] else l] + v.lines, v.firstSeq - 1, v.pending)
  {
    OlderLine(l);
  }

  // ----- whole runs

  datatype Op = AppendOp(chunk: string) | FlushOp | PrependOp(chunk: string) | ClearOp

  function Step(v: View, op: Op, max: nat): (r: View)
  {
    match op
    case AppendOp(chunk) => Append(v, chunk, max)
    case FlushOp => Flush(v, max)
    case PrependOp(chunk) => Prepend(v, chunk)
    case ClearOp => EMPTY
  }

  /** The state after a run, oldest operation first. */
  function Run(v: View, ops: seq<Op>, max: nat): (r: View)
  {
    if ops == [] then v
    else Step(Run(v, ops[..|ops| - 1], max), ops[|ops| - 1], max)
  }

  /**
   The text streamed in since the last clear. Ending the stream in the middle of
   a line counts as its missing newline.
   */
  function Stream(ops: seq<Op>): (s: string)
  {
    if ops == [] then ""
    else
      var before := Stream(ops[..|ops| - 1]);
      match ops[|ops| - 1]
      case AppendOp(chunk) => before + chunk
      case FlushOp => if Fragment(before) == "" then before else before + [LF]
      case PrependOp(_) => before
      case ClearOp => ""
  }

  /** What a run did to the two ends of the log since the last clear. */
  datatype Account = Account(evicted: int, prepended: nat, highWater: int)

  /** Lines are counted as evicted when they were there or were committed and are not there any more. */
  function Tally(ops: seq<Op>, max: nat): (t: Account)
  {
    if ops == [] then Account(0, 0, 0)
    else
      var t := Tally(ops[..|ops| - 1], max);
      var v := Run(EMPTY, ops[..|ops| - 1], max);
      var w := Step(v, ops[|ops| - 1], max);
      var op := ops[|ops| - 1];
      if op.ClearOp? then Account(0, 0, 0)
      else if op.PrependOp? then t.(prepended := t.prepended + |OlderLines(op.chunk)|)
      else
        var committed := |Complete(Stream(ops))| - |Complete(Stream(ops[..|ops| - 1]))|;
        Account(t.evicted + |v.lines| + committed - |w.lines|,
                t.prepended,
                if w.firstSeq > t.highWater then w.firstSeq else t.highWater)
  }

  /** What is kept true of the state, the streamed text and the tally. */
  ghost predicate Agrees(v: View, s: string, t: Account)
  {
    && v.pending == Fragment(s)
    && v.EndSeq() == |Complete(s)|
    && v.firstSeq == t.evicted - t.prepended
    && v.firstSeq <= t.highWater <= v.EndSeq()
    && 0 <= t.highWater
    && forall n | t.highWater <= n < v.EndSeq() :: v.LineAt(n) == TrimCR(Complete(s)[n])
  }

  lemma {:induction false} AppendAgrees(v: View, s: string, t: Account, chunk: string, max: nat)
    requires Agrees(v, s, t)
    ensures var w := Append(v, chunk, max);
            && v.firstSeq <= w.firstSeq
            && Agrees(w, s + chunk,
                      Account(t.evicted + |v.lines| + |Complete(s + chunk)| - |Complete(s)| - |w.lines|, t.prepended,
                              if w.firstSeq > t.highWater then w.firstSeq else t.highWater))
  {
    if chunk == "" {
      assert s + chunk == s;
    } else {
      var w := Append(v, chunk, max);
      CompleteAppend(s, chunk);
      var was, added := Complete(s), Complete(v.pending + chunk);
      var all := v.lines + TrimAll(added);
      forall n | t.highWater <= n < w.EndSeq() && w.firstSeq <= n
        ensures w.LineAt(n) == TrimCR((was + added)[n])
      {
        assert w.LineAt(n) == all[n - v.firstSeq];
        if n < v.EndSeq() {
          assert v.LineAt(n) == TrimCR(was[n]);
        }
      }
    }
  }

  lemma {:induction false} PrependAgrees(v: View, s: string, t: Account, chunk: string)
    requires Agrees(v, s, t)
    ensures Agrees(Prepend(v, chunk), s, t.(prepended := t.prepended + |OlderLines(chunk)|))
  {
    var w := Prepend(v, chunk);
    forall n | t.highWater <= n < w.EndSeq()
      ensures w.LineAt(n) == v.LineAt(n)
    {
    }
  }

  /**
   Every run: the unfinished line is what follows the last newline streamed in,
   the end number counts the lines committed, the first number is the count of lines
   evicted minus that of lines prepended, and every number that was never evicted names exactly
   that line of the stream.
   */
  lemma {:induction false} RunAgrees(ops: seq<Op>, max: nat)
    ensures Agrees(Run(EMPTY, ops, max), Stream(ops), Tally(ops, max))
  {
    hide Agrees, Append, Prepend, OlderLines, Complete, Fragment;
    NothingAgrees();
    if ops != [] {
      var before, op := ops[..|ops| - 1], ops[|ops| - 1];
      RunAgrees(before, max);
      var v, s, t := Run(EMPTY, before, max), Stream(before), Tally(before, max);
      AgreesFacts(v, s, t);
      match op
      case AppendOp(chunk) =>
        AppendAgrees(v, s, t, chunk, max);
      case FlushOp =>
        FragmentFree(s);
        FlushIsNewline(v, max);
        if v.pending != "" {
          AppendAgrees(v, s, t, [LF], max);
        }
      case PrependOp(chunk) =>
        PrependAgrees(v, s, t, chunk);
      case ClearOp =>
    }
  }

  lemma {:induction false} NothingAgrees()
    ensures Agrees(EMPTY, "", Account(0, 0, 0))
  {
    SplitNone("", LF);
  }

  lemma {:induction false} AgreesFacts(v: View, s: string, t: Account)
    requires Agrees(v, s, t)
    ensures v.pending == Fragment(s) && v.firstSeq <= t.highWater
  {
  }

  /**
   Following a stream without paging back: whatever the chunks and the flushes,
   the log is the last `max` lines of everything streamed since the last clear.
   */
  lemma {:induction false} RunIsLastLines(ops: seq<Op>, max: nat)
    requires forall op | op in ops :: !op.PrependOp?
    ensures var v, all, n := Run(EMPTY, ops, max), TrimAll(Complete(Stream(ops))), |Complete(Stream(ops))|;
            && v.lines == (if n <= max then all else all[n - max..])
            && v.firstSeq == (if n <= max then 0 else n - max)
            && v.pending == Fragment(Stream(ops))
  {
    RunKeepsLast(ops, max);
  }

  lemma {:induction false} RunKeepsLast(ops: seq<Op>, max: nat)
    requires forall op | op in ops :: !op.PrependOp?
    ensures Run(EMPTY, ops, max)
            == KeepLast(View(TrimAll(Complete(Stream(ops))), 0, Fragment(Stream(ops))), max)
  {
    SplitNone("", LF);
    assert TrimAll([]) == [];
    if ops != [] {
      var before, op := ops[..|ops| - 1], ops[|ops| - 1];
      RunKeepsLast(before, max);
      var v, s := Run(EMPTY, before, max), Stream(before);
      StreamIsAppend(s, max);
      FragmentFree(s);
      assert op in ops;
      match op
      case AppendOp(chunk) =>
        Chunking(EMPTY, s, chunk, max);
        StreamIsAppend(s + chunk, max);
      case FlushOp =>
        FlushIsNewline(v, max);
        if v.pending != "" {
          Chunking(EMPTY, s, [LF], max);
          StreamIsAppend(s + [LF], max);
        }
      case ClearOp =>
    }
  }

  lemma {:induction false} StreamIsAppend(s: string, max: nat)
    ensures Append(EMPTY, s, max) == KeepLast(View(TrimAll(Complete(s)), 0, Fragment(s)), max)
  {
    SplitNone("", LF);
    assert TrimAll([]) == [];
    assert "" + s == s;
    assert [] + TrimAll(Complete(s)) == TrimAll(Complete(s));
  }

  /** A line that survives an operation keeps its number and its text. */
  lemma {:induction false} StepStable(v: View, op: Op, max: nat, n: int)
    requires !op.ClearOp? && v.Retains(n) && Step(v, op, max).Retains(n)
    ensures Step(v, op, max).LineAt(n) == v.LineAt(n)
  {
  }

  /**
   ... and so through any run that never drops it. (A number dropped on the way
   may be handed out again by a later prepend, so being retained at the two ends
   is not enough: see `NumbersAreReused`.)
   */
  lemma {:induction false} RunStable(v: View, ops: seq<Op>, max: nat, n: int)
    requires ClearOp !in ops
    requires v.Retains(n)
    requires forall k | 0 <= k <= |ops| :: Run(v, ops[..k], max).Retains(n)
    ensures Run(v, ops, max).Retains(n)
    ensures Run(v, ops, max).LineAt(n) == v.LineAt(n)
  {
    assert ops[..|ops|] == ops && ops[..0] == [];
    if ops != [] {
      var before := ops[..|ops| - 1];
      forall k | 0 <= k <= |before|
        ensures Run(v, before[..k], max).Retains(n)
      {
        assert before[..k] == ops[..k];
      }
      RunStable(v, before, max, n);
      StepStable(Run(v, before, max), ops[|ops| - 1], max, n);
    }
  }

  // ----- when a number is given out again

  /** The operation gives this number to a line that it commits. */
  predicate Gives(v: View, op: Op, max: nat, n: int)
  {
    match op
    case PrependOp(_) => Step(v, op, max).firstSeq <= n < v.firstSeq
    case ClearOp => false
    case _ => v.EndSeq() <= n < Step(v, op, max).EndSeq()
  }

  /** Some line committed since the last clear had this number, even if only until the same call evicted it. */
  predicate WasGiven(ops: seq<Op>, max: nat, n: int)
  {
    if ops == [] || ops[|ops| - 1].ClearOp? then false
    else
      var before := ops[..|ops| - 1];
      Gives(Run(EMPTY, before, max), ops[|ops| - 1], max, n) || WasGiven(before, max, n)
  }

  /** The least `firstSeq` since the last clear. */
  function LowWater(ops: seq<Op>, max: nat): (low: int)
  {
    if ops == [] || ops[|ops| - 1].ClearOp? then 0
    else
      var low, first := LowWater(ops[..|ops| - 1], max), Run(EMPTY, ops, max).firstSeq;
      if first < low then first else low
  }

  lemma {:induction false} StepEnds(v: View, op: Op, max: nat)
    requires !op.ClearOp?
    ensures var w := Step(v, op, max);
            if op.PrependOp? then w.firstSeq == v.firstSeq - |OlderLines(op.chunk)| && w.EndSeq() == v.EndSeq()
            else v.firstSeq <= w.firstSeq && v.EndSeq() <= w.EndSeq()
  {
    hide OlderLines, Complete, Fragment, TrimAll;
  }

  /** The numbers given out so far are those from the low-water mark to the end. */
  lemma {:induction false} GivenRange(ops: seq<Op>, max: nat, n: int)
    ensures WasGiven(ops, max, n) <==> LowWater(ops, max) <= n < Run(EMPTY, ops, max).EndSeq()
    ensures LowWater(ops, max) <= Run(EMPTY, ops, max).firstSeq
  {
    hide Append, Flush, Prepend, OlderLines;
    if ops != [] {
      var before, op := ops[..|ops| - 1], ops[|ops| - 1];
      GivenRange(before, max, n);
      var v := Run(EMPTY, before, max);
      assert Run(EMPTY, ops, max) == Step(v, op, max);
      if !op.ClearOp? {
        StepEnds(v, op, max);
      }
    }
  }

  /**
   An operation gives a line a number that an earlier line had exactly when it prepends
   a chunk with a non-blank line while `firstSeq` is above the low-water mark.
   */
  lemma {:induction false} ReuseExactly(ops: seq<Op>, op: Op, max: nat)
    ensures var v := Run(EMPTY, ops, max);
            (exists n :: Gives(v, op, max, n) && WasGiven(ops, max, n))
            <==> op.PrependOp? && OlderLines(op.chunk) != [] && v.firstSeq > LowWater(ops, max)
  {
    hide Run, Step, WasGiven, LowWater, OlderLines;
    var v := Run(EMPTY, ops, max);
    if !op.ClearOp? {
      StepEnds(v, op, max);
    }
    forall n ensures WasGiven(ops, max, n) <==> LowWater(ops, max) <= n < v.EndSeq() {
      GivenRange(ops, max, n);
    }
    if op.PrependOp? && OlderLines(op.chunk) != [] && v.firstSeq > LowWater(ops, max) {
      assert Gives(v, op, max, v.firstSeq - 1) && WasGiven(ops, max, v.firstSeq - 1);
    }
  }

  const REUSING: seq<Op> := [AppendOp("a\n"), AppendOp("b\n"), PrependOp("c\n")]

  lemma {:induction false} OneLine(c: char)
    requires c != LF
    ensures Complete([c, LF]) == [[c]] && Fragment([c, LF]) == "" && NonEmpty(Split([c, LF], LF)) == [[c]]
  {
    assert [c, LF] == [c] + [LF] + "";
    SplitAtFirst([c], LF, "");
    SplitNone("", LF);
    assert Split([c, LF], LF) == [[c], ""];
    NonEmptyCons([c], [""]);
    NonEmptyCons("", []);
    assert [""] + [] == [""] && [[c]] + [""] == [[c], ""];
  }

  lemma {:induction false} OneMore(v: View, c: char)
    requires |v.lines| <= 1 && v.pending == "" && c != LF && c != CR
    ensures Append(v, [c, LF], 1) == View([[c]], v.firstSeq + |v.lines|, "")
  {
    OneLine(c);
    hide Split, NonEmpty, Complete, Fragment;
    assert "" + [c, LF] == [c, LF];
    assert TrimAll([[c]]) == [[c]];
    var all := v.lines + [[c]];
    assert |v.lines| == 0 ==> all == [[c]];
    assert |v.lines| == 1 ==> all[1..] == [[c]];
  }

  lemma {:induction false} OneBefore(v: View, c: char)
    requires c != LF && c != CR
    ensures Prepend(v, [c, LF]) == View([[c]] + v.lines, v.firstSeq - 1, v.pending)
  {
    OneLine(c);
    hide Split, NonEmpty, Complete, Fragment;
    assert TrimAll([[c]]) == [[c]];
  }

  lemma {:induction false} RunSnoc(ops: seq<Op>, op: Op, max: nat)
    ensures Run(EMPTY, ops + [op], max) == Step(Run(EMPTY, ops, max), op, max)
  {
    hide Step;
    assert (ops + [op])[..|ops|] == ops;
  }

  /** With room for one line: number 0 is "a", is evicted, and is then "c". */
  lemma {:induction false} NumbersAreReused()
    ensures var v, w := Run(EMPTY, REUSING[..1], 1), Run(EMPTY, REUSING, 1);
            v.Retains(0) && v.LineAt(0) == "a" && w.Retains(0) && w.LineAt(0) == "c"
  {
    hide Append, Prepend;
    assert REUSING[..1] == [] + [AppendOp("a\n")];
    assert REUSING == [AppendOp("a\n")] + [AppendOp("b\n")] + [PrependOp("c\n")];
    RunSnoc([], AppendOp("a\n"), 1);
    RunSnoc([AppendOp("a\n")], AppendOp("b\n"), 1);
    RunSnoc([AppendOp("a\n")] + [AppendOp("b\n")], PrependOp("c\n"), 1);
    hide Run;
    OneMore(EMPTY, 'a');
    OneMore(View(["a"], 0, ""), 'b');
    OneBefore(View(["b"], 1, ""), 'c');
  }

  // ----- the download

  function Download(lines: seq<string>): (s: string)
  {
    if lines == [] then "" else Join(lines, LF) + [LF]
  }

  function Last(lines: seq<string>, max: nat): (r: seq<string>)
  {
    if |lines| <= max then lines else lines[|lines| - max..]
  }

  /** A download is read back line by line; a smaller buffer keeps the last ones. */
  lemma {:induction false} Downloaded(lines: seq<string>, max: nat)
    requires forall l | l in lines :: LF !in l
    ensures Append(EMPTY, Download(lines), max).pending == ""
    ensures Append(EMPTY, Download(lines), max).lines == TrimAll(Last(lines, max))
  {
    hide *;
    DownloadParts(lines);
    StreamIsAppend(Download(lines), max);
    KeepLastIs(View(TrimAll(lines), 0, ""), max);
    TrimAllLast(lines, max);
  }

  lemma {:induction false} DownloadParts(lines: seq<string>)
    requires forall l | l in lines :: LF !in l
    ensures Complete(Download(lines)) == lines && Fragment(Download(lines)) == ""
  {
    if lines == [] {
      SplitNone("", LF);
    } else {
      var s := Download(lines);
      JoinSnoc(lines, "", LF);
      hide Split, Join, IndexOf;
      assert s + "" == s;
      SplitJoin(lines + [""], LF);
    }
  }

  lemma {:induction false} KeepLastIs(v: View, max: nat)
    ensures KeepLast(v, max).lines == Last(v.lines, max) && KeepLast(v, max).pending == v.pending
  {
  }

  lemma {:induction false} TrimAllLast(lines: seq<string>, max: nat)
    ensures TrimAll(Last(lines, max)) == Last(TrimAll(lines), max)
  {
  }

  /** Trimming leaves exactly those lines alone that do not end in a carriage return. */
  lemma {:induction false} TrimAllSame(lines: seq<string>)
    ensures TrimAll(lines) == lines <==> forall l | l in lines :: l == "" || l[|l| - 1] != CR
  {
    forall i | 0 <= i < |lines|
      ensures TrimAll(lines)[i] == lines[i] <==> lines[i] == "" || lines[i][|lines[i]| - 1] != CR
    {
      assert lines[i] != "" && lines[i][|lines[i]| - 1] == CR ==> |TrimAll(lines)[i]| < |lines[i]|;
    }
  }

  /**
   Feeding a download back into a fresh buffer gives the last `max` lines if and only
   if none of those ends in a carriage return (one written `x\r\r\n` does).
   */
  lemma {:induction false} DownloadRoundTrip(lines: seq<string>, max: nat)
    requires forall l | l in lines :: LF !in l
    ensures Append(EMPTY, Download(lines), max).pending == ""
    ensures Append(EMPTY, Download(lines), max).lines == Last(lines, max)
            <==> forall l | l in Last(lines, max) :: l == "" || l[|l| - 1] != CR
  {
    hide Append, Download, TrimAll, Last;
    Downloaded(lines, max);
    TrimAllSame(Last(lines, max));
  }

  lemma {:induction false} TrimAllFree(lines: seq<string>)
    requires forall l | l in lines :: LF !in l
    ensures forall l | l in TrimAll(lines) :: LF !in l
  {
    forall i | 0 <= i < |lines|
      ensures LF !in TrimAll(lines)[i]
    {
      assert lines[i] in lines;
    }
  }

  /** No retained line ever holds a newline, so `DownloadRoundTrip` applies. */
  lemma {:induction false} RunLinesFree(ops: seq<Op>, max: nat)
    ensures forall l | l in Run(EMPTY, ops, max).lines :: LF !in l
  {
    if ops != [] {
      var before, op := ops[..|ops| - 1], ops[|ops| - 1];
      RunLinesFree(before, max);
      RunAgrees(before, max);
      var v := Run(EMPTY, before, max);
      FragmentFree(Stream(before));
      match op
      case AppendOp(chunk) =>
        FragmentFree(v.pending + chunk);
        TrimAllFree(Complete(v.pending + chunk));
      case FlushOp =>
      case PrependOp(chunk) =>
        SplitFree(chunk, LF);
        NonEmptyPieces(Split(chunk, LF));
        TrimAllFree(NonEmpty(Split(chunk, LF)));
      case ClearOp =>
    }
  }

  /** A line that a download changes can be streamed in: `x\r\r\n` is kept as `x\r`. */
  lemma {:induction false} CarriageReturnKept(max: nat)
    requires max >= 1
    ensures var kept := Run(EMPTY, [AppendOp("x\r\r\n")], max).lines;
            kept == ["x\r"] && Append(EMPTY, Download(kept), max).lines == ["x"]
  {
    assert "x\r\r\n" == "x\r\r" + [LF] && [] + [AppendOp("x\r\r\n")] == [AppendOp("x\r\r\n")];
    RunSnoc([], AppendOp("x\r\r\n"), max);
    OneAppend("x\r\r", max);
    OneAppend("x\r", max);
    assert TrimCR("x\r\r") == "x\r" && TrimCR("x\r") == "x";
    assert Download(["x\r"]) == "x\r" + [LF];
  }

  lemma {:induction false} OneAppend(line: string, max: nat)
    requires max >= 1 && LF !in line
    ensures Append(EMPTY, line + [LF], max).lines == [TrimCR(line)]
  {
    SplitAtFirst(line, LF, "");
    SplitNone("", LF);
    assert line + [LF] == line + [LF] + "" && "" + (line + [LF]) == line + [LF];
    assert Split(line + [LF], LF) == [line, ""];
    assert Complete(line + [LF]) == [line];
    assert TrimAll([line]) == [TrimCR(line)];
  }
}
