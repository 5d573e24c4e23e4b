/**
 What makes the line index of `LogBuffer` consistent, as facts about values:
 extents name the text of their lines, reference counts count, pages without
 references are empty, and how each small step of the buffer keeps all that.
 */
module LogIndex {
  import opened Text
  import L = LogLines

  /** The live part of the index: each retained line's page and extent, and its text. */
  datatype Live = Live(owners: seq<int>, starts: seq<int>, ends: seq<int>, lines: seq<string>) {
    ghost predicate Rectangular() { |owners| == |starts| == |ends| == |lines| }

    ghost function Drop(n: nat): (r: Live)
      requires Rectangular() && n <= |lines|
    {
      Live(owners[n..], starts[n..], ends[n..], lines[n..])
    }

    ghost function Then(other: Live): (r: Live)
    {
      Live(owners + other.owners, starts + other.starts, ends + other.ends, lines + other.lines)
    }
  }

  const NOTHING := Live([], [], [], [])

  ghost function One(p: int, start: int, end: int, line: string): (r: Live)
  {
    Live([p], [start], [end], [line])
  }

  // ----- what is true of a consistent index

  /** The line stored at [start, end) of page `p`. */
  ghost predicate Holds(pages: seq<string>, p: int, start: int, end: int, line: string)
  {
    && 0 <= p < |pages|
    && 0 <= start <= end <= |pages[p]|
    && pages[p][start..end] == line
  }

  /** Line k is the text its triple names, for every k. */
  ghost predicate Extents(pages: seq<string>, live: Live)
  {
    && live.Rectangular()
    && forall k | 0 <= k < |live.lines| :: Holds(pages, live.owners[k], live.starts[k], live.ends[k], live.lines[k])
  }

  ghost function Count(owners: seq<int>, p: int): (n: nat)
  {
    if owners == [] then 0 else (if owners[0] == p then 1 else 0) + Count(owners[1..], p)
  }

  /** A page's count is the number of retained lines stored in it. */
  ghost predicate Refs(pages: seq<string>, refs: seq<nat>, owners: seq<int>)
  {
    && |pages| == |refs|
    && forall p | 0 <= p < |refs| :: refs[p] == Count(owners, p)
  }

  ghost predicate OnlyNewlines(s: string)
  {
    forall i | 0 <= i < |s| :: s[i] == L.LF
  }

  /**
   A page without references, other than the one being written, holds no text.
   (Prepending nothing but blank lines leaves a page of newlines behind.)
   */
  ghost predicate Freed(pages: seq<string>, refs: seq<nat>, tail: nat)
  {
    && |pages| == |refs|
    && forall p | 0 <= p < |pages| && p != tail && refs[p] == 0 :: OnlyNewlines(pages[p])
  }

  ghost predicate Consistent(pages: seq<string>, refs: seq<nat>, live: Live, tail: nat)
  {
    Extents(pages, live) && Refs(pages, refs, live.owners) && Freed(pages, refs, tail)
  }

  /** Once anything was indexed in the tail page, the newest line is there. */
  ghost predicate TailOwned(owners: seq<int>, tail: nat, lineStart: nat)
  {
    lineStart > 0 ==> |owners| > 0 && owners[|owners| - 1] == tail
  }

  /** The unfinished line begins at `lineStart` and everything has been scanned. */
  ghost predicate TailScanned(text: string, lineStart: nat, scanFrom: nat)
  {
    lineStart <= scanFrom == |text| && NoNewline(text, lineStart, |text|)
  }

  ghost predicate NoNewline(text: string, from: nat, to: nat)
    requires to <= |text|
  {
    forall k | from <= k < to :: text[k] != L.LF
  }

  // ----- counting

  lemma {:induction false} CountConcat(a: seq<int>, b: seq<int>, p: int)
    ensures Count(a + b, p) == Count(a, p) + Count(b, p)
  {
    if a == [] {
      assert a + b == b;
    } else {
      CountConcat(a[1..], b, p);
      assert (a + b)[1..] == a[1..] + b;
    }
  }

  lemma {:induction false} CountSnoc(a: seq<int>, q: int, p: int)
    ensures Count(a + [q], p) == Count(a, p) + if p == q then 1 else 0
  {
    CountConcat(a, [q], p);
    assert [q][1..] == [];
  }

  ghost function Repeat(q: int, n: nat): (r: seq<int>)
    ensures |r| == n && forall k | 0 <= k < n :: r[k] == q
  {
    seq(n, _ => q)
  }

  lemma {:induction false} CountRepeat(n: nat, q: int, p: int)
    ensures Count(Repeat(q, n), p) == if p == q then n else 0
  {
    if n > 0 {
      CountRepeat(n - 1, q, p);
      assert Repeat(q, n)[1..] == Repeat(q, n - 1);
    }
  }

  lemma {:induction false} CountZero(owners: seq<int>, p: int)
    ensures Count(owners, p) == 0 <==> p !in owners
  {
    if owners != [] {
      CountZero(owners[1..], p);
    }
  }

  // ----- how each step keeps the index consistent

  lemma {:induction false} NothingConsistent()
    ensures Consistent([""], [0], NOTHING, 0)
  {
  }

  lemma {:induction false} TrimSlice(text: string, start: nat, end: nat)
    requires start <= end <= |text|
    ensures L.TrimCR(text[start..end])
            == text[start..if end > start && text[end - 1] == L.CR then end - 1 else end]
  {
  }

  /** What `lines` and a text still to be read amount to: all lines, and what follows the last. */
  datatype Reading = Reading(lines: seq<string>, rest: string)

  ghost function ReadOn(lines: seq<string>, text: string, at: nat): (r: Reading)
    requires at <= |text|
  {
    Reading(lines + L.TrimAll(L.Complete(text[at..])), L.Fragment(text[at..]))
  }

  /** Taking the line that ends at the newline `nl` changes nothing in total. */
  lemma {:induction false} ReadNext(lines: seq<string>, text: string, start: nat, nl: nat)
    requires start <= nl < |text| && NoNewline(text, start, nl) && text[nl] == L.LF
    ensures ReadOn(lines + [L.TrimCR(text[start..nl])], text, nl + 1) == ReadOn(lines, text, start)
  {
    var line, rest := text[start..nl], L.Complete(text[nl + 1..]);
    L.ScanStep(text, start, nl);
    L.TrimAllConcat([line], rest);
    assert L.TrimAll([line]) == [L.TrimCR(line)];
    assert lines + ([L.TrimCR(line)] + L.TrimAll(rest)) == (lines + [L.TrimCR(line)]) + L.TrimAll(rest);
  }

  lemma {:induction false} ReadAll(lines: seq<string>, text: string, start: nat)
    requires start <= |text| && NoNewline(text, start, |text|)
    ensures ReadOn(lines, text, start) == Reading(lines, text[start..])
  {
    L.ScanEnd(text[start..]);
    assert L.TrimAll([]) == [];
    assert lines + [] == lines;
  }

  lemma {:induction false} ReceivedTail(text: string, chunk: string, start: nat)
    requires start <= |text|
    ensures (text + chunk)[start..] == text[start..] + chunk
    ensures NoNewline(text, start, |text|) ==> NoNewline(text + chunk, start, |text|)
  {
  }

  lemma {:induction false} FlushedTail(text: string, start: nat)
    requires start <= |text|
    ensures text[start..|text|] == text[start..] && text[|text|..] == ""
  {
  }

  lemma {:induction false} ConsistentRows(pages: seq<string>, refs: seq<nat>, live: Live, tail: nat)
    requires Consistent(pages, refs, live, tail)
    ensures live.Rectangular() && |refs| == |pages|
  {
  }

  lemma {:induction false} KeepLastDrops(live: Live, firstSeq: int, pending: string, max: nat)
    requires live.Rectangular() && |live.lines| > max
    ensures var n := |live.lines| - max;
            L.KeepLast(L.View(live.lines, firstSeq, pending), max)
            == L.View(live.Drop(n).lines, firstSeq + n, pending)
  {
  }

  lemma {:induction false} TailOwnedSnoc(owners: seq<int>, tail: nat, lineStart: nat)
    ensures TailOwned(owners + [tail], tail, lineStart)
  {
  }

  lemma {:induction false} TailOwnedDrop(owners: seq<int>, n: nat, tail: nat, lineStart: nat)
    requires n < |owners| && TailOwned(owners, tail, lineStart)
    ensures TailOwned(owners[n..], tail, lineStart)
  {
    assert owners[n..][|owners| - n - 1] == owners[|owners| - 1];
  }

  lemma {:induction false} TailOwnedAfter(older: seq<int>, owners: seq<int>, tail: nat, lineStart: nat)
    requires TailOwned(owners, tail, lineStart)
    ensures TailOwned(older + owners, tail, lineStart)
  {
  }

  lemma {:induction false} NothingOlderThan(v: L.View, chunk: string)
    requires L.OlderLines(chunk) == []
    ensures L.Prepend(v, chunk) == v
  {
    assert [] + v.lines == v.lines;
  }

  lemma {:induction false} NothingOlder(v: L.View)
    ensures L.OlderLines("") == [] && L.Prepend(v, "") == v
  {
    SplitNone("", L.LF);
    assert [""][1..] == [];
    NothingOlderThan(v, "");
  }

  /** One more line in page `p`. */
  lemma {:induction false} PushConsistent(pages: seq<string>, refs: seq<nat>, live: Live, tail: nat,
                                          p: nat, start: nat, end: nat, line: string)
    requires Consistent(pages, refs, live, tail) && Holds(pages, p, start, end, line)
    ensures Consistent(pages, refs[p := refs[p] + 1], live.Then(One(p, start, end, line)), tail)
  {
    forall q | 0 <= q < |refs| {
      CountSnoc(live.owners, p, q);
    }
  }

  /** More text at the end of the tail page. */
  lemma {:induction false} ReceiveConsistent(pages: seq<string>, refs: seq<nat>, live: Live, tail: nat, chunk: string)
    requires Consistent(pages, refs, live, tail) && tail < |pages|
    ensures Consistent(pages[tail := pages[tail] + chunk], refs, live, tail)
  {
    var pages' := pages[tail := pages[tail] + chunk];
    forall k | 0 <= k < |live.lines|
      ensures Holds(pages', live.owners[k], live.starts[k], live.ends[k], live.lines[k])
    {
      if live.owners[k] == tail {
        assert (pages[tail] + chunk)[live.starts[k]..live.ends[k]] == pages[tail][live.starts[k]..live.ends[k]];
      }
    }
  }

  lemma {:induction false} OwnersInRange(pages: seq<string>, live: Live, p: int)
    requires Extents(pages, live) && p >= |pages|
    ensures Count(live.owners, p) == 0
  {
    CountZero(live.owners, p);
    forall k | 0 <= k < |live.lines| ensures live.owners[k] != p {
      assert Holds(pages, live.owners[k], live.starts[k], live.ends[k], live.lines[k]);
    }
  }

  /** A new page at the end, taking over as the tail page from a page in use. */
  lemma {:induction false} SealConsistent(pages: seq<string>, refs: seq<nat>, live: Live, tail: nat)
    requires Consistent(pages, refs, live, tail) && tail < |pages|
    requires tail in live.owners
    ensures Consistent(pages + [""], refs + [0], live, |pages|)
  {
    OwnersInRange(pages, live, |pages|);
    CountZero(live.owners, tail);
    assert Extents(pages + [""], live);
  }

  /** A new page of blank lines nobody refers to. */
  lemma {:induction false} BlankConsistent(pages: seq<string>, refs: seq<nat>, live: Live, tail: nat, chunk: string)
    requires Consistent(pages, refs, live, tail) && tail < |pages| && OnlyNewlines(chunk)
    ensures Consistent(pages + [chunk], refs + [0], live, tail)
  {
    OwnersInRange(pages, live, |pages|);
    assert Extents(pages + [chunk], live);
  }

  /** A new page and lines of it, in front of all others. */
  lemma {:induction false} PrependConsistent(pages: seq<string>, refs: seq<nat>, live: Live, tail: nat,
                                             chunk: string, older: Live)
    requires Consistent(pages, refs, live, tail) && tail < |pages|
    requires Extents(pages + [chunk], older) && |older.lines| > 0
    requires older.owners == Repeat(|pages|, |older.lines|)
    ensures Consistent(pages + [chunk], refs + [|older.lines|], older.Then(live), tail)
  {
    var pages', refs' := pages + [chunk], refs + [|older.lines|];
    assert Extents(pages', live);
    assert Extents(pages', older.Then(live));
    OwnersInRange(pages, live, |pages|);
    forall q | 0 <= q < |refs'|
      ensures refs'[q] == Count(older.owners + live.owners, q)
    {
      CountConcat(older.owners, live.owners, q);
      CountRepeat(|older.lines|, |pages|, q);
    }
  }

  /** The pages once one reference to page `p` is dropped. */
  ghost function Release(pages: seq<string>, refs: seq<nat>, p: int, tail: nat): (r: seq<string>)
    requires 0 <= p < |pages| == |refs|
  {
    if refs[p] == 1 && p != tail then pages[p := ""] else pages
  }

  /** Dropping the oldest line frees at most its own page, and only when nothing else uses it. */
  lemma {:induction false} DropConsistent(pages: seq<string>, refs: seq<nat>, live: Live, tail: nat)
    requires Consistent(pages, refs, live, tail) && |live.lines| > 0
    ensures 0 <= live.owners[0] < |pages| && refs[live.owners[0]] >= 1
    ensures var p := live.owners[0];
            Consistent(Release(pages, refs, p, tail), refs[p := refs[p] - 1], live.Drop(1), tail)
  {
    var p := live.owners[0];
    assert Holds(pages, p, live.starts[0], live.ends[0], live.lines[0]);
    CountZero(live.owners[1..], p);
    var pages', rest := Release(pages, refs, p, tail), live.Drop(1);
    forall k | 0 <= k < |rest.lines|
      ensures Holds(pages', rest.owners[k], rest.starts[k], rest.ends[k], rest.lines[k])
    {
      assert Holds(pages, live.owners[k + 1], live.starts[k + 1], live.ends[k + 1], live.lines[k + 1]);
      assert rest.owners[k] in live.owners[1..];
    }
  }

  lemma {:induction false} DropDrop(live: Live, n: nat)
    requires live.Rectangular() && n < |live.lines|
    ensures live.Drop(n).Rectangular() && |live.Drop(n).lines| > 0
    ensures live.Drop(n).owners[0] == live.owners[n]
    ensures live.Drop(n).Drop(1) == live.Drop(n + 1)
  {
  }
}
