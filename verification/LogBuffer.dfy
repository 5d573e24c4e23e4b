/**
 The paged line index behind the log viewer. Text lives in pages, a line is a
 (page, start, end) triple in three parallel arrays, pages are reference counted,
 and lines come and go at both ends. Every operation is proved to act on the plain
 sequence of lines of `LogLines` exactly as its specification does.
 */
module LogBuffers {
  import opened Wrappers
  import opened Text
  import opened LogIndex
  import L = LogLines

  const DEFAULT_PAGE_SIZE: nat := 0x10_0000
  const DEFAULT_MAX_LINES: nat := 200_000
  const INITIAL_CAPACITY: nat := 4096

  function Max(a: int, b: int): (r: int) { if a >= b then a else b }

  // ----- the lines of a prepended chunk

  /** The text of each extent, in order. */
  ghost function Texts(chunk: string, extents: seq<(nat, nat)>): (r: seq<string>)
    requires InRange(chunk, extents)
    ensures |r| == |extents|
  {
    seq(|extents|, i requires 0 <= i < |extents| => assert extents[i] in extents; chunk[extents[i].0..extents[i].1])
  }

  lemma {:induction false} TextsSnoc(chunk: string, extents: seq<(nat, nat)>, e: (nat, nat))
    requires forall x | x in extents :: x.0 < x.1 <= |chunk|
    requires e.0 < e.1 <= |chunk|
    ensures forall x | x in extents + [e] :: x.0 < x.1 <= |chunk|
    ensures Texts(chunk, extents + [e]) == Texts(chunk, extents) + [chunk[e.0..e.1]]
  {
  }

  ghost predicate InRange(chunk: string, extents: seq<(nat, nat)>)
  {
    forall e | e in extents :: e.0 < e.1 <= |chunk|
  }

  /** The lines found so far and those still to be found from `from` on. */
  ghost function Found(chunk: string, extents: seq<(nat, nat)>, from: nat): (r: Reading)
    requires from <= |chunk| && InRange(chunk, extents)
  {
    Reading(Texts(chunk, extents) + NonEmpty(Split(chunk[from..], L.LF)), "")
  }

  function WithLine(extents: seq<(nat, nat)>, from: nat, end: nat): (r: seq<(nat, nat)>)
  {
    if end > from then extents + [(from, end)] else extents
  }

  lemma {:induction false} WithLineTexts(chunk: string, extents: seq<(nat, nat)>, from: nat, end: nat,
                                         rest: seq<string>)
    requires InRange(chunk, extents) && from <= end <= |chunk|
    ensures InRange(chunk, WithLine(extents, from, end))
    ensures Texts(chunk, WithLine(extents, from, end)) + rest
            == Texts(chunk, extents) + ((if chunk[from..end] == "" then [] else [chunk[from..end]]) + rest)
  {
    var found := Texts(chunk, extents);
    if end > from {
      TextsSnoc(chunk, extents, (from, end));
      assert (found + [chunk[from..end]]) + rest == found + ([chunk[from..end]] + rest);
    } else {
      assert [] + rest == rest;
    }
  }

  lemma {:induction false} FoundNext(chunk: string, extents: seq<(nat, nat)>, from: nat, nl: nat)
    requires InRange(chunk, extents)
    requires from <= nl < |chunk| && chunk[nl] == L.LF && NoNewline(chunk, from, nl)
    ensures InRange(chunk, WithLine(extents, from, nl))
    ensures Found(chunk, WithLine(extents, from, nl), nl + 1) == Found(chunk, extents, from)
  {
    var rest := Split(chunk[nl + 1..], L.LF);
    L.ScanStep(chunk, from, nl);
    L.NonEmptyCons(chunk[from..nl], rest);
    WithLineTexts(chunk, extents, from, nl, NonEmpty(rest));
  }

  lemma {:induction false} FoundLast(chunk: string, extents: seq<(nat, nat)>, from: nat)
    requires InRange(chunk, extents) && from <= |chunk| && NoNewline(chunk, from, |chunk|)
    ensures InRange(chunk, WithLine(extents, from, |chunk|))
    ensures Texts(chunk, WithLine(extents, from, |chunk|)) == Found(chunk, extents, from).lines
  {
    var line := chunk[from..|chunk|];
    assert line == chunk[from..];
    SplitNone(line, L.LF);
    L.NonEmptyCons(line, []);
    assert [line] + [] == [line];
    WithLineTexts(chunk, extents, from, |chunk|, []);
    assert Texts(chunk, WithLine(extents, from, |chunk|)) + [] == Texts(chunk, WithLine(extents, from, |chunk|));
  }

  lemma {:induction false} FoundNone(chunk: string)
    ensures Found(chunk, [], 0).lines == NonEmpty(Split(chunk, L.LF))
  {
    assert chunk[0..] == chunk;
    assert Texts(chunk, []) == [];
  }

  /** Where the lines of a chunk are, skipping the empty ones. */
  method FindExtents(chunk: string) returns (extents: seq<(nat, nat)>)
    ensures InRange(chunk, extents)
    ensures Texts(chunk, extents) == NonEmpty(Split(chunk, L.LF))
  {
    extents := [];
    var from := 0;
    FoundNone(chunk);
    ghost var all := Found(chunk, [], 0);
    while from < |chunk|
      invariant from <= |chunk| && InRange(chunk, extents)
      invariant Found(chunk, extents, from) == all
    {
      var nl := IndexOf(chunk, L.LF, from);
      var end := if nl < 0 then |chunk| else nl;
      if nl < 0 {
        FoundLast(chunk, extents, from);
      } else {
        FoundNext(chunk, extents, from, nl);
      }
      extents := WithLine(extents, from, end);
      if nl < 0 {
        return;
      }
      from := nl + 1;
    }
    FoundLast(chunk, extents, from);
  }

  /** Where the line of extent `e` ends, less the carriage return of a CRLF. */
  function EndOf(chunk: string, e: (nat, nat)): (end: int)
    requires e.0 < e.1 <= |chunk|
  {
    if chunk[e.1 - 1] == L.CR then e.1 - 1 else e.1
  }

  ghost function Starts(extents: seq<(nat, nat)>): (r: seq<int>)
    ensures |r| == |extents|
  {
    seq(|extents|, i requires 0 <= i < |extents| => extents[i].0)
  }

  ghost function Ends(chunk: string, extents: seq<(nat, nat)>): (r: seq<int>)
    requires InRange(chunk, extents)
    ensures |r| == |extents|
  {
    seq(|extents|, i requires 0 <= i < |extents| => assert extents[i] in extents; EndOf(chunk, extents[i]))
  }

  /** The index entries of the lines of a chunk held in page `p`. */
  ghost function Older(chunk: string, extents: seq<(nat, nat)>, p: int): (r: Live)
    requires InRange(chunk, extents)
  {
    Live(Repeat(p, |extents|), Starts(extents), Ends(chunk, extents), L.TrimAll(Texts(chunk, extents)))
  }

  lemma {:induction false} OlderExtents(pages: seq<string>, chunk: string, extents: seq<(nat, nat)>, p: int)
    requires InRange(chunk, extents) && 0 <= p < |pages| && pages[p] == chunk
    ensures Extents(pages, Older(chunk, extents, p))
  {
    var o := Older(chunk, extents, p);
    forall k | 0 <= k < |o.lines|
      ensures Holds(pages, o.owners[k], o.starts[k], o.ends[k], o.lines[k])
    {
      var e := extents[k];
      assert e in extents;
      TrimSlice(chunk, e.0, e.1);
    }
  }

  /** The index once the lines of a chunk are in front, and why it is consistent. */
  lemma {:induction false} PlanPrepend(pages: seq<string>, refs: seq<nat>, live: Live, tail: nat, lineStart: nat,
                                       chunk: string, extents: seq<(nat, nat)>) returns (all: Live)
    requires Consistent(pages, refs, live, tail) && tail < |pages| && TailOwned(live.owners, tail, lineStart)
    requires InRange(chunk, extents) && |extents| > 0
    ensures all == Older(chunk, extents, |pages|).Then(live)
    ensures Consistent(pages + [chunk], refs + [|extents|], all, tail)
    ensures TailOwned(all.owners, tail, lineStart)
    ensures all.lines == L.TrimAll(Texts(chunk, extents)) + live.lines
  {
    var older := Older(chunk, extents, |pages|);
    OlderExtents(pages + [chunk], chunk, extents, |pages|);
    PrependConsistent(pages, refs, live, tail, chunk, older);
    TailOwnedAfter(older.owners, live.owners, tail, lineStart);
    all := older.Then(live);
  }

  lemma {:induction false} FrontNext(chunk: string, extents: seq<(nat, nat)>, p: int, i: nat)
    requires InRange(chunk, extents) && i < |extents|
    ensures extents[i] in extents
    ensures Repeat(p, i) + [p] == Repeat(p, i + 1)
    ensures Starts(extents)[..i] + [extents[i].0] == Starts(extents)[..i + 1]
    ensures Ends(chunk, extents)[..i] + [EndOf(chunk, extents[i])] == Ends(chunk, extents)[..i + 1]
  {
    assert extents[i] in extents;
  }

  /** Nothing but blank lines means nothing but newlines. */
  lemma {:induction false} BlankChunk(chunk: string)
    requires NonEmpty(Split(chunk, L.LF)) == []
    ensures OnlyNewlines(chunk)
    decreases |chunk|
  {
    hide NonEmpty, Split, IndexOf;
    var found, head, rest := Cut(chunk, L.LF);
    if found {
      L.NonEmptyCons(head, Split(rest, L.LF));
      BlankChunk(rest);
    } else {
      L.NonEmptyCons(chunk, []);
      assert [chunk] + [] == [chunk];
    }
  }

  // ----- typed-array operations

  /** `a[at] = value`, seen as one more element of the live part `a[from..at]`. */
  method Put(a: array<int>, ghost from: nat, at: nat, value: int)
    requires from <= at < a.Length
    modifies a
    ensures a[from..at + 1] == old(a[from..at]) + [value]
    ensures a[at + 1..] == old(a[at + 1..])
  {
    a[at] := value;
  }

  /** `a[at] = value` before the live part of the array. */
  method PutBefore(a: array<int>, ghost from: nat, at: nat, value: int, ghost base: nat)
    requires from <= at < base <= a.Length
    modifies a
    ensures a[from..at + 1] == old(a[from..at]) + [value]
    ensures forall used | base <= used <= a.Length :: a[base..used] == old(a[base..used])
  {
    a[at] := value;
  }

  /** `a.copyWithin(0, from, to)`. */
  method CopyWithin(a: array<int>, from: nat, to: nat)
    requires from <= to <= a.Length
    modifies a
    ensures a[..to - from] == old(a[from..to])
  {
    forall k | 0 <= k < to - from {
      a[k] := a[from + k];
    }
  }

  /** A new array of `capacity` with `a[from..to]` set at `at`. */
  method Reallocate(a: array<int>, from: nat, to: nat, at: nat, capacity: nat) returns (b: array<int>)
    requires from <= to <= a.Length && at + (to - from) <= capacity
    ensures fresh(b) && b.Length == capacity
    ensures b[at..at + (to - from)] == a[from..to]
  {
    b := new int[capacity];
    forall k | at <= k < at + (to - from) {
      b[k] := a[from + (k - at)];
    }
  }

  lemma {:induction false} AppendIs(v: L.View, chunk: string, max: nat)
    requires chunk != ""
    ensures var s := v.pending + chunk;
            L.Append(v, chunk, max)
            == L.KeepLast(L.View(v.lines + L.TrimAll(L.Complete(s)), v.firstSeq, L.Fragment(s)), max)
  {
  }

  /** A page that is not full, or whose last line is unfinished. */
  predicate HasRoom(page: string, lineStart: nat, pageSize: nat)
  {
    |page| < pageSize || lineStart < |page|
  }

  class LogBuffer {
    const maxLines: nat
    const pageSize: nat

    var pages: seq<string>
    var pageRefs: seq<nat>
    var tailPage: nat

    var pageOf: array<int>
    var startAt: array<int>
    var endAt: array<int>

    var base: nat
    var used: nat
    var baseSeq: int

    var lineStart: nat
    var scanFrom: nat
    var gen: nat

    ghost var live: Live

    /** The three arrays hold the live triples at [base, used). */
    ghost predicate Layout()
      reads this, pageOf, startAt, endAt
    {
      && pageOf.Length == startAt.Length == endAt.Length > 0
      && pageOf != startAt && pageOf != endAt && startAt != endAt
      && base <= used <= pageOf.Length
      && pageOf[base..used] == live.owners
      && startAt[base..used] == live.starts
      && endAt[base..used] == live.ends
    }

    /** Arrays are only ever replaced by new ones. */
    twostate predicate SameArrays()
      reads this
    {
      && (pageOf == old(pageOf) || fresh(pageOf))
      && (startAt == old(startAt) || fresh(startAt))
      && (endAt == old(endAt) || fresh(endAt))
    }

    ghost predicate Valid()
      reads this, pageOf, startAt, endAt
    {
      && maxLines >= 1 && pageSize >= 1
      && Layout()
      && Consistent(pages, pageRefs, live, tailPage)
      && TailOwned(live.owners, tailPage, lineStart)
      && tailPage < |pages| && TailScanned(pages[tailPage], lineStart, scanFrom)
    }

    /** The plain log this index stands for. */
    ghost function View(): (v: L.View)
      reads this
      requires tailPage < |pages| && lineStart <= |pages[tailPage]|
    {
      L.View(live.lines, baseSeq, pages[tailPage][lineStart..])
    }

    constructor (maxLinesOption: Option<int>, pageSizeOption: Option<int>)
      ensures Valid() && fresh(pageOf) && fresh(startAt) && fresh(endAt)
      ensures View() == L.EMPTY && gen == 0
      ensures maxLines == Max(1, if maxLinesOption.Some? then maxLinesOption.value else DEFAULT_MAX_LINES)
      ensures pageSize == Max(1024, if pageSizeOption.Some? then pageSizeOption.value else DEFAULT_PAGE_SIZE)
    {
      maxLines := Max(1, if maxLinesOption.Some? then maxLinesOption.value else DEFAULT_MAX_LINES);
      pageSize := Max(1024, if pageSizeOption.Some? then pageSizeOption.value else DEFAULT_PAGE_SIZE);
      pageOf := new int[INITIAL_CAPACITY];
      startAt := new int[INITIAL_CAPACITY];
      endAt := new int[INITIAL_CAPACITY];
      pages, pageRefs, tailPage := [""], [0], 0;
      base, used, baseSeq := 0, 0, 0;
      lineStart, scanFrom, gen := 0, 0, 0;
      live := NOTHING;
      NothingConsistent();
    }

    function FirstSeq(): (r: int)
      reads this
    {
      baseSeq
    }

    function EndSeq(): (r: int)
      reads this
    {
      baseSeq + (used - base)
    }

    // ----- the arrays

    /** Reclaims the evicted front of the full arrays, or doubles them. */
    method CompactOrGrow()
      requires Layout() && used == pageOf.Length
      modifies `pageOf, `startAt, `endAt, `base, `used, pageOf, startAt, endAt
      ensures Layout() && used < pageOf.Length
      ensures SameArrays()
    {
      if base > 0 {
        CopyWithin(pageOf, base, used);
        CopyWithin(startAt, base, used);
        CopyWithin(endAt, base, used);
        used := used - base;
        base := 0;
        return;
      }
      var grown := pageOf.Length * 2;
      var pageOf' := Reallocate(pageOf, 0, pageOf.Length, 0, grown);
      var startAt' := Reallocate(startAt, 0, startAt.Length, 0, grown);
      var endAt' := Reallocate(endAt, 0, endAt.Length, 0, grown);
      pageOf, startAt, endAt := pageOf', startAt', endAt';
    }

    /** Makes room for `count` lines before `base`. */
    method ReserveFront(count: nat)
      requires Layout()
      modifies `pageOf, `startAt, `endAt, `base, `used
      ensures Layout() && base >= count
      ensures SameArrays()
    {
      if base >= count {
        return;
      }
      var gap := Max(count, maxLines / 4);
      Move(gap, Max(pageOf.Length, gap + (used - base) + 1));
    }

    /** Moves the live triples to position `gap` of new arrays. */
    method Move(gap: nat, capacity: nat)
      requires Layout() && capacity > gap + (used - base)
      modifies `pageOf, `startAt, `endAt, `base, `used
      ensures Layout() && base == gap && fresh({pageOf, startAt, endAt})
    {
      var pageOf' := Reallocate(pageOf, base, used, gap, capacity);
      var startAt' := Reallocate(startAt, base, used, gap, capacity);
      var endAt' := Reallocate(endAt, base, used, gap, capacity);
      pageOf, startAt, endAt := pageOf', startAt', endAt';
      base, used := gap, gap + (used - base);
    }

    /** Stores one triple past the newest line. */
    method Write(page: int, start: int, end: int, ghost line: string)
      requires Layout()
      modifies `pageOf, `startAt, `endAt, `base, `used, `live, pageOf, startAt, endAt
      ensures Layout() && live == old(live).Then(One(page, start, end, line))
      ensures SameArrays()
    {
      if used == pageOf.Length {
        CompactOrGrow();
      }
      PutTriple(page, start, end);
      used := used + 1;
      live := live.Then(One(page, start, end, line));
    }

    method PutTriple(page: int, start: int, end: int)
      requires Layout() && used < pageOf.Length
      modifies pageOf, startAt, endAt
      ensures pageOf[base..used + 1] == live.owners + [page]
      ensures startAt[base..used + 1] == live.starts + [start]
      ensures endAt[base..used + 1] == live.ends + [end]
    {
      Put(pageOf, base, used, page);
      Put(startAt, base, used, start);
      Put(endAt, base, used, end);
    }

    method PageAt(i: nat) returns (page: int)
      requires Layout() && base <= i < used
      ensures page == live.owners[i - base]
    {
      page := pageOf[i];
      assert page == pageOf[base..used][i - base];
    }

    /** Moves the window past its first `n` triples. */
    method DropFront(n: nat)
      requires Layout() && live.Rectangular() && n <= |live.lines|
      modifies `base, `baseSeq, `live
      ensures Layout() && live == old(live).Drop(n) && baseSeq == old(baseSeq) + n
    {
      base := base + n;
      baseSeq := baseSeq + n;
      live := live.Drop(n);
    }

    // ----- the pages

    /** Indexes one more line at the end. */
    method PushLine(page: nat, start: nat, end: nat)
      requires Layout() && Consistent(pages, pageRefs, live, tailPage)
      requires page < |pages| && start <= end <= |pages[page]|
      modifies `pageRefs, `pageOf, `startAt, `endAt, `base, `used, `live, pageOf, startAt, endAt
      ensures Layout() && Consistent(pages, pageRefs, live, tailPage)
      ensures SameArrays()
      ensures live.lines == old(live.lines) + [L.TrimCR(pages[page][start..end])]
      ensures live.owners == old(live.owners) + [page]
    {
      var trimmed := if end > start && pages[page][end - 1] == L.CR then end - 1 else end;
      ghost var line := L.TrimCR(pages[page][start..end]);
      TrimSlice(pages[page], start, end);
      PushConsistent(pages, pageRefs, live, tailPage, page, start, trimmed, line);
      Write(page, start, trimmed, line);
      pageRefs := pageRefs[page := pageRefs[page] + 1];
    }

    method NewPage(text: string) returns (page: nat)
      requires |pages| == |pageRefs|
      modifies `pages, `pageRefs
      ensures page == |old(pages)| && pages == old(pages) + [text] && pageRefs == old(pageRefs) + [0]
    {
      pages := pages + [text];
      pageRefs := pageRefs + [0];
      page := |pages| - 1;
    }

    /** Drops the oldest lines past `maxLines` and the pages only they used. */
    method Evict(ghost pending: string)
      requires maxLines >= 1 && Layout() && Consistent(pages, pageRefs, live, tailPage) && tailPage < |pages|
      modifies `pages, `pageRefs, `base, `baseSeq, `live
      ensures Layout() && Consistent(pages, pageRefs, live, tailPage)
      ensures L.View(live.lines, baseSeq, pending)
              == L.KeepLast(L.View(old(live.lines), old(baseSeq), pending), maxLines)
      ensures TailOwned(old(live.owners), tailPage, lineStart) ==> TailOwned(live.owners, tailPage, lineStart)
      ensures |pages| == |old(pages)| && pages[tailPage] == old(pages[tailPage])
    {
      hide Consistent, TailOwned;
      ConsistentRows(pages, pageRefs, live, tailPage);
      assert used - base == |live.lines|;
      hide LogBuffer.Layout;
      var excess := used - base - maxLines;
      if excess <= 0 {
        return;
      }
      KeepLastDrops(live, baseSeq, pending, maxLines);
      if TailOwned(live.owners, tailPage, lineStart) {
        TailOwnedDrop(live.owners, excess, tailPage, lineStart);
      }
      ReleaseOldest(excess);
      DropFront(excess);
    }

    /** Takes the `excess` oldest lines off the counts, blanking each page that reaches zero. */
    method ReleaseOldest(excess: nat)
      requires Layout() && Consistent(pages, pageRefs, live, tailPage) && tailPage < |pages|
      requires excess <= |live.lines|
      modifies `pages, `pageRefs
      ensures Consistent(pages, pageRefs, live.Drop(excess), tailPage)
      ensures |pages| == |old(pages)| && pages[tailPage] == old(pages[tailPage])
    {
      var i, end := base, base + excess;
      ghost var rest, d := live, 0;
      assert live == live.Drop(0);
      while i < end
        invariant i == base + d && d <= excess && rest == live.Drop(d)
        invariant Consistent(pages, pageRefs, rest, tailPage)
        invariant |pages| == |old(pages)| && pages[tailPage] == old(pages[tailPage])
      {
        var page := PageAt(i);
        DropDrop(live, d);
        ReleaseOne(page, rest);
        i := i + 1;
        rest, d := rest.Drop(1), d + 1;
      }
    }

    /** Takes the oldest of `rest`, a line of `page`, off the counts. */
    method ReleaseOne(page: int, ghost rest: Live)
      requires Consistent(pages, pageRefs, rest, tailPage) && tailPage < |pages|
      requires |rest.lines| > 0 && page == rest.owners[0]
      modifies `pages, `pageRefs
      ensures Consistent(pages, pageRefs, rest.Drop(1), tailPage)
      ensures |pages| == |old(pages)| && pages[tailPage] == old(pages[tailPage])
    {
      DropConsistent(pages, pageRefs, rest, tailPage);
      pageRefs := pageRefs[page := pageRefs[page] - 1];
      if pageRefs[page] == 0 && page != tailPage {
        pages := pages[page := ""];
      }
    }

    // ----- the operations

    /** Indexes every complete line of `chunk`; a trailing fragment is carried over. */
    method Append(chunk: string)
      requires Valid()
      modifies `pages, `pageRefs, `tailPage, `pageOf, `startAt, `endAt, `base, `used, `baseSeq,
               `lineStart, `scanFrom, `live, pageOf, startAt, endAt
      ensures Valid() && SameArrays()
      ensures View() == L.Append(old(View()), chunk, maxLines)
      ensures chunk != "" ==> HasRoom(pages[tailPage], lineStart, pageSize)
    {
      if chunk == "" {
        return;
      }
      ghost var s := View().pending + chunk;
      AppendIs(View(), chunk, maxLines);
      hide L.Append, L.KeepLast, L.Complete, L.Fragment, L.TrimAll, Consistent, TailOwned, HasRoom;
      Ingest(chunk, s);
      Evict(L.Fragment(s));
    }

    /** Receives a chunk and indexes its lines, sealing a full page, but evicts nothing. */
    method Ingest(chunk: string, ghost s: string)
      requires Valid() && s == View().pending + chunk
      modifies `pages, `pageRefs, `tailPage, `pageOf, `startAt, `endAt, `base, `used,
               `lineStart, `scanFrom, `live, pageOf, startAt, endAt
      ensures Valid() && SameArrays()
      ensures Reading(live.lines, pages[tailPage][lineStart..])
              == Reading(old(live.lines) + L.TrimAll(L.Complete(s)), L.Fragment(s))
      ensures HasRoom(pages[tailPage], lineStart, pageSize)
    {
      hide L.Complete, L.Fragment, L.TrimAll, Consistent, TailOwned, HasRoom;
      Receive(chunk, s);
      Seal();
    }

    /** Puts the chunk on the tail page and indexes its lines. */
    method Receive(chunk: string, ghost s: string)
      requires Valid() && s == View().pending + chunk
      modifies `pages, `pageRefs, `pageOf, `startAt, `endAt, `base, `used, `lineStart, `scanFrom, `live,
               pageOf, startAt, endAt
      ensures Valid() && SameArrays()
      ensures Reading(live.lines, pages[tailPage][lineStart..])
              == Reading(old(live.lines) + L.TrimAll(L.Complete(s)), L.Fragment(s))
    {
      ReceiveConsistent(pages, pageRefs, live, tailPage, chunk);
      ReceivedTail(pages[tailPage], chunk, lineStart);
      pages := pages[tailPage := pages[tailPage] + chunk];
      ScanLines();
    }

    /** Indexes every complete line of the tail page past `scanFrom`. */
    method ScanLines()
      requires Layout() && Consistent(pages, pageRefs, live, tailPage) && TailOwned(live.owners, tailPage, lineStart)
      requires tailPage < |pages| && lineStart <= scanFrom <= |pages[tailPage]|
      requires NoNewline(pages[tailPage], lineStart, scanFrom)
      modifies `pageRefs, `pageOf, `startAt, `endAt, `base, `used, `live, `lineStart, `scanFrom,
               pageOf, startAt, endAt
      ensures Layout() && Consistent(pages, pageRefs, live, tailPage) && TailOwned(live.owners, tailPage, lineStart)
      ensures TailScanned(pages[tailPage], lineStart, scanFrom) && SameArrays()
      ensures Reading(live.lines, pages[tailPage][lineStart..]) == old(ReadOn(live.lines, pages[tailPage], lineStart))
    {
      ScanFrom(scanFrom);
      ReadAll(live.lines, pages[tailPage], lineStart);
      scanFrom := |pages[tailPage]|;
    }

    method ScanFrom(start: nat)
      requires Layout() && Consistent(pages, pageRefs, live, tailPage) && TailOwned(live.owners, tailPage, lineStart)
      requires tailPage < |pages| && lineStart <= start <= |pages[tailPage]|
      requires NoNewline(pages[tailPage], lineStart, start)
      modifies `pageRefs, `pageOf, `startAt, `endAt, `base, `used, `live, `lineStart, pageOf, startAt, endAt
      ensures Layout() && Consistent(pages, pageRefs, live, tailPage) && TailOwned(live.owners, tailPage, lineStart)
      ensures SameArrays()
      ensures lineStart <= |pages[tailPage]| && NoNewline(pages[tailPage], lineStart, |pages[tailPage]|)
      ensures ReadOn(live.lines, pages[tailPage], lineStart) == old(ReadOn(live.lines, pages[tailPage], lineStart))
    {
      hide Consistent, TailOwned, ReadOn, IndexOf, LogBuffer.Layout;
      var text := pages[tailPage];
      ghost var total := ReadOn(live.lines, text, lineStart);
      var from := start;
      while true
        invariant lineStart <= from <= |text| && NoNewline(text, lineStart, from)
        invariant Layout() && Consistent(pages, pageRefs, live, tailPage) && TailOwned(live.owners, tailPage, lineStart)
        invariant SameArrays()
        invariant ReadOn(live.lines, text, lineStart) == total
        decreases |text| - from
      {
        var nl := IndexOf(text, L.LF, from);
        if nl < 0 {
          break;
        }
        ReadNext(live.lines, text, lineStart, nl);
        TakeLine(nl, nl + 1);
        from := nl + 1;
      }
    }

    /** Indexes the unfinished line as ending at `end`; the next one begins at `next`. */
    method TakeLine(end: nat, next: nat)
      requires Layout() && Consistent(pages, pageRefs, live, tailPage)
      requires tailPage < |pages| && lineStart <= end <= |pages[tailPage]|
      modifies `pageRefs, `pageOf, `startAt, `endAt, `base, `used, `live, `lineStart, pageOf, startAt, endAt
      ensures Layout() && Consistent(pages, pageRefs, live, tailPage) && TailOwned(live.owners, tailPage, lineStart)
      ensures SameArrays() && lineStart == next
      ensures live.lines == old(live.lines) + [L.TrimCR(pages[tailPage][old(lineStart)..end])]
    {
      TailOwnedSnoc(live.owners, tailPage, next);
      PushLine(tailPage, lineStart, end);
      lineStart := next;
    }

    /** Starts a new page when the tail page is full and ends on a line boundary. */
    method Seal()
      requires pageSize >= 1
      requires Consistent(pages, pageRefs, live, tailPage) && TailOwned(live.owners, tailPage, lineStart)
      requires tailPage < |pages| && TailScanned(pages[tailPage], lineStart, scanFrom)
      modifies `pages, `pageRefs, `tailPage, `lineStart, `scanFrom
      ensures Consistent(pages, pageRefs, live, tailPage) && TailOwned(live.owners, tailPage, lineStart)
      ensures tailPage < |pages| && TailScanned(pages[tailPage], lineStart, scanFrom)
      ensures pages[tailPage][lineStart..] == old(pages[tailPage][lineStart..])
      ensures HasRoom(pages[tailPage], lineStart, pageSize)
      ensures if old(HasRoom(pages[tailPage], lineStart, pageSize)) then
                pages == old(pages) && tailPage == old(tailPage)
              else
                pages == old(pages) + [""] && tailPage == |old(pages)|
    {
      if |pages[tailPage]| >= pageSize && lineStart == |pages[tailPage]| {
        SealConsistent(pages, pageRefs, live, tailPage);
        tailPage := NewPage("");
        lineStart := 0;
        scanFrom := 0;
      }
    }

    /** Commits a trailing line that never got its newline. */
    method FlushPartial()
      requires Valid()
      modifies `pages, `pageRefs, `tailPage, `pageOf, `startAt, `endAt, `base, `used, `baseSeq,
               `lineStart, `scanFrom, `live, pageOf, startAt, endAt
      ensures Valid() && SameArrays()
      ensures View() == L.Flush(old(View()), maxLines)
    {
      if lineStart < |pages[tailPage]| {
        CommitTail();
        Evict("");
      }
    }

    /** Indexes the unfinished line as it stands, but evicts nothing. */
    method CommitTail()
      requires Valid() && lineStart < |pages[tailPage]|
      modifies `pageRefs, `pageOf, `startAt, `endAt, `base, `used, `live, `lineStart, pageOf, startAt, endAt
      ensures Valid() && SameArrays()
      ensures Reading(live.lines, View().pending) == Reading(old(live.lines) + [L.TrimCR(old(View().pending))], "")
    {
      FlushedTail(pages[tailPage], lineStart);
      TakeLine(|pages[tailPage]|, |pages[tailPage]|);
    }

    /** Adds older lines to the front, under the numbers below `FirstSeq()`; blank ones are skipped. */
    method Prepend(chunk: string) returns (count: nat)
      requires Valid()
      modifies `pages, `pageRefs, `pageOf, `startAt, `endAt, `base, `used, `baseSeq, `live, pageOf, startAt, endAt
      ensures Valid() && SameArrays()
      ensures View() == L.Prepend(old(View()), chunk) && count == |L.OlderLines(chunk)|
      ensures pages == if chunk == "" then old(pages) else old(pages) + [chunk]
    {
      if chunk == "" {
        NothingOlder(View());
        return 0;
      }
      var extents := FindExtents(chunk);
      count := |extents|;
      if count == 0 {
        PrependBlank(chunk);
      } else {
        PrependLines(chunk, extents);
      }
    }

    /** A chunk of blank lines adds none, but its page stays. */
    method PrependBlank(chunk: string)
      requires Valid() && NonEmpty(Split(chunk, L.LF)) == []
      modifies `pages, `pageRefs
      ensures Valid() && View() == L.Prepend(old(View()), chunk) && pages == old(pages) + [chunk]
    {
      BlankChunk(chunk);
      BlankConsistent(pages, pageRefs, live, tailPage, chunk);
      NothingOlderThan(View(), chunk);
      var _ := NewPage(chunk);
    }

    method PrependLines(chunk: string, extents: seq<(nat, nat)>)
      requires Valid() && InRange(chunk, extents) && |extents| > 0
      modifies `pages, `pageRefs, `pageOf, `startAt, `endAt, `base, `used, `baseSeq, `live, pageOf, startAt, endAt
      ensures Valid() && SameArrays() && pages == old(pages) + [chunk]
      ensures var older := L.TrimAll(Texts(chunk, extents));
              View() == L.View(older + old(live.lines), old(baseSeq) - |older|, old(View().pending))
    {
      ConsistentRows(pages, pageRefs, live, tailPage);
      hide Consistent, TailOwned, Older;
      ghost var all := PlanPrepend(pages, pageRefs, live, tailPage, lineStart, chunk, extents);
      InsertFront(chunk, extents, all);
      baseSeq := baseSeq - |extents|;
    }

    /** Puts the chunk in a page of its own and its lines in front; `all` is the index this makes. */
    method InsertFront(chunk: string, extents: seq<(nat, nat)>, ghost all: Live)
      requires Layout() && InRange(chunk, extents) && |pages| == |pageRefs| && tailPage < |pages|
      requires all == Older(chunk, extents, |pages|).Then(live)
      modifies `pages, `pageRefs, `pageOf, `startAt, `endAt, `base, `used, `live, pageOf, startAt, endAt
      ensures Layout() && SameArrays() && live == all
      ensures pages == old(pages) + [chunk] && pageRefs == old(pageRefs) + [|extents|]
      ensures tailPage < |pages| && pages[tailPage] == old(pages[tailPage])
    {
      var page := AddPage(chunk, |extents|);
      ReserveFront(|extents|);
      FillFront(page, chunk, extents);
    }

    method AddPage(chunk: string, count: nat) returns (page: nat)
      requires |pages| == |pageRefs|
      modifies `pages, `pageRefs
      ensures page == |old(pages)| && pages == old(pages) + [chunk] && pageRefs == old(pageRefs) + [count]
    {
      page := NewPage(chunk);
      pageRefs := pageRefs[page := pageRefs[page] + count];
    }

    /** Stores the triples of a chunk's lines right before `base` and moves `base` there. */
    method FillFront(page: nat, chunk: string, extents: seq<(nat, nat)>)
      requires Layout() && base >= |extents| && InRange(chunk, extents)
      modifies `base, `live, pageOf, startAt, endAt
      ensures Layout() && live == Older(chunk, extents, page).Then(old(live))
    {
      WriteFront(page, chunk, extents);
      ghost var front := base - |extents|;
      assert pageOf[front..used] == pageOf[front..base] + pageOf[base..used];
      assert startAt[front..used] == startAt[front..base] + startAt[base..used];
      assert endAt[front..used] == endAt[front..base] + endAt[base..used];
      base := base - |extents|;
      live := Older(chunk, extents, page).Then(live);
    }

    method WriteFront(page: nat, chunk: string, extents: seq<(nat, nat)>)
      requires Layout() && base >= |extents| && InRange(chunk, extents)
      modifies pageOf, startAt, endAt
      ensures Layout()
      ensures pageOf[base - |extents|..base] == Repeat(page, |extents|)
      ensures startAt[base - |extents|..base] == Starts(extents)
      ensures endAt[base - |extents|..base] == Ends(chunk, extents)
    {
      var front := base - |extents|;
      var i := 0;
      while i < |extents|
        invariant 0 <= i <= |extents|
        invariant Layout()
        invariant pageOf[front..front + i] == Repeat(page, i)
        invariant startAt[front..front + i] == Starts(extents)[..i]
        invariant endAt[front..front + i] == Ends(chunk, extents)[..i]
      {
        FrontNext(chunk, extents, page, i);
        PutBefore(pageOf, front, front + i, page, base);
        PutBefore(startAt, front, front + i, extents[i].0, base);
        PutBefore(endAt, front, front + i, EndOf(chunk, extents[i]), base);
        i := i + 1;
      }
    }

    /** The text of one line, without its terminator, or `None` if it is not retained. */
    method LineAt(n: int) returns (line: Option<string>)
      requires Valid()
      ensures line == if View().Retains(n) then Some(View().LineAt(n)) else None
    {
      var i := base + (n - baseSeq);
      if i < base || i >= used {
        return None;
      }
      ghost var k := i - base;
      assert Holds(pages, live.owners[k], live.starts[k], live.ends[k], live.lines[k]);
      assert pageOf[i] == pageOf[base..used][k] && startAt[i] == startAt[base..used][k]
          && endAt[i] == endAt[base..used][k];
      line := Some(pages[pageOf[i]][startAt[i]..endAt[i]]);
    }

    /** Every retained line joined back together, for the download. */
    method AllText() returns (text: string)
      requires Valid()
      ensures text == L.Download(View().lines)
    {
      var lines: seq<string> := [];
      var n := FirstSeq();
      while n < EndSeq()
        invariant baseSeq <= n <= EndSeq() && EndSeq() == View().EndSeq()
        invariant lines == View().lines[..n - baseSeq]
      {
        var line := LineAt(n);
        if line.Some? {
          lines := lines + [line.value];
        }
        n := n + 1;
      }
      assert View().lines[..|View().lines|] == View().lines;
      text := if |lines| == 0 then "" else Join(lines, L.LF) + [L.LF];
    }

    /** Characters of log text currently held. */
    method CharLength() returns (total: nat)
      ensures total == |Concat(pages)|
    {
      total := 0;
      var i := 0;
      while i < |pages|
        invariant 0 <= i <= |pages| && total + |Concat(pages[i..])| == |Concat(pages)|
      {
        assert pages[i..][1..] == pages[i + 1..];
        total := total + |pages[i]|;
        i := i + 1;
      }
    }

    method Clear()
      requires Valid()
      modifies this
      ensures Valid() && gen == old(gen) + 1
      ensures pageOf == old(pageOf) && startAt == old(startAt) && endAt == old(endAt)
      ensures View() == L.EMPTY
    {
      ResetPages();
      ResetWindow();
      gen := gen + 1;
      NothingConsistent();
    }

    method ResetPages()
      modifies `pages, `pageRefs, `tailPage, `lineStart, `scanFrom
      ensures pages == [""] && pageRefs == [0] && tailPage == lineStart == scanFrom == 0
    {
      pages, pageRefs, tailPage := [""], [0], 0;
      lineStart, scanFrom := 0, 0;
    }

    method ResetWindow()
      requires Layout()
      modifies `base, `used, `baseSeq, `live
      ensures Layout() && live == NOTHING && baseSeq == 0
    {
      base, used, baseSeq := 0, 0, 0;
      live := NOTHING;
    }

    method Perform(op: L.Op)
      requires Valid()
      modifies this, pageOf, startAt, endAt
      ensures Valid() && SameArrays()
      ensures View() == L.Step(old(View()), op, maxLines)
    {
      match op
      case AppendOp(chunk) => Append(chunk);
      case FlushOp => FlushPartial();
      case PrependOp(chunk) => var _ := Prepend(chunk);
      case ClearOp => Clear();
    }

    /** Any run of operations leaves what the plain log has after that run. */
    method Replay(ops: seq<L.Op>)
      requires Valid()
      modifies this, pageOf, startAt, endAt
      ensures Valid() && SameArrays()
      ensures View() == L.Run(old(View()), ops, maxLines)
      decreases |ops|
    {
      if |ops| > 0 {
        Replay(ops[..|ops| - 1]);
        Perform(ops[|ops| - 1]);
      }
    }
  }
}
