/**
 The row geometry of the log viewer: uniform rows, some of them with an expanded
 block under them, and the two maps between row indices and pixel offsets.
 Heights and offsets are reals.
 */
module Geometry {
  const OVERSCAN: int := 25

  datatype Expansion = Expansion(index: int, height: real)

  /** In order of their rows, one to a row, none of negative height. */
  predicate Ordered(es: seq<Expansion>)
  {
    && (forall k | 0 <= k < |es| :: es[k].index >= 0 && es[k].height >= 0.0)
    && (forall j, k | 0 <= j < k < |es| :: es[j].index < es[k].index)
  }

  /** The expansions of the rows `from` on, for those sequence numbers that are expanded. */
  function Expansions(expanded: map<int, real>, firstSeq: int, count: nat, from: nat): (es: seq<Expansion>)
    requires from <= count
    decreases count - from
  {
    if from == count then []
    else
      (if firstSeq + from in expanded then [Expansion(from, expanded[firstSeq + from])] else [])
      + Expansions(expanded, firstSeq, count, from + 1)
  }

  /** The expansion is that of an expanded row of the list. */
  predicate Shows(expanded: map<int, real>, firstSeq: int, from: int, count: nat, e: Expansion)
  {
    from <= e.index < count && firstSeq + e.index in expanded && e.height == expanded[firstSeq + e.index]
  }

  /** In order, and exactly those of the expanded rows of the list. */
  lemma {:induction false} ExpansionsOrdered(expanded: map<int, real>, firstSeq: int, count: nat, from: nat)
    requires from <= count && forall q | q in expanded :: expanded[q] >= 0.0
    ensures var es := Expansions(expanded, firstSeq, count, from);
            Ordered(es) && forall e :: e in es <==> Shows(expanded, firstSeq, from, count, e)
    decreases count - from
  {
    if from < count {
      ExpansionsOrdered(expanded, firstSeq, count, from + 1);
      var es, rest := Expansions(expanded, firstSeq, count, from), Expansions(expanded, firstSeq, count, from + 1);
      assert forall k | 0 <= k < |rest| :: rest[k] in rest;
      forall e ensures e in es <==> Shows(expanded, firstSeq, from, count, e) {
        assert e in rest <==> Shows(expanded, firstSeq, from + 1, count, e);
      }
    }
  }

  /** The source filters the entries and sorts them: whatever comes out in order with these elements is this list. */
  lemma {:induction false} SortedIsExpansions(expanded: map<int, real>, firstSeq: int, count: nat, from: nat,
                                              es: seq<Expansion>)
    requires from <= count && Ordered(es) && forall e :: e in es <==> Shows(expanded, firstSeq, from, count, e)
    ensures es == Expansions(expanded, firstSeq, count, from)
    decreases count - from
  {
    assert |es| > 0 ==> es[0] in es;
    if from < count && firstSeq + from in expanded {
      var e := Expansion(from, expanded[firstSeq + from]);
      assert e in es;
      var k :| 0 <= k < |es| && es[k] == e;
      assert k == 0;
      var rest := es[1..];
      RestShows(expanded, firstSeq, count, from, es);
      SortedIsExpansions(expanded, firstSeq, count, from + 1, rest);
      assert es == [e] + rest;
    } else if from < count {
      forall x ensures x in es <==> Shows(expanded, firstSeq, from + 1, count, x) {
        assert x in es <==> Shows(expanded, firstSeq, from, count, x);
      }
      SortedIsExpansions(expanded, firstSeq, count, from + 1, es);
      assert [] + es == es;
    }
  }

  lemma {:induction false} RestShows(expanded: map<int, real>, firstSeq: int, count: nat, from: nat, es: seq<Expansion>)
    requires from < count && Ordered(es) && |es| > 0 && es[0] == Expansion(from, es[0].height)
    requires forall e :: e in es <==> Shows(expanded, firstSeq, from, count, e)
    ensures Ordered(es[1..]) && forall e :: e in es[1..] <==> Shows(expanded, firstSeq, from + 1, count, e)
  {
    var rest := es[1..];
    assert es == [es[0]] + rest;
    assert es[0] in es;
    forall e ensures e in rest <==> Shows(expanded, firstSeq, from + 1, count, e) {
      assert e in es <==> Shows(expanded, firstSeq, from, count, e);
      if e in rest {
        var k :| 0 <= k < |rest| && rest[k] == e;
        assert es[0].index < es[k + 1].index;
      }
    }
  }

  // ----- where a row starts

  /** The height of the expansions above a row, of the first `k`. */
  function Above(es: seq<Expansion>, index: int, k: nat): (h: real)
    requires k <= |es|
  {
    if k == 0 then 0.0
    else Above(es, index, k - 1) + if es[k - 1].index < index then es[k - 1].height else 0.0
  }

  /** The offset of a row: that many rows, and every expansion above it. */
  function Top(es: seq<Expansion>, index: int): (y: real)
  {
    index as real * 22.0 + Above(es, index, |es|)
  }

  lemma {:induction false} AboveMonotone(es: seq<Expansion>, i: int, j: int, k: nat)
    requires Ordered(es) && i <= j && k <= |es|
    ensures Above(es, i, k) <= Above(es, j, k)
  {
    if k > 0 {
      AboveMonotone(es, i, j, k - 1);
    }
  }

  /** Rows start in order, each at least a row's height after the one before. */
  lemma {:induction false} TopIncreases(es: seq<Expansion>, i: int, j: int)
    requires Ordered(es) && i < j
    ensures Top(es, i) + 22.0 <= Top(es, j)
  {
    AboveMonotone(es, i, j, |es|);
  }

  /** Without an expansion in between, rows are a row's height apart. */
  lemma {:induction false} AbovePlain(es: seq<Expansion>, i: int, j: int, k: nat)
    requires k <= |es| && i <= j && forall n | 0 <= n < |es| :: es[n].index < i || es[n].index >= j
    ensures Above(es, i, k) == Above(es, j, k)
  {
    if k > 0 {
      AbovePlain(es, i, j, k - 1);
    }
  }

  /** An expanded row pushes the next one down by its height. */
  lemma {:induction false} AboveExpanded(es: seq<Expansion>, n: nat, k: nat)
    requires Ordered(es) && n < |es| && k <= |es|
    ensures Above(es, es[n].index + 1, k) == Above(es, es[n].index, k) + if n < k then es[n].height else 0.0
  {
    if k > 0 {
      AboveExpanded(es, n, k - 1);
    }
  }

  lemma {:induction false} AboveRest(es: seq<Expansion>, index: int, k: nat, m: nat)
    requires Ordered(es) && k <= m <= |es| && (k < |es| ==> es[k].index >= index)
    ensures Above(es, index, m) == Above(es, index, k)
    decreases m - k
  {
    if k < m {
      AboveRest(es, index, k, m - 1);
    }
  }

  method TopOf(es: seq<Expansion>, index: int) returns (y: real)
    requires Ordered(es)
    ensures y == Top(es, index)
  {
    var extra := 0.0;
    var k := 0;
    while k < |es|
      invariant 0 <= k <= |es| && extra == Above(es, index, k)
    {
      if es[k].index >= index {
        break;
      }
      extra := extra + es[k].height;
      k := k + 1;
    }
    AboveRest(es, index, k, |es|);
    y := index as real * 22.0 + extra;
  }

  // ----- which row is at an offset

  lemma {:induction false} FloorRow(distance: real)
    ensures var f := (distance / 22.0).Floor; f as real * 22.0 <= distance < (f + 1) as real * 22.0
  {
    var f := (distance / 22.0).Floor;
    assert f as real <= distance / 22.0 < f as real + 1.0;
  }

  /** Rows from `index` up to `limit` that have no expansion: the one at an offset among them. */
  lemma {:induction false} PlainRow(es: seq<Expansion>, index: int, limit: int, offset: real, bounded: bool)
    requires Ordered(es) && forall n | 0 <= n < |es| :: es[n].index < index || (bounded && es[n].index >= limit)
    requires index == 0 || Top(es, index) <= offset
    requires index == 0 ==> forall n | 0 <= n < |es| :: es[n].index >= 0
    requires bounded ==> index <= limit && offset < Top(es, limit)
    ensures var r := index + ((offset - Top(es, index)) / 22.0).Floor;
            Top(es, r) <= offset < Top(es, r + 1)
  {
    var f := ((offset - Top(es, index)) / 22.0).Floor;
    FloorRow(offset - Top(es, index));
    var r := index + f;
    if f >= 0 {
      if bounded {
        AbovePlain(es, index, limit, |es|);
        assert (limit - index) as real * 22.0 == Top(es, limit) - Top(es, index);
        assert r + 1 <= limit;
      }
      AbovePlain(es, index, r, |es|);
      AbovePlain(es, index, r + 1, |es|);
    } else {
      AbovePlain(es, r, 0, |es|);
      AbovePlain(es, r + 1, 0, |es|);
    }
  }

  /** Inverse of `TopOf`: the row drawn at an offset, wherever that is. */
  method IndexAt(es: seq<Expansion>, offset: real) returns (r: int)
    requires Ordered(es)
    ensures Top(es, r) <= offset < Top(es, r + 1)
  {
    hide Top;
    var index, top := 0, 0.0;
    TopZero(es);
    var k := 0;
    while k < |es|
      invariant 0 <= k <= |es| && top == Top(es, index) && (index == 0 || top <= offset)
      invariant forall n | 0 <= n < k :: es[n].index < index
      invariant forall n | k <= n < |es| :: es[n].index >= index
    {
      var e := es[k];
      BlockTop(es, k, index);
      var blockTop := top + (e.index - index) as real * 22.0;
      var blockBottom := blockTop + 22.0 + e.height;
      if offset < blockBottom {
        if offset < blockTop {
          PlainRow(es, index, e.index, offset, true);
          return index + ((offset - top) / 22.0).Floor;
        }
        return e.index;
      }
      index := e.index + 1;
      top := blockBottom;
      k := k + 1;
    }
    PlainRow(es, index, index, offset, false);
    return index + ((offset - top) / 22.0).Floor;
  }

  lemma {:induction false} TopZero(es: seq<Expansion>)
    requires Ordered(es)
    ensures Top(es, 0) == 0.0
  {
    AboveRest(es, 0, 0, |es|);
  }

  lemma {:induction false} BlockTop(es: seq<Expansion>, k: nat, index: int)
    requires Ordered(es) && k < |es| && index <= es[k].index
    requires forall n | 0 <= n < k :: es[n].index < index
    ensures Top(es, es[k].index) == Top(es, index) + (es[k].index - index) as real * 22.0
    ensures Top(es, es[k].index + 1) == Top(es, es[k].index) + 22.0 + es[k].height
  {
    AbovePlain(es, index, es[k].index, |es|);
    AboveExpanded(es, k, |es|);
  }

  /** The height of all expansions together. */
  function ExtraHeight(es: seq<Expansion>, k: nat): (h: real)
    requires k <= |es|
  {
    if k == 0 then 0.0 else ExtraHeight(es, k - 1) + es[k - 1].height
  }

  /** `totalHeight`: the rows, and every expansion. */
  method TotalHeight(es: seq<Expansion>, count: nat) returns (h: real)
    requires Ordered(es) && forall k | 0 <= k < |es| :: es[k].index < count
    ensures h == Top(es, count)
  {
    var extra := 0.0;
    var k := 0;
    while k < |es|
      invariant 0 <= k <= |es| && extra == ExtraHeight(es, k)
    {
      extra := extra + es[k].height;
      k := k + 1;
    }
    ExtraIsAbove(es, count, |es|);
    h := count as real * 22.0 + extra;
  }

  lemma {:induction false} ExtraIsAbove(es: seq<Expansion>, count: nat, k: nat)
    requires k <= |es| && forall n | 0 <= n < |es| :: es[n].index < count
    ensures ExtraHeight(es, k) == Above(es, count, k)
  {
    if k > 0 {
      ExtraIsAbove(es, count, k - 1);
    }
  }

  /** An offset inside the list, below `totalHeight`, is at one of its rows. */
  lemma {:induction false} RowInList(es: seq<Expansion>, count: nat, offset: real, r: int)
    requires Ordered(es) && 0.0 <= offset < Top(es, count) && Top(es, r) <= offset < Top(es, r + 1)
    ensures 0 <= r < count
  {
    hide Top;
    TopZero(es);
    if r + 1 < 0 {
      TopIncreases(es, r + 1, 0);
    }
    if count < r {
      TopIncreases(es, count, r);
    }
  }

  // ----- what is mounted

  /** Where a row and its expansion end. */
  function Bottom(es: seq<Expansion>, index: int): (y: real)
  {
    Top(es, index + 1)
  }

  method FirstVisible(es: seq<Expansion>, scrollTop: real) returns (first: int)
    requires Ordered(es)
    ensures first >= 0
    ensures forall i | i >= 0 && Bottom(es, i) > scrollTop :: first <= i
    ensures scrollTop < Bottom(es, first + 25) && (first > 0 ==> Top(es, first + 25) <= scrollTop)
  {
    hide Top;
    var at := IndexAt(es, scrollTop);
    first := if at - OVERSCAN > 0 then at - OVERSCAN else 0;
    if at < first + 25 {
      TopIncreases(es, at + 1, first + 26);
    }
    forall i | i >= 0 && Bottom(es, i) > scrollTop ensures first <= i {
      if i + 1 < at {
        TopIncreases(es, i + 1, at);
      }
    }
  }

  method LastVisible(es: seq<Expansion>, count: nat, bottom: real) returns (last: int)
    requires Ordered(es)
    ensures last < count
    ensures forall i | i < count && Top(es, i) <= bottom :: i <= last
    ensures Top(es, last - 25) <= bottom && (last < count - 1 ==> bottom < Bottom(es, last - 25))
  {
    hide Top;
    var at := IndexAt(es, bottom);
    last := if count - 1 < at + OVERSCAN then count - 1 else at + OVERSCAN;
    if last - 25 < at {
      TopIncreases(es, last - 25, at);
    }
    forall i | i < count && Top(es, i) <= bottom ensures i <= last {
      if i > at + 1 {
        TopIncreases(es, at + 1, i);
      }
    }
  }

  /** Every row that meets the viewport is between the first and the last one mounted, and 25 others a side at most. */
  method Mounted(es: seq<Expansion>, count: nat, scrollTop: real, viewport: real) returns (first: int, last: int)
    requires Ordered(es)
    ensures forall i | 0 <= i < count && Top(es, i) <= scrollTop + viewport && Bottom(es, i) > scrollTop ::
              first <= i <= last
    ensures 0 <= first && last < count
    ensures scrollTop < Bottom(es, first + 25) && Top(es, last - 25) <= scrollTop + viewport
  {
    hide Top, Bottom;
    first := FirstVisible(es, scrollTop);
    last := LastVisible(es, count, scrollTop + viewport);
  }
}
