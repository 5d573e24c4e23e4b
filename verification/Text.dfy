/**
 Sequence helpers shared by the models: the search, split and join operations of
 the JavaScript and Go string libraries, over any element type, and the laws that
 relate them.
 */
module Text {

  /** `indexOf(c, from)`: the first position of `c` at or after `from`, or -1. */
  function IndexOf<T(==)>(s: seq<T>, c: T, from: nat): (r: int)
    ensures -1 <= r < |s|
    ensures r >= 0 ==> from <= r && s[r] == c && forall k | from <= k < r :: s[k] != c
    ensures r < 0 ==> forall k | from <= k < |s| :: s[k] != c
    decreases |s| - from
  {
    if from >= |s| then -1
    else if s[from] == c then from
    else IndexOf(s, c, from + 1)
  }

  /** `lastIndexOf(c)`: the last position of `c`, or -1. */
  function LastIndexOf<T(==)>(s: seq<T>, c: T): (r: int)
    ensures -1 <= r < |s|
    ensures r >= 0 ==> s[r] == c
    ensures forall k | r < k < |s| :: s[k] != c
  {
    if s == [] then -1
    else if s[|s| - 1] == c then |s| - 1
    else LastIndexOf(s[..|s| - 1], c)
  }

  /** The pieces between separators; there is always at least one piece. */
  function Split<T(==)>(s: seq<T>, sep: T): (parts: seq<seq<T>>)
    ensures |parts| >= 1
    decreases |s|
  {
    var k := IndexOf(s, sep, 0);
    if k < 0 then [s] else [s[..k]] + Split(s[k + 1..], sep)
  }

  /** The pieces with one separator between each two. */
  function Join<T>(parts: seq<seq<T>>, sep: T): (s: seq<T>)
  {
    if |parts| == 0 then []
    else if |parts| == 1 then parts[0]
    else parts[0] + [sep] + Join(parts[1..], sep)
  }

  function Concat<T>(parts: seq<seq<T>>): (s: seq<T>)
  {
    if parts == [] then [] else parts[0] + Concat(parts[1..])
  }

  lemma {:induction false} SplitAtFirst<T>(a: seq<T>, sep: T, b: seq<T>)
    requires sep !in a
    ensures Split(a + [sep] + b, sep) == [a] + Split(b, sep)
  {
    var s := a + [sep] + b;
    assert s[|a|] == sep;
    assert forall k | 0 <= k < |a| :: s[k] == a[k];
    assert IndexOf(s, sep, 0) == |a|;
    assert s[..|a|] == a && s[|a| + 1..] == b;
  }

  /** The first separator cuts a sequence in two. */
  lemma {:induction false} Cut<T>(s: seq<T>, sep: T) returns (found: bool, head: seq<T>, rest: seq<T>)
    ensures !found ==> sep !in s && Split(s, sep) == [s]
    ensures found ==> sep !in head && s == head + [sep] + rest && Split(s, sep) == [head] + Split(rest, sep)
    ensures found ==> |rest| < |s|
  {
    var k := IndexOf(s, sep, 0);
    found, head, rest := k >= 0, s, [];
    if found {
      head, rest := s[..k], s[k + 1..];
    }
  }

  lemma {:induction false} CatAssoc<T>(a: seq<T>, b: seq<T>, c: seq<T>)
    ensures (a + b) + c == a + (b + c)
  {
  }

  lemma {:induction false} SplitBetween<T>(a: seq<T>, sep: T, b: seq<T>)
    ensures Split(a + [sep] + b, sep) == Split(a, sep) + Split(b, sep)
    decreases |a|
  {
    hide Split, IndexOf;
    var found, head, rest := Cut(a, sep);
    if !found {
      SplitAtFirst(a, sep, b);
    } else {
      var more := rest + [sep] + b;
      SplitBetween(rest, sep, b);
      SplitAtFirst(head, sep, more);
      CatAssoc(head + [sep], rest, [sep]);
      CatAssoc(head + [sep], rest + [sep], b);
      CatAssoc([head], Split(rest, sep), Split(b, sep));
    }
  }

  /** No piece holds the separator. */
  lemma {:induction false} SplitFree<T>(s: seq<T>, sep: T)
    ensures forall p | p in Split(s, sep) :: sep !in p
    decreases |s|
  {
    var k := IndexOf(s, sep, 0);
    if k >= 0 {
      SplitFree(s[k + 1..], sep);
    }
  }

  lemma {:induction false} SplitNone<T>(a: seq<T>, sep: T)
    requires sep !in a
    ensures Split(a, sep) == [a]
  {
  }

  /** Splitting undoes joining when no piece holds the separator. */
  lemma {:induction false} SplitJoin<T>(parts: seq<seq<T>>, sep: T)
    requires |parts| >= 1
    requires forall p | p in parts :: sep !in p
    ensures Split(Join(parts, sep), sep) == parts
  {
    hide Split, IndexOf;
    assert parts[0] in parts;
    if |parts| == 1 {
      assert parts == [parts[0]];
      SplitNone(parts[0], sep);
    } else {
      SplitJoin(parts[1..], sep);
      SplitAtFirst(parts[0], sep, Join(parts[1..], sep));
      assert parts == [parts[0]] + parts[1..];
    }
  }

  lemma {:induction false} JoinCons<T>(first: seq<T>, rest: seq<seq<T>>, sep: T)
    requires |rest| >= 1
    ensures Join([first] + rest, sep) == first + [sep] + Join(rest, sep)
  {
    assert ([first] + rest)[1..] == rest;
  }

  lemma {:induction false} JoinSnoc<T>(parts: seq<seq<T>>, part: seq<T>, sep: T)
    ensures Join(parts + [part], sep) == if |parts| == 0 then part else Join(parts, sep) + [sep] + part
  {
    if |parts| == 1 {
      assert (parts + [part])[1..] == [part];
    } else if |parts| > 1 {
      JoinSnoc(parts[1..], part, sep);
      assert (parts + [part])[1..] == parts[1..] + [part];
      var head, mid := parts[0] + [sep], Join(parts[1..], sep);
      CatAssoc(head, mid, [sep]);
      CatAssoc(head, mid + [sep], part);
    }
  }

  /** Joining undoes splitting, always. */
  lemma {:induction false} JoinSplit<T>(s: seq<T>, sep: T)
    ensures Join(Split(s, sep), sep) == s
    decreases |s|
  {
    hide Split, IndexOf, Join;
    var found, head, rest := Cut(s, sep);
    if found {
      JoinSplit(rest, sep);
      JoinCons(head, Split(rest, sep), sep);
    } else {
      JoinOne(s, sep);
    }
  }

  lemma {:induction false} JoinOne<T>(s: seq<T>, sep: T)
    ensures Join([s], sep) == s && Join<T>([], sep) == []
  {
  }

  /** Two lists of pieces laid end to end: the last and the first fuse. */
  function Fuse<T>(pa: seq<seq<T>>, pb: seq<seq<T>>): (parts: seq<seq<T>>)
    requires |pa| >= 1 && |pb| >= 1
  {
    pa[..|pa| - 1] + [pa[|pa| - 1] + pb[0]] + pb[1..]
  }

  lemma {:induction false} FuseCons<T>(first: seq<T>, pa: seq<seq<T>>, pb: seq<seq<T>>)
    requires |pa| >= 1 && |pb| >= 1
    ensures Fuse([first] + pa, pb) == [first] + Fuse(pa, pb)
  {
    assert ([first] + pa)[..|pa|] == [first] + pa[..|pa| - 1];
  }

  lemma {:induction false} FuseOne<T>(a: seq<T>, head: seq<T>, tail: seq<seq<T>>)
    ensures Fuse([a], [head] + tail) == [a + head] + tail
  {
    assert [a][..0] == [];
    assert ([head] + tail)[1..] == tail;
  }

  lemma {:induction false} SplitAppendAt<T>(a: seq<T>, head: seq<T>, sep: T, rest: seq<T>)
    requires sep !in a && sep !in head
    ensures Split(a + (head + [sep] + rest), sep) == Fuse([a], Split(head + [sep] + rest, sep))
  {
    hide Split, Fuse;
    SplitAtFirst(head, sep, rest);
    assert sep !in a + head;
    SplitAtFirst(a + head, sep, rest);
    CatAssoc(a, head, [sep]);
    CatAssoc(a, head + [sep], rest);
    FuseOne(a, head, Split(rest, sep));
  }

  lemma {:induction false} SplitAppendNone<T>(a: seq<T>, b: seq<T>, sep: T)
    requires sep !in a
    ensures Split(a + b, sep) == Fuse([a], Split(b, sep))
  {
    var j := IndexOf(b, sep, 0);
    if j < 0 {
      assert sep !in b;
      SplitNone(b, sep);
      assert sep !in a + b;
      SplitNone(a + b, sep);
      assert [b] == [b] + [];
      FuseOne(a, b, []);
      assert [a + b] == [a + b] + [];
    } else {
      var head, rest := b[..j], b[j + 1..];
      assert b == head + [sep] + rest;
      assert sep !in head;
      SplitAppendAt(a, head, sep, rest);
    }
  }

  /** Splitting a concatenation fuses the pieces at the seam; all others stand. */
  lemma {:induction false} SplitAppend<T>(a: seq<T>, b: seq<T>, sep: T)
    ensures Split(a + b, sep) == Fuse(Split(a, sep), Split(b, sep))
    decreases |a|
  {
    hide Split, IndexOf, Fuse;
    var found, head, rest := Cut(a, sep);
    if !found {
      SplitAppendNone(a, b, sep);
    } else {
      SplitAppend(rest, b, sep);
      SplitAtFirst(head, sep, rest + b);
      CatAssoc(head + [sep], rest, b);
      FuseCons(head, Split(rest, sep), Split(b, sep));
    }
  }

  /** The pieces that are not empty: what successive `strtok` calls return. */
  function NonEmpty<T>(parts: seq<seq<T>>): (r: seq<seq<T>>)
  {
    if |parts| == 0 then [] else (if |parts[0]| == 0 then [] else [parts[0]]) + NonEmpty(parts[1..])
  }

  lemma {:induction false} NonEmptyPieces<T>(parts: seq<seq<T>>)
    ensures forall k | 0 <= k < |NonEmpty(parts)| :: |NonEmpty(parts)[k]| > 0 && NonEmpty(parts)[k] in parts
  {
    if |parts| > 0 {
      NonEmptyPieces(parts[1..]);
    }
  }

  lemma {:induction false} NonEmptyAppend<T>(a: seq<seq<T>>, b: seq<seq<T>>)
    ensures NonEmpty(a + b) == NonEmpty(a) + NonEmpty(b)
  {
    if |a| == 0 {
      assert a + b == b;
    } else {
      assert (a + b)[1..] == a[1..] + b;
      NonEmptyAppend(a[1..], b);
    }
  }

  lemma {:induction false} NonEmptyAll<T>(parts: seq<seq<T>>)
    requires forall k | 0 <= k < |parts| :: |parts[k]| > 0
    ensures NonEmpty(parts) == parts
  {
    if |parts| > 0 {
      NonEmptyAll(parts[1..]);
    }
  }

  lemma {:induction false} ConcatAppend<T>(a: seq<seq<T>>, b: seq<seq<T>>)
    ensures Concat(a + b) == Concat(a) + Concat(b)
  {
    if a == [] {
      assert a + b == b;
      assert Concat(a) + Concat(b) == Concat(b);
    } else {
      var head, rest := a[0], a[1..];
      ConcatAppend(rest, b);
      assert (a + b)[1..] == rest + b;
      CatAssoc(head, Concat(rest), Concat(b));
    }
  }
}
