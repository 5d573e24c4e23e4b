/**
 The DNS wire codec: names as length-prefixed labels with compression pointers
 (sections 3.1 and 4.1.4 of RFC 1035) and the parsing of a response (sections
 4.1.1 to 4.1.3). Strings are byte sequences, as in Go.
 */
module Dns {
  import opened Text

  type Byte = x: int | 0 <= x < 256

  const DOT: Byte := 46
  const MAX_JUMPS: nat := 64
  const COMPRESSED: nat := 192

  type Label = seq<Byte>

  // ----- reading a name

  datatype Name = Labels(labels: seq<Label>) | Bad

  function Cons(part: Label, name: Name): (r: Name)
  {
    if name.Bad? then Bad else Labels([part] + name.labels)
  }

  function Behind(pos: int, size: nat): (n: nat)
  {
    if pos < size then size - pos else 0
  }

  function Target(msg: seq<Byte>, pos: nat): (t: nat)
    requires pos + 1 < |msg|
  {
    var high: int := msg[pos];
    (high % 64) * 256 + msg[pos + 1]
  }

  /** The labels of the name at `pos`, following pointers, of which at most 64 in all. */
  function NameAt(msg: seq<Byte>, pos: nat, jumps: nat): (r: Name)
    requires jumps <= MAX_JUMPS
    decreases MAX_JUMPS - jumps, Behind(pos, |msg|)
  {
    if pos >= |msg| then Bad
    else if msg[pos] == 0 then Labels([])
    else if msg[pos] >= COMPRESSED then
      if pos + 1 >= |msg| || jumps == MAX_JUMPS then Bad else NameAt(msg, Target(msg, pos), jumps + 1)
    else
      var next := pos + 1 + msg[pos];
      if next > |msg| then Bad else Cons(msg[pos + 1..next], NameAt(msg, next, jumps))
  }

  /** Where the record goes on after the name at `pos`: behind its zero or its first pointer. */
  function ResumeAt(msg: seq<Byte>, pos: nat): (r: nat)
    decreases Behind(pos, |msg|)
  {
    if pos >= |msg| then pos
    else if msg[pos] == 0 then pos + 1
    else if msg[pos] >= COMPRESSED then pos + 2
    else ResumeAt(msg, pos + 1 + msg[pos])
  }

  /** A name that was read ends inside the message, after its start. */
  lemma {:induction false} ResumeInside(msg: seq<Byte>, pos: nat, jumps: nat)
    requires jumps <= MAX_JUMPS && NameAt(msg, pos, jumps).Labels?
    ensures pos < ResumeAt(msg, pos) <= |msg|
    decreases Behind(pos, |msg|)
  {
    if msg[pos] != 0 && msg[pos] < COMPRESSED {
      ResumeInside(msg, pos + 1 + msg[pos], jumps);
    }
  }

  function Prepend(labels: seq<Label>, name: Name): (r: Name)
  {
    if name.Bad? then Bad else Labels(labels + name.labels)
  }

  lemma {:induction false} PrependCons(labels: seq<Label>, part: Label, name: Name)
    ensures Prepend(labels, Cons(part, name)) == Prepend(labels + [part], name)
    ensures Prepend([], name) == name
  {
    if name.Labels? {
      assert labels + ([part] + name.labels) == labels + [part] + name.labels;
      assert [] + name.labels == name.labels;
    }
  }

  datatype Decoded = Decoded(name: seq<Byte>, end: nat) | Broken

  /** What `decodeDNSName` returns, in terms of the labels and the end of the name. */
  function DecodedAt(msg: seq<Byte>, offset: nat): (r: Decoded)
    ensures r.Decoded? ==> offset < r.end <= |msg|
  {
    match NameAt(msg, offset, 0)
    case Bad => Broken
    case Labels(labels) =>
      ResumeInside(msg, offset, 0);
      Decoded(Join(labels, DOT), ResumeAt(msg, offset))
  }

  lemma {:induction false} NameStep(msg: seq<Byte>, pos: nat, jumps: nat)
    requires jumps <= MAX_JUMPS && pos < |msg|
    ensures var r, b := NameAt(msg, pos, jumps), msg[pos];
            if b == 0 then r == Labels([]) && ResumeAt(msg, pos) == pos + 1
            else if b >= COMPRESSED then
              && ResumeAt(msg, pos) == pos + 2
              && (pos + 1 >= |msg| || jumps == MAX_JUMPS ==> r == Bad)
              && (pos + 1 < |msg| && jumps < MAX_JUMPS ==> r == NameAt(msg, Target(msg, pos), jumps + 1))
            else
              && ResumeAt(msg, pos) == ResumeAt(msg, pos + 1 + b)
              && (pos + 1 + b > |msg| ==> r == Bad)
              && (pos + 1 + b <= |msg| ==> r == Cons(msg[pos + 1..pos + 1 + b], NameAt(msg, pos + 1 + b, jumps)))
  {
  }

  lemma {:induction false} NamePast(msg: seq<Byte>, pos: nat, jumps: nat)
    requires jumps <= MAX_JUMPS && pos >= |msg|
    ensures NameAt(msg, pos, jumps) == Bad
  {
  }

  lemma {:induction false} DecodedDef(msg: seq<Byte>, offset: nat)
    ensures match NameAt(msg, offset, 0)
            case Bad => DecodedAt(msg, offset) == Broken
            case Labels(labels) => DecodedAt(msg, offset) == Decoded(Join(labels, DOT), ResumeAt(msg, offset))
  {
  }

  method DecodeName(msg: seq<Byte>, offset: nat) returns (r: Decoded)
    ensures r == DecodedAt(msg, offset)
  {
    hide NameAt, ResumeAt, DecodedAt, Join, Cons, Prepend, Target;
    var labels: seq<Label> := [];
    var cursor: nat, end: int, jumps: nat := offset, -1, 0;
    DecodedDef(msg, offset);
    PrependCons([], [], NameAt(msg, offset, 0));
    while true
      invariant jumps <= MAX_JUMPS && end >= -1
      invariant NameAt(msg, offset, 0) == Prepend(labels, NameAt(msg, cursor, jumps))
      invariant end == -1 ==> ResumeAt(msg, cursor) == ResumeAt(msg, offset)
      invariant end != -1 ==> end == ResumeAt(msg, offset)
      decreases MAX_JUMPS - jumps, Behind(cursor, |msg|)
    {
      if cursor >= |msg| {
        NamePast(msg, cursor, jumps);
        PrependBad(labels);
        return Broken;
      }
      NameStep(msg, cursor, jumps);
      PrependBad(labels);
      var length := msg[cursor];
      if length == 0 {
        cursor := cursor + 1;
        if end == -1 {
          end := cursor;
        }
        PrependEnd(labels);
        return Decoded(Join(labels, DOT), end);
      } else if length >= COMPRESSED {
        if cursor + 1 >= |msg| {
          return Broken;
        }
        if end == -1 {
          end := cursor + 2;
        }
        if jumps + 1 > MAX_JUMPS {
          return Broken;
        }
        jumps := jumps + 1;
        cursor := Target(msg, cursor);
      } else {
        var next := cursor + 1 + length;
        if next > |msg| {
          return Broken;
        }
        PrependCons(labels, msg[cursor + 1..next], NameAt(msg, next, jumps));
        labels := labels + [msg[cursor + 1..next]];
        cursor := next;
      }
    }
  }

  lemma {:induction false} PrependBad(labels: seq<Label>)
    ensures Prepend(labels, Bad) == Bad
  {
  }

  lemma {:induction false} PrependEnd(labels: seq<Label>)
    ensures Prepend(labels, Labels([])) == Labels(labels)
  {
    assert labels + [] == labels;
  }

  // ----- which messages spell which names

  /** Where a pointer leads: its fourteen low bits. */
  function PointerTo(msg: seq<Byte>, pos: nat): (t: nat)
    requires pos + 1 < |msg| && msg[pos] >= 192
  {
    var high: int := msg[pos] - 192;
    256 * high + msg[pos + 1]
  }

  lemma {:induction false} SameTarget(msg: seq<Byte>, pos: nat)
    requires pos + 1 < |msg| && msg[pos] >= 192
    ensures PointerTo(msg, pos) == Target(msg, pos)
  {
  }

  /** The bytes at `pos` spell these labels, with exactly `hops` pointers on the way. */
  ghost predicate Spells(msg: seq<Byte>, pos: nat, labels: seq<Label>, hops: nat)
    decreases hops, |labels|
  {
    pos < |msg| &&
    if msg[pos] == 0 then labels == [] && hops == 0
    else if msg[pos] >= 192 then pos + 1 < |msg| && hops > 0 && Spells(msg, PointerTo(msg, pos), labels, hops - 1)
    else
      && labels != [] && |labels[0]| == msg[pos] && pos + 1 + msg[pos] <= |msg|
      && msg[pos + 1..pos + 1 + msg[pos]] == labels[0]
      && Spells(msg, pos + 1 + msg[pos], labels[1..], hops)
  }

  /** A name is read exactly when it is spelled with few enough pointers, as it is spelled. */
  lemma {:induction false} SpelledIsRead(msg: seq<Byte>, pos: nat, labels: seq<Label>, hops: nat, jumps: nat)
    requires Spells(msg, pos, labels, hops) && jumps + hops <= MAX_JUMPS
    ensures NameAt(msg, pos, jumps) == Labels(labels)
    decreases hops, |labels|
  {
    hide Target;
    NameStep(msg, pos, jumps);
    if msg[pos] != 0 {
      if msg[pos] >= COMPRESSED {
        SameTarget(msg, pos);
        SpelledIsRead(msg, Target(msg, pos), labels, hops - 1, jumps + 1);
      } else {
        SpelledIsRead(msg, pos + 1 + msg[pos], labels[1..], hops, jumps);
        assert labels == [labels[0]] + labels[1..];
      }
    }
  }

  lemma {:induction false} ReadIsSpelled(msg: seq<Byte>, pos: nat, jumps: nat) returns (hops: nat)
    requires jumps <= MAX_JUMPS && NameAt(msg, pos, jumps).Labels?
    ensures jumps + hops <= MAX_JUMPS && Spells(msg, pos, NameAt(msg, pos, jumps).labels, hops)
    decreases MAX_JUMPS - jumps, Behind(pos, |msg|)
  {
    hide Target, NameAt;
    if pos >= |msg| {
      NamePast(msg, pos, jumps);
    }
    NameStep(msg, pos, jumps);
    hops := 0;
    if msg[pos] != 0 {
      if msg[pos] >= COMPRESSED {
        SameTarget(msg, pos);
        hops := ReadIsSpelled(msg, Target(msg, pos), jumps + 1);
        hops := hops + 1;
      } else {
        hops := ReadIsSpelled(msg, pos + 1 + msg[pos], jumps);
        var labels := NameAt(msg, pos, jumps).labels;
        assert labels[1..] == NameAt(msg, pos + 1 + msg[pos], jumps).labels;
      }
    }
  }

  /** A name can be read exactly when it is spelled with at most 64 pointers, and then reads as it is spelled. */
  lemma {:induction false} NameExactly(msg: seq<Byte>, pos: nat)
    ensures DecodedAt(msg, pos).Decoded? <==> exists labels: seq<Label>, hops: nat ::
                                                hops <= 64 && Spells(msg, pos, labels, hops)
    ensures forall labels: seq<Label>, hops: nat | hops <= 64 && Spells(msg, pos, labels, hops) ::
              DecodedAt(msg, pos).Decoded? && DecodedAt(msg, pos).name == Join(labels, 46)
  {
    hide Spells, NameAt, DecodedAt, Join;
    DecodedDef(msg, pos);
    if DecodedAt(msg, pos).Decoded? {
      var hops := ReadIsSpelled(msg, pos, 0);
    }
    forall labels: seq<Label>, hops: nat | hops <= 64 && Spells(msg, pos, labels, hops)
      ensures NameAt(msg, pos, 0) == Labels(labels)
    {
      SpelledIsRead(msg, pos, labels, hops, 0);
    }
  }

  // ----- writing a name

  predicate LabelOk(part: Label)
  {
    1 <= |part| <= 63
  }

  predicate LabelsOk(labels: seq<Label>)
  {
    forall k | 0 <= k < |labels| :: LabelOk(labels[k])
  }

  /** Length-prefixed labels, without the final zero. */
  function WriteLabels(labels: seq<Label>): (r: seq<Byte>)
    requires LabelsOk(labels)
  {
    if labels == [] then [] else [|labels[0]|] + labels[0] + WriteLabels(labels[1..])
  }

  /** The non-empty pieces between dots. */
  function LabelsOf(name: seq<Byte>): (r: seq<Label>)
  {
    NonEmpty(Split(name, DOT))
  }

  function TrimDots(name: seq<Byte>): (r: seq<Byte>)
  {
    if |name| > 0 && name[0] == DOT then TrimDots(name[1..])
    else if |name| > 0 && name[|name| - 1] == DOT then TrimDots(name[..|name| - 1])
    else name
  }

  datatype Encoded = Encoded(bytes: seq<Byte>) | TooLong

  function EncodedName(name: seq<Byte>): (r: Encoded)
  {
    var labels := LabelsOf(name);
    if forall k | 0 <= k < |labels| :: |labels[k]| <= 63 then
      NonEmptyPieces(Split(name, DOT));
      Encoded(WriteLabels(labels) + [0])
    else TooLong
  }

  lemma {:induction false} LabelsBetween(a: seq<Byte>, b: seq<Byte>)
    ensures LabelsOf(a + [DOT] + b) == LabelsOf(a) + LabelsOf(b)
  {
    SplitBetween(a, DOT, b);
    NonEmptyAppend(Split(a, DOT), Split(b, DOT));
  }

  lemma {:induction false} NoLabels()
    ensures LabelsOf([]) == []
  {
    SplitNone([], DOT);
    var one: seq<Label> := [[]];
    assert one[1..] == [];
    assert NonEmpty(one) == [];
  }

  /** Leading and trailing dots carry no labels. */
  lemma {:induction false} LabelsTrimmed(name: seq<Byte>)
    ensures LabelsOf(TrimDots(name)) == LabelsOf(name)
  {
    hide LabelsOf;
    NoLabels();
    if |name| > 0 && name[0] == DOT {
      LabelsTrimmed(name[1..]);
      LabelsBetween([], name[1..]);
      assert name == [] + [DOT] + name[1..];
    } else if |name| > 0 && name[|name| - 1] == DOT {
      var head := name[..|name| - 1];
      LabelsTrimmed(head);
      LabelsBetween(head, []);
      assert name == head + [DOT] + [];
    }
  }

  lemma {:induction false} WriteSnoc(labels: seq<Label>, part: Label)
    requires LabelsOk(labels) && LabelOk(part)
    ensures LabelsOk(labels + [part])
    ensures WriteLabels(labels + [part]) == WriteLabels(labels) + ([|part|] + part)
  {
    if labels == [] {
      assert ([] + [part])[1..] == [];
    } else {
      assert (labels + [part])[1..] == labels[1..] + [part];
      WriteSnoc(labels[1..], part);
      CatAssoc([|labels[0]|] + labels[0], WriteLabels(labels[1..]), [|part|] + part);
    }
  }

  method EncodeName(name: seq<Byte>) returns (r: Encoded)
    ensures r == EncodedName(name)
  {
    var parts := Split(TrimDots(name), DOT);
    LabelsTrimmed(name);
    assert NonEmpty(parts) == LabelsOf(name);
    hide LabelsOf, Split, TrimDots, WriteLabels;
    var out: seq<Byte> := [];
    ghost var written: seq<Label> := [];
    var i := 0;
    assert parts[0..] == parts;
    WriteNone();
    while i < |parts|
      invariant 0 <= i <= |parts| && LabelsOk(written) && out == WriteLabels(written)
      invariant LabelsOf(name) == written + NonEmpty(parts[i..])
    {
      assert parts[i..][1..] == parts[i + 1..];
      if parts[i] != [] {
        if |parts[i]| > 63 {
          assert LabelsOf(name)[|written|] == parts[i];
          return TooLong;
        }
        WriteSnoc(written, parts[i]);
        CatAssoc(written, [parts[i]], NonEmpty(parts[i + 1..]));
        written := written + [parts[i]];
        out := out + ([|parts[i]|] + parts[i]);
      }
      i := i + 1;
    }
    assert LabelsOf(name) == written;
    r := Encoded(out + [0]);
  }

  lemma {:induction false} WriteNone()
    ensures WriteLabels([]) == []
  {
  }

  /** `bytes` stand in the message at `pos`. */
  predicate Holds(msg: seq<Byte>, pos: nat, bytes: seq<Byte>)
  {
    pos + |bytes| <= |msg| && msg[pos..pos + |bytes|] == bytes
  }

  lemma {:induction false} HoldsParts(msg: seq<Byte>, pos: nat, a: seq<Byte>, b: seq<Byte>)
    requires Holds(msg, pos, a + b)
    ensures Holds(msg, pos, a) && Holds(msg, pos + |a|, b)
  {
    var all := msg[pos..pos + |a + b|];
    assert msg[pos..pos + |a|] == all[..|a|];
    assert msg[pos + |a|..pos + |a| + |b|] == all[|a|..];
  }

  lemma {:induction false} HoldsByte(msg: seq<Byte>, pos: nat, b: Byte)
    requires Holds(msg, pos, [b])
    ensures pos < |msg| && msg[pos] == b
  {
    assert msg[pos..pos + 1][0] == b;
  }

  /** Labels written in front of a place that spells a name spell the longer name. */
  lemma {:induction false} LabelsThenSpells(msg: seq<Byte>, pos: nat, front: seq<Label>, labels: seq<Label>, hops: nat)
    requires LabelsOk(front) && Holds(msg, pos, WriteLabels(front))
    requires Spells(msg, pos + |WriteLabels(front)|, labels, hops)
    ensures Spells(msg, pos, front + labels, hops)
    ensures ResumeAt(msg, pos) == ResumeAt(msg, pos + |WriteLabels(front)|)
    decreases |front|
  {
    hide Target, Holds, Spells, ResumeAt;
    if front == [] {
      assert front + labels == labels;
    } else {
      var first, rest := front[0], front[1..];
      assert LabelOk(first);
      HoldsParts(msg, pos, [|first|] + first, WriteLabels(rest));
      HoldsParts(msg, pos, [|first|], first);
      HoldsByte(msg, pos, |first|);
      LabelsThenSpells(msg, pos + 1 + |first|, rest, labels, hops);
      assert (front + labels)[0] == first && (front + labels)[1..] == rest + labels;
      OneLabel(msg, pos, front + labels, hops);
    }
  }

  lemma {:induction false} OneLabel(msg: seq<Byte>, pos: nat, labels: seq<Label>, hops: nat)
    requires labels != [] && LabelOk(labels[0]) && pos < |msg| && msg[pos] == |labels[0]|
    requires Holds(msg, pos + 1, labels[0]) && Spells(msg, pos + 1 + |labels[0]|, labels[1..], hops)
    ensures Spells(msg, pos, labels, hops) && ResumeAt(msg, pos) == ResumeAt(msg, pos + 1 + |labels[0]|)
  {
  }

  /** A plain name spells its labels wherever it stands. */
  lemma {:induction false} PlainSpells(msg: seq<Byte>, pos: nat, labels: seq<Label>)
    requires LabelsOk(labels) && Holds(msg, pos, WriteLabels(labels) + [0])
    ensures Spells(msg, pos, labels, 0) && ResumeAt(msg, pos) == pos + |WriteLabels(labels)| + 1
  {
    var end := pos + |WriteLabels(labels)|;
    HoldsParts(msg, pos, WriteLabels(labels), [0]);
    HoldsByte(msg, end, 0);
    assert Spells(msg, end, [], 0) && ResumeAt(msg, end) == end + 1;
    hide Holds, Spells, ResumeAt, WriteLabels;
    LabelsThenSpells(msg, pos, labels, [], 0);
    assert labels + [] == labels;
  }

  /** The two bytes of a pointer. */
  function WritePointer(to: nat): (r: seq<Byte>)
    requires to < 0x4000
  {
    [192 + to / 256, to % 256]
  }

  lemma {:induction false} PointerBytes(msg: seq<Byte>, pos: nat, to: nat)
    requires to < 0x4000 && Holds(msg, pos, WritePointer(to))
    ensures pos + 1 < |msg| && msg[pos] >= 192 && PointerTo(msg, pos) == to
  {
    var two := msg[pos..pos + 2];
    assert msg[pos] == two[0] && msg[pos + 1] == two[1];
  }

  /** Labels and then a pointer spell the labels and what the pointer's target spells. */
  lemma {:induction false} CompressedSpells(msg: seq<Byte>, pos: nat, front: seq<Label>, to: nat, labels: seq<Label>,
                                            hops: nat)
    requires LabelsOk(front) && to < 0x4000 && Holds(msg, pos, WriteLabels(front) + WritePointer(to))
    requires Spells(msg, to, labels, hops)
    ensures Spells(msg, pos, front + labels, hops + 1) && ResumeAt(msg, pos) == pos + |WriteLabels(front)| + 2
  {
    var end := pos + |WriteLabels(front)|;
    HoldsParts(msg, pos, WriteLabels(front), WritePointer(to));
    PointerBytes(msg, end, to);
    hide Target, Holds, WriteLabels;
    assert Spells(msg, end, labels, hops + 1) && ResumeAt(msg, end) == end + 2;
    hide Spells, ResumeAt;
    LabelsThenSpells(msg, pos, front, labels, hops + 1);
  }

  /** Decoding inverts encoding: at any position, directly ... */
  lemma {:induction false} DecodeInvertsEncode(msg: seq<Byte>, pos: nat, name: seq<Byte>)
    requires EncodedName(name).Encoded? && Holds(msg, pos, EncodedName(name).bytes)
    ensures DecodedAt(msg, pos) == Decoded(Join(LabelsOf(name), DOT), pos + |EncodedName(name).bytes|)
  {
    NonEmptyPieces(Split(name, DOT));
    hide NameAt, ResumeAt, Join, Holds, Spells;
    PlainSpells(msg, pos, LabelsOf(name));
    SpelledIsRead(msg, pos, LabelsOf(name), 0, 0);
  }

  /** ... and through a pointer, or labels followed by one. */
  lemma {:induction false} DecodeThroughPointer(msg: seq<Byte>, pos: nat, front: seq<Label>, to: nat, name: seq<Byte>)
    requires EncodedName(name).Encoded? && Holds(msg, to, EncodedName(name).bytes) && to < 0x4000
    requires LabelsOk(front) && Holds(msg, pos, WriteLabels(front) + WritePointer(to))
    ensures DecodedAt(msg, pos) == Decoded(Join(front + LabelsOf(name), DOT), pos + |WriteLabels(front)| + 2)
  {
    NonEmptyPieces(Split(name, DOT));
    hide NameAt, ResumeAt, Join, Holds, Spells, WritePointer;
    PlainSpells(msg, to, LabelsOf(name));
    CompressedSpells(msg, pos, front, to, LabelsOf(name), 0);
    SpelledIsRead(msg, pos, front + LabelsOf(name), 1, 0);
  }

  /** A name without leading, trailing or doubled dots comes back as it was. */
  lemma {:induction false} ProperName(name: seq<Byte>)
    requires forall k | 0 <= k < |Split(name, DOT)| :: Split(name, DOT)[k] != []
    ensures Join(LabelsOf(name), DOT) == name
  {
    NonEmptyAll(Split(name, DOT));
    JoinSplit(name, DOT);
  }

  /** A name is refused exactly when some piece between its dots has more than 63 bytes. */
  lemma {:induction false} RefusedExactly(name: seq<Byte>)
    ensures EncodedName(name).TooLong? <==> exists part :: part in Split(name, 46) && |part| > 63
  {
    hide Split;
    NonEmptySame(Split(name, 46));
  }

  lemma {:induction false} NonEmptySame(parts: seq<Label>)
    ensures forall part | part != [] :: part in NonEmpty(parts) <==> part in parts
  {
    if parts != [] {
      NonEmptySame(parts[1..]);
      assert parts == [parts[0]] + parts[1..];
    }
  }
}
