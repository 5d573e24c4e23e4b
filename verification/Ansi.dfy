/**
 ANSI escape sequences in log text: where a sequence ends, what a colour sequence
 does to the style, and the split of a line into runs of one style with every
 sequence removed. Text is a sequence of UTF-16 code units.
 */
module Ansi {
  import opened Wrappers
  import opened Text

  const ESC: char := '\U{001B}'
  const CSI: char := '\U{009B}'
  const BEL: char := '\U{0007}'

  predicate IsEscape(c: char)
  {
    c == ESC || c == CSI
  }

  // ----- scanning one sequence

  /** Where a sequence ends, and its parameters if it is an SGR one. */
  datatype Escape = Escape(end: nat, sgr: Option<string>)

  /** A string sequence from `i` on: up to BEL, or ESC and a backslash. */
  function StringEnd(text: string, i: nat): (end: nat)
    requires i <= |text|
    ensures i <= end <= |text|
    decreases |text| - i
  {
    if i == |text| then i
    else if text[i] == BEL then i + 1
    else if text[i] == ESC && i + 1 < |text| && text[i + 1] == '\\' then i + 2
    else StringEnd(text, i + 1)
  }

  /** Intermediate characters and then a final one; `c` is the last one read. */
  function IntermediateEnd(text: string, c: char, i: nat): (end: nat)
    requires i <= |text|
    ensures i <= end <= |text|
    decreases |text| - i
  {
    if ' ' <= c <= '/' && i < |text| then IntermediateEnd(text, text[i], i + 1) else i
  }

  predicate IsPrivate(params: string)
  {
    exists k | 0 <= k < |params| :: '<' <= params[k] <= '?'
  }

  /** A control sequence whose parameters start at `from`, from `i` on. */
  function ControlEnd(text: string, from: nat, i: nat): (e: Escape)
    requires from <= i <= |text|
    ensures i <= e.end <= |text|
    decreases |text| - i
  {
    if i == |text| then Escape(i, None)
    else if '@' <= text[i] <= '~' then
      Escape(i + 1, if text[i] == 'm' && !IsPrivate(text[from..i]) then Some(text[from..i]) else None)
    else if text[i] < ' ' || text[i] > '?' then Escape(i, None)
    else ControlEnd(text, from, i + 1)
  }

  /** The sequence that starts at `start`; it always has some length. */
  function Scan(text: string, start: nat): (e: Escape)
    requires start < |text| && IsEscape(text[start])
    ensures start < e.end <= |text|
  {
    var i := start + 1;
    if text[start] == CSI then ControlEnd(text, i, i)
    else if i == |text| then Escape(i, None)
    else if text[i] == '[' then ControlEnd(text, i + 1, i + 1)
    else if text[i] in {']', 'P', 'X', '^', '_'} then Escape(StringEnd(text, i + 1), None)
    else Escape(IntermediateEnd(text, text[i], i + 1), None)
  }

  method ScanControl(text: string, from: nat) returns (e: Escape)
    requires from <= |text|
    ensures e == ControlEnd(text, from, from)
  {
    var i := from;
    while i < |text|
      invariant from <= i <= |text| && ControlEnd(text, from, from) == ControlEnd(text, from, i)
    {
      if '@' <= text[i] <= '~' {
        var params := text[from..i];
        return Escape(i + 1, if text[i] == 'm' && !IsPrivate(params) then Some(params) else None);
      }
      if text[i] < ' ' || text[i] > '?' {
        return Escape(i, None);
      }
      i := i + 1;
    }
    e := Escape(i, None);
  }

  method ScanEscape(text: string, start: nat) returns (e: Escape)
    requires start < |text| && IsEscape(text[start])
    ensures e == Scan(text, start)
  {
    var i := start + 1;
    if text[start] == CSI {
      e := ScanControl(text, i);
      return;
    }
    if i == |text| {
      return Escape(i, None);
    }
    var kind := text[i];
    i := i + 1;
    if kind == '[' {
      e := ScanControl(text, i);
    } else if kind in {']', 'P', 'X', '^', '_'} {
      while i < |text|
        invariant start + 2 <= i <= |text| && StringEnd(text, start + 2) == StringEnd(text, i)
      {
        if text[i] == BEL {
          return Escape(i + 1, None);
        }
        if text[i] == ESC && i + 1 < |text| && text[i + 1] == '\\' {
          return Escape(i + 2, None);
        }
        i := i + 1;
      }
      e := Escape(i, None);
    } else {
      var c := kind;
      while ' ' <= c <= '/' && i < |text|
        invariant start + 2 <= i <= |text| && IntermediateEnd(text, kind, start + 2) == IntermediateEnd(text, c, i)
        decreases |text| - i
      {
        c := text[i];
        i := i + 1;
      }
      e := Escape(i, None);
    }
  }

  // ----- styles

  /** An index into the palette, or a 24-bit colour. */
  datatype Color = Palette(index: real) | Rgb(r: nat, g: nat, b: nat)

  datatype Style = Style(
    fg: Option<Color>, bg: Option<Color>, bold: bool, dim: bool, italic: bool, underline: bool, inverse: bool,
    hidden: bool, strike: bool)

  const PLAIN: Style := Style(None, None, false, false, false, false, false, false, false)

  /** The style a run is shown in: none if it is the surrounding one. */
  function Shown(style: Style): (r: Option<Style>)
  {
    if style == PLAIN then None else Some(style)
  }

  // ----- numbers in parameters

  function DigitsFrom(s: string, acc: real): (r: (real, string))
    decreases |s|
  {
    if s != "" && '0' <= s[0] <= '9' then DigitsFrom(s[1..], acc * 10.0 + (s[0] - '0') as int as real) else (acc, s)
  }

  function FractionFrom(s: string, unit: real, acc: real): (r: (real, string))
    decreases |s|
  {
    if s != "" && '0' <= s[0] <= '9' then FractionFrom(s[1..], unit / 10.0, acc + unit * (s[0] - '0') as int as real)
    else (acc, s)
  }

  function TrimSpaces(s: string): (r: string)
  {
    if |s| > 0 && s[0] == ' ' then TrimSpaces(s[1..])
    else if |s| > 0 && s[|s| - 1] == ' ' then TrimSpaces(s[..|s| - 1])
    else s
  }

  /** `Number` of a parameter, which has no letters in it: a decimal number, or nothing. */
  function ToNumber(s: string): (r: Option<real>)
  {
    var t := TrimSpaces(s);
    if t == "" then Some(0.0)
    else
      var negative := t[0] == '-';
      var body := if t[0] == '+' || t[0] == '-' then t[1..] else t;
      var whole := DigitsFrom(body, 0.0);
      var hasDot := |whole.1| > 0 && whole.1[0] == '.';
      var value := if hasDot then FractionFrom(whole.1[1..], 0.1, whole.0) else whole;
      var digits := |body| - |value.1| - (if hasDot then 1 else 0);
      if value.1 != "" || digits <= 0 then None
      else Some(if negative then -value.0 else value.0)
  }

  function AsByte(s: string): (r: Option<nat>)
  {
    var n := ToNumber(s);
    if n.Some? && n.value.Floor as real == n.value && 0 <= n.value.Floor <= 255 then Some(n.value.Floor) else None
  }

  function ByteAt(list: seq<string>, k: nat): (r: Option<nat>)
  {
    if k < |list| then AsByte(list[k]) else None
  }

  function RgbAt(list: seq<string>, k: nat): (r: Option<Color>)
  {
    var red, green, blue := ByteAt(list, k), ByteAt(list, k + 1), ByteAt(list, k + 2);
    if red.Some? && green.Some? && blue.Some? then Some(Rgb(red.value, green.value, blue.value)) else None
  }

  function PaletteAt(list: seq<string>, k: nat): (r: Option<Color>)
  {
    var index := ByteAt(list, k);
    if index.Some? then Some(Palette(index.value as real)) else None
  }

  datatype Extended = Extended(color: Option<Color>, consumed: nat)

  /** The colour after a 38, 48 or 58, and how many of the parameters behind it belong to it. */
  function ExtendedColor(sub: seq<string>, rest: seq<string>): (r: Extended)
  {
    if |sub| > 1 then
      if sub[1] == "5" then Extended(PaletteAt(sub, 2), 0)
      else if sub[1] == "2" then Extended(RgbAt(sub, if |sub| >= 6 then 3 else 2), 0)
      else Extended(None, 0)
    else if rest == [] then Extended(None, 0)
    else if rest[0] == "5" then Extended(PaletteAt(rest, 1), 2)
    else if rest[0] == "2" then Extended(RgbAt(rest, 1), 4)
    else Extended(None, 1)
  }

  /** A parameter that stands on its own. */
  function SimpleCode(style: Style, code: real, sub: seq<string>): (r: Style)
  {
    if code == 0.0 then PLAIN
    else if code == 1.0 then style.(bold := true)
    else if code == 2.0 then style.(dim := true)
    else if code == 3.0 then style.(italic := true)
    else if code == 4.0 then style.(underline := !(|sub| > 1 && sub[1] == "0"))
    else if code == 7.0 then style.(inverse := true)
    else if code == 8.0 then style.(hidden := true)
    else if code == 9.0 then style.(strike := true)
    else if code == 21.0 then style.(underline := true)
    else if code == 22.0 then style.(bold := false, dim := false)
    else if code == 23.0 then style.(italic := false)
    else if code == 24.0 then style.(underline := false)
    else if code == 27.0 then style.(inverse := false)
    else if code == 28.0 then style.(hidden := false)
    else if code == 29.0 then style.(strike := false)
    else if code == 39.0 then style.(fg := None)
    else if code == 49.0 then style.(bg := None)
    else if 30.0 <= code <= 37.0 then style.(fg := Some(Palette(code - 30.0)))
    else if 40.0 <= code <= 47.0 then style.(bg := Some(Palette(code - 40.0)))
    else if 90.0 <= code <= 97.0 then style.(fg := Some(Palette(code - 90.0 + 8.0)))
    else if 100.0 <= code <= 107.0 then style.(bg := Some(Palette(code - 100.0 + 8.0)))
    else style
  }

  /** The parameters from `i` on, applied to a style. */
  function Applied(style: Style, list: seq<string>, i: nat): (r: Style)
    decreases |list| - i
  {
    if i >= |list| then style
    else
      var sub := Split(list[i], ':');
      var code := if sub[0] == "" then Some(0.0) else ToNumber(sub[0]);
      if code.None? then Applied(style, list, i + 1)
      else if code.value == 38.0 || code.value == 48.0 || code.value == 58.0 then
        var x := ExtendedColor(sub, list[i + 1..]);
        var next := if x.color.None? || code.value == 58.0 then style
                    else if code.value == 38.0 then style.(fg := x.color)
                    else style.(bg := x.color);
        Applied(next, list, i + 1 + x.consumed)
      else Applied(SimpleCode(style, code.value, sub), list, i + 1)
  }

  function ApplySgr(style: Style, params: string): (r: Style)
  {
    Applied(style, if params == "" then ["0"] else Split(params, ';'), 0)
  }

  function CodeOf(param: string): (r: Option<real>)
  {
    var sub := Split(param, ':');
    if sub[0] == "" then Some(0.0) else ToNumber(sub[0])
  }

  predicate IsExtended(code: Option<real>)
  {
    code == Some(38.0) || code == Some(48.0) || code == Some(58.0)
  }

  /** How many parameters the one at `i` takes up with those it consumes. */
  function Taken(list: seq<string>, i: nat): (n: nat)
    requires i < |list|
    ensures n >= 1
  {
    if IsExtended(CodeOf(list[i])) then 1 + ExtendedColor(Split(list[i], ':'), list[i + 1..]).consumed else 1
  }

  /** From `i` on every extended colour has all its parameters in the list. */
  predicate Complete(list: seq<string>, i: nat)
    decreases |list| - i
  {
    i >= |list| ||
    (&& i + Taken(list, i) <= |list|
     && (IsExtended(CodeOf(list[i])) ==> |Split(list[i], ':')| > 1 || i + 1 < |list|)
     && Complete(list, i + Taken(list, i)))
  }

  lemma {:induction false} AppliedShift(style: Style, a: seq<string>, b: seq<string>, i: nat)
    ensures Applied(style, a + b, |a| + i) == Applied(style, b, i)
    decreases |b| - i
  {
    hide Split, ToNumber, ExtendedColor, SimpleCode;
    if i < |b| {
      assert (a + b)[|a| + i] == b[i] && (a + b)[|a| + i + 1..] == b[i + 1..];
      var sub := Split(b[i], ':');
      var code := if sub[0] == "" then Some(0.0) else ToNumber(sub[0]);
      if code.None? {
        AppliedShift(style, a, b, i + 1);
      } else if code.value == 38.0 || code.value == 48.0 || code.value == 58.0 {
        var x := ExtendedColor(sub, b[i + 1..]);
        var next := if x.color.None? || code.value == 58.0 then style
                    else if code.value == 38.0 then style.(fg := x.color)
                    else style.(bg := x.color);
        AppliedShift(next, a, b, i + 1 + x.consumed);
      } else {
        AppliedShift(SimpleCode(style, code.value, sub), a, b, i + 1);
      }
    }
  }

  lemma {:induction false} ByteAtAppend(a: seq<string>, b: seq<string>, k: nat)
    requires k < |a|
    ensures ByteAt(a + b, k) == ByteAt(a, k)
  {
    hide AsByte;
    assert (a + b)[k] == a[k];
  }

  /** A colour that is complete is not changed by what follows. */
  lemma {:induction false} ExtendedAppend(sub: seq<string>, rest: seq<string>, more: seq<string>)
    requires |sub| > 1 || (rest != [] && ExtendedColor(sub, rest).consumed <= |rest|)
    ensures ExtendedColor(sub, rest + more) == ExtendedColor(sub, rest)
  {
    hide ByteAt;
    if |sub| <= 1 {
      assert (rest + more)[0] == rest[0];
      if rest[0] == "5" {
        ByteAtAppend(rest, more, 1);
      } else if rest[0] == "2" {
        ByteAtAppend(rest, more, 1);
        ByteAtAppend(rest, more, 2);
        ByteAtAppend(rest, more, 3);
      }
    }
  }

  lemma {:induction false} AppliedAppend(style: Style, a: seq<string>, b: seq<string>, i: nat)
    requires i <= |a| && Complete(a, i)
    ensures Applied(style, a + b, i) == Applied(Applied(style, a, i), b, 0)
    decreases |a| - i
  {
    hide Split, ToNumber, ExtendedColor, SimpleCode;
    if i == |a| {
      AppliedShift(style, a, b, 0);
    } else {
      assert (a + b)[i] == a[i] && (a + b)[i + 1..] == a[i + 1..] + b;
      var sub, code := Split(a[i], ':'), CodeOf(a[i]);
      if IsExtended(code) {
        ExtendedAppend(sub, a[i + 1..], b);
        var x := ExtendedColor(sub, a[i + 1..]);
        var next := if x.color.None? || code.value == 58.0 then style
                    else if code.value == 38.0 then style.(fg := x.color)
                    else style.(bg := x.color);
        AppliedAppend(next, a, b, i + 1 + x.consumed);
      } else {
        AppliedAppend(if code.None? then style else SimpleCode(style, code.value, sub), a, b, i + 1);
      }
    }
  }

  /**
   One sequence with two parameter lists does what the two do one after the other, unless
   the first ends in the middle of an extended colour.
   */
  lemma {:induction false} SgrJoin(style: Style, a: string, b: string)
    requires a != "" && b != "" && Complete(Split(a, ';'), 0)
    ensures ApplySgr(style, a + [';'] + b) == ApplySgr(ApplySgr(style, a), b)
  {
    hide Split, Applied, Complete;
    SplitBetween(a, ';', b);
    AppliedAppend(style, Split(a, ';'), Split(b, ';'), 0);
  }

  method ApplyParams(style: Style, params: string) returns (next: Style)
    ensures next == ApplySgr(style, params)
  {
    hide Split, ToNumber, ExtendedColor, SimpleCode;
    var list := if params == "" then ["0"] else Split(params, ';');
    next := style;
    var i := 0;
    while i < |list|
      invariant 0 <= i && Applied(next, list, i) == Applied(style, list, 0)
      decreases |list| - i
    {
      var sub := Split(list[i], ':');
      var code := if sub[0] == "" then Some(0.0) else ToNumber(sub[0]);
      if code.Some? {
        if code.value == 38.0 || code.value == 48.0 || code.value == 58.0 {
          var x := ExtendedColor(sub, list[i + 1..]);
          i := i + x.consumed;
          if x.color.Some? && code.value != 58.0 {
            next := if code.value == 38.0 then next.(fg := x.color) else next.(bg := x.color);
          }
        } else {
          next := SimpleCode(next, code.value, sub);
        }
      }
      i := i + 1;
    }
  }

  // ----- what a line shows

  /** A character that is shown, with its style. */
  datatype Tag = Tag(c: char, style: Option<Style>)

  /** The style after a sequence. */
  function After(style: Style, e: Escape): (r: Style)
  {
    if e.sgr.Some? then ApplySgr(style, e.sgr.value) else style
  }

  /** The characters from `i` on outside the sequences, each in the style that those before it add up to. */
  function Tagged(text: string, i: nat, style: Style): (r: seq<Tag>)
    requires i <= |text|
    decreases |text| - i
  {
    if i == |text| then []
    else if IsEscape(text[i]) then
      var e := Scan(text, i);
      Tagged(text, e.end, After(style, e))
    else [Tag(text[i], Shown(style))] + Tagged(text, i + 1, style)
  }

  /** A character that is kept, or a whole sequence that is dropped. */
  datatype Piece = Keep(c: char) | Drop(s: string)

  function Pieces(text: string, i: nat): (r: seq<Piece>)
    requires i <= |text|
    decreases |text| - i
  {
    if i == |text| then []
    else if IsEscape(text[i]) then [Drop(text[i..Scan(text, i).end])] + Pieces(text, Scan(text, i).end)
    else [Keep(text[i])] + Pieces(text, i + 1)
  }

  function Whole(ps: seq<Piece>): (s: string)
  {
    if ps == [] then "" else (match ps[0] case Keep(c) => [c] case Drop(s) => s) + Whole(ps[1..])
  }

  function Kept(ps: seq<Piece>): (s: string)
  {
    if ps == [] then "" else (match ps[0] case Keep(c) => [c] case Drop(_) => []) + Kept(ps[1..])
  }

  function Chars(tags: seq<Tag>): (s: string)
  {
    if tags == [] then "" else [tags[0].c] + Chars(tags[1..])
  }

  /** The pieces are the text: nothing is lost but whole sequences, which begin with an escape. */
  lemma {:induction false} PiecesAreText(text: string, i: nat)
    requires i <= |text|
    ensures Whole(Pieces(text, i)) == text[i..]
    ensures forall k | 0 <= k < |Pieces(text, i)| :: match Pieces(text, i)[k]
                                                      case Keep(c) => !IsEscape(c)
                                                      case Drop(s) => s != "" && IsEscape(s[0])
    decreases |text| - i
  {
    hide Scan;
    if i < |text| {
      var end := if IsEscape(text[i]) then Scan(text, i).end else i + 1;
      PiecesAreText(text, end);
      var first := if IsEscape(text[i]) then Drop(text[i..end]) else Keep(text[i]);
      assert Pieces(text, i) == [first] + Pieces(text, end);
      assert ([first] + Pieces(text, end))[1..] == Pieces(text, end);
      assert text[i..] == text[i..end] + text[end..];
      assert text[i..i + 1] == [text[i]];
    }
  }

  /** What is shown is what is kept, whatever the style at the start. */
  lemma {:induction false} ShownIsKept(text: string, i: nat, style: Style)
    requires i <= |text|
    ensures Chars(Tagged(text, i, style)) == Kept(Pieces(text, i))
    decreases |text| - i
  {
    hide Scan, After, Shown;
    if i < |text| {
      if IsEscape(text[i]) {
        var e := Scan(text, i);
        ShownIsKept(text, e.end, After(style, e));
        var ps := Pieces(text, e.end);
        assert ([Drop(text[i..e.end])] + ps)[1..] == ps;
        assert [] + Kept(ps) == Kept(ps);
      } else {
        ShownIsKept(text, i + 1, style);
        var ps, tags := Pieces(text, i + 1), Tagged(text, i + 1, style);
        assert ([Keep(text[i])] + ps)[1..] == ps;
        assert ([Tag(text[i], Shown(style))] + tags)[1..] == tags;
      }
    }
  }

  lemma {:induction false} KeptHasNoEscape(text: string, i: nat)
    requires i <= |text|
    ensures forall k | 0 <= k < |Kept(Pieces(text, i))| :: !IsEscape(Kept(Pieces(text, i))[k])
    decreases |text| - i
  {
    hide Scan;
    if i < |text| {
      var end := if IsEscape(text[i]) then Scan(text, i).end else i + 1;
      KeptHasNoEscape(text, end);
      var first := if IsEscape(text[i]) then Drop(text[i..end]) else Keep(text[i]);
      assert ([first] + Pieces(text, end))[1..] == Pieces(text, end);
      assert Pieces(text, i) == [first] + Pieces(text, end);
    }
  }

  // ----- runs

  datatype Span = Span(text: string, style: Option<Style>)

  function TagAll(s: string, style: Option<Style>): (r: seq<Tag>)
    ensures |r| == |s| && forall k | 0 <= k < |s| :: r[k] == Tag(s[k], style)
  {
    seq(|s|, k requires 0 <= k < |s| => Tag(s[k], style))
  }

  function Flatten(spans: seq<Span>): (r: seq<Tag>)
  {
    if spans == [] then []
    else Flatten(spans[..|spans| - 1]) + TagAll(spans[|spans| - 1].text, spans[|spans| - 1].style)
  }

  /** No run is empty, and neighbours differ in style. */
  predicate Runs(spans: seq<Span>)
  {
    && (forall k | 0 <= k < |spans| :: spans[k].text != "")
    && (forall k | 0 < k < |spans| :: spans[k - 1].style != spans[k].style)
  }

  /** Adds a chunk to the last run if that has the same style. */
  function Push(spans: seq<Span>, chunk: string, style: Option<Style>): (r: seq<Span>)
  {
    if chunk == "" then spans
    else if spans != [] && spans[|spans| - 1].style == style then
      spans[..|spans| - 1] + [Span(spans[|spans| - 1].text + chunk, style)]
    else spans + [Span(chunk, style)]
  }

  lemma {:induction false} PushKeeps(spans: seq<Span>, chunk: string, style: Option<Style>)
    requires Runs(spans)
    ensures Runs(Push(spans, chunk, style))
    ensures Flatten(Push(spans, chunk, style)) == Flatten(spans) + TagAll(chunk, style)
  {
    var r := Push(spans, chunk, style);
    if chunk == "" {
      assert TagAll(chunk, style) == [];
      assert Flatten(spans) + [] == Flatten(spans);
    } else if spans != [] && spans[|spans| - 1].style == style {
      var front, last := spans[..|spans| - 1], spans[|spans| - 1];
      assert r[..|r| - 1] == front;
      assert TagAll(last.text + chunk, style) == TagAll(last.text, style) + TagAll(chunk, style);
      CatAssoc(Flatten(front), TagAll(last.text, style), TagAll(chunk, style));
    } else {
      assert r[..|r| - 1] == spans;
    }
  }

  lemma {:induction false} TaggedStep(text: string, i: nat, style: Style)
    requires i < |text|
    ensures if IsEscape(text[i]) then
              Tagged(text, i, style) == Tagged(text, Scan(text, i).end, After(style, Scan(text, i)))
            else Tagged(text, i, style) == [Tag(text[i], Shown(style))] + Tagged(text, i + 1, style)
  {
  }

  lemma {:induction false} TagSnoc(text: string, from: nat, i: nat, style: Option<Style>, rest: seq<Tag>)
    requires from <= i < |text|
    ensures TagAll(text[from..i], style) + ([Tag(text[i], style)] + rest) == TagAll(text[from..i + 1], style) + rest
  {
    var a, b := TagAll(text[from..i], style) + [Tag(text[i], style)], TagAll(text[from..i + 1], style);
    assert |a| == |b| && forall k | 0 <= k < |a| :: a[k] == b[k];
    assert a == b;
    CatAssoc(TagAll(text[from..i], style), [Tag(text[i], style)], rest);
  }

  predicate HasAnsi(text: string)
  {
    exists k | 0 <= k < |text| :: IsEscape(text[k])
  }

  /** Without sequences everything is shown plain. */
  lemma {:induction false} PlainTagged(text: string, i: nat)
    requires i <= |text| && !HasAnsi(text)
    ensures Tagged(text, i, PLAIN) == TagAll(text[i..], None)
    decreases |text| - i
  {
    hide Scan;
    if i < |text| {
      PlainTagged(text, i + 1);
      var a, b := [Tag(text[i], None)] + TagAll(text[i + 1..], None), TagAll(text[i..], None);
      assert |a| == |b| && forall k | 0 <= k < |a| :: a[k] == b[k];
    }
  }

  /** The runs, in order, are the shown characters in their styles, cut only where the style changes. */
  method ParseAnsi(text: string) returns (spans: seq<Span>)
    ensures Flatten(spans) == Tagged(text, 0, PLAIN)
    ensures Runs(spans) || spans == [Span("", None)]
  {
    hide Tagged, Scan, Push, Flatten, Runs, ApplySgr;
    if !HasAnsi(text) {
      PlainTagged(text, 0);
      assert text[0..] == text;
      OneSpan(text);
      return [Span(text, None)];
    }
    spans := [];
    var style, current := PLAIN, None;
    var runStart, i := 0, 0;
    ghost var all := Tagged(text, 0, PLAIN);
    StartRuns(text, all);
    while i < |text|
      invariant 0 <= runStart <= i <= |text| && Runs(spans) && current == Shown(style)
      invariant Flatten(spans) + (TagAll(text[runStart..i], current) + Tagged(text, i, style)) == all
      decreases |text| - i
    {
      TaggedStep(text, i, style);
      if !IsEscape(text[i]) {
        TagSnoc(text, runStart, i, current, Tagged(text, i + 1, style));
        i := i + 1;
      } else {
        var chunk := text[runStart..i];
        PushKeeps(spans, chunk, current);
        CatAssoc(Flatten(spans), TagAll(chunk, current), Tagged(text, i, style));
        spans := Push(spans, chunk, current);
        var e := ScanEscape(text, i);
        style := After(style, e);
        current := Shown(style);
        i := e.end;
        runStart := i;
        assert TagAll(text[i..i], current) + Tagged(text, i, style) == Tagged(text, i, style);
      }
    }
    EndTagged(text, style);
    var chunk := text[runStart..|text|];
    PushKeeps(spans, chunk, current);
    assert TagAll(chunk, current) + [] == TagAll(chunk, current);
    spans := Push(spans, chunk, current);
    if spans == [] {
      NoSpans();
      spans := [Span("", None)];
    }
  }

  lemma {:induction false} EndTagged(text: string, style: Style)
    ensures Tagged(text, |text|, style) == []
  {
  }

  lemma {:induction false} OneSpan(text: string)
    ensures Flatten([Span(text, None)]) == TagAll(text, None) && (text != "" ==> Runs([Span(text, None)]))
  {
    var one := [Span(text, None)];
    assert one[..0] == [];
    assert [] + TagAll(text, None) == TagAll(text, None);
  }

  lemma {:induction false} StartRuns(text: string, all: seq<Tag>)
    ensures Runs([]) && Flatten([]) + (TagAll(text[0..0], None) + all) == all && Shown(PLAIN) == None
  {
    assert TagAll(text[0..0], None) == [];
  }

  lemma {:induction false} NoSpans()
    ensures Flatten([]) == [] && Flatten([Span("", None)]) == []
  {
    OneSpan("");
  }

  // ----- the text without sequences

  function Texts(spans: seq<Span>): (s: string)
  {
    if spans == [] then "" else Texts(spans[..|spans| - 1]) + spans[|spans| - 1].text
  }

  lemma {:induction false} CharsAppend(a: seq<Tag>, b: seq<Tag>)
    ensures Chars(a + b) == Chars(a) + Chars(b)
  {
    if a == [] {
      assert a + b == b;
    } else {
      assert (a + b)[1..] == a[1..] + b;
      CharsAppend(a[1..], b);
    }
  }

  lemma {:induction false} CharsOfTags(s: string, style: Option<Style>)
    ensures Chars(TagAll(s, style)) == s
  {
    if s != "" {
      CharsOfTags(s[1..], style);
      assert TagAll(s, style)[1..] == TagAll(s[1..], style);
    }
  }

  lemma {:induction false} TextsOfSpans(spans: seq<Span>)
    ensures Texts(spans) == Chars(Flatten(spans))
  {
    if spans != [] {
      var front, last := spans[..|spans| - 1], spans[|spans| - 1];
      TextsOfSpans(front);
      CharsAppend(Flatten(front), TagAll(last.text, last.style));
      CharsOfTags(last.text, last.style);
    }
  }

  /** The text with every sequence removed. */
  function Stripped(text: string): (r: string)
  {
    if HasAnsi(text) then Kept(Pieces(text, 0)) else text
  }

  method StripAnsi(text: string) returns (r: string)
    ensures r == Stripped(text)
  {
    hide Pieces, Kept, Tagged, Flatten, Runs;
    if HasAnsi(text) {
      var spans := ParseAnsi(text);
      r := "";
      var i := 0;
      TextsNone();
      while i < |spans|
        invariant 0 <= i <= |spans| && r == Texts(spans[..i])
      {
        TextsSnoc(spans, i);
        r := r + spans[i].text;
        i := i + 1;
      }
      assert spans[..|spans|] == spans;
      TextsOfSpans(spans);
      ShownIsKept(text, 0, PLAIN);
    } else {
      r := text;
    }
  }

  lemma {:induction false} TextsNone()
    ensures forall spans: seq<Span> :: Texts(spans[..0]) == ""
  {
  }

  lemma {:induction false} TextsSnoc(spans: seq<Span>, i: nat)
    requires i < |spans|
    ensures Texts(spans[..i + 1]) == Texts(spans[..i]) + spans[i].text
  {
    assert spans[..i + 1][..i] == spans[..i];
  }

  /** Stripping leaves no escape, and stripping again changes nothing. */
  lemma {:induction false} StripIsClean(text: string)
    ensures !HasAnsi(Stripped(text)) && Stripped(Stripped(text)) == Stripped(text)
  {
    hide Pieces, Kept;
    KeptHasNoEscape(text, 0);
  }
}
