/**
 The escape sequences of `Ansi` said from the outside: where a sequence ends, by the first
 character that ends it, and what each colour code does, field by field of the style.
 */
module AnsiCodes {
  import opened Wrappers
  import opened Text
  import opened Ansi

  // ----- where a sequence ends

  /** A parameter or an intermediate character of a control sequence. */
  predicate IsInner(c: char)
  {
    0x20 <= c as int <= 0x3f
  }

  /** A control sequence goes on to the first character that is not an inner one, which belongs to it if it is final. */
  ghost predicate ControlAt(text: string, from: nat, stop: nat, e: Escape)
  {
    && from <= stop <= |text| && (forall k | from <= k < stop :: IsInner(text[k]))
    && (stop == |text| ==> e == Escape(stop, None))
    && (stop < |text| ==>
          && !IsInner(text[stop])
          && (!(0x40 <= text[stop] as int <= 0x7e) ==> e == Escape(stop, None))
          && (0x40 <= text[stop] as int <= 0x7e ==>
                && e.end == stop + 1
                && (e.sgr.Some? <==> text[stop] == 'm' && forall k | from <= k < stop :: text[k] as int < 0x3c)
                && (e.sgr.Some? ==> e.sgr.value == text[from..stop])))
  }

  lemma {:induction false} ControlStops(text: string, from: nat, i: nat) returns (stop: nat)
    requires from <= i <= |text| && forall k | from <= k < i :: IsInner(text[k])
    ensures ControlAt(text, from, stop, ControlEnd(text, from, i))
    decreases |text| - i
  {
    if i < |text| && IsInner(text[i]) {
      stop := ControlStops(text, from, i + 1);
    } else {
      stop := i;
      if i < |text| {
        var params := text[from..i];
        assert forall k | from <= k < i :: text[k] == params[k - from];
        assert IsPrivate(params) <==> exists k :: from <= k < i && 0x3c <= text[k] as int by {
          if IsPrivate(params) {
            var k :| 0 <= k < |params| && '<' <= params[k] <= '?';
            assert 0x3c <= text[from + k] as int;
          }
          if k :| from <= k < i && 0x3c <= text[k] as int {
            assert IsInner(text[k]) && '<' <= params[k - from] <= '?';
          }
        }
      }
    }
  }

  /** A string sequence is ended by BEL, or by ESC and a backslash. */
  predicate Ends(text: string, k: nat)
    requires k < |text|
  {
    text[k] as int == 0x07 || (text[k] as int == 0x1b && k + 1 < |text| && text[k + 1] == '\\')
  }

  lemma {:induction false} StringStops(text: string, i: nat) returns (stop: nat)
    requires i <= |text|
    ensures i <= stop <= |text| && (forall k | i <= k < stop :: !Ends(text, k))
    ensures StringEnd(text, i) == if stop == |text| then stop
                                  else if text[stop] as int == 0x07 then stop + 1
                                  else stop + 2
    ensures stop < |text| ==> Ends(text, stop)
    decreases |text| - i
  {
    if i < |text| && !Ends(text, i) {
      stop := StringStops(text, i + 1);
    } else {
      stop := i;
    }
  }

  /** A charset sequence is any number of intermediate characters and one more. */
  lemma {:induction false} CharsetStops(text: string, i: nat) returns (stop: nat)
    requires 0 < i <= |text|
    ensures i - 1 <= stop < |text| || stop == |text|
    ensures forall k | i - 1 <= k < stop :: 0x20 <= text[k] as int <= 0x2f
    ensures stop < |text| ==> !(0x20 <= text[stop] as int <= 0x2f)
    ensures IntermediateEnd(text, text[i - 1], i) == if stop == |text| then stop else stop + 1
    decreases |text| - i
  {
    if 0x20 <= text[i - 1] as int <= 0x2f {
      if i < |text| {
        stop := CharsetStops(text, i + 1);
      } else {
        stop := i;
      }
    } else {
      stop := i - 1;
    }
  }

  /** How the character after ESC sorts sequences; U+009B is ESC and a bracket in one. */
  predicate IsControl(text: string, start: nat)
    requires start < |text|
  {
    text[start] as int == 0x9b || (start + 1 < |text| && text[start + 1] == '[')
  }

  predicate IsString(text: string, start: nat)
    requires start < |text|
  {
    text[start] as int == 0x1b && start + 1 < |text| && text[start + 1] in {']', 'P', 'X', '^', '_'}
  }

  /**
   Every sequence, whole or not: a control sequence, a string, or a charset sequence, ended by
   the first character that ends it or by the end of the text.
   */
  lemma {:induction false} ScanExactly(text: string, start: nat) returns (stop: nat)
    requires start < |text| && IsEscape(text[start])
    ensures text[start] as int == 0x1b || text[start] as int == 0x9b
    ensures var e := Scan(text, start);
            if IsControl(text, start) then
              ControlAt(text, if text[start] as int == 0x9b then start + 1 else start + 2, stop, e)
            else if IsString(text, start) then
              && start + 2 <= stop <= |text| && e.sgr.None? && (forall k | start + 2 <= k < stop :: !Ends(text, k))
              && (stop < |text| ==> Ends(text, stop))
              && e.end == (if stop == |text| then stop else if text[stop] as int == 0x07 then stop + 1 else stop + 2)
            else
              && start < stop <= |text| && e.sgr.None?
              && (forall k | start < k < stop :: 0x20 <= text[k] as int <= 0x2f)
              && (stop < |text| ==> !(0x20 <= text[stop] as int <= 0x2f))
              && e.end == (if stop == |text| then stop else stop + 1)
  {
    if IsControl(text, start) {
      var from := if text[start] as int == 0x9b then start + 1 else start + 2;
      stop := ControlStops(text, from, from);
    } else if IsString(text, start) {
      stop := StringStops(text, start + 2);
    } else if start + 1 == |text| {
      stop := start + 1;
    } else {
      stop := CharsetStops(text, start + 2);
    }
  }

  /** Every other character is shown. */
  lemma {:induction false} EscapeExactly(c: char)
    ensures IsEscape(c) <==> c as int == 0x1b || c as int == 0x9b
  {
  }

  // ----- numbers

  predicate Digits(s: string)
  {
    s != "" && forall k | 0 <= k < |s| :: '0' <= s[k] <= '9'
  }

  /** The number that a row of digits spells. */
  function ValueOf(s: string): (n: nat)
    requires forall k | 0 <= k < |s| :: '0' <= s[k] <= '9'
  {
    if s == "" then 0 else ValueOf(s[..|s| - 1]) * 10 + (s[|s| - 1] as int - '0' as int)
  }

  lemma {:induction false} ReadDigits(s: string, i: nat)
    requires (forall k | 0 <= k < |s| :: '0' <= s[k] <= '9') && i <= |s|
    ensures DigitsFrom(s[i..], ValueOf(s[..i]) as real) == (ValueOf(s) as real, "")
    decreases |s| - i
  {
    if i < |s| {
      var rest := s[i..];
      assert rest[1..] == s[i + 1..] && rest[0] == s[i] && s[..i + 1][..i] == s[..i] && s[..i + 1][i] == s[i];
      ReadDigits(s, i + 1);
      assert ValueOf(s[..i + 1]) == ValueOf(s[..i]) * 10 + (s[i] as int - '0' as int);
      assert (s[i] - '0') as int == s[i] as int - '0' as int;
    } else {
      assert s[..i] == s && s[i..] == "";
    }
  }

  lemma {:induction false} NumberRead(s: string)
    requires Digits(s)
    ensures ToNumber(s) == Some(ValueOf(s) as real)
  {
    assert s[..0] == "" && s[0..] == s;
    ReadDigits(s, 0);
    assert TrimSpaces(s) == s;
  }

  /** A sign in front, or a point and zeros behind, is part of the number. */
  lemma {:induction false} SignRead(s: string)
    requires Digits(s)
    ensures ToNumber("-" + s) == Some(-(ValueOf(s) as real)) && ToNumber("+" + s) == Some(ValueOf(s) as real)
  {
    assert s[..0] == "" && s[0..] == s;
    ReadDigits(s, 0);
    hide ValueOf;
    assert ("-" + s)[1..] == s && ("+" + s)[1..] == s;
    assert TrimSpaces("-" + s) == "-" + s && TrimSpaces("+" + s) == "+" + s;
  }

  lemma {:induction false} ReadDigitsThen(s: string, i: nat, rest: string)
    requires (forall k | 0 <= k < |s| :: '0' <= s[k] <= '9') && i <= |s| && rest != "" && !('0' <= rest[0] <= '9')
    ensures DigitsFrom(s[i..] + rest, ValueOf(s[..i]) as real) == (ValueOf(s) as real, rest)
    decreases |s| - i
  {
    if i < |s| {
      var all := s[i..] + rest;
      assert all[1..] == s[i + 1..] + rest && all[0] == s[i] && s[..i + 1][..i] == s[..i] && s[..i + 1][i] == s[i];
      ReadDigitsThen(s, i + 1, rest);
      assert ValueOf(s[..i + 1]) == ValueOf(s[..i]) * 10 + (s[i] as int - '0' as int);
      assert (s[i] - '0') as int == s[i] as int - '0' as int;
    } else {
      assert s[..i] == s && s[i..] + rest == rest;
    }
  }

  lemma {:induction false} ZerosRead(zeros: string, unit: real, acc: real)
    requires forall k | 0 <= k < |zeros| :: zeros[k] == '0'
    ensures FractionFrom(zeros, unit, acc) == (acc, "")
  {
    if zeros != "" {
      assert unit * ((zeros[0] - '0') as int as real) == 0.0;
      ZerosRead(zeros[1..], unit / 10.0, acc);
    }
  }

  lemma {:induction false} PointRead(s: string, zeros: string)
    requires Digits(s) && forall k | 0 <= k < |zeros| :: zeros[k] == '0'
    ensures ToNumber(s + ("." + zeros)) == Some(ValueOf(s) as real)
  {
    var t := s + ("." + zeros);
    assert s[..0] == "" && s[0..] == s;
    ReadDigitsThen(s, 0, "." + zeros);
    assert ("." + zeros)[1..] == zeros;
    ZerosRead(zeros, 0.1, ValueOf(s) as real);
    hide ValueOf, DigitsFrom, FractionFrom;
    assert t[0] == s[0];
    assert t[|t| - 1] == if zeros == "" then '.' else zeros[|zeros| - 1];
    assert TrimSpaces(t) == t;
  }

  lemma {:induction false} ByteRead(s: string)
    requires Digits(s)
    ensures AsByte(s) == if ValueOf(s) <= 255 then Some(ValueOf(s)) else None
  {
    hide ToNumber, ValueOf;
    NumberRead(s);
    var n := ValueOf(s);
    assert (n as real).Floor == n;
  }

  // ----- what each code does, field by field

  function Switch(before: bool, code: real, on: real, also: real, off: real): (r: bool)
  {
    if code == on || code == also then true else if code == off || code == 0.0 then false else before
  }

  /** Eight colours from `first` on and eight bright ones from `bright` on; `none` takes the colour away. */
  function Colour(before: Option<Color>, code: real, first: real, bright: real, none: real): (r: Option<Color>)
  {
    if first <= code <= first + 7.0 then Some(Palette(code - first))
    else if bright <= code <= bright + 7.0 then Some(Palette(code - bright + 8.0))
    else if code == none || code == 0.0 then None
    else before
  }

  /** Every field after the number of a parameter, by the numbers that concern that field. */
  predicate FieldByField(style: Style, code: real, r: Style)
  {
    && r.bold == Switch(style.bold, code, 1.0, 1.0, 22.0)
    && r.dim == Switch(style.dim, code, 2.0, 2.0, 22.0)
    && r.italic == Switch(style.italic, code, 3.0, 3.0, 23.0)
    && r.underline == Switch(style.underline, code, 4.0, 21.0, 24.0)
    && r.inverse == Switch(style.inverse, code, 7.0, 7.0, 27.0)
    && r.hidden == Switch(style.hidden, code, 8.0, 8.0, 28.0)
    && r.strike == Switch(style.strike, code, 9.0, 9.0, 29.0)
    && r.fg == Colour(style.fg, code, 30.0, 90.0, 39.0)
    && r.bg == Colour(style.bg, code, 40.0, 100.0, 49.0)
  }

  lemma {:induction false} Zero(style: Style, sub: seq<string>)
    ensures FieldByField(style, 0.0, SimpleCode(style, 0.0, sub))
  {
  }

  lemma {:induction false} Bold(style: Style, sub: seq<string>)
    ensures FieldByField(style, 1.0, SimpleCode(style, 1.0, sub))
  {
  }

  lemma {:induction false} Dim(style: Style, sub: seq<string>)
    ensures FieldByField(style, 2.0, SimpleCode(style, 2.0, sub))
  {
  }

  lemma {:induction false} Italic(style: Style, sub: seq<string>)
    ensures FieldByField(style, 3.0, SimpleCode(style, 3.0, sub))
  {
  }

  lemma {:induction false} Underline(style: Style, sub: seq<string>)
    requires |sub| < 2 || sub[1] != "0"
    ensures FieldByField(style, 4.0, SimpleCode(style, 4.0, sub))
  {
  }

  lemma {:induction false} Inverse(style: Style, sub: seq<string>)
    ensures FieldByField(style, 7.0, SimpleCode(style, 7.0, sub))
  {
  }

  lemma {:induction false} Hidden(style: Style, sub: seq<string>)
    ensures FieldByField(style, 8.0, SimpleCode(style, 8.0, sub))
  {
  }

  lemma {:induction false} Strike(style: Style, sub: seq<string>)
    ensures FieldByField(style, 9.0, SimpleCode(style, 9.0, sub))
  {
  }

  lemma {:induction false} DoubleUnderline(style: Style, sub: seq<string>)
    ensures FieldByField(style, 21.0, SimpleCode(style, 21.0, sub))
  {
  }

  lemma {:induction false} NotBold(style: Style, sub: seq<string>)
    ensures FieldByField(style, 22.0, SimpleCode(style, 22.0, sub))
  {
  }

  lemma {:induction false} NotItalic(style: Style, sub: seq<string>)
    ensures FieldByField(style, 23.0, SimpleCode(style, 23.0, sub))
  {
  }

  lemma {:induction false} NotUnderline(style: Style, sub: seq<string>)
    ensures FieldByField(style, 24.0, SimpleCode(style, 24.0, sub))
  {
  }

  lemma {:induction false} NotInverse(style: Style, sub: seq<string>)
    ensures FieldByField(style, 27.0, SimpleCode(style, 27.0, sub))
  {
  }

  lemma {:induction false} NotHidden(style: Style, sub: seq<string>)
    ensures FieldByField(style, 28.0, SimpleCode(style, 28.0, sub))
  {
  }

  lemma {:induction false} NotStrike(style: Style, sub: seq<string>)
    ensures FieldByField(style, 29.0, SimpleCode(style, 29.0, sub))
  {
  }

  lemma {:induction false} NoForeground(style: Style, sub: seq<string>)
    ensures FieldByField(style, 39.0, SimpleCode(style, 39.0, sub))
  {
  }

  lemma {:induction false} NoBackground(style: Style, sub: seq<string>)
    ensures FieldByField(style, 49.0, SimpleCode(style, 49.0, sub))
  {
  }

  lemma {:induction false} ForegroundCodes(style: Style, code: real, sub: seq<string>)
    requires 30.0 <= code <= 37.0
    ensures FieldByField(style, code, SimpleCode(style, code, sub))
  {
  }

  lemma {:induction false} BackgroundCodes(style: Style, code: real, sub: seq<string>)
    requires 40.0 <= code <= 47.0
    ensures FieldByField(style, code, SimpleCode(style, code, sub))
  {
  }

  lemma {:induction false} BrightForegroundCodes(style: Style, code: real, sub: seq<string>)
    requires 90.0 <= code <= 97.0
    ensures FieldByField(style, code, SimpleCode(style, code, sub))
  {
  }

  lemma {:induction false} BrightBackgroundCodes(style: Style, code: real, sub: seq<string>)
    requires 100.0 <= code <= 107.0
    ensures FieldByField(style, code, SimpleCode(style, code, sub))
  {
  }

  /** Numbers without a meaning change nothing. */
  predicate Unused(code: real)
  {
    && code !in {0.0, 1.0, 2.0, 3.0, 4.0, 7.0, 8.0, 9.0, 21.0, 22.0, 23.0, 24.0, 27.0, 28.0, 29.0, 39.0, 49.0}
    && !(30.0 <= code <= 37.0) && !(40.0 <= code <= 47.0) && !(90.0 <= code <= 97.0) && !(100.0 <= code <= 107.0)
  }

  lemma {:induction false} UnusedCodes(style: Style, code: real, sub: seq<string>)
    requires Unused(code)
    ensures SimpleCode(style, code, sub) == style
  {
  }

  lemma {:induction false} UnusedFields(style: Style, code: real)
    requires Unused(code)
    ensures FieldByField(style, code, style)
  {
  }

  /** What the number of a parameter does to every field, whatever the style and the number. */
  lemma {:induction false} CodeByField(style: Style, code: real, sub: seq<string>)
    requires code == 4.0 ==> |sub| < 2 || sub[1] != "0"
    ensures FieldByField(style, code, SimpleCode(style, code, sub))
  {
    hide SimpleCode, FieldByField;
    Zero(style, sub);
    Bold(style, sub);
    Dim(style, sub);
    Italic(style, sub);
    if code == 4.0 {
      Underline(style, sub);
    }
    Inverse(style, sub);
    Hidden(style, sub);
    Strike(style, sub);
    DoubleUnderline(style, sub);
    NotBold(style, sub);
    NotItalic(style, sub);
    NotUnderline(style, sub);
    NotInverse(style, sub);
    NotHidden(style, sub);
    NotStrike(style, sub);
    NoForeground(style, sub);
    NoBackground(style, sub);
    if 30.0 <= code <= 37.0 {
      ForegroundCodes(style, code, sub);
    } else if 40.0 <= code <= 47.0 {
      BackgroundCodes(style, code, sub);
    } else if 90.0 <= code <= 97.0 {
      BrightForegroundCodes(style, code, sub);
    } else if 100.0 <= code <= 107.0 {
      BrightBackgroundCodes(style, code, sub);
    } else if Unused(code) {
      UnusedCodes(style, code, sub);
      UnusedFields(style, code);
    }
  }

  lemma {:induction false} NoPart(s: string)
    requires Digits(s)
    ensures Split(s, ';') == [s] && Split(s, ':') == [s]
  {
    assert forall k | 0 <= k < |s| :: s[k] != ';' && s[k] != ':';
    SplitNone(s, ';');
    SplitNone(s, ':');
  }

  /** A sequence with one number does what its code does. */
  lemma {:induction false} OneCode(style: Style, s: string)
    requires Digits(s) && ValueOf(s) != 38 && ValueOf(s) != 48 && ValueOf(s) != 58
    ensures ApplySgr(style, s) == SimpleCode(style, ValueOf(s) as real, [s])
  {
    hide ToNumber, Split, SimpleCode, ValueOf;
    NoPart(s);
    NumberRead(s);
    var list := [s];
    assert Applied(style, list, 0) == Applied(SimpleCode(style, ValueOf(s) as real, [s]), list, 1);
  }

  /** No number is a reset. */
  lemma {:induction false} Reset(style: Style)
    ensures ApplySgr(style, "") == ApplySgr(style, "0")
    ensures ApplySgr(style, "") == Style(None, None, false, false, false, false, false, false, false)
  {
    assert Digits("0") && ValueOf("0") == 0 by { assert "0"[..0] == ""; }
    hide ToNumber, Split, ValueOf;
    NoPart("0");
    OneCode(style, "0");
  }

  lemma {:induction false} CodeFour(style: Style)
    ensures SimpleCode(style, 4.0, ["4", "0"]) == style.(underline := false)
  {
  }

  /** `4:0` takes the underline away. */
  lemma {:induction false} NoUnderline(style: Style)
    ensures ApplySgr(style, "4:0") == style.(underline := false)
  {
    assert Digits("4") && ValueOf("4") == 4 by { assert "4"[..0] == ""; }
    CodeFour(style);
    hide ToNumber, Split, ValueOf, SimpleCode;
    NumberRead("4");
    SplitNone("4:0", ';');
    SplitAtFirst("4", ':', "0");
    SplitNone("0", ':');
    assert "4:0" == "4" + [':'] + "0" && ["4"] + ["0"] == ["4", "0"];
    var list := ["4:0"];
    assert Applied(style, list, 0) == Applied(SimpleCode(style, 4.0, ["4", "0"]), list, 1);
  }

  // ----- colours of the palette and of 24 bits

  /** `38` and `48` say which of the two colours is set, `58` neither. */
  function Painted(style: Style, code: nat, color: Color): (r: Style)
  {
    if code == 38 then style.(fg := Some(color)) else if code == 48 then style.(bg := Some(color)) else style
  }

  function Code(code: nat): (s: string)
    requires code == 38 || code == 48 || code == 58
  {
    if code == 38 then "38" else if code == 48 then "48" else "58"
  }

  lemma {:induction false} CodeRead(code: nat)
    requires code == 38 || code == 48 || code == 58
    ensures Digits(Code(code)) && ValueOf(Code(code)) == code && ToNumber(Code(code)) == Some(code as real)
  {
    var s := Code(code);
    assert s[..1] == [s[0]] && [s[0]][..0] == "";
    assert ValueOf([s[0]]) == s[0] as int - '0' as int;
    NumberRead(s);
  }

  /** A colour of the palette, in its three parameters. */
  lemma {:induction false} PaletteCode(style: Style, code: nat, index: string, more: seq<string>)
    requires (code == 38 || code == 48 || code == 58) && Digits(index) && ValueOf(index) <= 255
    ensures Applied(style, [Code(code), "5", index] + more, 0)
            == Applied(Painted(style, code, Palette(ValueOf(index) as real)), more, 0)
  {
    hide ToNumber, Split, ValueOf, AsByte;
    CodeRead(code);
    NoPart(Code(code));
    ByteRead(index);
    var list, front := [Code(code), "5", index] + more, [Code(code), "5", index];
    assert list[0] == Code(code) && list[1..] == ["5", index] + more;
    assert list[1..][0] == "5" && list[1..][1] == index;
    assert ExtendedColor([Code(code)], list[1..]) == Extended(Some(Palette(ValueOf(index) as real)), 2);
    AppliedShift(Painted(style, code, Palette(ValueOf(index) as real)), front, more, 0);
  }

  /** A 24-bit colour, in its five parameters. */
  lemma {:induction false} RgbCode(style: Style, code: nat, r: string, g: string, b: string, more: seq<string>)
    requires (code == 38 || code == 48 || code == 58) && Digits(r) && Digits(g) && Digits(b)
    requires ValueOf(r) <= 255 && ValueOf(g) <= 255 && ValueOf(b) <= 255
    ensures Applied(style, [Code(code), "2", r, g, b] + more, 0)
            == Applied(Painted(style, code, Rgb(ValueOf(r), ValueOf(g), ValueOf(b))), more, 0)
  {
    hide ToNumber, Split, ValueOf, AsByte;
    CodeRead(code);
    NoPart(Code(code));
    ByteRead(r);
    ByteRead(g);
    ByteRead(b);
    var color := Rgb(ValueOf(r), ValueOf(g), ValueOf(b));
    var list, front := [Code(code), "2", r, g, b] + more, [Code(code), "2", r, g, b];
    var rest := list[1..];
    assert list[0] == Code(code) && rest == ["2", r, g, b] + more;
    assert rest[0] == "2" && rest[1] == r && rest[2] == g && rest[3] == b;
    assert ExtendedColor([Code(code)], rest) == Extended(Some(color), 4);
    AppliedShift(Painted(style, code, color), front, more, 0);
  }

  /** After another mode than these two, only the mode is skipped; with nothing behind it, nothing is. */
  lemma {:induction false} OtherColour(style: Style, code: nat, mode: string, more: seq<string>)
    requires (code == 38 || code == 48 || code == 58) && mode != "5" && mode != "2"
    ensures Applied(style, [Code(code), mode] + more, 0) == Applied(style, more, 0)
    ensures Applied(style, [Code(code)], 0) == style
  {
    hide ToNumber, Split, ValueOf, AsByte;
    CodeRead(code);
    NoPart(Code(code));
    var list, front := [Code(code), mode] + more, [Code(code), mode];
    assert list[0] == Code(code) && list[1..] == [mode] + more && list[1..][0] == mode;
    assert ExtendedColor([Code(code)], list[1..]) == Extended(None, 1);
    AppliedShift(style, front, more, 0);
    assert [Code(code)][1..] == [];
  }

  /** The forms with colons, in one parameter; the 24-bit one with or without a colour space. */
  lemma {:induction false} ColonCode(code: nat, index: string, r: string, g: string, b: string, space: string)
    requires (code == 38 || code == 48 || code == 58) && Digits(index) && Digits(r) && Digits(g) && Digits(b)
    requires ValueOf(index) <= 255 && ValueOf(r) <= 255 && ValueOf(g) <= 255 && ValueOf(b) <= 255
    ensures var rgb := Extended(Some(Rgb(ValueOf(r), ValueOf(g), ValueOf(b))), 0);
            forall rest ::
              && ExtendedColor([Code(code), "5", index], rest) == Extended(Some(Palette(ValueOf(index) as real)), 0)
              && ExtendedColor([Code(code), "2", r, g, b], rest) == rgb
              && ExtendedColor([Code(code), "2", space, r, g, b], rest) == rgb
  {
    hide ToNumber, ValueOf, AsByte;
    ByteRead(index);
    ByteRead(r);
    ByteRead(g);
    ByteRead(b);
  }

  // ----- a coloured text, part by part

  /** Characters, a colour sequence, another control sequence, or an operating system command. */
  datatype Part = Shows(s: string) | Sgr(params: string) | Control(inner: string, final: char) | Command(body: string)

  predicate PartOk(p: Part)
  {
    match p
    case Shows(s) => forall k | 0 <= k < |s| :: s[k] as int != 0x1b && s[k] as int != 0x9b
    case Sgr(params) => forall k | 0 <= k < |params| :: 0x20 <= params[k] as int < 0x3c
    case Control(inner, final) =>
      && (forall k | 0 <= k < |inner| :: IsInner(inner[k])) && 0x40 <= final as int <= 0x7e && final != 'm'
    case Command(body) => forall k | 0 <= k < |body| :: body[k] as int != 0x07 && body[k] as int != 0x1b
  }

  function PutPart(p: Part): (s: string)
  {
    match p
    case Shows(s) => s
    case Sgr(params) => "\U{001B}[" + (params + "m")
    case Control(inner, final) => "\U{001B}[" + (inner + [final])
    case Command(body) => "\U{001B}]" + (body + "\U{0007}")
  }

  function PutParts(ps: seq<Part>): (s: string)
  {
    if ps == [] then "" else PutPart(ps[0]) + PutParts(ps[1..])
  }

  predicate PartsOk(ps: seq<Part>)
  {
    forall k | 0 <= k < |ps| :: PartOk(ps[k])
  }

  /** What is shown: the characters, each in the style that the colour sequences before it add up to. */
  function TagParts(ps: seq<Part>, style: Style): (tags: seq<Tag>)
    decreases |ps|
  {
    if ps == [] then []
    else
      match ps[0]
      case Shows(s) => TagAll(s, Visible(style)) + TagParts(ps[1..], style)
      case Sgr(params) => TagParts(ps[1..], ApplySgr(style, params))
      case Control(_, _) => TagParts(ps[1..], style)
      case Command(_) => TagParts(ps[1..], style)
  }

  /** The style that a run carries: none where everything is as in the surrounding text. */
  function Visible(style: Style): (r: Option<Style>)
  {
    if style == Style(None, None, false, false, false, false, false, false, false) then None else Some(style)
  }

  lemma {:induction false} ControlHere(text: string, start: nat, inner: string, final: char)
    requires (forall k | 0 <= k < |inner| :: IsInner(inner[k])) && 0x40 <= final as int <= 0x7e
    requires final == 'm' ==> forall k | 0 <= k < |inner| :: inner[k] as int < 0x3c
    requires start + 3 + |inner| <= |text|
    requires text[start..start + 3 + |inner|] == "\U{001B}[" + (inner + [final])
    ensures IsEscape(text[start])
    ensures Scan(text, start) == Escape(start + 3 + |inner|, if final == 'm' then Some(inner) else None)
  {
    var piece := "\U{001B}[" + (inner + [final]);
    var from, end := start + 2, start + 2 + |inner|;
    assert text[start] == piece[0] && text[start + 1] == piece[1];
    assert text[end] == piece[|piece| - 1] == final;
    assert forall k | from <= k < end :: text[k] == piece[k - start] == inner[k - from];
    assert text[from..end] == inner;
    var stop := ScanExactly(text, start);
    assert stop == end;
  }

  lemma {:induction false} CommandHere(text: string, start: nat, body: string)
    requires forall k | 0 <= k < |body| :: body[k] as int != 0x07 && body[k] as int != 0x1b
    requires start + 3 + |body| <= |text|
    requires text[start..start + 3 + |body|] == "\U{001B}]" + (body + "\U{0007}")
    ensures IsEscape(text[start]) && Scan(text, start) == Escape(start + 3 + |body|, None)
  {
    var piece := "\U{001B}]" + (body + "\U{0007}");
    var from, end := start + 2, start + 2 + |body|;
    assert text[start] == piece[0] && text[start + 1] == piece[1];
    assert text[end] == piece[|piece| - 1];
    assert forall k | from <= k < end :: text[k] == piece[k - start] == body[k - from];
    assert Ends(text, end) && forall k | from <= k < end :: !Ends(text, k);
    var stop := ScanExactly(text, start);
    assert stop == end;
  }

  lemma {:induction false} ShowsHere(text: string, start: nat, s: string, style: Style)
    requires forall k | 0 <= k < |s| :: s[k] as int != 0x1b && s[k] as int != 0x9b
    requires start + |s| <= |text| && text[start..start + |s|] == s
    ensures Tagged(text, start, style) == TagAll(s, Visible(style)) + Tagged(text, start + |s|, style)
    decreases |s|
  {
    hide Scan, Tagged, Shown, Visible;
    if s == "" {
      assert TagAll(s, Visible(style)) == [];
    } else {
      var rest := s[1..];
      CharHere(text, start, s, style);
      ShowsHere(text, start + 1, rest, style);
      FirstTag(s, Visible(style));
      CatAssoc([Tag(s[0], Visible(style))], TagAll(rest, Visible(style)), Tagged(text, start + |s|, style));
    }
  }

  lemma {:induction false} CharHere(text: string, start: nat, s: string, style: Style)
    requires s != "" && s[0] as int != 0x1b && s[0] as int != 0x9b
    requires start + |s| <= |text| && text[start..start + |s|] == s
    ensures Tagged(text, start, style) == [Tag(s[0], Visible(style))] + Tagged(text, start + 1, style)
    ensures text[start + 1..start + |s|] == s[1..]
  {
    hide Scan, Tagged;
    assert text[start] == text[start..start + |s|][0] == s[0];
    TaggedStep(text, start, style);
  }

  lemma {:induction false} FirstTag(s: string, style: Option<Style>)
    requires s != ""
    ensures TagAll(s, style) == [Tag(s[0], style)] + TagAll(s[1..], style)
  {
  }

  /**
   A text made of characters and whole sequences shows the characters, in the styles that its
   colour sequences say, and nothing of the sequences.
   */
  lemma {:induction false} PartsShown(before: string, ps: seq<Part>, style: Style)
    requires PartsOk(ps)
    ensures var text := before + PutParts(ps); Tagged(text, |before|, style) == TagParts(ps, style)
    decreases |ps|
  {
    hide Scan, ApplySgr, Tagged, PutPart, PartOk, TagAll;
    var text := before + PutParts(ps);
    if ps == [] {
      assert text == before;
      EndTagged(text, style);
    } else {
      var p, rest := ps[0], ps[1..];
      assert PartOk(p);
      var piece := PutPart(p);
      PieceInside(before, piece, PutParts(rest));
      PartsShown(before + piece, rest, if p.Sgr? then ApplySgr(style, p.params) else style);
      PartHere(text, |before|, p, style);
    }
  }

  lemma {:induction false} PieceInside(before: string, piece: string, rest: string)
    ensures before + (piece + rest) == (before + piece) + rest
    ensures (before + (piece + rest))[|before|..|before| + |piece|] == piece
  {
  }

  lemma {:induction false} PartHere(text: string, start: nat, p: Part, style: Style)
    requires PartOk(p) && start + |PutPart(p)| <= |text| && text[start..start + |PutPart(p)|] == PutPart(p)
    ensures Tagged(text, start, style)
            == (if p.Shows? then TagAll(p.s, Visible(style)) else [])
               + Tagged(text, start + |PutPart(p)|, if p.Sgr? then ApplySgr(style, p.params) else style)
  {
    hide Scan, ApplySgr;
    match p
    case Shows(s) => ShowsHere(text, start, s, style);
    case Sgr(params) =>
      assert "m" == ['m'];
      ControlHere(text, start, params, 'm');
    case Control(inner, final) => ControlHere(text, start, inner, final);
    case Command(body) => CommandHere(text, start, body);
  }
}
