/**
 The Punycode encoder as RFC 3492 gives it: the parameters of section 5, the bias
 adaptation of section 6.1 and the encoding procedure of section 6.3, on unbounded
 integers. It shares nothing with the decoder that has to undo it.
 */
module Rfc3492 {

  type Pos = n: nat | n >= 1 witness 1

  // ----- digits, thresholds and the bias

  /** The digits 0 to 25 are the letters a to z, 26 to 35 the digits 0 to 9. */
  function DigitCode(d: nat): (c: nat)
    requires d < 36
    ensures c != 0x2d && c != 0x2e && c < 0x80
  {
    if d < 26 then 0x61 + d else 0x30 + (d - 26)
  }

  function Max(a: int, b: int): (r: int)
  {
    if a < b then b else a
  }

  function Min(a: int, b: int): (r: int)
  {
    if a < b then a else b
  }

  /** tmin is 1 and tmax is 26. */
  function Threshold(k: int, bias: int): (t: int)
    ensures 1 <= t <= 26
  {
    Max(1, Min(26, k - bias))
  }

  lemma {:induction false} DivSmaller(a: nat, m: nat)
    requires m >= 2
    ensures 0 <= a / m <= a && (a > 0 ==> a / m < a)
  {
    var q := a / m;
    assert q * m <= a && q * 2 <= q * m;
  }

  /** A delta as digits; base is 36. */
  function WriteInteger(q: nat, k: int, bias: int): (s: seq<nat>)
    ensures |s| >= 1
    decreases q
  {
    var t := Threshold(k, bias);
    if q < t then [DigitCode(q)]
    else
      DivSmaller(q - t, 36 - t);
      [DigitCode(t + (q - t) % (36 - t))] + WriteInteger((q - t) / (36 - t), k + 36, bias)
  }

  /** base - tmin is 35, half of (base - tmin) * tmax is 455, and skew is 38. */
  function Scaled(delta: nat, k: nat): (bias: nat)
  {
    if delta > 455 then Scaled(delta / 35, k + 36) else k + 36 * delta / (delta + 38)
  }

  /** damp is 700. */
  function Adapt(delta: nat, numPoints: Pos, firstTime: bool): (bias: nat)
  {
    var d := if firstTime then delta / 700 else delta / 2;
    Scaled(d + Over(d, numPoints), 0)
  }

  function Over(d: nat, points: Pos): (q: nat)
  {
    d / points
  }

  // ----- the encoding procedure

  /** The state after one pass over the input for one code point. */
  datatype Pass = Pass(out: seq<nat>, delta: nat, bias: int, handled: nat)

  function EncodePass(input: seq<nat>, j: nat, n: nat, delta: nat, bias: int, h: nat, b: nat): (r: Pass)
    requires j <= |input|
    ensures r.handled >= h
    decreases |input| - j
  {
    if j == |input| then Pass([], delta, bias, h)
    else if input[j] < n then EncodePass(input, j + 1, n, delta + 1, bias, h, b)
    else if input[j] == n then
      var rest := EncodePass(input, j + 1, n, 0, Adapt(delta, h + 1, h == b), h + 1, b);
      rest.(out := WriteInteger(delta, 36, bias) + rest.out)
    else EncodePass(input, j + 1, n, delta, bias, h, b)
  }

  /** How many code points of the input from `j` on are below `n`. */
  function CountBelow(s: seq<nat>, j: nat, n: nat): (c: nat)
    requires j <= |s|
    ensures c <= |s| - j
    decreases |s| - j
  {
    if j == |s| then 0 else (if s[j] < n then 1 else 0) + CountBelow(s, j + 1, n)
  }

  ghost predicate NoneBetween(s: seq<nat>, n: nat, m: nat)
  {
    forall k | 0 <= k < |s| :: s[k] < n || m <= s[k]
  }

  /** The least code point of the input from `j` on that is at least `n`. */
  function LeastFrom(s: seq<nat>, j: nat, n: nat): (m: nat)
    requires j <= |s| && CountBelow(s, j, n) < |s| - j
    ensures m >= n && (exists k :: j <= k < |s| && s[k] == m) && forall k | j <= k < |s| :: s[k] < n || m <= s[k]
    decreases |s| - j
  {
    if s[j] < n then LeastFrom(s, j + 1, n)
    else if CountBelow(s, j + 1, n) == |s| - j - 1 then
      AllBelow(s, j + 1, n);
      s[j]
    else
      var m := LeastFrom(s, j + 1, n);
      if s[j] <= m then s[j] else m
  }

  lemma {:induction false} AllBelow(s: seq<nat>, j: nat, n: nat)
    requires j <= |s| && CountBelow(s, j, n) == |s| - j
    ensures forall k | j <= k < |s| :: s[k] < n
    decreases |s| - j
  {
    if j < |s| {
      AllBelow(s, j + 1, n);
    }
  }

  /** By how much the delta grows when the code points from `n` up to `m` are passed over. */
  function Skipped(n: nat, m: nat, h: nat): (more: nat)
    requires n <= m
  {
    (m - n) * (h + 1)
  }

  function EncodeFrom(input: seq<nat>, n: nat, delta: nat, bias: int, h: nat, b: nat): (s: seq<nat>)
    requires h == CountBelow(input, 0, n)
    decreases |input| - h
  {
    if h >= |input| then []
    else
      var m := LeastFrom(input, 0, n);
      var pass := EncodePass(input, 0, m, delta + Skipped(n, m, h), bias, h, b);
      PassCounts(input, n, m, delta + Skipped(n, m, h), bias, h, b);
      pass.out + EncodeFrom(input, m + 1, pass.delta + 1, pass.bias, pass.handled, b)
  }

  /** The basic code points among the first `upto`. */
  function Basics(input: seq<nat>, upto: nat): (s: seq<nat>)
    requires upto <= |input|
  {
    if upto == 0 then []
    else Basics(input, upto - 1) + if input[upto - 1] < 0x80 then [input[upto - 1]] else []
  }

  function Encode(input: seq<nat>): (s: seq<nat>)
  {
    var basics := Basics(input, |input|);
    BasicsCount(input, |input|);
    basics + (if |basics| > 0 then [0x2d] else [])
    + EncodeFrom(input, 0x80, 0, 72, |basics|, |basics|)
  }

  lemma {:induction false} BasicsCount(input: seq<nat>, upto: nat)
    requires upto <= |input|
    ensures |Basics(input, upto)| + CountBelow(input, upto, 0x80) == CountBelow(input, 0, 0x80)
  {
    if upto > 0 {
      BasicsCount(input, upto - 1);
    }
  }

  lemma {:induction false} CountGap(s: seq<nat>, j: nat, n: nat, m: nat)
    requires j <= |s| && n <= m && NoneBetween(s, n, m)
    ensures CountBelow(s, j, m) == CountBelow(s, j, n)
    decreases |s| - j
  {
    if j < |s| {
      CountGap(s, j + 1, n, m);
    }
  }

  /** A pass handles the occurrences of `n` from `j` on. */
  lemma {:induction false} PassHandles(input: seq<nat>, j: nat, n: nat, delta: nat, bias: int, h: nat, b: nat)
    requires j <= |input|
    ensures EncodePass(input, j, n, delta, bias, h, b).handled
            == h + CountBelow(input, j, n + 1) - CountBelow(input, j, n)
    decreases |input| - j
  {
    if j < |input| {
      if input[j] < n {
        PassHandles(input, j + 1, n, delta + 1, bias, h, b);
      } else if input[j] == n {
        PassHandles(input, j + 1, n, 0, Adapt(delta, h + 1, h == b), h + 1, b);
      } else {
        PassHandles(input, j + 1, n, delta, bias, h, b);
      }
    }
  }

  lemma {:induction false} CountGrows(s: seq<nat>, j: nat, n: nat, k: nat)
    requires j <= |s|
    ensures CountBelow(s, j, n) <= CountBelow(s, j, n + 1)
    ensures j <= k < |s| && s[k] == n ==> CountBelow(s, j, n) < CountBelow(s, j, n + 1)
    decreases |s| - j
  {
    if j < |s| {
      CountGrows(s, j + 1, n, k);
    }
  }

  /** A pass for the least unhandled code point leaves what is below the next one handled. */
  lemma {:induction false} PassCounts(input: seq<nat>, n: nat, m: nat, delta: nat, bias: int, h: nat, b: nat)
    requires h == CountBelow(input, 0, n) && n <= m && NoneBetween(input, n, m)
    requires exists k :: 0 <= k < |input| && input[k] == m
    ensures h < EncodePass(input, 0, m, delta, bias, h, b).handled == CountBelow(input, 0, m + 1)
  {
    CountGap(input, 0, n, m);
    PassHandles(input, 0, m, delta, bias, h, b);
    var k :| 0 <= k < |input| && input[k] == m;
    CountGrows(input, 0, m, k);
  }
}
