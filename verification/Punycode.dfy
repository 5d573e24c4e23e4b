/**
 The Punycode decoder the certificate pages use to show internationalised names.
 It must undo the encoder of RFC 3492, which is `Rfc3492`. Strings are sequences of
 UTF-16 code units, decoded labels sequences of code points.
 */
module Punycode {
  import opened Text
  import R = Rfc3492

  const BASE := 36
  const T_MIN := 1
  const T_MAX := 26
  const SKEW := 38
  const INITIAL_BIAS := 72
  const INITIAL_N: nat := 128
  const DELIMITER: nat := 0x2d
  const MAX_CODE_POINT: nat := 0x10FFFF
  const DOT: nat := 0x2e

  type Pos = R.Pos

  /** How the bias follows from a delta, the number of code points and whether it is the first delta. */
  type Adaptation = (nat, Pos, bool) -> int

  datatype Error = Truncated | BadDigit | BadCodePoint

  datatype Result = Ok(value: seq<nat>) | Err(error: Error)

  /** One integer read, with the input after it. */
  datatype Integer = Integer(i: nat, rest: seq<nat>) | NoInteger(error: Error)

  /** The digit threshold at position `k` (a multiple of `BASE`) under a bias. */
  function Threshold(k: int, bias: int): (t: int)
    ensures T_MIN <= t <= T_MAX
  {
    if k <= bias then T_MIN else if k >= bias + T_MAX then T_MAX else k - bias
  }

  // ----- products and quotients of naturals, by repeated addition and subtraction

  function Times(a: nat, b: nat): (p: nat)
  {
    if a == 0 then 0 else Times(a - 1, b) + b
  }

  function Quot(a: nat, b: nat): (q: nat)
    requires b >= 1
  {
    if a < b then 0 else Quot(a - b, b) + 1
  }

  function Rem(a: nat, b: nat): (m: nat)
    requires b >= 1
    ensures m < b
  {
    if a < b then a else Rem(a - b, b)
  }

  /** `Math.floor(d / b)`. */
  function FloorDiv(d: int, b: nat): (q: int)
    requires b >= 1
  {
    if d >= 0 then Quot(d, b) else 0 - Quot(-d + b - 1, b)
  }

  lemma {:induction false} TimesIsProduct(a: nat, b: nat)
    ensures Times(a, b) == a * b
  {
    if a > 0 {
      TimesIsProduct(a - 1, b);
    }
  }

  lemma {:induction false} QuotRemBack(a: nat, b: nat)
    requires b >= 1
    ensures a == Times(Quot(a, b), b) + Rem(a, b)
  {
    if a >= b {
      QuotRemBack(a - b, b);
    }
  }

  lemma {:induction false} QuotRemAreDivMod(a: nat, b: nat)
    requires b >= 1
    ensures Quot(a, b) == a / b && Rem(a, b) == a % b
  {
    QuotRemBack(a, b);
    TimesIsProduct(Quot(a, b), b);
    QuotientUnique(a, b, Quot(a, b), Rem(a, b));
  }

  lemma {:induction false} QuotientUnique(a: nat, b: nat, q: nat, r: nat)
    requires a == q * b + r && r < b
    ensures a / b == q && a % b == r
  {
    var d := a / b - q;
    assert d * b == r - a % b;
    assert d >= 1 ==> d * b >= b;
    assert d <= -1 ==> d * b + b <= 0;
  }

  /** Division rounds down, below zero too. */
  lemma {:induction false} FloorDivExactly(d: int, b: nat)
    requires b >= 1
    ensures var q := FloorDiv(d, b); q * b <= d < (q + 1) * b
  {
    hide Quot, Rem;
    var a := if d >= 0 then d else -d + b - 1;
    QuotRemBack(a, b);
    TimesIsProduct(Quot(a, b), b);
    assert Quot(a, b) * b <= a < Quot(a, b) * b + b;
    if d < 0 {
      assert (0 - Quot(a, b)) * b == 0 - Quot(a, b) * b;
    }
  }

  // ----- bias adaptation

  /** A number as JavaScript's bitwise operators see it. */
  function ToInt32(x: int): (r: int)
    ensures -0x8000_0000 <= r < 0x8000_0000 && (x - r) % 0x1_0000_0000 == 0
    ensures 0 <= x < 0x8000_0000 ==> r == x
  {
    var m := x % 0x1_0000_0000;
    if m >= 0x8000_0000 then m - 0x1_0000_0000 else m
  }

  /** `Math.floor(36 * d / (d + 38))`; for d = -38 the quotient is -Infinity, which acts as any bias up to 10 does. */
  function FinalQuotient(d: int): (q: int)
  {
    if d + SKEW > 0 then FloorDiv(36 * d, d + SKEW)
    else if d + SKEW < 0 then FloorDiv(-36 * d, -d - SKEW)
    else -T_MAX
  }

  /** That quotient rounds down whatever the sign of the divisor. */
  lemma {:induction false} FinalQuotientExactly(d: int)
    requires d != -38
    ensures var q := FinalQuotient(d);
            if d > -38 then q * (d + 38) <= 36 * d < (q + 1) * (d + 38)
            else q * (d + 38) >= 36 * d > (q + 1) * (d + 38)
  {
    hide FloorDiv;
    if d > -38 {
      FloorDivExactly(36 * d, d + 38);
    } else {
      FloorDivExactly(-36 * d, -d - 38);
      var q, b := FinalQuotient(d), -d - 38;
      assert q * (d + 38) == 0 - q * b && (q + 1) * (d + 38) == 0 - (q + 1) * b;
    }
  }

  /** The rest of the adaptation once the delta is scaled: 35 is base - tmin, 455 is 35 * tmax / 2. */
  function Settle(d: int, k: int): (bias: int)
    decreases d
  {
    if d > 455 then Settle(d / 35, k + BASE)
    else k + FinalQuotient(d)
  }

  /** What `adapt` computes, its shift being a 32-bit one. */
  function Adapted(delta: nat, numPoints: Pos, firstTime: bool): (bias: int)
  {
    var d := if firstTime then delta / 700 else ToInt32(delta) / 2;
    Settle(d + FloorDiv(d, numPoints), 0)
  }

  method Adapt(delta: nat, numPoints: Pos, firstTime: bool) returns (bias: int)
    ensures bias == Adapted(delta, numPoints, firstTime)
  {
    var d: int := if firstTime then delta / 700 else ToInt32(delta) / 2;
    d := d + FloorDiv(d, numPoints);
    var k := 0;
    while d > 455
      invariant Settle(d, k) == Adapted(delta, numPoints, firstTime)
    {
      d := d / 35;
      k := k + BASE;
    }
    bias := k + FinalQuotient(d);
  }

  // ----- decoding

  function BasicToDigit(c: nat): (digit: nat)
    ensures digit <= BASE
  {
    if 0x30 <= c < 0x3a then c - 0x16
    else if 0x41 <= c < 0x5b then c - 0x41
    else if 0x61 <= c < 0x7b then c - 0x61
    else BASE
  }

  /** One generalised variable-length integer, added to `i`, and the input after it. */
  function ReadInteger(s: seq<nat>, k: int, i: nat, w: nat, bias: int): (r: Integer)
    ensures r.Integer? ==> i <= r.i && |r.rest| < |s|
    decreases |s|
  {
    if s == [] then NoInteger(Truncated)
    else
      var digit := BasicToDigit(s[0]);
      if digit >= BASE then NoInteger(BadDigit)
      else
        var t := Threshold(k, bias);
        if digit < t then Integer(i + Times(digit, w), s[1..])
        else ReadInteger(s[1..], k + BASE, i + Times(digit, w), Times(w, BASE - t), bias)
  }

  function Insert(output: seq<nat>, at: nat, n: nat): (r: seq<nat>)
    requires at <= |output|
    ensures |r| == |output| + 1
  {
    output[..at] + [n] + output[at..]
  }

  /** The decoder's main loop: each integer read says where the next code point goes. */
  function ReadInsertions(adapt: Adaptation, s: seq<nat>, n: nat, i: nat, bias: int, output: seq<nat>): (r: Result)
    decreases |s|
  {
    if s == [] then Ok(output)
    else
      match ReadInteger(s, BASE, i, 1, bias)
      case NoInteger(e) => Err(e)
      case Integer(i', rest) =>
        var points := |output| + 1;
        var n', at := n + Quot(i', points), Rem(i', points);
        ReadInsertions(adapt, rest, n', at + 1, adapt(i' - i, points, i == 0), Insert(output, at, n'))
  }


  /** `String.fromCodePoint` refuses numbers that are not code points. */
  function FromCodePoints(output: seq<nat>): (r: Result)
  {
    if forall c | c in output :: c <= MAX_CODE_POINT then Ok(output) else Err(BadCodePoint)
  }

  /** How much of the input is copied as it is, and where the integers begin. */
  function BasicLength(input: seq<nat>): (n: nat)
    ensures n <= |input| && (n > 0 ==> n < |input|)
  {
    var at := LastIndexOf(input, DELIMITER);
    if at < 0 then 0 else at
  }

  function Decoded(input: seq<nat>): (r: Result)
  {
    var b := BasicLength(input);
    var start := if b > 0 then b + 1 else 0;
    match ReadInsertions(Adapted, input[start..], INITIAL_N, 0, INITIAL_BIAS, input[..b])
    case Err(e) => Err(e)
    case Ok(output) => FromCodePoints(output)
  }

  method DecodeACE(input: seq<nat>) returns (r: Result)
    ensures r == Decoded(input)
  {
    hide ReadInteger, Adapted, Quot, Rem, LastIndexOf;
    var output: seq<nat> := [];
    var n: nat, i: nat, bias := INITIAL_N, 0, INITIAL_BIAS;
    var basicLength := BasicLength(input);
    var j := 0;
    while j < basicLength
      invariant 0 <= j <= basicLength && output == input[..j]
    {
      output := output + [input[j]];
      j := j + 1;
    }
    var index := if basicLength > 0 then basicLength + 1 else 0;
    ghost var all := ReadInsertions(Adapted, input[index..], n, i, bias, output);
    while index < |input|
      invariant index <= |input|
      invariant all == ReadInsertions(Adapted, input[index..], n, i, bias, output)
    {
      var oldi := i;
      var integer := DecodeInteger(input, index, oldi, bias);
      if integer.NoInteger? {
        return Err(integer.error);
      }
      i, index := integer.i, |input| - |integer.rest|;
      var outLength := |output| + 1;
      bias := Adapt(i - oldi, outLength, oldi == 0);
      n := n + Quot(i, outLength);
      i := Rem(i, outLength);
      output := Insert(output, i, n);
      i := i + 1;
    }
    assert input[index..] == [];
    r := FromCodePoints(output);
  }

  /** The inner loop: reads one integer at `start`. */
  method DecodeInteger(input: seq<nat>, start: nat, oldi: nat, bias: int) returns (r: Integer)
    requires start <= |input|
    ensures r == ReadInteger(input[start..], BASE, oldi, 1, bias)
    ensures r.Integer? ==> |r.rest| <= |input| && r.rest == input[|input| - |r.rest|..]
  {
    var index, i: nat, w: nat, k := start, oldi, 1, BASE;
    ghost var integer := ReadInteger(input[start..], BASE, oldi, 1, bias);
    while true
      invariant start <= index <= |input| && oldi <= i
      invariant integer == ReadInteger(input[index..], k, i, w, bias)
      decreases |input| - index
    {
      if index >= |input| {
        return NoInteger(Truncated);
      }
      var digit := BasicToDigit(input[index]);
      assert input[index..][1..] == input[index + 1..];
      index := index + 1;
      if digit >= BASE {
        return NoInteger(BadDigit);
      }
      i := i + Times(digit, w);
      var t := Threshold(k, bias);
      if digit < t {
        return Integer(i, input[index..]);
      }
      w := Times(w, BASE - t);
      k := k + BASE;
    }
  }

  // ----- integers

  lemma {:induction false} TimesAtMost(a: nat, x: nat, b: nat, y: nat)
    requires a <= x && b <= y
    ensures Times(a, b) <= Times(x, y)
    decreases x
  {
    if a > 0 {
      TimesAtMost(a - 1, x - 1, b, y);
    }
  }

  lemma {:induction false} TimesAdd(a: nat, b: nat, p: nat)
    ensures Times(a + b, p) == Times(a, p) + Times(b, p)
  {
    if a > 0 {
      TimesAdd(a - 1, b, p);
    }
  }

  lemma {:induction false} TimesOne(a: nat)
    ensures Times(a, 1) == a
  {
    if a > 0 {
      TimesOne(a - 1);
    }
  }

  lemma {:induction false} TimesSwap(a: nat, b: nat)
    ensures Times(a, b) == Times(b, a)
  {
    TimesIsProduct(a, b);
    TimesIsProduct(b, a);
  }

  lemma {:induction false} TimesTimes(a: nat, w: nat, m: nat)
    ensures Times(a, Times(w, m)) == Times(Times(a, m), w)
  {
    if a > 0 {
      TimesTimes(a - 1, w, m);
      TimesAdd(Times(a - 1, m), m, w);
      TimesSwap(w, m);
    }
  }

  lemma {:induction false} QuotRemUnique(q: nat, p: nat, r: nat)
    requires r < p
    ensures Quot(Times(q, p) + r, p) == q && Rem(Times(q, p) + r, p) == r
  {
    if q > 0 {
      QuotRemUnique(q - 1, p, r);
    }
  }

  lemma {:induction false} QuotientSmaller(a: nat, m: nat)
    requires m >= 2
    ensures Quot(a, m) <= a && (a > 0 ==> Quot(a, m) < a)
  {
    if a >= m {
      QuotientSmaller(a - m, m);
    }
  }

  // ----- the decoder's tables are those of the RFC

  lemma {:induction false} SameDigit(d: nat)
    requires d < 36
    ensures BasicToDigit(R.DigitCode(d)) == d
  {
  }

  lemma {:induction false} SameThreshold(k: int, bias: int)
    ensures Threshold(k, bias) == R.Threshold(k, bias)
  {
  }

  /** What the encoder writes of a number, said with the decoder's operations. */
  lemma {:induction false} WrittenDigits(q: nat, k: int, bias: int)
    ensures var t := Threshold(k, bias);
            R.WriteInteger(q, k, bias)
            == if q < t then [R.DigitCode(q)]
               else
                 [R.DigitCode(t + Rem(q - t, 36 - t))] + R.WriteInteger(Quot(q - t, 36 - t), k + 36, bias)
  {
    hide Quot, Rem, R.DigitCode;
    SameThreshold(k, bias);
    var t := Threshold(k, bias);
    if q >= t {
      QuotRemAreDivMod(q - t, 36 - t);
    }
  }

  /** Reading undoes writing, at every bias and position. */
  lemma {:induction false} IntegerRoundTrip(q: nat, k: int, i: nat, w: nat, bias: int, rest: seq<nat>)
    ensures ReadInteger(R.WriteInteger(q, k, bias) + rest, k, i, w, bias) == Integer(i + Times(q, w), rest)
    decreases q
  {
    hide Times, Quot, Rem, Threshold, R.Threshold, R.DigitCode, BasicToDigit, R.WriteInteger;
    var t := Threshold(k, bias);
    WrittenDigits(q, k, bias);
    var s := R.WriteInteger(q, k, bias) + rest;
    if q < t {
      SameDigit(q);
      assert s[0] == R.DigitCode(q) && s[1..] == rest;
    } else {
      var m := BASE - t;
      var more, low := Quot(q - t, m), Rem(q - t, m);
      QuotientSmaller(q - t, m);
      SameDigit(t + low);
      var tail := R.WriteInteger(more, k + BASE, bias);
      assert s[0] == R.DigitCode(t + low) && s[1..] == tail + rest;
      IntegerRoundTrip(more, k + BASE, i + Times(t + low, w), Times(w, m), bias, rest);
      QuotRemBack(q - t, m);
      TimesTimes(more, w, m);
      TimesAdd(t + low, Times(more, m), w);
    }
  }

  // ----- what the decoder has when the encoder is at (n, j)

  /** The code points of `input[..upto]` below `n`, and those equal to `n` before position `j`. */
  ghost function Picked(input: seq<nat>, n: nat, j: nat, upto: nat): (s: seq<nat>)
    requires upto <= |input|
    ensures |s| <= upto
  {
    if upto == 0 then []
    else
      var c := input[upto - 1];
      Picked(input, n, j, upto - 1) + if c < n || (c == n && upto - 1 < j) then [c] else []
  }

  lemma {:induction false} PickedSame(input: seq<nat>, n: nat, j: nat, upto: nat)
    requires upto <= |input| && j < |input| && (upto <= j || input[j] != n)
    ensures Picked(input, n, j + 1, upto) == Picked(input, n, j, upto)
  {
    if upto > 0 {
      PickedSame(input, n, j, upto - 1);
    }
  }

  lemma {:induction false} InsertSnoc(s: seq<nat>, at: nat, n: nat, more: seq<nat>)
    requires at <= |s|
    ensures Insert(s + more, at, n) == Insert(s, at, n) + more
  {
    assert (s + more)[..at] == s[..at] && (s + more)[at..] == s[at..] + more;
    assert s[..at] + [n] + (s[at..] + more) == (s[..at] + [n] + s[at..]) + more;
  }

  /** Passing an occurrence of `n` inserts it after what was picked before it. */
  lemma {:induction false} PickedInsert(input: seq<nat>, n: nat, j: nat, upto: nat)
    requires j < upto <= |input| && input[j] == n
    ensures |Picked(input, n, j, j)| <= |Picked(input, n, j, upto)|
    ensures Picked(input, n, j + 1, upto)
            == Insert(Picked(input, n, j, upto), |Picked(input, n, j, j)|, n)
  {
    var at := |Picked(input, n, j, j)|;
    if upto == j + 1 {
      PickedSame(input, n, j, j);
      var s := Picked(input, n, j, j);
      assert s + [] == s && s[..at] == s && s[at..] == [] && s + [n] + [] == s + [n];
    } else {
      PickedInsert(input, n, j, upto - 1);
      var c := input[upto - 1];
      InsertSnoc(Picked(input, n, j, upto - 1), at, n, if c < n || (c == n && upto - 1 < j) then [c] else []);
    }
  }

  lemma {:induction false} PickedPast(input: seq<nat>, n: nat, upto: nat)
    requires upto <= |input|
    ensures Picked(input, n, |input|, upto) == Picked(input, n + 1, 0, upto)
  {
    if upto > 0 {
      PickedPast(input, n, upto - 1);
    }
  }

  lemma {:induction false} PickedGap(input: seq<nat>, n: nat, m: nat, upto: nat)
    requires upto <= |input| && n <= m && R.NoneBetween(input, n, m)
    ensures Picked(input, m, 0, upto) == Picked(input, n, 0, upto)
  {
    if upto > 0 {
      PickedGap(input, n, m, upto - 1);
    }
  }

  lemma {:induction false} PickedFull(input: seq<nat>, n: nat, j: nat, upto: nat)
    requires upto <= |input| && |Picked(input, n, j, upto)| == upto
    ensures Picked(input, n, j, upto) == input[..upto]
  {
    if upto > 0 {
      PickedFull(input, n, j, upto - 1);
      assert input[..upto] == input[..upto - 1] + [input[upto - 1]];
    }
  }

  lemma {:induction false} PickedBasics(input: seq<nat>, upto: nat)
    requires upto <= |input|
    ensures Picked(input, 0x80, 0, upto) == R.Basics(input, upto)
  {
    if upto > 0 {
      PickedBasics(input, upto - 1);
    }
  }

  // ----- the decoder in two layers: integers are read, then inserted

  /** Integers read one after the other, and the error that ended them, if any. */
  datatype List = Nil | Broken(error: Error) | Cons(head: nat, tail: List) {
    ghost function Then(more: List): (r: List)
    {
      if Cons? then Cons(head, tail.Then(more)) else more
    }
  }

  /** The integers of a decoder input; only their number matters to the bias. */
  ghost function ReadDeltas(adapt: Adaptation, s: seq<nat>, points: Pos, first: bool, bias: int): (r: List)
    decreases |s|
  {
    if s == [] then Nil
    else
      match ReadInteger(s, BASE, 0, 1, bias)
      case NoInteger(e) => Broken(e)
      case Integer(d, rest) => Cons(d, ReadDeltas(adapt, rest, points + 1, false, adapt(d, points, first)))
  }

  ghost function InsertDeltas(ds: List, n: nat, i: nat, output: seq<nat>): (r: Result)
    decreases ds
  {
    match ds
    case Nil => Ok(output)
    case Broken(e) => Err(e)
    case Cons(d, more) =>
      var n', at := n + Quot(i + d, |output| + 1), Rem(i + d, |output| + 1);
      InsertDeltas(more, n', at + 1, Insert(output, at, n'))
  }

  ghost function Shift(r: Integer, more: nat): (c: Integer)
  {
    match r case NoInteger(_) => r case Integer(i, rest) => Integer(i + more, rest)
  }

  lemma {:induction false} ReadIntegerShift(s: seq<nat>, k: int, i: nat, more: nat, w: nat, bias: int)
    ensures ReadInteger(s, k, i + more, w, bias) == Shift(ReadInteger(s, k, i, w, bias), more)
    decreases |s|
  {
    if s != [] {
      var digit, t := BasicToDigit(s[0]), Threshold(k, bias);
      if t <= digit < BASE {
        ReadIntegerShift(s[1..], k + BASE, i + Times(digit, w), more, Times(w, BASE - t), bias);
        assert i + more + Times(digit, w) == i + Times(digit, w) + more;
      }
    }
  }

  /** `oldi === 0` holds exactly before the first insertion, so the layers can be read apart. */
  lemma {:induction false} ReadThenInsert(adapt: Adaptation, s: seq<nat>, n: nat, i: nat, bias: int, output: seq<nat>)
    ensures ReadInsertions(adapt, s, n, i, bias, output)
            == InsertDeltas(ReadDeltas(adapt, s, |output| + 1, i == 0, bias), n, i, output)
    decreases |s|
  {
    hide ReadInteger, Quot, Rem, Insert;
    if s != [] {
      ReadIntegerShift(s, BASE, 0, i, 1, bias);
      var integer := ReadInteger(s, BASE, 0, 1, bias);
      if integer.Integer? {
        var d, points := integer.i, |output| + 1;
        var n', at := n + Quot(i + d, points), Rem(i + d, points);
        ReadThenInsert(adapt, integer.rest, n', at + 1, adapt(d, points, i == 0), Insert(output, at, n'));
      }
    }
  }

  /** Every insertion takes (n, i) strictly forward: to a larger code point, or further along. */
  lemma {:induction false} InsertionAdvances(n: nat, i: nat, d: nat, points: Pos)
    ensures var n', i' := n + Quot(i + d, points), Rem(i + d, points) + 1;
            n < n' || (n == n' && i < i')
  {
  }

  // ----- the integers come back

  ghost function WriteDeltas(ds: List, points: Pos, first: bool, bias: int): (s: seq<nat>)
    decreases ds
  {
    match ds
    case Nil => []
    case Broken(_) => []
    case Cons(d, more) => R.WriteInteger(d, 36, bias) + WriteDeltas(more, points + 1, false, R.Adapt(d, points, first))
  }

  ghost predicate Small(ds: List)
  {
    match ds case Nil => true case Broken(_) => false case Cons(d, more) => d < 0x8000_0000 && Small(more)
  }

  lemma {:induction false} SettleIsScaled(d: nat, k: nat)
    ensures Settle(d, k) == R.Scaled(d, k)
    decreases d
  {
    hide Quot, Rem;
    if d > 455 {
      SettleIsScaled(d / 35, k + 36);
    } else {
      QuotRemAreDivMod(36 * d, d + 38);
    }
  }

  /** The 32-bit adaptation is that of the RFC for deltas below 2^31. */
  lemma {:induction false} AdaptedIsRfc(delta: nat, points: Pos, first: bool)
    requires delta < 0x8000_0000
    ensures Adapted(delta, points, first) == R.Adapt(delta, points, first)
  {
    hide Quot, Rem, Settle, R.Scaled;
    var d := if first then delta / 700 else delta / 2;
    QuotRemAreDivMod(d, points);
    SettleIsScaled(d + R.Over(d, points), 0);
  }

  lemma {:induction false} DeltasRoundTrip(ds: List, points: Pos, first: bool, bias: int)
    requires Small(ds)
    ensures ReadDeltas(Adapted, WriteDeltas(ds, points, first, bias), points, first, bias) == ds
    decreases ds
  {
    hide ReadInteger, R.WriteInteger, R.Adapt, Adapted, Times;
    match ds
    case Nil =>
    case Cons(d, more) =>
      AdaptedIsRfc(d, points, first);
      var bias' := R.Adapt(d, points, first);
      DeltasRoundTrip(more, points + 1, false, bias');
      IntegerRoundTrip(d, 36, 0, 1, bias, WriteDeltas(more, points + 1, false, bias'));
      TimesOne(d);
  }

  // ----- the encoder writes these integers

  datatype PassDeltas = PassDeltas(ds: List, delta: nat, handled: nat)

  ghost function DeltasOfPass(input: seq<nat>, j: nat, n: nat, delta: nat, h: nat): (r: PassDeltas)
    requires j <= |input|
    decreases |input| - j
  {
    if j == |input| then PassDeltas(Nil, delta, h)
    else if input[j] == n then
      var rest := DeltasOfPass(input, j + 1, n, 0, h + 1);
      PassDeltas(Cons(delta, rest.ds), rest.delta, rest.handled)
    else DeltasOfPass(input, j + 1, n, if input[j] < n then delta + 1 else delta, h)
  }

  lemma {:induction false} PassWrites(input: seq<nat>, j: nat, n: nat, delta: nat, bias: int,
                                      h: nat, b: nat, more: List)
    requires j <= |input| && b <= h
    ensures var r, d := R.EncodePass(input, j, n, delta, bias, h, b), DeltasOfPass(input, j, n, delta, h);
            && r.delta == d.delta && r.handled == d.handled
            && WriteDeltas(d.ds.Then(more), h + 1, h == b, bias)
               == r.out + WriteDeltas(more, r.handled + 1, r.handled == b, r.bias)
    decreases |input| - j
  {
    hide R.WriteInteger;
    if j == |input| {
      assert [] + WriteDeltas(more, h + 1, h == b, bias) == WriteDeltas(more, h + 1, h == b, bias);
    } else if input[j] == n {
      var bias' := R.Adapt(delta, h + 1, h == b);
      PassWrites(input, j + 1, n, 0, bias', h + 1, b, more);
      var r := R.EncodePass(input, j + 1, n, 0, bias', h + 1, b);
      CatAssoc(R.WriteInteger(delta, 36, bias), r.out, WriteDeltas(more, r.handled + 1, r.handled == b, r.bias));
    } else {
      PassWrites(input, j + 1, n, if input[j] < n then delta + 1 else delta, bias, h, b, more);
    }
  }

  ghost function DeltasFrom(input: seq<nat>, n: nat, delta: nat, h: nat): (ds: List)
    requires h == R.CountBelow(input, 0, n)
    decreases |input| - h
  {
    if h >= |input| then Nil
    else
      var m := R.LeastFrom(input, 0, n);
      var delta' := delta + R.Skipped(n, m, h);
      var pass := DeltasOfPass(input, 0, m, delta', h);
      R.PassCounts(input, n, m, delta', 0, h, h);
      PassWrites(input, 0, m, delta', 0, h, h, Nil);
      pass.ds.Then(DeltasFrom(input, m + 1, pass.delta + 1, pass.handled))
  }

  lemma {:induction false} EncodeWrites(input: seq<nat>, n: nat, delta: nat, bias: int, h: nat,
                                        b: nat)
    requires h == R.CountBelow(input, 0, n) && b <= h
    ensures R.EncodeFrom(input, n, delta, bias, h, b)
            == WriteDeltas(DeltasFrom(input, n, delta, h), h + 1, h == b, bias)
    decreases |input| - h
  {
    hide R.EncodePass, DeltasOfPass, R.LeastFrom, R.CountBelow, R.Skipped, R.WriteInteger;
    if h < |input| {
      var m := R.LeastFrom(input, 0, n);
      var delta' := delta + R.Skipped(n, m, h);
      var r, d := R.EncodePass(input, 0, m, delta', bias, h, b), DeltasOfPass(input, 0, m, delta', h);
      R.PassCounts(input, n, m, delta', bias, h, b);
      PassWrites(input, 0, m, delta', bias, h, b, Nil);
      PassWrites(input, 0, m, delta', bias, h, b, DeltasFrom(input, m + 1, d.delta + 1, d.handled));
      EncodeWrites(input, m + 1, r.delta + 1, r.bias, r.handled, b);
    }
  }

  // ----- and inserting them rebuilds the input

  /** Code points, few enough that no delta reaches 2^31; any DNS label is far shorter. */
  ghost predicate Encodable(input: seq<nat>)
  {
    && (forall k | 0 <= k < |input| :: input[k] <= MAX_CODE_POINT)
    && 0x110000 * (|input| + 1) <= 0x8000_0000
  }

  /**
   The encoder at (n, j) and the decoder at (n0, i0) agree: `delta` is how many
   states the decoder still has to pass.
   */
  ghost predicate Tracks(input: seq<nat>, n: nat, j: nat, delta: int, n0: nat, i0: nat, h: nat)
    requires j <= |input|
  {
    && h == |Picked(input, n, j, |input|)|
    && n0 <= n && i0 <= h
    && delta == Times(n - n0, h + 1) + |Picked(input, n, j, j)| - i0
  }

  lemma {:induction false} DeltaSmall(input: seq<nat>, n: nat, j: nat, delta: nat, n0: nat, i0: nat, h: nat)
    requires Encodable(input) && n <= MAX_CODE_POINT && j <= |input| && Tracks(input, n, j, delta, n0, i0, h)
    requires |Picked(input, n, j, j)| <= h
    ensures delta < 0x8000_0000
  {
    TimesAtMost(n - n0, 0x10FFFF, h + 1, |input| + 1);
    TimesIsProduct(0x10FFFF, |input| + 1);
  }

  /** Passing a code point that is not `n`: the delta grows with what was already picked. */
  lemma {:induction false} TracksSkip(input: seq<nat>, n: nat, j: nat, delta: nat, n0: nat, i0: nat, h: nat)
    requires j < |input| && input[j] != n && Tracks(input, n, j, delta, n0, i0, h)
    ensures Tracks(input, n, j + 1, if input[j] < n then delta + 1 else delta, n0, i0, h)
    ensures Picked(input, n, j + 1, |input|) == Picked(input, n, j, |input|)
  {
    PickedSame(input, n, j, |input|);
    PickedSame(input, n, j, j);
  }

  /** Passing an occurrence of `n`: the decoder inserts it too, and the delta starts over. */
  lemma {:induction false} TracksInsert(input: seq<nat>, n: nat, j: nat, delta: nat, n0: nat, i0: nat, h: nat,
                                        more: List)
    requires j < |input| && input[j] == n && Tracks(input, n, j, delta, n0, i0, h)
    ensures |Picked(input, n, j, j)| <= h
    ensures Tracks(input, n, j + 1, 0, n, |Picked(input, n, j, j)| + 1, h + 1)
    ensures InsertDeltas(Cons(delta, more), n0, i0, Picked(input, n, j, |input|))
            == InsertDeltas(more, n, |Picked(input, n, j, j)| + 1, Picked(input, n, j + 1, |input|))
  {
    hide Insert;
    PickedInsert(input, n, j, |input|);
    PickedSame(input, n, j, j);
    QuotRemUnique(n - n0, h + 1, |Picked(input, n, j, j)|);
  }

  /** Inserting the deltas of one pass takes the decoder through that pass. */
  lemma {:induction false} PassInserts(input: seq<nat>, j: nat, n: nat, delta: nat, h: nat, n0: nat, i0: nat,
                                       more: List)
    returns (n1: nat, i1: nat)
    requires Encodable(input) && n <= MAX_CODE_POINT && j <= |input|
    requires Tracks(input, n, j, delta, n0, i0, h)
    ensures var d := DeltasOfPass(input, j, n, delta, h);
            && (Small(more) ==> Small(d.ds.Then(more)))
            && Tracks(input, n, |input|, d.delta, n1, i1, d.handled)
            && InsertDeltas(d.ds.Then(more), n0, i0, Picked(input, n, j, |input|))
               == InsertDeltas(more, n1, i1, Picked(input, n, |input|, |input|))
    decreases |input| - j
  {
    hide InsertDeltas, Picked, Times;
    if j == |input| {
      n1, i1 := n0, i0;
    } else if input[j] == n {
      var d := DeltasOfPass(input, j + 1, n, 0, h + 1);
      TracksInsert(input, n, j, delta, n0, i0, h, d.ds.Then(more));
      DeltaSmall(input, n, j, delta, n0, i0, h);
      n1, i1 := PassInserts(input, j + 1, n, 0, h + 1, n, |Picked(input, n, j, j)| + 1, more);
    } else {
      TracksSkip(input, n, j, delta, n0, i0, h);
      n1, i1 := PassInserts(input, j + 1, n, if input[j] < n then delta + 1 else delta, h, n0, i0, more);
    }
  }

  /** Between passes the delta makes up for the skipped values of `n`. */
  lemma {:induction false} TracksGap(input: seq<nat>, n: nat, m: nat, delta: nat, n0: nat, i0: nat, h: nat)
    requires n <= m && R.NoneBetween(input, n, m) && Tracks(input, n, 0, delta, n0, i0, h)
    ensures Tracks(input, m, 0, delta + R.Skipped(n, m, h), n0, i0, h)
    ensures Picked(input, m, 0, |input|) == Picked(input, n, 0, |input|)
  {
    PickedGap(input, n, m, |input|);
    TimesAdd(n - n0, m - n, h + 1);
    TimesIsProduct(m - n, h + 1);
  }

  lemma {:induction false} TracksNext(input: seq<nat>, n: nat, delta: nat, n0: nat, i0: nat, h: nat)
    requires Tracks(input, n, |input|, delta, n0, i0, h)
    ensures Tracks(input, n + 1, 0, delta + 1, n0, i0, h)
    ensures Picked(input, n, |input|, |input|) == Picked(input, n + 1, 0, |input|)
  {
    PickedPast(input, n, |input|);
    assert Times(n + 1 - n0, h + 1) == Times(n - n0, h + 1) + (h + 1);
  }

  lemma {:induction false} AllPicked(input: seq<nat>, n: nat, delta: nat, h: nat, n0: nat, i0: nat)
    requires Tracks(input, n, 0, delta, n0, i0, h) && h >= |input|
    ensures Picked(input, n, 0, |input|) == input
  {
    PickedFull(input, n, 0, |input|);
    assert input[..|input|] == input;
  }

  /** Inserting what the encoder still has to write completes the input. */
  lemma {:induction false} DeltasInsert(input: seq<nat>, n: nat, delta: nat, h: nat, n0: nat, i0: nat)
    requires Encodable(input) && h == R.CountBelow(input, 0, n) && Tracks(input, n, 0, delta, n0, i0, h)
    ensures Small(DeltasFrom(input, n, delta, h))
    ensures InsertDeltas(DeltasFrom(input, n, delta, h), n0, i0, Picked(input, n, 0, |input|)) == Ok(input)
    decreases |input| - h
  {
    hide Times, R.Skipped, DeltasOfPass, R.LeastFrom, R.CountBelow, Quot, Rem, Insert, Tracks, Picked;
    if h >= |input| {
      AllPicked(input, n, delta, h, n0, i0);
    } else {
      var m := R.LeastFrom(input, 0, n);
      var delta' := delta + R.Skipped(n, m, h);
      var d := DeltasOfPass(input, 0, m, delta', h);
      R.PassCounts(input, n, m, delta', 0, h, h);
      PassWrites(input, 0, m, delta', 0, h, h, Nil);
      TracksGap(input, n, m, delta, n0, i0, h);
      var n1, i1 := PassInserts(input, 0, m, delta', h, n0, i0, DeltasFrom(input, m + 1, d.delta + 1, d.handled));
      TracksNext(input, m, d.delta, n1, i1, d.handled);
      DeltasInsert(input, m + 1, d.delta + 1, d.handled, n1, i1);
    }
  }

  // ----- the label as a whole

  ghost predicate DigitsOnly(s: seq<nat>)
  {
    forall k | 0 <= k < |s| :: s[k] != DELIMITER && s[k] < 0x80 && s[k] != DOT
  }

  lemma {:induction false} WriteIntegerDigits(q: nat, k: int, bias: int)
    ensures DigitsOnly(R.WriteInteger(q, k, bias))
    decreases q
  {
    hide Quot, Rem, R.DigitCode, R.WriteInteger;
    var t := Threshold(k, bias);
    WrittenDigits(q, k, bias);
    if q >= t {
      QuotientSmaller(q - t, 36 - t);
      WriteIntegerDigits(Quot(q - t, 36 - t), k + 36, bias);
    }
  }

  lemma {:induction false} WriteDeltasDigits(ds: List, points: Pos, first: bool, bias: int)
    ensures DigitsOnly(WriteDeltas(ds, points, first, bias))
    decreases ds
  {
    match ds
    case Nil =>
    case Broken(_) =>
    case Cons(d, more) =>
      WriteIntegerDigits(d, 36, bias);
      WriteDeltasDigits(more, points + 1, false, R.Adapt(d, points, first));
  }

  /** The last delimiter of an encoding is the one after its basic code points. */
  lemma {:induction false} EncodingParts(basics: seq<nat>, digits: seq<nat>)
    requires DigitsOnly(digits)
    ensures var s := basics + (if |basics| > 0 then [DELIMITER] else []) + digits;
            var b := BasicLength(s);
            && b == |basics| && s[..b] == basics
            && s[if b > 0 then b + 1 else 0..] == digits
  {
    var s := basics + (if |basics| > 0 then [DELIMITER] else []) + digits;
    if |basics| > 0 {
      assert s[|basics|] == DELIMITER;
      forall k | |basics| < k < |s| ensures s[k] != DELIMITER {
        assert s[k] == digits[k - |basics| - 1];
      }
    } else {
      assert s == digits;
    }
  }

  /**
   The decoder undoes the encoder of RFC 3492: every sequence of code points of
   label length comes back from its encoding.
   */
  lemma {:induction false} PunycodeRoundTrip(input: seq<nat>)
    requires Encodable(input)
    ensures Decoded(R.Encode(input)) == Ok(input)
  {
    hide ReadInsertions, ReadDeltas, WriteDeltas, InsertDeltas, R.EncodeFrom, DeltasFrom, Adapted, R.Adapt,
         BasicLength, Picked;
    var basics := R.Basics(input, |input|);
    var b := |basics|;
    R.BasicsCount(input, |input|);
    var ds := DeltasFrom(input, 0x80, 0, b);
    EncodeWrites(input, 0x80, 0, 72, b, b);
    WriteDeltasDigits(ds, b + 1, true, 72);
    var digits := WriteDeltas(ds, b + 1, true, 72);
    EncodingParts(basics, digits);
    ReadThenInsert(Adapted, digits, 0x80, 0, 72, basics);
    PickedBasics(input, |input|);
    DeltasInsert(input, 0x80, 0, b, 0x80, 0);
    DeltasRoundTrip(ds, b + 1, true, 72);
    assert forall c | c in input :: c <= MAX_CODE_POINT;
  }

  // ----- which digits are read

  /** The same letter in upper or lower case, or the same code unit. */
  predicate SameLetter(a: nat, b: nat)
  {
    a == b || (0x41 <= a <= 0x5a && b == a + 0x20) || (0x41 <= b <= 0x5a && a == b + 0x20)
  }

  /** A code unit is read as a digit exactly when the encoder writes that digit so, or in the other case. */
  lemma {:induction false} DigitExactly(c: nat, d: nat)
    requires d < 36
    ensures BasicToDigit(c) == d <==> SameLetter(c, R.DigitCode(d))
  {
  }

  predicate SameLetters(s: seq<nat>, t: seq<nat>)
  {
    |s| == |t| && forall k | 0 <= k < |s| :: SameLetter(s[k], t[k])
  }

  lemma {:induction false} IntegerCase(s: seq<nat>, t: seq<nat>, k: int, i: nat, w: nat, bias: int)
    requires SameLetters(s, t)
    ensures var a, b := ReadInteger(s, k, i, w, bias), ReadInteger(t, k, i, w, bias);
            if a.NoInteger? then b == a else b.Integer? && b.i == a.i && SameLetters(a.rest, b.rest)
    decreases |s|
  {
    hide Times, Threshold;
    if s != [] {
      assert SameLetter(s[0], t[0]) && BasicToDigit(s[0]) == BasicToDigit(t[0]);
      var digit, threshold := BasicToDigit(s[0]), Threshold(k, bias);
      if threshold <= digit < BASE {
        IntegerCase(s[1..], t[1..], k + BASE, i + Times(digit, w), Times(w, BASE - threshold), bias);
      }
    }
  }

  lemma {:induction false} InsertionsCase(s: seq<nat>, t: seq<nat>, n: nat, i: nat, bias: int, output: seq<nat>)
    requires SameLetters(s, t)
    ensures ReadInsertions(Adapted, s, n, i, bias, output) == ReadInsertions(Adapted, t, n, i, bias, output)
    decreases |s|
  {
    hide ReadInteger, Adapted, Quot, Rem, Insert;
    if s != [] {
      IntegerCase(s, t, BASE, i, 1, bias);
      var a, b := ReadInteger(s, BASE, i, 1, bias), ReadInteger(t, BASE, i, 1, bias);
      if a.Integer? {
        var points := |output| + 1;
        var n', at := n + Quot(a.i, points), Rem(a.i, points);
        InsertionsCase(a.rest, b.rest, n', at + 1, Adapted(a.i - i, points, i == 0), Insert(output, at, n'));
      }
    }
  }

  /** The case of the letters after the last delimiter does not matter. */
  lemma {:induction false} DecodedCase(basics: seq<nat>, s: seq<nat>, t: seq<nat>)
    requires SameLetters(s, t) && 0x2d !in s && 0x2d !in t
    ensures Decoded(basics + [0x2d] + s) == Decoded(basics + [0x2d] + t)
  {
    hide ReadInsertions, LastIndexOf;
    LastDelimiter(basics, s);
    LastDelimiter(basics, t);
    var front := if basics == [] then [0x2d] else [];
    assert front != [] ==> basics + [0x2d] + s == front + s && basics + [0x2d] + t == front + t;
    assert SameLetters(front + s, front + t);
    InsertionsCase(front + s, front + t, INITIAL_N, 0, INITIAL_BIAS, basics);
    InsertionsCase(s, t, INITIAL_N, 0, INITIAL_BIAS, basics);
  }

  lemma {:induction false} LastDelimiter(basics: seq<nat>, s: seq<nat>)
    requires 0x2d !in s
    ensures var all := basics + [0x2d] + s;
            && BasicLength(all) == |basics| && all[..|basics|] == basics
            && all[if |basics| > 0 then |basics| + 1 else 0..] == (if basics == [] then [0x2d] else []) + s
  {
    var all := basics + [0x2d] + s;
    assert all[|basics|] == 0x2d;
    assert forall k | |basics| < k < |all| :: all[k] == s[k - |basics| - 1];
  }

  /** Some digit is written so. */
  ghost predicate IsDigit(c: nat)
  {
    exists d: nat :: d < 36 && SameLetter(c, R.DigitCode(d))
  }

  /** After its last delimiter, unless that is all in front, there are digits only. */
  ghost predicate AllDigits(input: seq<nat>)
  {
    var b := LastIndexOf(input, 0x2d);
    forall k | (if b > 0 then b + 1 else 0) <= k < |input| :: IsDigit(input[k])
  }

  /** A label with anything but letters and digits after its last delimiter is not decoded. */
  lemma {:induction false} DecodedDigits(input: seq<nat>)
    requires Decoded(input).Ok?
    ensures AllDigits(input)
    ensures forall c | c in Decoded(input).value :: c <= 0x10FFFF
  {
    hide ReadInsertions, LastIndexOf, SameLetter, R.DigitCode;
    var b := BasicLength(input);
    var start := if b > 0 then b + 1 else 0;
    InsertionsDigits(Adapted, input[start..], INITIAL_N, 0, INITIAL_BIAS, input[..b]);
    forall k | start <= k < |input| ensures IsDigit(input[k]) {
      assert input[start..][k - start] == input[k];
      DigitExactly(input[k], BasicToDigit(input[k]));
    }
  }

  lemma {:induction false} InsertionsDigits(adapt: Adaptation, s: seq<nat>, n: nat, i: nat, bias: int,
                                            output: seq<nat>)
    requires ReadInsertions(adapt, s, n, i, bias, output).Ok?
    ensures forall k | 0 <= k < |s| :: BasicToDigit(s[k]) < 36
    decreases |s|
  {
    hide ReadInteger, Quot, Rem, Insert, BasicToDigit;
    if s != [] {
      IntegerDigits(s, BASE, i, 1, bias);
      var integer := ReadInteger(s, BASE, i, 1, bias);
      var points := |output| + 1;
      var n', at := n + Quot(integer.i, points), Rem(integer.i, points);
      InsertionsDigits(adapt, integer.rest, n', at + 1, adapt(integer.i - i, points, i == 0), Insert(output, at, n'));
      var used := |s| - |integer.rest|;
      assert forall k | used <= k < |s| :: s[k] == integer.rest[k - used];
    }
  }

  lemma {:induction false} IntegerDigits(s: seq<nat>, k: int, i: nat, w: nat, bias: int)
    requires ReadInteger(s, k, i, w, bias).Integer?
    ensures var rest := ReadInteger(s, k, i, w, bias).rest;
            && |rest| < |s| && rest == s[|s| - |rest|..]
            && forall j | 0 <= j < |s| - |rest| :: BasicToDigit(s[j]) < 36
    decreases |s|
  {
    hide Times, Threshold, BasicToDigit;
    var digit, t := BasicToDigit(s[0]), Threshold(k, bias);
    if digit >= t {
      IntegerDigits(s[1..], k + BASE, i + Times(digit, w), Times(w, BASE - t), bias);
    }
  }

  // ----- labels and host names

  /** "xn--" */
  const ACE_PREFIX: seq<nat> := [0x78, 0x6e, 0x2d, 0x2d]

  function Lower(c: nat): (l: nat)
  {
    if 0x41 <= c < 0x5b then c + 0x20 else c
  }

  predicate IsAce(name: seq<nat>)
  {
    && |name| >= 4
    && Lower(name[0]) == 0x78 && Lower(name[1]) == 0x6e && name[2] == 0x2d && name[3] == 0x2d
  }

  /** A name is an ACE name exactly when it begins with "xn--", in either case. */
  lemma {:induction false} AcePrefix(prefix: seq<nat>, rest: seq<nat>)
    requires |prefix| == 4
    ensures IsAce(prefix + rest) <==> SameLetters(prefix, [0x78, 0x6e, 0x2d, 0x2d])
  {
    var name := prefix + rest;
    assert forall k | 0 <= k < 4 :: name[k] == prefix[k];
  }

  function ToUtf16(points: seq<nat>): (units: seq<nat>)
  {
    if points == [] then []
    else
      (if points[0] < 0x10000 then [points[0]]
       else [0xD800 + (points[0] - 0x10000) / 0x400, 0xDC00 + (points[0] - 0x10000) % 0x400])
      + ToUtf16(points[1..])
  }

  /** UTF-16 read as section 2.2 of RFC 2781 says. */
  function FromUtf16(units: seq<nat>): (points: seq<nat>)
  {
    if units == [] then []
    else if |units| >= 2 && 0xD800 <= units[0] <= 0xDBFF && 0xDC00 <= units[1] <= 0xDFFF then
      [0x10000 + (units[0] - 0xD800) * 0x400 + (units[1] - 0xDC00)] + FromUtf16(units[2..])
    else [units[0]] + FromUtf16(units[1..])
  }

  /** The code units of code points outside the surrogate range read back as those. */
  lemma {:induction false} Utf16RoundTrip(points: seq<nat>)
    requires forall c | c in points :: c <= 0x10FFFF && !(0xD800 <= c <= 0xDFFF)
    ensures FromUtf16(ToUtf16(points)) == points
  {
    if points != [] {
      assert forall c | c in points[1..] :: c in points;
      Utf16RoundTrip(points[1..]);
      var c, rest := points[0], ToUtf16(points[1..]);
      assert c in points;
      var units := ToUtf16(points);
      assert points == [c] + points[1..];
      if c < 0x10000 {
        assert units == [c] + rest && units[1..] == rest;
      } else {
        var high, low := 0xD800 + (c - 0x10000) / 0x400, 0xDC00 + (c - 0x10000) % 0x400;
        assert units == [high, low] + rest && units[2..] == rest;
      }
    }
  }

  /** A label that is not an ACE name, or does not decode, is shown as it is. */
  function DecodeLabel(name: seq<nat>): (r: seq<nat>)
  {
    if !IsAce(name) then name
    else
      match Decoded(name[4..])
      case Ok(points) => ToUtf16(points)
      case Err(_) => name
  }

  /** A label that is no ACE label, or has something else than letters and digits behind its last delimiter, stays. */
  lemma {:induction false} OddLabelStays(name: seq<nat>)
    requires |name| < 4 || !SameLetters(name[..4], [0x78, 0x6e, 0x2d, 0x2d]) || !AllDigits(name[4..])
    ensures DecodeLabel(name) == name
  {
    hide Decoded, IsAce, SameLetters;
    if |name| >= 4 {
      assert name[..4] + name[4..] == name;
      AcePrefix(name[..4], name[4..]);
    } else {
      ShortName(name);
    }
    if IsAce(name) && Decoded(name[4..]).Ok? {
      DecodedDigits(name[4..]);
    }
  }

  lemma {:induction false} ShortName(name: seq<nat>)
    requires |name| < 4
    ensures !IsAce(name)
  {
  }

  function DecodeLabels(labels: seq<seq<nat>>): (r: seq<seq<nat>>)
    ensures |r| == |labels|
  {
    if labels == [] then [] else [DecodeLabel(labels[0])] + DecodeLabels(labels[1..])
  }

  function DecodeIDN(hostname: seq<nat>): (r: seq<nat>)
  {
    Join(DecodeLabels(Split(hostname, DOT)), DOT)
  }

  predicate AllBasic(name: seq<nat>)
  {
    forall k | 0 <= k < |name| :: name[k] < 0x80
  }

  /** A label as it is registered: basic ones as they are, others in their ACE form. */
  function EncodeLabel(name: seq<nat>): (r: seq<nat>)
  {
    if AllBasic(name) then name else ACE_PREFIX + R.Encode(name)
  }

  /** What can be a label of an internationalised name. */
  ghost predicate LabelOk(name: seq<nat>)
  {
    Encodable(name) && DOT !in name && !(AllBasic(name) && IsAce(name))
  }

  lemma {:induction false} BasicUtf16(name: seq<nat>)
    requires AllBasic(name)
    ensures ToUtf16(name) == name
  {
    if name != [] {
      BasicUtf16(name[1..]);
      assert name == [name[0]] + name[1..];
    }
  }

  lemma {:induction false} LabelRoundTrip(name: seq<nat>)
    requires LabelOk(name)
    ensures DecodeLabel(EncodeLabel(name)) == ToUtf16(name)
  {
    hide R.Encode, Decoded, ToUtf16;
    if AllBasic(name) {
      BasicUtf16(name);
    } else {
      var ace := ACE_PREFIX + R.Encode(name);
      assert ace[4..] == R.Encode(name);
      PunycodeRoundTrip(name);
    }
  }

  lemma {:induction false} BasicsNoDot(input: seq<nat>, upto: nat)
    requires upto <= |input| && DOT !in input
    ensures DOT !in R.Basics(input, upto)
  {
    if upto > 0 {
      BasicsNoDot(input, upto - 1);
    }
  }

  lemma {:induction false} EncodeLabelNoDot(name: seq<nat>)
    requires DOT !in name
    ensures DOT !in EncodeLabel(name)
  {
    hide R.EncodeFrom, R.Basics, WriteDeltas, DeltasFrom;
    var b := |R.Basics(name, |name|)|;
    R.BasicsCount(name, |name|);
    BasicsNoDot(name, |name|);
    EncodeWrites(name, 0x80, 0, 72, b, b);
    WriteDeltasDigits(DeltasFrom(name, 0x80, 0, b), b + 1, true, 72);
    assert DOT !in R.EncodeFrom(name, 0x80, 0, 72, b, b);
  }

  ghost function EncodeAll(labels: seq<seq<nat>>): (r: seq<seq<nat>>)
    ensures |r| == |labels|
  {
    if labels == [] then [] else [EncodeLabel(labels[0])] + EncodeAll(labels[1..])
  }

  ghost function AllUtf16(labels: seq<seq<nat>>): (r: seq<seq<nat>>)
  {
    if labels == [] then [] else [ToUtf16(labels[0])] + AllUtf16(labels[1..])
  }

  lemma {:induction false} LabelsRoundTrip(labels: seq<seq<nat>>)
    requires forall k | 0 <= k < |labels| :: LabelOk(labels[k])
    ensures DecodeLabels(EncodeAll(labels)) == AllUtf16(labels)
    ensures forall l | l in EncodeAll(labels) :: DOT !in l
  {
    hide EncodeLabel, DecodeLabel, ToUtf16;
    if labels != [] {
      var first, rest := EncodeLabel(labels[0]), EncodeAll(labels[1..]);
      LabelRoundTrip(labels[0]);
      EncodeLabelNoDot(labels[0]);
      LabelsRoundTrip(labels[1..]);
      assert ([first] + rest)[1..] == rest;
    }
  }

  /** Every internationalised host name is shown as it was before its labels were encoded. */
  lemma {:induction false} HostNameRoundTrip(labels: seq<seq<nat>>)
    requires |labels| >= 1 && forall k | 0 <= k < |labels| :: LabelOk(labels[k])
    ensures DecodeIDN(Join(EncodeAll(labels), DOT)) == Join(AllUtf16(labels), DOT)
  {
    hide Split, Join, DecodeLabels, EncodeAll, AllUtf16, LabelOk;
    LabelsRoundTrip(labels);
    SplitJoin(EncodeAll(labels), DOT);
  }
}
