/**
 Choosing a UID for a session account: which UIDs the passwd file takes, and the
 first free one of the reserved range.
 */
module Uids {
  import opened Wrappers
  import opened Text
  import opened HostFiles

  const UID_MIN: nat := 60000
  const UID_MAX: nat := 65000
  const ULONG: nat := 0x1_0000_0000_0000_0000

  // ----- decimal numbers

  predicate IsDigit(c: char)
  {
    '0' <= c <= '9'
  }

  function Digit(n: nat): (c: char)
    requires n < 10
    ensures IsDigit(c) && (c - '0') as int == n
  {
    '0' + n as char
  }

  /** `%u` */
  function Decimal(n: nat): (s: string)
    ensures |s| > 0
  {
    if n < 10 then [Digit(n)] else Decimal(n / 10) + [Digit(n % 10)]
  }

  /** The value of the digits that `s` begins with, behind `acc`. */
  function Leading(s: string, acc: nat): (n: nat)
  {
    if s != "" && IsDigit(s[0]) then Leading(s[1..], acc * 10 + (s[0] - '0') as int) else acc
  }

  predicate IsSpace(c: char)
  {
    c == ' ' || (9 as char) <= c <= (13 as char)
  }

  function SkipSpace(s: string): (r: string)
  {
    if s != "" && IsSpace(s[0]) then SkipSpace(s[1..]) else s
  }

  /** `strtoul` in base ten: nothing without digits or on overflow; a minus sign wraps around. */
  function Strtoul(s: string): (r: Option<nat>)
  {
    var t := SkipSpace(s);
    var signed := t != "" && (t[0] == '+' || t[0] == '-');
    var digits := if signed then t[1..] else t;
    if digits == "" || !IsDigit(digits[0]) then None
    else
      var n := Leading(digits, 0);
      if n >= ULONG then None
      else if signed && t[0] == '-' then Some((ULONG - n) % ULONG)
      else Some(n)
  }

  lemma {:induction false} LeadingAppend(a: string, b: string, acc: nat)
    requires forall k | 0 <= k < |a| :: IsDigit(a[k])
    ensures Leading(a + b, acc) == Leading(b, Leading(a, acc))
    decreases |a|
  {
    if a == "" {
      assert a + b == b;
    } else {
      assert (a + b)[1..] == a[1..] + b;
      LeadingAppend(a[1..], b, acc * 10 + (a[0] - '0') as int);
    }
  }

  lemma {:induction false} DecimalDigits(n: nat)
    ensures forall k | 0 <= k < |Decimal(n)| :: IsDigit(Decimal(n)[k])
    ensures Leading(Decimal(n), 0) == n
  {
    if n < 10 {
      assert [Digit(n)][1..] == [];
    } else {
      DecimalDigits(n / 10);
      LeadingAppend(Decimal(n / 10), [Digit(n % 10)], 0);
      assert [Digit(n % 10)][1..] == [];
    }
  }

  /** Reading undoes printing. */
  lemma {:induction false} StrtoulDecimal(n: nat)
    requires n < ULONG
    ensures Strtoul(Decimal(n)) == Some(n)
  {
    hide Decimal, Leading;
    DecimalDigits(n);
    assert IsDigit(Decimal(n)[0]);
  }

  /** The number that a row of digits spells. */
  function Number(digits: string): (n: nat)
    requires forall k | 0 <= k < |digits| :: '0' <= digits[k] <= '9'
  {
    if digits == "" then 0 else 10 * Number(digits[..|digits| - 1]) + (digits[|digits| - 1] as int - '0' as int)
  }

  lemma {:induction false} LeadingNumber(digits: string, i: nat, rest: string)
    requires (forall k | 0 <= k < |digits| :: '0' <= digits[k] <= '9') && i <= |digits|
    requires rest == "" || !('0' <= rest[0] <= '9')
    ensures Leading(digits[i..] + rest, Number(digits[..i])) == Number(digits)
    decreases |digits| - i
  {
    if i == |digits| {
      assert digits[i..] + rest == rest && digits[..i] == digits;
    } else {
      var s := digits[i..] + rest;
      assert s[0] == digits[i] && s[1..] == digits[i + 1..] + rest;
      assert digits[..i + 1][..i] == digits[..i];
      LeadingNumber(digits, i + 1, rest);
    }
  }

  lemma {:induction false} SkipsWhite(white: string, s: string)
    requires (forall c | c in white :: c == ' ' || 9 <= c as int <= 13)
    requires s != "" && s[0] != ' ' && !(9 <= s[0] as int <= 13)
    ensures SkipSpace(white + s) == s
  {
    if white == "" {
      assert white + s == s;
    } else {
      assert (white + s)[1..] == white[1..] + s;
      assert white[0] in white && forall c | c in white[1..] :: c in white;
      SkipsWhite(white[1..], s);
    }
  }

  /** A number as `strtoul` reads it: after white space and a sign, up to the first character that is no digit. */
  lemma {:induction false} StrtoulExactly(white: string, sign: string, digits: string, rest: string)
    requires forall c | c in white :: c == ' ' || 9 <= c as int <= 13
    requires sign == "" || sign == "+" || sign == "-"
    requires digits != "" && forall k | 0 <= k < |digits| :: '0' <= digits[k] <= '9'
    requires rest == "" || !('0' <= rest[0] <= '9')
    ensures var n, all := Number(digits), 0x1_0000_0000_0000_0000;
            Strtoul(white + (sign + (digits + rest)))
            == if n >= all then None else if sign == "-" && n > 0 then Some(all - n) else Some(n)
  {
    hide SkipSpace, Leading, Number;
    var s := sign + (digits + rest);
    assert s[0] == if sign == "" then digits[0] else sign[0];
    SkipsWhite(white, s);
    assert sign == "" ==> s == digits + rest;
    assert sign != "" ==> s[1..] == digits + rest;
    assert (digits + rest)[0] == digits[0];
    LeadingNumber(digits, 0, rest);
    assert digits[0..] == digits && Number(digits[..0]) == 0 by { NumberNone(digits); }
  }

  lemma {:induction false} NumberNone(digits: string)
    ensures Number(digits[..0]) == 0
  {
  }

  /** Without a digit there it reads nothing. */
  lemma {:induction false} StrtoulNothing(white: string, sign: string, rest: string)
    requires forall c | c in white :: c == ' ' || 9 <= c as int <= 13
    requires sign == "+" || sign == "-" || (sign == "" && rest != "" && rest[0] !in {'+', '-', ' '})
    requires rest == "" || (!('0' <= rest[0] <= '9') && (sign == "" ==> !(9 <= rest[0] as int <= 13)))
    ensures Strtoul(white + (sign + rest)) == None
  {
    hide SkipSpace, Leading;
    var s := sign + rest;
    assert s[0] == if sign == "" then rest[0] else sign[0];
    SkipsWhite(white, s);
    assert sign == "" ==> s == rest;
    assert sign != "" ==> s[1..] == rest;
  }

  // ----- which UIDs are taken

  /** The UID of a passwd line: its third non-empty field. */
  function UidOf(l: string): (r: Option<nat>)
  {
    var f := NonEmpty(Split(l, COLON));
    if |f| < 3 then None else Strtoul(f[2])
  }

  /** Some line takes this UID. */
  predicate Takes(ls: seq<string>, uid: nat)
  {
    exists k | 0 <= k < |ls| :: UidOf(ls[k]) == Some(uid)
  }

  /** The passwd file: there, missing, or not readable. */
  datatype Opened = Text(text: string) | NoEntry | Failing

  function FileLines(file: Opened): (r: seq<string>)
  {
    if file.Text? then Lines(file.text) else []
  }

  /** The first UID of the range that no line takes. */
  method FindFreeUid(file: Opened, low: nat, high: nat) returns (r: Option<nat>)
    ensures file.Failing? ==> r == None
    ensures r.Some? ==> low <= r.value <= high && !Takes(FileLines(file), r.value)
    ensures r.Some? ==> forall v | low <= v < r.value :: Takes(FileLines(file), v)
    ensures r.None? && !file.Failing? ==> forall v | low <= v <= high :: Takes(FileLines(file), v)
  {
    hide UidOf, FileLines, Takes;
    if high < low || file.Failing? {
      return None;
    }
    var range := high - low + 1;
    var used := new bool[range](_ => false);
    var ls := FileLines(file);
    var n := 0;
    TakesNone(ls);
    while n < |ls|
      invariant 0 <= n <= |ls|
      invariant forall i | 0 <= i < range :: used[i] == Takes(ls[..n], low + i)
    {
      TakesSnoc(ls, n);
      var v := UidOf(ls[n]);
      if v.Some? && low <= v.value <= high {
        used[v.value - low] := true;
      }
      n := n + 1;
    }
    assert ls[..|ls|] == ls;
    var i := 0;
    while i < range
      invariant 0 <= i <= range
      invariant forall j | 0 <= j < range :: used[j] == Takes(ls, low + j)
      invariant forall v | low <= v < low + i :: Takes(ls, v)
    {
      if !used[i] {
        return Some(low + i);
      }
      i := i + 1;
    }
    return None;
  }

  lemma {:induction false} TakesNone(ls: seq<string>)
    ensures forall v: nat :: !Takes(ls[..0], v)
  {
  }

  lemma {:induction false} TakesSnoc(ls: seq<string>, n: nat)
    requires n < |ls|
    ensures forall v: nat :: Takes(ls[..n + 1], v) <==> Takes(ls[..n], v) || UidOf(ls[n]) == Some(v)
  {
    hide UidOf;
    var longer := ls[..n + 1];
    assert longer == ls[..n] + [ls[n]];
    forall v: nat ensures Takes(longer, v) <==> Takes(ls[..n], v) || UidOf(ls[n]) == Some(v) {
      if Takes(ls[..n], v) {
        var k :| 0 <= k < n && UidOf(ls[..n][k]) == Some(v);
        assert longer[k] == ls[..n][k];
      }
      if UidOf(ls[n]) == Some(v) {
        assert longer[n] == ls[n];
      }
      if Takes(longer, v) {
        var k :| 0 <= k < |longer| && UidOf(longer[k]) == Some(v);
        assert k < n ==> ls[..n][k] == longer[k];
      }
    }
  }
}
