/** Decimal numbers as bytes: writing them, and reading them the way safe_strtoull does. */
module Decimal {
  import opened Bytes
  import opened Options

  const TWO64: nat := 0x1_0000_0000_0000_0000
  const TWO63: nat := 0x8000_0000_0000_0000

  const SPACE: byte := 32
  const CR: byte := 13
  const LF: byte := 10
  const MINUS: byte := 45
  const PLUS: byte := 43

  const CRLF: seq<byte> := [CR, LF]

  predicate IsDigit(b: byte) { 48 <= b <= 57 }

  predicate IsSpace(b: byte) { b == 32 || 9 <= b <= 13 }

  predicate AllDigits(s: seq<byte>) {
    forall i :: 0 <= i < |s| ==> IsDigit(s[i])
  }

  /** The decimal digits of v. */
  function Itoa(v: nat): (s: seq<byte>)
    ensures s != [] && AllDigits(s)
  {
    if v < 10 then [48 + v] else Itoa(v / 10) + [48 + v % 10]
  }

  /** The number that a string of digits stands for. */
  function Value(s: seq<byte>): nat
    requires AllDigits(s)
  {
    if s == [] then 0 else Value(s[..|s| - 1]) * 10 + (s[|s| - 1] - 48)
  }

  lemma {:induction false} ValueOfItoa(v: nat)
    ensures Value(Itoa(v)) == v
  {
    if v >= 10 {
      ValueOfItoa(v / 10);
      assert Itoa(v)[..|Itoa(v)| - 1] == Itoa(v / 10);
    }
  }

  /** The digits stand in the usual order: another digit behind a number is ten times the number, and the digit. */
  lemma DigitBehind(v: nat, d: nat, s: seq<byte>)
    requires d < 10 && AllDigits(s)
    ensures Itoa(10 * v + d) == (if v == 0 then [] else Itoa(v)) + [48 + d]
    ensures AllDigits(s + [48 + d]) && Value(s + [48 + d]) == 10 * Value(s) + d
  {
    assert (s + [48 + d])[..|s|] == s;
  }

  /** 10 to the n. */
  function Pow10(n: nat): nat {
    if n == 0 then 1 else 10 * Pow10(n - 1)
  }

  lemma {:induction false} ItoaLength(v: nat, n: nat)
    requires n > 0 && v < Pow10(n)
    ensures |Itoa(v)| <= n
  {
    if v >= 10 {
      assert n > 1 && v / 10 < Pow10(n - 1);
      ItoaLength(v / 10, n - 1);
    }
  }

  /** A 64-bit number has at most 20 digits. */
  lemma ItoaFits(v: nat)
    requires v < TWO64
    ensures |Itoa(v)| <= 20
  {
    assert Pow10(20) == 100 * Pow10(18) == 100_000_000_000_000_000_000 by {
      assert Pow10(18) == 1_000_000 * Pow10(12) && Pow10(12) == 1_000_000 * Pow10(6);
    }
    ItoaLength(v, 20);
  }

  /** The first position at or after i that holds no white space. */
  function SkipSpaces(s: seq<byte>, i: nat): (j: nat)
    requires i <= |s|
    ensures i <= j <= |s|
    decreases |s| - i
  {
    if i < |s| && IsSpace(s[i]) then SkipSpaces(s, i + 1) else i
  }

  /** The first position at or after i that holds no digit. */
  function SkipDigits(s: seq<byte>, i: nat): (j: nat)
    requires i <= |s|
    ensures i <= j <= |s| && AllDigits(s[i..j])
    ensures j < |s| ==> !IsDigit(s[j])
    decreases |s| - i
  {
    if i < |s| && IsDigit(s[i]) then
      var j := SkipDigits(s, i + 1);
      assert s[i..j] == [s[i]] + s[i + 1..j];
      j
    else i
  }

  predicate NoNul(s: seq<byte>) { 0 !in s }

  /** The string that begins where s begins: everything before the first NUL. */
  function CString(s: seq<byte>): (t: seq<byte>)
    ensures NoNul(t) && t <= s
  {
    if s == [] || s[0] == 0 then [] else [s[0]] + CString(s[1..])
  }

  /** What stands behind a NUL is not part of the string. */
  lemma CStringEnds(a: seq<byte>, b: seq<byte>)
    requires forall i :: 0 <= i < |a| ==> a[i] != 0
    ensures CString(a) == a && CString(a + [0] + b) == a
  {
    CStringConcat(a, [0] + b);
    CStringConcat(a, []);
    assert a + ([0] + b) == a + [0] + b && a + [] == a;
  }

  lemma {:induction false} CStringConcat(a: seq<byte>, b: seq<byte>)
    requires NoNul(a)
    ensures CString(a + b) == a + CString(b)
  {
    if a == [] {
      assert a + b == b;
    } else {
      assert (a + b)[1..] == a[1..] + b;
      CStringConcat(a[1..], b);
    }
  }

  /** safe_strtoull on a string, given without its NUL: strtoull with a base of 10, which accepts
      white space and a sign first, then the checks of what follows the digits and of negative input. */
  function StrToULL(s: seq<byte>): (r: Option<nat>)
    ensures r.Some? ==> r.value < TWO64
  {
    var i := SkipSpaces(s, 0);
    var negative := i < |s| && s[i] == MINUS;
    var start := if i < |s| && (s[i] == MINUS || s[i] == PLUS) then i + 1 else i;
    var end := SkipDigits(s, start);
    if start == end then None
    else
      var v := Value(s[start..end]);
      if v >= TWO64 then None
      else if end < |s| && !IsSpace(s[end]) then None
      else
        var ull := if negative then (TWO64 - v) % TWO64 else v;
        if ull >= TWO63 && MINUS in s then None else Some(ull)
  }

  /** s is made of white space, a sign or none, digits, and white space or nothing behind them. */
  predicate Splits(s: seq<byte>, spaces: seq<byte>, sign: seq<byte>, digits: seq<byte>, rest: seq<byte>) {
    && s == spaces + sign + digits + rest
    && (forall i :: 0 <= i < |spaces| ==> spaces[i] in {9, 10, 11, 12, 13, 32})
    && sign in {[], [MINUS], [PLUS]} && digits != [] && AllDigits(digits)
    && (rest == [] || rest[0] in {9, 10, 11, 12, 13, 32})
  }

  lemma {:induction false} SkipSpacesTo(s: seq<byte>, i: nat, j: nat)
    requires i <= j <= |s| && (forall k :: i <= k < j ==> IsSpace(s[k])) && (j < |s| ==> !IsSpace(s[j]))
    ensures SkipSpaces(s, i) == j
    decreases j - i
  {
    if i < j { SkipSpacesTo(s, i + 1, j); }
  }

  lemma {:induction false} SpacesSkipped(s: seq<byte>, i: nat)
    requires i <= |s|
    ensures forall k :: i <= k < SkipSpaces(s, i) ==> IsSpace(s[k])
    decreases |s| - i
  {
    if i < |s| && IsSpace(s[i]) { SpacesSkipped(s, i + 1); }
  }

  /** Where the sign and the digits of such a string are. */
  lemma SplitPlaces(s: seq<byte>, spaces: seq<byte>, sign: seq<byte>, digits: seq<byte>, rest: seq<byte>)
    requires Splits(s, spaces, sign, digits, rest)
    ensures var i := SkipSpaces(s, 0);
      var start := if i < |s| && (s[i] == MINUS || s[i] == PLUS) then i + 1 else i;
      var end := SkipDigits(s, start);
      && i == |spaces| && start == i + |sign| && end == start + |digits|
      && s[start..end] == digits && s[end..] == rest && (sign == [MINUS] <==> i < |s| && s[i] == MINUS)
  {
    var i := |spaces|;
    var start := i + |sign|;
    var end := start + |digits|;
    assert forall k :: 0 <= k < i ==> s[k] == spaces[k];
    assert sign != [] ==> s[i] == sign[0];
    assert s[start] == digits[0] && IsDigit(digits[0]);
    SkipSpacesTo(s, 0, i);
    assert s[start..end] == digits;
    assert s[end..] == rest;
    assert end < |s| ==> s[end] == rest[0];
    SkipDigitsTo(s, start, end);
  }

  /** The number that safe_strtoull makes of a string, by its parts: with a minus sign it counts from 2^64
      downwards.  It must have 64 bits, and from 2^63 on there must not be a minus sign anywhere. */
  lemma StrToULLAccepts(s: seq<byte>, spaces: seq<byte>, sign: seq<byte>, digits: seq<byte>, rest: seq<byte>)
    requires Splits(s, spaces, sign, digits, rest)
    ensures var n := Value(digits);
      var v := if sign == [MINUS] && n > 0 then TWO64 - n else n;
      StrToULL(s) == if n < TWO64 && (v < TWO63 || MINUS !in s) then Some(v) else None
  {
    SplitPlaces(s, spaces, sign, digits, rest);
  }

  /** Nothing else is taken for a number. */
  lemma StrToULLSplits(s: seq<byte>)
    returns (spaces: seq<byte>, sign: seq<byte>, digits: seq<byte>, rest: seq<byte>)
    requires StrToULL(s).Some?
    ensures Splits(s, spaces, sign, digits, rest)
  {
    var i := SkipSpaces(s, 0);
    var start := if i < |s| && (s[i] == MINUS || s[i] == PLUS) then i + 1 else i;
    var end := SkipDigits(s, start);
    SpacesSkipped(s, 0);
    spaces, sign, digits, rest := s[..i], s[i..start], s[start..end], s[end..];
    NumberParts(s, i, start, end);
  }

  lemma NumberParts(s: seq<byte>, i: nat, start: nat, end: nat)
    requires i <= start < end <= |s| && (forall k :: 0 <= k < i ==> IsSpace(s[k]))
    requires start == i || (start == i + 1 && s[i] in {MINUS, PLUS})
    requires AllDigits(s[start..end]) && (end < |s| ==> IsSpace(s[end]))
    ensures Splits(s, s[..i], s[i..start], s[start..end], s[end..])
  {
    assert s[..i] + s[i..start] == s[..start];
    assert s[..start] + s[start..end] == s[..end];
    assert s[..end] + s[end..] == s;
    assert start > i ==> s[i..start] == [s[i]];
    assert end < |s| ==> s[end..][0] == s[end];
  }

  lemma {:induction false} SkipDigitsTo(s: seq<byte>, i: nat, j: nat)
    requires i <= j <= |s| && AllDigits(s[i..j]) && (j < |s| ==> !IsDigit(s[j]))
    ensures SkipDigits(s, i) == j
    decreases j - i
  {
    if i < j {
      assert s[i] == s[i..j][0];
      assert s[i + 1..j] == s[i..j][1..];
      SkipDigitsTo(s, i + 1, j);
    }
  }

  /** A number followed by white space reads back, whatever comes after that, unless it is 2^63 or more
      and there is a minus sign further on in memory: the check for negative input looks for one there. */
  lemma ReadBack(v: nat, rest: seq<byte>)
    requires v < TWO64 && rest != [] && IsSpace(rest[0])
    ensures StrToULL(Itoa(v) + rest) == if v >= TWO63 && MINUS in rest then None else Some(v)
  {
    var d := Itoa(v);
    var s := d + rest;
    assert s[0] == d[0] && SkipSpaces(s, 0) == 0;
    assert s[0..|d|] == d;
    SkipDigitsTo(s, 0, |d|);
    ValueOfItoa(v);
    assert MINUS in s <==> MINUS in rest by {
      if MINUS in d { assert false; }
      if MINUS in rest { var k :| 0 <= k < |rest| && rest[k] == MINUS; assert s[|d| + k] == MINUS; }
    }
  }
}
