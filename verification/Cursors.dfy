// Stream cursors are canonical decimal text. Three orders meet on them: the protocol's
// comparator, the length-then-text predicate of the SQL queries, and big integers. This module
// proves that they are one order, so every other module may number cursors with `nat`.
module Cursors {
  import opened Wrappers

  datatype CursorError = NotCanonical

  predicate IsDigit(c: char) {
    '0' <= c <= '9'
  }

  predicate AllDigits(s: string) {
    forall i :: 0 <= i < |s| ==> IsDigit(s[i])
  }

  // The pattern ^(0|[1-9][0-9]*)$.
  predicate Canonical(s: string) {
    |s| > 0 && AllDigits(s) && (s[0] == '0' ==> |s| == 1)
  }

  function DigitValue(c: char): nat
    requires IsDigit(c)
  {
    (c as int) - ('0' as int)
  }

  function DigitChar(d: nat): char
    requires d < 10
  {
    (('0' as int) + d) as char
  }

  // BigInt(text).
  function Parse(s: string): nat
    requires AllDigits(s)
  {
    if |s| == 0 then 0 else Parse(s[..|s| - 1]) * 10 + DigitValue(s[|s| - 1])
  }

  // BigInt.prototype.toString().
  function Print(n: nat): string {
    if n < 10 then [DigitChar(n)] else Print(n / 10) + [DigitChar(n % 10)]
  }

  // The order of `<` on strings in the program and on text columns in its SQL.
  predicate TextLess(left: string, right: string) {
    |right| > 0
    && (|left| == 0
        || left[0] < right[0]
        || (left[0] == right[0] && TextLess(left[1..], right[1..])))
  }

  function CompareDecimalCursors(left: string, right: string): Result<int, CursorError> {
    if !Canonical(left) || !Canonical(right) then Err(NotCanonical)
    else if |left| == |right| then
      Ok(if left == right then 0 else if TextLess(left, right) then -1 else 1)
    else Ok(if |left| < |right| then -1 else 1)
  }

  // length(cursor)>length(?) OR (length(cursor)=length(?) AND cursor>?)
  predicate SqlAfter(cursor: string, bound: string) {
    |cursor| > |bound| || (|cursor| == |bound| && TextLess(bound, cursor))
  }

  // length(cursor)<length(?) OR (length(cursor)=length(?) AND cursor<=?)
  predicate SqlThrough(cursor: string, bound: string) {
    |cursor| < |bound| || (|cursor| == |bound| && (cursor == bound || TextLess(cursor, bound)))
  }

  // The cursor an append assigns: parse, add one, print.
  function NextCursor(current: string): string
    requires Canonical(current)
  {
    Print(Parse(current) + 1)
  }

  function Pow10(n: nat): nat {
    if n == 0 then 1 else 10 * Pow10(n - 1)
  }

  lemma {:induction false} Pow10Monotone(m: nat, n: nat)
    requires m <= n
    ensures 1 <= Pow10(m) <= Pow10(n)
    decreases n
  {
    if m < n {
      Pow10Monotone(m, n - 1);
    } else if n > 0 {
      Pow10Monotone(n - 1, n - 1);
    }
  }

  lemma {:induction false} ParseBounds(s: string)
    requires AllDigits(s)
    ensures Parse(s) < Pow10(|s|)
    ensures |s| > 0 && s[0] != '0' ==> Pow10(|s| - 1) <= Parse(s)
  {
    if |s| > 0 {
      ParseBounds(s[..|s| - 1]);
    }
  }

  lemma {:induction false} TextLessSnoc(a: string, x: char, b: string, y: char)
    requires |a| == |b|
    ensures TextLess(a + [x], b + [y]) <==> TextLess(a, b) || (a == b && x < y)
  {
    if |a| > 0 {
      assert (a + [x])[1..] == a[1..] + [x] && (b + [y])[1..] == b[1..] + [y];
      TextLessSnoc(a[1..], x, b[1..], y);
      assert a == [a[0]] + a[1..] && b == [b[0]] + b[1..];
    }
  }

  // Among digit strings of one length, text order is numeric order.
  lemma {:induction false} SameLengthOrder(l: string, r: string)
    requires |l| == |r| && AllDigits(l) && AllDigits(r)
    ensures TextLess(l, r) <==> Parse(l) < Parse(r)
    ensures l == r <==> Parse(l) == Parse(r)
  {
    if |l| > 0 {
      var n := |l| - 1;
      SameLengthOrder(l[..n], r[..n]);
      TextLessSnoc(l[..n], l[n], r[..n], r[n]);
      assert l == l[..n] + [l[n]] && r == r[..n] + [r[n]];
    }
  }

  // Among canonical strings, the longer one is the larger number.
  lemma LongerIsLarger(l: string, r: string)
    requires Canonical(l) && Canonical(r) && |l| < |r|
    ensures Parse(l) < Parse(r)
  {
    ParseBounds(l);
    ParseBounds(r);
    Pow10Monotone(|l|, |r| - 1);
  }

  // The comparator, both SQL predicates and big-integer comparison agree on canonical cursors.
  lemma OrdersAgree(l: string, r: string)
    requires Canonical(l) && Canonical(r)
    ensures CompareDecimalCursors(l, r)
         == Ok(if Parse(l) < Parse(r) then -1 else if Parse(l) == Parse(r) then 0 else 1)
    ensures SqlAfter(l, r) <==> Parse(l) > Parse(r)
    ensures SqlThrough(l, r) <==> Parse(l) <= Parse(r)
    ensures Parse(l) == Parse(r) <==> l == r
  {
    if |l| == |r| {
      SameLengthOrder(l, r);
      SameLengthOrder(r, l);
    } else if |l| < |r| {
      LongerIsLarger(l, r);
    } else {
      LongerIsLarger(r, l);
    }
  }

  lemma {:induction false} ParsePrint(n: nat)
    ensures Canonical(Print(n)) && Parse(Print(n)) == n
    ensures n > 0 ==> Print(n)[0] != '0'
  {
    if n >= 10 {
      ParsePrint(n / 10);
      var s := Print(n);
      assert s[..|s| - 1] == Print(n / 10);
    } else {
      assert Print(n)[..0] == "";
    }
  }

  lemma PrintParse(s: string)
    requires Canonical(s)
    ensures Print(Parse(s)) == s
  {
    ParsePrint(Parse(s));
    OrdersAgree(Print(Parse(s)), s);
  }

  // An append's cursor is canonical and is the immediate successor in the protocol's order.
  lemma NextCursorIsSuccessor(current: string, other: string)
    requires Canonical(current) && Canonical(other)
    ensures Canonical(NextCursor(current))
    ensures CompareDecimalCursors(current, NextCursor(current)) == Ok(-1)
    ensures CompareDecimalCursors(current, other) == Ok(-1)
        ==> CompareDecimalCursors(NextCursor(current), other) in {Ok(-1), Ok(0)}
  {
    ParsePrint(Parse(current) + 1);
    OrdersAgree(current, NextCursor(current));
    OrdersAgree(current, other);
    OrdersAgree(NextCursor(current), other);
  }
}
