/** ASCII character classes, Go string order and decimal digit runs of any length. */
module Digits {

  predicate IsDigit(c: char) { '0' <= c <= '9' }

  predicate IsLetter(c: char) { 'a' <= c <= 'z' || 'A' <= c <= 'Z' }

  predicate AllDigits(s: string) { forall i | 0 <= i < |s| :: IsDigit(s[i]) }

  /** Go's `<` and `>` on strings, as a sign: bytewise, a proper prefix is smaller. */
  function CompareStrings(l: string, r: string): int {
    if l == [] && r == [] then 0
    else if l == [] then -1
    else if r == [] then 1
    else if l[0] < r[0] then -1
    else if l[0] > r[0] then 1
    else CompareStrings(l[1..], r[1..])
  }

  lemma {:induction false} CompareStringsAntisymmetric(l: string, r: string)
    ensures CompareStrings(l, r) == -CompareStrings(r, l)
    ensures CompareStrings(l, r) == 0 <==> l == r
    ensures -1 <= CompareStrings(l, r) <= 1
  {
    if l != [] && r != [] && l[0] == r[0] {
      CompareStringsAntisymmetric(l[1..], r[1..]);
      assert l == [l[0]] + l[1..] && r == [r[0]] + r[1..];
    }
  }

  /** The first difference is at `i`: there `l` ends, or has the smaller byte. */
  ghost predicate StringBeforeAt(l: string, r: string, i: nat) {
    i <= |l| && i < |r| && l[..i] == r[..i] && (i == |l| || l[i] < r[i])
  }

  ghost predicate StringBefore(l: string, r: string) {
    exists i: nat :: StringBeforeAt(l, r, i)
  }

  lemma {:induction false} CompareStringsMeaning(l: string, r: string)
    ensures CompareStrings(l, r) < 0 <==> StringBefore(l, r)
  {
    if l == [] || r == [] || l[0] != r[0] {
      if r != [] && (l == [] || l[0] < r[0]) { assert StringBeforeAt(l, r, 0); }
    } else {
      CompareStringsMeaning(l[1..], r[1..]);
      StringBeforeTail(l, r);
    }
  }

  lemma StringBeforeTail(l: string, r: string)
    requires l != [] && r != [] && l[0] == r[0]
    ensures StringBefore(l, r) <==> StringBefore(l[1..], r[1..])
  {
    if StringBefore(l, r) {
      var i: nat :| StringBeforeAt(l, r, i);
      assert l[1..][..i - 1] == l[..i][1..] && r[1..][..i - 1] == r[..i][1..];
      assert StringBeforeAt(l[1..], r[1..], i - 1);
    }
    if StringBefore(l[1..], r[1..]) {
      var i: nat :| StringBeforeAt(l[1..], r[1..], i);
      assert l[..i + 1] == [l[0]] + l[1..][..i] && r[..i + 1] == [r[0]] + r[1..][..i];
      assert StringBeforeAt(l, r, i + 1);
    }
  }

  lemma {:induction false} CompareStringsTransitive(l: string, m: string, r: string)
    requires CompareStrings(l, m) <= 0 && CompareStrings(m, r) <= 0
    ensures CompareStrings(l, r) <= 0
  {
    if l != [] && m != [] && r != [] && l[0] == m[0] == r[0] {
      CompareStringsTransitive(l[1..], m[1..], r[1..]);
    }
  }

  function DigitValue(c: char): nat
    requires IsDigit(c)
  {
    c as nat - '0' as nat
  }

  /** The unbounded number written by a digit run; the empty run is zero. */
  function Value(s: string): nat
    requires AllDigits(s)
  {
    if s == [] then 0 else 10 * Value(s[..|s| - 1]) + DigitValue(s[|s| - 1])
  }

  /** strings.TrimLeft(s, "0"). */
  function TrimZeros(s: string): string {
    if s != [] && s[0] == '0' then TrimZeros(s[1..]) else s
  }

  /** The comparison of two digit runs shared by both version orders: trim, length, bytes. */
  function CompareDigitRuns(l: string, r: string): int {
    var left, right := TrimZeros(l), TrimZeros(r);
    if |left| < |right| then -1
    else if |left| > |right| then 1
    else CompareStrings(left, right)
  }

  lemma {:induction false} ValueCons(s: string)
    requires AllDigits(s) && s != [] && s[0] == '0'
    ensures Value(s[1..]) == Value(s)
  {
    var init := s[..|s| - 1];
    if |s| > 1 {
      ValueCons(init);
      assert init[1..] == s[1..][..|s| - 2];
    }
  }

  lemma {:induction false} TrimZerosValue(s: string)
    requires AllDigits(s)
    ensures AllDigits(TrimZeros(s)) && Value(TrimZeros(s)) == Value(s)
    ensures TrimZeros(s) != [] ==> TrimZeros(s)[0] != '0'
  {
    if s != [] && s[0] == '0' {
      ValueCons(s);
      TrimZerosValue(s[1..]);
    }
  }

  lemma {:induction false} PositiveValue(s: string)
    requires AllDigits(s) && s != [] && s[0] != '0'
    ensures Value(s) > 0
  {
    if |s| > 1 { PositiveValue(s[..|s| - 1]); }
  }

  lemma {:induction false} ShorterIsSmaller(l: string, r: string)
    requires AllDigits(l) && AllDigits(r) && |l| < |r| && r[0] != '0'
    ensures Value(l) < Value(r)
  {
    if l == [] {
      PositiveValue(r);
    } else {
      ShorterIsSmaller(l[..|l| - 1], r[..|r| - 1]);
    }
  }

  lemma {:induction false} CompareSnoc(l: string, r: string, a: char, b: char)
    requires |l| == |r|
    ensures CompareStrings(l + [a], r + [b]) ==
            if CompareStrings(l, r) != 0 then CompareStrings(l, r) else if a < b then -1 else if a > b then 1 else 0
  {
    if l != [] {
      assert (l + [a])[1..] == l[1..] + [a] && (r + [b])[1..] == r[1..] + [b];
      CompareSnoc(l[1..], r[1..], a, b);
    }
  }

  lemma {:induction false} SameLengthByValue(l: string, r: string)
    requires AllDigits(l) && AllDigits(r) && |l| == |r|
    ensures CompareStrings(l, r) == if Value(l) < Value(r) then -1 else if Value(l) > Value(r) then 1 else 0
  {
    if l != [] {
      var n := |l| - 1;
      SameLengthByValue(l[..n], r[..n]);
      CompareSnoc(l[..n], r[..n], l[n], r[n]);
      assert l == l[..n] + [l[n]] && r == r[..n] + [r[n]];
    }
  }

  /** Digit runs compare as the unbounded numbers they write. */
  lemma DigitRunsByValue(l: string, r: string)
    requires AllDigits(l) && AllDigits(r)
    ensures CompareDigitRuns(l, r) == if Value(l) < Value(r) then -1 else if Value(l) > Value(r) then 1 else 0
  {
    var left, right := TrimZeros(l), TrimZeros(r);
    TrimZerosValue(l);
    TrimZerosValue(r);
    if |left| < |right| {
      ShorterIsSmaller(left, right);
    } else if |left| > |right| {
      ShorterIsSmaller(right, left);
    } else {
      SameLengthByValue(left, right);
    }
  }
}
