/** Debian version comparison (matcher_debianver.go) and the order of section 5.6.12 of the Debian Policy Manual. */
module DebianVersion {
  import opened Digits
  import opened PaddedOrder

  /** Tilde sorts below the end of a part (weight 0), letters below everything else. */
  function Weight(c: char): (w: int)
    ensures w < 0 <==> c == '~'
    ensures w != 0
  {
    if c == '~' then -1 else if IsLetter(c) then c as int else c as int + 256
  }

  function Weights(s: string): seq<int> {
    seq(|s|, i requires 0 <= i < |s| => Weight(s[i]))
  }

  /** Length of the longest prefix of `s` whose characters are all digits, or all non-digits. */
  function Run(s: string, digits: bool): (n: nat)
    ensures n <= |s|
    ensures forall i | 0 <= i < n :: IsDigit(s[i]) == digits
    ensures n < |s| ==> IsDigit(s[n]) != digits
  {
    if s != [] && IsDigit(s[0]) == digits then 1 + Run(s[1..], digits) else 0
  }

  lemma RunMaximal(s: string, digits: bool, n: nat)
    requires n <= |s|
    requires forall i | 0 <= i < n :: IsDigit(s[i]) == digits
    requires n < |s| ==> IsDigit(s[n]) != digits
    ensures n == Run(s, digits)
  {
  }

  /** The non-digit part at the head of a string, the digit part after it, and what is left. */
  function LeadingText(s: string): string { s[..Run(s, false)] }

  function LeadingNumber(s: string): (d: string)
    ensures AllDigits(d)
  {
    var t := s[Run(s, false)..];
    t[..Run(t, true)]
  }

  function Rest(s: string): (r: string)
    ensures |r| + |LeadingText(s)| + |LeadingNumber(s)| == |s|
    ensures s != [] ==> |r| < |s|
    ensures s == LeadingText(s) + LeadingNumber(s) + r
  {
    var t := s[Run(s, false)..];
    t[Run(t, true)..]
  }

  /**
   * The sort key: for each non-digit part its weights and an end mark 0, then the value of the digit
   * part that follows. The padding zeros stand for the empty parts that follow the end of the string.
   */
  function Key(s: string): seq<int> {
    if s == [] then [] else Weights(LeadingText(s)) + [0] + ([Value(LeadingNumber(s))] + Key(Rest(s)))
  }

  function CompareChars(a: char, b: char): (c: int)
    ensures c == if Weight(a) < Weight(b) then -1 else if Weight(a) > Weight(b) then 1 else 0
    ensures c == 0 <==> a == b
  {
    if a == b then 0
    else if a == '~' then -1
    else if b == '~' then 1
    else if IsLetter(a) && !IsLetter(b) then -1
    else if !IsLetter(a) && IsLetter(b) then 1
    else if a < b then -1
    else 1
  }

  /** What the non-digit loop decides from two remaining parts. */
  function NonDigitOrder(l: string, r: string): int {
    if l == [] && r == [] then 0
    else if l == [] then if r[0] == '~' then 1 else -1
    else if r == [] then if l[0] == '~' then -1 else 1
    else if CompareChars(l[0], r[0]) != 0 then CompareChars(l[0], r[0])
    else NonDigitOrder(l[1..], r[1..])
  }

  method CompareNonDigit(left: string, right: string) returns (c: int)
    ensures c == NonDigitOrder(left, right)
  {
    var i, j := 0, 0;
    while i < |left| || j < |right|
      invariant i == j && i <= |left| && j <= |right|
      invariant NonDigitOrder(left, right) == NonDigitOrder(left[i..], right[j..])
      decreases |left| + |right| - i - j
    {
      if i >= |left| {
        if right[j] == '~' { return 1; }
        return -1;
      }
      if j >= |right| {
        if left[i] == '~' { return -1; }
        return 1;
      }
      var compared := CompareChars(left[i], right[j]);
      if compared != 0 { return compared; }
      assert left[i..][1..] == left[i + 1..] && right[j..][1..] == right[j + 1..];
      i, j := i + 1, j + 1;
    }
    return 0;
  }

  lemma {:induction false} NonDigitByWeights(l: string, r: string, k: seq<int>, m: seq<int>)
    ensures Compare(Weights(l) + [0] + k, Weights(r) + [0] + m) ==
            if NonDigitOrder(l, r) != 0 then NonDigitOrder(l, r) else Compare(k, m)
    ensures NonDigitOrder(l, r) == 0 <==> l == r
  {
    var lw, rw := Weights(l) + [0] + k, Weights(r) + [0] + m;
    if l == [] || r == [] {
      if l == [] && r == [] {
        assert lw == [0] + k && rw == [0] + m;
        CompareStep(0, 0, k, m);
      }
    } else {
      assert lw == [Weight(l[0])] + (Weights(l[1..]) + [0] + k);
      assert rw == [Weight(r[0])] + (Weights(r[1..]) + [0] + m);
      CompareStep(Weight(l[0]), Weight(r[0]), Weights(l[1..]) + [0] + k, Weights(r[1..]) + [0] + m);
      NonDigitByWeights(l[1..], r[1..], k, m);
      assert l == [l[0]] + l[1..] && r == [r[0]] + r[1..];
    }
  }

  lemma KeyUnfold(s: string)
    ensures SamePadded(Key(s), Weights(LeadingText(s)) + [0] + ([Value(LeadingNumber(s))] + Key(Rest(s))))
  {
    if s == [] {
      assert LeadingText(s) == [] && LeadingNumber(s) == [] && Rest(s) == [];
      assert Weights([]) + [0] + ([Value([])] + []) == [0, 0];
    }
  }

  /** One round of the main loop on keys. */
  lemma RoundOnKeys(l: string, r: string)
    ensures var text := NonDigitOrder(LeadingText(l), LeadingText(r));
            var number := CompareDigitRuns(LeadingNumber(l), LeadingNumber(r));
            Compare(Key(l), Key(r)) ==
            if text != 0 then text else if number != 0 then number else Compare(Key(Rest(l)), Key(Rest(r)))
  {
    var lp, rp, ld, rd, lk, rk :=
      LeadingText(l), LeadingText(r), LeadingNumber(l), LeadingNumber(r), Key(Rest(l)), Key(Rest(r));
    KeyUnfold(l);
    KeyUnfold(r);
    CompareSamePadded(Key(l), Weights(lp) + [0] + ([Value(ld)] + lk), Key(r), Weights(rp) + [0] + ([Value(rd)] + rk));
    NonDigitByWeights(lp, rp, [Value(ld)] + lk, [Value(rd)] + rk);
    CompareStep(Value(ld), Value(rd), lk, rk);
    DigitRunsByValue(ld, rd);
  }

  /** The pure order: what the comparison loop computes. */
  function CompareVersions(l: string, r: string): int {
    Compare(Key(l), Key(r))
  }

  /** compareDebianVersionStrings, loops and all; it terminates and computes the order on keys. */
  method CompareVersionStrings(left: string, right: string) returns (c: int)
    ensures c == CompareVersions(left, right)
  {
    var i, j := 0, 0;
    while i < |left| || j < |right|
      invariant 0 <= i <= |left| && 0 <= j <= |right|
      invariant CompareVersions(left, right) == CompareVersions(left[i..], right[j..])
      decreases |left| + |right| - i - j
    {
      ghost var l, r := left[i..], right[j..];
      RoundOnKeys(l, r);
      var leftText, leftNumber, i' := ScanParts(left, i);
      var rightText, rightNumber, j' := ScanParts(right, j);
      if leftText != rightText {
        var compared := CompareNonDigit(leftText, rightText);
        if compared != 0 { return compared; }
      }
      NonDigitByWeights(leftText, rightText, [], []);
      if leftNumber != rightNumber {
        var compared := CompareDigitRuns(leftNumber, rightNumber);
        if compared != 0 { return compared; }
      }
      DigitRunsByValue(leftNumber, rightNumber);
      i, j := i', j';
    }
    return 0;
  }

  /** The scanning loops of one round on one side: a non-digit part, then a digit part. */
  method ScanParts(s: string, start: nat) returns (text: string, number: string, end: nat)
    requires start <= |s|
    ensures start <= end <= |s| && (start < |s| ==> start < end)
    ensures text == LeadingText(s[start..]) && number == LeadingNumber(s[start..])
    ensures s[end..] == Rest(s[start..])
  {
    var middle := ScanRun(s, start, false);
    text := s[start..middle];
    end := ScanRun(s, middle, true);
    number := s[middle..end];
  }

  lemma SliceOfRest(s: string, i: nat, j: nat)
    requires i <= j <= |s|
    ensures s[i..][..j - i] == s[i..j] && s[i..][j - i..] == s[j..]
  {
  }

  /** A scanning loop of the comparison. */
  method ScanRun(s: string, start: nat, digits: bool) returns (end: nat)
    requires start <= |s|
    ensures start <= end <= |s| && end == start + Run(s[start..], digits)
    ensures var n := Run(s[start..], digits); s[start..end] == s[start..][..n] && s[end..] == s[start..][n..]
  {
    end := start;
    while end < |s| && IsDigit(s[end]) == digits
      invariant start <= end <= |s|
      invariant forall k | start <= k < end :: IsDigit(s[k]) == digits
    {
      end := end + 1;
    }
    RunMaximal(s[start..], digits, end - start);
    SliceOfRest(s, start, end);
  }

  /** Two Debian version strings compare as their infinitely padded keys do. */
  lemma VersionsByPaddedKey(l: string, r: string)
    ensures CompareVersions(l, r) < 0 <==> Before(Key(l), Key(r))
    ensures CompareVersions(l, r) == 0 <==> SamePadded(Key(l), Key(r))
    ensures CompareVersions(l, r) > 0 <==> Before(Key(r), Key(l))
  {
    CompareMeaning(Key(l), Key(r));
  }

  // ----- the order from the text -----

  /** Where one non-digit stands against another: tilde first, then letters, then the rest, each by its byte. */
  predicate CharBefore(c: char, d: char) {
    c != d && (c == '~' || (d != '~' && (if IsLetter(c) == IsLetter(d) then c < d else IsLetter(c))))
  }

  /** The key of `a` as far as it is settled when more text may follow. */
  ghost function Stem(a: string): seq<int> {
    if Run(a, false) == |a| then Weights(a)
    else Weights(LeadingText(a)) + [0] + ([Value(LeadingNumber(a))] + Stem(Rest(a)))
  }

  /** What follows `a` cannot make its last digit part longer. */
  predicate EndsNumber(a: string, s: string) { a == [] || s == [] || !(IsDigit(a[|a| - 1]) && IsDigit(s[0])) }

  lemma Slices(a: string, s: string, n: nat)
    requires n <= |a|
    ensures (a + s)[..n] == a[..n] && (a + s)[n..] == a[n..] + s
    ensures forall i | 0 <= i < n :: (a + s)[i] == a[i]
  {
  }

  lemma RunKept(a: string, s: string, digits: bool)
    requires Run(a, digits) < |a| || s == [] || IsDigit(s[0]) != digits
    ensures var n := Run(a, digits); Run(a + s, digits) == n && (a + s)[..n] == a[..n] && (a + s)[n..] == a[n..] + s
  {
    var n := Run(a, digits);
    Slices(a, s, n);
    assert n < |a + s| ==> (a + s)[n] == if n < |a| then a[n] else s[0];
    RunMaximal(a + s, digits, n);
  }

  /** A string that has a digit keeps its first parts when text follows. */
  lemma PartsKept(a: string, s: string)
    requires Run(a, false) < |a| && EndsNumber(a, s)
    ensures LeadingText(a + s) == LeadingText(a) && LeadingNumber(a + s) == LeadingNumber(a) && Rest(a + s) == Rest(a) + s
  {
    var t := a[Run(a, false)..];
    RunKept(a, s, false);
    assert t[|t| - 1] == a[|a| - 1];
    RunKept(t, s, true);
  }

  lemma EndsNumberRest(a: string, s: string)
    requires EndsNumber(a, s) && a != []
    ensures EndsNumber(Rest(a), s)
  {
    var r := Rest(a);
    assert r != [] ==> r[|r| - 1] == a[|a| - 1];
  }

  /** The key starts with `stem` and goes on with `next`, zeros at its end included. */
  ghost predicate GoesOn(key: seq<int>, stem: seq<int>, next: int) {
    (forall i | 0 <= i < |stem| :: At(key, i) == stem[i]) && At(key, |stem|) == next
  }

  lemma GoesOnAfter(w: seq<int>, v: int, key: seq<int>, stem: seq<int>, next: int)
    requires GoesOn(key, stem, next)
    ensures GoesOn(w + [0] + ([v] + key), w + [0] + ([v] + stem), next)
  {
    var whole, front := w + [0] + ([v] + key), |w| + 2;
    assert forall i: nat :: At(whole, front + i) == At(key, i);
    forall i | 0 <= i < front + |stem| ensures At(whole, i) == (w + [0] + ([v] + stem))[i] {
      if i >= front { assert At(whole, front + (i - front)) == At(key, i - front); }
    }
    assert At(whole, front + |stem|) == At(key, |stem|);
  }

  lemma TextExtends(a: string, s: string)
    requires Run(a, false) == |a| && s != [] && !IsDigit(s[0])
    ensures var text := LeadingText(a + s); |a| < |text| && text[..|a|] == a && text[|a|] == s[0]
  {
    Slices(a, s, |a|);
    assert (a + s)[|a|] == s[0] && a[..|a|] == a;
    RunAtLeast(a + s, |a| + 1);
    Shorten(a + s, Run(a + s, false), |a|);
  }

  lemma RunAtLeast(s: string, n: nat)
    requires n <= |s| && forall i | 0 <= i < n :: !IsDigit(s[i])
    ensures Run(s, false) >= n
  {
  }

  lemma Shorten(s: string, n: nat, m: nat)
    requires m <= n <= |s|
    ensures s[..n][..m] == s[..m]
  {
  }

  lemma WeightsGoOn(text: string, a: string, rest: seq<int>)
    requires |a| < |text| && text[..|a|] == a
    ensures GoesOn(Weights(text) + [0] + rest, Weights(a), Weight(text[|a|]))
  {
    forall i | 0 <= i < |a| ensures Weights(text)[i] == Weights(a)[i] { assert text[..|a|][i] == a[i]; }
  }

  lemma TextGoesOn(a: string, s: string)
    requires Run(a, false) == |a| && (s == [] || !IsDigit(s[0]))
    ensures GoesOn(Key(a + s), Weights(a), if s == [] then 0 else Weight(s[0]))
  {
    if s == [] {
      assert a + s == a && a[..|a|] == a;
    } else {
      TextExtends(a, s);
      WeightsGoOn(LeadingText(a + s), a, [Value(LeadingNumber(a + s))] + Key(Rest(a + s)));
    }
  }

  /** After `a`, a key goes on with the weight of the next non-digit, or with the end. */
  lemma {:induction false} StemGoesOn(a: string, s: string)
    requires s == [] || !IsDigit(s[0])
    ensures GoesOn(Key(a + s), Stem(a), if s == [] then 0 else Weight(s[0]))
    decreases |a|
  {
    if Run(a, false) == |a| {
      TextGoesOn(a, s);
    } else {
      PartsKept(a, s);
      StemGoesOn(Rest(a), s);
      GoesOnAfter(Weights(LeadingText(a)), Value(LeadingNumber(a)), Key(Rest(a) + s), Stem(Rest(a)), if s == [] then 0 else Weight(s[0]));
    }
  }

  lemma DecidesHere(l: string, r: string, stem: seq<int>, x: int, y: int)
    requires GoesOn(Key(l), stem, x) && GoesOn(Key(r), stem, y) && x < y
    ensures CompareVersions(l, r) < 0 && CompareVersions(r, l) > 0
  {
    assert AgreeBelow(Key(l), Key(r), |stem|);
    VersionsByPaddedKey(l, r);
    VersionsByPaddedKey(r, l);
  }

  /** The first difference between two non-digits decides, whatever stands before and after. */
  lemma TextDecides(a: string, c: char, s: string, d: char, t: string)
    requires !IsDigit(c) && !IsDigit(d) && CharBefore(c, d)
    ensures CompareVersions(a + ([c] + s), a + ([d] + t)) < 0
  {
    StemGoesOn(a, [c] + s);
    StemGoesOn(a, [d] + t);
    DecidesHere(a + ([c] + s), a + ([d] + t), Stem(a), Weight(c), Weight(d));
  }

  /** A version that goes on with a non-digit is greater, unless it goes on with a tilde: then it is smaller. */
  lemma EndDecides(a: string, d: char, t: string)
    requires !IsDigit(d)
    ensures d == '~' ==> CompareVersions(a + ([d] + t), a) < 0
    ensures d != '~' ==> CompareVersions(a, a + ([d] + t)) < 0
  {
    assert a + [] == a;
    StemGoesOn(a, []);
    StemGoesOn(a, [d] + t);
    if d == '~' {
      DecidesHere(a + ([d] + t), a, Stem(a), Weight(d), 0);
    } else {
      DecidesHere(a, a + ([d] + t), Stem(a), 0, Weight(d));
    }
  }

  lemma TextThenNumber(a: string, n: string)
    requires Run(a, false) == |a| && n != [] && AllDigits(n)
    ensures Stem(a + n) == Weights(a) + [0] + [Value(n)]
  {
    assert (a + n)[|a|] == n[0];
    RunMaximal(a + n, false, |a|);
    assert (a + n)[|a|..] == n && (a + n)[..|a|] == a;
    RunMaximal(n, true, |n|);
    assert n[..|n|] == n && n[|n|..] == [];
    assert Stem([]) == [];
    assert [Value(n)] + [] == [Value(n)];
  }

  /** A digit part is settled, with its value, once it has ended. */
  lemma {:induction false} StemOfNumber(a: string, n: string)
    requires n != [] && AllDigits(n) && EndsNumber(a, n)
    ensures Stem(a + n) == Stem(a) + [0] + [Value(n)]
    decreases |a|
  {
    if Run(a, false) == |a| {
      TextThenNumber(a, n);
    } else {
      PartsKept(a, n);
      EndsNumberRest(a, n);
      StemOfNumber(Rest(a), n);
      RunKept(a, n, false);
      AssociateStem(Weights(LeadingText(a)) + [0], [Value(LeadingNumber(a))], Stem(Rest(a)), Value(n));
    }
  }

  lemma AssociateStem(w: seq<int>, v: seq<int>, stem: seq<int>, n: int)
    ensures w + (v + (stem + [0] + [n])) == w + (v + stem) + [0] + [n]
  {
  }

  /** The first difference between two digit parts decides by their values, whatever stands before and after. */
  lemma NumberDecides(a: string, n: string, s: string, m: string, t: string)
    requires n != [] && AllDigits(n) && EndsNumber(a, n) && (s == [] || !IsDigit(s[0]))
    requires m != [] && AllDigits(m) && EndsNumber(a, m) && (t == [] || !IsDigit(t[0]))
    requires Value(n) < Value(m)
    ensures CompareVersions(a + n + s, a + m + t) < 0
  {
    StemOfNumber(a, n);
    StemOfNumber(a, m);
    StemGoesOn(a + n, s);
    StemGoesOn(a + m, t);
    NumberGoesOn(Key(a + n + s), Stem(a) + [0], Value(n), if s == [] then 0 else Weight(s[0]));
    NumberGoesOn(Key(a + m + t), Stem(a) + [0], Value(m), if t == [] then 0 else Weight(t[0]));
    DecidesHere(a + n + s, a + m + t, Stem(a) + [0], Value(n), Value(m));
  }

  /** A digit part ends the text before it: it is below any further text but a tilde. */
  lemma NumberAgainstText(a: string, n: string, s: string, d: char, t: string)
    requires n != [] && AllDigits(n) && EndsNumber(a, n) && (s == [] || !IsDigit(s[0])) && !IsDigit(d)
    ensures d == '~' ==> CompareVersions(a + ([d] + t), a + n + s) < 0
    ensures d != '~' ==> CompareVersions(a + n + s, a + ([d] + t)) < 0
  {
    StemOfNumber(a, n);
    StemGoesOn(a + n, s);
    StemGoesOn(a, [d] + t);
    NumberGoesOn(Key(a + n + s), Stem(a) + [0], Value(n), if s == [] then 0 else Weight(s[0]));
    NumberGoesOn(Key(a + n + s), Stem(a), 0, Value(n));
    if d == '~' {
      DecidesHere(a + ([d] + t), a + n + s, Stem(a), Weight(d), 0);
    } else {
      DecidesHere(a + n + s, a + ([d] + t), Stem(a), 0, Weight(d));
    }
  }

  lemma NumberGoesOn(key: seq<int>, stem: seq<int>, v: int, next: int)
    requires GoesOn(key, stem + [v], next)
    ensures GoesOn(key, stem, v)
  {
    assert (stem + [v])[|stem|] == v;
    forall i | 0 <= i < |stem| ensures At(key, i) == stem[i] { assert (stem + [v])[i] == stem[i]; }
  }
}
