/** The RPM version comparison of matcher_rpmver.go: alphanumeric tokens, no special case for tilde or caret. */
module RpmVersion {
  import opened Digits
  import opened GoStrings

  /** A maximal run of digits, by value, or a maximal run of letters, by text. */
  datatype Token = Word(text: string) | Number(value: nat)

  predicate IsAlnum(c: char) { IsLetter(c) || IsDigit(c) }

  /** Length of the segment at the head of `s`: characters of the same class as the first. */
  function SegmentLength(s: string): (n: nat)
    requires s != [] && IsAlnum(s[0])
    ensures 0 < n <= |s|
    ensures forall i | 0 <= i < n :: IsAlnum(s[i]) && IsDigit(s[i]) == IsDigit(s[0])
    ensures n < |s| ==> !IsAlnum(s[n]) || IsDigit(s[n]) != IsDigit(s[0])
  {
    if |s| > 1 && IsAlnum(s[1]) && IsDigit(s[1]) == IsDigit(s[0]) then 1 + SegmentLength(s[1..]) else 1
  }

  function TokenOf(segment: string): Token
    requires segment != [] && (IsDigit(segment[0]) ==> AllDigits(segment))
  {
    if IsDigit(segment[0]) then Number(Value(segment)) else Word(segment)
  }

  /** The tokens of a version string; everything that is not alphanumeric only separates them. */
  function Tokens(s: string): seq<Token> {
    if s == [] then []
    else if !IsAlnum(s[0]) then Tokens(s[1..])
    else [TokenOf(s[..SegmentLength(s)])] + Tokens(s[SegmentLength(s)..])
  }

  /** A number is above a word, numbers go by value and words by bytes. */
  function CompareToken(a: Token, b: Token): int {
    match (a, b)
    case (Number(v), Number(w)) => if v < w then -1 else if v > w then 1 else 0
    case (Number(_), Word(_)) => 1
    case (Word(_), Number(_)) => -1
    case (Word(x), Word(y)) => CompareStrings(x, y)
  }

  function CompareTokens(a: seq<Token>, b: seq<Token>): int {
    if a == [] && b == [] then 0
    else if a == [] then -1
    else if b == [] then 1
    else if CompareToken(a[0], b[0]) != 0 then CompareToken(a[0], b[0])
    else CompareTokens(a[1..], b[1..])
  }

  /** Words come before numbers, words go by their bytes and numbers by their values. */
  ghost predicate TokenBefore(a: Token, b: Token) {
    || (a.Word? && b.Number?)
    || (a.Word? && b.Word? && StringBefore(a.text, b.text))
    || (a.Number? && b.Number? && a.value < b.value)
  }

  /** The first difference is at `i`: there `a` ends, or has the smaller token. */
  ghost predicate BeforeAt(a: seq<Token>, b: seq<Token>, i: nat) {
    && i <= |a| && i < |b|
    && (forall j | 0 <= j < i :: a[j] == b[j])
    && (i == |a| || TokenBefore(a[i], b[i]))
  }

  /** Lexicographic order on token lists: a proper prefix is smaller. */
  ghost predicate TokensBefore(a: seq<Token>, b: seq<Token>) {
    exists i: nat :: BeforeAt(a, b, i)
  }

  lemma TokenLaws(a: Token, b: Token)
    ensures CompareToken(a, b) == -CompareToken(b, a) && -1 <= CompareToken(a, b) <= 1
    ensures CompareToken(a, b) == 0 <==> a == b
    ensures CompareToken(a, b) < 0 <==> TokenBefore(a, b)
  {
    if a.Word? && b.Word? {
      CompareStringsAntisymmetric(a.text, b.text);
      CompareStringsMeaning(a.text, b.text);
    }
  }

  lemma {:induction false} CompareTokensMeaning(a: seq<Token>, b: seq<Token>)
    ensures CompareTokens(a, b) < 0 <==> TokensBefore(a, b)
    ensures CompareTokens(a, b) == 0 <==> a == b
    ensures CompareTokens(a, b) == -CompareTokens(b, a) && -1 <= CompareTokens(a, b) <= 1
  {
    if a != [] && b != [] {
      TokenLaws(a[0], b[0]);
      if a[0] != b[0] {
        if TokenBefore(a[0], b[0]) { assert BeforeAt(a, b, 0); }
      } else {
        CompareTokensMeaning(a[1..], b[1..]);
        BeforeTail(a, b);
        assert a == [a[0]] + a[1..] && b == [b[0]] + b[1..];
      }
    } else if a == [] && b != [] {
      assert BeforeAt(a, b, 0);
    }
  }

  lemma BeforeTail(a: seq<Token>, b: seq<Token>)
    requires a != [] && b != [] && a[0] == b[0]
    ensures TokensBefore(a, b) <==> TokensBefore(a[1..], b[1..])
  {
    TokenLaws(a[0], b[0]);
    if TokensBefore(a, b) {
      var i: nat :| BeforeAt(a, b, i);
      assert BeforeAt(a[1..], b[1..], i - 1);
    }
    if TokensBefore(a[1..], b[1..]) {
      var i: nat :| BeforeAt(a[1..], b[1..], i);
      forall j | 0 <= j < i + 1
        ensures a[j] == b[j]
      {
        if j > 0 { assert a[1..][j - 1] == b[1..][j - 1]; }
      }
      assert BeforeAt(a, b, i + 1);
    }
  }

  lemma {:induction false} CompareTokensTransitive(a: seq<Token>, b: seq<Token>, c: seq<Token>)
    requires CompareTokens(a, b) <= 0 && CompareTokens(b, c) <= 0
    ensures CompareTokens(a, c) <= 0
  {
    if a != [] && b != [] && c != [] {
      TokenLaws(a[0], b[0]);
      TokenLaws(b[0], c[0]);
      TokenLaws(a[0], c[0]);
      if a[0].Word? && b[0].Word? && c[0].Word? {
        CompareStringsTransitive(a[0].text, b[0].text, c[0].text);
      }
      if a[0] == b[0] == c[0] {
        CompareTokensTransitive(a[1..], b[1..], c[1..]);
      }
    }
  }

  // ----- the code -----

  /** trimNonAlnum */
  method TrimNonAlnum(value: string) returns (rest: string)
    ensures |rest| <= |value| && Tokens(rest) == Tokens(value)
    ensures rest != [] ==> IsAlnum(rest[0])
  {
    rest := value;
    while |rest| > 0
      invariant |rest| <= |value| && Tokens(rest) == Tokens(value)
    {
      if IsAlnum(rest[0]) { return; }
      rest := rest[1..];
    }
  }

  /** nextSegment */
  method NextSegment(value: string) returns (segment: string, numeric: bool, rest: string)
    ensures value == [] || !IsAlnum(value[0]) ==> segment == [] && !numeric && rest == value
    ensures value != [] && IsAlnum(value[0]) ==>
              && segment == value[..SegmentLength(value)] && rest == value[SegmentLength(value)..]
              && numeric == IsDigit(value[0])
  {
    if value == [] { return [], false, []; }
    numeric := IsDigit(value[0]);
    var index := 0;
    while index < |value|
      invariant 0 <= index <= |value|
      invariant forall k | 0 <= k < index :: IsAlnum(value[k]) && IsDigit(value[k]) == numeric
    {
      if IsDigit(value[index]) != numeric { break; }
      if !IsLetter(value[index]) && !IsDigit(value[index]) { break; }
      index := index + 1;
    }
    if IsAlnum(value[0]) { SegmentMaximal(value, index); }
    return value[..index], numeric, value[index..];
  }

  lemma SegmentMaximal(s: string, n: nat)
    requires s != [] && IsAlnum(s[0]) && n <= |s|
    requires forall i | 0 <= i < n :: IsAlnum(s[i]) && IsDigit(s[i]) == IsDigit(s[0])
    requires n < |s| ==> !IsAlnum(s[n]) || IsDigit(s[n]) != IsDigit(s[0])
    ensures n == SegmentLength(s)
  {
  }

  /** compareSegment */
  function CompareSegment(left: string, right: string, numeric: bool): int {
    if numeric then CompareDigitRuns(left, right) else CompareStrings(left, right)
  }

  /** The pure order: what the comparison loop computes. */
  function CompareVersions(l: string, r: string): int {
    CompareTokens(Tokens(l), Tokens(r))
  }

  /** compareRPMVersion; it terminates and computes the order on token lists. */
  method CompareVersionStrings(left0: string, right0: string) returns (c: int)
    ensures c == CompareVersions(left0, right0)
  {
    var left, right := TrimSpace(left0), TrimSpace(right0);
    TrimSpaceTokens(left0);
    TrimSpaceTokens(right0);
    while left != [] || right != []
      invariant CompareVersions(left, right) == CompareVersions(left0, right0)
      decreases |left| + |right|
    {
      left := TrimNonAlnum(left);
      right := TrimNonAlnum(right);
      if left == [] && right == [] { return 0; }
      if left == [] { return -1; }
      if right == [] { return 1; }
      var leftSegment, leftNumeric, nextLeft := NextSegment(left);
      var rightSegment, rightNumeric, nextRight := NextSegment(right);
      assert Tokens(left) == [TokenOf(leftSegment)] + Tokens(nextLeft);
      assert Tokens(right) == [TokenOf(rightSegment)] + Tokens(nextRight);
      if leftNumeric != rightNumeric {
        if leftNumeric { return 1; }
        return -1;
      }
      if leftNumeric { DigitRunsByValue(leftSegment, rightSegment); }
      var compared := CompareSegment(leftSegment, rightSegment, leftNumeric);
      if compared != 0 { return compared; }
      left, right := nextLeft, nextRight;
    }
    return 0;
  }

  // ----- surrounding white space -----

  lemma TokensOfSegment(s: string, n: nat)
    requires s != [] && IsAlnum(s[0]) && n == SegmentLength(s)
    ensures Tokens(s) == [TokenOf(s[..n])] + Tokens(s[n..])
  {
  }

  /** Whether two neighbouring characters belong to one token. */
  predicate Joined(c: char, d: char) { IsAlnum(c) && IsAlnum(d) && IsDigit(c) == IsDigit(d) }

  /** No token reaches across the boundary of two strings. */
  predicate Apart(a: string, b: string) { a == [] || b == [] || !Joined(a[|a| - 1], b[0]) }

  lemma SegmentLengthConcat(a: string, b: string)
    requires a != [] && IsAlnum(a[0]) && Apart(a, b)
    ensures SegmentLength(a + b) == SegmentLength(a)
  {
    SegmentMaximal(a + b, SegmentLength(a));
  }

  lemma ApartSuffix(a: string, b: string, n: nat)
    requires n <= |a| && Apart(a, b)
    ensures Apart(a[n..], b) && (a + b)[..n] == a[..n] && (a + b)[n..] == a[n..] + b
  {
  }

  lemma SkipSeparator(s: string)
    requires s != [] && !IsAlnum(s[0])
    ensures Tokens(s) == [] + Tokens(s[1..])
  {
  }

  /** The first separator or segment, taken off the front of either string. */
  lemma TakeFront(a: string, b: string) returns (n: nat, front: seq<Token>)
    requires a != [] && Apart(a, b)
    ensures 0 < n <= |a| && Apart(a[n..], b)
    ensures Tokens(a) == front + Tokens(a[n..]) && Tokens(a + b) == front + Tokens(a[n..] + b)
  {
    if !IsAlnum(a[0]) {
      n, front := 1, [];
      SkipSeparator(a);
      SkipSeparator(a + b);
    } else {
      n, front := SegmentLength(a), [TokenOf(a[..SegmentLength(a)])];
      SegmentLengthConcat(a, b);
      TokensOfSegment(a, n);
      TokensOfSegment(a + b, n);
    }
    ApartSuffix(a, b, n);
  }

  /** The tokens of a string that is cut where no token reaches across. */
  lemma {:induction false} TokensConcat(a: string, b: string)
    requires Apart(a, b)
    ensures Tokens(a + b) == Tokens(a) + Tokens(b)
    decreases |a|
  {
    if a == [] {
      assert a + b == b;
    } else {
      var n, front := TakeFront(a, b);
      TokensConcat(a[n..], b);
      Associate(front, Tokens(a[n..]), Tokens(b));
    }
  }

  lemma Associate(x: seq<Token>, y: seq<Token>, z: seq<Token>)
    ensures x + y + z == x + (y + z)
  {
  }

  lemma TokensSnoc(s: string, c: char)
    requires !IsAlnum(c)
    ensures Tokens(s + [c]) == Tokens(s)
  {
    TokensConcat(s, [c]);
    assert [c][1..] == [];
  }

  lemma {:induction false} TrimRightTokens(s: string)
    ensures Tokens(TrimRightSpace(s)) == Tokens(s)
  {
    if s != [] && IsSpace(s[|s| - 1]) {
      var init := s[..|s| - 1];
      assert s == init + [s[|s| - 1]];
      TokensSnoc(init, s[|s| - 1]);
      TrimRightTokens(init);
    }
  }

  lemma {:induction false} TrimLeftTokens(s: string)
    ensures Tokens(TrimLeftSpace(s)) == Tokens(s)
  {
    if s != [] && IsSpace(s[0]) { TrimLeftTokens(s[1..]); }
  }

  lemma TrimSpaceTokens(s: string)
    ensures Tokens(TrimSpace(s)) == Tokens(s)
  {
    TrimLeftTokens(s);
    TrimRightTokens(TrimLeftSpace(s));
  }

  // ----- the order from the text -----

  predicate IsWord(s: string) { s != [] && forall i | 0 <= i < |s| :: IsLetter(s[i]) }

  predicate IsNumber(s: string) { s != [] && AllDigits(s) }

  /** A run of one class is one token. */
  lemma TokensOfRun(s: string)
    requires IsWord(s) || IsNumber(s)
    ensures Tokens(s) == [if IsNumber(s) then Number(Value(s)) else Word(s)]
  {
    SegmentMaximal(s, |s|);
    assert s[..|s|] == s && s[|s|..] == [];
    assert IsWord(s) ==> IsLetter(s[0]) && !IsDigit(s[0]);
  }

  /** A string whose next token after `a` is `x`. */
  lemma NextToken(a: string, x: string, s: string)
    requires (IsWord(x) || IsNumber(x)) && Apart(a, x) && Apart(x, s)
    ensures Tokens(a + x + s) == Tokens(a) + ([if IsNumber(x) then Number(Value(x)) else Word(x)] + Tokens(s))
  {
    assert (a + x)[|a + x| - 1] == x[|x| - 1];
    TokensConcat(a + x, s);
    TokensConcat(a, x);
    TokensOfRun(x);
  }

  lemma BeforeAfterPrefix(p: seq<Token>, x: Token, k: seq<Token>, y: Token, m: seq<Token>)
    requires TokenBefore(x, y)
    ensures CompareTokens(p + ([x] + k), p + ([y] + m)) < 0
  {
    CompareTokensMeaning(p + ([x] + k), p + ([y] + m));
    assert BeforeAt(p + ([x] + k), p + ([y] + m), |p|);
  }

  /**
   * The first segment that differs decides: a word is below a number, words go by their bytes, numbers by their values,
   * whatever stands before, between the segments or after them.
   */
  lemma FirstDifferenceDecides(a: string, x: string, s: string, y: string, t: string)
    requires (IsWord(x) || IsNumber(x)) && Apart(a, x) && Apart(x, s)
    requires (IsWord(y) || IsNumber(y)) && Apart(a, y) && Apart(y, t)
    ensures IsWord(x) && IsNumber(y) ==> CompareVersions(a + x + s, a + y + t) < 0
    ensures IsWord(x) && IsWord(y) && StringBefore(x, y) ==> CompareVersions(a + x + s, a + y + t) < 0
    ensures IsNumber(x) && IsNumber(y) && Value(x) < Value(y) ==> CompareVersions(a + x + s, a + y + t) < 0
  {
    NextToken(a, x, s);
    NextToken(a, y, t);
    assert IsWord(x) ==> IsLetter(x[0]) && !IsNumber(x);
    assert IsWord(y) ==> IsLetter(y[0]) && !IsNumber(y);
    var p := if IsNumber(x) then Number(Value(x)) else Word(x);
    var q := if IsNumber(y) then Number(Value(y)) else Word(y);
    if TokenBefore(p, q) { BeforeAfterPrefix(Tokens(a), p, Tokens(s), q, Tokens(t)); }
  }

  /** A version that goes on with another segment is greater. */
  lemma LongerIsGreater(a: string, y: string, t: string)
    requires (IsWord(y) || IsNumber(y)) && Apart(a, y) && Apart(y, t)
    ensures CompareVersions(a, a + y + t) < 0
  {
    NextToken(a, y, t);
    CompareTokensMeaning(Tokens(a), Tokens(a + y + t));
    assert BeforeAt(Tokens(a), Tokens(a + y + t), |Tokens(a)|);
  }
}
