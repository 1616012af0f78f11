/** The parts of Go's strings, strconv and fmt packages that the code uses, on ASCII text. */
module GoStrings {
  import opened Digits

  datatype Option<+T> = None | Some(value: T) {
    function UnwrapOr(default: T): T { if Some? then value else default }
  }

  predicate IsSpace(c: char) { c == ' ' || '\t' <= c <= '\r' }

  /** A text without white space. */
  predicate Solid(s: string) { forall i | 0 <= i < |s| :: !IsSpace(s[i]) }

  lemma SolidConcat(a: string, b: string)
    requires Solid(a) && Solid(b)
    ensures Solid(a + b)
  {
  }

  function TrimLeftSpace(s: string): (t: string)
    ensures |t| <= |s| && (t != [] ==> !IsSpace(t[0]))
  {
    if s != [] && IsSpace(s[0]) then TrimLeftSpace(s[1..]) else s
  }

  function TrimRightSpace(s: string): (t: string)
    ensures |t| <= |s| && t == s[..|t|] && (t != [] ==> !IsSpace(t[|t| - 1]))
  {
    if s != [] && IsSpace(s[|s| - 1]) then TrimRightSpace(s[..|s| - 1]) else s
  }

  /** strings.TrimSpace */
  function TrimSpace(s: string): (t: string)
    ensures Solid(s) ==> t == s
  {
    TrimRightSpace(TrimLeftSpace(s))
  }

  lemma {:induction false} TrimLeftConcat(a: string, b: string)
    requires b != [] && !IsSpace(b[0])
    ensures TrimLeftSpace(a + b) == TrimLeftSpace(a) + b
  {
    if a == [] {
      assert a + b == b;
    } else {
      assert (a + b)[1..] == a[1..] + b;
      TrimLeftConcat(a[1..], b);
    }
  }

  lemma {:induction false} TrimRightConcat(a: string, b: string)
    requires a != [] && !IsSpace(a[|a| - 1])
    ensures TrimRightSpace(a + b) == a + TrimRightSpace(b)
  {
    if b == [] {
      assert a + b == a;
    } else {
      assert (a + b)[..|a + b| - 1] == a + b[..|b| - 1];
      TrimRightConcat(a, b[..|b| - 1]);
    }
  }

  /** Around a middle that neither starts nor ends in white space, only the sides are trimmed. */
  lemma TrimAround(a: string, middle: string, b: string)
    requires middle != [] && !IsSpace(middle[0]) && !IsSpace(middle[|middle| - 1])
    ensures TrimSpace(a + middle + b) == TrimLeftSpace(a) + middle + TrimRightSpace(b)
  {
    assert a + middle + b == a + (middle + b);
    TrimLeftConcat(a, middle + b);
    assert TrimLeftSpace(a) + (middle + b) == (TrimLeftSpace(a) + middle) + b;
    TrimRightConcat(TrimLeftSpace(a) + middle, b);
  }

  lemma TrimTwice(s: string)
    ensures TrimSpace(TrimSpace(s)) == TrimSpace(s)
  {
    var left, t := TrimLeftSpace(s), TrimSpace(s);
    assert t == left[..|t|];
    assert t != [] ==> t[0] == left[0];
  }

  lemma {:induction false} TrimLeftKeeps(s: string, c: char)
    requires !IsSpace(c)
    ensures c in TrimLeftSpace(s) <==> c in s
  {
    if s != [] && IsSpace(s[0]) { TrimLeftKeeps(s[1..], c); }
  }

  lemma {:induction false} TrimRightKeeps(s: string, c: char)
    requires !IsSpace(c)
    ensures c in TrimRightSpace(s) <==> c in s
  {
    if s != [] && IsSpace(s[|s| - 1]) { TrimRightKeeps(s[..|s| - 1], c); }
  }

  /** strings.Index of a single byte, -1 when absent. */
  function Index(s: string, c: char): (i: int)
    ensures -1 <= i < |s|
    ensures i >= 0 ==> s[i] == c
    ensures forall j | 0 <= j < |s| && (i < 0 || j < i) :: s[j] != c
  {
    IndexFrom(s, c, 0)
  }

  function IndexFrom(s: string, c: char, from: nat): (i: int)
    requires from <= |s|
    ensures i == -1 || from <= i < |s|
    ensures i >= 0 ==> s[i] == c
    ensures forall j | from <= j < |s| && (i < 0 || j < i) :: s[j] != c
    decreases |s| - from
  {
    if from == |s| then -1 else if s[from] == c then from else IndexFrom(s, c, from + 1)
  }

  /** strings.LastIndex of a single byte, -1 when absent. */
  function LastIndex(s: string, c: char): (i: int)
    ensures -1 <= i < |s|
    ensures i >= 0 ==> s[i] == c
    ensures forall j | i < j < |s| :: s[j] != c
  {
    LastIndexBelow(s, c, |s|)
  }

  function LastIndexBelow(s: string, c: char, end: nat): (i: int)
    requires end <= |s|
    ensures -1 <= i < end
    ensures i >= 0 ==> s[i] == c
    ensures forall j | i < j < end :: s[j] != c
  {
    if end == 0 then -1 else if s[end - 1] == c then end - 1 else LastIndexBelow(s, c, end - 1)
  }

  /** The first `c` of `before + [c] + after` is the shown one exactly when `before` has none. */
  lemma IndexBetween(before: string, c: char, after: string)
    ensures Index(before + [c] + after, c) == |before| <==> c !in before
    ensures 0 <= Index(before + [c] + after, c) <= |before|
    ensures (before + [c] + after)[..|before|] == before && (before + [c] + after)[|before| + 1..] == after
  {
    var s := before + [c] + after;
    assert s[|before|] == c;
    if Index(s, c) == |before| {
      forall i | 0 <= i < |before| ensures before[i] != c { assert s[i] == before[i]; }
    }
    if Index(s, c) < |before| && Index(s, c) >= 0 { assert before[Index(s, c)] == c; }
  }

  /** The last `c` of `before + [c] + after` is the shown one exactly when `after` has none. */
  lemma LastIndexBetween(before: string, c: char, after: string)
    ensures LastIndex(before + [c] + after, c) == |before| <==> c !in after
    ensures |before| <= LastIndex(before + [c] + after, c)
    ensures (before + [c] + after)[..|before|] == before && (before + [c] + after)[|before| + 1..] == after
  {
    var s := before + [c] + after;
    assert s[|before|] == c;
    var k := LastIndex(s, c);
    if k == |before| {
      forall i | 0 <= i < |after| ensures after[i] != c { assert s[|before| + 1 + i] == after[i]; }
    }
    if k > |before| { assert after[k - |before| - 1] == c; }
  }

  /** strings.HasPrefix */
  predicate HasPrefix(s: string, prefix: string) { prefix <= s }

  /** strings.Contains */
  predicate Contains(s: string, part: string) {
    exists i | 0 <= i <= |s| :: part <= s[i..]
  }

  function LowerChar(c: char): char {
    if 'A' <= c <= 'Z' then (c as int - 'A' as int + 'a' as int) as char else c
  }

  /** strings.ToLower */
  function ToLower(s: string): string { seq(|s|, i requires 0 <= i < |s| => LowerChar(s[i])) }

  /** Lower-case letters only. */
  predicate IsLowerWord(s: string) { forall i | 0 <= i < |s| :: 'a' <= s[i] <= 'z' }

  lemma LowerWordIsKept(s: string)
    requires IsLowerWord(s)
    ensures TrimSpace(s) == s && ToLower(s) == s
  {
    assert Solid(s);
  }

  /** Length of the longest prefix without white space. */
  function WordLength(s: string): (n: nat)
    ensures n <= |s| && (s != [] && !IsSpace(s[0]) ==> n > 0)
  {
    if s != [] && !IsSpace(s[0]) then 1 + WordLength(s[1..]) else 0
  }

  /** strings.Fields */
  function Fields(s: string): seq<string>
    decreases |s|
  {
    var t := TrimLeftSpace(s);
    if t == [] then [] else [t[..WordLength(t)]] + Fields(t[WordLength(t)..])
  }

  lemma {:induction false} WordLengthIs(a: string, b: string)
    requires Solid(a) && (b == [] || IsSpace(b[0]))
    ensures WordLength(a + b) == |a| && (a + b)[..|a|] == a && (a + b)[|a|..] == b
  {
    if a == [] {
      assert a + b == b;
    } else {
      assert (a + b)[0] == a[0] && (a + b)[1..] == a[1..] + b;
      WordLengthIs(a[1..], b);
    }
  }

  /** Two words with a space between them. */
  lemma FieldsOfTwo(a: string, b: string)
    requires Solid(a) && Solid(b) && a != [] && b != []
    ensures TrimSpace(a + " " + b) == a + " " + b && Fields(a + " " + b) == [a, b]
  {
    var s := a + (" " + b);
    assert a + " " + b == s && s[0] == a[0] && s[|s| - 1] == b[|b| - 1];
    assert TrimLeftSpace(s) == s && TrimRightSpace(s) == s;
    WordLengthIs(a, " " + b);
    assert (" " + b)[1..] == b && b[0..] == b && b + [] == b;
    assert TrimLeftSpace(b) == b && TrimLeftSpace(" " + b) == b;
    WordLengthIs(b, []);
    assert Fields(b) == [b] by { assert b[..|b|] == b && b[|b|..] == []; }
    assert Fields(" " + b) == Fields(b);
  }

  /** strconv.ParseInt in base 10 for a signed type with values from -limit to limit - 1. */
  function ParseInt(s: string, limit: nat): Option<int> {
    var signed := s != [] && (s[0] == '-' || s[0] == '+');
    var digits := if signed then s[1..] else s;
    if digits == [] || !AllDigits(digits) then None
    else
      var v: int := Value(digits);
      var n := if signed && s[0] == '-' then -v else v;
      if -(limit as int) <= n < limit then Some(n) else None
  }

  const INT32_LIMIT: nat := 0x8000_0000
  const INT64_LIMIT: nat := 0x8000_0000_0000_0000

  predicate IsInt32(n: int) { -0x8000_0000 <= n < 0x8000_0000 }
  predicate IsInt64(n: int) { -(INT64_LIMIT as int) <= n < INT64_LIMIT }

  /** fmt's %d for a natural number. */
  function PrintNat(n: nat): (s: string)
    ensures s != [] && AllDigits(s)
    ensures Value(s) == n
    ensures s[0] == '0' ==> n == 0 && s == "0"
  {
    var last := [(n % 10 + '0' as int) as char];
    if n < 10 then last
    else
      var s := PrintNat(n / 10) + last;
      assert s[..|s| - 1] == PrintNat(n / 10);
      s
  }

  /** fmt's %d. */
  function PrintInt(n: int): string { if n < 0 then "-" + PrintNat(-n) else PrintNat(n) }

  lemma ParsePrintInt(n: int, limit: nat)
    requires -(limit as int) <= n < limit
    ensures ParseInt(PrintInt(n), limit) == Some(n)
  {
    if n < 0 {
      assert PrintInt(n)[1..] == PrintNat(-n);
    } else {
      assert IsDigit(PrintInt(n)[0]);
    }
  }
}
