/** Package identifiers: the agent prints them, the server parses them back. */
module Nevra {
  import opened Digits
  import opened GoStrings
  import opened Evr

  // ----- server: parsers -----

  /** isDebianArch, in the order of its list. */
  predicate IsDebianArch(s: string) { IsCommonArch(s) || IsPortArch(s) || IsOtherArch(s) }

  predicate IsCommonArch(s: string) {
    s in ["amd64", "arm64", "armel", "armhf", "i386", "mips64el", "mipsel", "powerpc"]
  }

  predicate IsPortArch(s: string) {
    s in ["ppc64el", "riscv64", "s390x", "all", "any", "loong64", "alpha", "hppa"]
  }

  predicate IsOtherArch(s: string) {
    s in ["ia64", "m68k", "sh4", "sparc64", "x32", "sparc", "ppc64", "mips", "mips64"]
  }

  /** Letters and digits only. */
  predicate Plain(s: string) {
    s != [] && forall i | 0 <= i < |s| :: IsLetter(s[i]) || IsDigit(s[i])
  }

  lemma CommonArchIsPlain(s: string)
    requires IsCommonArch(s)
    ensures Plain(s)
  {
  }

  lemma PortArchIsPlain(s: string)
    requires IsPortArch(s)
    ensures Plain(s)
  {
  }

  lemma OtherArchIsPlain(s: string)
    requires IsOtherArch(s)
    ensures Plain(s)
  {
  }

  lemma PlainHasNoMarks(s: string)
    requires Plain(s)
    ensures '.' !in s && ':' !in s && '-' !in s
  {
  }

  lemma ArchIsPlain(s: string)
    requires IsDebianArch(s)
    ensures s != [] && '.' !in s && ':' !in s && '-' !in s
  {
    if IsCommonArch(s) {
      CommonArchIsPlain(s);
    } else if IsPortArch(s) {
      PortArchIsPlain(s);
    } else {
      OtherArchIsPlain(s);
    }
    PlainHasNoMarks(s);
  }

  /** Whether the text after a dot is an architecture. */
  predicate ArchAfter(isArch: string -> bool, s: string, dot: int)
    requires -1 <= dot < |s|
  {
    dot != -1 && dot + 1 < |s| && isArch(s[dot + 1..])
  }

  predicate EndsInArch(isArch: string -> bool, s: string) { ArchAfter(isArch, s, LastIndex(s, '.')) }

  function DropAfter(isArch: string -> bool, s: string, dot: int): string
    requires -1 <= dot < |s|
  {
    if ArchAfter(isArch, s, dot) then s[..dot] else s
  }

  function DropArch(isArch: string -> bool, s: string): string { DropAfter(isArch, s, LastIndex(s, '.')) }

  /** Index just after the first dash that a digit follows, or -1. */
  function DashBeforeDigit(s: string, from: nat): int
    requires from <= |s|
    decreases |s| - from
  {
    if from + 1 >= |s| then -1
    else if s[from] == '-' && IsDigit(s[from + 1]) then from + 1
    else DashBeforeDigit(s, from + 1)
  }

  function FirstDigit(s: string, from: nat): int
    requires from <= |s|
    decreases |s| - from
  {
    if from == |s| then -1 else if IsDigit(s[from]) then from else FirstDigit(s, from + 1)
  }

  /** Where the version starts in an identifier without a colon. */
  function VersionStart(s: string): int {
    if DashBeforeDigit(s, 0) != -1 then DashBeforeDigit(s, 0) else FirstDigit(s, 0)
  }

  lemma {:induction false} ScansInRange(s: string, from: nat)
    requires from <= |s|
    ensures -1 <= DashBeforeDigit(s, from) <= |s| && -1 <= FirstDigit(s, from) <= |s|
    decreases |s| - from
  {
    if from < |s| { ScansInRange(s, from + 1); }
  }

  lemma {:induction false} DashBeforeDigitIs(s: string, from: nat, i: nat)
    requires from <= i <= |s|
    requires forall k | from <= k < i :: !IsDashDigit(s, k)
    ensures i == |s| ==> DashBeforeDigit(s, from) == -1
    ensures i + 1 < |s| && s[i] == '-' && IsDigit(s[i + 1]) ==> DashBeforeDigit(s, from) == i + 1
    decreases i - from
  {
    if from < i {
      assert !IsDashDigit(s, from);
      DashBeforeDigitIs(s, from + 1, i);
    }
  }

  lemma {:induction false} FirstDigitIs(s: string, from: nat, i: nat)
    requires from <= i <= |s|
    requires forall k | from <= k < i :: !IsDigit(s[k])
    ensures FirstDigit(s, from) == if i == |s| then -1 else if IsDigit(s[i]) then i else FirstDigit(s, i)
    decreases i - from
  {
    if from < i { FirstDigitIs(s, from + 1, i); }
  }

  predicate IsDashDigit(s: string, k: int) { 0 <= k < |s| - 1 && s[k] == '-' && IsDigit(s[k + 1]) }

  /** Where a version starts: after the first dash that a digit follows, else at the first digit, else nowhere. */
  ghost predicate IsVersionStart(s: string, start: int) {
    if exists k :: IsDashDigit(s, k) then IsDashDigit(s, start - 1) && forall k | k < start - 1 :: !IsDashDigit(s, k)
    else if start == -1 then forall k | 0 <= k < |s| :: !IsDigit(s[k])
    else 0 <= start < |s| && IsDigit(s[start]) && forall k | 0 <= k < start :: !IsDigit(s[k])
  }

  /** The scanning loops of parseDebianEVRFromNEVR. */
  method FindVersionStart(body: string) returns (start: int)
    ensures start == VersionStart(body) && IsVersionStart(body, start)
  {
    for i := 0 to |body|
      invariant forall k | 0 <= k < i :: !IsDashDigit(body, k)
    {
      if body[i] == '-' && i + 1 < |body| && IsDigit(body[i + 1]) {
        DashBeforeDigitIs(body, 0, i);
        assert IsDashDigit(body, i);
        return i + 1;
      }
    }
    DashBeforeDigitIs(body, 0, |body|);
    for i := 0 to |body|
      invariant forall k | 0 <= k < i :: !IsDigit(body[k])
    {
      if IsDigit(body[i]) {
        FirstDigitIs(body, 0, i);
        return i;
      }
    }
    FirstDigitIs(body, 0, |body|);
    return -1;
  }

  /** parseDebianEVRFromNEVR */
  function ParseDebianNevra(value: string): Option<Evr> {
    ParseIdentifierBody(DropArch(IsDebianArch, TrimSpace(value)))
  }

  /** Its part after the architecture is gone. */
  function ParseIdentifierBody(body: string): Option<Evr> {
    var colon := Index(body, ':');
    if colon >= 0 then Some(ReadAroundColon(body[..colon], body[colon + 1..])) else ReadWithoutColon(body)
  }

  /** The epoch stands after the last dash before the colon; an unreadable one counts as zero. */
  function ReadAroundColon(before: string, after: string): Evr {
    MakeEvr(EpochField(before), SplitRelease(after))
  }

  function EpochField(before: string): Option<int> { ParseInt(before[LastIndex(before, '-') + 1..], INT64_LIMIT) }

  function MakeEvr(epoch: Option<int>, parts: (string, string)): Evr { Evr(epoch.UnwrapOr(0), parts.0, parts.1) }

  function ReadWithoutColon(body: string): Option<Evr> {
    ScansInRange(body, 0);
    var start := VersionStart(body);
    if start == -1 then None
    else Some(Evr(0, SplitRelease(body[start..]).0, SplitRelease(body[start..]).1))
  }

  /** parseEVRFromNEVR */
  function ParseRpmNevr(value: string): Option<Evr> {
    var trimmed := TrimSpace(value);
    if LastIndex(trimmed, '-') == -1 then None else ReadNevr(SplitRelease(trimmed).0, SplitRelease(trimmed).1)
  }

  /** Its part after the release is cut off at the last dash. */
  function ReadNevr(body: string, release: string): Option<Evr> {
    var colon := Index(body, ':');
    if release == "" || body == "" then None
    else if colon == -1 then
      var dash := LastIndex(body, '-');
      if dash == -1 || dash + 1 == |body| then None else Some(Evr(0, body[dash + 1..], release))
    else ReadNevrAroundColon(body[..colon], body[colon + 1..], release)
  }

  function ReadNevrAroundColon(before: string, version: string, release: string): Option<Evr> {
    var epoch := EpochField(before);
    if LastIndex(before, '-') == -1 || epoch.None? || version == "" then None else Some(Evr(epoch.value, version, release))
  }

  /** parseRunningKernelEVR */
  function ParseRunningKernel(value: string): Option<Evr> {
    var trimmed := TrimSpace(value);
    var dot := LastIndex(trimmed, '.');
    if dot == -1 then None else ReadKernelBody(trimmed[..dot])
  }

  /** Its part after the architecture is cut off: an EVR, else a NEVR, else an EVR. */
  function ReadKernelBody(body: string): Option<Evr> {
    if Index(body, ':') >= 0 && ParseRpmEvr(body).Some? then ParseRpmEvr(body)
    else if ParseRpmNevr(body).Some? then ParseRpmNevr(body)
    else ParseRpmEvr(body)
  }

  /** parseRunningKernelDebianEVR */
  function ParseRunningKernelDebian(value: string): Option<Evr> {
    var trimmed := TrimSpace(value);
    var dash := Index(trimmed, '-');
    if trimmed == "" then None
    else if dash == -1 then Some(Evr(0, trimmed, ""))
    else Some(Evr(0, trimmed[..dash], trimmed[dash + 1..]))
  }

  /** The parsing half of parseDecisionFixedEVR. */
  function ParseFixedNevra(apt: bool, value: string): Option<Evr> {
    if TrimSpace(value) == "" then None
    else if apt then ParseDebianNevra(TrimSpace(value))
    else
      var dot := LastIndex(TrimSpace(value), '.');
      if dot == -1 then None else ParseRpmNevr(TrimSpace(value)[..dot])
  }

  // ----- agent: printers -----

  /** The version with its release, if it has one. */
  function JoinRelease(version: string, release: string): string {
    if release == "" then version else version + "-" + release
  }

  /** formatPackageIdentifier, used for APT packages. */
  function FormatIdentifier(name: string, evr: Evr, arch: string): string {
    name + "-" + PrintInt(evr.epoch) + ":" + JoinRelease(evr.version, evr.release) + (if arch == "" then "" else "." + arch)
  }

  /** The identifier that parsePackageLine prints for an RPM package. */
  function FormatRpmNevra(name: string, evr: Evr, arch: string): string {
    name + "-" + PrintInt(evr.epoch) + ":" + evr.version + "-" + evr.release + "." + arch
  }

  /** runningRPMKernelNEVRA on one line of rpm's answer: the `0:` of a zero epoch is trimmed. */
  function FormatRunningKernel(evr: Evr, arch: string): string {
    var line := PrintInt(evr.epoch) + ":" + evr.version + "-" + evr.release + "." + arch;
    if HasPrefix(line, "0:") then line[2..] else line
  }

  // ----- round trips -----

  lemma PrintIntShape(n: int)
    ensures Solid(PrintInt(n)) && PrintInt(n) != []
    ensures ':' !in PrintInt(n) && '.' !in PrintInt(n)
    ensures n >= 0 ==> '-' !in PrintInt(n)
  {
  }

  lemma DigitsAfterDash(prefix: string, digits: string)
    requires AllDigits(digits) && digits != [] && Value(digits) < INT64_LIMIT
    ensures LastIndex(prefix + ['-'] + digits, '-') >= 0 && EpochField(prefix + ['-'] + digits) == Some(Value(digits))
  {
    LastIndexBetween(prefix, '-', digits);
    assert IsDigit(digits[0]);
  }

  function Magnitude(n: int): nat { if n < 0 then -n else n }

  lemma SignIsDash(name: string, digits: string)
    ensures name + "-" + ("-" + digits) == (name + "-") + ['-'] + digits
    ensures name + "-" + digits == name + ['-'] + digits
  {
  }

  /** A printed number after a dash: its digits follow the last dash, which may be its sign. */
  lemma PrintedAfterDash(name: string, n: int) returns (prefix: string)
    ensures name + "-" + PrintInt(n) == prefix + ['-'] + PrintNat(Magnitude(n))
  {
    prefix := if n < 0 then name + "-" else name;
    SignIsDash(name, PrintNat(Magnitude(n)));
  }

  /** What a parser that reads the digits between the last dash and a colon makes of a printed epoch. */
  lemma EpochBack(name: string, n: int)
    requires IsInt32(n)
    ensures var printed := name + "-" + PrintInt(n);
            LastIndex(printed, '-') >= 0 && EpochField(printed) == Some(Magnitude(n))
  {
    var prefix := PrintedAfterDash(name, n);
    DigitsAfterDash(prefix, PrintNat(Magnitude(n)));
  }

  /** Splitting at the last dash undoes the joining exactly for these versions and releases. */
  lemma SplitJoin(version: string, release: string)
    ensures SplitRelease(JoinRelease(version, release)) == (version, release) <==>
              '-' !in release && (release == "" ==> '-' !in version)
  {
    var joined := JoinRelease(version, release);
    var dash := LastIndex(joined, '-');
    if release != "" {
      LastIndexBetween(version, '-', release);
    } else if dash >= 0 {
      assert joined[dash] == '-';
    }
  }

  /** A text splits into these parts only if it is their joining, or ends in a dash. */
  lemma SplitIsJoin(text: string, version: string, release: string)
    requires SplitRelease(text) == (version, release)
    ensures text == JoinRelease(version, release) || (release == "" && text == version + "-")
  {
  }

  /** How often a character occurs. */
  function Count(s: string, c: char): nat {
    if s == [] then 0 else (if s[0] == c then 1 else 0) + Count(s[1..], c)
  }

  lemma {:induction false} CountConcat(a: string, b: string, c: char)
    ensures Count(a + b, c) == Count(a, c) + Count(b, c)
    ensures c !in a ==> Count(a, c) == 0
  {
    if a == [] {
      assert a + b == b;
    } else {
      CountConcat(a[1..], b, c);
      assert (a + b)[1..] == a[1..] + b;
    }
  }

  ghost predicate PlainArches(isArch: string -> bool) {
    forall a | isArch(a) :: a != [] && '.' !in a && ':' !in a
  }

  lemma InSuffix(s: string, from: nat, k: nat)
    requires from <= k < |s|
    ensures s[k] in s[from..]
  {
    assert s[from..][k - from] == s[k];
  }

  /** What follows a dot before a colon is no architecture. */
  lemma NoArchBeforeColon(isArch: string -> bool, s: string, dot: int, colon: nat)
    requires PlainArches(isArch) && -1 <= dot < colon < |s| && s[colon] == ':'
    ensures DropAfter(isArch, s, dot) == s
  {
    InSuffix(s, dot + 1, colon);
  }

  /** What follows a dot after the colon is looked at alone. */
  lemma DropShifted(isArch: string -> bool, before: string, rest: string, inner: nat)
    requires inner < |rest|
    ensures DropAfter(isArch, before + rest, |before| + inner) == before + DropAfter(isArch, rest, inner)
  {
    SlicesAfter(before, rest, inner);
    SlicesAfter(before, rest, inner + 1);
  }

  lemma DropArchAt(isArch: string -> bool, s: string, dot: int, kept: string)
    requires LastIndex(s, '.') == dot && DropAfter(isArch, s, dot) == kept
    ensures DropArch(isArch, s) == kept
  {
  }

  lemma NoDotAfterColon(isArch: string -> bool, before: string, rest: string)
    requires PlainArches(isArch) && before != [] && before[|before| - 1] == ':' && LastIndex(rest, '.') == -1
    ensures DropArch(isArch, before + rest) == before + rest
  {
    LastIndexBefore(before, rest, '.');
    NoArchBeforeColon(isArch, before + rest, LastIndex(before, '.'), |before| - 1);
    DropArchAt(isArch, before + rest, LastIndex(before, '.'), before + rest);
  }

  lemma DotAfterColon(isArch: string -> bool, before: string, rest: string)
    requires LastIndex(rest, '.') >= 0
    ensures DropArch(isArch, before + rest) == before + DropAfter(isArch, rest, LastIndex(rest, '.'))
  {
    LastIndexAfter(before, rest, '.');
    DropShifted(isArch, before, rest, LastIndex(rest, '.'));
    DropArchAt(isArch, before + rest, |before| + LastIndex(rest, '.'), before + DropAfter(isArch, rest, LastIndex(rest, '.')));
  }

  /** The architecture of a text with a colon is found after the colon. */
  lemma DropArchAfterColon(isArch: string -> bool, before: string, rest: string)
    requires PlainArches(isArch) && before != [] && before[|before| - 1] == ':'
    ensures DropArch(isArch, before + rest) == before + DropArch(isArch, rest)
  {
    if LastIndex(rest, '.') == -1 {
      NoDotAfterColon(isArch, before, rest);
      DropArchAt(isArch, rest, -1, rest);
    } else {
      DotAfterColon(isArch, before, rest);
    }
  }

  lemma SlicesAfter(before: string, rest: string, n: nat)
    requires n <= |rest|
    ensures (before + rest)[..|before| + n] == before + rest[..n] && (before + rest)[|before| + n..] == rest[n..]
  {
  }

  lemma LastIndexBefore(before: string, rest: string, c: char)
    requires LastIndex(rest, c) == -1
    ensures LastIndex(before + rest, c) == LastIndex(before, c)
  {
    var s, k := before + rest, LastIndex(before, c);
    forall j | k < j < |s| ensures s[j] != c {
      assert s[j] == if j < |before| then before[j] else rest[j - |before|];
    }
    assert k >= 0 ==> s[k] == before[k];
  }

  lemma LastIndexAfter(before: string, rest: string, c: char)
    requires LastIndex(rest, c) >= 0
    ensures LastIndex(before + rest, c) == |before| + LastIndex(rest, c)
  {
    assert (before + rest)[|before| + LastIndex(rest, c)] == c;
  }

  /** What is left of the version and architecture once white space at the end is trimmed. */
  function Sent(joined: string, arch: string): string {
    if arch == "" then TrimRightSpace(joined) else joined + "." + TrimRightSpace(arch)
  }

  /** Which architectures the parser takes off again. */
  predicate ArchReadable(isArch: string -> bool, joined: string, arch: string) {
    if arch == "" then TrimRightSpace(joined) == joined && !EndsInArch(isArch, joined) else isArch(TrimRightSpace(arch))
  }

  lemma DropAppendedArch(isArch: string -> bool, joined: string, arch: string)
    requires PlainArches(isArch)
    ensures isArch(arch) ==> DropArch(isArch, joined + "." + arch) == joined
    ensures !isArch(arch) ==> joined + "." <= DropArch(isArch, joined + "." + arch)
  {
    var t := joined + ['.'] + arch;
    LastIndexBetween(joined, '.', arch);
    var dot := LastIndex(t, '.');
    if !isArch(arch) && EndsInArch(isArch, t) {
      assert t[..dot] == joined + "." + arch[..dot - |joined| - 1];
    }
  }

  lemma ColonsKeptByDrop(isArch: string -> bool, text: string)
    requires PlainArches(isArch) && EndsInArch(isArch, text)
    ensures Count(DropArch(isArch, text), ':') == Count(text, ':')
  {
    var dot := LastIndex(text, '.');
    var kept, suffix := text[..dot], text[dot + 1..];
    assert text == kept + (['.'] + suffix);
    CountConcat(kept, ['.'] + suffix, ':');
    CountConcat(['.'], suffix, ':');
    CountConcat(suffix, [], ':');
  }

  lemma {:induction false} ColonsKeptByTrim(s: string)
    ensures Count(TrimRightSpace(s), ':') == Count(s, ':')
  {
    if s != [] && IsSpace(s[|s| - 1]) {
      var n := |s| - 1;
      assert s == s[..n] + [s[n]];
      CountConcat(s[..n], [s[n]], ':');
      CountConcat([s[n]], [], ':');
      ColonsKeptByTrim(s[..n]);
    }
  }

  lemma CountPrefix(a: string, b: string, c: char)
    requires a <= b
    ensures Count(a, c) <= Count(b, c)
  {
    CountConcat(a, b[|a|..], c);
    assert b == a + b[|a|..];
  }

  /** No colon is lost with the architecture or with white space. */
  lemma ColonsKept(isArch: string -> bool, joined: string, arch: string)
    requires PlainArches(isArch)
    ensures Count(DropArch(isArch, Sent(joined, arch)), ':') >= Count(joined, ':')
  {
    if arch != "" {
      DropAppendedArch(isArch, joined, TrimRightSpace(arch));
      CountPrefix(joined, DropArch(isArch, Sent(joined, arch)), ':');
    } else {
      ColonsKeptByTrim(joined);
      if EndsInArch(isArch, TrimRightSpace(joined)) { ColonsKeptByDrop(isArch, TrimRightSpace(joined)); }
    }
  }

  /** The version part is left exactly if the architecture is readable. */
  lemma SentIsJoinedIff(isArch: string -> bool, joined: string, arch: string)
    requires PlainArches(isArch)
    ensures DropArch(isArch, Sent(joined, arch)) == joined <==> ArchReadable(isArch, joined, arch)
    ensures DropArch(isArch, Sent(joined, arch)) != joined + "-"
  {
    var kept := DropArch(isArch, Sent(joined, arch));
    assert (joined + "-")[|joined|] == '-';
    if arch == "" {
      assert |kept| <= |joined|;
    } else {
      DropAppendedArch(isArch, joined, TrimRightSpace(arch));
      if !isArch(TrimRightSpace(arch)) { assert kept[|joined|] == (joined + ".")[|joined|] == '.'; }
    }
  }

  /** The version part reads back exactly if the architecture and the dashes do. */
  lemma VersionPartBack(isArch: string -> bool, evr: Evr, arch: string)
    requires PlainArches(isArch)
    ensures var joined := JoinRelease(evr.version, evr.release);
            SplitRelease(DropArch(isArch, Sent(joined, arch))) == (evr.version, evr.release) <==>
              && '-' !in evr.release && (evr.release == "" ==> '-' !in evr.version)
              && ArchReadable(isArch, joined, arch)
  {
    var joined := JoinRelease(evr.version, evr.release);
    var kept := DropArch(isArch, Sent(joined, arch));
    SplitJoin(evr.version, evr.release);
    SentIsJoinedIff(isArch, joined, arch);
    if SplitRelease(kept) == (evr.version, evr.release) {
      SplitIsJoin(kept, evr.version, evr.release);
    }
  }

  /** Too many colons for the version part. */
  lemma TooManyColons(extra: string, kept: string, evr: Evr)
    requires Count(kept, ':') >= Count(JoinRelease(evr.version, evr.release), ':')
    ensures SplitRelease((extra + ":") + kept) != (evr.version, evr.release)
  {
    var after := (extra + ":") + kept;
    CountConcat(extra, ":", ':');
    CountConcat(extra + ":", kept, ':');
    CountConcat(evr.version, "-", ':');
    assert Count(":", ':') == 1 && Count("-", ':') == 0;
    if SplitRelease(after) == (evr.version, evr.release) {
      SplitIsJoin(after, evr.version, evr.release);
    }
  }

  lemma Regroup(a: string, b: string, c: string, d: string, e: string)
    ensures (a + b + c) + d + e == a + b + ((c + d) + e)
  {
  }

  /** Where a text with a colon in its prefix is cut first. */
  lemma FirstColon(prefix: string, kept: string) returns (before: string, extra: string)
    requires ':' in prefix
    ensures ':' !in before && prefix + ":" + kept == before + ":" + ((extra + ":") + kept)
  {
    var first := Index(prefix, ':');
    before, extra := prefix[..first], prefix[first + 1..];
    assert prefix == before + ":" + extra;
    Regroup(before, ":", extra, ":", kept);
  }

  /** A colon in the name puts too many colons into the version. */
  lemma BodyWithColon(prefix: string, kept: string, evr: Evr)
    requires Count(kept, ':') >= Count(JoinRelease(evr.version, evr.release), ':')
    requires ':' in prefix
    ensures ParseIdentifierBody(prefix + ":" + kept) != Some(evr)
  {
    var before, extra := FirstColon(prefix, kept);
    var rest := (extra + ":") + kept;
    TooManyColons(extra, kept, evr);
    assert ReadAroundColon(before, rest) != evr;
    ColonCut(before, rest);
  }

  lemma ColonCut(prefix: string, kept: string)
    requires ':' !in prefix
    ensures ParseIdentifierBody(prefix + ":" + kept) == Some(ReadAroundColon(prefix, kept))
  {
    assert prefix + ":" + kept == prefix + [':'] + kept;
    IndexBetween(prefix, ':', kept);
  }

  lemma MadeEvr(epoch: int, parts: (string, string), evr: Evr)
    ensures MakeEvr(Some(epoch), parts) == evr <==> epoch == evr.epoch && parts == (evr.version, evr.release)
  {
  }

  /** A body whose text before the colon is known to hold an epoch. */
  lemma BodyWithEpoch(before: string, epoch: int, kept: string, evr: Evr)
    requires ':' !in before && EpochField(before) == Some(epoch)
    ensures ParseIdentifierBody(before + ":" + kept) == Some(evr) <==>
              epoch == evr.epoch && SplitRelease(kept) == (evr.version, evr.release)
  {
    ColonCut(before, kept);
    MadeEvr(epoch, SplitRelease(kept), evr);
  }

  /** When the server reads the agent's APT identifier back correctly. */
  predicate DebianReadable(isArch: string -> bool, name: string, evr: Evr, arch: string) {
    && ':' !in name
    && evr.epoch >= 0
    && '-' !in evr.release
    && (evr.release == "" ==> '-' !in evr.version)
    && ArchReadable(isArch, JoinRelease(evr.version, evr.release), arch)
  }

  /** The part of an identifier between name and version. */
  function EpochMark(epoch: int): string { "-" + PrintInt(epoch) + ":" }

  lemma EpochMarkEnds(epoch: int)
    ensures var mark := EpochMark(epoch); mark != [] && !IsSpace(mark[0]) && !IsSpace(mark[|mark| - 1])
  {
    var mark := EpochMark(epoch);
    assert mark[0] == '-' && mark[|mark| - 1] == ':';
  }

  /** The text before a colon has this number after its last dash. */
  ghost predicate HoldsEpoch(prefix: string, epoch: int) {
    LastIndex(prefix, '-') >= 0 && EpochField(prefix) == Some(epoch)
  }

  lemma MarkShape(name: string, digits: string)
    ensures name + "-" + digits + ":" == name + ("-" + digits + ":")
  {
  }

  /** The text before the colon: its epoch, without its sign, and its colons. */
  lemma PrefixOf(name: string, epoch: int) returns (prefix: string)
    requires IsInt32(epoch)
    ensures prefix + ":" == name + EpochMark(epoch)
    ensures HoldsEpoch(prefix, Magnitude(epoch))
    ensures ':' in prefix <==> ':' in name
  {
    prefix := name + "-" + PrintInt(epoch);
    MarkShape(name, PrintInt(epoch));
    EpochBack(name, epoch);
    ColonOnlyInName(name, epoch);
  }

  /** White space is trimmed before the name and at the end, nowhere else. */
  lemma IdentifierTrimmed(name: string, evr: Evr, arch: string)
    ensures TrimSpace(FormatIdentifier(name, evr, arch)) ==
            TrimLeftSpace(name) + EpochMark(evr.epoch) + Sent(JoinRelease(evr.version, evr.release), arch)
  {
    var joined := JoinRelease(evr.version, evr.release);
    var rest := if arch == "" then joined else joined + "." + arch;
    assert FormatIdentifier(name, evr, arch) == name + EpochMark(evr.epoch) + rest;
    EpochMarkEnds(evr.epoch);
    TrimAround(name, EpochMark(evr.epoch), rest);
    if arch != "" { TrimRightConcat(joined + ".", arch); }
  }

  /** A body whose text before the colon is known to hold an epoch, and perhaps another colon. */
  lemma BodyBack(isArch: string -> bool, prefix: string, epoch: int, evr: Evr, arch: string)
    requires PlainArches(isArch) && EpochField(prefix) == Some(epoch)
    ensures var joined := JoinRelease(evr.version, evr.release);
            ParseIdentifierBody(prefix + ":" + DropArch(isArch, Sent(joined, arch))) == Some(evr) <==>
              && ':' !in prefix && epoch == evr.epoch && '-' !in evr.release && (evr.release == "" ==> '-' !in evr.version)
              && ArchReadable(isArch, joined, arch)
  {
    var joined := JoinRelease(evr.version, evr.release);
    if ':' in prefix {
      ColonsKept(isArch, joined, arch);
      BodyWithColon(prefix, DropArch(isArch, Sent(joined, arch)), evr);
    } else {
      BodyWithEpoch(prefix, epoch, DropArch(isArch, Sent(joined, arch)), evr);
      VersionPartBack(isArch, evr, arch);
    }
  }

  lemma TrimmedBack(isArch: string -> bool, trimmed: string, prefix: string, epoch: int, evr: Evr, arch: string)
    requires PlainArches(isArch) && EpochField(prefix) == Some(epoch)
    requires trimmed == (prefix + ":") + Sent(JoinRelease(evr.version, evr.release), arch)
    ensures ParseIdentifierBody(DropArch(isArch, trimmed)) == Some(evr) <==>
              && ':' !in prefix && epoch == evr.epoch && '-' !in evr.release && (evr.release == "" ==> '-' !in evr.version)
              && ArchReadable(isArch, JoinRelease(evr.version, evr.release), arch)
  {
    DropArchAfterColon(isArch, prefix + ":", Sent(JoinRelease(evr.version, evr.release), arch));
    BodyBack(isArch, prefix, epoch, evr, arch);
  }

  lemma IdentifierPrefix(name: string, evr: Evr, arch: string) returns (prefix: string)
    requires IsInt32(evr.epoch)
    ensures TrimSpace(FormatIdentifier(name, evr, arch)) == (prefix + ":") + Sent(JoinRelease(evr.version, evr.release), arch)
    ensures HoldsEpoch(prefix, Magnitude(evr.epoch)) && (':' in prefix <==> ':' in name)
  {
    prefix := PrefixOf(TrimLeftSpace(name), evr.epoch);
    TrimLeftKeeps(name, ':');
    IdentifierTrimmed(name, evr, arch);
  }

  lemma IdentifierBack(isArch: string -> bool, printed: string, prefix: string, name: string, evr: Evr, arch: string)
    requires PlainArches(isArch)
    requires TrimSpace(printed) == (prefix + ":") + Sent(JoinRelease(evr.version, evr.release), arch)
    requires HoldsEpoch(prefix, Magnitude(evr.epoch)) && (':' in prefix <==> ':' in name)
    ensures ParseIdentifierBody(DropArch(isArch, TrimSpace(printed))) == Some(evr) <==> DebianReadable(isArch, name, evr, arch)
  {
    TrimmedBack(isArch, TrimSpace(printed), prefix, Magnitude(evr.epoch), evr, arch);
  }

  lemma DebianArchesArePlain()
    ensures PlainArches(IsDebianArch)
  {
    forall a | IsDebianArch(a) ensures a != [] && '.' !in a && ':' !in a { ArchIsPlain(a); }
  }

  /** Parsing an APT identifier returns the printed epoch, version and release exactly in these cases. */
  lemma DebianRoundTrip(name: string, evr: Evr, arch: string)
    requires IsInt32(evr.epoch)
    ensures ParseDebianNevra(FormatIdentifier(name, evr, arch)) == Some(evr) <==>
              DebianReadable(IsDebianArch, name, evr, arch)
  {
    var prefix := IdentifierPrefix(name, evr, arch);
    DebianArchesArePlain();
    IdentifierBack(IsDebianArch, FormatIdentifier(name, evr, arch), prefix, name, evr, arch);
  }

  lemma EpochFitsInt32(value: string)
    ensures ParseEpoch(value).Some? ==> IsInt32(ParseEpoch(value).value)
  {
  }

  /** An empty release next to a dash in the version comes from a text that ends in a dash. */
  ghost predicate EmptyReleaseShows(evr: Evr, text: string) {
    text != "" && (evr.release == "" && '-' in evr.version <==> text[|text| - 1] == '-' && '-' in evr.version)
  }

  lemma ReadPartsShape(epoch: Option<int>, version: string)
    requires ReadDebianEvr(epoch, version).Some? && (epoch.Some? ==> IsInt32(epoch.value))
    ensures var evr := ReadDebianEvr(epoch, version).value;
            IsInt32(evr.epoch) && '-' !in evr.release && EmptyReleaseShows(evr, version)
  {
  }

  lemma SameEnd(text: string, n: nat, evr: Evr)
    requires n < |text| && EmptyReleaseShows(evr, text[n..])
    ensures EmptyReleaseShows(evr, text)
  {
    assert text[n..][|text| - n - 1] == text[|text| - 1];
  }

  /** What the agent reads from a version text has an epoch of 32 bits, a dash-free release, and an end that shows. */
  lemma ParsedPartsShape(parseEpoch: string -> Option<int>, text: string)
    requires ReadAfterEpoch(parseEpoch, text).Some?
    requires forall v :: parseEpoch(v).Some? ==> IsInt32(parseEpoch(v).value)
    ensures var evr := ReadAfterEpoch(parseEpoch, text).value;
            IsInt32(evr.epoch) && '-' !in evr.release && EmptyReleaseShows(evr, text)
  {
    var colon := Index(text, ':');
    if colon >= 0 {
      ReadPartsShape(parseEpoch(text[..colon]), text[colon + 1..]);
      SameEnd(text, colon + 1, ReadAfterEpoch(parseEpoch, text).value);
    } else {
      ReadPartsShape(Some(0), text);
    }
  }

  lemma DpkgParts(text: string) returns (evr: Evr)
    requires ParseDebianEvr(text).Some?
    ensures ParseDebianEvr(text) == Some(evr) && IsInt32(evr.epoch) && '-' !in evr.release
    ensures EmptyReleaseShows(evr, TrimSpace(text))
  {
    evr := ParseDebianEvr(text).value;
    forall v ensures ParseEpoch(v).Some? ==> IsInt32(ParseEpoch(v).value) { EpochFitsInt32(v); }
    ParsedPartsShape(ParseEpoch, TrimSpace(text));
  }

  /**
   * From dpkg to the matcher: the agent splits a version text and prints the identifier, the server parses it.
   * The same epoch, version and release arrive exactly if the epoch is not negative, the name has no colon, the
   * architecture is readable, and the trimmed text does not end in a dash that follows another dash.
   */
  lemma DpkgVersionArrives(name: string, text: string, arch: string)
    requires ParseDebianEvr(text).Some?
    ensures TrimSpace(text) != ""
    ensures var evr, trimmed := ParseDebianEvr(text).value, TrimSpace(text);
            ParseDebianNevra(FormatIdentifier(name, evr, arch)) == Some(evr) <==>
              && ':' !in name && evr.epoch >= 0
              && !(trimmed[|trimmed| - 1] == '-' && '-' in evr.version)
              && ArchReadable(IsDebianArch, JoinRelease(evr.version, evr.release), arch)
  {
    var evr := DpkgParts(text);
    DebianRoundTrip(name, evr, arch);
  }

  /** An identifier without an epoch: the version starts after the first dash that a digit follows. */
  lemma PlainIdentifierReads(name: string, version: string, release: string)
    requires version != "" && IsDigit(version[0]) && '-' !in release && (release == "" ==> '-' !in version)
    requires forall k | 0 <= k < |name| :: !IsDashDigit(name + "-", k)
    ensures ReadWithoutColon(name + "-" + JoinRelease(version, release)) == Some(Evr(0, version, release))
  {
    var joined := JoinRelease(version, release);
    var body := name + "-" + joined;
    assert joined[0] == version[0] && body[|name|] == '-' && body[|name| + 1] == joined[0];
    forall k | 0 <= k < |name| ensures !IsDashDigit(body, k) {
      assert body[k] == (name + "-")[k] && body[k + 1] == (name + "-")[k + 1];
      assert !IsDashDigit(name + "-", k);
    }
    DashBeforeDigitIs(body, 0, |name|);
    assert body[|name| + 1..] == joined;
    SplitJoin(version, release);
  }

  lemma ParseEpochOfPrinted(n: int)
    requires IsInt32(n)
    ensures ParseEpoch(PrintInt(n)) == Some(n)
  {
    PrintIntShape(n);
    ParsePrintInt(n, INT32_LIMIT);
    assert PrintInt(n)[0] == '-' || IsDigit(PrintInt(n)[0]);
    EpochIsInt(PrintInt(n));
  }

  lemma EpochIsInt(s: string)
    requires Solid(s) && s != "" && s[0] != '('
    ensures ParseEpoch(s) == ParseInt(s, INT32_LIMIT)
  {
    assert "(none)"[0] == '(';
  }

  lemma ReadJoined(epoch: int, version: string, release: string)
    requires version != "" && '-' !in release && (release == "" ==> '-' !in version)
    ensures ReadDebianEvr(Some(epoch), JoinRelease(version, release)) == Some(Evr(epoch, version, release))
  {
    SplitJoin(version, release);
  }

  lemma ReadsAfterColon(parseEpoch: string -> Option<int>, epoch: string, inner: string)
    requires ':' !in epoch
    ensures ReadAfterEpoch(parseEpoch, epoch + ":" + inner) == ReadDebianEvr(parseEpoch(epoch), inner)
  {
    assert epoch + ":" + inner == epoch + [':'] + inner;
    IndexBetween(epoch, ':', inner);
  }

  lemma JoinedIsSolid(epoch: string, version: string, release: string)
    requires Solid(epoch) && Solid(version) && Solid(release)
    ensures Solid(epoch + ":" + JoinRelease(version, release))
  {
    SolidConcat(version, "-");
    SolidConcat(version + "-", release);
    SolidConcat(epoch, ":");
    SolidConcat(epoch + ":", JoinRelease(version, release));
  }

  /** A version text with an epoch reads as its parts. */
  lemma DebianEvrReads(evr: Evr)
    requires IsInt32(evr.epoch) && Solid(evr.version) && Solid(evr.release) && evr.version != ""
    requires '-' !in evr.release && (evr.release == "" ==> '-' !in evr.version)
    ensures ParseDebianEvr(PrintInt(evr.epoch) + ":" + JoinRelease(evr.version, evr.release)) == Some(evr)
  {
    PrintIntShape(evr.epoch);
    JoinedIsSolid(PrintInt(evr.epoch), evr.version, evr.release);
    ReadsAfterColon(ParseEpoch, PrintInt(evr.epoch), JoinRelease(evr.version, evr.release));
    ParseEpochOfPrinted(evr.epoch);
    ReadJoined(evr.epoch, evr.version, evr.release);
  }

  // ----- RPM identifiers -----

  lemma ReadNevrSplits(prefix: string, rest: string, release: string)
    requires release != ""
    ensures ':' !in prefix ==> ReadNevr(prefix + ":" + rest, release) == ReadNevrAroundColon(prefix, rest, release)
    ensures ':' in prefix && ReadNevr(prefix + ":" + rest, release).Some? ==>
              |ReadNevr(prefix + ":" + rest, release).value.version| > |rest|
  {
    assert prefix + ":" + rest == prefix + [':'] + rest;
    IndexBetween(prefix, ':', rest);
  }

  lemma SameAsPrefix(a: string, more: string)
    ensures a + more == a <==> more == ""
  {
  }

  lemma ColonOnlyInName(name: string, n: int)
    ensures ':' in name + "-" + PrintInt(n) <==> ':' in name
  {
  }

  lemma NevrWithEpoch(before: string, epoch: int, evr: Evr, more: string, release: string)
    requires LastIndex(before, '-') >= 0 && EpochField(before) == Some(epoch)
    ensures ReadNevrAroundColon(before, evr.version + more, release) == Some(evr) <==>
              epoch == evr.epoch && more == "" && release == evr.release && evr.version != ""
  {
    SameAsPrefix(evr.version, more);
  }

  /** A body whose text before the colon is known to hold an epoch, and perhaps more after the version. */
  lemma NevrBodyWithEpoch(before: string, epoch: int, evr: Evr, more: string, release: string)
    requires LastIndex(before, '-') >= 0 && EpochField(before) == Some(epoch)
    ensures ReadNevr(before + ":" + (evr.version + more), release) == Some(evr) <==>
              ':' !in before && epoch == evr.epoch && more == "" && release == evr.release && release != "" && evr.version != ""
  {
    if release != "" {
      ReadNevrSplits(before, evr.version + more, release);
      if ':' !in before {
        NevrWithEpoch(before, epoch, evr, more, release);
      } else {
        assert |evr.version + more| >= |evr.version|;
      }
    }
  }

  /** When the server reads the agent's RPM identifier back correctly. */
  predicate RpmReadable(name: string, evr: Evr, arch: string) {
    && ':' !in name
    && evr.epoch >= 0
    && evr.version != ""
    && evr.release != "" && '-' !in evr.release && TrimRightSpace(evr.release) == evr.release
    && '.' !in arch
  }

  /** What is cut off at the last dash. */
  lemma CutAtLastDash(before: string, tail: string) returns (more: string, release: string)
    ensures LastIndex(before + "-" + tail, '-') >= 0
    ensures SplitRelease(before + "-" + tail) == (before + more, release)
    ensures more == "" <==> '-' !in tail
    ensures more == "" ==> release == tail
  {
    var text := before + ['-'] + tail;
    LastIndexBetween(before, '-', tail);
    var dash := LastIndex(text, '-');
    more, release := text[|before|..dash], text[dash + 1..];
    assert text[..dash] == before + more;
  }

  lemma NevrCut(value: string, prefix: string, version: string, tail: string) returns (body: string, more: string, release: string)
    requires TrimSpace(value) == (prefix + ":" + version) + "-" + tail
    ensures ParseRpmNevr(value) == ReadNevr(body, release) && body == prefix + ":" + (version + more)
    ensures more == "" <==> '-' !in tail
    ensures more == "" ==> release == tail
  {
    more, release := CutAtLastDash(prefix + ":" + version, tail);
    body := prefix + ":" + version + more;
    Shift(prefix + ":", version, more);
  }

  lemma NevrBack(value: string, prefix: string, epoch: int, evr: Evr, tail: string)
    requires TrimSpace(value) == (prefix + ":" + evr.version) + "-" + tail && HoldsEpoch(prefix, epoch)
    ensures ParseRpmNevr(value) == Some(evr) <==>
              && ':' !in prefix && epoch == evr.epoch && evr.version != ""
              && tail == evr.release && tail != "" && '-' !in tail
  {
    var body, more, release := NevrCut(value, prefix, evr.version, tail);
    NevrBodyWithEpoch(prefix, epoch, evr, more, release);
  }

  /** What is left of the release after the cut at the last dot. */
  lemma CutRpmArch(head: string, release: string, arch: string) returns (tail: string)
    ensures var printed := head + (release + "." + arch);
            LastIndex(printed, '.') >= 0 && printed[..LastIndex(printed, '.')] == head + tail
    ensures if '.' in arch then release + "." <= tail else tail == release
  {
    var inner := release + ['.'] + arch;
    LastIndexBetween(release, '.', arch);
    LastIndexAfter(head, inner, '.');
    assert release + "." + arch == inner;
    var dot := LastIndex(inner, '.');
    tail := inner[..dot];
    assert (head + inner)[..|head| + dot] == head + tail;
    if dot > |release| { assert tail == (release + ".") + arch[..dot - |release| - 1]; }
  }

  /** Trimming what is left gives the release back exactly if there is nothing to trim and the architecture has no dot. */
  lemma TrimmedTail(release: string, arch: string, tail: string)
    requires if '.' in arch then release + "." <= tail else tail == release
    ensures TrimRightSpace(tail) == release <==> '.' !in arch && TrimRightSpace(release) == release
  {
    if '.' in arch {
      var dotted := release + ".";
      assert tail == dotted + tail[|dotted|..];
      TrimRightConcat(dotted, tail[|dotted|..]);
      assert |TrimRightSpace(tail)| > |release|;
    }
  }

  lemma {:induction false} TrimLeftTwice(s: string)
    ensures TrimLeftSpace(TrimLeftSpace(s)) == TrimLeftSpace(s)
  {
  }

  /** A text with an epoch mark, trimmed, when its version is followed by a dash. */
  lemma MarkedTrimmed(name: string, epoch: int, version: string, tail: string)
    ensures TrimSpace(name + EpochMark(epoch) + (version + "-" + tail)) ==
            TrimLeftSpace(name) + EpochMark(epoch) + (version + "-" + TrimRightSpace(tail))
  {
    EpochMarkEnds(epoch);
    TrimAround(name, EpochMark(epoch), version + "-" + tail);
    TrimRightConcat(version + "-", tail);
  }

  lemma RpmTrimmed(name: string, evr: Evr, arch: string)
    ensures TrimSpace(FormatRpmNevra(name, evr, arch)) ==
            TrimLeftSpace(name) + EpochMark(evr.epoch) + (evr.version + "-" + (evr.release + "." + TrimRightSpace(arch)))
  {
    var tail := evr.release + "." + arch;
    assert FormatRpmNevra(name, evr, arch) == name + EpochMark(evr.epoch) + (evr.version + "-" + tail);
    MarkedTrimmed(name, evr.epoch, evr.version, tail);
    TrimRightConcat(evr.release + ".", arch);
  }

  /** The identifier without its architecture, as the second parser sees it. */
  lemma RpmBody(name: string, epoch: int, version: string, release: string, arch: string) returns (tail: string)
    ensures var trimmed := TrimLeftSpace(name) + EpochMark(epoch) + (version + "-" + (release + "." + TrimRightSpace(arch)));
            && trimmed != "" && LastIndex(trimmed, '.') >= 0
            && TrimSpace(trimmed[..LastIndex(trimmed, '.')]) == TrimLeftSpace(name) + EpochMark(epoch) + (version + "-" + tail)
    ensures tail == release <==> '.' !in arch && TrimRightSpace(release) == release
  {
    var start := TrimLeftSpace(name) + EpochMark(epoch);
    var cut := CutRpmArch(start + (version + "-"), release, TrimRightSpace(arch));
    Shift(start, version + "-", release + "." + TrimRightSpace(arch));
    Shift(start, version + "-", cut);
    TrimRightKeeps(arch, '.');
    tail := TrimRightSpace(cut);
    TrimmedTail(release, TrimRightSpace(arch), cut);
    MarkedTrimmed(TrimLeftSpace(name), epoch, version, cut);
    TrimLeftTwice(name);
  }

  lemma Shift(a: string, b: string, c: string)
    ensures a + b + c == a + (b + c)
  {
  }

  /** The two trims and the cut at the last dot, on the printed identifier. */
  lemma RpmValue(name: string, evr: Evr, arch: string) returns (value: string, tail: string)
    ensures ParseFixedNevra(false, FormatRpmNevra(name, evr, arch)) == ParseRpmNevr(value)
    ensures TrimSpace(value) == TrimLeftSpace(name) + EpochMark(evr.epoch) + (evr.version + "-" + tail)
    ensures tail == evr.release <==> '.' !in arch && TrimRightSpace(evr.release) == evr.release
  {
    RpmTrimmed(name, evr, arch);
    tail := RpmBody(name, evr.epoch, evr.version, evr.release, arch);
    var trimmed := TrimSpace(FormatRpmNevra(name, evr, arch));
    value := trimmed[..LastIndex(trimmed, '.')];
  }

  lemma RpmNevr(name: string, evr: Evr, arch: string) returns (value: string, prefix: string, tail: string)
    requires IsInt32(evr.epoch)
    ensures ParseFixedNevra(false, FormatRpmNevra(name, evr, arch)) == ParseRpmNevr(value)
    ensures TrimSpace(value) == (prefix + ":" + evr.version) + "-" + tail
    ensures HoldsEpoch(prefix, Magnitude(evr.epoch)) && (':' in prefix <==> ':' in name)
    ensures tail == evr.release <==> '.' !in arch && TrimRightSpace(evr.release) == evr.release
  {
    value, tail := RpmValue(name, evr, arch);
    prefix := PrefixOf(TrimLeftSpace(name), evr.epoch);
    TrimLeftKeeps(name, ':');
    Regrouped(TrimLeftSpace(name) + EpochMark(evr.epoch), prefix, evr.version, tail);
  }

  lemma Regrouped(start: string, prefix: string, version: string, tail: string)
    requires prefix + ":" == start
    ensures start + (version + "-" + tail) == (prefix + ":" + version) + "-" + tail
  {
  }

  /** Parsing an RPM identifier returns the printed epoch, version and release exactly in these cases. */
  lemma RpmRoundTrip(name: string, evr: Evr, arch: string)
    requires IsInt32(evr.epoch)
    ensures ParseFixedNevra(false, FormatRpmNevra(name, evr, arch)) == Some(evr) <==> RpmReadable(name, evr, arch)
  {
    var value, prefix, tail := RpmNevr(name, evr, arch);
    NevrBack(value, prefix, Magnitude(evr.epoch), evr, tail);
  }

  // ----- the running kernel -----

  /** When the server reads the agent's running-kernel string back correctly. */
  predicate KernelReadable(evr: Evr, arch: string) {
    && '.' !in arch && '-' !in evr.release
    && IsInt64(evr.epoch)
    && (evr.epoch == 0 ==>
          && ':' !in evr.version && ':' !in evr.release
          && ('-' !in evr.version || evr.release == "" || evr.version[|evr.version| - 1] == '-'))
  }

  /** The text after the epoch reads back exactly if the release is as printed. */
  lemma RpmEvrRest(epoch: int, evr: Evr, tail: string)
    ensures ReadRpmEvr(Some(epoch), evr.version + "-" + tail).Some?
    ensures ReadRpmEvr(Some(epoch), evr.version + "-" + tail) == Some(evr) <==>
              epoch == evr.epoch && tail == evr.release && '-' !in tail
  {
    var more, release := CutAtLastDash(evr.version, tail);
    SameAsPrefix(evr.version, more);
  }

  /** A text with an epoch before its first colon. */
  lemma RpmEvrAfterColon(epoch: string, inner: string)
    requires Solid(epoch) && Solid(inner) && ':' !in epoch
    ensures var body := epoch + ":" + inner;
            Index(body, ':') >= 0 && ParseRpmEvr(body) == ReadRpmEvr(ParseInt(epoch, INT64_LIMIT), inner)
  {
    var body := epoch + ":" + inner;
    assert Solid(body);
    IndexBetween(epoch, ':', inner);
    assert body == epoch + [':'] + inner;
  }

  lemma NoColon(version: string, tail: string)
    ensures Index(version + "-" + tail, ':') == -1 <==> ':' !in version && ':' !in tail
  {
    var body := version + "-" + tail;
    assert ':' in body <==> ':' in version || ':' in tail;
  }

  /** Without an epoch in front the whole body is read. */
  lemma RpmEvrWithoutEpoch(version: string, tail: string)
    requires Solid(version) && Solid(tail) && ':' !in version && ':' !in tail
    ensures ParseRpmEvr(version + "-" + tail) == ReadRpmEvr(Some(0), version + "-" + tail)
  {
    var body := version + "-" + tail;
    NoColon(version, tail);
    assert Solid(body);
    assert body[0..] == body;
  }

  lemma NevrAroundColonIsShorter(before: string, version: string, release: string)
    requires ReadNevrAroundColon(before, version, release).Some?
    ensures var evr := ReadNevrAroundColon(before, version, release).value;
            evr.version == version && evr.release == release && IsInt64(evr.epoch)
  {
  }

  /** Reading a version and release as the rest of a full NEVR. */
  lemma NevrCase(version: string, release: string)
    ensures var parsed := ReadNevr(version, release);
            && (parsed.Some? ==> |parsed.value.version| < |version| && parsed.value.release == release && IsInt64(parsed.value.epoch))
            && (':' !in version ==>
                  (parsed.Some? <==> '-' in version && release != "" && version[|version| - 1] != '-'))
  {
    var colon := Index(version, ':');
    if colon == -1 {
      NevrWithoutColon(version, release);
    } else if ReadNevr(version, release).Some? {
      NevrAroundColonIsShorter(version[..colon], version[colon + 1..], release);
    }
  }

  lemma NevrWithoutColon(version: string, release: string)
    requires Index(version, ':') == -1
    ensures ReadNevr(version, release).Some? <==> '-' in version && release != "" && version[|version| - 1] != '-'
  {
    var dash := LastIndex(version, '-');
    assert dash >= 0 ==> version[dash] == '-';
  }

  /** The reading as a full NEVR never yields the printed version, and fails if no name can be seen before it. */
  lemma NevrMisreads(version: string, release: string)
    requires Solid(version) && Solid(release) && '-' !in release
    ensures var parsed := ParseRpmNevr(version + "-" + release);
            && (parsed.Some? ==> |parsed.value.version| < |version|)
            && (':' !in version ==>
                  (parsed.Some? <==> '-' in version && release != "" && version[|version| - 1] != '-'))
  {
    var body := version + "-" + release;
    assert Solid(body);
    var more, cut := CutAtLastDash(version, release);
    assert version + more == version;
    assert ParseRpmNevr(body) == ReadNevr(version, release);
    NevrCase(version, release);
  }

  /** Colons in a version or release printed without its zero epoch never read back. */
  lemma ColonWithoutEpoch(evr: Evr)
    requires Solid(evr.version) && Solid(evr.release)
    requires ':' in evr.version || ':' in evr.release
    ensures ParseRpmEvr(evr.version + "-" + evr.release) != Some(evr)
  {
  }

  /** What is read has an epoch of 64 bits and the text after the last dash as its release. */
  ghost predicate IsReading(evr: Evr, body: string) {
    IsInt64(evr.epoch) && LastIndex(body, '-') >= 0 && evr.release == body[LastIndex(body, '-') + 1..]
  }

  lemma RestReading(epoch: Option<int>, before: string, rest: string)
    requires ReadRpmEvr(epoch, rest).Some? && IsInt64(epoch.value)
    ensures IsReading(ReadRpmEvr(epoch, rest).value, before + rest)
  {
    LastIndexAfter(before, rest, '-');
    assert (before + rest)[|before| + LastIndex(rest, '-') + 1..] == rest[LastIndex(rest, '-') + 1..];
  }

  lemma EvrParts(body: string) returns (epoch: Option<int>, before: string, rest: string)
    requires Solid(body) && ParseRpmEvr(body).Some?
    ensures body == before + rest && ParseRpmEvr(body) == ReadRpmEvr(epoch, rest) && epoch.Some? && IsInt64(epoch.value)
  {
    var colon := Index(body, ':');
    before, rest := body[..colon + 1], body[colon + 1..];
    epoch := if colon == -1 then Some(0) else ParseInt(body[..colon], INT64_LIMIT);
  }

  lemma EvrReading(body: string)
    requires Solid(body) && ParseRpmEvr(body).Some?
    ensures IsReading(ParseRpmEvr(body).value, body)
  {
    var epoch, before, rest := EvrParts(body);
    RestReading(epoch, before, rest);
  }

  lemma NevrReading(body: string)
    requires Solid(body) && ParseRpmNevr(body).Some?
    ensures IsReading(ParseRpmNevr(body).value, body)
  {
    assert ParseRpmNevr(body) == ReadNevr(SplitRelease(body).0, SplitRelease(body).1);
    NevrCase(SplitRelease(body).0, SplitRelease(body).1);
  }

  lemma KernelReading(body: string)
    requires Solid(body) && ReadKernelBody(body).Some?
    ensures IsReading(ReadKernelBody(body).value, body)
  {
    if ParseRpmEvr(body).Some? { EvrReading(body); }
    if ParseRpmNevr(body).Some? { NevrReading(body); }
  }

  /** A body that ends in a dash and a dash-free text has that text as its release. */
  lemma ReadingAfterDash(evr: Evr, before: string, tail: string)
    requires IsReading(evr, before + "-" + tail)
    ensures '-' !in evr.release && ('-' !in tail ==> evr.release == tail)
  {
    assert before + "-" + tail == before + ['-'] + tail;
    LastIndexBetween(before, '-', tail);
  }

  lemma KernelBodyZeroEpoch(evr: Evr)
    requires evr.epoch == 0 && Solid(evr.version) && Solid(evr.release) && '-' !in evr.release
    ensures ReadKernelBody(evr.version + "-" + evr.release) == Some(evr) <==> KernelReadable(evr, "")
  {
    NevrMisreads(evr.version, evr.release);
    NoColon(evr.version, evr.release);
    if ':' in evr.version || ':' in evr.release {
      ColonWithoutEpoch(evr);
    } else {
      RpmEvrWithoutEpoch(evr.version, evr.release);
      RpmEvrRest(0, evr, evr.release);
    }
  }

  lemma KernelBodyWithEpoch(evr: Evr)
    requires evr.epoch != 0 && IsInt64(evr.epoch) && Solid(evr.version) && Solid(evr.release) && '-' !in evr.release
    ensures ReadKernelBody(PrintInt(evr.epoch) + ":" + (evr.version + "-" + evr.release)) == Some(evr)
  {
    PrintIntShape(evr.epoch);
    ParsePrintInt(evr.epoch, INT64_LIMIT);
    SolidConcat(evr.version, "-");
    SolidConcat(evr.version + "-", evr.release);
    RpmEvrAfterColon(PrintInt(evr.epoch), evr.version + "-" + evr.release);
    RpmEvrRest(evr.epoch, evr, evr.release);
  }

  /** What the agent prints before the version: the `0:` of a zero epoch is trimmed. */
  function KernelEpoch(epoch: int): string { if epoch == 0 then "" else PrintInt(epoch) + ":" }

  /** What the agent prints before the architecture. */
  function KernelBody(evr: Evr): string { KernelEpoch(evr.epoch) + (evr.version + "-" + evr.release) }

  lemma KernelLine(evr: Evr, arch: string)
    ensures FormatRunningKernel(evr, arch) == KernelBody(evr) + "." + arch
  {
    LinePieces(PrintInt(evr.epoch), evr.version, evr.release, arch);
    if evr.epoch == 0 {
      assert PrintInt(0) == "0";
    } else {
      assert PrintInt(evr.epoch)[0] != '0';
    }
  }

  lemma LinePieces(epoch: string, version: string, release: string, arch: string)
    requires epoch != ""
    ensures var line, inner := epoch + ":" + version + "-" + release + "." + arch, version + "-" + release;
            && line[0] == epoch[0] && line == (epoch + ":") + inner + "." + arch
            && (epoch == "0" ==> HasPrefix(line, "0:") && line[2..] == "" + inner + "." + arch)
  {
    var line := epoch + ":" + version + "-" + release + "." + arch;
    if epoch == "0" { assert line[..2] == "0:"; }
  }

  lemma KernelBodyIsSolid(evr: Evr, arch: string)
    requires Solid(evr.version) && Solid(evr.release) && Solid(arch)
    ensures Solid(KernelBody(evr)) && Solid(KernelBody(evr) + "." + arch)
  {
    PrintIntShape(evr.epoch);
    SolidConcat(PrintInt(evr.epoch), ":");
    SolidConcat(evr.version, "-");
    SolidConcat(evr.version + "-", evr.release);
    SolidConcat(KernelEpoch(evr.epoch), evr.version + "-" + evr.release);
    SolidConcat(KernelBody(evr), ".");
    SolidConcat(KernelBody(evr) + ".", arch);
  }

  /** What is left before the last dot: the body, followed by a dot and more if the architecture has a dot. */
  lemma CutLastDot(body: string, arch: string) returns (more: string)
    ensures var line := body + "." + arch; LastIndex(line, '.') >= 0 && line[..LastIndex(line, '.')] == body + more
    ensures more == "" <==> '.' !in arch
    ensures '-' in more ==> '-' in arch
  {
    var dot := LastIndex(arch, '.');
    if dot == -1 {
      more := "";
      LastIndexBetween(body, '.', arch);
      assert body + "." + arch == body + ['.'] + arch;
    } else {
      more := "." + arch[..dot];
      LastIndexAfter(body + ".", arch, '.');
      assert (body + "." + arch)[..|body| + 1 + dot] == body + more;
    }
  }

  lemma SolidPrefix(s: string, n: nat)
    requires n <= |s| && Solid(s)
    ensures Solid(s[..n])
  {
  }

  lemma CutKernelArch(body: string, arch: string) returns (more: string)
    requires Solid(body + "." + arch)
    ensures ParseRunningKernel(body + "." + arch) == ReadKernelBody(body + more) && Solid(body + more)
    ensures more == "" <==> '.' !in arch
    ensures '-' in more ==> '-' in arch
  {
    more := CutLastDot(body, arch);
    SolidPrefix(body + "." + arch, LastIndex(body + "." + arch, '.'));
  }

  /** The printed body with more text after it, cut at the dash before the release. */
  lemma KernelDash(evr: Evr, more: string) returns (before: string)
    ensures KernelBody(evr) + more == before + "-" + (evr.release + more)
  {
    before := KernelEpoch(evr.epoch) + evr.version;
  }

  /** A release with a dash, more text after it or an epoch beyond 64 bits never reads back. */
  lemma KernelMisreads(evr: Evr, more: string)
    requires Solid(KernelBody(evr) + more) && '-' !in more
    requires '-' in evr.release || more != "" || !IsInt64(evr.epoch)
    ensures ReadKernelBody(KernelBody(evr) + more) != Some(evr)
  {
    var before := KernelDash(evr, more);
    NeverReads(before, more, evr);
  }

  lemma NeverReads(before: string, more: string, evr: Evr)
    requires Solid(before + "-" + (evr.release + more)) && '-' !in more
    requires '-' in evr.release || more != "" || !IsInt64(evr.epoch)
    ensures ReadKernelBody(before + "-" + (evr.release + more)) != Some(evr)
  {
    var body := before + "-" + (evr.release + more);
    if ReadKernelBody(body) == Some(evr) {
      KernelReading(body);
      ReadingAfterDash(evr, before, evr.release + more);
      SameAsPrefix(evr.release, more);
    }
  }

  lemma KernelBodyBack(evr: Evr)
    requires Solid(evr.version) && Solid(evr.release) && '-' !in evr.release && IsInt64(evr.epoch)
    ensures ReadKernelBody(KernelBody(evr)) == Some(evr) <==> KernelReadable(evr, "")
  {
    if evr.epoch == 0 {
      KernelBodyZeroEpoch(evr);
      assert KernelBody(evr) == evr.version + "-" + evr.release;
    } else {
      KernelBodyWithEpoch(evr);
      assert KernelBody(evr) == PrintInt(evr.epoch) + ":" + (evr.version + "-" + evr.release);
    }
  }

  /** The parser recovers the running kernel from the agent's string exactly in these cases. */
  lemma RunningKernelRoundTrip(evr: Evr, arch: string)
    requires Solid(evr.version) && Solid(evr.release) && Solid(arch) && ('.' !in arch || '-' !in arch)
    ensures ParseRunningKernel(FormatRunningKernel(evr, arch)) == Some(evr) <==> KernelReadable(evr, arch)
  {
    KernelLine(evr, arch);
    KernelBodyIsSolid(evr, arch);
    var more := CutKernelArch(KernelBody(evr), arch);
    assert more == "" ==> KernelBody(evr) + more == KernelBody(evr);
    if '-' in evr.release || more != "" || !IsInt64(evr.epoch) {
      KernelMisreads(evr, more);
    } else {
      KernelBodyBack(evr);
    }
  }

  lemma TwiceDashed(version: string, release: string)
    requires Solid(version) && Solid(release) && version != "" && release != ""
    requires '-' !in version && ':' !in version && '-' !in release && ':' !in release
    ensures var body := version + "-" + version + "-" + release;
            Solid(body) && ReadKernelBody(body) == Some(Evr(0, version, release))
  {
    var front := version + ['-'] + version;
    var body := front + "-" + release;
    assert front == version + "-" + version && Solid(body) && ':' !in front && Index(body, ':') == -1;
    var more, cut := CutAtLastDash(front, release);
    assert front + more == front;
    LastIndexBetween(version, '-', version);
    assert ReadNevr(front, release) == Some(Evr(0, version, release));
  }

  lemma AccidentPieces(x: string, y: string, z: string)
    ensures var version := y + "." + x;
            (version + "-" + y) + "." + (x + "-" + y + "." + z) == (version + "-" + version + "-" + y) + "." + z
  {
  }

  lemma AccidentLine(x: string, y: string, z: string)
    ensures var version := y + "." + x;
            FormatRunningKernel(Evr(0, version, y), x + "-" + y + "." + z) == (version + "-" + version + "-" + y) + "." + z
  {
    var version := y + "." + x;
    KernelLine(Evr(0, version, y), x + "-" + y + "." + z);
    assert KernelBody(Evr(0, version, y)) == version + "-" + y;
    AccidentPieces(x, y, z);
  }

  lemma BodyBeforeArch(body: string, arch: string)
    requires Solid(body) && Solid(arch) && '.' !in arch
    ensures ParseRunningKernel(body + "." + arch) == ReadKernelBody(body)
  {
    SolidConcat(body, ".");
    SolidConcat(body + ".", arch);
    var more := CutKernelArch(body, arch);
    assert body + more == body;
  }

  /** Why an architecture with a dot and a dash is left out: parts of it can pass for the version and release. */
  lemma ArchCanPassForVersion(x: string, y: string, z: string)
    requires Solid(x) && Solid(y) && Solid(z) && y != "" && '.' !in z
    requires '-' !in x && ':' !in x && '-' !in y && ':' !in y
    ensures var evr, arch := Evr(0, y + "." + x, y), x + "-" + y + "." + z;
            '.' in arch && ParseRunningKernel(FormatRunningKernel(evr, arch)) == Some(evr)
  {
    var version := y + "." + x;
    assert (x + "-" + y + "." + z)[|x| + 1 + |y|] == '.';
    AccidentLine(x, y, z);
    TwiceDashed(version, y);
    BodyBeforeArch(version + "-" + version + "-" + y, z);
  }

  /** A negative epoch does not read back: its sign passes for one more dash. */
  lemma NegativeEpochMisreads() returns (name: string, evr: Evr, arch: string)
    ensures name == "bash" && evr == Evr(-1, "5", "2") && arch == ""
    ensures ParseDebianNevra(FormatIdentifier(name, evr, arch)) != Some(evr)
  {
    name, evr, arch := "bash", Evr(-1, "5", "2"), "";
    DebianRoundTrip(name, evr, arch);
  }

  /** A dot in the architecture moves into the release. */
  lemma DottedArchMisreads() returns (name: string, evr: Evr, arch: string)
    ensures name == "bash" && evr == Evr(0, "5", "2") && arch == "x.y"
    ensures ParseFixedNevra(false, FormatRpmNevra(name, evr, arch)) != Some(evr)
  {
    name, evr, arch := "bash", Evr(0, "5", "2"), "x.y";
    assert arch[1] == '.';
    RpmRoundTrip(name, evr, arch);
  }

  /** A dash in the version of a running kernel without an epoch passes for the end of a package name. */
  lemma DashedKernelMisreads() returns (evr: Evr, arch: string)
    ensures evr == Evr(0, "6-rc", "2") && arch == "x"
    ensures ParseRunningKernel(FormatRunningKernel(evr, arch)) != Some(evr)
  {
    evr, arch := Evr(0, "6-rc", "2"), "x";
    assert evr.version[1] == '-';
    RunningKernelRoundTrip(evr, arch);
  }
}
