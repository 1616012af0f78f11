/** Epoch, version and release; the order of each package family and the rules that refer to it. */
module Evr {
  import opened GoStrings
  import DebianVersion
  import RpmVersion
  import PaddedOrder

  datatype Evr = Evr(epoch: int, version: string, release: string)

  function CompareVersions(apt: bool, l: string, r: string): int {
    if apt then DebianVersion.CompareVersions(l, r) else RpmVersion.CompareVersions(l, r)
  }

  /** compareDebianEVR when `apt`, compareEVR otherwise. */
  function Compare(apt: bool, l: Evr, r: Evr): int {
    if l.epoch < r.epoch then -1
    else if l.epoch > r.epoch then 1
    else
      var compared := CompareVersions(apt, l.version, r.version);
      if compared != 0 then compared else CompareVersions(apt, l.release, r.release)
  }

  /** One version string is before another at their first difference, or they differ nowhere. */
  ghost predicate VersionBefore(apt: bool, l: string, r: string) {
    if apt then PaddedOrder.Before(DebianVersion.Key(l), DebianVersion.Key(r))
    else RpmVersion.TokensBefore(RpmVersion.Tokens(l), RpmVersion.Tokens(r))
  }

  ghost predicate VersionSame(apt: bool, l: string, r: string) {
    if apt then PaddedOrder.SamePadded(DebianVersion.Key(l), DebianVersion.Key(r)) else RpmVersion.Tokens(l) == RpmVersion.Tokens(r)
  }

  /** The epoch decides before the version, and the version before the release. */
  ghost predicate EvrBefore(apt: bool, l: Evr, r: Evr) {
    || l.epoch < r.epoch
    || (l.epoch == r.epoch && VersionBefore(apt, l.version, r.version))
    || (l.epoch == r.epoch && VersionSame(apt, l.version, r.version) && VersionBefore(apt, l.release, r.release))
  }

  ghost predicate EvrSame(apt: bool, l: Evr, r: Evr) {
    l.epoch == r.epoch && VersionSame(apt, l.version, r.version) && VersionSame(apt, l.release, r.release)
  }

  lemma VersionsMeaning(apt: bool, l: string, r: string)
    ensures CompareVersions(apt, l, r) < 0 <==> VersionBefore(apt, l, r)
    ensures CompareVersions(apt, l, r) == 0 <==> VersionSame(apt, l, r)
    ensures CompareVersions(apt, l, r) > 0 <==> VersionBefore(apt, r, l)
  {
    if apt {
      DebianVersion.VersionsByPaddedKey(l, r);
    } else {
      RpmVersion.CompareTokensMeaning(RpmVersion.Tokens(l), RpmVersion.Tokens(r));
      RpmVersion.CompareTokensMeaning(RpmVersion.Tokens(r), RpmVersion.Tokens(l));
    }
  }

  /** Less, equal and greater are exactly before, same and after in the lexicographic order of the three parts. */
  lemma CompareMeaning(apt: bool, l: Evr, r: Evr)
    ensures Compare(apt, l, r) < 0 <==> EvrBefore(apt, l, r)
    ensures Compare(apt, l, r) == 0 <==> EvrSame(apt, l, r)
    ensures Compare(apt, l, r) > 0 <==> EvrBefore(apt, r, l)
  {
    VersionsMeaning(apt, l.version, r.version);
    VersionsMeaning(apt, r.version, l.version);
    VersionsMeaning(apt, l.release, r.release);
    VersionsMeaning(apt, r.release, l.release);
  }

  /** The comparison as the code runs it, on the version loops. */
  method CompareEvr(apt: bool, l: Evr, r: Evr) returns (c: int)
    ensures c == Compare(apt, l, r)
    ensures c < 0 <==> EvrBefore(apt, l, r)
    ensures c == 0 <==> EvrSame(apt, l, r)
  {
    CompareMeaning(apt, l, r);
    if l.epoch < r.epoch { return -1; }
    if l.epoch > r.epoch { return 1; }
    if apt {
      c := DebianVersion.CompareVersionStrings(l.version, r.version);
      if c != 0 { return c; }
      c := DebianVersion.CompareVersionStrings(l.release, r.release);
    } else {
      c := RpmVersion.CompareVersionStrings(l.version, r.version);
      if c != 0 { return c; }
      c := RpmVersion.CompareVersionStrings(l.release, r.release);
    }
  }

  lemma VersionsAntisymmetric(apt: bool, l: string, r: string)
    ensures CompareVersions(apt, l, r) == -CompareVersions(apt, r, l)
    ensures -1 <= CompareVersions(apt, l, r) <= 1
  {
    if apt {
      PaddedOrder.CompareAntisymmetric(DebianVersion.Key(l), DebianVersion.Key(r));
    } else {
      RpmVersion.CompareTokensMeaning(RpmVersion.Tokens(l), RpmVersion.Tokens(r));
    }
  }

  lemma VersionsTransitive(apt: bool, l: string, m: string, r: string)
    requires CompareVersions(apt, l, m) <= 0 && CompareVersions(apt, m, r) <= 0
    ensures CompareVersions(apt, l, r) <= 0
  {
    if apt {
      PaddedOrder.CompareTransitive(DebianVersion.Key(l), DebianVersion.Key(m), DebianVersion.Key(r));
    } else {
      RpmVersion.CompareTokensTransitive(RpmVersion.Tokens(l), RpmVersion.Tokens(m), RpmVersion.Tokens(r));
    }
  }

  /** Both EVR orders are sign-antisymmetric, hence reflexive. */
  lemma Antisymmetric(apt: bool, l: Evr, r: Evr)
    ensures Compare(apt, l, r) == -Compare(apt, r, l)
    ensures -1 <= Compare(apt, l, r) <= 1
  {
    VersionsAntisymmetric(apt, l.version, r.version);
    VersionsAntisymmetric(apt, l.release, r.release);
  }

  /** Both EVR orders are transitive, and so is their equality: they are total preorders. */
  lemma Transitive(apt: bool, l: Evr, m: Evr, r: Evr)
    requires Compare(apt, l, m) <= 0 && Compare(apt, m, r) <= 0
    ensures Compare(apt, l, r) <= 0
    ensures Compare(apt, l, r) == 0 <==> Compare(apt, l, m) == 0 && Compare(apt, m, r) == 0
  {
    VersionChain(apt, l.version, m.version, r.version);
    VersionChain(apt, l.release, m.release, r.release);
  }

  /** Transitivity of one component, with its strict and equal cases. */
  lemma VersionChain(apt: bool, l: string, m: string, r: string)
    ensures CompareVersions(apt, l, m) <= 0 && CompareVersions(apt, m, r) <= 0 ==>
              && CompareVersions(apt, l, r) <= 0
              && (CompareVersions(apt, l, r) == 0 <==> CompareVersions(apt, l, m) == 0 && CompareVersions(apt, m, r) == 0)
  {
    if CompareVersions(apt, l, m) <= 0 && CompareVersions(apt, m, r) <= 0 {
      VersionsTransitive(apt, l, m, r);
      VersionsAntisymmetric(apt, l, m);
      VersionsAntisymmetric(apt, m, r);
      VersionsAntisymmetric(apt, l, r);
      if CompareVersions(apt, l, r) == 0 {
        VersionsTransitive(apt, r, l, m);
        VersionsTransitive(apt, m, r, l);
      }
      if CompareVersions(apt, l, m) == 0 && CompareVersions(apt, m, r) == 0 {
        VersionsTransitive(apt, r, m, l);
      }
    }
  }

  /** The RPM order forgets nothing but separators, leading zeros and surrounding space. */
  lemma RpmEqualityByTokens(l: Evr, r: Evr)
    ensures Compare(false, l, r) == 0 <==>
              && l.epoch == r.epoch
              && RpmVersion.Tokens(l.version) == RpmVersion.Tokens(r.version)
              && RpmVersion.Tokens(l.release) == RpmVersion.Tokens(r.release)
  {
    RpmVersion.CompareTokensMeaning(RpmVersion.Tokens(l.version), RpmVersion.Tokens(r.version));
    RpmVersion.CompareTokensMeaning(RpmVersion.Tokens(l.release), RpmVersion.Tokens(r.release));
  }

  // ----- parsing -----

  /** parseDebianEpoch, and the agent's parseEpoch. */
  function ParseEpoch(value: string): Option<int> {
    var trimmed := TrimSpace(value);
    if trimmed == "" || trimmed == "(none)" then Some(0) else ParseInt(trimmed, INT32_LIMIT)
  }

  /** Splits at the last dash; without one the release is empty. */
  function SplitRelease(value: string): (string, string) {
    var dash := LastIndex(value, '-');
    if dash >= 0 then (value[..dash], value[dash + 1..]) else (value, "")
  }

  /** parseDebianVersionParts, and the agent's parseDebianVersion. */
  function ParseDebianEvr(value: string): Option<Evr> { ReadAfterEpoch(ParseEpoch, TrimSpace(value)) }

  function ReadAfterEpoch(parseEpoch: string -> Option<int>, text: string): Option<Evr> {
    var colon := Index(text, ':');
    if colon >= 0 then ReadDebianEvr(parseEpoch(text[..colon]), text[colon + 1..]) else ReadDebianEvr(Some(0), text)
  }

  /** Its part after the epoch. */
  function ReadDebianEvr(epoch: Option<int>, version: string): Option<Evr> {
    var parts := SplitRelease(version);
    if epoch.None? || version == "" || parts.0 == "" then None else Some(Evr(epoch.value, parts.0, parts.1))
  }

  /** parseEVR: the last dash must stand after the first colon. */
  function ParseRpmEvr(value: string): Option<Evr> {
    var trimmed := TrimSpace(value);
    var colon := Index(trimmed, ':');
    var epoch := if colon == -1 then Some(0) else ParseInt(trimmed[..colon], INT64_LIMIT);
    ReadRpmEvr(epoch, trimmed[colon + 1..])
  }

  function ReadRpmEvr(epoch: Option<int>, rest: string): Option<Evr> {
    if LastIndex(rest, '-') == -1 || epoch.None? then None
    else Some(Evr(epoch.value, SplitRelease(rest).0, SplitRelease(rest).1))
  }

  // ----- rules -----

  function ParseRuleTarget(apt: bool, value: string): Option<Evr> {
    if apt then ParseDebianEvr(value) else ParseRpmEvr(value)
  }

  /** evaluateDebianEVRRule and evaluateEVRRule; None is the error. */
  function EvaluateRule(apt: bool, installed: Evr, rule: string): Option<bool> {
    var parts := Fields(TrimSpace(rule));
    if |parts| != 2 || ParseRuleTarget(apt, parts[1]).None? then None
    else
      ApplyOperator(parts[0], Compare(apt, installed, ParseRuleTarget(apt, parts[1]).value))
  }

  function ApplyOperator(operator: string, compared: int): Option<bool> {
    match operator
    case "<" => Some(compared < 0)
    case "<=" => Some(compared <= 0)
    case "=" => Some(compared == 0)
    case ">=" => Some(compared >= 0)
    case ">" => Some(compared > 0)
    case _ => None
  }

  /** What each operator says of an installed EVR and its target. */
  ghost predicate Holds(apt: bool, operator: string, installed: Evr, target: Evr) {
    || (operator == "<" && EvrBefore(apt, installed, target))
    || (operator == "<=" && (EvrBefore(apt, installed, target) || EvrSame(apt, installed, target)))
    || (operator == "=" && EvrSame(apt, installed, target))
    || (operator == ">=" && (EvrBefore(apt, target, installed) || EvrSame(apt, installed, target)))
    || (operator == ">" && EvrBefore(apt, target, installed))
  }

  predicate IsOperator(operator: string) {
    operator == "<" || operator == "<=" || operator == "=" || operator == ">=" || operator == ">"
  }

  lemma OperatorMeaning(operator: string, compared: int)
    ensures ApplyOperator(operator, compared).Some? <==> IsOperator(operator)
    ensures ApplyOperator(operator, compared) == Some(true) <==>
              || (operator == "<" && compared < 0) || (operator == "<=" && compared <= 0) || (operator == "=" && compared == 0)
              || (operator == ">=" && compared >= 0) || (operator == ">" && compared > 0)
  {
  }

  lemma OperatorHolds(apt: bool, operator: string, installed: Evr, target: Evr)
    ensures ApplyOperator(operator, Compare(apt, installed, target)) == Some(true) <==> Holds(apt, operator, installed, target)
  {
    CompareMeaning(apt, installed, target);
    OperatorMeaning(operator, Compare(apt, installed, target));
  }

  lemma RuleWords(apt: bool, installed: Evr, operator: string, target: string)
    requires Solid(operator) && Solid(target) && operator != "" && target != ""
    ensures EvaluateRule(apt, installed, operator + " " + target) ==
            if ParseRuleTarget(apt, target).None? then None
            else ApplyOperator(operator, Compare(apt, installed, ParseRuleTarget(apt, target).value))
  {
    FieldsOfTwo(operator, target);
  }

  /** A rule of an operator and a target is true exactly if the operator says so, and an error exactly if either is unreadable. */
  lemma RuleMeaning(apt: bool, installed: Evr, operator: string, target: string)
    requires Solid(operator) && Solid(target) && operator != "" && target != ""
    ensures var result := EvaluateRule(apt, installed, operator + " " + target);
            && (result.Some? <==> IsOperator(operator) && ParseRuleTarget(apt, target).Some?)
            && (result.Some? ==> (result.value <==> Holds(apt, operator, installed, ParseRuleTarget(apt, target).value)))
  {
    RuleWords(apt, installed, operator, target);
    if ParseRuleTarget(apt, target).Some? {
      var e := ParseRuleTarget(apt, target).value;
      OperatorMeaning(operator, Compare(apt, installed, e));
      OperatorHolds(apt, operator, installed, e);
    }
  }

  function RuleOperator(rule: string): string {
    var parts := Fields(TrimSpace(rule));
    if |parts| == 2 then parts[0] else ""
  }

  /** Whether a rule is well formed does not depend on what is installed. */
  lemma RuleErrorIsStatic(apt: bool, low: Evr, high: Evr, rule: string)
    ensures EvaluateRule(apt, low, rule).None? <==> EvaluateRule(apt, high, rule).None?
  {
    var parts := Fields(TrimSpace(rule));
    if |parts| == 2 && ParseRuleTarget(apt, parts[1]).Some? {
      var target := ParseRuleTarget(apt, parts[1]).value;
      OperatorErrorIsStatic(parts[0], Compare(apt, low, target), Compare(apt, high, target));
    }
  }

  lemma OperatorErrorIsStatic(operator: string, low: int, high: int)
    ensures ApplyOperator(operator, low).None? <==> ApplyOperator(operator, high).None?
  {
  }

  lemma OperatorMonotone(operator: string, low: int, high: int)
    requires low <= high
    ensures operator == "<" || operator == "<=" ==>
              (ApplyOperator(operator, high) == Some(true) ==> ApplyOperator(operator, low) == Some(true))
    ensures operator == ">" || operator == ">=" ==>
              (ApplyOperator(operator, low) == Some(true) ==> ApplyOperator(operator, high) == Some(true))
  {
  }

  /** The comparison with a fixed EVR is monotone. */
  lemma CompareMonotone(apt: bool, low: Evr, high: Evr, target: Evr)
    requires Compare(apt, low, high) <= 0
    ensures Compare(apt, low, target) <= Compare(apt, high, target)
    ensures Compare(apt, target, high) <= Compare(apt, target, low)
  {
    Antisymmetric(apt, low, target);
    Antisymmetric(apt, high, target);
    if Compare(apt, high, target) <= 0 { Transitive(apt, low, high, target); }
    if Compare(apt, target, low) <= 0 { Transitive(apt, target, low, high); }
  }

  /** `<` and `<=` rules are downward closed and `>` and `>=` rules upward closed in the installed EVR. */
  lemma RuleMonotone(apt: bool, low: Evr, high: Evr, rule: string)
    requires Compare(apt, low, high) <= 0
    ensures RuleOperator(rule) == "<" || RuleOperator(rule) == "<=" ==>
              (EvaluateRule(apt, high, rule) == Some(true) ==> EvaluateRule(apt, low, rule) == Some(true))
    ensures RuleOperator(rule) == ">" || RuleOperator(rule) == ">=" ==>
              (EvaluateRule(apt, low, rule) == Some(true) ==> EvaluateRule(apt, high, rule) == Some(true))
  {
    var parts := Fields(TrimSpace(rule));
    if |parts| == 2 && ParseRuleTarget(apt, parts[1]).Some? {
      var target := ParseRuleTarget(apt, parts[1]).value;
      CompareMonotone(apt, low, high, target);
      OperatorMonotone(parts[0], Compare(apt, low, target), Compare(apt, high, target));
    }
  }
}
