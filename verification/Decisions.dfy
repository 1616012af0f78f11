/** The decision for one advisory and one installed package. */
module Decisions {
  import opened GoStrings
  import opened Evr
  import opened Inventory

  datatype Status = Resolved | FixAvailable | PendingActivation | NoFix | UnknownStatus | OtherStatus(text: string)

  datatype Action = NoAction | Investigate | UpdatePackage | RestartService | RebootHost | OtherAction(text: string)

  datatype Reason = FixNotInstalled(fixNevra: string) | AtOrAboveFixed | KernelNotRunning(running: string)
                  | MultipleRules | NoVendorFix

  /** A decision record without its random id, its host and its timestamp. */
  datatype Decision = Decision(advisoryId: string, streamId: Option<string>, packageName: string, installedNevra: string,
                               fixedNevra: Option<string>, status: Status, action: Action, severity: string,
                               evidenceTier: string, reason: Reason)

  datatype Verdict = Fail | Skip | Emit(decision: Decision)

  // ----- best fix -----

  /** The first of the newest fixes. */
  function BestFix(apt: bool, fixes: seq<Fix>): Fix
    requires fixes != []
  {
    var n := |fixes| - 1;
    if n == 0 then fixes[0]
    else
      var best := BestFix(apt, fixes[..n]);
      if Compare(apt, fixes[n].evr, best.evr) > 0 then fixes[n] else best
  }

  /** selectBestFix; None is its error. */
  method SelectBestFix(apt: bool, fixes: seq<Fix>) returns (best: Option<Fix>)
    ensures best == if fixes == [] then None else Some(BestFix(apt, fixes))
  {
    if |fixes| == 0 { return None; }
    var selected := fixes[0];
    for i := 1 to |fixes|
      invariant selected == BestFix(apt, fixes[..i])
    {
      assert fixes[..i + 1][..i] == fixes[..i];
      var compared := CompareEvr(apt, fixes[i].evr, selected.evr);
      if compared > 0 { selected := fixes[i]; }
    }
    assert fixes[..|fixes|] == fixes;
    return Some(selected);
  }

  /** `i` holds an upper bound of all fixes and is the first index that does. */
  ghost predicate IsFirstUpperBound(apt: bool, fixes: seq<Fix>, i: nat) {
    && i < |fixes|
    && (forall j | 0 <= j < |fixes| :: Compare(apt, fixes[j].evr, fixes[i].evr) <= 0)
    && (forall j | 0 <= j < i :: Compare(apt, fixes[j].evr, fixes[i].evr) < 0)
  }

  lemma UpperBoundStays(apt: bool, fixes: seq<Fix>, f: Fix, i: nat)
    requires IsFirstUpperBound(apt, fixes, i) && Compare(apt, f.evr, fixes[i].evr) <= 0
    ensures IsFirstUpperBound(apt, fixes + [f], i)
  {
    var all := fixes + [f];
    forall j | 0 <= j < |all| ensures Compare(apt, all[j].evr, all[i].evr) <= 0 {
      if j < |fixes| { assert Compare(apt, fixes[j].evr, fixes[i].evr) <= 0; }
    }
    forall j | 0 <= j < i ensures Compare(apt, all[j].evr, all[i].evr) < 0 { assert Compare(apt, fixes[j].evr, fixes[i].evr) < 0; }
  }

  lemma UpperBoundMoves(apt: bool, fixes: seq<Fix>, f: Fix, i: nat)
    requires IsFirstUpperBound(apt, fixes, i) && Compare(apt, f.evr, fixes[i].evr) > 0
    ensures IsFirstUpperBound(apt, fixes + [f], |fixes|)
  {
    var all := fixes + [f];
    Antisymmetric(apt, f.evr, f.evr);
    Antisymmetric(apt, f.evr, fixes[i].evr);
    forall j | 0 <= j < |fixes| ensures Compare(apt, all[j].evr, f.evr) < 0 {
      assert Compare(apt, fixes[j].evr, fixes[i].evr) <= 0;
      Transitive(apt, fixes[j].evr, fixes[i].evr, f.evr);
    }
  }

  /** The selected fix is the first upper bound of all fixes. */
  lemma {:induction false} BestFixIsFirstUpperBound(apt: bool, fixes: seq<Fix>) returns (i: nat)
    requires fixes != []
    ensures IsFirstUpperBound(apt, fixes, i) && BestFix(apt, fixes) == fixes[i]
  {
    var n := |fixes| - 1;
    if n == 0 {
      Antisymmetric(apt, fixes[0].evr, fixes[0].evr);
      return 0;
    }
    i := BestFixIsFirstUpperBound(apt, fixes[..n]);
    assert fixes == fixes[..n] + [fixes[n]];
    if Compare(apt, fixes[n].evr, fixes[i].evr) > 0 {
      UpperBoundMoves(apt, fixes[..n], fixes[n], i);
      i := n;
    } else {
      UpperBoundStays(apt, fixes[..n], fixes[n], i);
    }
  }

  // ----- rules -----

  /** matchesPackageArch */
  predicate ArchMatches(osFamily: string, packageArch: string, ruleArch: string) {
    var wanted := ToLower(TrimSpace(ruleArch));
    || wanted == ""
    || (ToLower(osFamily) == "apt" && wanted in ["binary", "source", "all", "any"])
    || wanted == ToLower(TrimSpace(packageArch))
  }

  /** matchesRule; None is its error. */
  function MatchesRule(apt: bool, p: Package, rule: Rule): Option<bool> {
    if rule.evrRule.UnwrapOr("") == "" then Some(true) else EvaluateRule(apt, p.evr, rule.evrRule.value)
  }

  function RuleArch(rule: Rule): string { rule.arch.UnwrapOr("") }

  /** The version a rule names, as the APT reduction reads it. */
  function RuleVersion(rule: Rule): Option<Evr> {
    var parts := Fields(TrimSpace(rule.evrRule.UnwrapOr("")));
    ParseDebianEvr(if |parts| == 2 then parts[1] else "")
  }

  /** Whether a later rule of the same stream takes the place of an earlier one. */
  predicate TakesOver(existing: Rule, rule: Rule) {
    || (RuleArch(existing) == "source" && RuleArch(rule) == "binary")
    || (&& RuleArch(existing) == RuleArch(rule)
        && RuleVersion(existing).Some? && RuleVersion(rule).Some?
        && Compare(true, RuleVersion(rule).value, RuleVersion(existing).value) > 0)
  }

  /** The rule kept for each product stream when a later rule may take the place of an earlier one. */
  function ReduceBy(rules: seq<Rule>, takesOver: (Rule, Rule) -> bool): map<string, Rule> {
    if rules == [] then map[]
    else
      var rule, kept := rules[|rules| - 1], ReduceBy(rules[..|rules| - 1], takesOver);
      if rule.streamId !in kept || takesOver(kept[rule.streamId], rule) then kept[rule.streamId := rule] else kept
  }

  function Reduce(rules: seq<Rule>): map<string, Rule> { ReduceBy(rules, TakesOver) }

  /** The reduction loop of buildDecisions; Go lists the surviving rules in any order. */
  method ReduceRules(rules: seq<Rule>) returns (survivors: seq<Rule>)
    ensures |survivors| == |Reduce(rules)|
    ensures forall s | s in survivors :: s.streamId in Reduce(rules) && s == Reduce(rules)[s.streamId]
    ensures forall st | st in Reduce(rules) :: Reduce(rules)[st] in survivors
  {
    var kept: map<string, Rule> := map[];
    for i := 0 to |rules|
      invariant kept == ReduceBy(rules[..i], TakesOver)
    {
      assert rules[..i + 1][..i] == rules[..i];
      if rules[i].streamId !in kept {
        kept := kept[rules[i].streamId := rules[i]];
      } else if TakesOver(kept[rules[i].streamId], rules[i]) {
        kept := kept[rules[i].streamId := rules[i]];
      }
    }
    assert rules[..|rules|] == rules;
    ReduceStreams(rules);
    survivors := [];
    var remaining := kept.Keys;
    while remaining != {}
      invariant remaining <= kept.Keys
      invariant |survivors| + |remaining| == |kept|
      invariant forall s | s in survivors :: s.streamId in kept && s == kept[s.streamId]
      invariant forall st | st in kept && st !in remaining :: kept[st] in survivors
      decreases |remaining|
    {
      var stream :| stream in remaining;
      remaining := remaining - {stream};
      survivors := survivors + [kept[stream]];
    }
  }

  function Streams(rules: seq<Rule>): set<string> { set r | r in rules :: r.streamId }

  lemma {:induction false} ReduceByStreams(rules: seq<Rule>, takesOver: (Rule, Rule) -> bool)
    ensures ReduceBy(rules, takesOver).Keys == Streams(rules)
    ensures forall s | s in ReduceBy(rules, takesOver) ::
              ReduceBy(rules, takesOver)[s].streamId == s && ReduceBy(rules, takesOver)[s] in rules
  {
    if rules != [] {
      var n := |rules| - 1;
      ReduceByStreams(rules[..n], takesOver);
      assert rules == rules[..n] + [rules[n]];
      assert Streams(rules) == Streams(rules[..n]) + {rules[n].streamId};
    }
  }

  /** Exactly one rule is left for each stream of the matched rules, and it is one of them. */
  lemma ReduceStreams(rules: seq<Rule>)
    ensures Reduce(rules).Keys == Streams(rules)
    ensures forall s | s in Reduce(rules) :: Reduce(rules)[s].streamId == s && Reduce(rules)[s] in rules
  {
    ReduceByStreams(rules, TakesOver);
  }

  /** A survivor is a maximum of its stream when taking over means being greater in a total preorder. */
  lemma {:induction false} SurvivorIsMaximal(rules: seq<Rule>, takesOver: (Rule, Rule) -> bool, atMost: (Rule, Rule) -> bool, stream: string)
    requires forall a, b | a in rules && b in rules :: takesOver(a, b) <==> !atMost(b, a)
    requires forall a, b | a in rules && b in rules :: atMost(a, b) || atMost(b, a)
    requires forall a, b, c | a in rules && b in rules && c in rules && atMost(a, b) && atMost(b, c) :: atMost(a, c)
    requires stream in ReduceBy(rules, takesOver)
    ensures forall r | r in rules && r.streamId == stream :: atMost(r, ReduceBy(rules, takesOver)[stream])
  {
    var n := |rules| - 1;
    ReduceByStreams(rules[..n], takesOver);
    assert rules == rules[..n] + [rules[n]];
    var kept := ReduceBy(rules[..n], takesOver);
    assert atMost(rules[n], rules[n]);
    if stream in kept {
      SurvivorIsMaximal(rules[..n], takesOver, atMost, stream);
      assert kept[stream] in rules;
    }
  }

  predicate IsBinary(rule: Rule) { RuleArch(rule) == "binary" }

  predicate SourceOrBinary(rule: Rule) {
    (RuleArch(rule) == "source" || IsBinary(rule)) && RuleVersion(rule).Some?
  }

  /** Binary rules above source rules, then by version. */
  function CompareRules(a: Rule, b: Rule): int
    requires SourceOrBinary(a) && SourceOrBinary(b)
  {
    if IsBinary(a) != IsBinary(b) then if IsBinary(a) then 1 else -1
    else Compare(true, RuleVersion(a).value, RuleVersion(b).value)
  }

  lemma TakingOverIsGreater(existing: Rule, rule: Rule)
    requires SourceOrBinary(existing) && SourceOrBinary(rule)
    ensures TakesOver(existing, rule) <==> CompareRules(rule, existing) > 0
  {
  }

  lemma CompareRulesLaws(a: Rule, b: Rule, c: Rule)
    requires SourceOrBinary(a) && SourceOrBinary(b) && SourceOrBinary(c)
    ensures CompareRules(a, b) == -CompareRules(b, a)
    ensures CompareRules(a, b) <= 0 && CompareRules(b, c) <= 0 ==> CompareRules(a, c) <= 0
  {
    Antisymmetric(true, RuleVersion(a).value, RuleVersion(b).value);
    if IsBinary(a) == IsBinary(b) == IsBinary(c) && CompareRules(a, b) <= 0 && CompareRules(b, c) <= 0 {
      Transitive(true, RuleVersion(a).value, RuleVersion(b).value, RuleVersion(c).value);
    }
  }

  /**
   * With only source and binary rules and readable versions, the survivor of a stream is a highest-version
   * binary rule if the stream has a binary rule, else a highest-version source rule.
   */
  lemma SurvivorIsPreferred(rules: seq<Rule>, stream: string)
    requires forall r | r in rules :: SourceOrBinary(r)
    requires stream in Reduce(rules)
    ensures var best := Reduce(rules)[stream];
            && best in rules && best.streamId == stream
            && forall r | r in rules && r.streamId == stream :: CompareRules(r, best) <= 0
  {
    ReduceStreams(rules);
    var atMost := (a: Rule, b: Rule) => SourceOrBinary(a) && SourceOrBinary(b) && CompareRules(a, b) <= 0;
    forall a, b | a in rules && b in rules
      ensures TakesOver(a, b) <==> !atMost(b, a)
      ensures atMost(a, b) || atMost(b, a)
    {
      TakingOverIsGreater(a, b);
      CompareRulesLaws(a, b, a);
    }
    forall a, b, c | a in rules && b in rules && c in rules && atMost(a, b) && atMost(b, c)
      ensures atMost(a, c)
    {
      CompareRulesLaws(a, b, c);
    }
    SurvivorIsMaximal(rules, TakesOver, atMost, stream);
  }

  /** The rule says an operator and this version. */
  ghost predicate Names(rule: Rule, operator: string, version: string) {
    && Solid(operator) && operator != "" && Solid(version) && version != ""
    && rule.evrRule == Some(operator + " " + version)
  }

  lemma RuleVersionIsRead(rule: Rule, operator: string, version: string)
    requires Names(rule, operator, version)
    ensures RuleVersion(rule) == ParseDebianEvr(version)
  {
    FieldsOfTwo(operator, version);
  }

  lemma ReduceOfTwo(r: Rule, s: Rule, takesOver: (Rule, Rule) -> bool)
    requires r.streamId == s.streamId
    ensures ReduceBy([r, s], takesOver) == map[s.streamId := if takesOver(r, s) then s else r]
  {
    assert [r, s][..1] == [r] && [r][..0] == [];
    assert ReduceBy([], takesOver) == map[] && ReduceBy([r], takesOver) == map[r.streamId := r];
  }

  /** Of two rules of one stream and architecture, the one that names the later version survives, in either order. */
  lemma LaterVersionSurvives(r: Rule, s: Rule, operator: string, low: string, high: string)
    requires r.streamId == s.streamId && RuleArch(r) == RuleArch(s) && Names(r, operator, low) && Names(s, operator, high)
    requires ParseDebianEvr(low).Some? && ParseDebianEvr(high).Some?
    requires EvrBefore(true, ParseDebianEvr(low).value, ParseDebianEvr(high).value)
    ensures Reduce([r, s]) == map[s.streamId := s] && Reduce([s, r]) == map[s.streamId := s]
  {
    RuleVersionIsRead(r, operator, low);
    RuleVersionIsRead(s, operator, high);
    CompareMeaning(true, ParseDebianEvr(high).value, ParseDebianEvr(low).value);
    CompareMeaning(true, ParseDebianEvr(low).value, ParseDebianEvr(high).value);
    ReduceOfTwo(r, s, TakesOver);
    ReduceOfTwo(s, r, TakesOver);
  }

  // ----- architectures -----

  /** For lower-case words: no architecture fits all, an equal one fits, and on APT four words fit every package. */
  lemma ArchMeaning(osFamily: string, packageArch: string, ruleArch: string)
    requires IsLowerWord(osFamily) && IsLowerWord(packageArch) && IsLowerWord(ruleArch)
    ensures ArchMatches(osFamily, packageArch, ruleArch) <==>
              || ruleArch == "" || ruleArch == packageArch
              || (osFamily == "apt" && (ruleArch == "binary" || ruleArch == "source" || ruleArch == "all" || ruleArch == "any"))
  {
    LowerWordIsKept(osFamily);
    LowerWordIsKept(packageArch);
    LowerWordIsKept(ruleArch);
  }

  // ----- version rules -----

  /** A rule without a version rule matches every installed version. */
  lemma BlankRuleMatches(apt: bool, p: Package, rule: Rule)
    requires rule.evrRule == None || rule.evrRule == Some("")
    ensures MatchesRule(apt, p, rule) == Some(true)
  {
  }

  /** A rule that names an operator and a version matches exactly if the operator holds of the installed version and it. */
  lemma RuleMatchesIff(apt: bool, p: Package, rule: Rule, operator: string, version: string)
    requires Names(rule, operator, version)
    ensures MatchesRule(apt, p, rule).Some? <==> IsOperator(operator) && ParseRuleTarget(apt, version).Some?
    ensures MatchesRule(apt, p, rule) == Some(true) <==>
              IsOperator(operator) && ParseRuleTarget(apt, version).Some? && Holds(apt, operator, p.evr, ParseRuleTarget(apt, version).value)
  {
    assert (operator + " " + version)[|operator|] == ' ';
    RuleMeaning(apt, p.evr, operator, version);
  }
}
