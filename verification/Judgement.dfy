/** From the rules and fixes of an advisory to the verdict on one installed package. */
module Judgement {
  import opened GoStrings
  import opened Evr
  import opened Inventory
  import opened Kernel
  import opened Decisions

  // ----- severities and tiers -----

  /** normalizeSeverity */
  function NormalizeSeverity(severity: string): string {
    match ToLower(TrimSpace(severity))
    case "high" => "important"
    case "medium" => "moderate"
    case other => other
  }

  /** severityPriority */
  function SeverityPriority(severity: string): int {
    match NormalizeSeverity(severity)
    case "critical" => 4
    case "important" => 3
    case "moderate" => 2
    case "low" => 1
    case _ => 0
  }

  /** Severities in their order, with the two spellings of the middle ones, above every other word. */
  lemma SeverityRanks(s: string)
    requires IsLowerWord(s)
    ensures SeverityPriority(s) == if s == "critical" then 4 else if s == "important" || s == "high" then 3
                                   else if s == "moderate" || s == "medium" then 2 else if s == "low" then 1 else 0
  {
    LowerWordIsKept(s);
  }

  /** The vendor severity that a reference states; empty if it states none. */
  function VendorSeverity(reference: Option<string>): string { ToLower(TrimSpace(reference.UnwrapOr(""))) }

  /** The text of highest priority, the first of equals, with its priority; items with an empty text do not count. */
  function HighestBy<T>(items: seq<T>, textOf: T -> string, priority: string -> int): (string, int) {
    if items == [] then ("", -1)
    else
      var highest, text := HighestBy(items[..|items| - 1], textOf, priority), textOf(items[|items| - 1]);
      if text != "" && priority(text) > highest.1 then (text, priority(text)) else highest
  }

  /** effectiveSeverity */
  function EffectiveSeverity(advisory: Advisory, references: seq<Option<string>>): string {
    if TrimSpace(advisory.severity.UnwrapOr("")) != "" then ToLower(TrimSpace(advisory.severity.value))
    else HighestBy(references, VendorSeverity, SeverityPriority).0
  }

  lemma {:induction false} HighestByIsMaximum<T>(items: seq<T>, textOf: T -> string, priority: string -> int)
    requires forall text :: priority(text) >= 0
    ensures var (text, rank) := HighestBy(items, textOf, priority);
            && (text == "" <==> forall x | x in items :: textOf(x) == "")
            && (text == "" <==> rank == -1)
            && (text != "" ==> rank == priority(text) && exists x | x in items :: textOf(x) == text)
            && forall x | x in items && textOf(x) != "" :: priority(textOf(x)) <= rank
  {
    if items != [] {
      var n := |items| - 1;
      HighestByIsMaximum(items[..n], textOf, priority);
      assert items == items[..n] + [items[n]];
    }
  }

  /**
   * An advisory without a severity of its own takes a vendor severity that one of its references states and that no
   * reference exceeds, and has none exactly if no reference states one.
   */
  lemma InheritedSeverity(advisory: Advisory, references: seq<Option<string>>)
    requires TrimSpace(advisory.severity.UnwrapOr("")) == ""
    ensures var severity := EffectiveSeverity(advisory, references);
            && (severity == "" <==> forall r | r in references :: VendorSeverity(r) == "")
            && (severity != "" ==>
                  && (exists r | r in references :: VendorSeverity(r) == severity)
                  && forall r | r in references && VendorSeverity(r) != "" :: SeverityPriority(VendorSeverity(r)) <= SeverityPriority(severity))
  {
    HighestByIsMaximum(references, VendorSeverity, SeverityPriority);
  }

  /** An advisory that states a severity keeps it, whatever its references say. */
  lemma OwnSeverity(advisory: Advisory, references: seq<Option<string>>, severity: string)
    requires IsLowerWord(severity) && severity != "" && advisory.severity == Some(severity)
    ensures EffectiveSeverity(advisory, references) == severity
  {
    LowerWordIsKept(severity);
  }

  /** The loop of effectiveSeverity. */
  method FindSeverity(advisory: Advisory, references: seq<Option<string>>) returns (severity: string)
    ensures severity == EffectiveSeverity(advisory, references)
  {
    if TrimSpace(advisory.severity.UnwrapOr("")) != "" { return ToLower(TrimSpace(advisory.severity.value)); }
    severity := "";
    var highestPriority := -1;
    for i := 0 to |references|
      invariant HighestBy(references[..i], VendorSeverity, SeverityPriority) == (severity, highestPriority)
    {
      assert references[..i + 1][..i] == references[..i];
      var vendor := VendorSeverity(references[i]);
      if vendor != "" {
        var priority := SeverityPriority(vendor);
        if priority > highestPriority { severity, highestPriority := vendor, priority; }
      }
    }
    assert references[..|references|] == references;
  }

  /** decisionEvidenceTier */
  function EvidenceTier(tiers: seq<string>): string {
    if exists i | 0 <= i < |tiers| :: TrimSpace(tiers[i]) == "unknown" then "unknown"
    else if exists i | 0 <= i < |tiers| :: TrimSpace(tiers[i]) == "derived" then "derived"
    else "authoritative"
  }

  // ----- the verdict -----

  /** Whether an installed kernel of the same flavour or name already carries the fix. */
  predicate FixedKernelInstalled(host: Host, p: Package, fixed: Evr) {
    && IsKernel(host.Apt(), p.name)
    && (host.Apt() ==> IsVersionedApt(p.name))
    && var latest := Latest(host.Apt(), host.packages, Group(host.Apt(), p.name));
       latest.Some? && Compare(host.Apt(), latest.value, fixed) >= 0
  }

  function Record(advisory: Advisory, severity: string, p: Package, streamId: Option<string>, fixedNevra: Option<string>,
                  status: Status, action: Action, tier: string, reason: Reason): Verdict
  {
    Emit(Decision(advisory.id, streamId, p.name, p.nevra, fixedNevra, status, action, severity, tier, reason))
  }

  /** The verdict once the fix to reach is known: decisionFromFixedPackageOnly and the end of buildDecisions. */
  function Conclude(host: Host, advisory: Advisory, severity: string, p: Package, best: Fix, streamId: string, tier: string): Verdict {
    var reboot := Record(advisory, severity, p, Some(streamId), Some(best.nevra), PendingActivation, RebootHost, tier,
                         KernelNotRunning(host.runningKernel));
    if RunningSatisfies(host, p.name, best.evr) then Skip
    else if Compare(host.Apt(), p.evr, best.evr) < 0 then
      if FixedKernelInstalled(host, p, best.evr) then reboot
      else Record(advisory, severity, p, Some(streamId), Some(best.nevra), FixAvailable, UpdatePackage, tier, FixNotInstalled(best.nevra))
    else if IsKernel(host.Apt(), p.name) then reboot
    else Record(advisory, severity, p, Some(streamId), Some(best.nevra), Resolved, NoAction, tier, AtOrAboveFixed)
  }

  /** The verdict when no rule matches: from the fixes alone. */
  function ConcludeFixOnly(host: Host, advisory: Advisory, severity: string, p: Package, fixes: seq<Fix>): Verdict {
    if fixes == [] then Skip
    else
      var best := BestFix(host.Apt(), fixes);
      Conclude(host, advisory, severity, p, best, best.streamId, EvidenceTier([advisory.evidenceTier, best.evidenceTier]))
  }

  datatype RuleOutcome = NoRule | OneRule(rule: Rule) | ManyRules

  /** What is left of the matched rules; on APT one rule per stream. */
  function SettleRules(apt: bool, matched: seq<Rule>): RuleOutcome {
    if matched == [] then NoRule
    else if |matched| == 1 then OneRule(matched[0])
    else if apt && |Reduce(matched)| == 1 then
      ReduceStreams(matched);
      OneRule(Reduce(matched)[matched[0].streamId])
    else ManyRules
  }

  /** The "multiple rules" verdict arises on APT iff the matched rules span two streams, elsewhere iff two match. */
  lemma ManyRulesIff(apt: bool, matched: seq<Rule>)
    ensures SettleRules(apt, matched).ManyRules? <==>
              if apt then exists r, s | r in matched && s in matched :: r.streamId != s.streamId else |matched| >= 2
  {
    ReduceStreams(matched);
    var reduced := Reduce(matched);
    assert |reduced| == |reduced.Keys|;
    if apt && |matched| > 1 {
      assert matched[0] in matched && matched[0].streamId in reduced.Keys;
      if |reduced| == 1 {
        assert |reduced.Keys - {matched[0].streamId}| == 0;
        forall r | r in matched ensures r.streamId == matched[0].streamId {
          assert r.streamId in reduced.Keys;
          assert r.streamId !in reduced.Keys - {matched[0].streamId};
        }
      } else {
        assert reduced.Keys != {matched[0].streamId};
        var s :| s in reduced.Keys && s != matched[0].streamId;
        assert reduced[s] in matched;
      }
    }
  }

  function RuleFilter(host: Host, p: Package): Rule -> bool {
    (r: Rule) => ArchMatches(host.osFamily, p.arch, r.arch.UnwrapOr(""))
  }

  function FixFilter(host: Host, p: Package): Fix -> bool {
    (f: Fix) => ArchMatches(host.osFamily, p.arch, f.arch.UnwrapOr(""))
  }

  function StreamFixFilter(host: Host, p: Package, streamId: string): Fix -> bool {
    (f: Fix) => f.streamId == streamId && ArchMatches(host.osFamily, p.arch, f.arch.UnwrapOr(""))
  }

  function RuleTest(host: Host, p: Package): Rule -> Option<bool> {
    (r: Rule) => MatchesRule(host.Apt(), p, r)
  }

  function Passes<T>(test: T -> Option<bool>): T -> bool {
    x => test(x) == Some(true)
  }

  /** matchingFixedPackagesForPackage */
  function RelevantFixes(host: Host, p: Package, fixes: seq<Fix>): seq<Fix> { Filter(fixes, FixFilter(host, p)) }

  /** matchingFixedPackagesForStream */
  function StreamFixes(host: Host, p: Package, fixes: seq<Fix>, streamId: string): seq<Fix> {
    Filter(fixes, StreamFixFilter(host, p, streamId))
  }

  /** matchingRulesForPackage */
  function RelevantRules(host: Host, p: Package, rules: seq<Rule>): seq<Rule> { Filter(rules, RuleFilter(host, p)) }

  function MatchedRules(host: Host, p: Package, rules: seq<Rule>): seq<Rule> {
    Filter(RelevantRules(host, p, rules), Passes(RuleTest(host, p)))
  }

  predicate HasRuleError(host: Host, p: Package, rules: seq<Rule>) {
    exists r | r in RelevantRules(host, p, rules) :: RuleTest(host, p)(r).None?
  }

  /** The verdict on a package from the rules and fixes looked up for it. */
  function JudgeWith(host: Host, advisory: Advisory, severity: string, p: Package, rules: seq<Rule>, fixes: seq<Fix>): Verdict {
    if HasRuleError(host, p, rules) then Fail
    else
      match SettleRules(host.Apt(), MatchedRules(host, p, rules))
      case NoRule => ConcludeFixOnly(host, advisory, severity, p, RelevantFixes(host, p, fixes))
      case ManyRules => Record(advisory, severity, p, None, None, UnknownStatus, Investigate, "unknown", MultipleRules)
      case OneRule(rule) => ConcludeRule(host, advisory, severity, p, rule, StreamFixes(host, p, fixes, rule.streamId))
  }

  function ConcludeRule(host: Host, advisory: Advisory, severity: string, p: Package, rule: Rule, fixes: seq<Fix>): Verdict {
    if fixes == [] then
      Record(advisory, severity, p, Some(rule.streamId), None, NoFix, Investigate, rule.evidenceTier, NoVendorFix)
    else
      var best := BestFix(host.Apt(), fixes);
      Conclude(host, advisory, severity, p, best, rule.streamId,
               EvidenceTier([advisory.evidenceTier, rule.evidenceTier, best.evidenceTier]))
  }

  // ----- soundness -----

  /** The fixes that the verdict takes into account. */
  function ConsideredFixes(host: Host, p: Package, rules: seq<Rule>, fixes: seq<Fix>): seq<Fix> {
    match SettleRules(host.Apt(), MatchedRules(host, p, rules))
    case NoRule => RelevantFixes(host, p, fixes)
    case ManyRules => []
    case OneRule(rule) => StreamFixes(host, p, fixes, rule.streamId)
  }

  /** The stream a verdict is about: that of the only rule, else that of the best fix. */
  function DecidingStream(host: Host, p: Package, rules: seq<Rule>, fixes: seq<Fix>): Option<string> {
    match SettleRules(host.Apt(), MatchedRules(host, p, rules))
    case OneRule(rule) => Some(rule.streamId)
    case ManyRules => None
    case NoRule =>
      var considered := ConsideredFixes(host, p, rules, fixes);
      if considered == [] then None else Some(BestFix(host.Apt(), considered).streamId)
  }

  /** The status and action pairs that arise. */
  predicate WellShaped(d: Decision) {
    match d.status
    case Resolved => d.action == NoAction
    case FixAvailable => d.action == UpdatePackage
    case PendingActivation => d.action == RebootHost
    case NoFix => d.action == Investigate
    case UnknownStatus => d.action == Investigate
    case OtherStatus(_) => false
  }

  /**
   * What a decision says about the installed package, the fixes considered for it and the running kernel: resolved
   * exactly for a package that is no kernel and not below any fix, a reboot exactly for a kernel whose fix is installed,
   * an update exactly for the rest.
   */
  ghost predicate Sound(host: Host, p: Package, fixes: seq<Fix>, d: Decision) {
    && d.packageName == p.name && d.installedNevra == p.nevra
    && (d.status == Resolved <==>
          fixes != [] && !IsKernel(host.Apt(), p.name) && forall f | f in fixes :: Compare(host.Apt(), f.evr, p.evr) <= 0)
    && (d.action == RebootHost <==>
          fixes != [] && IsKernel(host.Apt(), p.name) && FixPresent(host, p, BestFix(host.Apt(), fixes).evr))
    && (d.action == UpdatePackage <==>
          && fixes != [] && Compare(host.Apt(), p.evr, BestFix(host.Apt(), fixes).evr) < 0
          && !(IsKernel(host.Apt(), p.name) && FixPresent(host, p, BestFix(host.Apt(), fixes).evr)))
    && (fixes != [] ==>
          && d.fixedNevra == Some(BestFix(host.Apt(), fixes).nevra)
          && !RunningSatisfies(host, p.name, BestFix(host.Apt(), fixes).evr))
  }

  /** The package itself has the fix, or an installed kernel of its name or versioned flavour has it. */
  ghost predicate FixPresent(host: Host, p: Package, fixed: Evr) {
    || Compare(host.Apt(), p.evr, fixed) >= 0
    || ((host.Apt() ==> IsVersionedApt(p.name)) && exists q | q in host.packages :: CarriesFix(host, p, q, fixed))
  }

  predicate CarriesFix(host: Host, p: Package, q: Package, fixed: Evr) {
    InGroup(host.Apt(), q, Group(host.Apt(), p.name)) && Compare(host.Apt(), q.evr, fixed) >= 0
  }

  /** The newest installed kernel has the fix iff some installed kernel of the group has it. */
  lemma InstalledIff(host: Host, p: Package, fixed: Evr)
    requires IsKernel(host.Apt(), p.name)
    ensures FixedKernelInstalled(host, p, fixed) <==>
              (host.Apt() ==> IsVersionedApt(p.name)) && exists q | q in host.packages :: CarriesFix(host, p, q, fixed)
  {
    var apt, group := host.Apt(), Group(host.Apt(), p.name);
    LatestIsMaximum(apt, host.packages, group);
    var latest := Latest(apt, host.packages, group);
    if q :| q in host.packages && CarriesFix(host, p, q, fixed) {
      CompareMonotone(apt, q.evr, latest.value, fixed);
    }
    if latest.Some? && Compare(apt, latest.value, fixed) >= 0 {
      var q :| q in host.packages && InGroup(apt, q, group) && q.evr == latest.value;
      assert CarriesFix(host, p, q, fixed);
    }
  }

  /** A package is not below the best fix iff it is not below any fix. */
  lemma BestFixDecides(apt: bool, installed: Evr, fixes: seq<Fix>)
    requires fixes != []
    ensures Compare(apt, installed, BestFix(apt, fixes).evr) >= 0 <==> forall f | f in fixes :: Compare(apt, f.evr, installed) <= 0
  {
    var i := BestFixIsFirstUpperBound(apt, fixes);
    var best := fixes[i];
    Antisymmetric(apt, installed, best.evr);
    if Compare(apt, installed, best.evr) >= 0 {
      forall f | f in fixes ensures Compare(apt, f.evr, installed) <= 0 {
        Transitive(apt, f.evr, best.evr, installed);
      }
    }
  }

  lemma ConcludeIsSound(host: Host, advisory: Advisory, severity: string, p: Package, fixes: seq<Fix>, streamId: string, tier: string)
    requires fixes != []
    ensures var v := Conclude(host, advisory, severity, p, BestFix(host.Apt(), fixes), streamId, tier);
            && v != Fail
            && (v == Skip <==> RunningSatisfies(host, p.name, BestFix(host.Apt(), fixes).evr))
            && (v.Emit? ==> WellShaped(v.decision) && Sound(host, p, fixes, v.decision))
  {
    BestFixDecides(host.Apt(), p.evr, fixes);
    if IsKernel(host.Apt(), p.name) { InstalledIff(host, p, BestFix(host.Apt(), fixes).evr); }
  }

  /**
   * Every verdict is sound for the fixes it considered, investigates only in its two cases, and is left out only without
   * a matching rule or fix, or when the running kernel has the fix.
   */
  lemma JudgeIsSound(host: Host, advisory: Advisory, severity: string, p: Package, rules: seq<Rule>, fixes: seq<Fix>)
    ensures var v := JudgeWith(host, advisory, severity, p, rules, fixes);
            var outcome := SettleRules(host.Apt(), MatchedRules(host, p, rules));
            && (v == Fail <==> HasRuleError(host, p, rules))
            && (v == Skip <==>
                  && !HasRuleError(host, p, rules)
                  && var considered := ConsideredFixes(host, p, rules, fixes);
                     if considered == [] then outcome == NoRule
                     else RunningSatisfies(host, p.name, BestFix(host.Apt(), considered).evr))
            && (v.Emit? ==>
                  && WellShaped(v.decision) && Sound(host, p, ConsideredFixes(host, p, rules, fixes), v.decision)
                  && v.decision.advisoryId == advisory.id && v.decision.severity == severity
                  && v.decision.streamId == DecidingStream(host, p, rules, fixes)
                  && (v.decision.status == UnknownStatus <==> outcome == ManyRules)
                  && (v.decision.status == NoFix <==> outcome.OneRule? && ConsideredFixes(host, p, rules, fixes) == []))
  {
    var considered := ConsideredFixes(host, p, rules, fixes);
    if !HasRuleError(host, p, rules) && considered != [] {
      var best := BestFix(host.Apt(), considered);
      match SettleRules(host.Apt(), MatchedRules(host, p, rules))
      case NoRule =>
        ConcludeIsSound(host, advisory, severity, p, considered, best.streamId,
                        EvidenceTier([advisory.evidenceTier, best.evidenceTier]));
      case OneRule(rule) =>
        ConcludeIsSound(host, advisory, severity, p, considered, rule.streamId,
                        EvidenceTier([advisory.evidenceTier, rule.evidenceTier, best.evidenceTier]));
      case ManyRules =>
    }
  }

  /** A non-kernel package resolved by fixes alone stays resolved for every greater installed EVR. */
  lemma ResolvedIsUpwardClosed(host: Host, advisory: Advisory, severity: string, p: Package, newer: Package, fixes: seq<Fix>)
    requires !IsKernel(host.Apt(), p.name) && newer.name == p.name
    requires Compare(host.Apt(), p.evr, newer.evr) <= 0
    requires ConcludeFixOnly(host, advisory, severity, p, fixes).Emit?
    requires ConcludeFixOnly(host, advisory, severity, p, fixes).decision.status == Resolved
    ensures ConcludeFixOnly(host, advisory, severity, newer, fixes).Emit?
    ensures ConcludeFixOnly(host, advisory, severity, newer, fixes).decision.status == Resolved
  {
    CompareMonotone(host.Apt(), p.evr, newer.evr, BestFix(host.Apt(), fixes).evr);
  }

  // ----- the code -----

  /** The filtering loops. */
  method FilterItems<T(!new)>(items: seq<T>, keep: T -> bool) returns (kept: seq<T>)
    ensures kept == Filter(items, keep)
  {
    kept := [];
    for i := 0 to |items|
      invariant kept == Filter(items[..i], keep)
    {
      assert items[..i + 1][..i] == items[..i];
      if keep(items[i]) { kept := kept + [items[i]]; }
    }
    assert items[..|items|] == items;
  }

  /** The loop over the relevant rules; None is the error of a malformed rule. */
  method FilterFallible<T(!new)>(items: seq<T>, test: T -> Option<bool>) returns (kept: Option<seq<T>>)
    ensures kept.None? <==> exists x | x in items :: test(x).None?
    ensures kept.Some? ==> kept.value == Filter(items, Passes(test))
  {
    var passed := [];
    for i := 0 to |items|
      invariant passed == Filter(items[..i], Passes(test))
      invariant forall x | x in items[..i] :: test(x).Some?
    {
      assert items[..i + 1][..i] == items[..i];
      var outcome := test(items[i]);
      if outcome.None? { return None; }
      if outcome.value { passed := passed + [items[i]]; }
    }
    assert items[..|items|] == items;
    return Some(passed);
  }

  /** The body of the package loop, from the looked-up rules and fixes on. */
  method JudgePackage(host: Host, advisory: Advisory, severity: string, p: Package, rules: seq<Rule>, fixes: seq<Fix>)
    returns (v: Verdict)
    ensures v == JudgeWith(host, advisory, severity, p, rules, fixes)
  {
    var relevantFixes := FilterItems(fixes, FixFilter(host, p));
    var relevantRules := FilterItems(rules, RuleFilter(host, p));
    var evaluated := FilterFallible(relevantRules, RuleTest(host, p));
    if evaluated.None? { return Fail; }
    var matched := evaluated.value;
    assert SettleRules(host.Apt(), MatchedRules(host, p, rules)) == SettleRules(host.Apt(), matched);
    var outcome := SettleMatched(host.Apt(), matched);
    match outcome
    case NoRule =>
      if |relevantFixes| == 0 { return Skip; }
      var best := SelectBestFix(host.Apt(), relevantFixes);
      return Conclude(host, advisory, severity, p, best.value, best.value.streamId,
                      EvidenceTier([advisory.evidenceTier, best.value.evidenceTier]));
    case ManyRules =>
      return Record(advisory, severity, p, None, None, UnknownStatus, Investigate, "unknown", MultipleRules);
    case OneRule(rule) =>
      var fixed := FilterItems(fixes, StreamFixFilter(host, p, rule.streamId));
      if |fixed| == 0 {
        return Record(advisory, severity, p, Some(rule.streamId), None, NoFix, Investigate, rule.evidenceTier, NoVendorFix);
      }
      var best := SelectBestFix(host.Apt(), fixed);
      return Conclude(host, advisory, severity, p, best.value, rule.streamId,
                      EvidenceTier([advisory.evidenceTier, rule.evidenceTier, best.value.evidenceTier]));
  }

  /** The reduction on APT and the three-way split on the number of rules left. */
  method SettleMatched(apt: bool, matched: seq<Rule>) returns (outcome: RuleOutcome)
    ensures outcome == SettleRules(apt, matched)
  {
    var rules := matched;
    if apt && |matched| > 1 {
      rules := ReduceRules(matched);
      ReduceStreams(matched);
      assert matched[0] in matched && matched[0].streamId in Reduce(matched);
      if |rules| == 1 {
        SingleKey(Reduce(matched), rules[0].streamId, matched[0].streamId);
      }
    }
    if |rules| == 0 { return NoRule; }
    if |rules| > 1 { return ManyRules; }
    return OneRule(rules[0]);
  }

  lemma SingleKey(m: map<string, Rule>, a: string, b: string)
    requires |m| == 1 && a in m && b in m
    ensures a == b
  {
    assert |m.Keys - {a}| == 0;
    assert b !in m.Keys - {a};
  }

  // ----- what a verdict takes into account -----

  /** A rule counts if its architecture is the package's and its version rule is true of the installed EVR. */
  lemma MatchedMeaning(host: Host, p: Package, rules: seq<Rule>, r: Rule)
    ensures r in MatchedRules(host, p, rules) <==>
              r in rules && ArchMatches(host.osFamily, p.arch, r.arch.UnwrapOr("")) && MatchesRule(host.Apt(), p, r) == Some(true)
  {
    assert r in RelevantRules(host, p, rules) <==> r in rules && RuleFilter(host, p)(r);
    assert Passes(RuleTest(host, p))(r) <==> RuleTest(host, p)(r) == Some(true);
  }

  /** The verdict is an error exactly if a rule whose architecture fits is malformed. */
  lemma RuleErrorIff(host: Host, p: Package, rules: seq<Rule>)
    ensures HasRuleError(host, p, rules) <==>
              exists r | r in rules :: ArchMatches(host.osFamily, p.arch, r.arch.UnwrapOr("")) && MatchesRule(host.Apt(), p, r).None?
  {
    forall r: Rule
      ensures r in RelevantRules(host, p, rules) && RuleTest(host, p)(r).None? <==>
                r in rules && ArchMatches(host.osFamily, p.arch, r.arch.UnwrapOr("")) && MatchesRule(host.Apt(), p, r).None?
    {
      assert RuleFilter(host, p)(r) <==> ArchMatches(host.osFamily, p.arch, r.arch.UnwrapOr(""));
    }
  }

  /** A fix counts if its architecture is the package's and, where one rule decides, its stream is that rule's. */
  lemma ConsideredMeaning(host: Host, p: Package, rules: seq<Rule>, fixes: seq<Fix>, f: Fix)
    ensures f in ConsideredFixes(host, p, rules, fixes) <==>
              && f in fixes && ArchMatches(host.osFamily, p.arch, f.arch.UnwrapOr(""))
              && match SettleRules(host.Apt(), MatchedRules(host, p, rules))
                 case NoRule => true
                 case ManyRules => false
                 case OneRule(rule) => f.streamId == rule.streamId
  {
    assert FixFilter(host, p)(f) <==> ArchMatches(host.osFamily, p.arch, f.arch.UnwrapOr(""));
  }

  /** The weakest of some evidence tiers. */
  ghost predicate IsWeakest(tier: string, tiers: seq<string>) {
    && (tier == "unknown" <==> exists t | t in tiers :: TrimSpace(t) == "unknown")
    && (tier == "derived" <==> (forall t | t in tiers :: TrimSpace(t) != "unknown") && exists t | t in tiers :: TrimSpace(t) == "derived")
    && (tier == "unknown" || tier == "derived" || tier == "authoritative")
  }

  lemma TierIsWeakest(tiers: seq<string>)
    ensures IsWeakest(EvidenceTier(tiers), tiers)
  {
    assert "unknown"[0] != "derived"[0] && "unknown"[0] != "authoritative"[0] && "derived"[0] != "authoritative"[0];
  }

  lemma ConcludedTier(host: Host, advisory: Advisory, severity: string, p: Package, best: Fix, streamId: string, tier: string)
    ensures var v := Conclude(host, advisory, severity, p, best, streamId, tier); v.Emit? ==> v.decision.evidenceTier == tier
  {
  }

  lemma FixOnlyTier(host: Host, advisory: Advisory, severity: string, p: Package, fixes: seq<Fix>)
    requires fixes != [] && ConcludeFixOnly(host, advisory, severity, p, fixes).Emit?
    ensures IsWeakest(ConcludeFixOnly(host, advisory, severity, p, fixes).decision.evidenceTier,
                      [advisory.evidenceTier, BestFix(host.Apt(), fixes).evidenceTier])
  {
    var best := BestFix(host.Apt(), fixes);
    var tiers := [advisory.evidenceTier, best.evidenceTier];
    TierIsWeakest(tiers);
    ConcludedTier(host, advisory, severity, p, best, best.streamId, EvidenceTier(tiers));
  }

  lemma RuleTier(host: Host, advisory: Advisory, severity: string, p: Package, rule: Rule, fixes: seq<Fix>)
    requires fixes != [] && ConcludeRule(host, advisory, severity, p, rule, fixes).Emit?
    ensures IsWeakest(ConcludeRule(host, advisory, severity, p, rule, fixes).decision.evidenceTier,
                      [advisory.evidenceTier, rule.evidenceTier, BestFix(host.Apt(), fixes).evidenceTier])
  {
    var best := BestFix(host.Apt(), fixes);
    var tiers := [advisory.evidenceTier, rule.evidenceTier, best.evidenceTier];
    TierIsWeakest(tiers);
    ConcludedTier(host, advisory, severity, p, best, rule.streamId, EvidenceTier(tiers));
  }

  /** A decision about a fix carries the weakest tier of the advisory, the deciding rule, if any, and the fix. */
  lemma VerdictTier(host: Host, advisory: Advisory, severity: string, p: Package, rules: seq<Rule>, fixes: seq<Fix>)
    requires JudgeWith(host, advisory, severity, p, rules, fixes).Emit? && ConsideredFixes(host, p, rules, fixes) != []
    ensures var best := BestFix(host.Apt(), ConsideredFixes(host, p, rules, fixes));
            var tier := JudgeWith(host, advisory, severity, p, rules, fixes).decision.evidenceTier;
            match SettleRules(host.Apt(), MatchedRules(host, p, rules))
            case NoRule => IsWeakest(tier, [advisory.evidenceTier, best.evidenceTier])
            case OneRule(rule) => IsWeakest(tier, [advisory.evidenceTier, rule.evidenceTier, best.evidenceTier])
            case ManyRules => true
  {
    var considered := ConsideredFixes(host, p, rules, fixes);
    match SettleRules(host.Apt(), MatchedRules(host, p, rules))
    case NoRule => FixOnlyTier(host, advisory, severity, p, considered);
    case OneRule(rule) => RuleTier(host, advisory, severity, p, rule, considered);
    case ManyRules =>
  }

  lemma ReduceOfOne(rules: seq<Rule>, takesOver: (Rule, Rule) -> bool)
    requires |rules| == 1
    ensures ReduceBy(rules, takesOver) == map[rules[0].streamId := rules[0]]
  {
    assert rules[..0] == [] && ReduceBy([], takesOver) == map[];
  }

  lemma DecidingRuleSurvives(matched: seq<Rule>, rule: Rule)
    requires SettleRules(true, matched) == OneRule(rule)
    ensures matched != [] && (forall r | r in matched :: r.streamId == matched[0].streamId)
    ensures matched[0].streamId in Reduce(matched) && rule == Reduce(matched)[matched[0].streamId]
  {
    ReduceStreams(matched);
    assert matched[0] in matched;
    if |matched| == 1 { ReduceOfOne(matched, TakesOver); }
    forall r | r in matched ensures r.streamId == matched[0].streamId {
      ManyRulesIff(true, matched);
    }
  }

  /** The rule that decides on APT is one that no matched rule exceeds: binary before source, then by version. */
  lemma DecidingRuleIsPreferred(matched: seq<Rule>, rule: Rule)
    requires SettleRules(true, matched) == OneRule(rule) && forall r | r in matched :: SourceOrBinary(r)
    ensures rule in matched && forall r | r in matched :: CompareRules(r, rule) <= 0
  {
    DecidingRuleSurvives(matched, rule);
    SurvivorIsPreferred(matched, matched[0].streamId);
  }

  /** The reason a decision gives, and the fix it names, fit its status. */
  predicate ReasonFits(host: Host, d: Decision) {
    match d.status
    case Resolved => d.reason == AtOrAboveFixed && d.fixedNevra.Some?
    case FixAvailable => d.fixedNevra.Some? && d.reason == FixNotInstalled(d.fixedNevra.value)
    case PendingActivation => d.reason == KernelNotRunning(host.runningKernel) && d.fixedNevra.Some?
    case NoFix => d.reason == NoVendorFix && d.fixedNevra.None?
    case UnknownStatus => d.reason == MultipleRules && d.fixedNevra.None? && d.streamId.None?
    case OtherStatus(_) => false
  }

  lemma ConcludedReason(host: Host, advisory: Advisory, severity: string, p: Package, best: Fix, streamId: string, tier: string)
    ensures var v := Conclude(host, advisory, severity, p, best, streamId, tier); v.Emit? ==> ReasonFits(host, v.decision)
  {
  }

  lemma VerdictReason(host: Host, advisory: Advisory, severity: string, p: Package, rules: seq<Rule>, fixes: seq<Fix>)
    requires JudgeWith(host, advisory, severity, p, rules, fixes).Emit?
    ensures ReasonFits(host, JudgeWith(host, advisory, severity, p, rules, fixes).decision)
  {
    var considered := ConsideredFixes(host, p, rules, fixes);
    if considered != [] {
      var best := BestFix(host.Apt(), considered);
      match SettleRules(host.Apt(), MatchedRules(host, p, rules))
      case NoRule =>
        ConcludedReason(host, advisory, severity, p, best, best.streamId, EvidenceTier([advisory.evidenceTier, best.evidenceTier]));
      case OneRule(rule) =>
        ConcludedReason(host, advisory, severity, p, best, rule.streamId,
                        EvidenceTier([advisory.evidenceTier, rule.evidenceTier, best.evidenceTier]));
      case ManyRules =>
    }
  }
}
