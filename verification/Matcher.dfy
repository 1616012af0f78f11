/** buildDecisions: every advisory against every installed package, through indexes and Go maps. */
module Matcher {
  import opened GoStrings
  import opened Inventory
  import opened Kernel
  import opened Matching
  import opened Decisions
  import opened Judgement
  import opened Collapse
  import opened HostState

  function AnyPackage(p: Package): bool { true }
  function InStreams(streams: set<string>): Rule -> bool { (r: Rule) => r.streamId in streams }
  function FixInStreams(streams: set<string>): Fix -> bool { (f: Fix) => f.streamId in streams }
  function RuleId(r: Rule): string { r.id }
  function FixId(f: Fix): string { f.id }
  function AdvisoryId(a: Advisory): string { a.id }

  /** appliesToResolvedStream */
  predicate Applies(host: Host, cat: Catalogue, advisoryId: string) {
    exists s | s in Lookup(cat.links, advisoryId) :: s in host.streams
  }

  /** The rules and fixes of an advisory that share a match key with a package, each id once. */
  function RulesFor(host: Host, rules: seq<Rule>, p: Package): seq<Rule> {
    FirstById(Gather(PackageKeys(p), rules, InStreams(host.streams), RuleKeys), RuleId)
  }

  function FixesFor(host: Host, fixes: seq<Fix>, p: Package): seq<Fix> {
    FirstById(Gather(PackageKeys(p), fixes, FixInStreams(host.streams), FixKeys), FixId)
  }

  /** Whether an advisory is tried on an installed package at all: a nested loop, no index. */
  ghost predicate Tried(host: Host, cat: Catalogue, a: Advisory, p: Package) {
    && Applies(host, cat, a.id)
    && HasRuleOrFix(PackageKeys(p), Lookup(cat.rules, a.id), Lookup(cat.fixes, a.id), host.streams)
    && IsRelevant(host, p)
  }

  /** The verdict of an advisory on an installed package. */
  ghost function Judge(host: Host, cat: Catalogue, a: Advisory, p: Package): Verdict {
    if Tried(host, cat, a, p) then
      JudgeWith(host, a, EffectiveSeverity(a, Lookup(cat.references, a.id)), p,
                RulesFor(host, Lookup(cat.rules, a.id), p), FixesFor(host, Lookup(cat.fixes, a.id), p))
    else Skip
  }

  /** The package instances: of the packages with one instance key, the first that has a match key. */
  ghost function Instances(packages: seq<Package>): seq<Package> { Leaders(packages, PackageKeys, InstanceKey) }

  /** Different packages differ in the key of their decisions. */
  ghost predicate ToldApart(packages: seq<Package>) {
    forall p, q | p in packages && q in packages && p != q :: p.name != q.name || p.nevra != q.nevra
  }

  /** The first package of an instance key has all match keys of the others, and instances differ in name or NEVRA. */
  ghost predicate Settled(packages: seq<Package>) {
    Led(packages, PackageKeys, InstanceKey) && ToldApart(Instances(packages))
  }

  /** Enough for that: non-blank NEVRAs, and equal match keys where instance keys are equal. */
  lemma NonBlankIsSettled(packages: seq<Package>)
    requires forall p | p in packages :: TrimSpace(p.nevra) != ""
    requires forall p, q | p in packages && q in packages && InstanceKey(p) == InstanceKey(q) :: PackageKeys(p) == PackageKeys(q)
    ensures Settled(packages)
  {
    forall p, q | p in Instances(packages) && q in Instances(packages) && p != q
      ensures p.name != q.name || p.nevra != q.nevra
    {
      if InstanceKey(p) == InstanceKey(q) { SameLeader(packages, PackageKeys, InstanceKey, p, q); }
    }
  }

  /** With different instance keys throughout, every package that has a match key is an instance. */
  lemma DistinctAreInstances(packages: seq<Package>, p: Package)
    requires forall q | q in packages && InstanceKey(q) == InstanceKey(p) :: q == p
    ensures p in Instances(packages) <==> p in packages && PackageKeys(p) != []
  {
    if p in packages && PackageKeys(p) != [] {
      LeadersDistinct(packages, PackageKeys, InstanceKey);
      var instances := Instances(packages);
      var i :| 0 <= i < |instances| && InstanceKey(instances[i]) == InstanceKey(p);
      assert instances[i] in instances;
    }
  }

  ghost function JudgeFor(host: Host, cat: Catalogue): (Advisory, Package) -> Verdict {
    (a, p) => Judge(host, cat, a, p)
  }

  /** Names a pair whose verdict is looked at. */
  predicate Pairing(a: Advisory, p: Package) { true }

  ghost predicate Judges(judge: (Advisory, Package) -> Verdict, host: Host, cat: Catalogue) {
    forall a, p {:trigger Pairing(a, p)} :: Pairing(a, p) ==> judge(a, p) == Judge(host, cat, a, p)
  }

  /** A decision that some advisory makes on some installed package. */
  ghost predicate Made(judge: (Advisory, Package) -> Verdict, advisories: seq<Advisory>, packages: seq<Package>, d: Decision) {
    exists a, p | a in advisories && p in packages :: judge(a, p) == Emit(d)
  }

  ghost predicate Fails(judge: (Advisory, Package) -> Verdict, advisories: seq<Advisory>, packages: seq<Package>) {
    exists a, p | a in advisories && p in packages :: judge(a, p) == Fail
  }

  /** A made decision to which no made decision on the same package instance is preferred. */
  ghost predicate Wins(judge: (Advisory, Package) -> Verdict, apt: bool, advisories: seq<Advisory>, packages: seq<Package>, d: Decision) {
    && Made(judge, advisories, packages, d)
    && forall e | Made(judge, advisories, packages, e) && KeyOf(e) == KeyOf(d) :: !Prefers(apt, e, d)
  }

  /** What the result must be, without reference to any order: the most preferred decision of each package instance. */
  ghost predicate IsOutcome(host: Host, cat: Catalogue, advisories: seq<Advisory>, r: Option<seq<Decision>>) {
    var judge, instances := JudgeFor(host, cat), Instances(host.packages);
    && (r.None? <==> Fails(judge, advisories, instances))
    && (r.Some? ==>
          && DistinctBy(r.value, KeyOf)
          && (forall d :: d in r.value <==> Wins(judge, host.Apt(), advisories, instances, d))
          && (forall d | Made(judge, advisories, instances, d) :: Represented(host.Apt(), r.value, d)))
  }

  /** Some decision of the list on the same package instance is at least as preferred. */
  ghost predicate Represented(apt: bool, ds: seq<Decision>, d: Decision) {
    exists w | w in ds :: KeyOf(w) == KeyOf(d) && !Prefers(apt, d, w)
  }

  /** What holds of every result, whatever the packages. */
  ghost predicate IsSoundResult(host: Host, cat: Catalogue, advisories: seq<Advisory>, r: Option<seq<Decision>>) {
    var judge := JudgeFor(host, cat);
    && (r.None? ==> Fails(judge, advisories, host.packages))
    && (r.Some? ==>
          && DistinctBy(r.value, KeyOf)
          && forall d | d in r.value :: WellShaped(d) && Made(judge, advisories, host.packages, d))
  }

  /** The indexes of one advisory's rules and fixes. */
  ghost predicate AreIndexes(host: Host, cat: Catalogue, a: Advisory, rulesByKey: map<string, seq<Rule>>, fixesByKey: map<string, seq<Fix>>) {
    && Indexes(rulesByKey, Lookup(cat.rules, a.id), InStreams(host.streams), RuleKeys)
    && Indexes(fixesByKey, Lookup(cat.fixes, a.id), FixInStreams(host.streams), FixKeys)
  }

  /** A package the nested loop pairs with the advisory. */
  ghost predicate IsCandidate(host: Host, cat: Catalogue, a: Advisory, p: Package) {
    && p in host.packages
    && HasRuleOrFix(PackageKeys(p), Lookup(cat.rules, a.id), Lookup(cat.fixes, a.id), host.streams)
  }

  /** What the loop over the candidates relies on, for each pair it looks at. */
  ghost predicate Prepared(host: Host, cat: Catalogue, a: Advisory, candidates: seq<Package>,
                           rulesByKey: map<string, seq<Rule>>, fixesByKey: map<string, seq<Fix>>)
  {
    forall p {:trigger Pairing(a, p)} :: Pairing(a, p) && p in candidates ==>
      Applies(host, cat, a.id) && AreIndexes(host, cat, a, rulesByKey, fixesByKey) && IsCandidate(host, cat, a, p)
  }

  /** The body of the loop over the candidate packages. */
  method JudgeCandidate(host: Host, cat: Catalogue, a: Advisory, severity: string, p: Package, ghost candidates: seq<Package>,
                        rulesByKey: map<string, seq<Rule>>, fixesByKey: map<string, seq<Fix>>,
                        ghost judge: (Advisory, Package) -> Verdict) returns (v: Verdict)
    requires Prepared(host, cat, a, candidates, rulesByKey, fixesByKey) && p in candidates
    requires severity == EffectiveSeverity(a, Lookup(cat.references, a.id)) && Judges(judge, host, cat)
    ensures v == judge(a, p)
  {
    assert Pairing(a, p);
    if !IsRelevant(host, p) { return Skip; }
    var fixes := MatchingForKeys(PackageKeys(p), fixesByKey, FixId, Lookup(cat.fixes, a.id), FixInStreams(host.streams), FixKeys);
    var rules := MatchingForKeys(PackageKeys(p), rulesByKey, RuleId, Lookup(cat.rules, a.id), InStreams(host.streams), RuleKeys);
    v := JudgePackage(host, a, severity, p, rules, fixes);
  }

  /** `ds` are the decisions made so far and `from` the packages they were made on. */
  ghost predicate Progress(judge: (Advisory, Package) -> Verdict, a: Advisory, keyOf: Package -> string,
                           done: seq<Package>, from: seq<Package>, ds: seq<Decision>)
  {
    && |from| == |ds|
    && DistinctBy(from, keyOf)
    && (forall k | 0 <= k < |ds| :: from[k] in done && judge(a, from[k]) == Emit(ds[k]))
    && (forall p | p in done :: judge(a, p) == Skip || p in from)
  }

  /** The decisions among the verdicts on a list of packages, and the packages they are about. */
  function Emitted(vs: seq<Verdict>): seq<Decision> {
    if vs == [] then [] else Emitted(vs[..|vs| - 1]) + (if vs[|vs| - 1].Emit? then [vs[|vs| - 1].decision] else [])
  }

  ghost function EmittedFrom(packages: seq<Package>, vs: seq<Verdict>): seq<Package>
    requires |packages| == |vs|
  {
    if vs == [] then []
    else
      var n := |vs| - 1;
      EmittedFrom(packages[..n], vs[..n]) + (if vs[n].Emit? then [packages[n]] else [])
  }

  lemma {:induction false} EmittedIsProgress(judge: (Advisory, Package) -> Verdict, a: Advisory, keyOf: Package -> string,
                                             packages: seq<Package>, vs: seq<Verdict>)
    requires |packages| == |vs| && DistinctBy(packages, keyOf)
    requires forall k | 0 <= k < |vs| :: vs[k] == judge(a, packages[k]) && vs[k] != Fail
    ensures Progress(judge, a, keyOf, packages, EmittedFrom(packages, vs), Emitted(vs))
  {
    if vs != [] {
      var n := |vs| - 1;
      var p, from, ds := packages[n], EmittedFrom(packages[..n], vs[..n]), Emitted(vs[..n]);
      EmittedIsProgress(judge, a, keyOf, packages[..n], vs[..n]);
      assert packages == packages[..n] + [p];
      ProgressStep(judge, a, keyOf, packages[..n], p, from, ds);
    }
  }

  lemma ProgressStep(judge: (Advisory, Package) -> Verdict, a: Advisory, keyOf: Package -> string,
                     done: seq<Package>, p: Package, from: seq<Package>, ds: seq<Decision>)
    requires Progress(judge, a, keyOf, done, from, ds)
    requires forall q | q in done :: keyOf(q) != keyOf(p)
    ensures judge(a, p) == Skip ==> Progress(judge, a, keyOf, done + [p], from, ds)
    ensures judge(a, p).Emit? ==> Progress(judge, a, keyOf, done + [p], from + [p], ds + [judge(a, p).decision])
  {
  }

  /** The loop over the candidate packages of one advisory. */
  method JudgeCandidates(host: Host, cat: Catalogue, a: Advisory, candidates: seq<Package>,
                         rulesByKey: map<string, seq<Rule>>, fixesByKey: map<string, seq<Fix>>,
                         ghost judge: (Advisory, Package) -> Verdict) returns (r: Option<seq<Decision>>, ghost vs: seq<Verdict>)
    requires Prepared(host, cat, a, candidates, rulesByKey, fixesByKey) && Judges(judge, host, cat)
    ensures r.None? ==> exists p | p in candidates :: judge(a, p) == Fail
    ensures r.Some? ==> |vs| == |candidates| && r.value == Emitted(vs)
    ensures r.Some? ==> forall k | 0 <= k < |vs| :: vs[k] == judge(a, candidates[k]) && vs[k] != Fail
  {
    var severity := FindSeverity(a, Lookup(cat.references, a.id));
    var ds: seq<Decision> := [];
    vs := [];
    for i := 0 to |candidates|
      invariant |vs| == i && ds == Emitted(vs)
      invariant forall k | 0 <= k < i :: vs[k] == judge(a, candidates[k]) && vs[k] != Fail
    {
      var v := JudgeCandidate(host, cat, a, severity, candidates[i], candidates, rulesByKey, fixesByKey, judge);
      if v == Fail { return None, vs; }
      vs := vs + [v];
      assert vs[..i] + [v] == vs;
      if v.Emit? { ds := ds + [v.decision]; }
    }
    return Some(ds), vs;
  }

  /** One advisory's share: decisions it makes on different instances. */
  ghost predicate IsShare(judge: (Advisory, Package) -> Verdict, a: Advisory, packages: seq<Package>, from: seq<Package>, ds: seq<Decision>) {
    && |from| == |ds|
    && DistinctBy(from, InstanceKey)
    && (forall k | 0 <= k < |ds| :: from[k] in packages && judge(a, from[k]) == Emit(ds[k]))
  }

  /** All the decisions it makes on the given packages, and no others. */
  ghost predicate IsWholeShare(judge: (Advisory, Package) -> Verdict, a: Advisory, packages: seq<Package>, from: seq<Package>, ds: seq<Decision>) {
    IsShare(judge, a, packages, from, ds) && forall p | p in packages :: judge(a, p) == Skip || p in from
  }

  lemma CandidatesGiveShare(judge: (Advisory, Package) -> Verdict, a: Advisory, packages: seq<Package>, candidates: seq<Package>,
                            from: seq<Package>, ds: seq<Decision>)
    requires Progress(judge, a, InstanceKey, candidates, from, ds)
    requires forall c | c in candidates :: c in packages
    ensures IsShare(judge, a, packages, from, ds)
    ensures (forall p | p in packages && judge(a, p) != Skip :: p in candidates) ==> IsWholeShare(judge, a, packages, from, ds)
  {
  }

  /** The candidates are instances, all those that the nested loop pairs with the advisory. */
  ghost predicate AreInstances(host: Host, cat: Catalogue, a: Advisory, candidates: seq<Package>) {
    && (forall c | c in candidates :: c in Instances(host.packages))
    && (forall p | p in Instances(host.packages) && IsCandidate(host, cat, a, p) :: p in candidates)
  }

  /** The candidates found through the indexes are those of the nested loop, one per instance key. */
  method FindCandidates(host: Host, cat: Catalogue, a: Advisory, byName: map<string, seq<Package>>,
                        rulesByKey: map<string, seq<Rule>>, fixesByKey: map<string, seq<Fix>>) returns (candidates: seq<Package>)
    requires Indexes(byName, host.packages, AnyPackage, PackageKeys) && AreIndexes(host, cat, a, rulesByKey, fixesByKey)
    ensures DistinctBy(candidates, InstanceKey)
    ensures forall c | c in candidates :: IsCandidate(host, cat, a, c)
    ensures Settled(host.packages) ==> AreInstances(host, cat, a, candidates)
  {
    ghost var order;
    candidates, order := CandidatePackages(byName, rulesByKey, fixesByKey);
    forall p: Package
      ensures Filed(byName, byName.Keys, rulesByKey, fixesByKey, p) <==> IsCandidate(host, cat, a, p)
    {
      FiledIsNestedLoop(byName, rulesByKey, fixesByKey, host.packages, Lookup(cat.rules, a.id), Lookup(cat.fixes, a.id), host.streams,
                        AnyPackage, PackageKeys, InStreams(host.streams), FixInStreams(host.streams), p);
    }
    if Settled(host.packages) {
      FiledLeadersAreCandidates(byName, rulesByKey, fixesByKey, host.packages, AnyPackage, PackageKeys, InstanceKey, order);
    }
  }

  lemma OnlyCandidatesAreJudged(host: Host, cat: Catalogue, a: Advisory)
    ensures forall p | p in host.packages && JudgeFor(host, cat)(a, p) != Skip :: IsCandidate(host, cat, a, p) && Applies(host, cat, a.id)
  {
  }

  /** The verdicts on the candidates make up the advisory's share. */
  lemma VerdictsGiveShare(host: Host, cat: Catalogue, a: Advisory, candidates: seq<Package>, vs: seq<Verdict>)
    requires |vs| == |candidates| && DistinctBy(candidates, InstanceKey)
    requires forall k | 0 <= k < |vs| :: vs[k] == JudgeFor(host, cat)(a, candidates[k]) && vs[k] != Fail
    requires forall c | c in candidates :: IsCandidate(host, cat, a, c)
    ensures IsShare(JudgeFor(host, cat), a, host.packages, EmittedFrom(candidates, vs), Emitted(vs))
    ensures AreInstances(host, cat, a, candidates) ==>
              IsWholeShare(JudgeFor(host, cat), a, Instances(host.packages), EmittedFrom(candidates, vs), Emitted(vs))
  {
    OnlyCandidatesAreJudged(host, cat, a);
    EmittedIsProgress(JudgeFor(host, cat), a, InstanceKey, candidates, vs);
    CandidatesGiveShare(JudgeFor(host, cat), a, host.packages, candidates, EmittedFrom(candidates, vs), Emitted(vs));
    if AreInstances(host, cat, a, candidates) {
      CandidatesGiveShare(JudgeFor(host, cat), a, Instances(host.packages), candidates, EmittedFrom(candidates, vs), Emitted(vs));
    }
  }

  /** What the advisory loop is about: the verdicts, the packages and their instances, and whether they are settled. */
  datatype View = View(judge: (Advisory, Package) -> Verdict, packages: seq<Package>, instances: seq<Package>, settled: bool)

  ghost function ViewOf(host: Host, cat: Catalogue): View {
    View(JudgeFor(host, cat), host.packages, Instances(host.packages), Settled(host.packages))
  }

  /** Names a view whose definition is looked at. */
  predicate Looking(v: View) { true }

  ghost predicate IsViewOf(v: View, host: Host, cat: Catalogue) {
    forall w {:trigger Looking(w)} :: Looking(w) && w == v ==> v == ViewOf(host, cat)
  }

  /** Why the advisory loop may stop: a failing verdict, on an instance if packages are settled. */
  ghost predicate FailsOn(v: View, advisories: seq<Advisory>) {
    Fails(v.judge, advisories, v.packages) && (v.settled ==> Fails(v.judge, advisories, v.instances))
  }

  /** What one advisory contributes: decisions it makes, all those on instances if packages are settled. */
  ghost predicate IsShareOf(v: View, a: Advisory, from: seq<Package>, ds: seq<Decision>) {
    IsShare(v.judge, a, v.packages, from, ds) && (v.settled ==> IsWholeShare(v.judge, a, v.instances, from, ds))
  }

  /** The body of the advisory loop. */
  method JudgeAdvisory(host: Host, cat: Catalogue, a: Advisory, byName: map<string, seq<Package>>, ghost v: View)
    returns (r: Option<seq<Decision>>, ghost from: seq<Package>)
    requires Indexes(byName, host.packages, AnyPackage, PackageKeys) && IsViewOf(v, host, cat)
    ensures r.None? ==> FailsOn(v, [a])
    ensures r.Some? ==> IsShareOf(v, a, from, r.value)
  {
    assert Looking(v);
    if !Applies(host, cat, a.id) {
      OnlyCandidatesAreJudged(host, cat, a);
      return Some([]), [];
    }
    var rulesByKey, fixesByKey := IndexRulesAndFixes(host, Lookup(cat.rules, a.id), Lookup(cat.fixes, a.id));
    var candidates := FindCandidates(host, cat, a, byName, rulesByKey, fixesByKey);
    ghost var vs;
    r, vs := JudgeCandidates(host, cat, a, candidates, rulesByKey, fixesByKey, JudgeFor(host, cat));
    if r.None? {
      assert a in [a];
      return r, [];
    }
    VerdictsGiveShare(host, cat, a, candidates, vs);
    return r, EmittedFrom(candidates, vs);
  }

  method IndexRulesAndFixes(host: Host, rules: seq<Rule>, fixes: seq<Fix>)
    returns (rulesByKey: map<string, seq<Rule>>, fixesByKey: map<string, seq<Fix>>)
    ensures Indexes(rulesByKey, rules, InStreams(host.streams), RuleKeys)
    ensures Indexes(fixesByKey, fixes, FixInStreams(host.streams), FixKeys)
  {
    forall r: Rule ensures NoRepeats(RuleKeys(r)) { MatchKeysDistinct(r.packageName, r.sourceRpm.UnwrapOr("")); }
    forall f: Fix ensures NoRepeats(FixKeys(f)) { MatchKeysDistinct(f.packageName, f.sourceRpm.UnwrapOr("")); }
    rulesByKey := IndexByKeys(rules, InStreams(host.streams), RuleKeys);
    fixesByKey := IndexByKeys(fixes, FixInStreams(host.streams), FixKeys);
  }

  lemma JudgeNamesPackage(host: Host, cat: Catalogue, a: Advisory, p: Package)
    requires p in host.packages && Judge(host, cat, a, p).Emit?
    ensures var d := Judge(host, cat, a, p).decision;
            d.packageName == p.name && d.installedNevra == p.nevra && d.advisoryId == a.id && WellShaped(d)
  {
    JudgeIsSound(host, a, EffectiveSeverity(a, Lookup(cat.references, a.id)), p,
                 RulesFor(host, Lookup(cat.rules, a.id), p), FixesFor(host, Lookup(cat.fixes, a.id), p));
  }

  // ----- the advisory loop -----

  /** The decisions collected so far, each with the advisory and package it came from. */
  ghost predicate Collected(judge: (Advisory, Package) -> Verdict, done: seq<Advisory>, packages: seq<Package>,
                            origin: seq<(Advisory, Package)>, raw: seq<Decision>)
  {
    && |origin| == |raw|
    && (forall k | 0 <= k < |raw| ::
          origin[k].0 in done && origin[k].1 in packages && judge(origin[k].0, origin[k].1) == Emit(raw[k]))
  }

  /** Nothing was left out and nothing was done twice. */
  ghost predicate Exhaustive(judge: (Advisory, Package) -> Verdict, done: seq<Advisory>, packages: seq<Package>,
                             origin: seq<(Advisory, Package)>)
  {
    && (forall i, j | 0 <= i < j < |origin| :: origin[i] != origin[j])
    && (forall a, p | a in done && p in packages :: judge(a, p) == Skip || (a, p) in origin)
  }

  ghost function Pair(a: Advisory, from: seq<Package>): (pairs: seq<(Advisory, Package)>)
    ensures |pairs| == |from| && forall k | 0 <= k < |from| :: pairs[k] == (a, from[k])
  {
    seq(|from|, k requires 0 <= k < |from| => (a, from[k]))
  }

  lemma CollectShare(judge: (Advisory, Package) -> Verdict, done: seq<Advisory>, a: Advisory, packages: seq<Package>,
                     origin: seq<(Advisory, Package)>, raw: seq<Decision>, from: seq<Package>, ds: seq<Decision>)
    requires Collected(judge, done, packages, origin, raw) && IsShare(judge, a, packages, from, ds)
    ensures Collected(judge, done + [a], packages, origin + Pair(a, from), raw + ds)
  {
  }

  /** Everything made on the given packages was collected, once. */
  ghost predicate Whole(judge: (Advisory, Package) -> Verdict, done: seq<Advisory>, packages: seq<Package>,
                        origin: seq<(Advisory, Package)>, raw: seq<Decision>)
  {
    Collected(judge, done, packages, origin, raw) && Exhaustive(judge, done, packages, origin)
  }

  lemma ShareKeepsWhole(judge: (Advisory, Package) -> Verdict, done: seq<Advisory>, a: Advisory, packages: seq<Package>,
                        origin: seq<(Advisory, Package)>, raw: seq<Decision>, from: seq<Package>, ds: seq<Decision>)
    requires Whole(judge, done, packages, origin, raw) && IsWholeShare(judge, a, packages, from, ds) && a !in done
    ensures Whole(judge, done + [a], packages, origin + Pair(a, from), raw + ds)
  {
    CollectShare(judge, done, a, packages, origin, raw, from, ds);
  }

  /** The verdicts of a judge carry the names of their advisory and package. */
  ghost predicate NamesItsInput(judge: (Advisory, Package) -> Verdict, packages: seq<Package>) {
    forall a, p | p in packages && judge(a, p).Emit? ::
      var d := judge(a, p).decision;
      d.packageName == p.name && d.installedNevra == p.nevra && d.advisoryId == a.id && WellShaped(d)
  }

  lemma JudgeNamesItsInput(host: Host, cat: Catalogue)
    ensures NamesItsInput(JudgeFor(host, cat), host.packages)
  {
    forall a, p | p in host.packages && JudgeFor(host, cat)(a, p).Emit?
      ensures var d := JudgeFor(host, cat)(a, p).decision;
              d.packageName == p.name && d.installedNevra == p.nevra && d.advisoryId == a.id && WellShaped(d)
    {
      JudgeNamesPackage(host, cat, a, p);
    }
  }

  lemma CollectedIsOnePerAdvisory(judge: (Advisory, Package) -> Verdict, advisories: seq<Advisory>, packages: seq<Package>,
                                  origin: seq<(Advisory, Package)>, raw: seq<Decision>)
    requires Whole(judge, advisories, packages, origin, raw)
    requires ToldApart(packages) && DistinctBy(advisories, AdvisoryId) && NamesItsInput(judge, packages)
    ensures OnePerAdvisory(raw)
  {
  }

  lemma CollectedIsMade(judge: (Advisory, Package) -> Verdict, advisories: seq<Advisory>, packages: seq<Package>,
                        origin: seq<(Advisory, Package)>, raw: seq<Decision>, d: Decision)
    requires Collected(judge, advisories, packages, origin, raw)
    ensures d in raw ==> Made(judge, advisories, packages, d)
    ensures Exhaustive(judge, advisories, packages, origin) && Made(judge, advisories, packages, d) ==> d in raw
  {
  }

  lemma ExhaustiveHasNoFailure(judge: (Advisory, Package) -> Verdict, advisories: seq<Advisory>, packages: seq<Package>,
                               origin: seq<(Advisory, Package)>, raw: seq<Decision>)
    requires Whole(judge, advisories, packages, origin, raw)
    ensures !Fails(judge, advisories, packages)
  {
  }

  /** Collapsing everything that was made leaves the winners, and one for every package instance. */
  lemma CollapseGivesWinners(judge: (Advisory, Package) -> Verdict, apt: bool, advisories: seq<Advisory>, packages: seq<Package>, raw: seq<Decision>)
    requires OnePerAdvisory(raw) && forall d :: d in raw <==> Made(judge, advisories, packages, d)
    ensures forall d :: d in Collapse.Collapse(apt, raw) <==> Wins(judge, apt, advisories, packages, d)
    ensures forall d | Made(judge, advisories, packages, d) :: Represented(apt, Collapse.Collapse(apt, raw), d)
  {
    forall d ensures d in Collapse.Collapse(apt, raw) <==> Wins(judge, apt, advisories, packages, d) {
      CollapseKeepsTheMostPreferred(apt, raw, d);
    }
    forall d | Made(judge, advisories, packages, d) ensures Represented(apt, Collapse.Collapse(apt, raw), d) {
      KeptRepresents(apt, raw, d);
    }
  }

  lemma CollapseGivesOutcome(host: Host, cat: Catalogue, advisories: seq<Advisory>, origin: seq<(Advisory, Package)>, raw: seq<Decision>)
    requires Whole(JudgeFor(host, cat), advisories, Instances(host.packages), origin, raw)
    requires Settled(host.packages) && DistinctBy(advisories, AdvisoryId)
    ensures IsOutcome(host, cat, advisories, Some(Collapse.Collapse(host.Apt(), raw)))
  {
    var judge, instances := JudgeFor(host, cat), Instances(host.packages);
    JudgeNamesItsInput(host, cat);
    assert NamesItsInput(judge, instances);
    ExhaustiveHasNoFailure(judge, advisories, instances, origin, raw);
    CollectedIsOnePerAdvisory(judge, advisories, instances, origin, raw);
    CollapseTwice(host.Apt(), raw);
    AllMade(judge, advisories, instances, origin, raw);
    CollapseGivesWinners(judge, host.Apt(), advisories, instances, raw);
  }

  lemma AllMade(judge: (Advisory, Package) -> Verdict, advisories: seq<Advisory>, packages: seq<Package>,
                origin: seq<(Advisory, Package)>, raw: seq<Decision>)
    requires Whole(judge, advisories, packages, origin, raw)
    ensures forall d :: d in raw <==> Made(judge, advisories, packages, d)
  {
  }

  lemma KeptRepresents(apt: bool, raw: seq<Decision>, d: Decision)
    requires d in raw
    ensures Represented(apt, Collapse.Collapse(apt, raw), d)
  {
    var kept := Collapse.Collapse(apt, raw);
    PreferenceIsTotalPreorder(apt);
    CollapseKeepsMaxima(raw, KeyOf, AtMost(apt), d);
    var i :| 0 <= i < |kept| && KeyOf(kept[i]) == KeyOf(d) && AtMost(apt)(d, kept[i]);
    assert kept[i] in kept;
  }

  lemma CollapseIsSoundResult(host: Host, cat: Catalogue, advisories: seq<Advisory>, origin: seq<(Advisory, Package)>, raw: seq<Decision>)
    requires Collected(JudgeFor(host, cat), advisories, host.packages, origin, raw)
    ensures IsSoundResult(host, cat, advisories, Some(Collapse.Collapse(host.Apt(), raw)))
  {
    var judge := JudgeFor(host, cat);
    JudgeNamesItsInput(host, cat);
    CollapseTwice(host.Apt(), raw);
    CollapseIsSubset(raw, KeyOf, AtMost(host.Apt()));
    forall d | d in Collapse.Collapse(host.Apt(), raw)
      ensures WellShaped(d) && Made(judge, advisories, host.packages, d)
    {
      CollectedIsMade(judge, advisories, host.packages, origin, raw, d);
      var a, p :| a in advisories && p in host.packages && judge(a, p) == Emit(d);
    }
  }

  /** What the advisory loop has collected: decisions made, all those on instances if the inputs tell them apart. */
  ghost predicate SoFar(v: View, done: seq<Advisory>, origin: seq<(Advisory, Package)>, raw: seq<Decision>) {
    && Collected(v.judge, done, v.packages, origin, raw)
    && (v.settled && DistinctBy(done, AdvisoryId) ==> Whole(v.judge, done, v.instances, origin, raw))
  }

  lemma SoFarStep(v: View, done: seq<Advisory>, a: Advisory, origin: seq<(Advisory, Package)>, raw: seq<Decision>,
                  from: seq<Package>, ds: seq<Decision>)
    requires SoFar(v, done, origin, raw) && IsShareOf(v, a, from, ds)
    ensures SoFar(v, done + [a], origin + Pair(a, from), raw + ds)
  {
    CollectShare(v.judge, done, a, v.packages, origin, raw, from, ds);
    if v.settled && DistinctBy(done + [a], AdvisoryId) {
      FreshAdvisory(done, a);
      ShareKeepsWhole(v.judge, done, a, v.instances, origin, raw, from, ds);
    }
  }

  /** indexPackagesByName */
  method IndexPackages(packages: seq<Package>) returns (byName: map<string, seq<Package>>)
    ensures Indexes(byName, packages, AnyPackage, PackageKeys)
  {
    forall p: Package ensures NoRepeats(PackageKeys(p)) { PackageKeysDistinct(p); }
    byName := IndexByKeys(packages, AnyPackage, PackageKeys);
  }

  /** The advisory loop of buildDecisions. */
  method CollectDecisions(host: Host, cat: Catalogue, advisories: seq<Advisory>, ghost v: View)
    returns (r: Option<seq<Decision>>, ghost origin: seq<(Advisory, Package)>)
    requires IsViewOf(v, host, cat)
    ensures r.None? ==> FailsOn(v, advisories)
    ensures r.Some? ==> SoFar(v, advisories, origin, r.value)
  {
    var byName := IndexPackages(host.packages);
    var raw: seq<Decision> := [];
    origin := [];
    for i := 0 to |advisories|
      invariant SoFar(v, advisories[..i], origin, raw)
    {
      var share, from := JudgeAdvisory(host, cat, advisories[i], byName, v);
      if share.None? { return None, []; }
      assert advisories[..i + 1] == advisories[..i] + [advisories[i]];
      SoFarStep(v, advisories[..i], advisories[i], origin, raw, from, share.value);
      raw, origin := raw + share.value, origin + Pair(advisories[i], from);
    }
    assert advisories[..|advisories|] == advisories;
    return Some(raw), origin;
  }

  /**
   * buildDecisions; None is its error. Every result is sound. With settled packages and distinct advisory ids
   * it is the outcome that the inputs alone determine, although the candidate loop and the surviving rules
   * follow the order of Go maps.
   */
  method BuildDecisions(host: Host, cat: Catalogue, advisories: seq<Advisory>) returns (r: Option<seq<Decision>>)
    ensures IsSoundResult(host, cat, advisories, r)
    ensures Settled(host.packages) && DistinctBy(advisories, AdvisoryId) ==> IsOutcome(host, cat, advisories, r)
  {
    var raw, origin := CollectDecisions(host, cat, advisories, ViewOf(host, cat));
    if raw.None? { return None; }
    CollapseIsSoundResult(host, cat, advisories, origin, raw.value);
    if Settled(host.packages) && DistinctBy(advisories, AdvisoryId) {
      CollapseGivesOutcome(host, cat, advisories, origin, raw.value);
    }
    var collapsed := CollapseSuperseded(host.Apt(), raw.value);
    return Some(collapsed);
  }

  /**
   * Every decision that buildDecisions returns was made by one of the advisories on one of the installed packages, and
   * says the truth about that package, the fixes considered for it and the running kernel.
   */
  lemma ResultIsSound(host: Host, cat: Catalogue, advisories: seq<Advisory>, r: seq<Decision>, d: Decision)
    returns (a: Advisory, p: Package)
    requires IsSoundResult(host, cat, advisories, Some(r)) && d in r
    ensures a in advisories && p in host.packages && a.id == d.advisoryId && Tried(host, cat, a, p)
    ensures WellShaped(d) && Sound(host, p, FixesConsidered(host, cat, a, p), d)
  {
    a, p :| a in advisories && p in host.packages && JudgeFor(host, cat)(a, p) == Emit(d);
    JudgeIsSound(host, a, EffectiveSeverity(a, Lookup(cat.references, a.id)), p,
                 RulesFor(host, Lookup(cat.rules, a.id), p), FixesFor(host, Lookup(cat.fixes, a.id), p));
  }

  /** The fixes an advisory's verdict on a package takes into account. */
  ghost function FixesConsidered(host: Host, cat: Catalogue, a: Advisory, p: Package): seq<Fix> {
    ConsideredFixes(host, p, RulesFor(host, Lookup(cat.rules, a.id), p), FixesFor(host, Lookup(cat.fixes, a.id), p))
  }

  /** They are fixes of the advisory for a resolved stream that share a match key with the package. */
  lemma ConsideredFixesShareAKey(host: Host, cat: Catalogue, a: Advisory, p: Package, f: Fix)
    requires f in FixesConsidered(host, cat, a, p)
    ensures f in Lookup(cat.fixes, a.id) && f.streamId in host.streams && SharesKey(PackageKeys(p), FixKeys(f))
  {
    var fixes := Lookup(cat.fixes, a.id);
    assert f in FixesFor(host, fixes, p);
    LookupIsNestedLoop(PackageKeys(p), fixes, FixInStreams(host.streams), FixKeys, FixId);
  }

  lemma FreshAdvisory(done: seq<Advisory>, a: Advisory)
    requires DistinctBy(done + [a], AdvisoryId)
    ensures a !in done && DistinctBy(done, AdvisoryId)
  {
    var all := done + [a];
    forall i, j | 0 <= i < j < |done| ensures done[i].id != done[j].id { assert AdvisoryId(all[i]) != AdvisoryId(all[j]); }
    forall i | 0 <= i < |done| ensures done[i] != a { assert AdvisoryId(all[i]) != AdvisoryId(all[|done|]); }
  }

  /**
   * Determinism: two runs over the same host and catalogue, with the advisories in any two orders and any map
   * iteration orders, both fail or both return the same set of decisions.
   */
  lemma OutcomeIsDetermined(host: Host, cat: Catalogue, advisories: seq<Advisory>, shuffled: seq<Advisory>,
                            r: Option<seq<Decision>>, s: Option<seq<Decision>>)
    requires multiset(advisories) == multiset(shuffled)
    requires IsOutcome(host, cat, advisories, r) && IsOutcome(host, cat, shuffled, s)
    ensures r.None? <==> s.None?
    ensures r.Some? ==> (forall d :: d in r.value <==> d in s.value) && multiset(r.value) == multiset(s.value)
  {
    SameMembers(advisories, shuffled);
    SameVerdicts(JudgeFor(host, cat), host.Apt(), advisories, shuffled, Instances(host.packages));
    if r.Some? && s.Some? { SameMultiset(r.value, s.value); }
  }

  lemma SameMembers(advisories: seq<Advisory>, shuffled: seq<Advisory>)
    requires multiset(advisories) == multiset(shuffled)
    ensures forall a :: a in advisories <==> a in shuffled
  {
    assert forall a :: a in advisories <==> a in multiset(advisories);
    assert forall a :: a in shuffled <==> a in multiset(shuffled);
  }

  lemma SameVerdicts(judge: (Advisory, Package) -> Verdict, apt: bool, advisories: seq<Advisory>, shuffled: seq<Advisory>, packages: seq<Package>)
    requires forall a :: a in advisories <==> a in shuffled
    ensures Fails(judge, advisories, packages) <==> Fails(judge, shuffled, packages)
    ensures forall d :: Wins(judge, apt, advisories, packages, d) <==> Wins(judge, apt, shuffled, packages, d)
  {
  }

  lemma SameMultiset(ds: seq<Decision>, es: seq<Decision>)
    requires DistinctBy(ds, KeyOf) && DistinctBy(es, KeyOf)
    requires forall d :: d in ds <==> d in es
    ensures multiset(ds) == multiset(es)
  {
    forall d
      ensures multiset(ds)[d] == multiset(es)[d]
    {
      AtMostOnce(ds, d);
      AtMostOnce(es, d);
    }
  }

  lemma {:induction false} AtMostOnce(ds: seq<Decision>, d: Decision)
    requires DistinctBy(ds, KeyOf)
    ensures multiset(ds)[d] == if d in ds then 1 else 0
  {
    if ds != [] {
      var n := |ds| - 1;
      AtMostOnce(ds[..n], d);
      assert ds == ds[..n] + [ds[n]];
    }
  }

  // ----- the host's state -----

  datatype Summary = Summary(overall: Action, counters: Counters, decisions: nat)

  /** The summary counts these decisions and names the most urgent of them. */
  ghost predicate Summarises(s: Summary, ds: seq<Decision>) {
    s.counters == CountersOf(ds) && s.decisions == |ds| && IsOverall(ds, s.overall)
  }

  /** The overall action is the most urgent of all decisions made, before any of them was collapsed. */
  ghost predicate IsMostUrgent(host: Host, cat: Catalogue, advisories: seq<Advisory>, overall: Action) {
    var judge, instances := JudgeFor(host, cat), Instances(host.packages);
    && (forall d | Made(judge, advisories, instances, d) :: OverallPriority(d.action) <= OverallPriority(overall))
    && (overall == NoAction || exists d | Made(judge, advisories, instances, d) :: d.action == overall)
  }

  lemma WinnersShowMostUrgent(host: Host, cat: Catalogue, advisories: seq<Advisory>, ds: seq<Decision>, overall: Action)
    requires IsOutcome(host, cat, advisories, Some(ds)) && IsOverall(ds, overall)
    ensures IsMostUrgent(host, cat, advisories, overall)
  {
    var judge, apt, instances := JudgeFor(host, cat), host.Apt(), Instances(host.packages);
    forall d | Made(judge, advisories, instances, d)
      ensures OverallPriority(d.action) <= OverallPriority(overall)
    {
      assert Represented(apt, ds, d);
      var w :| w in ds && KeyOf(w) == KeyOf(d) && !Prefers(apt, d, w);
      PreferenceLaws(apt, RankOf(apt, d), RankOf(apt, w), RankOf(apt, d));
      PriorityTablesAgree(d.action, w.action);
    }
    if overall != NoAction {
      var d :| d in ds && d.action == overall;
      assert Wins(judge, apt, advisories, instances, d);
    }
  }

  /** The counters and the overall action tell the same story. */
  ghost predicate Consistent(s: Summary) {
    && (s.overall == RebootHost <==> s.counters.needsReboot > 0)
    && (s.overall == UpdatePackage <==> s.counters.needsReboot == 0 && s.counters.actionable > 0)
    && (s.overall == Investigate <==> s.counters.actionable == 0 && s.counters.noFix + s.counters.unknown > 0)
  }

  /** The matching part of MatchSnapshot; a host without resolved streams is to be investigated. */
  method MatchSnapshot(host: Host, cat: Catalogue, advisories: seq<Advisory>) returns (r: Option<Summary>)
    ensures host.streams == {} ==> r == Some(Summary(Investigate, Counters(0, 0, 0, 0, 0, 0, 0, 0), 0))
    ensures host.streams != {} && r.Some? ==> Consistent(r.value)
    ensures host.streams != {} && r.Some? ==>
              exists ds :: IsSoundResult(host, cat, advisories, Some(ds)) && Summarises(r.value, ds)
    ensures host.streams != {} && Settled(host.packages) && DistinctBy(advisories, AdvisoryId) ==>
              && IsSnapshotResult(host, cat, advisories, r)
              && (r.Some? ==> IsMostUrgent(host, cat, advisories, r.value.overall))
  {
    if host.streams == {} {
      return Some(Summary(Investigate, Counters(0, 0, 0, 0, 0, 0, 0, 0), 0));
    }
    var decisions := BuildDecisions(host, cat, advisories);
    if decisions.None? { return None; }
    var counters := Aggregate(decisions.value);
    var overall := OverallAction(decisions.value);
    AggregationAgrees(decisions.value, overall);
    if Settled(host.packages) && DistinctBy(advisories, AdvisoryId) {
      WinnersShowMostUrgent(host, cat, advisories, decisions.value, overall);
    }
    r := Some(Summary(overall, counters, |decisions.value|));
    assert Summarises(r.value, decisions.value);
  }

  /** The summary of the outcome that the inputs determine, or its failure. */
  ghost predicate IsSnapshotResult(host: Host, cat: Catalogue, advisories: seq<Advisory>, r: Option<Summary>) {
    if r.None? then IsOutcome(host, cat, advisories, None)
    else exists ds :: IsOutcome(host, cat, advisories, Some(ds)) && Summarises(r.value, ds)
  }

  /** Determinism of the host's state: any two orders of the advisories and any map orders give the same summary. */
  lemma SummaryIsDetermined(host: Host, cat: Catalogue, advisories: seq<Advisory>, shuffled: seq<Advisory>,
                            r: Option<Summary>, s: Option<Summary>)
    requires multiset(advisories) == multiset(shuffled)
    requires IsSnapshotResult(host, cat, advisories, r) && IsSnapshotResult(host, cat, shuffled, s)
    ensures r == s
  {
    var ds := if r.None? then None else
      var ds :| IsOutcome(host, cat, advisories, Some(ds)) && Summarises(r.value, ds); Some(ds);
    var es := if s.None? then None else
      var es :| IsOutcome(host, cat, shuffled, Some(es)) && Summarises(s.value, es); Some(es);
    OutcomeIsDetermined(host, cat, advisories, shuffled, ds, es);
    if r.Some? && s.Some? { SameSummary(ds.value, es.value, r.value, s.value); }
  }

  lemma SameSummary(ds: seq<Decision>, es: seq<Decision>, r: Summary, s: Summary)
    requires multiset(ds) == multiset(es) && Summarises(r, ds) && Summarises(s, es)
    ensures r == s
  {
    SameCounters(ds, es);
    assert |ds| == |multiset(ds)| && |es| == |multiset(es)|;
    forall d ensures d in ds <==> d in es { assert d in ds <==> d in multiset(ds); }
    OverallIsUnique(ds, r.overall, s.overall);
  }

  // ----- which advisories are tried -----

  /** An advisory without a link to a resolved stream says nothing about any package. */
  lemma UnlinkedIsSkipped(host: Host, cat: Catalogue, a: Advisory, p: Package)
    requires forall s | s in Lookup(cat.links, a.id) :: s !in host.streams
    ensures Judge(host, cat, a, p) == Skip
  {
  }

  /** A kernel that is not relevant, or a package that shares no key with a rule or fix of a resolved stream, is left alone. */
  lemma UnsharedIsSkipped(host: Host, cat: Catalogue, a: Advisory, p: Package)
    requires || !IsRelevant(host, p)
             || (&& (forall r | r in Lookup(cat.rules, a.id) && r.streamId in host.streams :: !SharesKey(PackageKeys(p), RuleKeys(r)))
                 && (forall f | f in Lookup(cat.fixes, a.id) && f.streamId in host.streams :: !SharesKey(PackageKeys(p), FixKeys(f))))
    ensures Judge(host, cat, a, p) == Skip
  {
    SharedMeans(PackageKeys(p), Lookup(cat.rules, a.id), Lookup(cat.fixes, a.id), host.streams);
  }

  lemma SharedMeans(keys: seq<string>, rules: seq<Rule>, fixes: seq<Fix>, streams: set<string>)
    ensures HasRuleOrFix(keys, rules, fixes, streams) <==>
              || (exists r | r in rules :: r.streamId in streams && SharesKey(keys, RuleKeys(r)))
              || (exists f | f in fixes :: f.streamId in streams && SharesKey(keys, FixKeys(f)))
  {
  }

  /** With distinct ids, the rules and fixes looked up for a package are those of resolved streams that share a key with it. */
  lemma LookedUpMeaning(host: Host, rules: seq<Rule>, fixes: seq<Fix>, p: Package, r: Rule, f: Fix)
    requires DistinctBy(rules, RuleId) && DistinctBy(fixes, FixId)
    ensures r in RulesFor(host, rules, p) <==> r in rules && r.streamId in host.streams && SharesKey(PackageKeys(p), RuleKeys(r))
    ensures f in FixesFor(host, fixes, p) <==> f in fixes && f.streamId in host.streams && SharesKey(PackageKeys(p), FixKeys(f))
  {
    LookupIsNestedLoop(PackageKeys(p), rules, InStreams(host.streams), RuleKeys, RuleId);
    LookupIsNestedLoop(PackageKeys(p), fixes, FixInStreams(host.streams), FixKeys, FixId);
  }
}
