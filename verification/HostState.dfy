/** The overall action of a host and its counters, computed from its decisions. */
module HostState {
  import opened GoStrings
  import opened Decisions
  import opened Judgement
  import opened Collapse

  /** The priority table of overallAction; an unknown action reads as zero. */
  function OverallPriority(action: Action): int {
    match action
    case NoAction => 0
    case Investigate => 1
    case UpdatePackage => 2
    case RestartService => 3
    case RebootHost => 4
    case OtherAction(_) => 0
  }

  /** overallAction */
  method OverallAction(ds: seq<Decision>) returns (selected: Action)
    ensures IsOverall(ds, selected)
  {
    selected := NoAction;
    for i := 0 to |ds|
      invariant IsOverall(ds[..i], selected)
    {
      if OverallPriority(ds[i].action) > OverallPriority(selected) {
        selected := ds[i].action;
      }
      assert ds[..i + 1] == ds[..i] + [ds[i]];
    }
    assert ds[..|ds|] == ds;
  }

  /** The selected action has the highest priority, and is "none" unless a decision asks for it. */
  ghost predicate IsOverall(ds: seq<Decision>, selected: Action) {
    && (forall d | d in ds :: OverallPriority(d.action) <= OverallPriority(selected))
    && (selected == NoAction || (OverallPriority(selected) > 0 && exists d | d in ds :: d.action == selected))
  }

  /** That determines the overall action. */
  lemma OverallIsUnique(ds: seq<Decision>, a: Action, b: Action)
    requires IsOverall(ds, a) && IsOverall(ds, b)
    ensures a == b
  {
  }

  /** The two priority tables rank actions alike wherever the overall action can tell. */
  lemma PriorityTablesAgree(a: Action, b: Action)
    requires ActionPriority(a) <= ActionPriority(b)
    ensures OverallPriority(a) <= OverallPriority(b)
  {
  }

  /** Some decision of `kept` has at least the priority of `d`. */
  ghost predicate Reached(kept: seq<Decision>, d: Decision) {
    exists w | w in kept :: OverallPriority(d.action) <= OverallPriority(w.action)
  }

  /** A part of the decisions that reaches every priority has the same overall action. */
  lemma OverallOfDominating(ds: seq<Decision>, kept: seq<Decision>, selected: Action)
    requires forall w | w in kept :: w in ds
    requires forall d {:trigger Reached(kept, d)} | d in ds :: Reached(kept, d)
    ensures IsOverall(kept, selected) <==> IsOverall(ds, selected)
  {
    if IsOverall(ds, selected) && selected != NoAction {
      var d :| d in ds && d.action == selected;
      assert Reached(kept, d);
    }
    if IsOverall(kept, selected) {
      forall d | d in ds
        ensures OverallPriority(d.action) <= OverallPriority(selected)
      {
        assert Reached(kept, d);
      }
    }
  }

  lemma KeptDominates(apt: bool, ds: seq<Decision>, d: Decision) returns (w: Decision)
    requires d in ds
    ensures w in Collapse.Collapse(apt, ds) && OverallPriority(d.action) <= OverallPriority(w.action)
  {
    var kept := Collapse.Collapse(apt, ds);
    PreferenceIsTotalPreorder(apt);
    CollapseKeepsMaxima(ds, KeyOf, AtMost(apt), d);
    var i :| 0 <= i < |kept| && KeyOf(kept[i]) == KeyOf(d) && AtMost(apt)(d, kept[i]);
    w := kept[i];
    PreferenceLaws(apt, RankOf(apt, d), RankOf(apt, w), RankOf(apt, d));
    PriorityTablesAgree(d.action, w.action);
  }

  /** Collapsing never changes the overall action, for any list of decisions. */
  lemma CollapseKeepsOverall(apt: bool, ds: seq<Decision>, selected: Action)
    ensures IsOverall(Collapse.Collapse(apt, ds), selected) <==> IsOverall(ds, selected)
  {
    CollapseIsSubset(ds, KeyOf, AtMost(apt));
    forall d | d in ds
      ensures Reached(Collapse.Collapse(apt, ds), d)
    {
      var w := KeptDominates(apt, ds, d);
    }
    OverallOfDominating(ds, Collapse.Collapse(apt, ds), selected);
  }

  // ----- counters -----

  datatype Counters = Counters(critical: nat, important: nat, moderate: nat, actionable: nat, needsReboot: nat,
                               needsRestart: nat, noFix: nat, unknown: nat)

  function Count(ds: seq<Decision>, wanted: Decision -> bool): nat {
    if ds == [] then 0 else Count(ds[..|ds| - 1], wanted) + (if wanted(ds[|ds| - 1]) then 1 else 0)
  }

  predicate Unresolved(d: Decision) { d.status != Resolved }
  predicate Actionable(d: Decision) { d.status == FixAvailable || d.status == PendingActivation }
  predicate AwaitsReboot(d: Decision) { d.status == PendingActivation && d.action == RebootHost }
  predicate AwaitsRestart(d: Decision) { d.status == PendingActivation && d.action == RestartService }
  predicate HasNoFix(d: Decision) { d.status == NoFix }
  predicate IsUnknown(d: Decision) { d.status == UnknownStatus }
  predicate IsCritical(d: Decision) { Unresolved(d) && NormalizeSeverity(d.severity) == "critical" }
  predicate IsImportant(d: Decision) { Unresolved(d) && NormalizeSeverity(d.severity) == "important" }
  predicate IsModerate(d: Decision) { Unresolved(d) && NormalizeSeverity(d.severity) == "moderate" }

  function CountersOf(ds: seq<Decision>): Counters {
    Counters(Count(ds, IsCritical), Count(ds, IsImportant), Count(ds, IsModerate), Count(ds, Actionable),
             Count(ds, AwaitsReboot), Count(ds, AwaitsRestart), Count(ds, HasNoFix), Count(ds, IsUnknown))
  }

  /** The loop of aggregateHostCurrentState. */
  method Aggregate(ds: seq<Decision>) returns (c: Counters)
    ensures c == CountersOf(ds)
  {
    c := Counters(0, 0, 0, 0, 0, 0, 0, 0);
    for i := 0 to |ds|
      invariant c == CountersOf(ds[..i])
    {
      assert ds[..i + 1][..i] == ds[..i];
      if ds[i].status != Resolved {
        c := CountStatus(CountSeverity(c, NormalizeSeverity(ds[i].severity)), ds[i]);
      }
    }
    assert ds[..|ds|] == ds;
  }

  function CountSeverity(c: Counters, severity: string): Counters {
    match severity
    case "critical" => c.(critical := c.critical + 1)
    case "important" => c.(important := c.important + 1)
    case "moderate" => c.(moderate := c.moderate + 1)
    case _ => c
  }

  function CountStatus(c: Counters, d: Decision): Counters {
    match d.status
    case FixAvailable => c.(actionable := c.actionable + 1)
    case PendingActivation =>
      var c' := c.(actionable := c.actionable + 1);
      (match d.action
       case RebootHost => c'.(needsReboot := c.needsReboot + 1)
       case RestartService => c'.(needsRestart := c.needsRestart + 1)
       case _ => c')
    case NoFix => c.(noFix := c.noFix + 1)
    case UnknownStatus => c.(unknown := c.unknown + 1)
    case _ => c
  }

  lemma {:induction false} CountPositive(ds: seq<Decision>, wanted: Decision -> bool)
    ensures Count(ds, wanted) > 0 <==> exists d | d in ds :: wanted(d)
  {
    if ds != [] {
      CountPositive(ds[..|ds| - 1], wanted);
      assert ds == ds[..|ds| - 1] + [ds[|ds| - 1]];
    }
  }

  lemma {:induction false} UnresolvedSplit(ds: seq<Decision>)
    requires forall d | d in ds :: WellShaped(d)
    ensures Count(ds, Actionable) + Count(ds, HasNoFix) + Count(ds, IsUnknown) == Count(ds, Unresolved)
    ensures Count(ds, AwaitsReboot) <= Count(ds, Actionable) && Count(ds, AwaitsRestart) == 0
  {
    if ds != [] {
      UnresolvedSplit(ds[..|ds| - 1]);
      assert WellShaped(ds[|ds| - 1]);
    }
  }

  /** Which decisions decide the overall action. */
  lemma OverallCases(ds: seq<Decision>, overall: Action)
    requires (forall d | d in ds :: WellShaped(d)) && IsOverall(ds, overall)
    ensures overall == RebootHost <==> exists d | d in ds :: AwaitsReboot(d)
    ensures overall == RebootHost || overall == UpdatePackage <==> exists d | d in ds :: Actionable(d)
    ensures overall != NoAction <==> exists d | d in ds :: Unresolved(d)
    ensures overall == NoAction || overall == Investigate || overall == UpdatePackage || overall == RebootHost
  {
  }

  /** For every list of decisions that the matcher makes, the counters and the overall action agree. */
  lemma AggregationAgrees(ds: seq<Decision>, overall: Action)
    requires (forall d | d in ds :: WellShaped(d)) && IsOverall(ds, overall)
    ensures var c := CountersOf(ds);
            && c.actionable + c.noFix + c.unknown == Count(ds, Unresolved)
            && (overall == RebootHost <==> c.needsReboot > 0)
            && (overall == UpdatePackage <==> c.needsReboot == 0 && c.actionable > 0)
            && (overall == Investigate <==> c.actionable == 0 && c.noFix + c.unknown > 0)
            && (overall == NoAction <==> Count(ds, Unresolved) == 0)
  {
    OverallCases(ds, overall);
    UnresolvedSplit(ds);
    CountPositive(ds, Actionable);
    CountPositive(ds, AwaitsReboot);
    CountPositive(ds, Unresolved);
  }

  // ----- the order of the decisions does not matter -----

  lemma {:induction false} CountConcat(ds: seq<Decision>, es: seq<Decision>, wanted: Decision -> bool)
    ensures Count(ds + es, wanted) == Count(ds, wanted) + Count(es, wanted)
  {
    if es == [] {
      assert ds + es == ds;
    } else {
      var n := |es| - 1;
      assert (ds + es)[..|ds| + n] == ds + es[..n];
      CountConcat(ds, es[..n], wanted);
    }
  }

  lemma Cancel(a: multiset<Decision>, b: multiset<Decision>, d: Decision)
    requires a + multiset{d} == b + multiset{d}
    ensures a == b
  {
    assert a == a + multiset{d} - multiset{d};
    assert b == b + multiset{d} - multiset{d};
  }

  lemma CountAround(ds: seq<Decision>, d: Decision, es: seq<Decision>, wanted: Decision -> bool)
    ensures Count(ds + ([d] + es), wanted) == Count(ds + es, wanted) + Count([d], wanted)
  {
    CountConcat(ds, [d] + es, wanted);
    CountConcat([d], es, wanted);
    CountConcat(ds, es, wanted);
  }

  lemma Around(ds: seq<Decision>, d: Decision) returns (before: seq<Decision>, after: seq<Decision>)
    requires d in ds
    ensures ds == before + ([d] + after)
  {
    var i :| 0 <= i < |ds| && ds[i] == d;
    before, after := ds[..i], ds[i + 1..];
  }

  /** Taking out one decision. */
  lemma TakeOut(ds: seq<Decision>, d: Decision, wanted: Decision -> bool) returns (rest: seq<Decision>)
    requires d in ds
    ensures |rest| < |ds| && multiset(ds) == multiset(rest) + multiset{d}
    ensures Count(ds, wanted) == Count(rest, wanted) + Count([d], wanted)
  {
    var before, after := Around(ds, d);
    rest := before + after;
    CountAround(before, d, after, wanted);
  }

  lemma {:induction false} CountIgnoresOrder(ds: seq<Decision>, es: seq<Decision>, wanted: Decision -> bool)
    requires multiset(ds) == multiset(es)
    ensures Count(ds, wanted) == Count(es, wanted)
    decreases |ds|
  {
    if ds == [] {
      assert |es| == |multiset(es)|;
    } else {
      var d := ds[0];
      assert d in multiset(es);
      var ds' := TakeOut(ds, d, wanted);
      var es' := TakeOut(es, d, wanted);
      Cancel(multiset(ds'), multiset(es'), d);
      CountIgnoresOrder(ds', es', wanted);
    }
  }

  lemma SameCounters(ds: seq<Decision>, es: seq<Decision>)
    requires multiset(ds) == multiset(es)
    ensures CountersOf(ds) == CountersOf(es)
  {
    CountIgnoresOrder(ds, es, IsCritical);
    CountIgnoresOrder(ds, es, IsImportant);
    CountIgnoresOrder(ds, es, IsModerate);
    CountIgnoresOrder(ds, es, Actionable);
    CountIgnoresOrder(ds, es, AwaitsReboot);
    CountIgnoresOrder(ds, es, AwaitsRestart);
    CountIgnoresOrder(ds, es, HasNoFix);
    CountIgnoresOrder(ds, es, IsUnknown);
  }

  /** What one decision adds to the severity counters. */
  lemma SeverityCounted(d: Decision)
    requires IsLowerWord(d.severity)
    ensures IsCritical(d) <==> d.status != Resolved && d.severity == "critical"
    ensures IsImportant(d) <==> d.status != Resolved && (d.severity == "important" || d.severity == "high")
    ensures IsModerate(d) <==> d.status != Resolved && (d.severity == "moderate" || d.severity == "medium")
  {
    LowerWordIsKept(d.severity);
  }
}
