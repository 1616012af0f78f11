/** One decision per package instance, the host's overall action and its counters. */
module Collapse {
  import opened Digits
  import opened GoStrings
  import opened Evr
  import opened Nevra
  import opened Inventory
  import opened Decisions
  import opened Judgement

  // ----- preference between decisions -----

  /** decisionPriority */
  function ActionPriority(action: Action): int {
    match action
    case RebootHost => 5
    case RestartService => 4
    case UpdatePackage => 3
    case Investigate => 2
    case NoAction => 1
    case OtherAction(_) => 0
  }

  /** What preferDecision looks at. */
  datatype Rank = Rank(priority: int, fixed: Option<Evr>, severity: int, advisoryId: string)

  function RankOf(apt: bool, d: Decision): Rank {
    Rank(ActionPriority(d.action), ParseFixedNevra(apt, d.fixedNevra.UnwrapOr("")), SeverityPriority(d.severity), d.advisoryId)
  }

  /** preferDecision */
  predicate PrefersRank(apt: bool, candidate: Rank, current: Rank) {
    if candidate.priority != current.priority then candidate.priority > current.priority
    else if candidate.fixed.Some? && current.fixed.Some? && Compare(apt, candidate.fixed.value, current.fixed.value) != 0 then
      Compare(apt, candidate.fixed.value, current.fixed.value) > 0
    else if candidate.fixed.Some? != current.fixed.Some? then candidate.fixed.Some?
    else if candidate.severity != current.severity then candidate.severity > current.severity
    else CompareStrings(candidate.advisoryId, current.advisoryId) > 0
  }

  predicate Prefers(apt: bool, candidate: Decision, current: Decision) {
    PrefersRank(apt, RankOf(apt, candidate), RankOf(apt, current))
  }

  predicate AtMostRank(apt: bool, a: Rank, b: Rank) { !PrefersRank(apt, a, b) }

  /** The fix of `w` is higher, or the only readable one. */
  ghost predicate FixAbove(apt: bool, w: Option<Evr>, d: Option<Evr>) {
    w.Some? && (d.None? || EvrBefore(apt, d.value, w.value))
  }

  ghost predicate FixLevel(apt: bool, w: Option<Evr>, d: Option<Evr>) {
    (w.None? && d.None?) || (w.Some? && d.Some? && EvrSame(apt, d.value, w.value))
  }

  /** `w` is at least as good: first the action, then the fix, then the severity, then the later advisory id. */
  ghost predicate AtLeast(apt: bool, w: Rank, d: Rank) {
    || w.priority > d.priority
    || (w.priority == d.priority && FixAbove(apt, w.fixed, d.fixed))
    || (w.priority == d.priority && FixLevel(apt, w.fixed, d.fixed) && w.severity > d.severity)
    || (&& w.priority == d.priority && FixLevel(apt, w.fixed, d.fixed) && w.severity == d.severity
        && (w.advisoryId == d.advisoryId || StringBefore(d.advisoryId, w.advisoryId)))
  }

  lemma FixesCompared(apt: bool, w: Evr, d: Evr)
    ensures Compare(apt, w, d) > 0 <==> EvrBefore(apt, d, w)
    ensures Compare(apt, w, d) == 0 <==> EvrSame(apt, d, w)
    ensures Compare(apt, w, d) == -Compare(apt, d, w)
  {
    CompareMeaning(apt, w, d);
    CompareMeaning(apt, d, w);
    Antisymmetric(apt, w, d);
  }

  /** A decision is not preferred to another exactly if the other is at least as good. */
  lemma PreferenceMeaning(apt: bool, w: Rank, d: Rank)
    ensures PrefersRank(apt, d, w) <==> !AtLeast(apt, w, d)
  {
    CompareStringsMeaning(d.advisoryId, w.advisoryId);
    CompareStringsAntisymmetric(d.advisoryId, w.advisoryId);
    if w.fixed.Some? && d.fixed.Some? { FixesCompared(apt, w.fixed.value, d.fixed.value); }
  }

  /** The actions from the most to the least urgent. */
  lemma ActionOrder(text: string)
    ensures ActionPriority(RebootHost) > ActionPriority(RestartService) > ActionPriority(UpdatePackage) >
            ActionPriority(Investigate) > ActionPriority(NoAction) > ActionPriority(OtherAction(text))
  {
  }

  /** preferDecision is a strict weak order, total on decisions of different advisories. */
  lemma PreferenceLaws(apt: bool, a: Rank, b: Rank, c: Rank)
    ensures AtMostRank(apt, a, b) || AtMostRank(apt, b, a)
    ensures AtMostRank(apt, a, b) && AtMostRank(apt, b, c) ==> AtMostRank(apt, a, c)
    ensures AtMostRank(apt, a, b) && AtMostRank(apt, b, a) ==> a.advisoryId == b.advisoryId
    ensures AtMostRank(apt, a, b) ==> a.priority <= b.priority
    ensures AtMostRank(apt, a, b) <==> AtLeast(apt, b, a)
  {
    PreferenceMeaning(apt, b, a);
    CompareStringsAntisymmetric(a.advisoryId, b.advisoryId);
    CompareStringsAntisymmetric(b.advisoryId, c.advisoryId);
    CompareStringsAntisymmetric(a.advisoryId, c.advisoryId);
    if CompareStrings(a.advisoryId, b.advisoryId) <= 0 && CompareStrings(b.advisoryId, c.advisoryId) <= 0 {
      CompareStringsTransitive(a.advisoryId, b.advisoryId, c.advisoryId);
    }
    if a.fixed.Some? && b.fixed.Some? {
      Antisymmetric(apt, a.fixed.value, b.fixed.value);
      if c.fixed.Some? {
        Antisymmetric(apt, b.fixed.value, c.fixed.value);
        Antisymmetric(apt, a.fixed.value, c.fixed.value);
        if Compare(apt, a.fixed.value, b.fixed.value) <= 0 && Compare(apt, b.fixed.value, c.fixed.value) <= 0 {
          Transitive(apt, a.fixed.value, b.fixed.value, c.fixed.value);
        }
      }
    }
  }

  // ----- collapsing, for any key and any preference -----

  /** The index of the entry with a key, or the length. */
  function FindKey<T, K(==)>(s: seq<T>, keyOf: T -> K, key: K): (i: nat)
    ensures i <= |s| && (i < |s| ==> keyOf(s[i]) == key)
    ensures forall j | 0 <= j < i :: keyOf(s[j]) != key
  {
    if s == [] || keyOf(s[0]) == key then 0 else 1 + FindKey(s[1..], keyOf, key)
  }

  /** Keeps, per key, the first of the most preferred entries, in the order in which the keys first occur. */
  function CollapseBy<T, K(==)>(ds: seq<T>, keyOf: T -> K, atMost: (T, T) -> bool): seq<T> {
    if ds == [] then []
    else
      var d, kept := ds[|ds| - 1], CollapseBy(ds[..|ds| - 1], keyOf, atMost);
      Absorb(kept, d, keyOf, atMost)
  }

  function Absorb<T, K(==)>(kept: seq<T>, d: T, keyOf: T -> K, atMost: (T, T) -> bool): seq<T> {
    var i := FindKey(kept, keyOf, keyOf(d));
    if i == |kept| then kept + [d]
    else if atMost(d, kept[i]) then kept
    else kept[i := d]
  }

  /** The keys in the order of their first occurrence. */
  function FirstKeys<T, K(==)>(ds: seq<T>, keyOf: T -> K): seq<K> {
    if ds == [] then []
    else
      var key, keys := keyOf(ds[|ds| - 1]), FirstKeys(ds[..|ds| - 1], keyOf);
      if key in keys then keys else keys + [key]
  }

  function KeysOf<T, K>(s: seq<T>, keyOf: T -> K): seq<K> {
    seq(|s|, i requires 0 <= i < |s| => keyOf(s[i]))
  }

  ghost predicate TotalPreorder<T(!new)>(atMost: (T, T) -> bool) {
    && (forall a, b :: atMost(a, b) || atMost(b, a))
    && (forall a, b, c :: atMost(a, b) && atMost(b, c) ==> atMost(a, c))
  }

  /** One entry per key, in first-occurrence order. */
  lemma {:induction false} CollapseKeys<T, K>(ds: seq<T>, keyOf: T -> K, atMost: (T, T) -> bool)
    ensures KeysOf(CollapseBy(ds, keyOf, atMost), keyOf) == FirstKeys(ds, keyOf)
    ensures DistinctBy(CollapseBy(ds, keyOf, atMost), keyOf)
  {
    if ds != [] {
      var n := |ds| - 1;
      CollapseKeys(ds[..n], keyOf, atMost);
      var kept := CollapseBy(ds[..n], keyOf, atMost);
      var i := FindKey(kept, keyOf, keyOf(ds[n]));
      assert i < |kept| ==> KeysOf(kept, keyOf)[i] == keyOf(ds[n]);
      assert i == |kept| ==> keyOf(ds[n]) !in KeysOf(kept, keyOf);
    }
  }

  /** Some entry of the same key is at least as preferred. */
  ghost predicate Covered<T, K>(s: seq<T>, keyOf: T -> K, atMost: (T, T) -> bool, d: T) {
    exists i | 0 <= i < |s| :: keyOf(s[i]) == keyOf(d) && atMost(d, s[i])
  }

  lemma AbsorbCovers<T(!new), K>(kept: seq<T>, d: T, keyOf: T -> K, atMost: (T, T) -> bool)
    requires TotalPreorder(atMost)
    ensures Covered(Absorb(kept, d, keyOf, atMost), keyOf, atMost, d)
  {
    var i, now := FindKey(kept, keyOf, keyOf(d)), Absorb(kept, d, keyOf, atMost);
    assert keyOf(now[i]) == keyOf(d) && atMost(d, now[i]);
  }

  lemma AbsorbKeepsCovered<T(!new), K>(kept: seq<T>, d: T, e: T, keyOf: T -> K, atMost: (T, T) -> bool)
    requires TotalPreorder(atMost) && Covered(kept, keyOf, atMost, e)
    ensures Covered(Absorb(kept, d, keyOf, atMost), keyOf, atMost, e)
  {
    var j :| 0 <= j < |kept| && keyOf(kept[j]) == keyOf(e) && atMost(e, kept[j]);
    var i, now := FindKey(kept, keyOf, keyOf(d)), Absorb(kept, d, keyOf, atMost);
    assert now[j] == kept[j] || (j == i && now[j] == d && atMost(kept[j], d));
    assert atMost(e, now[j]);
  }

  lemma {:induction false} CollapseIsSubset<T, K>(ds: seq<T>, keyOf: T -> K, atMost: (T, T) -> bool)
    ensures forall w | w in CollapseBy(ds, keyOf, atMost) :: w in ds
  {
    if ds != [] {
      var n := |ds| - 1;
      CollapseIsSubset(ds[..n], keyOf, atMost);
      var kept := CollapseBy(ds[..n], keyOf, atMost);
      assert forall w | w in Absorb(kept, ds[n], keyOf, atMost) :: w in kept || w == ds[n];
    }
  }

  /** Every input is at most the entry kept for its key. */
  lemma {:induction false} CollapseKeepsMaxima<T(!new), K>(ds: seq<T>, keyOf: T -> K, atMost: (T, T) -> bool, d: T)
    requires TotalPreorder(atMost) && d in ds
    ensures Covered(CollapseBy(ds, keyOf, atMost), keyOf, atMost, d)
  {
    var n := |ds| - 1;
    var kept := CollapseBy(ds[..n], keyOf, atMost);
    if d == ds[n] {
      AbsorbCovers(kept, d, keyOf, atMost);
    } else {
      CollapseKeepsMaxima(ds[..n], keyOf, atMost, d);
      AbsorbKeepsCovered(kept, ds[n], d, keyOf, atMost);
    }
  }

  /** A list with one entry per key is left alone; so collapsing twice is collapsing once. */
  lemma {:induction false} CollapseDistinct<T, K>(ds: seq<T>, keyOf: T -> K, atMost: (T, T) -> bool)
    requires DistinctBy(ds, keyOf)
    ensures CollapseBy(ds, keyOf, atMost) == ds
  {
    if ds != [] { CollapseDistinct(ds[..|ds| - 1], keyOf, atMost); }
  }

  /** No two entries of a key are equally preferred. */
  ghost predicate Separated<T, K>(ds: seq<T>, keyOf: T -> K, atMost: (T, T) -> bool) {
    forall i, j | 0 <= i < j < |ds| && keyOf(ds[i]) == keyOf(ds[j]) :: !(atMost(ds[i], ds[j]) && atMost(ds[j], ds[i]))
  }

  /** Then the entries kept are exactly the maxima of their keys, whatever the order of the input. */
  lemma CollapseIsMaxima<T(!new), K>(ds: seq<T>, keyOf: T -> K, atMost: (T, T) -> bool, d: T)
    requires TotalPreorder(atMost) && Separated(ds, keyOf, atMost)
    ensures d in CollapseBy(ds, keyOf, atMost) <==>
              d in ds && forall e | e in ds && keyOf(e) == keyOf(d) :: atMost(e, d)
  {
    var kept := CollapseBy(ds, keyOf, atMost);
    CollapseIsSubset(ds, keyOf, atMost);
    CollapseKeys(ds, keyOf, atMost);
    if d in kept {
      var k :| 0 <= k < |kept| && kept[k] == d;
      forall e | e in ds && keyOf(e) == keyOf(d)
        ensures atMost(e, d)
      {
        CollapseKeepsMaxima(ds, keyOf, atMost, e);
        var i :| 0 <= i < |kept| && keyOf(kept[i]) == keyOf(e) && atMost(e, kept[i]);
        assert i == k;
      }
    }
    if d in ds && (forall e | e in ds && keyOf(e) == keyOf(d) :: atMost(e, d)) {
      CollapseKeepsMaxima(ds, keyOf, atMost, d);
      var w :| w in kept && keyOf(w) == keyOf(d) && atMost(d, w);
      assert w in ds && atMost(w, d);
      var i :| 0 <= i < |ds| && ds[i] == d;
      var j :| 0 <= j < |ds| && ds[j] == w;
      assert i == j;
    }
  }

  // ----- collapsing decisions -----

  datatype Key = Key(packageName: string, installedNevra: string)

  /** newDecisionKey; the installed package id is never set. */
  function KeyOf(d: Decision): Key { Key(d.packageName, d.installedNevra) }

  function AtMost(apt: bool): (Decision, Decision) -> bool {
    (a: Decision, b: Decision) => !Prefers(apt, a, b)
  }

  function Collapse(apt: bool, ds: seq<Decision>): seq<Decision> { CollapseBy(ds, KeyOf, AtMost(apt)) }

  /** collapseSupersededDecisions */
  method CollapseSuperseded(apt: bool, ds: seq<Decision>) returns (collapsed: seq<Decision>)
    ensures collapsed == Collapse(apt, ds)
  {
    if |ds| <= 1 {
      if |ds| == 1 { CollapseDistinct(ds, KeyOf, AtMost(apt)); }
      return ds;
    }
    var selected: map<Key, Decision> := map[];
    var order: seq<Key> := [];
    ghost var kept := [];
    for i := 0 to |ds|
      invariant kept == CollapseBy(ds[..i], KeyOf, AtMost(apt))
      invariant DistinctBy(kept, KeyOf)
      invariant Tracks(selected, order, kept)
    {
      assert ds[..i + 1][..i] == ds[..i];
      CollapseKeys(ds[..i + 1], KeyOf, AtMost(apt));
      selected, order := Select(apt, selected, order, ds[i], kept);
      kept := Absorb(kept, ds[i], KeyOf, AtMost(apt));
    }
    assert ds[..|ds|] == ds;
    collapsed := [];
    for i := 0 to |order|
      invariant collapsed == kept[..i]
    {
      collapsed := collapsed + [selected[order[i]]];
    }
  }

  /** The map and the order of keys stand for a list with one decision per key. */
  ghost predicate Tracks(selected: map<Key, Decision>, order: seq<Key>, kept: seq<Decision>) {
    && |order| == |kept|
    && (forall i | 0 <= i < |kept| :: order[i] == KeyOf(kept[i]) && order[i] in selected && selected[order[i]] == kept[i])
    && (forall key | key in selected :: key in order)
  }

  lemma TracksNew(selected: map<Key, Decision>, order: seq<Key>, kept: seq<Decision>, d: Decision, atMost: (Decision, Decision) -> bool)
    requires Tracks(selected, order, kept) && KeyOf(d) !in selected
    ensures Tracks(selected[KeyOf(d) := d], order + [KeyOf(d)], Absorb(kept, d, KeyOf, atMost))
  {
    var i := FindKey(kept, KeyOf, KeyOf(d));
    assert i == |kept|;
  }

  lemma TracksOld(selected: map<Key, Decision>, order: seq<Key>, kept: seq<Decision>, d: Decision, atMost: (Decision, Decision) -> bool)
    requires DistinctBy(kept, KeyOf) && Tracks(selected, order, kept) && KeyOf(d) in selected
    ensures var now := Absorb(kept, d, KeyOf, atMost);
            Tracks(if atMost(d, selected[KeyOf(d)]) then selected else selected[KeyOf(d) := d], order, now)
  {
    var i := FindKey(kept, KeyOf, KeyOf(d));
    assert KeyOf(d) in order;
    var k :| 0 <= k < |order| && order[k] == KeyOf(d);
    assert i < |kept| && order[i] == KeyOf(kept[i]) && selected[order[i]] == kept[i];
    TracksReplaced(selected, order, kept, d, i);
  }

  lemma TracksReplaced(selected: map<Key, Decision>, order: seq<Key>, kept: seq<Decision>, d: Decision, i: nat)
    requires DistinctBy(kept, KeyOf) && Tracks(selected, order, kept) && i < |kept| && KeyOf(kept[i]) == KeyOf(d)
    ensures Tracks(selected[KeyOf(d) := d], order, kept[i := d])
  {
    forall k | 0 <= k < |kept| && k != i ensures order[k] != KeyOf(d) {
      assert KeyOf(kept[k]) != KeyOf(kept[i]);
    }
  }

  /** One step of the first loop. */
  method Select(apt: bool, selected0: map<Key, Decision>, order0: seq<Key>, candidate: Decision, ghost kept: seq<Decision>)
    returns (selected: map<Key, Decision>, order: seq<Key>)
    requires DistinctBy(kept, KeyOf) && Tracks(selected0, order0, kept)
    ensures Tracks(selected, order, Absorb(kept, candidate, KeyOf, AtMost(apt)))
  {
    var key := KeyOf(candidate);
    selected, order := selected0, order0;
    if key !in selected {
      TracksNew(selected, order, kept, candidate, AtMost(apt));
      selected, order := selected[key := candidate], order + [key];
    } else {
      TracksOld(selected, order, kept, candidate, AtMost(apt));
      if Prefers(apt, candidate, selected[key]) {
        selected := selected[key := candidate];
      }
    }
  }

  lemma PreferenceIsTotalPreorder(apt: bool)
    ensures TotalPreorder(AtMost(apt))
  {
    forall a: Decision, b: Decision, c: Decision
      ensures AtMost(apt)(a, b) || AtMost(apt)(b, a)
      ensures AtMost(apt)(a, b) && AtMost(apt)(b, c) ==> AtMost(apt)(a, c)
    {
      PreferenceLaws(apt, RankOf(apt, a), RankOf(apt, b), RankOf(apt, c));
    }
  }

  /** No key has two decisions of one advisory. */
  ghost predicate OnePerAdvisory(ds: seq<Decision>) {
    forall i, j | 0 <= i < j < |ds| && KeyOf(ds[i]) == KeyOf(ds[j]) :: ds[i].advisoryId != ds[j].advisoryId
  }

  /** Collapsing is idempotent and leaves one decision per key, in first-occurrence order. */
  lemma CollapseTwice(apt: bool, ds: seq<Decision>)
    ensures Collapse(apt, Collapse(apt, ds)) == Collapse(apt, ds)
    ensures KeysOf(Collapse(apt, ds), KeyOf) == FirstKeys(ds, KeyOf)
    ensures DistinctBy(Collapse(apt, ds), KeyOf)
  {
    CollapseKeys(ds, KeyOf, AtMost(apt));
    CollapseDistinct(Collapse(apt, ds), KeyOf, AtMost(apt));
  }

  /** A kept decision is one that no other decision of its package instance is preferred to. */
  lemma CollapseKeepsTheMostPreferred(apt: bool, ds: seq<Decision>, d: Decision)
    requires OnePerAdvisory(ds)
    ensures d in Collapse(apt, ds) <==>
              d in ds && forall e | e in ds && KeyOf(e) == KeyOf(d) :: !Prefers(apt, e, d)
  {
    PreferenceIsTotalPreorder(apt);
    forall i, j | 0 <= i < j < |ds| && KeyOf(ds[i]) == KeyOf(ds[j])
      ensures !(AtMost(apt)(ds[i], ds[j]) && AtMost(apt)(ds[j], ds[i]))
    {
      PreferenceLaws(apt, RankOf(apt, ds[i]), RankOf(apt, ds[j]), RankOf(apt, ds[i]));
    }
    CollapseIsMaxima(ds, KeyOf, AtMost(apt), d);
  }

  /** The set of kept decisions does not depend on the order in which they were made. */
  lemma CollapseIgnoresOrder(apt: bool, ds: seq<Decision>, es: seq<Decision>, d: Decision)
    requires OnePerAdvisory(ds) && OnePerAdvisory(es) && (forall x :: x in ds <==> x in es)
    ensures d in Collapse(apt, ds) <==> d in Collapse(apt, es)
  {
    CollapseKeepsTheMostPreferred(apt, ds, d);
    CollapseKeepsTheMostPreferred(apt, es, d);
  }

  /**
   * What the collapse keeps for each decision: one on the same package instance with a more urgent action, or the same and
   * a higher fix, or the same and a higher severity, or the same and an advisory id that is not lower.
   */
  lemma CollapseKeepsTheBest(apt: bool, ds: seq<Decision>, d: Decision) returns (w: Decision)
    requires d in ds
    ensures w in Collapse(apt, ds) && KeyOf(w) == KeyOf(d)
    ensures AtLeast(apt, Rank(ActionPriority(w.action), ParseFixedNevra(apt, w.fixedNevra.UnwrapOr("")), SeverityPriority(w.severity), w.advisoryId),
                    Rank(ActionPriority(d.action), ParseFixedNevra(apt, d.fixedNevra.UnwrapOr("")), SeverityPriority(d.severity), d.advisoryId))
  {
    var kept := Collapse(apt, ds);
    PreferenceIsTotalPreorder(apt);
    CollapseKeepsMaxima(ds, KeyOf, AtMost(apt), d);
    var i :| 0 <= i < |kept| && KeyOf(kept[i]) == KeyOf(d) && AtMost(apt)(d, kept[i]);
    w := kept[i];
    PreferenceMeaning(apt, RankOf(apt, w), RankOf(apt, d));
  }

  lemma CollapseOfOne<T, K>(d: T, keyOf: T -> K, atMost: (T, T) -> bool)
    ensures CollapseBy([d], keyOf, atMost) == [d]
  {
    assert [d][..0] == [] && CollapseBy<T, K>([], keyOf, atMost) == [];
  }

  lemma CollapseOfTwo<T, K>(d: T, e: T, keyOf: T -> K, atMost: (T, T) -> bool)
    requires keyOf(d) == keyOf(e) && atMost(d, e) && !atMost(e, d)
    ensures CollapseBy([d, e], keyOf, atMost) == [e] && CollapseBy([e, d], keyOf, atMost) == [e]
  {
    assert [d, e][..1] == [d] && [e, d][..1] == [e];
    CollapseOfOne(d, keyOf, atMost);
    CollapseOfOne(e, keyOf, atMost);
    assert [d][0 := e] == [e];
  }

  /** Of two decisions of equal action on one package instance, the one with the higher fix is kept, in either order. */
  lemma HigherFixWins(apt: bool, d: Decision, e: Decision, low: Evr, high: Evr)
    requires KeyOf(d) == KeyOf(e) && d.action == e.action && EvrBefore(apt, low, high)
    requires ParseFixedNevra(apt, d.fixedNevra.UnwrapOr("")) == Some(low)
    requires ParseFixedNevra(apt, e.fixedNevra.UnwrapOr("")) == Some(high)
    ensures Collapse(apt, [d, e]) == [e] && Collapse(apt, [e, d]) == [e]
  {
    FixesCompared(apt, high, low);
    PreferenceMeaning(apt, RankOf(apt, e), RankOf(apt, d));
    PreferenceMeaning(apt, RankOf(apt, d), RankOf(apt, e));
    FixesCompared(apt, low, high);
    CollapseOfTwo(d, e, KeyOf, AtMost(apt));
  }
}
