/**
 * Why the outcome needs settled packages: one host, one advisory and two orders of one Go map that end in different
 * decisions. Two entries without a NEVRA share their instance key, which leaves out the epoch, and have different sources.
 */
module MapOrder {
  import opened GoStrings
  import opened Evr
  import opened Inventory
  import opened Kernel
  import opened Matching
  import opened Decisions
  import opened Judgement
  import opened Matcher

  /** An advisory that has nothing but one fix, for a resolved stream to which it is linked, perhaps among others. */
  ghost predicate HasOnlyFix(host: Host, cat: Catalogue, a: Advisory, fix: Fix) {
    && !host.Apt() && Lookup(cat.rules, a.id) == [] && Lookup(cat.fixes, a.id) == [fix]
    && fix.streamId in Lookup(cat.links, a.id) && fix.streamId in host.streams && fix.arch == None
  }

  lemma OnlyFixIsFound(keys: seq<string>, fix: Fix, keep: Fix -> bool, fixKeys: Fix -> seq<string>, idOf: Fix -> string)
    requires keep(fix) && SharesKey(keys, fixKeys(fix))
    ensures forall f :: f in FirstById(Gather(keys, [fix], keep, fixKeys), idOf) <==> f == fix
  {
    LookupIsNestedLoop(keys, [fix], keep, fixKeys, idOf);
    assert fix in [fix];
  }

  lemma OnlyFixIsRelevant(host: Host, fix: Fix, p: Package, fixes: seq<Fix>)
    requires fix.arch == None && forall f :: f in fixes <==> f == fix
    ensures RelevantFixes(host, p, fixes) != [] && BestFix(host.Apt(), RelevantFixes(host, p, fixes)) == fix
  {
    var relevant := RelevantFixes(host, p, fixes);
    assert FixFilter(host, p)(fix);
    assert fix in relevant;
    var i := BestFixIsFirstUpperBound(host.Apt(), relevant);
    assert relevant[i] in relevant;
  }

  lemma NoRules(keys: seq<string>, keep: Rule -> bool, ruleKeys: Rule -> seq<string>, idOf: Rule -> string)
    ensures FirstById(Gather(keys, [], keep, ruleKeys), idOf) == []
  {
    LookupIsNestedLoop(keys, [], keep, ruleKeys, idOf);
  }

  lemma WithoutRules(host: Host, a: Advisory, severity: string, p: Package, fixes: seq<Fix>)
    ensures JudgeWith(host, a, severity, p, [], fixes) == ConcludeFixOnly(host, a, severity, p, RelevantFixes(host, p, fixes))
  {
  }

  lemma OnlyFixIsHit(keys: seq<string>, fix: Fix, streams: set<string>)
    requires fix.streamId in streams && SharesKey(keys, FixKeys(fix))
    ensures HasRuleOrFix(keys, [], [fix], streams)
  {
    assert fix in [fix];
  }

  lemma OnlyFixIsJudged(host: Host, cat: Catalogue, a: Advisory, p: Package, fix: Fix)
    requires HasOnlyFix(host, cat, a, fix) && !IsKernel(false, p.name) && SharesKey(PackageKeys(p), FixKeys(fix))
    ensures Judge(host, cat, a, p) ==
            JudgeWith(host, a, EffectiveSeverity(a, Lookup(cat.references, a.id)), p, [], FixesFor(host, [fix], p))
  {
    OnlyFixIsHit(PackageKeys(p), fix, host.streams);
    NoRules(PackageKeys(p), InStreams(host.streams), RuleKeys, RuleId);
    assert RulesFor(host, [], p) == [];
  }

  /** Its verdict is an update below the fix and resolved from there on. */
  lemma FixOnlyVerdict(host: Host, cat: Catalogue, a: Advisory, p: Package, fix: Fix)
    requires HasOnlyFix(host, cat, a, fix) && !IsKernel(false, p.name) && SharesKey(PackageKeys(p), FixKeys(fix))
    ensures Judge(host, cat, a, p).Emit?
    ensures Judge(host, cat, a, p).decision.action == if Compare(false, p.evr, fix.evr) < 0 then UpdatePackage else NoAction
  {
    var fixes := FixesFor(host, [fix], p);
    OnlyFixIsJudged(host, cat, a, p, fix);
    OnlyFixIsFound(PackageKeys(p), fix, FixInStreams(host.streams), FixKeys, FixId);
    OnlyFixIsRelevant(host, fix, p, fixes);
    WithoutRules(host, a, EffectiveSeverity(a, Lookup(cat.references, a.id)), p, fixes);
  }

  /** Whether the verdict asks for an update, or for nothing. */
  predicate Asks(v: Verdict, update: bool) { v.Emit? && v.decision.action == if update then UpdatePackage else NoAction }

  lemma EpochDecides(host: Host, cat: Catalogue, a: Advisory, p: Package, fix: Fix, key: string)
    requires HasOnlyFix(host, cat, a, fix) && !IsKernel(false, p.name) && key in PackageKeys(p) && key in FixKeys(fix)
    requires p.evr.epoch != fix.evr.epoch
    ensures Asks(Judge(host, cat, a, p), p.evr.epoch < fix.evr.epoch)
  {
    FixOnlyVerdict(host, cat, a, p, fix);
  }

  /** A name that no kernel rule and no derived source is about. */
  predicate IsPlain(name: string) { name != "" && Solid(name) && name[0] != 'k' && name[0] != 'l' && name[0] != 'L' }

  lemma PlainHasNoPrefix(name: string, prefixes: seq<string>)
    requires name != "" && forall i | 0 <= i < |prefixes| :: prefixes[i] != "" && prefixes[i][0] != name[0]
    ensures CutFirstPrefix(name, prefixes) == None
  {
  }

  lemma PlainHasNoSource(name: string)
    requires IsPlain(name)
    ensures DerivedSource(name) == None
  {
    var trimmed := ToLower(TrimSpace(name));
    assert trimmed[0] != 'l';
    PlainHasNoPrefix(trimmed, DERIVING_PREFIXES);
  }

  lemma TwoKeys(name: string, source: string)
    requires name != "" && Solid(name) && source != "" && Solid(source) && source != name
    ensures MatchKeys(name, source) == [name, source]
  {
  }

  lemma PlainKeys(name: string, evr: Evr, source: string)
    requires IsPlain(name) && source != "" && Solid(source) && source != name
    ensures PackageKeys(Package(name, evr, "", "", source)) == [name, source] && !IsKernel(false, name)
  {
    PlainHasNoSource(name);
    TwoKeys(name, source);
  }

  // ----- the two orders -----

  lemma OneOfItsId<T(!new)>(s: seq<T>, idOf: T -> string, c: T)
    requires c in FirstById(s, idOf) && forall x | x in s :: idOf(x) == idOf(c)
    ensures FirstById(s, idOf) == [c]
  {
    FirstByIdDistinct(s, idOf);
    var first := FirstById(s, idOf);
    assert forall i | 0 <= i < |first| :: first[i] in first;
  }

  lemma PiledAreItems<T(!new)>(byName: map<string, seq<T>>, items: seq<T>, keep: T -> bool, keysOf: T -> seq<string>, hot: set<string>,
                               order: seq<string>, x: T)
    requires Indexes(byName, items, keep, keysOf) && x in Pile(byName, hot, order)
    ensures x in items
  {
    PileMembers(byName, hot, order, x);
    var key :| key in order && key in hot && x in Lookup(byName, key);
    assert Lookup(byName, key) == Sharing(items, keep, keysOf, key);
  }

  /** Two items of one id, the second with a key of its own: each is the only candidate for some order. */
  lemma TwinsByOrder<T(!new)>(byName: map<string, seq<T>>, p: T, q: T, keep: T -> bool, keysOf: T -> seq<string>, idOf: T -> string,
                              hot: set<string>, key: string, own: string) returns (order: seq<string>, other: seq<string>)
    requires Indexes(byName, [p, q], keep, keysOf) && (forall y :: keep(y)) && p != q && idOf(p) == idOf(q)
    requires key in keysOf(p) && key in hot && own in keysOf(q) && own !in keysOf(p) && own in hot
    ensures IsListing(order, byName.Keys) && FirstById(Pile(byName, hot, order), idOf) == [p]
    ensures IsListing(other, byName.Keys) && FirstById(Pile(byName, hot, other), idOf) == [q]
  {
    var items := [p, q];
    assert items[..1] == [p] && p in items && q in items && [p][..0] == [];
    assert Leaders([], keysOf, idOf) == [] && Leaders([p], keysOf, idOf) == [p];
    assert p in Leaders(items, keysOf, idOf);
    order := LeaderCanComeFirst(byName, items, keep, keysOf, idOf, p, key, hot);
    other := OtherCanComeFirst(byName, items, keep, keysOf, idOf, q, p, own, hot);
    forall x, o | x in Pile(byName, hot, o) ensures x == p || x == q {
      PiledAreItems(byName, items, keep, keysOf, hot, o, x);
    }
    ItemIsPiled(byName, items, keep, keysOf, hot, other, q, own);
    var d := FirstOf(Pile(byName, hot, other), q, idOf);
    OneOfItsId(Pile(byName, hot, order), idOf, p);
    OneOfItsId(Pile(byName, hot, other), idOf, q);
  }

  /** Two entries of one name, version and release without a NEVRA, a fix between their epochs and a host that has both. */
  function Older(n: string, s: string, v: string, r: string): Package { Package(n, Evr(0, v, r), "", "", s) }

  function Newer(n: string, t: string, v: string, r: string): Package { Package(n, Evr(2, v, r), "", "", t) }

  function Between(n: string, t: string, v: string, r: string, stream: string): Fix {
    Fix("", stream, n, Evr(1, v, r), None, "", Some(t), "")
  }

  predicate AreNames(n: string, s: string, t: string) {
    IsPlain(n) && s != "" && Solid(s) && t != "" && Solid(t) && n != s && s != t && n != t
  }

  lemma TwinKeys(n: string, s: string, t: string, v: string, r: string, stream: string)
    requires AreNames(n, s, t)
    ensures PackageKeys(Older(n, s, v, r)) == [n, s] && PackageKeys(Newer(n, t, v, r)) == [n, t] && !IsKernel(false, n)
    ensures FixKeys(Between(n, t, v, r, stream)) == [n, t]
    ensures InstanceKey(Older(n, s, v, r)) == InstanceKey(Newer(n, t, v, r))
  {
    PlainKeys(n, Evr(0, v, r), s);
    PlainKeys(n, Evr(2, v, r), t);
  }

  /** What the two entries and the fix have in common, and what only the newer one has. */
  lemma TwinKeysShared(n: string, s: string, t: string, v: string, r: string, fix: Fix)
    requires AreNames(n, s, t) && fix == Between(n, t, v, r, fix.streamId)
    ensures var p, q := Older(n, s, v, r), Newer(n, t, v, r);
            && n in PackageKeys(p) && t in PackageKeys(q) && t !in PackageKeys(p) && n in FixKeys(fix) && t in FixKeys(fix)
            && p != q && InstanceKey(p) == InstanceKey(q)
  {
    TwinKeys(n, s, t, v, r, fix.streamId);
  }

  lemma FixKeyIsHot(host: Host, cat: Catalogue, a: Advisory, fix: Fix, rules: map<string, seq<Rule>>, fixes: map<string, seq<Fix>>, key: string)
    requires HasOnlyFix(host, cat, a, fix) && AreIndexes(host, cat, a, rules, fixes) && key in FixKeys(fix)
    ensures key in HotKeys(rules, fixes)
  {
    assert fix in [fix];
    IndexHit(fixes, [fix], FixInStreams(host.streams), FixKeys, key);
  }

  function TwinHost(n: string, s: string, t: string, v: string, r: string, stream: string, family: string): Host {
    Host(family, "", [Older(n, s, v, r), Newer(n, t, v, r)], {stream})
  }

  function TwinCatalogue(n: string, t: string, v: string, r: string, stream: string, a: Advisory): Catalogue {
    Catalogue(map[a.id := [stream]], map[], map[a.id := [Between(n, t, v, r, stream)]], map[])
  }

  lemma TwinFix(n: string, s: string, t: string, v: string, r: string, stream: string, family: string, a: Advisory)
    requires family != "apt"
    ensures HasOnlyFix(TwinHost(n, s, t, v, r, stream, family), TwinCatalogue(n, t, v, r, stream, a), a, Between(n, t, v, r, stream))
  {
    assert stream in [stream];
  }

  /** The fix updates the older entry and is in the newer one. */
  lemma TwinVerdicts(n: string, s: string, t: string, v: string, r: string, stream: string, family: string, a: Advisory)
    requires AreNames(n, s, t) && family != "apt"
    ensures var host, cat := TwinHost(n, s, t, v, r, stream, family), TwinCatalogue(n, t, v, r, stream, a);
            Asks(Judge(host, cat, a, Older(n, s, v, r)), true) && Asks(Judge(host, cat, a, Newer(n, t, v, r)), false)
  {
    var host, cat := TwinHost(n, s, t, v, r, stream, family), TwinCatalogue(n, t, v, r, stream, a);
    TwinFix(n, s, t, v, r, stream, family, a);
    TwinKeys(n, s, t, v, r, stream);
    EpochDecides(host, cat, a, Older(n, s, v, r), Between(n, t, v, r, stream), n);
    EpochDecides(host, cat, a, Newer(n, t, v, r), Between(n, t, v, r, stream), n);
  }

  lemma TwinOrders(n: string, s: string, t: string, v: string, r: string, host: Host, cat: Catalogue, a: Advisory, fix: Fix,
                   byName: map<string, seq<Package>>, rules: map<string, seq<Rule>>, fixes: map<string, seq<Fix>>)
    returns (order: seq<string>, other: seq<string>)
    requires AreNames(n, s, t) && fix == Between(n, t, v, r, fix.streamId) && HasOnlyFix(host, cat, a, fix)
    requires Indexes(byName, [Older(n, s, v, r), Newer(n, t, v, r)], AnyPackage, PackageKeys) && AreIndexes(host, cat, a, rules, fixes)
    ensures IsListing(order, byName.Keys) && FirstById(Pile(byName, HotKeys(rules, fixes), order), InstanceKey) == [Older(n, s, v, r)]
    ensures IsListing(other, byName.Keys) && FirstById(Pile(byName, HotKeys(rules, fixes), other), InstanceKey) == [Newer(n, t, v, r)]
  {
    TwinKeysShared(n, s, t, v, r, fix);
    FixKeyIsHot(host, cat, a, fix, rules, fixes, n);
    FixKeyIsHot(host, cat, a, fix, rules, fixes, t);
    order, other := TwinsByOrder(byName, Older(n, s, v, r), Newer(n, t, v, r), AnyPackage, PackageKeys, InstanceKey,
                                 HotKeys(rules, fixes), n, t);
  }

  /**
   * The order of the map decides: on any indexes of this host and catalogue, one order of the visit leaves the older entry
   * as the only candidate and another the newer one, although the verdicts on the two differ.
   */
  lemma MapOrderDecides(n: string, s: string, t: string, v: string, r: string, stream: string, family: string, a: Advisory,
                        byName: map<string, seq<Package>>, rules: map<string, seq<Rule>>, fixes: map<string, seq<Fix>>)
    returns (order: seq<string>, other: seq<string>)
    requires AreNames(n, s, t) && family != "apt"
    requires Indexes(byName, TwinHost(n, s, t, v, r, stream, family).packages, AnyPackage, PackageKeys)
    requires AreIndexes(TwinHost(n, s, t, v, r, stream, family), TwinCatalogue(n, t, v, r, stream, a), a, rules, fixes)
    ensures IsListing(order, byName.Keys) && FirstById(Pile(byName, HotKeys(rules, fixes), order), InstanceKey) == [Older(n, s, v, r)]
    ensures IsListing(other, byName.Keys) && FirstById(Pile(byName, HotKeys(rules, fixes), other), InstanceKey) == [Newer(n, t, v, r)]
    ensures var host, cat := TwinHost(n, s, t, v, r, stream, family), TwinCatalogue(n, t, v, r, stream, a);
            Asks(Judge(host, cat, a, Older(n, s, v, r)), true) && Asks(Judge(host, cat, a, Newer(n, t, v, r)), false)
  {
    TwinFix(n, s, t, v, r, stream, family, a);
    order, other := TwinOrders(n, s, t, v, r, TwinHost(n, s, t, v, r, stream, family), TwinCatalogue(n, t, v, r, stream, a), a,
                               Between(n, t, v, r, stream), byName, rules, fixes);
    TwinVerdicts(n, s, t, v, r, stream, family, a);
  }
}
