/** The join of installed packages with the rules and fixes of one advisory, through indexes by match key. */
module Matching {
  import opened GoStrings
  import opened Inventory
  import opened Kernel

  // ----- match keys -----

  /** keysForPackageMatch: the trimmed name and source, without blanks and repetitions. */
  function MatchKeys(name: string, source: string): seq<string> {
    var n, s := TrimSpace(name), TrimSpace(source);
    (if n == "" then [] else [n]) + (if s == "" || s == n then [] else [s])
  }

  /** The source package behind a kernel flavour. */
  function FlavourSource(flavour: string): Option<string> {
    if flavour in ["generic", "amd64", "arm64", "armhf", "i386", "powerpc", "ppc64el", "s390x",
                   "cloud-amd64", "cloud-arm64", "rt-amd64", "rt-arm64"] then Some("linux")
    else if flavour in ["lowlatency", "aws", "azure", "gcp", "gke", "kvm", "ibm", "oracle", "nvidia", "raspi"] then
      Some("linux-" + flavour)
    else None
  }

  /** The keys of a rule or fix are its package name and its source, trimmed and not blank. */
  lemma RuleAndFixKeysAre(r: Rule, f: Fix, key: string)
    ensures key in RuleKeys(r) <==> key != "" && (key == TrimSpace(r.packageName) || key == TrimSpace(r.sourceRpm.UnwrapOr("")))
    ensures key in FixKeys(f) <==> key != "" && (key == TrimSpace(f.packageName) || key == TrimSpace(f.sourceRpm.UnwrapOr("")))
  {
  }

  const DERIVING_PREFIXES: seq<string> :=
    ["linux-image-", "linux-headers-", "linux-modules-", "linux-modules-extra-", "linux-tools-"]

  /** derivedAPTSourceKeysFromBinary */
  function DerivedSource(name: string): Option<string> {
    var trimmed := ToLower(TrimSpace(name));
    if trimmed == "linux-libc-dev" || trimmed == "linux-tools-common" then Some("linux")
    else
      var rest := CutFirstPrefix(trimmed, DERIVING_PREFIXES).UnwrapOr("");
      var dash := LastIndex(rest, '-');
      if rest == "" || dash == 0 || dash == |rest| - 1 then None
      else FlavourSource(rest[dash + 1..])
  }

  /** packageMatchKeys */
  function PackageKeys(p: Package): seq<string> {
    var keys := MatchKeys(p.name, p.sourceRpm);
    var derived := DerivedSource(p.name);
    if derived.None? || derived.value in keys then keys else keys + [derived.value]
  }

  function RuleKeys(rule: Rule): seq<string> { MatchKeys(rule.packageName, rule.sourceRpm.UnwrapOr("")) }

  function FixKeys(fix: Fix): seq<string> { MatchKeys(fix.packageName, fix.sourceRpm.UnwrapOr("")) }

  ghost predicate NoRepeats(keys: seq<string>) {
    forall i, j | 0 <= i < j < |keys| :: keys[i] != keys[j]
  }

  lemma MatchKeysDistinct(name: string, source: string)
    ensures NoRepeats(MatchKeys(name, source))
  {
  }

  lemma PackageKeysDistinct(p: Package)
    ensures NoRepeats(PackageKeys(p))
  {
    MatchKeysDistinct(p.name, p.sourceRpm);
  }

  /** The keys of a package are its name and its source, trimmed and not blank, and the source derived from its name. */
  lemma PackageKeysAre(p: Package, key: string)
    ensures key in PackageKeys(p) <==>
              || (key != "" && (key == TrimSpace(p.name) || key == TrimSpace(p.sourceRpm)))
              || DerivedSource(p.name) == Some(key)
    ensures TrimSpace(p.name) != "" ==> PackageKeys(p) != [] && PackageKeys(p)[0] == TrimSpace(p.name)
  {
  }

  lemma {:induction false} CutSome(name: string, prefixes: seq<string>, i: nat) returns (j: nat)
    requires i < |prefixes| && HasPrefix(name, prefixes[i])
    ensures j <= i && HasPrefix(name, prefixes[j]) && CutFirstPrefix(name, prefixes) == Some(name[|prefixes[j]|..])
  {
    if HasPrefix(name, prefixes[0]) { return 0; }
    assert prefixes[1..][i - 1] == prefixes[i];
    var k := CutSome(name, prefixes[1..], i - 1);
    j := k + 1;
  }

  /** Of two of these prefixes that fit one name, the earlier is not longer. */
  lemma EarlierIsNotLonger(name: string, i: nat, j: nat)
    requires j <= i < |DERIVING_PREFIXES| && HasPrefix(name, DERIVING_PREFIXES[i]) && HasPrefix(name, DERIVING_PREFIXES[j])
    ensures |DERIVING_PREFIXES[j]| <= |DERIVING_PREFIXES[i]|
  {
    assert name[6] == DERIVING_PREFIXES[i][6] == DERIVING_PREFIXES[j][6];
  }

  lemma DerivedAfterDash(rest: string, x: string, flavour: string)
    requires rest == x + "-" + flavour && x != "" && flavour != "" && '-' !in flavour
    ensures var dash := LastIndex(rest, '-'); 0 < dash < |rest| - 1 && rest[dash + 1..] == flavour
  {
    assert rest == x + ['-'] + flavour;
    LastIndexBetween(x, '-', flavour);
  }

  lemma TailOfConcat(prefix: string, rest: string, n: nat)
    requires n <= |prefix|
    ensures (prefix + rest)[n..] == prefix[n..] + rest
  {
  }

  lemma DashRegroup(a: string, x: string, flavour: string)
    ensures a + (x + "-" + flavour) == (a + x) + "-" + flavour
  {
  }

  lemma RestOfBinary(name: string, i: nat, x: string, flavour: string) returns (x': string)
    requires i < |DERIVING_PREFIXES| && name == DERIVING_PREFIXES[i] + (x + "-" + flavour)
    ensures CutFirstPrefix(name, DERIVING_PREFIXES) == Some(x' + "-" + flavour) && |x'| >= |x|
  {
    var j := CutSome(name, DERIVING_PREFIXES, i);
    EarlierIsNotLonger(name, i, j);
    var front := DERIVING_PREFIXES[i][|DERIVING_PREFIXES[j]|..];
    x' := front + x;
    TailOfConcat(DERIVING_PREFIXES[i], x + "-" + flavour, |DERIVING_PREFIXES[j]|);
    DashRegroup(front, x, flavour);
  }

  lemma FlavourDecides(name: string, x: string, flavour: string)
    requires Solid(name) && ToLower(name) == name && name != "linux-libc-dev" && name != "linux-tools-common"
    requires CutFirstPrefix(name, DERIVING_PREFIXES) == Some(x + "-" + flavour) && x != "" && flavour != "" && '-' !in flavour
    ensures DerivedSource(name) == FlavourSource(flavour)
  {
    DerivedAfterDash(x + "-" + flavour, x, flavour);
  }

  /** Two binaries without a flavour belong to the stock source. */
  lemma SpecialBinarySource(name: string)
    requires Solid(name) && ToLower(name) == name && (name == "linux-libc-dev" || name == "linux-tools-common")
    ensures DerivedSource(name) == Some("linux")
  {
  }

  lemma FlavourTable(flavour: string)
    requires '-' !in flavour
    ensures FlavourSource(flavour) ==
            if flavour in ["generic", "amd64", "arm64", "armhf", "i386", "powerpc", "ppc64el", "s390x"] then Some("linux")
            else if flavour in ["lowlatency", "aws", "azure", "gcp", "gke", "kvm", "ibm", "oracle", "nvidia", "raspi"] then
              Some("linux-" + flavour)
            else None
  {
    FlavourHasNoDash(flavour);
  }

  /**
   * A kernel binary of the five kinds, in lower case, derives its source from the flavour after its last dash: `linux` for
   * the stock flavours, `linux-` and the flavour for those with a source of their own, and none otherwise.
   */
  lemma KernelBinarySource(name: string, i: nat, x: string, flavour: string)
    requires i < |DERIVING_PREFIXES| && name == DERIVING_PREFIXES[i] + (x + "-" + flavour)
    requires x != "" && flavour != "" && '-' !in flavour && Solid(name) && ToLower(name) == name
    requires name != "linux-libc-dev" && name != "linux-tools-common"
    ensures DerivedSource(name) ==
            if flavour in ["generic", "amd64", "arm64", "armhf", "i386", "powerpc", "ppc64el", "s390x"] then Some("linux")
            else if flavour in ["lowlatency", "aws", "azure", "gcp", "gke", "kvm", "ibm", "oracle", "nvidia", "raspi"] then
              Some("linux-" + flavour)
            else None
  {
    var x' := RestOfBinary(name, i, x, flavour);
    FlavourDecides(name, x', flavour);
    FlavourTable(flavour);
  }

  lemma FlavourHasNoDash(flavour: string)
    requires '-' !in flavour
    ensures flavour !in ["cloud-amd64", "cloud-arm64", "rt-amd64", "rt-arm64"]
  {
    assert "cloud-amd64"[5] == '-' && "cloud-arm64"[5] == '-' && "rt-amd64"[2] == '-' && "rt-arm64"[2] == '-';
  }

  /** packageInstanceKey */
  function InstanceKey(p: Package): string {
    var nevra := TrimSpace(p.nevra);
    if nevra != "" then nevra
    else TrimSpace(p.name) + "|" + TrimSpace(p.evr.version) + "|" + TrimSpace(p.evr.release) + "|" + TrimSpace(p.arch)
  }

  lemma BarSplits(a: string, s: string, b: string, t: string)
    requires '|' !in a && '|' !in b && a + "|" + s == b + "|" + t
    ensures a == b && s == t
  {
    assert a + ['|'] + s == a + "|" + s && b + ['|'] + t == b + "|" + t;
    IndexBetween(a, '|', s);
    IndexBetween(b, '|', t);
  }

  lemma BarsRegroup(a: string, b: string, c: string, d: string)
    ensures a + "|" + b + "|" + c + "|" + d == a + "|" + (b + "|" + (c + "|" + d))
  {
  }

  /** Four texts without a bar are told apart by their joining. */
  lemma BarsSplit(a: string, b: string, c: string, d: string, a': string, b': string, c': string, d': string)
    requires '|' !in a && '|' !in b && '|' !in c && '|' !in a' && '|' !in b' && '|' !in c'
    ensures a + "|" + b + "|" + c + "|" + d == a' + "|" + b' + "|" + c' + "|" + d' <==> a == a' && b == b' && c == c' && d == d'
  {
    BarsRegroup(a, b, c, d);
    BarsRegroup(a', b', c', d');
    if a + "|" + b + "|" + c + "|" + d == a' + "|" + b' + "|" + c' + "|" + d' {
      BarSplits(a, b + "|" + (c + "|" + d), a', b' + "|" + (c' + "|" + d'));
      BarSplits(b, c + "|" + d, b', c' + "|" + d');
      BarSplits(c, d, c', d');
    }
  }

  /** Name, version and release hold no bar. */
  predicate BarFree(p: Package) { '|' !in p.name && '|' !in p.evr.version && '|' !in p.evr.release }

  lemma TrimKeepsBarFree(s: string)
    ensures '|' in TrimSpace(s) <==> '|' in s
  {
    TrimLeftKeeps(s, '|');
    TrimRightKeeps(TrimLeftSpace(s), '|');
  }

  /**
   * Which packages count as one instance: those of the same NEVRA, and among those without one the same name, version,
   * release and architecture; the epoch does not matter then.
   */
  lemma SameInstanceIff(p: Package, q: Package)
    ensures TrimSpace(p.nevra) != "" && TrimSpace(q.nevra) != "" ==>
              (InstanceKey(p) == InstanceKey(q) <==> TrimSpace(p.nevra) == TrimSpace(q.nevra))
    ensures TrimSpace(p.nevra) == "" && TrimSpace(q.nevra) == "" && BarFree(p) && BarFree(q) ==>
              (InstanceKey(p) == InstanceKey(q) <==>
                 && TrimSpace(p.name) == TrimSpace(q.name) && TrimSpace(p.evr.version) == TrimSpace(q.evr.version)
                 && TrimSpace(p.evr.release) == TrimSpace(q.evr.release) && TrimSpace(p.arch) == TrimSpace(q.arch))
  {
    TrimKeepsBarFree(p.name);
    TrimKeepsBarFree(p.evr.version);
    TrimKeepsBarFree(p.evr.release);
    TrimKeepsBarFree(q.name);
    TrimKeepsBarFree(q.evr.version);
    TrimKeepsBarFree(q.evr.release);
    if BarFree(p) && BarFree(q) {
      BarsSplit(TrimSpace(p.name), TrimSpace(p.evr.version), TrimSpace(p.evr.release), TrimSpace(p.arch),
                TrimSpace(q.name), TrimSpace(q.evr.version), TrimSpace(q.evr.release), TrimSpace(q.arch));
    }
  }

  // ----- indexing -----

  /** The items a naive scan finds for a key, in order. */
  function Sharing<T(!new)>(items: seq<T>, keep: T -> bool, keysOf: T -> seq<string>, key: string): (found: seq<T>)
    ensures forall x :: x in found <==> x in items && keep(x) && key in keysOf(x)
  {
    if items == [] then []
    else
      var last := items[|items| - 1];
      Sharing(items[..|items| - 1], keep, keysOf, key) + (if keep(last) && key in keysOf(last) then [last] else [])
  }

  /** A map of slices that holds, under each key, what a naive scan finds for it. */
  ghost predicate Indexes<T(!new)>(grouped: map<string, seq<T>>, items: seq<T>, keep: T -> bool, keysOf: T -> seq<string>) {
    && (forall key :: Lookup(grouped, key) == Sharing(items, keep, keysOf, key))
    && (forall key | key in grouped :: grouped[key] != [])
  }

  /** indexPackagesByName, filterRulesByPackage and filterFixesByPackage */
  method IndexByKeys<T(!new)>(items: seq<T>, keep: T -> bool, keysOf: T -> seq<string>)
    returns (grouped: map<string, seq<T>>)
    requires forall x :: NoRepeats(keysOf(x))
    ensures Indexes(grouped, items, keep, keysOf)
  {
    grouped := map[];
    for i := 0 to |items|
      invariant Indexes(grouped, items[..i], keep, keysOf)
    {
      assert items[..i + 1][..i] == items[..i];
      if keep(items[i]) {
        grouped := AddUnderKeys(grouped, items[i], keysOf(items[i]));
      }
      forall key
        ensures Lookup(grouped, key) == Sharing(items[..i + 1], keep, keysOf, key)
      {
      }
    }
    assert items[..|items|] == items;
  }

  /** The inner loop: appends one item under each of its keys. */
  method AddUnderKeys<T(!new)>(before: map<string, seq<T>>, item: T, keys: seq<string>) returns (grouped: map<string, seq<T>>)
    requires NoRepeats(keys)
    requires forall key | key in before :: before[key] != []
    ensures forall key :: Lookup(grouped, key) == Lookup(before, key) + (if key in keys then [item] else [])
    ensures forall key | key in grouped :: grouped[key] != []
  {
    grouped := before;
    for j := 0 to |keys|
      invariant forall key :: Lookup(grouped, key) == Lookup(before, key) + (if key in keys[..j] then [item] else [])
      invariant forall key | key in grouped :: grouped[key] != []
    {
      assert keys[j] !in keys[..j];
      assert forall key :: key in keys[..j + 1] <==> key in keys[..j] || key == keys[j];
      grouped := grouped[keys[j] := Lookup(grouped, keys[j]) + [item]];
    }
  }

  // ----- candidates -----

  /** Whether some rule or fix of a resolved stream is filed under a key. */
  predicate Hot(rules: map<string, seq<Rule>>, fixes: map<string, seq<Fix>>, key: string) {
    Lookup(rules, key) != [] || Lookup(fixes, key) != []
  }

  /** Packages filed under a hot key of the given ones. */
  ghost predicate Filed(byName: map<string, seq<Package>>, keys: set<string>, rules: map<string, seq<Rule>>,
                        fixes: map<string, seq<Fix>>, p: Package)
  {
    exists key :: key in keys && Hot(rules, fixes, key) && p in Lookup(byName, key)
  }

  function HotKeys(rules: map<string, seq<Rule>>, fixes: map<string, seq<Fix>>): set<string> {
    set key | key in rules.Keys + fixes.Keys && Hot(rules, fixes, key)
  }

  /** The packages as a visit of the keys in the given order meets them under the hot ones. */
  function Pile<T>(byName: map<string, seq<T>>, hot: set<string>, order: seq<string>): seq<T> {
    if order == [] then []
    else
      var key := order[|order| - 1];
      Pile(byName, hot, order[..|order| - 1]) + (if key in hot then Lookup(byName, key) else [])
  }

  /** The keys of a map in some order. */
  ghost predicate IsListing(order: seq<string>, keys: set<string>) {
    NoRepeats(order) && forall key :: key in order <==> key in keys
  }

  /** candidatePackages: one package per instance key of those filed under a hot key. */
  method CandidatePackages(byName: map<string, seq<Package>>, rules: map<string, seq<Rule>>, fixes: map<string, seq<Fix>>)
    returns (candidates: seq<Package>, ghost order: seq<string>)
    ensures IsListing(order, byName.Keys)
    ensures candidates == FirstById(Pile(byName, HotKeys(rules, fixes), order), InstanceKey)
    ensures DistinctBy(candidates, InstanceKey)
    ensures forall c | c in candidates :: Filed(byName, byName.Keys, rules, fixes, c)
    ensures forall p | Filed(byName, byName.Keys, rules, fixes, p) ::
              exists c :: c in candidates && InstanceKey(c) == InstanceKey(p)
  {
    candidates, order := VisitKeys(byName, rules, fixes, InstanceKey);
    CandidatesAreFiled(byName, rules, fixes, order, InstanceKey);
  }

  /** Its loop: Go visits the map in any order, here any choice of the next key. */
  method VisitKeys(byName: map<string, seq<Package>>, rules: map<string, seq<Rule>>, fixes: map<string, seq<Fix>>, idOf: Package -> string)
    returns (candidates: seq<Package>, ghost order: seq<string>)
    ensures IsListing(order, byName.Keys)
    ensures candidates == FirstById(Pile(byName, HotKeys(rules, fixes), order), idOf)
  {
    candidates, order := [], [];
    var seen: set<string> := {};
    var remaining := byName.Keys;
    while remaining != {}
      invariant remaining <= byName.Keys
      invariant IsListing(order, byName.Keys - remaining)
      invariant candidates == FirstById(Pile(byName, HotKeys(rules, fixes), order), idOf)
      invariant seen == IdsOf(candidates, idOf)
      decreases |remaining|
    {
      var name :| name in remaining;
      ghost var pile := Pile(byName, HotKeys(rules, fixes), order);
      if Hot(rules, fixes, name) {
        candidates, seen := AppendNewIds(candidates, seen, byName[name], idOf, pile);
      }
      PileSnoc(byName, HotKeys(rules, fixes), order, name);
      ListingSnoc(order, byName.Keys - remaining, name);
      assert byName.Keys - (remaining - {name}) == byName.Keys - remaining + {name};
      remaining := remaining - {name};
      order := order + [name];
    }
  }

  lemma PileSnoc<T>(byName: map<string, seq<T>>, hot: set<string>, order: seq<string>, key: string)
    ensures Pile(byName, hot, order + [key]) == Pile(byName, hot, order) + (if key in hot then Lookup(byName, key) else [])
    ensures key !in hot ==> Pile(byName, hot, order + [key]) == Pile(byName, hot, order)
  {
    assert (order + [key])[..|order|] == order;
  }

  lemma ListingSnoc(order: seq<string>, keys: set<string>, key: string)
    requires IsListing(order, keys) && key !in keys
    ensures IsListing(order + [key], keys + {key})
  {
    forall i, j | 0 <= i < j < |order| + 1 ensures (order + [key])[i] != (order + [key])[j] {
      if j == |order| { assert order[i] in order; }
    }
  }

  lemma {:induction false} PileMembers<T>(byName: map<string, seq<T>>, hot: set<string>, order: seq<string>, x: T)
    ensures x in Pile(byName, hot, order) <==> exists key :: key in order && key in hot && x in Lookup(byName, key)
  {
    if order != [] {
      var n := |order| - 1;
      PileMembers(byName, hot, order[..n], x);
      assert order == order[..n] + [order[n]];
    }
  }

  /** One candidate for every instance key of a filed package, whatever the order. */
  lemma CandidatesAreFiled(byName: map<string, seq<Package>>, rules: map<string, seq<Rule>>, fixes: map<string, seq<Fix>>,
                           order: seq<string>, idOf: Package -> string)
    requires IsListing(order, byName.Keys)
    ensures var candidates := FirstById(Pile(byName, HotKeys(rules, fixes), order), idOf);
            && DistinctBy(candidates, idOf)
            && (forall c | c in candidates :: Filed(byName, byName.Keys, rules, fixes, c))
            && (forall p | Filed(byName, byName.Keys, rules, fixes, p) :: exists c :: c in candidates && idOf(c) == idOf(p))
  {
    var pile := Pile(byName, HotKeys(rules, fixes), order);
    FirstByIdDistinct(pile, idOf);
    forall p ensures p in pile <==> Filed(byName, byName.Keys, rules, fixes, p) {
      PileMembers(byName, HotKeys(rules, fixes), order, p);
    }
    forall p | p in pile ensures exists c :: c in FirstById(pile, idOf) && idOf(c) == idOf(p) {
      var c := FirstOf(pile, p, idOf);
    }
  }

  // ----- looking up rules and fixes -----

  /** Everything filed under the keys, key by key. */
  function Gather<T(!new)>(keys: seq<string>, items: seq<T>, keep: T -> bool, keysOf: T -> seq<string>): seq<T> {
    if keys == [] then []
    else Gather(keys[..|keys| - 1], items, keep, keysOf) + Sharing(items, keep, keysOf, keys[|keys| - 1])
  }

  function IdsOf<T>(s: seq<T>, idOf: T -> string): set<string> {
    set i | 0 <= i < |s| :: idOf(s[i])
  }

  /** The first item of each id. */
  function FirstById<T(!new)>(s: seq<T>, idOf: T -> string): (r: seq<T>)
    ensures IdsOf(r, idOf) == IdsOf(s, idOf)
    ensures forall x | x in r :: x in s
  {
    if s == [] then []
    else
      var n := |s| - 1;
      var rest := FirstById(s[..n], idOf);
      assert s == s[..n] + [s[n]];
      IdsOfSnoc(s[..n], s[n], idOf);
      IdsOfSnoc(rest, s[n], idOf);
      if idOf(s[n]) in IdsOf(rest, idOf) then rest else rest + [s[n]]
  }

  lemma IdsOfSnoc<T>(s: seq<T>, x: T, idOf: T -> string)
    ensures IdsOf(s + [x], idOf) == IdsOf(s, idOf) + {idOf(x)}
  {
    assert (s + [x])[|s|] == x;
    forall id | id in IdsOf(s, idOf) ensures id in IdsOf(s + [x], idOf) {
      var i :| 0 <= i < |s| && idOf(s[i]) == id;
      assert (s + [x])[i] == s[i];
    }
  }

  lemma {:induction false} FirstByIdDistinct<T(!new)>(s: seq<T>, idOf: T -> string)
    ensures DistinctBy(FirstById(s, idOf), idOf)
  {
    if s != [] {
      var n := |s| - 1;
      FirstByIdDistinct(s[..n], idOf);
      var rest := FirstById(s[..n], idOf);
      assert forall i | 0 <= i < |rest| :: idOf(rest[i]) in IdsOf(rest, idOf);
    }
  }

  lemma FirstByIdSnoc<T(!new)>(s: seq<T>, x: T, idOf: T -> string)
    ensures FirstById(s + [x], idOf) ==
            if idOf(x) in IdsOf(FirstById(s, idOf), idOf) then FirstById(s, idOf) else FirstById(s, idOf) + [x]
  {
  }

  /** matchingRulesForPackageKeys and matchingFixesForPackageKeys, on an index of `items`. */
  method MatchingForKeys<T(!new)>(keys: seq<string>, grouped: map<string, seq<T>>, idOf: T -> string,
                                  ghost items: seq<T>, ghost keep: T -> bool, ghost keysOf: T -> seq<string>)
    returns (found: seq<T>)
    requires Indexes(grouped, items, keep, keysOf)
    ensures found == FirstById(Gather(keys, items, keep, keysOf), idOf)
  {
    found := [];
    var seen: set<string> := {};
    for i := 0 to |keys|
      invariant found == FirstById(Gather(keys[..i], items, keep, keysOf), idOf)
      invariant seen == IdsOf(found, idOf)
    {
      assert keys[..i + 1][..i] == keys[..i];
      assert Lookup(grouped, keys[i]) == Sharing(items, keep, keysOf, keys[i]);
      found, seen := AppendNewIds(found, seen, Lookup(grouped, keys[i]), idOf, Gather(keys[..i], items, keep, keysOf));
    }
    assert keys[..|keys|] == keys;
  }

  /** The inner loop: appends the items whose id is new. */
  method AppendNewIds<T(!new)>(foundBefore: seq<T>, seenBefore: set<string>, filed: seq<T>, idOf: T -> string,
                               ghost before: seq<T>) returns (found: seq<T>, seen: set<string>)
    requires foundBefore == FirstById(before, idOf) && seenBefore == IdsOf(foundBefore, idOf)
    ensures found == FirstById(before + filed, idOf) && seen == IdsOf(found, idOf)
  {
    found, seen := foundBefore, seenBefore;
    assert before + filed[..0] == before;
    for j := 0 to |filed|
      invariant found == FirstById(before + filed[..j], idOf)
      invariant seen == IdsOf(found, idOf)
    {
      assert before + filed[..j + 1] == before + filed[..j] + [filed[j]];
      FirstByIdSnoc(before + filed[..j], filed[j], idOf);
      if idOf(filed[j]) !in seen {
        IdsOfSnoc(found, filed[j], idOf);
        seen := seen + {idOf(filed[j])};
        found := found + [filed[j]];
      }
    }
    assert filed[..|filed|] == filed;
  }

  // ----- the join is the nested loop -----

  /** Two items share a match key. */
  predicate SharesKey(keys: seq<string>, others: seq<string>) {
    exists key | key in keys :: key in others
  }

  lemma {:induction false} GatherMembers<T(!new)>(keys: seq<string>, items: seq<T>, keep: T -> bool, keysOf: T -> seq<string>, x: T)
    ensures x in Gather(keys, items, keep, keysOf) <==> x in items && keep(x) && SharesKey(keys, keysOf(x))
  {
    if keys != [] {
      var n := |keys| - 1;
      GatherMembers(keys[..n], items, keep, keysOf, x);
      assert keys == keys[..n] + [keys[n]];
    }
  }

  /** The looked-up items are exactly those a nested loop over all items finds, each once by id. */
  lemma LookupIsNestedLoop<T(!new)>(keys: seq<string>, items: seq<T>, keep: T -> bool, keysOf: T -> seq<string>, idOf: T -> string)
    ensures var found := FirstById(Gather(keys, items, keep, keysOf), idOf);
            && DistinctBy(found, idOf)
            && (forall x | x in found :: x in items && keep(x) && SharesKey(keys, keysOf(x)))
            && (forall x | x in items && keep(x) && SharesKey(keys, keysOf(x)) :: exists y :: y in found && idOf(y) == idOf(x))
            && (DistinctBy(items, idOf) ==>
                  forall x | x in items && keep(x) && SharesKey(keys, keysOf(x)) :: x in found)
  {
    var all := Gather(keys, items, keep, keysOf);
    var found := FirstById(all, idOf);
    FirstByIdDistinct(all, idOf);
    forall x
      ensures x in all <==> x in items && keep(x) && SharesKey(keys, keysOf(x))
    {
      GatherMembers(keys, items, keep, keysOf, x);
    }
    forall x | x in items && keep(x) && SharesKey(keys, keysOf(x))
      ensures exists y :: y in found && idOf(y) == idOf(x)
    {
      assert idOf(x) in IdsOf(all, idOf);
      assert idOf(x) in IdsOf(found, idOf);
    }
  }

  /** Whether a nested loop over the rules and fixes of resolved streams finds one with one of the keys. */
  ghost predicate HasRuleOrFix(keys: seq<string>, rules: seq<Rule>, fixes: seq<Fix>, streams: set<string>) {
    exists key | key in keys ::
      || (exists r | r in rules :: r.streamId in streams && key in RuleKeys(r))
      || (exists f | f in fixes :: f.streamId in streams && key in FixKeys(f))
  }

  /** An index has an entry under a key iff some item has the key. */
  lemma IndexHit<T(!new)>(grouped: map<string, seq<T>>, items: seq<T>, keep: T -> bool, keysOf: T -> seq<string>, key: string)
    requires Indexes(grouped, items, keep, keysOf)
    ensures Lookup(grouped, key) != [] <==> exists x | x in items :: keep(x) && key in keysOf(x)
    ensures key in grouped <==> Lookup(grouped, key) != []
  {
    var found := Sharing(items, keep, keysOf, key);
    assert Lookup(grouped, key) == found;
    if found != [] { assert found[0] in found; }
    if x :| x in items && keep(x) && key in keysOf(x) { assert x in found; }
  }

  /** On the three indexes, a package is filed under a hot key iff the nested loop finds a rule or fix for it. */
  lemma FiledIsNestedLoop(byName: map<string, seq<Package>>, rulesByKey: map<string, seq<Rule>>, fixesByKey: map<string, seq<Fix>>,
                          packages: seq<Package>, rules: seq<Rule>, fixes: seq<Fix>, streams: set<string>,
                          all: Package -> bool, packageKeys: Package -> seq<string>, keepRule: Rule -> bool, keepFix: Fix -> bool,
                          p: Package)
    requires forall q :: all(q)
    requires forall r :: keepRule(r) == (r.streamId in streams)
    requires forall f :: keepFix(f) == (f.streamId in streams)
    requires Indexes(byName, packages, all, packageKeys)
    requires Indexes(rulesByKey, rules, keepRule, RuleKeys)
    requires Indexes(fixesByKey, fixes, keepFix, FixKeys)
    ensures Filed(byName, byName.Keys, rulesByKey, fixesByKey, p) <==>
              p in packages && HasRuleOrFix(packageKeys(p), rules, fixes, streams)
  {
    forall key
      ensures Hot(rulesByKey, fixesByKey, key) <==>
                || (exists r | r in rules :: r.streamId in streams && key in RuleKeys(r))
                || (exists f | f in fixes :: f.streamId in streams && key in FixKeys(f))
    {
      IndexHit(rulesByKey, rules, keepRule, RuleKeys, key);
      IndexHit(fixesByKey, fixes, keepFix, FixKeys, key);
    }
    forall key
      ensures p in Lookup(byName, key) <==> p in packages && key in packageKeys(p)
    {
      assert Lookup(byName, key) == Sharing(packages, all, packageKeys, key);
    }
  }

  // ----- when the order of the visit matters -----

  /** The first item of each id that has a key at all. */
  function Leaders<T(!new)>(items: seq<T>, keysOf: T -> seq<string>, idOf: T -> string): (r: seq<T>)
    ensures forall x | x in r :: x in items && keysOf(x) != []
  {
    if items == [] then []
    else
      var n := |items| - 1;
      var rest := Leaders(items[..n], keysOf, idOf);
      if keysOf(items[n]) == [] || idOf(items[n]) in IdsOf(rest, idOf) then rest else rest + [items[n]]
  }

  lemma LeadersSnoc<T(!new)>(items: seq<T>, x: T, keysOf: T -> seq<string>, idOf: T -> string)
    ensures var rest := Leaders(items, keysOf, idOf);
            Leaders(items + [x], keysOf, idOf) == if keysOf(x) == [] || idOf(x) in IdsOf(rest, idOf) then rest else rest + [x]
  {
    assert (items + [x])[..|items|] == items;
  }

  lemma DistinctSnoc<T(!new)>(s: seq<T>, x: T, idOf: T -> string)
    requires DistinctBy(s, idOf) && idOf(x) !in IdsOf(s, idOf)
    ensures DistinctBy(s + [x], idOf)
  {
    assert forall i | 0 <= i < |s| :: idOf(s[i]) in IdsOf(s, idOf);
  }

  lemma {:induction false} LeadersDistinct<T(!new)>(items: seq<T>, keysOf: T -> seq<string>, idOf: T -> string)
    ensures DistinctBy(Leaders(items, keysOf, idOf), idOf)
    ensures forall x | x in items && keysOf(x) != [] :: idOf(x) in IdsOf(Leaders(items, keysOf, idOf), idOf)
  {
    if items != [] {
      var n := |items| - 1;
      var rest := Leaders(items[..n], keysOf, idOf);
      assert items == items[..n] + [items[n]];
      LeadersDistinct(items[..n], keysOf, idOf);
      LeadersSnoc(items[..n], items[n], keysOf, idOf);
      IdsOfSnoc(rest, items[n], idOf);
      if idOf(items[n]) !in IdsOf(rest, idOf) { DistinctSnoc(rest, items[n], idOf); }
    }
  }

  /** Whoever shares an id with a leader has no key that the leader lacks. */
  ghost predicate Led<T(!new)>(items: seq<T>, keysOf: T -> seq<string>, idOf: T -> string) {
    forall x, f, key | x in items && f in Leaders(items, keysOf, idOf) && idOf(f) == idOf(x) && key in keysOf(x) :: key in keysOf(f)
  }

  lemma InIdsOf<T(!new)>(s: seq<T>, x: T, idOf: T -> string)
    requires x in s
    ensures idOf(x) in IdsOf(s, idOf)
  {
  }

  lemma LedInit<T(!new)>(items: seq<T>, keysOf: T -> seq<string>, idOf: T -> string)
    requires items != [] && Led(items, keysOf, idOf)
    ensures Led(items[..|items| - 1], keysOf, idOf)
  {
  }

  lemma SharingSnoc<T(!new)>(items: seq<T>, x: T, keep: T -> bool, keysOf: T -> seq<string>, key: string)
    ensures Sharing(items + [x], keep, keysOf, key) ==
            Sharing(items, keep, keysOf, key) + (if keep(x) && key in keysOf(x) then [x] else [])
  {
    assert (items + [x])[..|items|] == items;
  }

  /** If the leader of `x` has all its keys, `x` is new under a key only if it is a new leader. */
  lemma NewUnderKey<T(!new)>(items: seq<T>, x: T, keep: T -> bool, keysOf: T -> seq<string>, idOf: T -> string, key: string)
    requires Led(items + [x], keysOf, idOf) && key in keysOf(x) && forall y :: keep(y)
    requires idOf(x) !in IdsOf(Sharing(items, keep, keysOf, key), idOf)
    ensures idOf(x) !in IdsOf(Leaders(items, keysOf, idOf), idOf)
  {
    var rest := Leaders(items, keysOf, idOf);
    if idOf(x) in IdsOf(rest, idOf) {
      var i :| 0 <= i < |rest| && idOf(rest[i]) == idOf(x);
      LeadersSnoc(items, x, keysOf, idOf);
      assert rest[i] in Leaders(items + [x], keysOf, idOf) && x in items + [x];
      InIdsOf(Sharing(items, keep, keysOf, key), rest[i], idOf);
    }
  }

  lemma FirstGrows<T(!new)>(found: seq<T>, x: T, rest: seq<T>, idOf: T -> string)
    requires forall c | c in FirstById(found, idOf) :: c in rest
    requires idOf(x) !in IdsOf(found, idOf) ==> x in rest
    ensures forall c | c in FirstById(found + [x], idOf) :: c in rest
  {
    FirstByIdSnoc(found, x, idOf);
  }

  lemma FirstUnderKeyStep<T(!new)>(items: seq<T>, x: T, keep: T -> bool, keysOf: T -> seq<string>, idOf: T -> string, key: string)
    requires Led(items + [x], keysOf, idOf) && forall y :: keep(y)
    requires forall c | c in FirstById(Sharing(items, keep, keysOf, key), idOf) :: c in Leaders(items, keysOf, idOf)
    ensures forall c | c in FirstById(Sharing(items + [x], keep, keysOf, key), idOf) :: c in Leaders(items + [x], keysOf, idOf)
  {
    var found, rest := Sharing(items, keep, keysOf, key), Leaders(items + [x], keysOf, idOf);
    LeadersSnoc(items, x, keysOf, idOf);
    SharingSnoc(items, x, keep, keysOf, key);
    if key in keysOf(x) {
      if idOf(x) !in IdsOf(found, idOf) { NewUnderKey(items, x, keep, keysOf, idOf, key); }
      FirstGrows(found, x, rest, idOf);
    } else {
      assert Sharing(items + [x], keep, keysOf, key) == found;
    }
  }

  /** Under every key the first item of each id is a leader, if leaders have all keys. */
  lemma {:induction false} FirstUnderKey<T(!new)>(items: seq<T>, keep: T -> bool, keysOf: T -> seq<string>, idOf: T -> string, key: string)
    requires Led(items, keysOf, idOf) && forall x :: keep(x)
    ensures forall c | c in FirstById(Sharing(items, keep, keysOf, key), idOf) :: c in Leaders(items, keysOf, idOf)
  {
    if items != [] {
      var n := |items| - 1;
      assert items == items[..n] + [items[n]];
      LedInit(items, keysOf, idOf);
      FirstUnderKey(items[..n], keep, keysOf, idOf, key);
      FirstUnderKeyStep(items[..n], items[n], keep, keysOf, idOf, key);
    }
  }

  lemma SharingIsLed<T(!new)>(items: seq<T>, keep: T -> bool, keysOf: T -> seq<string>, idOf: T -> string, key: string)
    ensures IdsOf(Sharing(items, keep, keysOf, key), idOf) <= IdsOf(Leaders(items, keysOf, idOf), idOf)
  {
    LeadersDistinct(items, keysOf, idOf);
    var found := Sharing(items, keep, keysOf, key);
    forall i | 0 <= i < |found| ensures idOf(found[i]) in IdsOf(Leaders(items, keysOf, idOf), idOf) {
      assert found[i] in found;
    }
  }

  lemma LeaderStep<T(!new)>(items: seq<T>, x: T, keep: T -> bool, keysOf: T -> seq<string>, idOf: T -> string, key: string, f: T)
    requires f in Leaders(items + [x], keysOf, idOf) && key in keysOf(f) && forall y :: keep(y)
    requires f in Leaders(items, keysOf, idOf) ==> f in FirstById(Sharing(items, keep, keysOf, key), idOf)
    ensures f in FirstById(Sharing(items + [x], keep, keysOf, key), idOf)
  {
    var found := Sharing(items, keep, keysOf, key);
    LeadersSnoc(items, x, keysOf, idOf);
    SharingSnoc(items, x, keep, keysOf, key);
    SharingIsLed(items, keep, keysOf, idOf, key);
    if key in keysOf(x) {
      FirstByIdSnoc(found, x, idOf);
    } else {
      assert Sharing(items + [x], keep, keysOf, key) == found;
    }
  }

  /** A leader is the first item of its id under each of its keys. */
  lemma {:induction false} LeaderIsFirst<T(!new)>(items: seq<T>, keep: T -> bool, keysOf: T -> seq<string>, idOf: T -> string, key: string, f: T)
    requires f in Leaders(items, keysOf, idOf) && key in keysOf(f) && forall x :: keep(x)
    ensures f in FirstById(Sharing(items, keep, keysOf, key), idOf)
  {
    var n := |items| - 1;
    assert items == items[..n] + [items[n]];
    if f in Leaders(items[..n], keysOf, idOf) { LeaderIsFirst(items[..n], keep, keysOf, idOf, key, f); }
    LeaderStep(items[..n], items[n], keep, keysOf, idOf, key, f);
  }

  lemma {:induction false} FirstByIdConcat<T(!new)>(s: seq<T>, t: seq<T>, idOf: T -> string, c: T)
    ensures c in FirstById(s + t, idOf) <==> c in FirstById(s, idOf) || (c in FirstById(t, idOf) && idOf(c) !in IdsOf(s, idOf))
  {
    if t == [] {
      assert s + t == s;
    } else {
      var n := |t| - 1;
      assert s + t == s + t[..n] + [t[n]] && t == t[..n] + [t[n]];
      FirstByIdConcat(s, t[..n], idOf, c);
      FirstByIdSnoc(s + t[..n], t[n], idOf);
      FirstByIdSnoc(t[..n], t[n], idOf);
      IdsOfConcat(s, t[..n], idOf);
    }
  }

  lemma IdsOfConcat<T>(s: seq<T>, t: seq<T>, idOf: T -> string)
    ensures IdsOf(s + t, idOf) == IdsOf(s, idOf) + IdsOf(t, idOf)
  {
    assert forall i | 0 <= i < |s| :: (s + t)[i] == s[i];
    assert forall i | 0 <= i < |t| :: (s + t)[|s| + i] == t[i];
  }

  lemma {:induction false} FirstInPile<T(!new)>(byName: map<string, seq<T>>, hot: set<string>, order: seq<string>, idOf: T -> string, c: T)
    requires c in FirstById(Pile(byName, hot, order), idOf)
    ensures exists key :: key in order && key in hot && c in FirstById(Lookup(byName, key), idOf)
  {
    var n := |order| - 1;
    var key, pile := order[n], Pile(byName, hot, order[..n]);
    assert order == order[..n] + [key];
    PileSnoc(byName, hot, order[..n], key);
    if key in hot { FirstByIdConcat(pile, Lookup(byName, key), idOf, c); }
    if c in FirstById(pile, idOf) { FirstInPile(byName, hot, order[..n], idOf, c); }
  }

  lemma CandidateIsLeader<T(!new)>(byName: map<string, seq<T>>, items: seq<T>, keep: T -> bool, keysOf: T -> seq<string>,
                                   idOf: T -> string, hot: set<string>, order: seq<string>, c: T)
    requires Indexes(byName, items, keep, keysOf) && forall x :: keep(x)
    requires Led(items, keysOf, idOf) && c in FirstById(Pile(byName, hot, order), idOf)
    ensures c in Leaders(items, keysOf, idOf) && exists key | key in keysOf(c) :: key in hot
  {
    FirstInPile(byName, hot, order, idOf, c);
    var key :| key in order && key in hot && c in FirstById(Lookup(byName, key), idOf);
    assert Lookup(byName, key) == Sharing(items, keep, keysOf, key);
    FirstUnderKey(items, keep, keysOf, idOf, key);
  }

  lemma LeaderIsCandidate<T(!new)>(byName: map<string, seq<T>>, items: seq<T>, keep: T -> bool, keysOf: T -> seq<string>,
                                   idOf: T -> string, hot: set<string>, order: seq<string>, c: T, key: string)
    requires Indexes(byName, items, keep, keysOf) && forall x :: keep(x)
    requires Led(items, keysOf, idOf) && IsListing(order, byName.Keys)
    requires c in Leaders(items, keysOf, idOf) && key in keysOf(c) && key in hot
    ensures c in FirstById(Pile(byName, hot, order), idOf)
  {
    ItemIsPiled(byName, items, keep, keysOf, hot, order, c, key);
    var d := FirstOf(Pile(byName, hot, order), c, idOf);
    CandidateIsLeader(byName, items, keep, keysOf, idOf, hot, order, d);
    SameLeader(items, keysOf, idOf, c, d);
  }

  lemma ItemIsPiled<T(!new)>(byName: map<string, seq<T>>, items: seq<T>, keep: T -> bool, keysOf: T -> seq<string>, hot: set<string>,
                             order: seq<string>, x: T, key: string)
    requires Indexes(byName, items, keep, keysOf) && IsListing(order, byName.Keys)
    requires x in items && keep(x) && key in keysOf(x) && key in hot
    ensures x in Pile(byName, hot, order)
  {
    assert Lookup(byName, key) == Sharing(items, keep, keysOf, key);
    PileMembers(byName, hot, order, x);
  }

  lemma SameLeader<T(!new)>(items: seq<T>, keysOf: T -> seq<string>, idOf: T -> string, f: T, g: T)
    requires f in Leaders(items, keysOf, idOf) && g in Leaders(items, keysOf, idOf) && idOf(f) == idOf(g)
    ensures f == g
  {
    LeadersDistinct(items, keysOf, idOf);
  }

  lemma FirstOf<T(!new)>(s: seq<T>, x: T, idOf: T -> string) returns (d: T)
    requires x in s
    ensures d in FirstById(s, idOf) && idOf(d) == idOf(x)
  {
    InIdsOf(s, x, idOf);
    var first := FirstById(s, idOf);
    assert idOf(x) in IdsOf(first, idOf);
    var i :| 0 <= i < |first| && idOf(first[i]) == idOf(x);
    d := first[i];
  }

  /** If leaders have all keys, the candidates are the leaders with a hot key, for every order of the visit. */
  lemma CandidatesAreLeaders<T(!new)>(byName: map<string, seq<T>>, items: seq<T>, keep: T -> bool, keysOf: T -> seq<string>,
                                      idOf: T -> string, hot: set<string>, order: seq<string>, c: T)
    requires Indexes(byName, items, keep, keysOf) && forall x :: keep(x)
    requires Led(items, keysOf, idOf) && IsListing(order, byName.Keys)
    ensures c in FirstById(Pile(byName, hot, order), idOf) <==>
            c in Leaders(items, keysOf, idOf) && exists key | key in keysOf(c) :: key in hot
  {
    if c in FirstById(Pile(byName, hot, order), idOf) {
      CandidateIsLeader(byName, items, keep, keysOf, idOf, hot, order, c);
    }
    if key :| c in Leaders(items, keysOf, idOf) && key in keysOf(c) && key in hot {
      LeaderIsCandidate(byName, items, keep, keysOf, idOf, hot, order, c, key);
    }
  }

  /** On the indexes of rules and fixes: the candidates are the leaders that are filed under a hot key. */
  lemma FiledLeadersAreCandidates(byName: map<string, seq<Package>>, rules: map<string, seq<Rule>>, fixes: map<string, seq<Fix>>,
                                  packages: seq<Package>, all: Package -> bool, keysOf: Package -> seq<string>,
                                  idOf: Package -> string, order: seq<string>)
    requires Indexes(byName, packages, all, keysOf) && forall q :: all(q)
    requires Led(packages, keysOf, idOf) && IsListing(order, byName.Keys)
    ensures forall c :: c in FirstById(Pile(byName, HotKeys(rules, fixes), order), idOf) <==>
              c in Leaders(packages, keysOf, idOf) && Filed(byName, byName.Keys, rules, fixes, c)
  {
    var hot := HotKeys(rules, fixes);
    forall c
      ensures c in FirstById(Pile(byName, hot, order), idOf) <==>
                c in Leaders(packages, keysOf, idOf) && Filed(byName, byName.Keys, rules, fixes, c)
    {
      CandidatesAreLeaders(byName, packages, all, keysOf, idOf, hot, order, c);
      if c in Leaders(packages, keysOf, idOf) { FiledMeans(byName, rules, fixes, packages, all, keysOf, c); }
    }
  }

  lemma FiledMeans(byName: map<string, seq<Package>>, rules: map<string, seq<Rule>>, fixes: map<string, seq<Fix>>,
                   packages: seq<Package>, all: Package -> bool, keysOf: Package -> seq<string>, p: Package)
    requires Indexes(byName, packages, all, keysOf) && all(p) && p in packages
    ensures Filed(byName, byName.Keys, rules, fixes, p) <==> exists key | key in keysOf(p) :: key in HotKeys(rules, fixes)
  {
    forall key ensures p in Lookup(byName, key) <==> key in keysOf(p) {
      assert Lookup(byName, key) == Sharing(packages, all, keysOf, key);
    }
  }

  // ----- and exactly when it does -----

  lemma {:induction false} PileConcat<T>(byName: map<string, seq<T>>, hot: set<string>, order: seq<string>, more: seq<string>)
    ensures Pile(byName, hot, order + more) == Pile(byName, hot, order) + Pile(byName, hot, more)
  {
    if more == [] {
      assert order + more == order;
    } else {
      var n := |more| - 1;
      assert order + more == order + more[..n] + [more[n]] && more == more[..n] + [more[n]];
      PileConcat(byName, hot, order, more[..n]);
      PileSnoc(byName, hot, order + more[..n], more[n]);
      PileSnoc(byName, hot, more[..n], more[n]);
    }
  }

  /** Some order of a set of keys that starts with a given one. */
  lemma ListingFrom(keys: set<string>, first: string) returns (rest: seq<string>)
    requires first in keys
    ensures IsListing([first] + rest, keys)
  {
    var order := [first];
    var left := keys - {first};
    while left != {}
      invariant left <= keys && IsListing(order, keys - left) && order != [] && order[0] == first
      decreases |left|
    {
      var key :| key in left;
      ListingSnoc(order, keys - left, key);
      assert keys - (left - {key}) == keys - left + {key};
      order, left := order + [key], left - {key};
    }
    rest := order[1..];
    assert order == [first] + rest;
  }

  /** What is first under the key visited first is a candidate. */
  lemma FirstKeyDecides<T(!new)>(byName: map<string, seq<T>>, hot: set<string>, key: string, rest: seq<string>, idOf: T -> string, c: T)
    requires key in hot && c in FirstById(Lookup(byName, key), idOf)
    ensures c in FirstById(Pile(byName, hot, [key] + rest), idOf)
  {
    PileConcat(byName, hot, [key], rest);
    PileSnoc(byName, hot, [], key);
    assert [] + [key] == [key] && Pile(byName, hot, [key]) == Lookup(byName, key);
    FirstByIdConcat(Lookup(byName, key), Pile(byName, hot, rest), idOf, c);
  }

  /** The candidates do not depend on the order in which the keys are visited, whatever keys are hot. */
  ghost predicate OrderIsIrrelevant<T(!new)>(byName: map<string, seq<T>>, idOf: T -> string) {
    forall hot, order, other, c | IsListing(order, byName.Keys) && IsListing(other, byName.Keys) ::
      c in FirstById(Pile(byName, hot, order), idOf) ==> c in FirstById(Pile(byName, hot, other), idOf)
  }

  lemma LeaderCanComeFirst<T(!new)>(byName: map<string, seq<T>>, items: seq<T>, keep: T -> bool, keysOf: T -> seq<string>,
                                    idOf: T -> string, f: T, key: string, hot: set<string>) returns (order: seq<string>)
    requires Indexes(byName, items, keep, keysOf) && forall y :: keep(y)
    requires f in Leaders(items, keysOf, idOf) && key in keysOf(f) && key in hot
    ensures IsListing(order, byName.Keys) && f in FirstById(Pile(byName, hot, order), idOf)
  {
    InIndex(byName, items, keep, keysOf, f, key);
    var rest := ListingFrom(byName.Keys, key);
    order := [key] + rest;
    LeaderIsFirst(items, keep, keysOf, idOf, key, f);
    FirstKeyDecides(byName, hot, key, rest, idOf, f);
  }

  lemma OtherCanComeFirst<T(!new)>(byName: map<string, seq<T>>, items: seq<T>, keep: T -> bool, keysOf: T -> seq<string>,
                                   idOf: T -> string, x: T, f: T, key: string, hot: set<string>) returns (order: seq<string>)
    requires Indexes(byName, items, keep, keysOf) && forall y :: keep(y)
    requires x in items && idOf(f) == idOf(x) && key in keysOf(x) && key !in keysOf(f) && key in hot
    ensures IsListing(order, byName.Keys) && f !in FirstById(Pile(byName, hot, order), idOf)
  {
    InIndex(byName, items, keep, keysOf, x, key);
    var rest := ListingFrom(byName.Keys, key);
    order := [key] + rest;
    var c := FirstOf(Lookup(byName, key), x, idOf);
    FirstKeyDecides(byName, hot, key, rest, idOf, c);
    OnlyOneOf(Pile(byName, hot, order), idOf, c, f);
  }

  /** A key that a leader lacks: visited before or after the leader's own keys, it changes the candidates. */
  lemma LackedKeyMatters<T(!new)>(byName: map<string, seq<T>>, items: seq<T>, keep: T -> bool, keysOf: T -> seq<string>,
                                  idOf: T -> string, x: T, f: T, key: string)
    requires Indexes(byName, items, keep, keysOf) && forall y :: keep(y)
    requires x in items && f in Leaders(items, keysOf, idOf) && idOf(f) == idOf(x) && key in keysOf(x) && key !in keysOf(f)
    ensures !OrderIsIrrelevant(byName, idOf)
  {
    var hot := {keysOf(f)[0], key};
    var order := LeaderCanComeFirst(byName, items, keep, keysOf, idOf, f, keysOf(f)[0], hot);
    var other := OtherCanComeFirst(byName, items, keep, keysOf, idOf, x, f, key, hot);
  }

  lemma InIndex<T(!new)>(byName: map<string, seq<T>>, items: seq<T>, keep: T -> bool, keysOf: T -> seq<string>, x: T, key: string)
    requires Indexes(byName, items, keep, keysOf) && x in items && keep(x) && key in keysOf(x)
    ensures key in byName && x in Lookup(byName, key)
    ensures Lookup(byName, key) == Sharing(items, keep, keysOf, key)
  {
    assert Lookup(byName, key) == Sharing(items, keep, keysOf, key);
  }

  lemma OnlyOneOf<T(!new)>(s: seq<T>, idOf: T -> string, c: T, f: T)
    requires c in FirstById(s, idOf) && idOf(c) == idOf(f) && c != f
    ensures f !in FirstById(s, idOf)
  {
    FirstByIdDistinct(s, idOf);
  }

  /** The order of the visit is irrelevant exactly if every leader has all keys of the items that share its id. */
  lemma OrderIrrelevantIff<T(!new)>(byName: map<string, seq<T>>, items: seq<T>, keep: T -> bool, keysOf: T -> seq<string>, idOf: T -> string)
    requires Indexes(byName, items, keep, keysOf) && forall x :: keep(x)
    ensures OrderIsIrrelevant(byName, idOf) <==> Led(items, keysOf, idOf)
  {
    if Led(items, keysOf, idOf) {
      forall hot, order, other, c | IsListing(order, byName.Keys) && IsListing(other, byName.Keys)
        ensures c in FirstById(Pile(byName, hot, order), idOf) ==> c in FirstById(Pile(byName, hot, other), idOf)
      {
        CandidatesAreLeaders(byName, items, keep, keysOf, idOf, hot, order, c);
        CandidatesAreLeaders(byName, items, keep, keysOf, idOf, hot, other, c);
      }
    } else {
      var x, f, key :| x in items && f in Leaders(items, keysOf, idOf) && idOf(f) == idOf(x) && key in keysOf(x) && key !in keysOf(f);
      LackedKeyMatters(byName, items, keep, keysOf, idOf, x, f, key);
    }
  }
}
