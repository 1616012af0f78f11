/** What the matcher reads: installed packages, advisories, their rules and their fixes. */
module Inventory {
  import opened GoStrings
  import opened Evr

  datatype Package = Package(name: string, evr: Evr, arch: string, nevra: string, sourceRpm: string)

  datatype Rule = Rule(id: string, streamId: string, packageName: string, sourceRpm: Option<string>,
                       arch: Option<string>, evrRule: Option<string>, evidenceTier: string)

  datatype Fix = Fix(id: string, streamId: string, packageName: string, evr: Evr, arch: Option<string>,
                     nevra: string, sourceRpm: Option<string>, evidenceTier: string)

  datatype Advisory = Advisory(id: string, severity: Option<string>, evidenceTier: string)

  /** One host snapshot and the product streams resolved for it. */
  datatype Host = Host(osFamily: string, runningKernel: string, packages: seq<Package>, streams: set<string>) {
    predicate Apt() { osFamily == "apt" }
  }

  /** The advisory tables grouped by advisory; a reference is its vendor severity. */
  datatype Catalogue = Catalogue(links: map<string, seq<string>>, rules: map<string, seq<Rule>>,
                                 fixes: map<string, seq<Fix>>, references: map<string, seq<Option<string>>>)

  /** Indexing a Go map of slices: a missing key reads as the empty slice. */
  function Lookup<T>(m: map<string, seq<T>>, key: string): seq<T> {
    if key in m then m[key] else []
  }

  function Filter<T(!new)>(s: seq<T>, keep: T -> bool): (r: seq<T>)
    ensures forall x :: x in r <==> x in s && keep(x)
    ensures |r| <= |s|
  {
    if s == [] then []
    else if keep(s[|s| - 1]) then Filter(s[..|s| - 1], keep) + [s[|s| - 1]]
    else Filter(s[..|s| - 1], keep)
  }

  ghost predicate DistinctBy<T, K>(s: seq<T>, key: T -> K) {
    forall i, j | 0 <= i < j < |s| :: key(s[i]) != key(s[j])
  }
}
