/** Kernel packages: which installed instances matter and whether the running kernel has a fix. */
module Kernel {
  import opened Digits
  import opened GoStrings
  import opened Evr
  import opened Inventory
  import opened Nevra

  const APT_KERNEL_PREFIXES: seq<string> :=
    ["linux-image-unsigned-", "linux-image-", "linux-modules-extra-", "linux-modules-", "linux-headers-",
     "linux-tools-", "linux-cloud-tools-", "linux-buildinfo-"]

  /** strings.CutPrefix with the first prefix of a list that fits. */
  function CutFirstPrefix(name: string, prefixes: seq<string>): Option<string> {
    if prefixes == [] then None
    else if HasPrefix(name, prefixes[0]) then Some(name[|prefixes[0]|..])
    else CutFirstPrefix(name, prefixes[1..])
  }

  /** isKernelPackage */
  predicate IsKernel(apt: bool, name: string) {
    if apt then CutFirstPrefix(name, APT_KERNEL_PREFIXES).Some?
    else name == "kernel" || HasPrefix(name, "kernel-")
  }

  /** isVersionedKernelPackageAPT */
  predicate IsVersionedApt(name: string) {
    var rest := CutFirstPrefix(name, APT_KERNEL_PREFIXES);
    rest.Some? && |rest.value| > 0 && IsDigit(rest.value[0])
  }

  /** The text after the last dash, or "generic". */
  function Flavour(name: string): string {
    var dash := LastIndex(name, '-');
    if dash >= 0 then name[dash + 1..] else "generic"
  }

  /** Whether a package belongs to the kernels that latestInstalledKernelEVRAPT or ...RPM scans for `group`. */
  predicate InGroup(apt: bool, p: Package, group: string) {
    if apt then IsVersionedApt(p.name) && Flavour(p.name) == group else p.name == group
  }

  /** The group that a kernel package is compared with. */
  function Group(apt: bool, name: string): string { if apt then Flavour(name) else name }

  /** Newest EVR among the packages of a group, the earliest of equals. */
  function LatestBy(apt: bool, packages: seq<Package>, inGroup: Package -> bool): Option<Evr> {
    if packages == [] then None
    else
      var p := packages[|packages| - 1];
      var earlier := LatestBy(apt, packages[..|packages| - 1], inGroup);
      if inGroup(p) && (earlier.None? || Compare(apt, p.evr, earlier.value) > 0) then Some(p.evr) else earlier
  }

  function Latest(apt: bool, packages: seq<Package>, group: string): Option<Evr> {
    LatestBy(apt, packages, p => InGroup(apt, p, group))
  }

  /** latestInstalledKernelEVRAPT and latestInstalledKernelEVRRPM */
  method LatestInstalledKernel(apt: bool, packages: seq<Package>, group: string) returns (max: Evr, found: bool)
    ensures found <==> Latest(apt, packages, group).Some?
    ensures found ==> Latest(apt, packages, group) == Some(max)
  {
    ghost var inGroup := (p: Package) => InGroup(apt, p, group);
    max, found := Evr(0, "", ""), false;
    for i := 0 to |packages|
      invariant LatestBy(apt, packages[..i], inGroup) == if found then Some(max) else None
    {
      assert packages[..i + 1][..i] == packages[..i];
      if InGroup(apt, packages[i], group) {
        var compared := CompareEvr(apt, packages[i].evr, max);
        if !found || compared > 0 {
          max, found := packages[i].evr, true;
        }
      }
    }
    assert packages[..|packages|] == packages;
    SameScan(apt, packages, inGroup, group);
  }

  lemma {:induction false} SameScan(apt: bool, packages: seq<Package>, inGroup: Package -> bool, group: string)
    requires forall p :: inGroup(p) == InGroup(apt, p, group)
    ensures LatestBy(apt, packages, inGroup) == LatestBy(apt, packages, p => InGroup(apt, p, group))
  {
    if packages != [] { SameScan(apt, packages[..|packages| - 1], inGroup, group); }
  }

  /** The scan returns an installed maximum of the group, and nothing only for an empty group. */
  lemma {:induction false} LatestByIsMaximum(apt: bool, packages: seq<Package>, inGroup: Package -> bool)
    ensures LatestBy(apt, packages, inGroup).None? ==> forall p | p in packages :: !inGroup(p)
    ensures LatestBy(apt, packages, inGroup).Some? ==>
              var latest := LatestBy(apt, packages, inGroup).value;
              && (exists q :: q in packages && inGroup(q) && q.evr == latest)
              && forall p | p in packages && inGroup(p) :: Compare(apt, p.evr, latest) <= 0
  {
    if packages != [] {
      var init, last := packages[..|packages| - 1], packages[|packages| - 1];
      LatestByIsMaximum(apt, init, inGroup);
      var earlier, latest := LatestBy(apt, init, inGroup), LatestBy(apt, packages, inGroup);
      if latest.Some? {
        Antisymmetric(apt, last.evr, last.evr);
        if earlier.Some? { Antisymmetric(apt, last.evr, earlier.value); }
        forall p | p in packages && inGroup(p)
          ensures Compare(apt, p.evr, latest.value) <= 0
        {
          if p in init && latest != earlier { Transitive(apt, p.evr, earlier.value, latest.value); }
        }
        if latest == earlier {
          var q :| q in init && inGroup(q) && q.evr == latest.value;
          assert q in packages;
        }
      }
    }
  }

  lemma LatestIsMaximum(apt: bool, packages: seq<Package>, group: string)
    ensures Latest(apt, packages, group).None? ==> forall p | p in packages :: !InGroup(apt, p, group)
    ensures Latest(apt, packages, group).Some? ==>
              var latest := Latest(apt, packages, group).value;
              && (exists q :: q in packages && InGroup(apt, q, group) && q.evr == latest)
              && forall p | p in packages && InGroup(apt, p, group) :: Compare(apt, p.evr, latest) <= 0
  {
    LatestByIsMaximum(apt, packages, p => InGroup(apt, p, group));
  }

  /** getRunningKernelPackageEVR: the first installed image of the running kernel. */
  function RunningImage(packages: seq<Package>, running: string): Option<Evr> {
    if packages == [] then None
    else if packages[0].name == "linux-image-" + TrimSpace(running) then Some(packages[0].evr)
    else RunningImage(packages[1..], running)
  }

  /** The loop of getRunningKernelPackageEVR. */
  method FindRunningImage(packages: seq<Package>, running: string) returns (image: Option<Evr>)
    ensures image == RunningImage(packages, running)
    ensures image.None? <==> forall p | p in packages :: p.name != "linux-image-" + TrimSpace(running)
  {
    var target := "linux-image-" + TrimSpace(running);
    for i := 0 to |packages|
      invariant RunningImage(packages, running) == RunningImage(packages[i..], running)
      invariant forall p | p in packages[..i] :: p.name != target
    {
      if packages[i].name == target { return Some(packages[i].evr); }
      assert packages[i..][1..] == packages[i + 1..];
    }
    return None;
  }

  /** What runs, as far as it decides whether a fix is active. */
  datatype Running = Always | Never | At(evr: Evr)

  predicate StartsWithDigit(s: string) { |s| > 0 && IsDigit(s[0]) }

  /** The case split of kernelRunningSatisfiesFixedBuild before the fixed build is looked at. */
  function RunningState(host: Host, packageName: string): Running {
    if !IsKernel(host.Apt(), packageName) then Never
    else if host.Apt() then RunningApt(host, packageName)
    else
      var parsed := ParseRunningKernel(host.runningKernel);
      if parsed.None? then Never else At(parsed.value)
  }

  function RunningApt(host: Host, packageName: string): Running {
    var running := TrimSpace(host.runningKernel);
    var fixedAbi := CutFirstPrefix(packageName, APT_KERNEL_PREFIXES).UnwrapOr(packageName);
    var image := RunningImage(host.packages, running);
    var runningEvr := ParseRunningKernelDebian(running);
    var abiEvr := ParseRunningKernelDebian(fixedAbi);
    if StartsWithDigit(fixedAbi) && StartsWithDigit(running) && runningEvr.Some? && abiEvr.Some? then
      var compared := Compare(true, runningEvr.value, abiEvr.value);
      if compared != 0 then if compared > 0 then Always else Never
      else if image.Some? then At(image.value) else Never
    else if image.Some? then At(image.value)
    else if runningEvr.None? then Never
    else At(runningEvr.value)
  }

  /** kernelRunningSatisfiesFixedBuild */
  predicate RunningSatisfies(host: Host, packageName: string, fixed: Evr) {
    match RunningState(host, packageName)
    case Always => true
    case At(evr) => Compare(host.Apt(), evr, fixed) >= 0
    case Never => false
  }

  /** isRelevantKernelPackage */
  predicate IsRelevant(host: Host, p: Package) {
    if !IsKernel(host.Apt(), p.name) then true
    else if host.Apt() then
      || (TrimSpace(host.runningKernel) != "" && Contains(p.name, TrimSpace(host.runningKernel)))
      || !IsVersionedApt(p.name)
      || IsNewest(host, p)
    else IsRunning(host, p) || IsNewest(host, p)
  }

  predicate IsRunning(host: Host, p: Package) {
    && host.runningKernel != ""
    && ParseRunningKernel(host.runningKernel).Some?
    && Compare(false, p.evr, ParseRunningKernel(host.runningKernel).value) == 0
  }

  predicate IsNewest(host: Host, p: Package) {
    var latest := Latest(host.Apt(), host.packages, Group(host.Apt(), p.name));
    latest.Some? && Compare(host.Apt(), p.evr, latest.value) >= 0
  }

  /** "At least the latest" means that no installed kernel of the group is strictly newer. */
  lemma NewestMeansNoNewer(host: Host, p: Package)
    requires p in host.packages && InGroup(host.Apt(), p, Group(host.Apt(), p.name))
    ensures IsNewest(host, p) <==>
              forall q | q in host.packages && InGroup(host.Apt(), q, Group(host.Apt(), p.name)) ::
                Compare(host.Apt(), q.evr, p.evr) <= 0
  {
    var apt, group := host.Apt(), Group(host.Apt(), p.name);
    LatestIsMaximum(apt, host.packages, group);
    var latest := Latest(apt, host.packages, group).value;
    Antisymmetric(apt, p.evr, latest);
    if IsNewest(host, p) {
      forall q | q in host.packages && InGroup(apt, q, group)
        ensures Compare(apt, q.evr, p.evr) <= 0
      {
        Transitive(apt, q.evr, latest, p.evr);
      }
    }
  }

  /** An installed RPM kernel is dropped iff a newer one of its name is installed and it is not the running one. */
  lemma RpmKernelDroppedIff(host: Host, p: Package)
    requires !host.Apt() && p in host.packages && IsKernel(false, p.name)
    ensures !IsRelevant(host, p) <==>
              && !IsRunning(host, p)
              && exists q :: q in host.packages && q.name == p.name && EvrBefore(false, p.evr, q.evr)
  {
    forall q: Package ensures Compare(false, q.evr, p.evr) > 0 <==> EvrBefore(false, p.evr, q.evr) { CompareMeaning(false, q.evr, p.evr); }
    NewestMeansNoNewer(host, p);
  }

  /** An installed APT kernel package is dropped iff it is versioned, does not name the running kernel, and is not the newest of its flavour. */
  lemma AptKernelDroppedIff(host: Host, p: Package)
    requires host.Apt() && p in host.packages && IsKernel(true, p.name)
    ensures !IsRelevant(host, p) <==>
              && IsVersionedApt(p.name)
              && !(TrimSpace(host.runningKernel) != "" && Contains(p.name, TrimSpace(host.runningKernel)))
              && exists q :: q in host.packages && IsVersionedApt(q.name) && Flavour(q.name) == Flavour(p.name) && EvrBefore(true, p.evr, q.evr)
  {
    forall q: Package ensures Compare(true, q.evr, p.evr) > 0 <==> EvrBefore(true, p.evr, q.evr) { CompareMeaning(true, q.evr, p.evr); }
    if IsVersionedApt(p.name) { NewestMeansNoNewer(host, p); }
  }

  /** Every kernel name (RPM) and every versioned flavour (APT) that is installed keeps a relevant instance. */
  lemma GroupKeepsRelevant(host: Host, p: Package) returns (kept: Package)
    requires p in host.packages && IsKernel(host.Apt(), p.name) && InGroup(host.Apt(), p, Group(host.Apt(), p.name))
    ensures kept in host.packages && InGroup(host.Apt(), kept, Group(host.Apt(), p.name)) && IsRelevant(host, kept)
    ensures Compare(host.Apt(), p.evr, kept.evr) <= 0
  {
    var apt, group := host.Apt(), Group(host.Apt(), p.name);
    LatestIsMaximum(apt, host.packages, group);
    var latest := Latest(apt, host.packages, group).value;
    kept :| kept in host.packages && InGroup(apt, kept, group) && kept.evr == latest;
    Antisymmetric(apt, latest, latest);
    assert Group(apt, kept.name) == group;
  }

  /** A running kernel that has a fix has every older fix. */
  lemma SatisfiesDownward(host: Host, packageName: string, older: Evr, newer: Evr)
    requires Compare(host.Apt(), older, newer) <= 0
    requires RunningSatisfies(host, packageName, newer)
    ensures RunningSatisfies(host, packageName, older)
  {
    if RunningState(host, packageName).At? {
      CompareMonotone(host.Apt(), older, newer, RunningState(host, packageName).evr);
    }
  }

  /** A kernel that the agent reports as running, in a string that reads back, is kept, whatever else is installed. */
  lemma ReportedKernelIsRelevant(host: Host, p: Package, arch: string)
    requires !host.Apt()
    requires Solid(p.evr.version) && Solid(p.evr.release) && Solid(arch) && KernelReadable(p.evr, arch)
    requires host.runningKernel == FormatRunningKernel(p.evr, arch)
    ensures IsRelevant(host, p)
  {
    RunningKernelRoundTrip(p.evr, arch);
    KernelLine(p.evr, arch);
    Antisymmetric(false, p.evr, p.evr);
  }

  /** It has a fix exactly if it is not below it. */
  lemma ReportedKernelSatisfiesIff(host: Host, running: Evr, arch: string, packageName: string, fixed: Evr)
    requires !host.Apt() && IsKernel(false, packageName)
    requires Solid(running.version) && Solid(running.release) && Solid(arch) && KernelReadable(running, arch)
    requires host.runningKernel == FormatRunningKernel(running, arch)
    ensures RunningSatisfies(host, packageName, fixed) <==> Compare(false, fixed, running) <= 0
  {
    RunningKernelRoundTrip(running, arch);
    Antisymmetric(false, running, fixed);
  }

  // ----- what runs on APT -----

  /** The name of a kernel package is a prefix and an ABI; a longer prefix does not fit if the ABI starts with a digit. */
  lemma AbiOfName(prefix: string, abi: string)
    requires prefix in APT_KERNEL_PREFIXES && StartsWithDigit(abi)
    ensures CutFirstPrefix(prefix + abi, APT_KERNEL_PREFIXES) == Some(abi)
  {
    var i :| 0 <= i < |APT_KERNEL_PREFIXES| && APT_KERNEL_PREFIXES[i] == prefix;
    forall j | 0 <= j < i ensures !HasPrefix(prefix + abi, APT_KERNEL_PREFIXES[j]) { PrefixesApart(i, j, abi); }
    CutAt(prefix + abi, APT_KERNEL_PREFIXES, i);
    assert (prefix + abi)[|prefix|..] == abi;
  }

  lemma {:induction false} CutAt(name: string, prefixes: seq<string>, i: nat)
    requires i < |prefixes| && HasPrefix(name, prefixes[i]) && forall j | 0 <= j < i :: !HasPrefix(name, prefixes[j])
    ensures CutFirstPrefix(name, prefixes) == Some(name[|prefixes[i]|..])
  {
    if i > 0 {
      assert prefixes[1..][i - 1] == prefixes[i];
      assert forall j | 0 <= j < i - 1 :: prefixes[1..][j] == prefixes[j + 1];
      CutAt(name, prefixes[1..], i - 1);
    }
  }

  lemma PrefixesApart(i: nat, j: nat, abi: string)
    requires j < i < |APT_KERNEL_PREFIXES| && StartsWithDigit(abi)
    ensures !HasPrefix(APT_KERNEL_PREFIXES[i] + abi, APT_KERNEL_PREFIXES[j])
  {
    var name, other := APT_KERNEL_PREFIXES[i] + abi, APT_KERNEL_PREFIXES[j];
    if i == 1 {
      assert name[12] == abi[0] && other[12] == 'u';
    } else if i == 3 && j == 2 {
      assert name[14] == abi[0] && other[14] == 'e';
    } else {
      assert name[6] == APT_KERNEL_PREFIXES[i][6] != other[6];
    }
  }

  /** A kernel release reads as the version before its first dash and the release after it. */
  ghost predicate ReadsAs(text: string, e: Evr) {
    && e.epoch == 0 && '-' !in e.version && text != ""
    && (text == e.version + "-" + e.release || (text == e.version && e.release == ""))
  }

  lemma AbiReads(text: string, e: Evr)
    requires ReadsAs(TrimSpace(text), e)
    ensures ParseRunningKernelDebian(text) == Some(e)
  {
    var trimmed := TrimSpace(text);
    if trimmed == e.version + "-" + e.release {
      assert trimmed == e.version + ['-'] + e.release;
      IndexBetween(e.version, '-', e.release);
    }
  }

  /** The first installed image of the running kernel. */
  ghost predicate ImageAt(packages: seq<Package>, running: string, i: nat) {
    && i < |packages| && packages[i].name == "linux-image-" + running
    && forall j | 0 <= j < i :: packages[j].name != "linux-image-" + running
  }

  ghost predicate HasImage(packages: seq<Package>, running: string) {
    exists p | p in packages :: p.name == "linux-image-" + running
  }

  /** That image is not before the fix. */
  ghost predicate ImageReaches(packages: seq<Package>, running: string, fixed: Evr) {
    exists i: nat :: ImageAt(packages, running, i) && !EvrBefore(true, packages[i].evr, fixed)
  }

  lemma {:induction false} ImageFound(packages: seq<Package>, running: string, i: nat)
    requires TrimSpace(running) == running && ImageAt(packages, running, i)
    ensures RunningImage(packages, running) == Some(packages[i].evr)
  {
    if i > 0 {
      assert packages[0].name != "linux-image-" + running;
      ImageFound(packages[1..], running, i - 1);
    }
  }

  lemma {:induction false} ImageMissing(packages: seq<Package>, running: string) returns (i: nat)
    requires TrimSpace(running) == running
    ensures RunningImage(packages, running).None? ==> !HasImage(packages, running)
    ensures RunningImage(packages, running).Some? ==> ImageAt(packages, running, i) && HasImage(packages, running)
  {
    i := 0;
    if packages != [] && packages[0].name != "linux-image-" + running {
      var k := ImageMissing(packages[1..], running);
      assert packages == [packages[0]] + packages[1..];
      i := k + 1;
    } else if packages != [] {
      assert packages[0] in packages;
    }
  }

  /** The image decides by its EVR. */
  lemma ImageMeaning(packages: seq<Package>, running: string, fixed: Evr)
    requires TrimSpace(running) == running
    ensures RunningImage(packages, running).Some? <==> HasImage(packages, running)
    ensures RunningImage(packages, running).Some? ==>
              (Compare(true, RunningImage(packages, running).value, fixed) >= 0 <==> ImageReaches(packages, running, fixed))
    ensures ImageReaches(packages, running, fixed) ==> HasImage(packages, running)
  {
    var i := ImageMissing(packages, running);
    forall k: nat | ImageAt(packages, running, k) ensures RunningImage(packages, running) == Some(packages[k].evr) {
      ImageFound(packages, running, k);
    }
    if RunningImage(packages, running).Some? { CompareMeaning(true, packages[i].evr, fixed); }
  }

  /** The host runs a release that starts with a digit. */
  predicate RunsRelease(host: Host) { StartsWithDigit(TrimSpace(host.runningKernel)) }

  /** By the state: a state that is an EVR has the fixes that are not after it. */
  lemma SatisfiesByState(host: Host, name: string, fixed: Evr)
    requires host.Apt() && IsKernel(true, name)
    ensures RunningSatisfies(host, name, fixed) <==>
              RunningApt(host, name).Always? || (RunningApt(host, name).At? && Compare(true, RunningApt(host, name).evr, fixed) >= 0)
  {
  }

  /**
   * On APT, for a package of some ABI and a running release: every fix is active if the running release is after the ABI,
   * none if it is before, and if they are the same exactly those that the installed image of the running release reaches.
   */
  lemma AptRunsByAbi(host: Host, prefix: string, abi: string, running: Evr, ofPackage: Evr, fixed: Evr)
    requires host.Apt() && prefix in APT_KERNEL_PREFIXES && StartsWithDigit(abi) && RunsRelease(host)
    requires ReadsAs(TrimSpace(host.runningKernel), running) && ReadsAs(TrimSpace(abi), ofPackage)
    ensures EvrBefore(true, running, ofPackage) ==> !RunningSatisfies(host, prefix + abi, fixed)
    ensures EvrBefore(true, ofPackage, running) ==> RunningSatisfies(host, prefix + abi, fixed)
    ensures EvrSame(true, running, ofPackage) ==>
              (RunningSatisfies(host, prefix + abi, fixed) <==>
                 ImageReaches(host.packages, TrimSpace(host.runningKernel), fixed))
  {
    AbiOfName(prefix, abi);
    TrimTwice(host.runningKernel);
    AbiReads(TrimSpace(host.runningKernel), running);
    AbiReads(abi, ofPackage);
    CompareMeaning(true, running, ofPackage);
    ImageMeaning(host.packages, TrimSpace(host.runningKernel), fixed);
    SatisfiesByState(host, prefix + abi, fixed);
  }

  /** Otherwise the installed image of the running release decides, else the EVR that its text reads as, else no fix is active. */
  lemma AptRunsByImage(host: Host, name: string, abi: string, running: Evr, fixed: Evr)
    requires host.Apt() && CutFirstPrefix(name, APT_KERNEL_PREFIXES) == Some(abi) && !(StartsWithDigit(abi) && RunsRelease(host))
    ensures HasImage(host.packages, TrimSpace(host.runningKernel)) ==>
              (RunningSatisfies(host, name, fixed) <==> ImageReaches(host.packages, TrimSpace(host.runningKernel), fixed))
    ensures !HasImage(host.packages, TrimSpace(host.runningKernel)) && ReadsAs(TrimSpace(host.runningKernel), running) ==>
              (RunningSatisfies(host, name, fixed) <==> !EvrBefore(true, running, fixed))
    ensures !HasImage(host.packages, TrimSpace(host.runningKernel)) && TrimSpace(host.runningKernel) == "" ==>
              !RunningSatisfies(host, name, fixed)
  {
    TrimTwice(host.runningKernel);
    ImageMeaning(host.packages, TrimSpace(host.runningKernel), fixed);
    CompareMeaning(true, running, fixed);
    if ReadsAs(TrimSpace(host.runningKernel), running) { AbiReads(TrimSpace(host.runningKernel), running); }
    SatisfiesByState(host, name, fixed);
  }

  /** A package of some ABI is a versioned kernel package, of the flavour after the last dash of the ABI. */
  lemma VersionedName(prefix: string, version: string, flavour: string)
    requires prefix in APT_KERNEL_PREFIXES && StartsWithDigit(version) && '-' !in flavour
    ensures var name := prefix + (version + "-" + flavour);
            IsKernel(true, name) && IsVersionedApt(name) && Group(true, name) == flavour
  {
    var name := prefix + (version + "-" + flavour);
    AbiOfName(prefix, version + "-" + flavour);
    assert name == (prefix + version) + ['-'] + flavour;
    LastIndexBetween(prefix + version, '-', flavour);
  }

  /** The kernel packages of RPM: the package of that name and those whose name goes on with a dash. */
  lemma RpmKernelNames(rest: string, name: string)
    ensures IsKernel(false, "kernel") && IsKernel(false, "kernel-" + rest)
    ensures IsKernel(false, name) ==> name == "kernel" || (|name| >= 7 && name[..7] == "kernel-")
  {
  }
}
