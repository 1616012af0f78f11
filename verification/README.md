# Patchbase verification

A Dafny model of the parts of Patchbase that decide whether a host is safe, and of the machinery around them:

- **Version orders** (`Digits`, `PaddedOrder`, `DebianVersion`, `RpmVersion`, `Evr`): the two hand-written comparison
  loops refine lexicographic orders on keys and token lists, so both EVR orders are total preorders.
- **Identifiers** (`GoStrings`, `Nevra`): what the agent prints and the server parses, with the exact condition under
  which each round trip returns what was printed.
- **Advisory matching** (`Inventory`, `Matching`, `Kernel`, `Decisions`, `Judgement`, `Collapse`, `HostState`,
  `Matcher`, `MapOrder`): the index join, the verdict on one package, the collapse of superseded decisions, the overall
  action and the counters, up to determinism and soundness of `buildDecisions`.
- **Events** (`Broker`, `Pump`, `Debounce`): the in-memory broker as a class, every interleaving of connections and
  publishers as a state machine, and the debounce timers of a connection as another.
- **Advisory import** (`AdvisoryImport`, `AdvisoryStore`, `ScopeSync`): `ImportAdvisoryDB` as a transformation of six
  tables and as a class that runs it row by row, and `SyncScope` as a state machine with any number of workers.

How the source is read:

- Strings are Dafny strings; the model is faithful on ASCII text. Digit runs have unbounded values. `int32` and `int64`
  limits are explicit where the source parses a number.
- Random record ids, host and snapshot ids and timestamps are dropped from decisions.
- A Go map is iterated in any order: every such loop picks its next key by an unconstrained choice, so each contract
  holds for every order.
- Source errors are `None`, `Fail` or a boolean, never preconditions. HTTP, the file system, the clock and Postgres
  failures are unconstrained steps or parameters; a checksum is an arbitrary function.
- Functions state what a loop computes; the loop itself is a method proved equal to that function, and the properties
  are proved of the function.

Where the code and its comments or the usual rules differ, the model follows the code:

- The RPM comparison has no special case for `~` and `^`; they only separate tokens.
- A negative epoch, which `parseEpoch` accepts, is not recovered from a printed identifier (`Nevra.DebianRoundTrip`,
  `Nevra.RpmRoundTrip`, `Nevra.NegativeEpochMisreads`).
- The comment on the event loop says that all debouncers stop on exit. A timer that is reset after it fired and before
  its callback has the mutex is missed (`Debounce.StopOnExitCanMiss`); `Debounce.ExitStopsAllDebouncersIff` says
  exactly when no timer is.
- Importing a file twice is importing it once except for references (`AdvisoryImport.ReferencesTwiceIff`).
- "This exact hash was successfully imported before" does not mean that it was imported last
  (`ScopeSync.FailureMakesStaleSkip`, `ScopeSync.SecondWorkerMakesStaleSkip`, `ScopeSync.UndisturbedIsLatest`).
- The candidate packages depend on the order of a Go map exactly if the first package of an instance key lacks a match
  key of another one (`Matching.OrderIrrelevantIff`), and the verdicts can then differ (`MapOrder.MapOrderDecides`).

`dafny verify dfyconfig.toml` checks the whole project.

## Model

| member | source | states |
|---|---|---|
| `Digits.DigitRunsByValue` | internal/services/matchers/matcher_debianver.go:126-144 | trim zeros, then length, then bytes compares two digit runs exactly as the unbounded numbers they write |
| `PaddedOrder.CompareMeaning` | internal/services/matchers/matcher_debianver.go:30-73 | the recursive comparison of keys is smaller, equal or greater exactly as the infinitely zero-padded keys are at their first difference |
| `PaddedOrder.CompareTransitive` | internal/services/matchers/matcher_debianver.go:30-73 | the padded order is transitive, and the whole is equal exactly if both steps are |
| `DebianVersion.CompareNonDigit` | internal/services/matchers/matcher_debianver.go:75-98 | the non-digit loop returns the order of the remaining parts at every index |
| `DebianVersion.NonDigitByWeights` | internal/services/matchers/matcher_debianver.go:75-124 | non-digit parts compare as their weights with an end mark: tilde below the end, the end below letters, letters below the rest |
| `DebianVersion.RoundOnKeys` | internal/services/matchers/matcher_debianver.go:33-71 | one round of the loop decides what the whole keys decide, or leaves it to the rest |
| `DebianVersion.ScanParts` | internal/services/matchers/matcher_debianver.go:34-64 | the scanning loops cut off the maximal non-digit part and the maximal digit part after it, and make progress |
| `DebianVersion.CompareVersionStrings` | internal/services/matchers/matcher_debianver.go:30-73 | the comparison loop terminates and computes the order on padded keys |
| `DebianVersion.VersionsByPaddedKey` | internal/services/matchers/matcher_debianver.go:30-73 | less, equal and greater are exactly first difference below, same padded key and first difference above, as in section 5.6.12 of the Debian Policy Manual |
| `DebianVersion.TextDecides` | internal/services/matchers/matcher_debianver.go:75-124 | from the text alone: where two versions first differ in a non-digit, tilde comes first, then letters by byte, then the rest by byte, whatever stands before and after |
| `DebianVersion.EndDecides` | internal/services/matchers/matcher_debianver.go:75-98 | a version that goes on with a non-digit is greater, and smaller if that is a tilde |
| `DebianVersion.NumberDecides` | internal/services/matchers/matcher_debianver.go:126-144 | where two versions first differ in a digit part, the values decide |
| `DebianVersion.NumberAgainstText` | internal/services/matchers/matcher_debianver.go:31-98 | a digit part is below any further text but a tilde |
| `RpmVersion.TrimNonAlnum` | internal/services/matchers/matcher_rpmver.go:212-223 | dropping leading separators never changes the tokens |
| `RpmVersion.NextSegment` | internal/services/matchers/matcher_rpmver.go:225-245 | the segment is the maximal run of the class of the first character, empty if that is a separator |
| `RpmVersion.CompareVersionStrings` | internal/services/matchers/matcher_rpmver.go:33-71 | the comparison loop terminates and computes the order on token lists |
| `RpmVersion.CompareTokensMeaning` | internal/services/matchers/matcher_rpmver.go:33-71 | the order is lexicographic (a proper prefix is smaller, words below numbers, words by bytes, numbers by value) and equal exactly on equal token lists |
| `RpmVersion.CompareTokensTransitive` | internal/services/matchers/matcher_rpmver.go:33-71 | the order on token lists is transitive |
| `RpmVersion.FirstDifferenceDecides` | internal/services/matchers/matcher_rpmver.go:33-71 | from the text alone: at the first segment that differs a word is below a number, words go by bytes and numbers by value, whatever stands before and after |
| `RpmVersion.LongerIsGreater` | internal/services/matchers/matcher_rpmver.go:33-71 | a version that goes on with another segment is greater |
| `Evr.CompareEvr` | internal/services/matchers/matcher_debianver.go:15-28 | the comparison through the loops is less exactly if the epoch is, or at equal epochs the version, or at equal epochs and versions the release, in the order of the package family |
| `Evr.CompareMeaning` | internal/services/matchers/matcher_rpmver.go:18-31 | less, equal and greater are before, same and after in that lexicographic order, in both families |
| `Evr.Antisymmetric` | internal/services/matchers/matcher_rpmver.go:18-31 | both EVR orders are sign-antisymmetric, hence reflexive |
| `Evr.Transitive` | internal/services/matchers/matcher_debianver.go:15-28 | both EVR orders are transitive, and equality of two steps is equality of the whole |
| `Evr.RpmEqualityByTokens` | internal/services/matchers/matcher_rpmver.go:18-71 | RPM EVRs are equal exactly if epochs and token lists are: separators matter only as token boundaries |
| `Evr.RuleMonotone` | internal/services/matchers/matcher_rpmver.go:73-100 | `<` and `<=` rules are downward closed and `>` and `>=` rules upward closed in the installed EVR, in both families |
| `Evr.RuleErrorIsStatic` | internal/services/matchers/matcher_debianver.go:303-330 | whether a rule is an error does not depend on the installed EVR |
| `Evr.RuleMeaning` | internal/services/matchers/matcher_rpmver.go:73-100 | a rule of an operator and a target is true iff the operator holds of the installed EVR and the target, and an error iff the operator is unknown or the target unreadable, in both families |
| `Nevra.FindVersionStart` | internal/services/matchers/matcher_debianver.go:244-262 | the two scanning loops find the place after the first dash that a digit follows, else the first digit, else nothing |
| `Nevra.DebianRoundTrip` | agent/internal/collector/packages.go:175-186 | for every name, version, release and architecture, white space included: parsing the APT identifier returns the printed epoch, version and release if and only if the name has no colon, the epoch is not negative, the dashes are unambiguous and the architecture suffix is readable after trimming |
| `Nevra.DpkgVersionArrives` | agent/internal/collector/packages.go:188-220 | from any dpkg version text through the agent's trim, split and print to the server's parse, with the exact condition on the text |
| `Nevra.DebianEvrReads` | internal/services/matchers/matcher_debianver.go:155-211 | a version text with epoch, version and release reads as these |
| `Nevra.PlainIdentifierReads` | internal/services/matchers/matcher_debianver.go:243-275 | an identifier without a colon reads as the version and release after the first dash that a digit follows |
| `Nevra.RpmRoundTrip` | agent/internal/collector/packages.go:113-140 | for every input: parsing the RPM identifier as the fixed NEVRA of a decision returns what was printed if and only if name, epoch, version, release and architecture satisfy the stated condition |
| `Nevra.RunningKernelRoundTrip` | agent/internal/collector/system.go:146-168 | the running-kernel parser recovers epoch, version and release from the agent's string, its `0:` trimmed, if and only if the epoch, of either sign, fits 64 bits, the release has no dash, the architecture no dot and a version without epoch is unambiguous |
| `Nevra.NegativeEpochMisreads` | internal/services/matchers/matcher_debianver.go:232-242 | a negative epoch that does not read back |
| `Nevra.DottedArchMisreads` | internal/services/matchers/matcher.go:1355-1365 | an architecture with a dot that does not read back |
| `Nevra.DashedKernelMisreads` | internal/services/matchers/matcher_rpmver.go:133-156 | a kernel version with a dash and no epoch that is taken for a package name |
| `Nevra.ArchCanPassForVersion` | internal/services/matchers/matcher_rpmver.go:133-156 | architectures with a dot and a dash for which the kernel reads back all the same, because a part of the architecture passes for version and release |
| `Matching.IndexByKeys` | internal/services/matchers/matcher.go:840-880 | under every key the index holds exactly what a scan of all items for that key finds, in order, and no empty entry |
| `Matching.PackageKeysAre` | internal/services/matchers/matcher.go:907-934 | the keys of a package are its trimmed name and source, unless blank, and the source derived from its name; the name comes first |
| `Matching.RuleAndFixKeysAre` | internal/services/matchers/matcher.go:852-880 | the keys of a rule or fix are its trimmed package name and source, unless blank |
| `Matching.KernelBinarySource` | internal/services/matchers/matcher.go:936-999 | a kernel binary derives its source from the flavour after its last dash: linux for stock flavours, linux- and the flavour for those with their own source, none otherwise |
| `Matching.SpecialBinarySource` | internal/services/matchers/matcher.go:942-944 | two binaries without a flavour belong to the stock source |
| `Matching.SameInstanceIff` | internal/services/matchers/matcher.go:1001-1007 | packages are one instance iff their NEVRAs are equal or, where both are blank, name, version, release and architecture are |
| `Matching.CandidatePackages` | internal/services/matchers/matcher.go:882-905 | for every map order, the candidates are the first package of each instance key in the order of the visit: packages filed under a key with rules or fixes, one for every instance key of such a package |
| `Matching.OrderIrrelevantIff` | internal/services/matchers/matcher.go:882-905 | the candidates are the same for every order of the visit and every set of keys with rules or fixes if and only if the first package of each instance key has all match keys of the others |
| `Matching.MatchingForKeys` | internal/services/matchers/matcher.go:1009-1039 | the lookup returns the first item of each id among those filed under the package's keys |
| `Matching.LookupIsNestedLoop` | internal/services/matchers/matcher.go:1009-1039 | these are exactly the items of resolved streams that share a match key with the package, each once by id |
| `Matching.FiledIsNestedLoop` | internal/services/matchers/matcher.go:840-905 | a package is filed under a key with rules or fixes iff a nested loop over all rules and fixes of resolved streams finds one that shares a key |
| `Kernel.LatestInstalledKernel` | internal/services/matchers/matcher.go:1376-1419 | both scans return the newest EVR of their group and report an empty group |
| `Kernel.LatestIsMaximum` | internal/services/matchers/matcher.go:1376-1419 | the newest is installed and no package of the group is above it; none only if the group is empty |
| `Kernel.FindRunningImage` | internal/services/matchers/matcher_debianver.go:332-346 | the first image package of the running kernel, none iff no package has that name |
| `Kernel.AbiOfName` | internal/services/matchers/matcher.go:1060-1077 | a kernel package name of any of the eight prefixes yields the ABI after it |
| `Kernel.VersionedName` | internal/services/matchers/matcher.go:1368-1400 | such a package is a versioned kernel of the flavour after the last dash |
| `Kernel.RpmKernelNames` | internal/services/matchers/matcher.go:1079-1084 | the kernel packages of RPM are kernel and those whose name goes on with a dash |
| `Kernel.RpmKernelDroppedIff` | internal/services/matchers/matcher.go:1111-1130 | an installed RPM kernel is dropped iff it is not the running one and a newer one of its name is installed |
| `Kernel.AptKernelDroppedIff` | internal/services/matchers/matcher.go:1091-1110 | an installed APT kernel package is dropped iff it is versioned, does not name the running kernel and its flavour has a newer one |
| `Kernel.GroupKeepsRelevant` | internal/services/matchers/matcher.go:1086-1131 | every installed kernel name or versioned flavour keeps a relevant instance that is at least as new |
| `Kernel.SatisfiesDownward` | internal/services/matchers/matcher.go:667-709 | a running kernel that has a fix has every older fix |
| `Kernel.AptRunsByAbi` | internal/services/matchers/matcher.go:673-690 | on APT, with a running release and a package ABI: every fix is active if the release is after the ABI, none if it is before, and if they are the same exactly those that the installed image of the release reaches |
| `Kernel.AptRunsByImage` | internal/services/matchers/matcher.go:692-701 | otherwise the installed image of the running release decides, else the EVR its text reads as, else no fix is active |
| `Kernel.ReportedKernelIsRelevant` | internal/services/matchers/matcher.go:1111-1127 | a kernel the agent reports as running in a string that reads back is kept, whatever else is installed |
| `Kernel.ReportedKernelSatisfiesIff` | internal/services/matchers/matcher.go:704-708 | a kernel the agent reports in a string that reads back has a fix iff the fix is not above it |
| `Decisions.SelectBestFix` | internal/services/matchers/matcher.go:780-802 | the loop returns the best fix, and an error only for no fix |
| `Decisions.BestFixIsFirstUpperBound` | internal/services/matchers/matcher.go:780-802 | the best fix is an upper bound of all fixes and the first one that is |
| `Decisions.ReduceRules` | internal/services/matchers/matcher.go:413-442 | for every map order, the survivors are exactly the rules of the reduction, each once, one per stream |
| `Decisions.ReduceStreams` | internal/services/matchers/matcher.go:413-442 | exactly one of the matched rules is left for each of their streams |
| `Decisions.SurvivorIsPreferred` | internal/services/matchers/matcher.go:421-436 | with source and binary rules and readable versions the survivor is a highest-version binary rule if there is one, else a highest-version source rule |
| `Decisions.LaterVersionSurvives` | internal/services/matchers/matcher.go:413-442 | of two rules of one stream and architecture the one that names the later version survives, in either order |
| `Decisions.ArchMeaning` | internal/services/matchers/matcher.go:1325-1339 | a rule or fix without architecture fits every package, an equal one fits, and on APT binary, source, all and any fit every package |
| `Decisions.BlankRuleMatches` | internal/services/matchers/matcher.go:734-737 | a rule without a version rule matches every installed version |
| `Decisions.RuleMatchesIff` | internal/services/matchers/matcher.go:734-749 | a rule that names an operator and a version matches iff the operator holds of the installed version and it |
| `Judgement.FindSeverity` | internal/services/matchers/matcher.go:1187-1206 | the loop computes the effective severity |
| `Judgement.InheritedSeverity` | internal/services/matchers/matcher.go:1187-1206 | an advisory without a severity takes one that a reference states and none exceeds, and none iff no reference states one |
| `Judgement.OwnSeverity` | internal/services/matchers/matcher.go:1187-1193 | an advisory that states a severity keeps it, whatever its references say |
| `Judgement.SeverityRanks` | internal/services/matchers/matcher.go:1298-1323 | critical is above important or high, above moderate or medium, above low, above every other word |
| `Judgement.ManyRulesIff` | internal/services/matchers/matcher.go:413-465 | the "multiple rules" verdict arises on APT iff the matched rules span two streams, elsewhere iff two rules match |
| `Judgement.DecidingRuleIsPreferred` | internal/services/matchers/matcher.go:413-442 | the rule that decides on APT is a matched one that no matched rule exceeds, binary before source, then by version |
| `Judgement.MatchedMeaning` | internal/services/matchers/matcher.go:721-749 | a rule matches iff its architecture fits and its version rule is true of the installed EVR |
| `Judgement.RuleErrorIff` | internal/services/matchers/matcher.go:397-406 | the verdict is an error iff a rule whose architecture fits is malformed |
| `Judgement.ConsideredMeaning` | internal/services/matchers/matcher.go:751-778 | a fix is considered iff its architecture fits and, where one rule decides, its stream is that rule's |
| `Judgement.JudgePackage` | internal/services/matchers/matcher.go:380-548 | the body of the package loop computes the verdict, errors included |
| `Judgement.JudgeIsSound` | internal/services/matchers/matcher.go:380-709 | the verdict fails iff a relevant rule is malformed, is left out iff nothing applies or the running kernel has the best fix, and otherwise is resolved, reboot or update iff the installed packages, the fixes and the kernel say so; the two investigate cases arise exactly where stated |
| `Judgement.VerdictTier` | internal/services/matchers/matcher.go:804-820 | a decision about a fix carries the weakest evidence tier of the advisory, the deciding rule, if any, and the fix |
| `Judgement.VerdictReason` | internal/services/matchers/matcher.go:443-548 | the reason of a decision and the fix it names fit its status |
| `Judgement.ResolvedIsUpwardClosed` | internal/services/matchers/matcher.go:554-631 | a package that is no kernel, once resolved by fixes alone, stays resolved for every greater installed EVR |
| `Collapse.PreferenceLaws` | internal/services/matchers/matcher.go:1246-1311 | preference is a strict weak order, total between different advisories, and never prefers a lower action priority |
| `Collapse.PreferenceMeaning` | internal/services/matchers/matcher.go:1246-1279 | a decision is not preferred to another iff the other has a more urgent action, or the same and a higher fix, or the same and a higher severity, or the same and an advisory id that is not lower |
| `Collapse.ActionOrder` | internal/services/matchers/matcher.go:1281-1296 | reboot is above restart, update, investigate, none and unknown actions, in this order |
| `Collapse.CollapseSuperseded` | internal/services/matchers/matcher.go:1208-1236 | the map and order loop computes the collapse |
| `Collapse.CollapseTwice` | internal/services/matchers/matcher.go:1208-1236 | one decision per key, keys in first-occurrence order, and collapsing again changes nothing |
| `Collapse.CollapseKeepsMaxima` | internal/services/matchers/matcher.go:1208-1279 | every decision is at most the one kept for its key, for any list |
| `Collapse.CollapseKeepsTheBest` | internal/services/matchers/matcher.go:1208-1279 | for every decision of any list, the one kept for its package instance is at least as good in this sense |
| `Collapse.HigherFixWins` | internal/services/matchers/matcher.go:1246-1264 | of two decisions of equal action on one package instance the one with the higher fix is kept, in either order |
| `Collapse.CollapseKeepsTheMostPreferred` | internal/services/matchers/matcher.go:1208-1279 | with one decision per advisory and key, the kept decisions are exactly those to which none of their key is preferred |
| `Collapse.CollapseIgnoresOrder` | internal/services/matchers/matcher.go:1208-1279 | the set of kept decisions does not depend on the order of the list |
| `HostState.OverallAction` | internal/services/matchers/matcher.go:1133-1150 | the selected action has the highest priority and is asked for by a decision unless it is none |
| `HostState.OverallIsUnique` | internal/services/matchers/matcher.go:1133-1150 | these two facts determine the overall action |
| `HostState.CollapseKeepsOverall` | internal/services/matchers/matcher.go:1133-1150 | collapsing never changes the overall action of any list, although the two priority tables differ |
| `HostState.Aggregate` | internal/services/matchers/matcher.go:282-337 | the loop computes each counter as the number of decisions it is about |
| `HostState.SeverityCounted` | internal/services/matchers/matcher.go:307-315 | critical, important or high, and moderate or medium decisions that are not resolved count, each in its counter |
| `HostState.AggregationAgrees` | internal/services/matchers/matcher.go:302-336 | actionable, no-fix and unknown add up to the unresolved decisions, and reboot, update, investigate and none hold iff the counters say so |
| `Matcher.JudgeAdvisory` | internal/services/matchers/matcher.go:367-549 | one advisory contributes only verdicts of the nested loop, and all of them on package instances when packages are settled |
| `Matcher.BuildDecisions` | internal/services/matchers/matcher.go:350-552 | every result is sound; with settled packages and distinct advisory ids it fails iff some verdict on a package instance fails and else is the set of most preferred decisions, for every map order |
| `Matcher.NonBlankIsSettled` | internal/services/matchers/matcher.go:1001-1007 | packages are settled if NEVRAs are not blank and packages that share an instance key share their match keys |
| `Matcher.DistinctAreInstances` | internal/services/matchers/matcher.go:1001-1007 | where instance keys differ, every package with a match key is an instance |
| `Matcher.OutcomeIsDetermined` | internal/services/matchers/matcher.go:350-552 | determinism: for any two orders of the advisories and any map orders, both runs fail or both return the same decisions |
| `Matcher.ResultIsSound` | internal/services/matchers/matcher.go:380-552 | every returned decision comes from an advisory tried on an installed package and says exactly what holds of it |
| `Matcher.ConsideredFixesShareAKey` | internal/services/matchers/matcher.go:867-880 | the fixes a verdict considers are the advisory's fixes for resolved streams that share a key with the package |
| `Matcher.LookedUpMeaning` | internal/services/matchers/matcher.go:852-880 | with distinct ids, the rules and fixes looked up for a package are exactly those of resolved streams that share a key with it |
| `Matcher.UnlinkedIsSkipped` | internal/services/matchers/matcher.go:711-719 | an advisory without a link to a resolved stream says nothing about any package |
| `Matcher.UnsharedIsSkipped` | internal/services/matchers/matcher.go:375-383 | nor does one about a package that shares no key with its rules and fixes, or about a kernel that is not relevant |
| `Matcher.MatchSnapshot` | internal/services/matchers/matcher.go:164-230 | no resolved stream means investigate; otherwise the counters, the decision count and the overall action are those of a sound list of decisions and agree, and with settled packages the overall action is the most urgent of all decisions made before collapsing |
| `Matcher.SummaryIsDetermined` | internal/services/matchers/matcher.go:164-345 | determinism up to the host's state: for any two orders of the advisories and any map orders, counters, decision count and overall action are the same |
| `MapOrder.MapOrderDecides` | internal/services/matchers/matcher.go:882-905 | without settled packages it fails: on one host, two entries without a NEVRA share an instance key and differ in epoch and source, and the order of the map decides which of two different verdicts is given |
| `MapOrder.FixOnlyVerdict` | internal/services/matchers/matcher.go:554-631 | an advisory with one link to a resolved stream, perhaps among others, and nothing but a fix for it asks for an update below the fix and for nothing from there on |
| `Broker.WithoutEntries` | internal/events/bus.go:90-98 | removal takes away exactly the subscriber's entries under the topics and leaves no empty topic |
| `Broker.WithEntries` | internal/events/bus.go:115-121 | registration adds exactly the subscriber's entries under the topics |
| `Broker.LocalBroker.Subscribe` | internal/events/bus.go:58-77 | the whole new state: a fresh id, an open channel, entries under exactly the topics; the broker stays valid |
| `Broker.LocalBroker.Unsubscribe` | internal/events/bus.go:79-99 | closes an open channel once and removes the named entries; the broker stays valid iff the subscriber names every topic it is registered under |
| `Broker.LocalBroker.Update` | internal/events/bus.go:101-124 | moves the subscriber to exactly the new topics; the broker stays valid iff the subscriber is live or is left without topics |
| `Broker.LocalBroker.Publish` | internal/events/bus.go:126-143 | for every map order, offers the event to exactly the channels under its topic, all of them open; a full buffer drops it |
| `Pump.UpdateTopics` | internal/ws/hub.go:409-430 | the topics after a message are the current ones with the delta added or removed, without repetition |
| `Pump.StepInv` | internal/ws/hub.go:145-242 | every step of every goroutine keeps the invariant |
| `Pump.RunsAreSafe` | internal/ws/hub.go:179-242 | in every interleaving: no send on a closed channel, no double close, no empty topic, bounded buffers, live subscribers registered under exactly their topics, finished ones gone, and events received in the order sent, for topics once subscribed |
| `Pump.PublishReachesSubscribers` | internal/events/bus.go:126-143 | delivery in every interleaving: between begin and end of a publication exactly the subscribers registered under its topic at the begin are served, each once, and each gets the event at the end of its channel unless its buffer is full |
| `Pump.OnlySendsSend` | internal/events/bus.go:126-143 | nothing but a publisher's send ever puts an event on a channel |
| `Pump.RegisteredAsAsked` | internal/ws/hub.go:145-242 | in every run, a client without a message under way is registered under exactly the topics that its messages asked for |
| `Pump.PublishTerminates` | internal/events/bus.go:126-143 | once it holds the read lock, Publish never blocks on a receiver: its own steps, at most one per subscriber and one more, bring it to its end from any reachable state |
| `Debounce.NoEventIsLost` | internal/ws/hub.go:279-341 | in every interleaving before exit, every debounced event has been followed by a push or a look at an inactive topic, or one is on its way; and there are never more of these than events |
| `Debounce.PushesAreOfActiveTopics` | internal/ws/hub.go:296-304 | in every run a push is by a callback that found its topic active, and a callback that does not push found it inactive |
| `Debounce.ExitStopsAllDebouncersIff` | internal/ws/hub.go:244-258 | for every run: the exit leaves no timer armed if and only if every timer that a callback removed from the map while it was armed has fired between that removal and the exit |
| `Debounce.OrphanStep` | internal/ws/hub.go:294-324 | in every reachable state, an armed timer is outside the map after a step exactly if a callback just removed it while armed, or it was outside before and this step is not its firing |
| `Debounce.StopOnExitCanMiss` | internal/ws/hub.go:244-258 | a run of five steps after which a timer is armed although the loop has exited |
| `AdvisoryImport.CleanClosed` | internal/services/advisory_sync.go:658-678 | on a closed store the clean-up removes only rules and fixes of the cleaned streams and leaves the store closed |
| `AdvisoryImport.ListedStreamIsWithdrawn` | internal/services/advisory_sync.go:629-678 | a stored stream of the listed vendor and major version that the file lacks is gone after the import, with its links, rules and fixes, apart from what the file has for it |
| `AdvisoryImport.OtherStreamStays` | internal/services/advisory_sync.go:629-678 | a stored stream of another vendor or major version that the file lacks is left as it was, with its links and linked rules and fixes |
| `AdvisoryImport.StreamsAfter` | internal/services/advisory_sync.go:593-852 | stream by stream and link by link: what is there after an import, from the stored vendor and major versions and the file |
| `AdvisoryImport.RowsAfter` | internal/services/advisory_sync.go:658-849 | rule by rule and fix by fix: the file's, or stored, not in the file, of a stream that stays and of an advisory that keeps a link |
| `AdvisoryImport.AdvisoriesAfter` | internal/services/advisory_sync.go:658-722 | advisory by advisory: the file's, or stored with a link to a stream that stays |
| `AdvisoryImport.ReferencesAfter` | internal/services/advisory_sync.go:658-754 | reference by reference: the file's, or stored for an advisory all of whose links stay |
| `AdvisoryImport.CleanedStreamsAreTheFiles` | internal/services/advisory_sync.go:593-852 | after an import, of any file into any store, the streams of the file and the stored ones of the listed vendor and major version hold exactly the links, rules and fixes that the file has for them |
| `AdvisoryImport.ClosedFileIsWhole` | internal/services/advisory_sync.go:593-852 | for a closed file that is the whole file |
| `AdvisoryImport.OtherStreamsAreKept` | internal/services/advisory_sync.go:593-852 | other streams keep their links, and their rules and fixes whose advisory keeps a link, except where the file reuses an id, and gain what the file has for them |
| `AdvisoryImport.ClosedStoreLasts` | internal/services/advisory_sync.go:658-678 | on a closed store every rule and fix of another stream is among these |
| `AdvisoryImport.ImportTwice` | internal/services/advisory_sync.go:593-852 | importing any file twice into any store equals once on streams, advisories, links, rules and fixes |
| `AdvisoryImport.ReferencesTwiceIff` | internal/sql/advisory_references.sql.go:14-20 | on references, for any store and file, it does so iff no stored reference outside the file belongs to an advisory that the file links to one of its streams, that other streams keep and that no cleaned stream had |
| `AdvisoryImport.ReferencesTwiceCanDiffer` | internal/sql/advisory_references.sql.go:14-20 | a store and a file for which the second import removes a reference that the first left |
| `AdvisoryImport.AcceptedKeepsForeignKeys` | internal/services/advisory_sync.go:593-852 | every accepted import, of whatever file, leaves every link, rule, fix and reference with existing rows |
| `AdvisoryImport.RunsKeepForeignKeys` | internal/services/advisory_sync.go:593-852 | so does any sequence of imports of any files, committed or rolled back, and after a committed one the cleaned streams hold exactly what its file has for them |
| `AdvisoryImport.RunsStayClosed` | internal/services/advisory_sync.go:593-852 | if all files are closed, every import commits and every advisory, rule and fix stays linked |
| `AdvisoryStore.MergeChecked` | internal/services/advisory_sync.go:724-754 | a row-by-row upsert succeeds iff every row refers to existing rows, and then merges the tables |
| `AdvisoryStore.CollectCleanup` | internal/services/advisory_sync.go:629-656 | the streams to clean are the listed ones and those of the file |
| `AdvisoryStore.Store.CleanUp` | internal/services/advisory_sync.go:658-678 | the six deletes in order, with their cascades, are the clean-up of the whole store |
| `AdvisoryStore.Store.InsertFile` | internal/services/advisory_sync.go:680-849 | the inserts succeed iff the foreign keys hold, and then are the upsert of the whole file |
| `AdvisoryStore.Store.ImportFile` | internal/services/advisory_sync.go:593-852 | the transaction either imports the whole file or leaves the store as it was, and commits iff nothing fails while reading, cleaning or committing and the foreign keys hold |
| `AdvisoryImport.ClosedIsAccepted` | internal/services/advisory_sync.go:593-852 | a closed file is never refused |
| `ScopeSync.StepInv` | internal/services/advisory_sync.go:203-446 | every step of every worker keeps: files carry the hash of their name or are empty, stored hashes were imported |
| `ScopeSync.RunsAreSound` | internal/services/advisory_sync.go:264-446 | in every interleaving of syncs an import is skipped only after an import of exactly that hash for that scope committed, every committed import read a file of the manifest's hash, and every stored hash was imported |
| `ScopeSync.SkipsIff` | internal/services/advisory_sync.go:264-304 | in every run a sync skips the import iff the manifest's hash is that of the row and the file is seen at its place, and downloads in every other case |
| `ScopeSync.OnlyPreviousFileGoes` | internal/services/advisory_sync.go:420-423 | in every run the clean-up after a commit removes exactly the file of the previous hash, if it is another one, and leaves the committed one and all others |
| `ScopeSync.SkipIsLatestIff` | internal/services/advisory_sync.go:286-304 | in every run, a skipped hash is the last one committed for its scope iff no commit of another hash for that scope follows the last commit of it |
| `ScopeSync.UndisturbedIsLatest` | internal/services/advisory_sync.go:286-446 | in every run in which a scope has one worker at a time and no sync of it fails or crashes between its commit and its mark, every skip is of the last committed hash, and the row holds that hash whenever no worker is between the two |
| `ScopeSync.FailureMakesStaleSkip` | internal/services/advisory_sync.go:298-420 | a run of one worker whose failure after a commit makes a later sync skip a hash that is not the last one committed |
| `ScopeSync.SecondWorkerMakesStaleSkip` | internal/services/advisory_sync.go:298-420 | a run without any failure in which a second worker of the scope does so |

## Left out

- HTTP handlers, middleware, CLI, configuration, mailer, dashboard and generated protobuf code: plumbing without a hard property.
- Authentication, encryption, SSH and the websocket transport: foreign libraries.
- Periodic jobs and workers: a wrapper around a scheduler that is not part of this model.
- `resolveProductStreams`, `ResolveScopeKey` and the split of a scope key into vendor and major version: short filters; the resolved streams and the listing are inputs.
- The `SELECT` queries that load advisory data for a snapshot: the catalogue is an input, grouped by advisory.
- Parsing of the split `|` lines of rpm and dpkg, upgradable-package lines and SSH reports: text scraping.
- Matcher.MatchSnapshot: does not model the stored decision rows, because inserts refused by a foreign key are skipped there and still counted.
- Matcher.BuildDecisions: promises one outcome for settled packages only: the first package of each instance key has all match keys of the others, without which the order of a map can decide (MapOrder.MapOrderDecides), and instances differ in name or NEVRA, which is a hypothesis of the proof.
- Nevra.RunningKernelRoundTrip: is stated for fields without white space, at which the agent cuts and trims rpm's answer, and not for an architecture that has both a dot and a dash, parts of which can pass for the version and release (Nevra.ArchCanPassForVersion).
- Kernel.ReportedKernelIsRelevant: is stated for kernels whose string reads back (Nevra.KernelReadable); Nevra.DashedKernelMisreads shows one whose string does not.
- Kernel.ReportedKernelSatisfiesIff: is stated for the same kernels.
- Pump.RunsAreSafe: the contents pushed to a client, pings and write timeouts are not modelled; the exit of either loop is possible at any time.
- Debounce.NoEventIsLost: time is not modelled, so the length of the debounce window is not; a timer may fire at any moment after it is armed.
- ScopeSync.RunsAreSound: assumes that only this service writes the storage directory; when the stored hash is the latest imported one is the subject of ScopeSync.UndisturbedIsLatest, which has no converse, since a disturbed run can end with the latest hash all the same.
- AdvisoryImport.ImportTwice: decision records that refer to deleted advisories or streams are not part of the tables.
- Non-ASCII text: trimming and letter tests differ there.
