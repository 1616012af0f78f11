/**
 * SyncScope (advisory_sync.go) as a state machine: any number of workers sync any scopes at the same time. The manifest,
 * the downloads and every error are nondeterministic; only SyncScope writes the storage directory. The checksum is an
 * arbitrary function.
 */
module ScopeSync {
  import opened GoStrings

  datatype Status = Pending | Syncing | Synced | Failed

  /** A row of advisory_scopes. */
  datatype ScopeRow = ScopeRow(status: Status, succeeded: bool, sha: Option<string>, localPath: Option<string>)

  datatype Config = Config(sum: string -> string, dir: string)

  /** Where a worker is in SyncScope, with the locals it still needs. */
  datatype Worker =
    | Idle
    | Started(scope: string)
    | Manifested(scope: string, sha: string)
    | Looked(scope: string, sha: string, current: Option<ScopeRow>)
    | Skipping(scope: string, sha: string)
    | Downloading(scope: string, sha: string, current: Option<ScopeRow>)
    | Ready(scope: string, sha: string, current: Option<ScopeRow>)
    | Rejected(scope: string)
    | Opened(scope: string, sha: string, current: Option<ScopeRow>, content: string)
    | Imported(scope: string, sha: string, current: Option<ScopeRow>)
    | CleanedUp(scope: string, sha: string)

  /** What happened, in order: committed imports with the file they read, and skipped imports. */
  datatype Entry = Commit(scope: string, sha: string, content: string) | Skip(scope: string, sha: string)

  datatype State = State(rows: map<string, ScopeRow>, files: map<string, string>, workers: map<nat, Worker>, log: seq<Entry>)

  datatype Step =
    | Demand(scope: string)
    | Trigger(scope: string)
    | Begin(w: nat, scope: string)
    | FetchManifest(w: nat, sha: string)
    | LookUp(w: nat, answered: bool)
    | Decide(w: nat, statOk: bool)
    | Download(w: nat, content: string)
    | Open(w: nat)
    | CommitImport(w: nat)
    | RemovePrevious(w: nat, removed: bool)
    | MarkSynced(w: nat)
    | Fail(w: nat)
    | Crash(w: nat)

  function Init(): State { State(map[], map[], map[], []) }

  predicate IsHex(c: char) { '0' <= c <= '9' || 'a' <= c <= 'f' || 'A' <= c <= 'F' }

  /** isValidSha256Hex */
  predicate IsValidSha(sha: string) { |sha| == 64 && forall i | 0 <= i < |sha| :: IsHex(sha[i]) }

  /** destPath */
  function DestPath(config: Config, sha: string): string { config.dir + "/advisories-" + sha + ".db" }

  lemma DestPathInjective(config: Config, a: string, b: string)
    requires DestPath(config, a) == DestPath(config, b)
    ensures a == b
  {
    var prefix := config.dir + "/advisories-";
    assert |DestPath(config, a)| == |prefix| + |a| + 3 && |DestPath(config, b)| == |prefix| + |b| + 3;
    assert a == DestPath(config, a)[|prefix|..|prefix| + |a|];
    assert b == DestPath(config, b)[|prefix|..|prefix| + |b|];
  }

  function WorkerOf(s: State, w: nat): Worker { if w in s.workers then s.workers[w] else Idle }

  /** sameHash */
  predicate SameHash(current: Option<ScopeRow>, sha: string) {
    current.Some? && current.value.sha.UnwrapOr("") == sha
  }

  predicate Enabled(config: Config, s: State, step: Step) {
    match step
    case Demand(scope) => true
    case Trigger(scope) => true
    case Begin(w, scope) => WorkerOf(s, w) == Idle && scope in s.rows
    case FetchManifest(w, sha) => WorkerOf(s, w).Started? && IsValidSha(sha)
    case LookUp(w, _) => WorkerOf(s, w).Manifested?
    case Decide(w, _) => WorkerOf(s, w).Looked?
    case Download(w, content) =>
      WorkerOf(s, w).Downloading? && content != "" && config.sum(content) == WorkerOf(s, w).sha
    case Open(w) => WorkerOf(s, w).Ready?
    case CommitImport(w) => WorkerOf(s, w).Opened?
    case RemovePrevious(w, _) => WorkerOf(s, w).Imported?
    case MarkSynced(w) => WorkerOf(s, w).CleanedUp? || WorkerOf(s, w).Skipping?
    case Fail(w) => WorkerOf(s, w) != Idle
    case Crash(w) => WorkerOf(s, w) != Idle
  }

  function Move(s: State, w: nat, worker: Worker): State { s.(workers := s.workers[w := worker]) }

  function SetStatus(s: State, scope: string, status: Status): State {
    if scope in s.rows then s.(rows := s.rows[scope := s.rows[scope].(status := status)]) else s
  }

  /** Steps 4 of SyncScope: skip, download or use the file at hand. */
  function DoDecide(config: Config, s: State, w: nat, statOk: bool): State
    requires WorkerOf(s, w).Looked?
  {
    var Looked(scope, sha, current) := WorkerOf(s, w);
    var exists_ := statOk && DestPath(config, sha) in s.files;
    var needsDownload := !exists_ || !SameHash(current, sha);
    var imported := SameHash(current, sha) && current.value.succeeded;
    if !needsDownload && imported then Move(s, w, Skipping(scope, sha)).(log := s.log + [Skip(scope, sha)])
    else if needsDownload then Move(s, w, Downloading(scope, sha, current))
    else Move(s, w, Ready(scope, sha, current))
  }

  /**
   * Step 5: opening a missing path leaves an empty file there, as SQLite does, and an empty file has no advisories table,
   * so that the worker can only fail.
   */
  function DoOpen(config: Config, s: State, w: nat): State
    requires WorkerOf(s, w).Ready?
  {
    var Ready(scope, sha, current) := WorkerOf(s, w);
    var path := DestPath(config, sha);
    var content := if path in s.files then s.files[path] else "";
    if content == "" then Move(s, w, Rejected(scope)).(files := s.files[path := ""])
    else Move(s, w, Opened(scope, sha, current, content))
  }

  /** Step 6: the previous file goes if hash and path changed; an error of the removal is ignored. */
  function DoRemovePrevious(config: Config, s: State, w: nat, removed: bool): State
    requires WorkerOf(s, w).Imported?
  {
    var Imported(scope, sha, current) := WorkerOf(s, w);
    var moved := Move(s, w, CleanedUp(scope, sha));
    if && removed && current.Some? && current.value.sha.Some? && current.value.localPath.Some?
       && current.value.sha.value != sha && current.value.localPath.value != DestPath(config, sha)
    then moved.(files := s.files - {current.value.localPath.value})
    else moved
  }

  function Apply(config: Config, s: State, step: Step): State
    requires Enabled(config, s, step)
  {
    match step
    case Demand(scope) =>
      if scope in s.rows then s else s.(rows := s.rows[scope := ScopeRow(Pending, false, None, None)])
    case Trigger(scope) =>
      if scope in s.rows then SetStatus(s, scope, Pending)
      else s.(rows := s.rows[scope := ScopeRow(Pending, false, None, None)])
    case Begin(w, scope) => SetStatus(Move(s, w, Started(scope)), scope, Syncing)
    case FetchManifest(w, sha) => Move(s, w, Manifested(WorkerOf(s, w).scope, sha))
    case LookUp(w, answered) =>
      var Manifested(scope, sha) := WorkerOf(s, w);
      Move(s, w, Looked(scope, sha, if answered && scope in s.rows then Some(s.rows[scope]) else None))
    case Decide(w, statOk) => DoDecide(config, s, w, statOk)
    case Download(w, content) =>
      var Downloading(scope, sha, current) := WorkerOf(s, w);
      Move(s, w, Ready(scope, sha, current)).(files := s.files[DestPath(config, sha) := content])
    case Open(w) => DoOpen(config, s, w)
    case CommitImport(w) =>
      var Opened(scope, sha, current, content) := WorkerOf(s, w);
      Move(s, w, Imported(scope, sha, current)).(log := s.log + [Commit(scope, sha, content)])
    case RemovePrevious(w, removed) => DoRemovePrevious(config, s, w, removed)
    case MarkSynced(w) =>
      var scope, sha := WorkerOf(s, w).scope, WorkerOf(s, w).sha;
      Move(s, w, Idle).(rows := s.rows[scope := ScopeRow(Synced, true, Some(sha), Some(DestPath(config, sha)))])
    case Fail(w) => SetStatus(Move(s, w, Idle), WorkerOf(s, w).scope, Failed)
    case Crash(w) => Move(s, w, Idle)
  }

  // ----- the invariant -----

  /** An import of exactly this hash for this scope has committed. */
  ghost predicate HasCommitted(log: seq<Entry>, scope: string, sha: string) {
    exists j | 0 <= j < |log| :: log[j].Commit? && log[j].scope == scope && log[j].sha == sha
  }

  /** A stored hash was imported. */
  ghost predicate RowOk(log: seq<Entry>, scope: string, row: ScopeRow) {
    row.sha.Some? ==> HasCommitted(log, scope, row.sha.value)
  }

  ghost predicate WorkerOk(config: Config, s: State, worker: Worker) {
    match worker
    case Manifested(_, sha) => IsValidSha(sha)
    case Looked(scope, sha, current) => IsValidSha(sha) && (current.Some? ==> RowOk(s.log, scope, current.value))
    case Skipping(scope, sha) => HasCommitted(s.log, scope, sha)
    case Opened(_, sha, _, content) => config.sum(content) == sha
    case Imported(scope, sha, _) => HasCommitted(s.log, scope, sha)
    case CleanedUp(scope, sha) => HasCommitted(s.log, scope, sha)
    case _ => true
  }

  /** A file under the name of a hash has that hash or is empty. */
  ghost predicate FilesOk(config: Config, files: map<string, string>) {
    forall sha | DestPath(config, sha) in files :: FileOk(config, sha, files[DestPath(config, sha)])
  }

  predicate FileOk(config: Config, sha: string, content: string) { content == "" || config.sum(content) == sha }

  /** A skip follows a committed import of the same hash and scope; an import read a file of the manifest's hash. */
  ghost predicate LogOk(config: Config, log: seq<Entry>) {
    forall i | 0 <= i < |log| ::
      match log[i]
      case Skip(scope, sha) => HasCommitted(log[..i], scope, sha)
      case Commit(_, sha, content) => config.sum(content) == sha
  }

  ghost predicate Inv(config: Config, s: State) {
    && FilesOk(config, s.files)
    && (forall scope | scope in s.rows :: RowOk(s.log, scope, s.rows[scope]))
    && (forall w | w in s.workers :: WorkerOk(config, s, s.workers[w]))
    && LogOk(config, s.log)
  }

  lemma CommitsStay(log: seq<Entry>, more: seq<Entry>, scope: string, sha: string)
    requires HasCommitted(log, scope, sha)
    ensures HasCommitted(log + more, scope, sha)
  {
    var j :| 0 <= j < |log| && log[j].Commit? && log[j].scope == scope && log[j].sha == sha;
    assert (log + more)[j] == log[j];
  }

  lemma LogGrows(config: Config, log: seq<Entry>, e: Entry)
    requires LogOk(config, log)
    requires match e
             case Skip(scope, sha) => HasCommitted(log, scope, sha)
             case Commit(_, sha, content) => config.sum(content) == sha
    ensures LogOk(config, log + [e])
  {
    forall i | 0 <= i < |log| + 1
      ensures match (log + [e])[i]
              case Skip(scope, sha) => HasCommitted((log + [e])[..i], scope, sha)
              case Commit(_, sha, content) => config.sum(content) == sha
    {
      assert (log + [e])[..i] == log[..i];
    }
  }

  /** Moving one worker to an acceptable place, with the log perhaps longer, keeps the other workers and the rows. */
  lemma MoveKeeps(config: Config, s: State, w: nat, worker: Worker, more: seq<Entry>)
    requires Inv(config, s) && LogOk(config, s.log + more)
    requires WorkerOk(config, s.(log := s.log + more), worker)
    ensures Inv(config, Move(s, w, worker).(log := s.log + more))
  {
    var s' := Move(s, w, worker).(log := s.log + more);
    forall scope, row: ScopeRow | RowOk(s.log, scope, row)
      ensures RowOk(s'.log, scope, row)
    {
      if row.sha.Some? { CommitsStay(s.log, more, scope, row.sha.value); }
    }
    forall v | v in s'.workers
      ensures WorkerOk(config, s', s'.workers[v])
    {
      if v != w {
        var other := s.workers[v];
        assert WorkerOk(config, s, other);
        if other.Skipping? || other.Imported? || other.CleanedUp? { CommitsStay(s.log, more, other.scope, other.sha); }
      }
    }
  }

  /** New rows, with hashes that were imported, and files that carry the hash of their name. */
  lemma StoreKeeps(config: Config, s: State, rows: map<string, ScopeRow>, files: map<string, string>)
    requires Inv(config, s) && FilesOk(config, files)
    requires forall scope | scope in rows :: RowOk(s.log, scope, rows[scope])
    ensures Inv(config, s.(rows := rows, files := files))
  {
  }

  lemma MoveAndStore(config: Config, s: State, s': State, w: nat)
    requires Inv(config, s) && w in s'.workers && WorkerOk(config, s, s'.workers[w]) && FilesOk(config, s'.files)
    requires forall scope | scope in s'.rows :: RowOk(s.log, scope, s'.rows[scope])
    requires s' == Move(s, w, s'.workers[w]).(rows := s'.rows, files := s'.files)
    ensures Inv(config, s')
  {
    assert s.log + [] == s.log;
    MoveKeeps(config, s, w, s'.workers[w], []);
    StoreKeeps(config, Move(s, w, s'.workers[w]), s'.rows, s'.files);
  }

  lemma CommitInv(config: Config, s: State, w: nat)
    requires Inv(config, s) && WorkerOf(s, w).Opened?
    ensures Inv(config, Apply(config, s, CommitImport(w)))
  {
    var Opened(scope, sha, current, content) := s.workers[w];
    var e := Commit(scope, sha, content);
    assert WorkerOk(config, s, s.workers[w]);
    LogGrows(config, s.log, e);
    assert (s.log + [e])[|s.log|] == e;
    MoveKeeps(config, s, w, Imported(scope, sha, current), [e]);
  }

  lemma FileInv(config: Config, s: State, step: Step)
    requires Inv(config, s) && Enabled(config, s, step) && (step.Download? || step.Open?)
    ensures Inv(config, Apply(config, s, step))
  {
    PutFile(config, s.files, WorkerOf(s, step.w).sha, if step.Open? then "" else step.content);
    MoveAndStore(config, s, Apply(config, s, step), step.w);
  }

  lemma StepInv(config: Config, s: State, step: Step)
    requires Inv(config, s) && Enabled(config, s, step)
    ensures Inv(config, Apply(config, s, step))
  {
    var s' := Apply(config, s, step);
    match step
    case Demand(_) => StoreKeeps(config, s, s'.rows, s'.files);
    case Trigger(_) => StoreKeeps(config, s, s'.rows, s'.files);
    case Decide(w, statOk) => DecideInv(config, s, w, statOk);
    case Download(_, _) => FileInv(config, s, step);
    case Open(_) => FileInv(config, s, step);
    case CommitImport(w) => CommitInv(config, s, w);
    case _ =>
      assert step.w in s.workers ==> WorkerOk(config, s, s.workers[step.w]);
      MoveAndStore(config, s, s', step.w);
  }

  lemma PutFile(config: Config, files: map<string, string>, sha: string, content: string)
    requires FilesOk(config, files) && FileOk(config, sha, content)
    ensures FilesOk(config, files[DestPath(config, sha) := content])
  {
    forall other | DestPath(config, other) in files[DestPath(config, sha) := content]
      ensures FileOk(config, other, files[DestPath(config, sha) := content][DestPath(config, other)])
    {
      if DestPath(config, other) == DestPath(config, sha) { DestPathInjective(config, other, sha); }
    }
  }

  lemma DecideInv(config: Config, s: State, w: nat, statOk: bool)
    requires Inv(config, s) && WorkerOf(s, w).Looked?
    ensures Inv(config, DoDecide(config, s, w, statOk))
  {
    var s' := DoDecide(config, s, w, statOk);
    var Looked(scope, sha, current) := s.workers[w];
    assert WorkerOk(config, s, s.workers[w]);
    if s'.workers[w].Skipping? {
      assert sha != "" && current.value.sha == Some(sha);
      LogGrows(config, s.log, Skip(scope, sha));
      CommitsStay(s.log, [Skip(scope, sha)], scope, sha);
      MoveKeeps(config, s, w, Skipping(scope, sha), [Skip(scope, sha)]);
    } else {
      assert s.log + [] == s.log;
      MoveKeeps(config, s, w, s'.workers[w], []);
    }
  }

  // ----- whole runs -----

  ghost predicate Next(config: Config, s: State, step: Step, t: State) {
    Enabled(config, s, step) && t == Apply(config, s, step)
  }

  ghost predicate IsPath(config: Config, steps: seq<Step>, states: seq<State>) {
    |states| == |steps| + 1 && forall i | 0 <= i < |steps| :: Next(config, states[i], steps[i], states[i + 1])
  }

  ghost predicate IsRun(config: Config, steps: seq<Step>, states: seq<State>) {
    IsPath(config, steps, states) && states[0] == Init()
  }

  lemma {:induction false} RunInv(config: Config, steps: seq<Step>, states: seq<State>, i: nat)
    requires IsRun(config, steps, states) && i < |states|
    ensures Inv(config, states[i])
  {
    if i > 0 {
      RunInv(config, steps, states, i - 1);
      StepInv(config, states[i - 1], steps[i - 1]);
    }
  }

  /**
   * In every interleaving of syncs: an import is skipped only after an import of exactly that hash for that scope
   * committed, every committed import read a file with the manifest's hash, and every stored hash was imported.
   */
  lemma RunsAreSound(config: Config, steps: seq<Step>, states: seq<State>, n: nat)
    requires IsRun(config, steps, states) && n < |states|
    ensures LogOk(config, states[n].log)
    ensures forall scope | scope in states[n].rows && states[n].rows[scope].sha.Some? ::
              HasCommitted(states[n].log, scope, states[n].rows[scope].sha.value)
  {
    RunInv(config, steps, states, n);
  }

  // ----- the files -----

  /** A row that has a hash was synced and has the path of its file, and a row without one has neither. */
  predicate PathOk(config: Config, row: ScopeRow) {
    && row.localPath == (if row.sha.None? then None else Some(DestPath(config, row.sha.value)))
    && (row.succeeded <==> row.sha.Some?) && (row.status == Synced ==> row.sha.Some?)
  }

  predicate CurrentOk(config: Config, worker: Worker) {
    match worker
    case Looked(_, _, current) => current.Some? ==> PathOk(config, current.value)
    case Downloading(_, _, current) => current.Some? ==> PathOk(config, current.value)
    case Ready(_, _, current) => current.Some? ==> PathOk(config, current.value)
    case Opened(_, _, current, _) => current.Some? ==> PathOk(config, current.value)
    case Imported(_, _, current) => current.Some? ==> PathOk(config, current.value)
    case _ => true
  }

  ghost predicate PathsOk(config: Config, s: State) {
    && (forall scope | scope in s.rows :: PathOk(config, s.rows[scope]))
    && (forall w | w in s.workers :: CurrentOk(config, s.workers[w]))
  }

  lemma PathsStep(config: Config, s: State, step: Step)
    requires PathsOk(config, s) && Enabled(config, s, step)
    ensures PathsOk(config, Apply(config, s, step))
  {
  }

  lemma {:induction false} RunPaths(config: Config, steps: seq<Step>, states: seq<State>, n: nat)
    requires IsRun(config, steps, states) && n < |states|
    ensures PathsOk(config, states[n])
  {
    if n > 0 {
      RunPaths(config, steps, states, n - 1);
      assert Next(config, states[n - 1], steps[n - 1], states[n]);
      PathsStep(config, states[n - 1], steps[n - 1]);
    }
  }

  /** The hash that the row had when the worker looked it up, if it had one. */
  function Previous(current: Option<ScopeRow>): Option<string> { if current.Some? then current.value.sha else None }

  /**
   * In every run, the clean-up after a commit removes exactly the file of the previous hash, if there was one, it is another
   * one and the removal succeeds; the file of the committed hash stays, and so does every other.
   */
  lemma OnlyPreviousFileGoes(config: Config, steps: seq<Step>, states: seq<State>, n: nat, path: string)
    requires IsRun(config, steps, states) && n < |steps| && steps[n].RemovePrevious?
    ensures WorkerOf(states[n], steps[n].w).Imported?
    ensures var Imported(_, sha, current) := WorkerOf(states[n], steps[n].w);
            && (path in states[n].files && path !in states[n + 1].files <==>
                  && path in states[n].files && steps[n].removed && Previous(current).Some?
                  && Previous(current).value != sha && path == DestPath(config, Previous(current).value))
            && (path in states[n + 1].files ==> path in states[n].files && states[n + 1].files[path] == states[n].files[path])
            && (DestPath(config, sha) in states[n].files ==> DestPath(config, sha) in states[n + 1].files)
  {
    RunPaths(config, steps, states, n);
    assert Next(config, states[n], steps[n], states[n + 1]);
    var Imported(_, sha, current) := WorkerOf(states[n], steps[n].w);
    assert CurrentOk(config, states[n].workers[steps[n].w]);
    if Previous(current).Some? && DestPath(config, Previous(current).value) == DestPath(config, sha) {
      DestPathInjective(config, Previous(current).value, sha);
    }
  }

  /**
   * In every run, a sync skips the import exactly if the manifest's hash is the one of the row it looked up and the file is
   * seen at its place; in every other case it downloads, so the branch that takes the file at hand is never entered.
   */
  lemma SkipsIff(config: Config, steps: seq<Step>, states: seq<State>, n: nat)
    requires IsRun(config, steps, states) && n < |steps| && steps[n].Decide?
    ensures WorkerOf(states[n], steps[n].w).Looked?
    ensures var Looked(scope, sha, current) := WorkerOf(states[n], steps[n].w);
            if Previous(current) == Some(sha) && steps[n].statOk && DestPath(config, sha) in states[n].files then
              WorkerOf(states[n + 1], steps[n].w) == Skipping(scope, sha) && states[n + 1].log == states[n].log + [Skip(scope, sha)]
            else
              WorkerOf(states[n + 1], steps[n].w) == Downloading(scope, sha, current) && states[n + 1].log == states[n].log
  {
    RunPaths(config, steps, states, n);
    RunInv(config, steps, states, n);
    assert Next(config, states[n], steps[n], states[n + 1]);
    assert WorkerOk(config, states[n], states[n].workers[steps[n].w]);
    assert CurrentOk(config, states[n].workers[steps[n].w]);
    assert WorkerOf(states[n], steps[n].w).sha != "";
  }

  // ----- the latest import of a scope -----

  /** The hash of the last import that committed for a scope. */
  function LastCommit(log: seq<Entry>, scope: string): Option<string> {
    if log == [] then None
    else
      var last := log[|log| - 1];
      if last.Commit? && last.scope == scope then Some(last.sha) else LastCommit(log[..|log| - 1], scope)
  }

  lemma LastCommitGrows(log: seq<Entry>, e: Entry, scope: string)
    ensures LastCommit(log + [e], scope) == if e.Commit? && e.scope == scope then Some(e.sha) else LastCommit(log, scope)
  {
  }

  /** Entry j is a commit of another hash for the scope, and no commit of this hash follows it. */
  ghost predicate Overtaken(log: seq<Entry>, scope: string, sha: string, j: nat)
    requires j < |log|
  {
    && log[j].Commit? && log[j].scope == scope && log[j].sha != sha
    && forall k | j < k < |log| :: !(log[k].Commit? && log[k].scope == scope && log[k].sha == sha)
  }

  lemma {:induction false} LastCommitMeaning(log: seq<Entry>, scope: string, sha: string)
    requires HasCommitted(log, scope, sha)
    ensures LastCommit(log, scope) == Some(sha) <==> forall j: nat | j < |log| :: !Overtaken(log, scope, sha, j)
  {
    var n := |log| - 1;
    var last := log[n];
    if last.Commit? && last.scope == scope {
      if last.sha != sha { assert Overtaken(log, scope, sha, n); }
    } else {
      assert HasCommitted(log[..n], scope, sha);
      LastCommitMeaning(log[..n], scope, sha);
      forall j: nat | j < n ensures Overtaken(log, scope, sha, j) <==> Overtaken(log[..n], scope, sha, j) {
        assert forall k | 0 <= k < n :: log[..n][k] == log[k];
      }
    }
  }

  /** In every run, a skipped hash is the last one committed for its scope iff no commit of another hash overtook it. */
  lemma SkipIsLatestIff(config: Config, steps: seq<Step>, states: seq<State>, n: nat, i: nat)
    requires IsRun(config, steps, states) && n < |states| && i < |states[n].log| && states[n].log[i].Skip?
    ensures var Skip(scope, sha) := states[n].log[i];
            var before := states[n].log[..i];
            LastCommit(before, scope) == Some(sha) <==> forall j: nat | j < i :: !Overtaken(before, scope, sha, j)
  {
    RunInv(config, steps, states, n);
    LastCommitMeaning(states[n].log[..i], states[n].log[i].scope, states[n].log[i].sha);
  }

  predicate WorksOn(s: State, w: nat, scope: string) { WorkerOf(s, w) != Idle && WorkerOf(s, w).scope == scope }

  /** The worker has committed an import that the row does not show yet. */
  predicate Unmarked(s: State, w: nat, scope: string) {
    WorksOn(s, w, scope) && (WorkerOf(s, w).Imported? || WorkerOf(s, w).CleanedUp?)
  }

  /** At most one worker syncs the scope. */
  ghost predicate OneWorker(s: State, scope: string) {
    forall v, w | WorksOn(s, v, scope) && WorksOn(s, w, scope) :: v == w
  }

  /** The step gives up a sync of the scope between its commit and its mark. */
  predicate Abandons(s: State, step: Step, scope: string) { (step.Fail? || step.Crash?) && Unmarked(s, step.w, scope) }

  /** What a worker of the scope has looked up, found or imported is the last commit. */
  predicate WorkerLatest(worker: Worker, last: Option<string>) {
    match worker
    case Looked(_, _, current) => current.Some? ==> current.value.sha == last
    case Skipping(_, sha) => Some(sha) == last
    case Imported(_, sha, _) => Some(sha) == last
    case CleanedUp(_, sha) => Some(sha) == last
    case _ => true
  }

  ghost predicate SkipsLatest(log: seq<Entry>, scope: string) {
    forall i | 0 <= i < |log| && log[i].Skip? && log[i].scope == scope :: LastCommit(log[..i], scope) == Some(log[i].sha)
  }

  ghost predicate Latest(s: State, scope: string) {
    var last := LastCommit(s.log, scope);
    && SkipsLatest(s.log, scope)
    && (scope !in s.rows ==> last == None && forall w :: !WorksOn(s, w, scope))
    && (forall w | WorksOn(s, w, scope) :: WorkerLatest(WorkerOf(s, w), last))
    && (scope in s.rows && s.rows[scope].sha != last ==> exists w :: Unmarked(s, w, scope))
  }

  lemma SkipsGrow(log: seq<Entry>, e: Entry, scope: string)
    requires SkipsLatest(log, scope)
    requires e.Skip? && e.scope == scope ==> LastCommit(log, scope) == Some(e.sha)
    ensures SkipsLatest(log + [e], scope)
  {
    forall i | 0 <= i < |log| + 1 && (log + [e])[i].Skip? && (log + [e])[i].scope == scope
      ensures LastCommit((log + [e])[..i], scope) == Some((log + [e])[i].sha)
    {
      assert (log + [e])[..i] == log[..i];
      assert log[..|log|] == log;
    }
  }

  /** One worker moves and the log may grow by its entry: what is left to show about the scope after the step. */
  lemma LatestMove(s: State, s': State, w: nat, scope: string)
    requires Latest(s, scope)
    requires forall v | v != w :: WorkerOf(s', v) == WorkerOf(s, v)
    requires s'.log == s.log && s'.rows.Keys == s.rows.Keys
    requires scope in s.rows ==> s'.rows[scope].sha == s.rows[scope].sha
    requires WorksOn(s', w, scope) ==> scope in s.rows && WorkerLatest(WorkerOf(s', w), LastCommit(s.log, scope))
    requires Unmarked(s, w, scope) ==> Unmarked(s', w, scope)
    ensures Latest(s', scope)
  {
    if scope in s'.rows && s'.rows[scope].sha != LastCommit(s'.log, scope) {
      var v :| Unmarked(s, v, scope);
      assert Unmarked(s', v, scope);
    }
    forall v | WorksOn(s', v, scope) ensures scope in s.rows && WorkerLatest(WorkerOf(s', v), LastCommit(s'.log, scope)) {
      if v != w { assert WorksOn(s, v, scope); }
    }
  }

  lemma LatestEnds(config: Config, s: State, step: Step, scope: string)
    requires Latest(s, scope) && Enabled(config, s, step) && !Abandons(s, step, scope)
    requires step.Begin? || step.Fail? || step.Crash?
    ensures Latest(Apply(config, s, step), scope)
  {
    LatestMove(s, Apply(config, s, step), step.w, scope);
  }

  /** A step of a sync that looks nothing up and logs nothing. */
  lemma LatestGoesOn(config: Config, s: State, step: Step, scope: string)
    requires Latest(s, scope) && Enabled(config, s, step)
    requires step.FetchManifest? || step.Download? || step.Open? || step.RemovePrevious?
    ensures Latest(Apply(config, s, step), scope)
  {
    assert WorksOn(s, step.w, scope) <==> WorksOn(Apply(config, s, step), step.w, scope);
    LatestMove(s, Apply(config, s, step), step.w, scope);
  }

  lemma LatestLookUp(config: Config, s: State, w: nat, answered: bool, scope: string)
    requires Latest(s, scope) && OneWorker(s, scope) && WorkerOf(s, w).Manifested?
    ensures Latest(Apply(config, s, LookUp(w, answered)), scope)
  {
    if WorkerOf(s, w).scope == scope {
      assert WorksOn(s, w, scope);
      forall v ensures !Unmarked(s, v, scope) {}
    }
    LatestMove(s, Apply(config, s, LookUp(w, answered)), w, scope);
  }

  lemma LatestDecide(config: Config, s: State, w: nat, statOk: bool, scope: string)
    requires Inv(config, s) && Latest(s, scope) && WorkerOf(s, w).Looked?
    ensures Latest(DoDecide(config, s, w, statOk), scope)
  {
    var s' := DoDecide(config, s, w, statOk);
    var sha := s.workers[w].sha;
    assert WorkerOk(config, s, s.workers[w]);
    assert WorksOn(s, w, scope) <==> s.workers[w].scope == scope;
    if s'.workers[w].Skipping? {
      var e := Skip(s.workers[w].scope, sha);
      assert sha != "";
      LastCommitGrows(s.log, e, scope);
      SkipsGrow(s.log, e, scope);
      LatestMove(s, s'.(log := s.log), w, scope);
      assert LastCommit(s'.log, scope) == LastCommit(s.log, scope);
      KeepLog(s'.(log := s.log), s', scope);
    } else {
      LatestMove(s, s', w, scope);
    }
  }

  lemma KeepLog(s: State, s': State, scope: string)
    requires Latest(s, scope) && s' == s.(log := s'.log) && SkipsLatest(s'.log, scope)
    requires LastCommit(s'.log, scope) == LastCommit(s.log, scope)
    ensures Latest(s', scope)
  {
    forall w ensures WorkerOf(s', w) == WorkerOf(s, w) {}
    if scope in s'.rows && s'.rows[scope].sha != LastCommit(s'.log, scope) {
      var v :| Unmarked(s, v, scope);
      assert Unmarked(s', v, scope);
    }
    forall w | WorksOn(s', w, scope) ensures WorkerLatest(WorkerOf(s', w), LastCommit(s'.log, scope)) {
      assert WorksOn(s, w, scope);
    }
    if scope !in s'.rows {
      forall w ensures !WorksOn(s', w, scope) { assert !WorksOn(s, w, scope); }
    }
  }

  lemma LatestCommit(config: Config, s: State, w: nat, scope: string)
    requires Latest(s, scope) && OneWorker(s, scope) && WorkerOf(s, w).Opened?
    ensures Latest(Apply(config, s, CommitImport(w)), scope)
  {
    var s' := Apply(config, s, CommitImport(w));
    var Opened(own, sha, current, content) := WorkerOf(s, w);
    var e := Commit(own, sha, content);
    LastCommitGrows(s.log, e, scope);
    SkipsGrow(s.log, e, scope);
    if own == scope {
      assert WorksOn(s, w, scope) && Unmarked(s', w, scope);
      forall v | WorksOn(s', v, scope) ensures v == w {
        assert WorksOn(s, v, scope);
      }
    } else {
      LatestMove(s, s'.(log := s.log), w, scope);
      KeepLog(s'.(log := s.log), s', scope);
    }
  }

  lemma LatestMark(config: Config, s: State, w: nat, scope: string)
    requires Latest(s, scope) && (WorkerOf(s, w).CleanedUp? || WorkerOf(s, w).Skipping?)
    ensures Latest(Apply(config, s, MarkSynced(w)), scope)
  {
    var s' := Apply(config, s, MarkSynced(w));
    if WorkerOf(s, w).scope == scope {
      assert WorksOn(s, w, scope);
      forall v | WorksOn(s', v, scope) ensures WorksOn(s, v, scope) && WorkerOf(s', v) == WorkerOf(s, v) {}
    } else if scope in s.rows {
      forall v ensures Unmarked(s, v, scope) <==> Unmarked(s', v, scope) {}
      forall v | WorksOn(s', v, scope) ensures WorksOn(s, v, scope) && WorkerOf(s', v) == WorkerOf(s, v) {}
    } else {
      forall v ensures !WorksOn(s', v, scope) { assert !WorksOn(s, v, scope); }
    }
  }

  /** A step that neither finds two workers on the scope nor abandons one of its imports keeps what is known of it. */
  lemma LatestStep(config: Config, s: State, step: Step, scope: string)
    requires Inv(config, s) && Latest(s, scope) && Enabled(config, s, step)
    requires OneWorker(s, scope) && !Abandons(s, step, scope)
    ensures Latest(Apply(config, s, step), scope)
  {
    var s' := Apply(config, s, step);
    match step
    case Demand(other) => LatestRow(s, s', other, scope);
    case Trigger(other) => LatestRow(s, s', other, scope);
    case LookUp(w, answered) => LatestLookUp(config, s, w, answered, scope);
    case Decide(w, statOk) => LatestDecide(config, s, w, statOk, scope);
    case CommitImport(w) => LatestCommit(config, s, w, scope);
    case MarkSynced(w) => LatestMark(config, s, w, scope);
    case Begin(_, _) => LatestEnds(config, s, step, scope);
    case Fail(_) => LatestEnds(config, s, step, scope);
    case Crash(_) => LatestEnds(config, s, step, scope);
    case _ => LatestGoesOn(config, s, step, scope);
  }

  lemma LatestRow(s: State, s': State, other: string, scope: string)
    requires Latest(s, scope) && s'.workers == s.workers && s'.log == s.log
    requires s'.rows.Keys == s.rows.Keys + {other}
    requires forall k | k in s.rows :: s'.rows[k].sha == s.rows[k].sha
    requires other !in s.rows ==> s'.rows[other].sha == None
    ensures Latest(s', scope)
  {
    forall w ensures WorksOn(s', w, scope) == WorksOn(s, w, scope) && Unmarked(s', w, scope) == Unmarked(s, w, scope) {}
    if scope in s.rows && s.rows[scope].sha != LastCommit(s.log, scope) {
      var v :| Unmarked(s, v, scope);
      assert Unmarked(s', v, scope);
    }
  }

  /** Up to the n-th state one worker at a time syncs the scope and none gives up between its commit and its mark. */
  ghost predicate Undisturbed(steps: seq<Step>, states: seq<State>, n: nat, scope: string)
    requires n <= |steps| < |states|
  {
    forall i | 0 <= i < n :: OneWorker(states[i], scope) && !Abandons(states[i], steps[i], scope)
  }

  lemma InitLatest(scope: string)
    ensures Latest(Init(), scope)
  {
    forall w ensures !WorksOn(Init(), w, scope) {}
  }

  lemma {:induction false} RunLatest(config: Config, steps: seq<Step>, states: seq<State>, n: nat, scope: string)
    requires IsRun(config, steps, states) && n < |states| && Undisturbed(steps, states, n, scope)
    ensures Latest(states[n], scope)
  {
    if n == 0 {
      InitLatest(scope);
    } else {
      RunLatest(config, steps, states, n - 1, scope);
      RunInv(config, steps, states, n - 1);
      assert Next(config, states[n - 1], steps[n - 1], states[n]);
      LatestStep(config, states[n - 1], steps[n - 1], scope);
    }
  }

  /**
   * Why a skip or a stored hash is ever stale: in every run in which a scope has one worker at a time and no sync of it
   * fails or crashes between its commit and its mark, every skip is of the last committed hash, and the row holds the last
   * committed hash whenever no worker is between the two.
   */
  lemma UndisturbedIsLatest(config: Config, steps: seq<Step>, states: seq<State>, n: nat, scope: string)
    requires IsRun(config, steps, states) && n < |states| && Undisturbed(steps, states, n, scope)
    ensures SkipsLatest(states[n].log, scope)
    ensures scope in states[n].rows && (forall w :: !Unmarked(states[n], w, scope)) ==>
              states[n].rows[scope].sha == LastCommit(states[n].log, scope)
  {
    RunLatest(config, steps, states, n, scope);
  }

  // ----- each cause alone makes a stale skip -----

  ghost predicate Leads(config: Config, s: State, steps: seq<Step>, t: State) {
    exists states :: IsPath(config, steps, states) && states[0] == s && states[|steps|] == t
  }

  lemma LeadsOn(config: Config, s: State, first: seq<Step>, t: State, second: seq<Step>, u: State)
    requires Leads(config, s, first, t) && Leads(config, t, second, u)
    ensures Leads(config, s, first + second, u)
  {
    var before :| IsPath(config, first, before) && before[0] == s && before[|first|] == t;
    var after :| IsPath(config, second, after) && after[0] == t && after[|second|] == u;
    var states := before + after[1..];
    forall i | 0 <= i < |first| + |second|
      ensures Next(config, states[i], (first + second)[i], states[i + 1])
    {
      if i < |first| {
        assert Next(config, before[i], first[i], before[i + 1]);
      } else {
        assert Next(config, after[i - |first|], second[i - |first|], after[i - |first| + 1]);
      }
    }
    assert IsPath(config, first + second, states);
  }

  function Sync(config: Config, w: nat, scope: string, content: string): seq<Step> {
    [Begin(w, scope), FetchManifest(w, config.sum(content)), LookUp(w, true), Decide(w, true), Download(w, content), Open(w),
     CommitImport(w)]
  }

  lemma SyncDownloads(config: Config, s: State, w: nat, scope: string, sha: string) returns (t: State)
    requires WorkerOf(s, w) == Idle && scope in s.rows && s.rows[scope].sha != Some(sha) && IsValidSha(sha)
    ensures Leads(config, s, [Begin(w, scope), FetchManifest(w, sha), LookUp(w, true), Decide(w, true)], t)
    ensures WorkerOf(t, w).Downloading? && WorkerOf(t, w).scope == scope && WorkerOf(t, w).sha == sha
    ensures forall v | v != w :: WorkerOf(t, v) == WorkerOf(s, v)
    ensures t.rows == s.rows[scope := s.rows[scope].(status := Syncing)] && t.files == s.files && t.log == s.log
  {
    var steps := [Begin(w, scope), FetchManifest(w, sha), LookUp(w, true), Decide(w, true)];
    var s1 := Apply(config, s, steps[0]);
    var s2 := Apply(config, s1, steps[1]);
    var s3 := Apply(config, s2, steps[2]);
    t := Apply(config, s3, steps[3]);
    assert IsPath(config, steps, [s, s1, s2, s3, t]);
  }

  lemma SyncImports(config: Config, s: State, w: nat, content: string) returns (t: State)
    requires WorkerOf(s, w).Downloading? && WorkerOf(s, w).sha == config.sum(content) && content != ""
    ensures Leads(config, s, [Download(w, content), Open(w), CommitImport(w)], t)
    ensures WorkerOf(t, w).Imported? && WorkerOf(t, w).scope == WorkerOf(s, w).scope
    ensures WorkerOf(t, w).sha == config.sum(content)
    ensures forall v | v != w :: WorkerOf(t, v) == WorkerOf(s, v)
    ensures t.rows == s.rows && t.files == s.files[DestPath(config, config.sum(content)) := content]
    ensures t.log == s.log + [Commit(WorkerOf(s, w).scope, config.sum(content), content)]
  {
    var steps := [Download(w, content), Open(w), CommitImport(w)];
    var s1 := Apply(config, s, steps[0]);
    var s2 := Apply(config, s1, steps[1]);
    t := Apply(config, s2, steps[2]);
    assert IsPath(config, steps, [s, s1, s2, t]);
  }

  lemma SyncCommits(config: Config, s: State, w: nat, scope: string, content: string) returns (t: State)
    requires WorkerOf(s, w) == Idle && scope in s.rows && s.rows[scope].sha != Some(config.sum(content))
    requires content != "" && IsValidSha(config.sum(content))
    ensures Leads(config, s, Sync(config, w, scope, content), t)
    ensures WorkerOf(t, w).Imported? && WorkerOf(t, w).scope == scope && WorkerOf(t, w).sha == config.sum(content)
    ensures forall v | v != w :: WorkerOf(t, v) == WorkerOf(s, v)
    ensures t.rows == s.rows[scope := s.rows[scope].(status := Syncing)]
    ensures t.files == s.files[DestPath(config, config.sum(content)) := content]
    ensures t.log == s.log + [Commit(scope, config.sum(content), content)]
  {
    var u := SyncDownloads(config, s, w, scope, config.sum(content));
    t := SyncImports(config, u, w, content);
    var first := [Begin(w, scope), FetchManifest(w, config.sum(content)), LookUp(w, true), Decide(w, true)];
    LeadsOn(config, s, first, u, [Download(w, content), Open(w), CommitImport(w)], t);
    assert Sync(config, w, scope, content) == first + [Download(w, content), Open(w), CommitImport(w)];
  }

  function Finish(w: nat): seq<Step> { [RemovePrevious(w, false), MarkSynced(w)] }

  lemma Finishes(config: Config, s: State, w: nat) returns (t: State)
    requires WorkerOf(s, w).Imported?
    ensures Leads(config, s, Finish(w), t) && WorkerOf(t, w) == Idle
    ensures forall v | v != w :: WorkerOf(t, v) == WorkerOf(s, v)
    ensures t.files == s.files && t.log == s.log
    ensures var Imported(scope, sha, _) := WorkerOf(s, w);
            t.rows == s.rows[scope := ScopeRow(Synced, true, Some(sha), Some(DestPath(config, sha)))]
  {
    var u := Apply(config, s, RemovePrevious(w, false));
    t := Apply(config, u, MarkSynced(w));
    assert IsPath(config, Finish(w), [s, u, t]);
  }

  function SkipSteps(w: nat, scope: string, sha: string): seq<Step> {
    [Begin(w, scope), FetchManifest(w, sha), LookUp(w, true), Decide(w, true)]
  }

  lemma Skips(config: Config, s: State, w: nat, scope: string, sha: string) returns (t: State)
    requires WorkerOf(s, w) == Idle && scope in s.rows && s.rows[scope].sha == Some(sha) && s.rows[scope].succeeded
    requires IsValidSha(sha) && DestPath(config, sha) in s.files
    ensures Leads(config, s, SkipSteps(w, scope, sha), t) && t.log == s.log + [Skip(scope, sha)]
  {
    var steps := SkipSteps(w, scope, sha);
    var s1 := Apply(config, s, steps[0]);
    var s2 := Apply(config, s1, steps[1]);
    var s3 := Apply(config, s2, steps[2]);
    t := Apply(config, s3, steps[3]);
    var states := [s, s1, s2, s3, t];
    assert IsPath(config, steps, states) && states[0] == s && states[|steps|] == t;
  }

  /** One file imported and marked, then another one committed but not marked. */
  function TwoCommits(config: Config, scope: string, a: string, b: string): seq<Step> {
    [Demand(scope)] + Sync(config, 0, scope, a) + Finish(0) + Sync(config, 0, scope, b)
  }

  predicate AreTwoFiles(config: Config, a: string, b: string) {
    a != "" && b != "" && IsValidSha(config.sum(a)) && IsValidSha(config.sum(b)) && config.sum(a) != config.sum(b)
  }

  lemma TwoCommitsLead(config: Config, scope: string, a: string, b: string) returns (t: State)
    requires AreTwoFiles(config, a, b)
    ensures Leads(config, Init(), TwoCommits(config, scope, a, b), t)
    ensures WorkerOf(t, 0).Imported? && WorkerOf(t, 0).scope == scope && WorkerOf(t, 1) == Idle
    ensures scope in t.rows && t.rows[scope].sha == Some(config.sum(a)) && t.rows[scope].succeeded
    ensures DestPath(config, config.sum(a)) in t.files
    ensures t.log == [Commit(scope, config.sum(a), a), Commit(scope, config.sum(b), b)]
  {
    var s := Apply(config, Init(), Demand(scope));
    assert IsPath(config, [Demand(scope)], [Init(), s]);
    var u := SyncCommits(config, s, 0, scope, a);
    LeadsOn(config, Init(), [Demand(scope)], s, Sync(config, 0, scope, a), u);
    var x := Finishes(config, u, 0);
    LeadsOn(config, Init(), [Demand(scope)] + Sync(config, 0, scope, a), u, Finish(0), x);
    t := SyncCommits(config, x, 0, scope, b);
    LeadsOn(config, Init(), [Demand(scope)] + Sync(config, 0, scope, a) + Finish(0), x, Sync(config, 0, scope, b), t);
  }

  /**
   * A failure between commit and mark, with a single worker: the manifest returns to the first file, whose import is
   * skipped although another one was committed last.
   */
  lemma FailureMakesStaleSkip(config: Config, scope: string, a: string, b: string)
    requires AreTwoFiles(config, a, b)
    ensures var steps := TwoCommits(config, scope, a, b) + [Fail(0)] + SkipSteps(0, scope, config.sum(a));
            exists states: seq<State> :: IsRun(config, steps, states) && states[|steps|].log ==
              [Commit(scope, config.sum(a), a), Commit(scope, config.sum(b), b), Skip(scope, config.sum(a))]
  {
    var t := TwoCommitsLead(config, scope, a, b);
    var u := Apply(config, t, Fail(0));
    assert IsPath(config, [Fail(0)], [t, u]);
    LeadsOn(config, Init(), TwoCommits(config, scope, a, b), t, [Fail(0)], u);
    var x := Skips(config, u, 0, scope, config.sum(a));
    LeadsOn(config, Init(), TwoCommits(config, scope, a, b) + [Fail(0)], u, SkipSteps(0, scope, config.sum(a)), x);
  }

  /** A second worker of the scope, with no failure at all: it skips while the first has committed and not yet marked. */
  lemma SecondWorkerMakesStaleSkip(config: Config, scope: string, a: string, b: string)
    requires AreTwoFiles(config, a, b)
    ensures var steps := TwoCommits(config, scope, a, b) + SkipSteps(1, scope, config.sum(a));
            exists states: seq<State> :: IsRun(config, steps, states) && states[|steps|].log ==
              [Commit(scope, config.sum(a), a), Commit(scope, config.sum(b), b), Skip(scope, config.sum(a))]
  {
    var t := TwoCommitsLead(config, scope, a, b);
    var x := Skips(config, t, 1, scope, config.sum(a));
    LeadsOn(config, Init(), TwoCommits(config, scope, a, b), t, SkipSteps(1, scope, config.sum(a)), x);
  }
}
