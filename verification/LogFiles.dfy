/**
 The files of one log channel and the records of a prune transaction: what every crash can leave
 behind, and what each single file operation does to it.
 */
module LogFiles {

  datatype Name =
    | Active
    | Rotated(timestamp: nat, sequence: nat)
    | StateTemp
    | State
    | CommitTemp
    | Commit
    | Quarantine(id: nat)

  datatype Observation = Observation(ino: nat, ctime: nat, mtime: int, size: nat)

  datatype PruneState = PruneState(original: Name, candidate: Name, observation: Observation)

  /** `Torn` is a record that was not written to its end. */
  datatype Contents = Log(text: string) | Record(state: PruneState) | Torn

  datatype File = File(ino: nat, ctime: nat, mtime: int, contents: Contents)

  type Files = map<Name, File>

  predicate IsLog(n: Name) {
    n.Active? || n.Rotated?
  }

  function Size(f: File): nat {
    if f.contents.Log? then |f.contents.text| else 0
  }

  function Observe(f: File): Observation {
    Observation(f.ino, f.ctime, f.mtime, Size(f))
  }

  /** A rename keeps everything but the change time. */
  predicate AfterRename(a: Observation, b: Observation) {
    a.ino == b.ino && a.mtime == b.mtime && a.size == b.size
  }

  predicate SameTransaction(prepared: PruneState, committed: PruneState) {
    prepared.original == committed.original && prepared.candidate == committed.candidate
    && AfterRename(committed.observation, prepared.observation)
  }

  /** What a reader of the log directory sees. */
  function Logs(files: Files): Files {
    map n | n in files && IsLog(n) :: files[n]
  }

  predicate IsRecord(files: Files, n: Name) {
    n in files && files[n].contents.Record?
    && IsLog(files[n].contents.state.original) && files[n].contents.state.candidate.Quarantine?
  }

  /** No transaction is under way. */
  ghost predicate Quiet(files: Files) {
    StateTemp !in files && State !in files && CommitTemp !in files && Commit !in files
    && forall n | n in files :: !n.Quarantine?
  }

  ghost predicate LogsOnly(files: Files) {
    forall n | n in files && IsLog(n) :: files[n].contents.Log?
  }

  ghost predicate CommitWritten(files: Files)
    requires IsRecord(files, State) && CommitTemp in files
  {
    files[CommitTemp].contents.Torn?
    || (IsRecord(files, CommitTemp)
        && SameTransaction(files[State].contents.state, files[CommitTemp].contents.state))
  }

  /** The prepared state names the only file that may be in quarantine, and describes it. */
  ghost predicate Prepared(files: Files) {
    IsRecord(files, State) && StateTemp !in files
    && (forall n | n in files && n.Quarantine? ::
          n == files[State].contents.state.candidate
          && AfterRename(Observe(files[n]), files[State].contents.state.observation))
    && (CommitTemp in files ==> Commit !in files && CommitWritten(files))
    && (Commit in files ==>
          IsRecord(files, Commit) && SameTransaction(files[State].contents.state, files[Commit].contents.state)
          && forall n | n in files && n.Quarantine? ::
               Observe(files[n]) == files[Commit].contents.state.observation)
  }

  /** Everything a crash can leave. */
  ghost predicate Recoverable(files: Files) {
    LogsOnly(files)
    && if State in files then Prepared(files)
       else
         CommitTemp !in files && Commit !in files && (forall n | n in files :: !n.Quarantine?)
         && (StateTemp in files ==>
               files[StateTemp].contents.Torn? || IsRecord(files, StateTemp))
  }

  lemma LogsUntouched(files: Files, n: Name, f: File)
    requires !IsLog(n)
    ensures Logs(files[n := f]) == Logs(files) && Logs(files - {n}) == Logs(files)
  {
  }

  // The stages of a prune, in terms of the files it started from.

  predicate Temporary(f: File, state: PruneState) {
    f.contents.Torn? || f.contents == Record(state)
  }

  lemma Preparing(was: Files, name: Name, temp: File, state: PruneState)
    requires Recoverable(was) && Quiet(was) && IsLog(name) && state.original == name && state.candidate.Quarantine?
    requires Temporary(temp, state)
    ensures Recoverable(was[StateTemp := temp]) && Logs(was[StateTemp := temp]) == Logs(was)
  {
    LogsUntouched(was, StateTemp, temp);
  }

  lemma Ready(was: Files, name: Name, prepared: File, state: PruneState)
    requires Recoverable(was) && Quiet(was) && IsLog(name) && name in was
    requires state.original == name && state.candidate.Quarantine? && prepared.contents == Record(state)
    ensures Recoverable(was[State := prepared]) && Logs(was[State := prepared]) == Logs(was)
  {
    LogsUntouched(was, State, prepared);
  }

  function Moved(was: Files, name: Name, prepared: File, candidate: Name, moved: File): Files {
    (was[State := prepared] - {name})[candidate := moved]
  }

  /** In quarantine, with nothing or any stage of the commit record. */
  lemma Quarantined(was: Files, name: Name, prepared: File, moved: File, temp: File, commit: File)
    requires Recoverable(was) && Quiet(was) && IsLog(name) && name in was && prepared.contents.Record?
    requires var state := prepared.contents.state;
             state.original == name && state.candidate.Quarantine?
             && state.observation == Observe(was[name])
             && AfterRename(Observe(moved), state.observation)
             && var committed := PruneState(name, state.candidate, Observe(moved));
                Temporary(temp, committed) && commit.contents == Record(committed)
    ensures var now := Moved(was, name, prepared, prepared.contents.state.candidate, moved);
            Recoverable(now) && Recoverable(now[CommitTemp := temp]) && Recoverable(now[Commit := commit])
            && Logs(now) == Logs(was) - {name}
            && Logs(now[CommitTemp := temp]) == Logs(now) && Logs(now[Commit := commit]) == Logs(now)
  {
    var now := Moved(was, name, prepared, prepared.contents.state.candidate, moved);
    LogsUntouched(now, CommitTemp, temp);
    LogsUntouched(now, Commit, commit);
    assert forall n | n in now && n.Quarantine? :: n == prepared.contents.state.candidate;
  }

  lemma Unlinked(was: Files, name: Name, prepared: File, commit: File)
    requires Recoverable(was) && Quiet(was) && IsLog(name) && name in was
    requires prepared.contents.Record? && commit.contents.Record?
    requires var state := prepared.contents.state;
             state.original == name && state.candidate.Quarantine?
             && SameTransaction(state, commit.contents.state)
    ensures var now := was[State := prepared] - {name};
            Recoverable(now) && Recoverable(now[Commit := commit])
            && Logs(now) == Logs(was) - {name} && Logs(now[Commit := commit]) == Logs(now)
  {
    LogsUntouched(was[State := prepared] - {name}, Commit, commit);
  }

  lemma Gone(was: Files, name: Name)
    requires Recoverable(was) && Quiet(was) && IsLog(name)
    ensures Recoverable(was - {name}) && Quiet(was - {name}) && Logs(was - {name}) == Logs(was) - {name}
  {
  }

  lemma RenamedMatches(f: File, ctime: nat)
    ensures AfterRename(Observe(f.(ctime := ctime)), Observe(f))
  {
  }

  // Recovery.

  /** A record that was being written belongs to no transaction yet. */
  ghost predicate StateTempCoherent(files: Files) {
    StateTemp in files ==>
      State !in files && Commit !in files
      && (files[StateTemp].contents.Record? ==>
            IsRecord(files, StateTemp) && files[StateTemp].contents.state.candidate !in files)
  }

  /** A commit that was being written is that of the prepared transaction. */
  ghost predicate CommitTempCoherent(files: Files) {
    CommitTemp in files ==>
      Commit !in files && State in files
      && (files[CommitTemp].contents.Record? && files[State].contents.Record? ==>
            IsRecord(files, CommitTemp)
            && SameTransaction(files[State].contents.state, files[CommitTemp].contents.state))
  }

  /** The records are complete, of one transaction, and describe the file in quarantine. */
  ghost predicate RecordsCoherent(files: Files) {
    (State in files ==> files[State].contents.Record?)
    && (Commit in files ==> files[Commit].contents.Record?)
    && (State in files && Commit !in files ==>
          var state := files[State].contents.state;
          IsRecord(files, State)
          && (state.candidate in files ==> AfterRename(Observe(files[state.candidate]), state.observation)))
    && (Commit in files ==>
          var state := files[Commit].contents.state;
          IsRecord(files, Commit)
          && (State in files ==> SameTransaction(files[State].contents.state, state))
          && (state.candidate in files ==> State in files && Observe(files[state.candidate]) == state.observation))
  }

  ghost predicate Coherent(files: Files) {
    StateTempCoherent(files) && CommitTempCoherent(files) && RecordsCoherent(files)
  }

  /** The records and what they name in quarantine. */
  ghost function Involved(files: Files): set<Name> {
    {StateTemp, State, CommitTemp, Commit}
    + (if IsRecord(files, State) then {files[State].contents.state.candidate} else {})
    + (if IsRecord(files, Commit) then {files[Commit].contents.state.candidate} else {})
  }

  /** What a crash leaves is coherent. */
  lemma Consistent(files: Files)
    requires Recoverable(files)
    ensures Coherent(files) && files - Involved(files) == Logs(files) && Quiet(Logs(files))
  {
    forall n | n in files - Involved(files) ensures IsLog(n) {
    }
  }

  /** The files while a recovery removes them, in the order in which it does. */
  predicate Recovering(was: Files, files: Files) {
    files == was || files == was - {StateTemp} || files == was - {StateTemp} - {CommitTemp}
    || (IsRecord(was, State)
        && var left := was - {StateTemp} - {CommitTemp} - {was[State].contents.state.candidate};
           files == left || files == left - {Commit} || files == left - {Commit} - {State})
  }

  lemma RecoveryKeeps(was: Files)
    requires Recoverable(was)
    ensures forall files | Recovering(was, files) :: Recoverable(files)
    ensures State in was ==> IsRecord(was, State)
    ensures State !in was ==> Commit !in was
    ensures Commit in was ==> was[Commit].contents.state.candidate == was[State].contents.state.candidate
  {
  }

  /** Without the records that were not finished. */
  function Cleared(was: Files): Files {
    was - {StateTemp} - {CommitTemp}
  }

  lemma ClearedIsCoherent(was: Files)
    ensures RecordsCoherent(Cleared(was)) <==> RecordsCoherent(was)
    ensures Logs(was - {StateTemp}) == Logs(was) && Logs(Cleared(was)) == Logs(was)
    ensures State !in was && Commit !in was ==> Cleared(was) == was - Involved(was)
  {
  }

  /** The record that counts: the commit, if there is one. */
  function Counting(files: Files): Name {
    if Commit in files then Commit else State
  }

  lemma Removing(was: Files)
    requires RecordsCoherent(was) && Counting(was) in was
    ensures var left := Cleared(was) - {was[Counting(was)].contents.state.candidate};
            Logs(left) == Logs(was) && Logs(left - {Commit}) == Logs(was) && Logs(left - {Commit} - {State}) == Logs(was)
            && left - {Commit} - {State} == was - Involved(was)
  {
  }

  lemma QuietHasLogs(files: Files)
    requires Quiet(files)
    ensures files == Logs(files) && forall n | n in files :: IsLog(n)
  {
  }
}
