/**
 The file logger.  Every change of a name is one step, before which the process may die.
 */
module LogPrune {
  import opened Options
  import opened LogFiles

  const LOG_FILE_BYTES := 10 * 1024 * 1024
  const LOG_FILE_COUNT := 5
  const LOG_MAX_AGE_MS := 7 * 24 * 60 * 60 * 1000

  datatype Outcome = Finished | Died | Threw {
    predicate IsFailure() { !Finished? }
    function PropagateFailure(): Outcome requires !Finished? { this }
  }

  class JsonlLogger {
    var files: Files
    var rotationSequence: nat
    var crashAt: Option<nat>

    constructor (files: Files, crashAt: Option<nat>)
      ensures this.files == files && this.crashAt == crashAt
    {
      this.files, this.crashAt, rotationSequence := files, crashAt, 0;
    }

    method Tick() returns (r: Outcome)
      modifies `crashAt
      ensures r == (if old(crashAt) == Some(0) then Died else Finished) && crashAt == Ticked(old(crashAt))
      ensures old(crashAt).None? ==> r.Finished? && crashAt.None?
    {
      match crashAt
      case None => r := Finished;
      case Some(k) =>
        if k == 0 {
          r := Died;
        } else {
          crashAt := Some(k - 1);
          r := Finished;
        }
    }

    method Unlink(n: Name) returns (r: Outcome)
      requires n in files
      modifies `files, `crashAt
      ensures files == if r.Finished? then old(files) - {n} else old(files)
      ensures r == (if old(crashAt) == Some(0) then Died else Finished) && crashAt == Ticked(old(crashAt))
      ensures old(crashAt).None? ==> r.Finished? && crashAt.None?
    {
      r := Tick();
      if !r.Finished? { return; }
      files := files - {n};
    }

    /** A rename may set the change time to anything. */
    method Rename(from: Name, to: Name) returns (r: Outcome)
      requires from in files && from != to
      modifies `files, `crashAt
      ensures r.Died? ==> files == old(files)
      ensures r.Finished? ==>
                to in files && files == (old(files) - {from})[to := old(files)[from].(ctime := files[to].ctime)]
      ensures r == (if old(crashAt) == Some(0) then Died else Finished) && crashAt == Ticked(old(crashAt))
      ensures old(crashAt).None? ==> r.Finished? && crashAt.None?
    {
      r := Tick();
      if !r.Finished? { return; }
      var ctime: nat := *;
      files := (files - {from})[to := files[from].(ctime := ctime)];
    }

    /** Writes a record beside its name and moves it there. */
    method PublishPruneState(final: Name, temp: Name, state: PruneState) returns (r: Outcome)
      requires !IsLog(final) && !IsLog(temp) && final != temp && !final.Quarantine? && !temp.Quarantine?
      requires final !in files && temp !in files
      modifies `files, `crashAt
      ensures !r.Threw?
      ensures r.Finished? ==> final in files && files == old(files)[final := files[final]]
                              && files[final].contents == Record(state)
      ensures r.Died? <==> old(crashAt).Some? && old(crashAt).value < 3
      ensures old(crashAt) == Some(0) ==> files == old(files)
      ensures r.Died? && old(crashAt) != Some(0) ==>
                temp in files && files == old(files)[temp := files[temp]]
                && files[temp].contents == if old(crashAt) == Some(1) then Torn else Record(state)
      ensures old(crashAt).None? ==> r.Finished? && crashAt.None?
    {
      var ino: nat := *;
      var ctime: nat := *;
      var mtime: int := *;
      :- Tick();
      files := files[temp := File(ino, ctime, mtime, Torn)];
      :- Tick();
      files := files[temp := File(ino, ctime, mtime, Record(state))];
      :- Rename(temp, final);
      r := Finished;
    }

    /** Removes one log file, if it is still the one that was observed. */
    method PruneObservedFile(name: Name, observed: Observation) returns (r: Outcome)
      requires Recoverable(files) && Quiet(files) && name in files && IsLog(name)
      modifies `files, `crashAt
      ensures Recoverable(files)
      ensures Logs(files) == Logs(old(files)) || Logs(files) == Logs(old(files)) - {name}
      ensures Observe(old(files)[name]) != observed ==> r.Finished? && files == old(files)
      ensures r.Finished? ==> Quiet(files)
      ensures r.Finished? && Observe(old(files)[name]) == observed ==> files == old(files) - {name}
      ensures !r.Threw?
      ensures old(crashAt).None? ==> r.Finished? && crashAt.None?
    {
      hide Recoverable, Logs, Observe, Size;
      var current := Observe(files[name]);
      if observed != current { return Finished; }
      ghost var was := files;
      var id: nat := *;
      var candidate := Quarantine(id); // nothing is in quarantine: a free name whatever the identifier
      var state := PruneState(name, candidate, current);
      r := PublishPruneState(State, StateTemp, state);
      if r.Died? {
        if files != was { Preparing(was, name, files[StateTemp], state); }
        return;
      }
      ghost var prepared := files[State];
      Ready(was, name, prepared, state);
      :- Rename(name, candidate);
      RenamedMatches(was[name], files[candidate].ctime);
      r := CommitPrune(was, name, prepared, candidate);
    }

    /** The second half: from the quarantine to the end. */
    method CommitPrune(ghost was: Files, name: Name, ghost prepared: File, candidate: Name) returns (r: Outcome)
      requires Recoverable(was) && Quiet(was) && name in was && IsLog(name) && candidate.Quarantine?
      requires prepared.contents == Record(PruneState(name, candidate, Observe(was[name])))
      requires candidate in files && AfterRename(Observe(files[candidate]), Observe(was[name]))
      requires files == Moved(was, name, prepared, candidate, files[candidate])
      modifies `files, `crashAt
      ensures Recoverable(files) && Logs(files) == Logs(was) - {name}
      ensures r.Finished? ==> files == was - {name} && Quiet(files)
      ensures !r.Threw?
      ensures old(crashAt).None? ==> r.Finished? && crashAt.None?
    {
      hide Recoverable, Logs, Observe, Size;
      var moved := Observe(files[candidate]);
      ghost var file := files[candidate];
      ghost var now := files;
      var state := PruneState(name, candidate, moved);
      r := PublishPruneState(Commit, CommitTemp, state);
      ghost var temp := if CommitTemp in files then files[CommitTemp] else File(0, 0, 0, Torn);
      ghost var commit := if r.Finished? then files[Commit] else File(0, 0, 0, Record(state));
      Quarantined(was, name, prepared, file, temp, commit);
      if r.Died? { return; }
      Unlinked(was, name, prepared, commit);
      Gone(was, name);
      :- Unlink(candidate);
      assert files == (was[State := prepared] - {name})[Commit := commit];
      :- Unlink(Commit);
      assert files == was[State := prepared] - {name};
      :- Unlink(State);
      assert files == was - {name};
      r := Finished;
    }

    method UnlinkObserved(n: Name, observed: Observation) returns (r: Outcome)
      requires n in files
      modifies `files, `crashAt
      ensures files == if r.Finished? then old(files) - {n} else old(files)
      ensures r.Threw? <==> Observe(old(files)[n]) != observed
      ensures old(crashAt).None? ==> !r.Died? && crashAt.None?
    {
      if Observe(files[n]) != observed { return Threw; }
      r := Unlink(n);
    }

    /** Finishes whatever a crash interrupted, or undoes it if nothing was moved yet; it gives up
        exactly on records that contradict each other or the files, and never touches a log file. */
    method RecoverPrune() returns (r: Outcome)
      modifies `files, `crashAt
      ensures Logs(files) == Logs(old(files))
      ensures old(Recoverable(files)) ==>
                Recoverable(files) && !r.Threw? && (r.Finished? ==> Quiet(files) && files == Logs(old(files)))
      ensures if Coherent(old(files)) then !r.Threw? else !r.Finished?
      ensures r.Finished? ==> files == old(files) - Involved(old(files))
      ensures r.Threw? ==> files - {StateTemp, CommitTemp} == old(files) - {StateTemp, CommitTemp}
      ensures old(crashAt).None? ==> !r.Died? && crashAt.None?
    {
      hide Recoverable, LogsOnly, Logs, Observe, Quiet, AfterRename, SameTransaction;
      ghost var was := files;
      if Recoverable(was) { Consistent(was); RecoveryKeeps(was); }
      ClearedIsCoherent(was);
      hide RecordsCoherent, IsRecord, Involved;
      :- RecoverStateTemporary();
      if State in files && !files[State].contents.Record? { return Threw; }
      var prepared := if State in files then Some(files[State].contents.state) else None;
      :- RecoverCommitTemporary(prepared);
      if Commit in files && !files[Commit].contents.Record? { return Threw; }
      var committed := if Commit in files then Some(files[Commit].contents.state) else None;
      r := FinishTransaction(prepared, committed);
      if RecordsCoherent(was) && Counting(was) in was { Removing(was); }
    }

    /** The transaction of the records, if there is one: what it names is removed from quarantine,
        and then the records, the commit first. */
    method FinishTransaction(prepared: Option<PruneState>, committed: Option<PruneState>) returns (r: Outcome)
      requires (prepared.Some? <==> State in files) && (committed.Some? <==> Commit in files)
      requires prepared.Some? ==> files[State].contents == Record(prepared.value)
      requires committed.Some? ==> files[Commit].contents == Record(committed.value)
      modifies `files, `crashAt
      ensures if RecordsCoherent(old(files)) then !r.Threw? else r.Threw?
      ensures r.Threw? ==> files == old(files)
      ensures r.Finished? ==>
                files == if prepared.None? && committed.None? then old(files)
                         else old(files) - {old(files)[Counting(old(files))].contents.state.candidate} - {Commit} - {State}
      ensures r.Died? ==>
                (prepared.Some? || committed.Some?)
                && var left := old(files) - {old(files)[Counting(old(files))].contents.state.candidate};
                   files == old(files) || files == left || files == left - {Commit}
      ensures old(crashAt).None? ==> !r.Died? && crashAt.None?
    {
      hide Observe, AfterRename, SameTransaction;
      var stats := map n | n in files :: Observe(files[n]);
      if prepared.None? && committed.None? { return Finished; }
      var transaction := if committed.Some? then committed.value else prepared.value;
      if !IsLog(transaction.original) || !transaction.candidate.Quarantine? { return Threw; }
      var candidate := transaction.candidate;
      if prepared.None? && candidate in files { return Threw; }
      if prepared.Some? && committed.Some? && !SameTransaction(prepared.value, committed.value) { return Threw; }
      if candidate in files {
        var moved := Observe(files[candidate]);
        if !(if committed.None? then AfterRename(moved, transaction.observation)
             else moved == transaction.observation) {
          return Threw;
        }
        :- Unlink(candidate);
      }
      if committed.Some? {
        :- UnlinkObserved(Commit, stats[Commit]);
      }
      if prepared.Some? {
        :- UnlinkObserved(State, stats[State]);
      }
      r := Finished;
    }

    /** However often the process dies during the recovery, the last one finishes, and the log
        files are the ones that the first crash left. */
    method Restarts(crashes: seq<nat>)
      requires Recoverable(files)
      modifies `files, `crashAt
      ensures Quiet(files) && Recoverable(files) && files == Logs(old(files))
    {
      hide Recoverable, Quiet, Logs;
      for i := 0 to |crashes|
        invariant Recoverable(files) && Logs(files) == Logs(old(files))
      {
        crashAt := Some(crashes[i]);
        var _ := RecoverPrune();
      }
      crashAt := None;
      var _ := RecoverPrune();
    }

    method RecoverStateTemporary() returns (r: Outcome)
      modifies `files, `crashAt
      ensures files == if r.Finished? then old(files) - {StateTemp} else old(files)
      ensures r.Threw? <==> !StateTempCoherent(old(files))
      ensures old(crashAt).None? ==> !r.Died? && crashAt.None?
    {
      if StateTemp !in files { return Finished; }
      if State in files || Commit in files { return Threw; }
      if files[StateTemp].contents.Record? {
        var state := files[StateTemp].contents.state;
        if !IsLog(state.original) || !state.candidate.Quarantine? || state.candidate in files { return Threw; }
      }
      r := UnlinkObserved(StateTemp, Observe(files[StateTemp]));
    }

    method RecoverCommitTemporary(prepared: Option<PruneState>) returns (r: Outcome)
      requires prepared.Some? <==> State in files
      requires prepared.Some? ==> files[State].contents == Record(prepared.value)
      modifies `files, `crashAt
      ensures files == if r.Finished? then old(files) - {CommitTemp} else old(files)
      ensures r.Threw? <==> !CommitTempCoherent(old(files))
      ensures old(crashAt).None? ==> !r.Died? && crashAt.None?
    {
      if CommitTemp !in files { return Finished; }
      if Commit in files || prepared.None? { return Threw; }
      if files[CommitTemp].contents.Record? {
        var state := files[CommitTemp].contents.state;
        if !IsLog(state.original) || !state.candidate.Quarantine? || !SameTransaction(prepared.value, state) {
          return Threw;
        }
      }
      r := UnlinkObserved(CommitTemp, Observe(files[CommitTemp]));
    }

    /** The rotated files, oldest first. */
    method Listing() returns (entries: seq<Entry>)
      ensures Lists(files, entries)
    {
      entries := [];
      var pending := RotatedNames(files);
      while pending != {}
        modifies {}
        invariant pending <= RotatedNames(files) && pending !! Names(entries)
        invariant pending + Names(entries) == RotatedNames(files)
        invariant Observed(files, entries)
        invariant forall n | n in pending :: forall e | e in entries :: e.observed.mtime <= files[n].mtime
        decreases pending
      {
        var n := Oldest(pending);
        NamesAppend(entries, Entry(n, Observe(files[n])));
        entries := entries + [Entry(n, Observe(files[n]))];
        pending := pending - {n};
      }
    }

    method Oldest(names: set<Name>) returns (oldest: Name)
      requires names != {} && names <= files.Keys
      ensures oldest in names && forall n | n in names :: files[oldest].mtime <= files[n].mtime
    {
      oldest :| oldest in names;
      var rest := names - {oldest};
      while rest != {}
        modifies {}
        invariant rest <= names && oldest in names
        invariant forall n | n in names && n !in rest :: files[oldest].mtime <= files[n].mtime
        decreases rest
      {
        var n :| n in rest;
        if files[n].mtime < files[oldest].mtime { oldest := n; }
        rest := rest - {n};
      }
    }

    /** Recovers, then deletes what is too old and, of the rest, all but the newest. */
    method Prune(now: int) returns (r: Outcome)
      requires Recoverable(files)
      modifies `files, `crashAt
      ensures Recoverable(files) && Within(Logs(files), Logs(old(files)))
      ensures r.Finished? ==> Quiet(files) && Retained(Logs(old(files)), files, now)
      ensures !r.Threw?
      ensures old(crashAt).None? ==> r.Finished? && crashAt.None?
    {
      hide Recoverable, Logs, Observe, Quiet, Retained, Observed;
      :- RecoverPrune();
      ghost var was := files;
      QuietHasLogs(was);

      var entries := Listing();
      :- PruneExpired(entries, now);
      ghost var expired := ExpiredCount(entries, now);
      ghost var left := files;
      if Active in files && Expired(files[Active].mtime, now) {
        :- PruneObservedFile(Active, Observe(files[Active]));
      }
      ghost var base := if Active in was && Expired(was[Active].mtime, now) then was - {Active} else was;
      ActiveIsNotListed(was, entries, expired);
      assert files == base - Names(entries[..expired]);
      var retained := Existing(entries, expired, base);
      :- PruneOldest(retained, entries, expired, base);
      RetainedIs(was, files, entries, Cut(|entries|, expired), now);
      r := Finished;
    }

    /** Moves the active file to a rotated name that is free; nothing is overwritten. */
    method Rotate(timestamp: nat) returns (r: Outcome)
      requires Recoverable(files) && Quiet(files)
      modifies `files, `crashAt, `rotationSequence
      ensures Recoverable(files) && Quiet(files) && !r.Threw?
      ensures r.Finished? ==> (Active in files ==> Size(files[Active]) == 0)
      ensures files == old(files) || (r.Finished? && Active in old(files) && rotationSequence > 0
              && var to := Rotated(timestamp, rotationSequence - 1);
                 to !in old(files) && to in files
                 && files == (old(files) - {Active})[to := old(files)[Active].(ctime := files[to].ctime)])
      ensures old(crashAt).None? ==> r.Finished? && crashAt.None?
    {
      if Active !in files || Size(files[Active]) == 0 { return Finished; }
      var to := Rotated(timestamp, rotationSequence);
      rotationSequence := rotationSequence + 1;
      ghost var untried := files.Keys;
      while to in files
        modifies `rotationSequence
        invariant rotationSequence > 0 && to == Rotated(timestamp, rotationSequence - 1)
        invariant forall n | n in files && n.Rotated? && n.sequence >= rotationSequence - 1 :: n in untried
        decreases untried
      {
        untried := untried - {to};
        to := Rotated(timestamp, rotationSequence);
        rotationSequence := rotationSequence + 1;
      }
      :- Rename(Active, to);
      r := Finished;
    }

    /** Appends in one write, after creating the file if need be. */
    method AppendProtected(text: string, mtime: int) returns (r: Outcome)
      requires Recoverable(files) && Quiet(files)
      modifies `files, `crashAt
      ensures Recoverable(files) && Quiet(files) && !r.Threw?
      ensures forall n | n in old(files) && !n.Active? :: n in files && files[n] == old(files)[n]
      ensures files.Keys <= old(files).Keys + {Active}
      ensures r.Finished? ==>
                Active in files && files[Active].mtime == mtime
                && files[Active].contents == Log(Text(old(files)) + text)
      ensures r.Died? ==> Text(files) == Text(old(files))
      ensures r.Died? <==> old(crashAt) == Some(0) || (old(crashAt) == Some(1) && Active !in old(files))
      ensures old(crashAt) == Some(0) ==> files == old(files)
      ensures r.Died? && old(crashAt) != Some(0) ==> Active in files && files[Active].contents == Log("")
      ensures old(crashAt).None? ==> r.Finished? && crashAt.None?
    {
      if Active !in files {
        :- Tick();
        var ino: nat := *;
        files := files[Active := File(ino, 0, mtime, Log(""))];
      }
      :- Tick();
      var ctime: nat := *;
      files := files[Active := files[Active].(contents := Log(files[Active].contents.text + text),
                                               mtime := mtime, ctime := ctime)];
      r := Finished;
    }

    /** One line, with room made before and old files dropped before and after; `moved` is the name
        the active file was given if the line did not fit. */
    method AppendLine(line: string, timestamp: nat, before: int, mtime: int, after: int)
      returns (r: Outcome, ghost moved: Option<Name>)
      requires Recoverable(files) && Bounded(files) && |line| + 1 <= LOG_FILE_BYTES
      modifies `files, `crashAt, `rotationSequence
      ensures Recoverable(files) && Bounded(files) && !r.Threw?
      ensures r.Finished? ==> Quiet(files) && |RotatedNames(files)| <= LOG_FILE_COUNT - 1
      ensures r.Finished? ==> (Active in files <==> !Expired(mtime, after))
      ensures r.Finished? && Active in files ==>
                var kept := if Active in old(files) && Expired(old(files)[Active].mtime, before) then ""
                            else Text(old(files));
                Text(files) == (if |kept| + |line| + 1 > LOG_FILE_BYTES then "" else kept) + (line + "\n")
      ensures r.Finished? ==>
                (moved.Some? <==>
                  Active in old(files) && !Expired(old(files)[Active].mtime, before)
                  && |Text(old(files))| + |line| + 1 > LOG_FILE_BYTES)
      ensures r.Finished? && moved.Some? ==>
                var active, to := old(files)[Active], moved.value;
                to.Rotated?
                && if to in files then files[to] == active.(ctime := files[to].ctime)
                   else Expired(active.mtime, after) || MadeRoom(active, files, to)
      ensures old(crashAt).None? ==> r.Finished? && crashAt.None?
    {
      hide Recoverable, Quiet, Retained, Logs, Within, RotatedNames;
      ghost var was := files;
      moved := None;
      r := Prune(before);
      AfterPrune(was, files);
      if r.Died? { return; }
      AfterRetained(was, files, before);
      var encoded := line + "\n";
      var size := if Active in files then Size(files[Active]) else 0;
      if size + |encoded| > LOG_FILE_BYTES {
        r := Rotate(timestamp);
        if r.Died? { return; }
        moved := Some(Rotated(timestamp, rotationSequence - 1));
      }
      r := AppendProtected(encoded, mtime);
      if r.Died? { return; }
      ghost var appended := files;
      r := Prune(after);
      AfterPrune(appended, files);
      if r.Finished? {
        AfterRetained(appended, files, after);
        if moved.Some? { KeptOrDropped(appended, files, after, moved.value); }
      }
    }

    method PruneExpired(entries: seq<Entry>, now: int) returns (r: Outcome)
      requires Recoverable(files) && Quiet(files) && Lists(files, entries)
      modifies `files, `crashAt
      ensures Recoverable(files) && Within(Logs(files), Logs(old(files)))
      ensures r.Finished? ==> Quiet(files) && files == old(files) - Names(entries[..ExpiredCount(entries, now)])
      ensures !r.Threw?
      ensures old(crashAt).None? ==> r.Finished? && crashAt.None?
    {
      ExpiredFirst(entries, now);
      assert Names(entries[..0]) == {};
      hide Recoverable, Logs, Observe, Quiet, Names, ExpiredCount, Observed;
      ghost var was := files;
      ghost var expired := ExpiredCount(entries, now);
      for i := 0 to |entries|
        invariant Recoverable(files) && Quiet(files) && Within(Logs(files), Logs(was))
        invariant files == was - Names(entries[..if i <= expired then i else expired])
        invariant old(crashAt).None? ==> crashAt.None?
      {
        if Expired(entries[i].observed.mtime, now) {
          Listed(was, entries, i);
          r := PruneObservedFile(entries[i].name, entries[i].observed);
          if r.Died? { return; }
        }
      }
      r := Finished;
    }

    /** The entries whose files still exist. */
    method Existing(entries: seq<Entry>, ghost from: nat, ghost base: Files) returns (retained: seq<Entry>)
      requires from <= |entries| && Observed(base, entries)
      requires files == base - Names(entries[..from])
      ensures retained == entries[from..]
    {
      retained := [];
      for i := 0 to |entries|
        invariant retained == if i <= from then [] else entries[from..i]
      {
        Listed(base, entries, i);
        if entries[i].name in files {
          retained := retained + [entries[i]];
        }
      }
    }

    method PruneOldest(retained: seq<Entry>, ghost entries: seq<Entry>, ghost from: nat, ghost base: Files)
      returns (r: Outcome)
      requires Recoverable(files) && Quiet(files) && Observed(base, entries)
      requires from <= |entries| && retained == entries[from..]
      requires files == base - Names(entries[..from])
      modifies `files, `crashAt
      ensures Recoverable(files) && Within(Logs(files), Logs(old(files)))
      ensures r.Finished? ==> Quiet(files) && files == base - Names(entries[..Cut(|entries|, from)])
      ensures !r.Threw?
      ensures old(crashAt).None? ==> r.Finished? && crashAt.None?
    {
      hide Recoverable, Logs, Observe, Quiet;
      var excess := if |retained| > LOG_FILE_COUNT - 1 then |retained| - (LOG_FILE_COUNT - 1) else 0;
      ghost var was := files;
      for i := 0 to excess
        invariant Recoverable(files) && Quiet(files) && Within(Logs(files), Logs(was))
        invariant files == base - Names(entries[..from + i])
        invariant old(crashAt).None? ==> crashAt.None?
      {
        Listed(base, entries, from + i);
        r := PruneObservedFile(retained[i].name, retained[i].observed);
        if r.Died? { return; }
      }
      r := Finished;
    }
  }

  datatype Entry = Entry(name: Name, observed: Observation)

  function RotatedNames(files: Files): set<Name> {
    set n | n in files && n.Rotated?
  }

  function Names(entries: seq<Entry>): set<Name> {
    set i | 0 <= i < |entries| :: entries[i].name
  }

  /** Each entry describes its file, no file is listed twice, and older files come first. */
  ghost predicate Observed(files: Files, entries: seq<Entry>) {
    (forall e | e in entries :: e.name in files && e.name.Rotated? && e.observed == Observe(files[e.name]))
    && (forall i, j | 0 <= i < j < |entries| ::
          entries[i].name != entries[j].name && entries[i].observed.mtime <= entries[j].observed.mtime)
  }

  ghost predicate Lists(files: Files, entries: seq<Entry>) {
    Observed(files, entries) && Names(entries) == RotatedNames(files)
  }

  lemma NamesAppend(entries: seq<Entry>, e: Entry)
    ensures Names(entries + [e]) == Names(entries) + {e.name}
  {
    var more := entries + [e];
    assert more[|entries|] == e;
    forall n | n in Names(entries) ensures n in Names(more) {
      var i :| 0 <= i < |entries| && entries[i].name == n;
      assert more[i] == entries[i];
    }
  }

  predicate Expired(mtime: int, now: int) {
    now - mtime > LOG_MAX_AGE_MS
  }

  /** Sorted by age, the expired files come first. */
  function ExpiredCount(entries: seq<Entry>, now: int): (n: nat)
    ensures n <= |entries|
  {
    if entries == [] || !Expired(entries[0].observed.mtime, now) then 0 else 1 + ExpiredCount(entries[1..], now)
  }

  /** How many of the oldest files go: the expired ones, and those beyond the limit. */
  function Cut(count: nat, expired: nat): nat {
    if count - expired > LOG_FILE_COUNT - 1 then count - (LOG_FILE_COUNT - 1) else expired
  }

  ghost predicate Within(a: Files, b: Files) {
    forall n | n in a :: n in b && a[n] == b[n]
  }

  /** Only what had to go is gone: nothing left is expired, at most so many rotated files are
      left, and an unexpired file was deleted only to make room for newer ones. */
  ghost predicate Retained(was: Files, left: Files, now: int) {
    Within(left, was)
    && (forall n | n in left :: now - left[n].mtime <= 604_800_000)
    && |RotatedNames(left)| <= 4
    && (forall n | n in was && n !in left :: now - was[n].mtime > 604_800_000 || MadeRoom(was[n], left, n))
  }

  ghost predicate MadeRoom(gone: File, left: Files, n: Name) {
    n.Rotated? && |RotatedNames(left)| == 4
    && forall m | m in left && m.Rotated? :: left[m].mtime >= gone.mtime
  }

  lemma {:induction false} ExpiredFirst(entries: seq<Entry>, now: int)
    requires forall i, j | 0 <= i < j < |entries| :: entries[i].observed.mtime <= entries[j].observed.mtime
    ensures forall i | 0 <= i < |entries| :: Expired(entries[i].observed.mtime, now) <==> i < ExpiredCount(entries, now)
  {
    if entries != [] {
      ExpiredFirst(entries[1..], now);
      assert forall i | 0 < i < |entries| :: entries[i] == entries[1..][i - 1];
    }
  }

  /** The next entry's file is still there, and pruning it removes just its name. */
  lemma Listed(files: Files, entries: seq<Entry>, i: nat)
    requires Observed(files, entries) && i < |entries|
    ensures entries[i].name in files && IsLog(entries[i].name)
    ensures entries[i].observed == Observe(files[entries[i].name])
    ensures forall k | 0 <= k <= |entries| :: entries[i].name in Names(entries[..k]) <==> i < k
    ensures Names(entries[..i + 1]) == Names(entries[..i]) + {entries[i].name}
  {
    assert entries[..i + 1] == entries[..i] + [entries[i]];
    NamesAppend(entries[..i], entries[i]);
    forall k | i < k <= |entries| ensures entries[i].name in Names(entries[..k]) {
      assert entries[..k][i] == entries[i];
    }
  }

  /** The active file is never in the listing, so removing it does not disturb the entries. */
  lemma ActiveIsNotListed(files: Files, entries: seq<Entry>, k: nat)
    requires Lists(files, entries) && k <= |entries|
    ensures Active !in Names(entries[..k]) && Active !in Names(entries)
    ensures Observed(files - {Active}, entries)
  {
    forall e | e in entries ensures e.name.Rotated? {
      var i :| 0 <= i < |entries| && entries[i] == e;
      assert e.name in Names(entries);
    }
  }

  lemma {:induction false} NamesCount(entries: seq<Entry>)
    requires forall i, j | 0 <= i < j < |entries| :: entries[i].name != entries[j].name
    ensures |Names(entries)| == |entries|
  {
    if entries != [] {
      var rest := entries[..|entries| - 1];
      var last := entries[|entries| - 1];
      NamesCount(rest);
      NamesAppend(rest, last);
      assert rest + [last] == entries;
      assert last.name !in Names(rest);
    }
  }

  lemma NamesLeft(files: Files, entries: seq<Entry>, k: nat)
    requires Lists(files, entries) && k <= |entries|
    ensures RotatedNames(files) - Names(entries[..k]) == Names(entries[k..])
    ensures |Names(entries[k..])| == |entries| - k
  {
    var kept := entries[k..];
    assert forall i | 0 <= i < |kept| :: kept[i] == entries[k + i];
    NamesCount(kept);
    forall n | n in RotatedNames(files)
      ensures n !in Names(entries[..k]) ==> n in Names(kept)
    {
      var i :| 0 <= i < |entries| && entries[i].name == n;
      if i < k {
        assert entries[..k][i].name == n;
      } else {
        assert kept[i - k].name == n;
      }
    }
    forall n | n in Names(kept) ensures n in RotatedNames(files) && n !in Names(entries[..k]) {
      var i :| 0 <= i < |kept| && kept[i].name == n;
      assert entries[k + i].name in Names(entries);
    }
  }

  /** Deleting the expired files and the oldest beyond the limit is what was promised. */
  lemma RetainedIs(was: Files, left: Files, entries: seq<Entry>, k: nat, now: int)
    requires Lists(was, entries) && forall n | n in was :: IsLog(n)
    requires k == Cut(|entries|, ExpiredCount(entries, now)) && Within(left, was)
    requires forall n | n in was ::
               n in left <==> n !in Names(entries[..k]) && !(n.Active? && Expired(was[n].mtime, now))
    ensures Retained(was, left, now)
  {
    hide Lists, ExpiredCount, Names;
    var gone := Names(entries[..k]);
    ActiveIsNotListed(was, entries, k);
    assert |RotatedNames(left)| == |entries| - k by {
      NamesLeft(was, entries, k);
      assert RotatedNames(left) == RotatedNames(was) - gone;
    }
    forall n | n in left ensures !Expired(left[n].mtime, now) {
      if n.Rotated? { var _ := EntryOf(was, entries, k, n, now); }
    }
    forall n | n in was && n !in left && !Expired(was[n].mtime, now) ensures MadeRoom(was[n], left, n) {
      hide RotatedNames;
      NewerThan(was, entries, k, n, now);
    }
  }

  lemma EntryOf(files: Files, entries: seq<Entry>, k: nat, n: Name, now: int) returns (i: nat)
    requires Lists(files, entries) && k <= |entries| && n in files && n.Rotated?
    ensures i < |entries| && entries[i].name == n && entries[i].observed.mtime == files[n].mtime
    ensures i < k <==> n in Names(entries[..k])
    ensures Expired(files[n].mtime, now) <==> i < ExpiredCount(entries, now)
  {
    ExpiredFirst(entries, now);
    assert n in Names(entries);
    i :| 0 <= i < |entries| && entries[i].name == n;
    Listed(files, entries, i);
  }

  lemma NewerThan(files: Files, entries: seq<Entry>, k: nat, n: Name, now: int)
    requires Lists(files, entries) && k <= |entries| && n in files && n.Rotated?
    requires n in Names(entries[..k]) && !Expired(files[n].mtime, now)
    ensures ExpiredCount(entries, now) < k
    ensures forall m | m in files && m.Rotated? && m !in Names(entries[..k]) :: files[m].mtime >= files[n].mtime
  {
    var i := EntryOf(files, entries, k, n, now);
    forall m | m in files && m.Rotated? && m !in Names(entries[..k]) ensures files[m].mtime >= files[n].mtime {
      var j := EntryOf(files, entries, k, m, now);
      assert i < j;
    }
  }

  function Text(files: Files): string {
    if Active in files && files[Active].contents.Log? then files[Active].contents.text else ""
  }

  /** No log file outgrows its limit. */
  ghost predicate Bounded(files: Files) {
    forall n | n in files && IsLog(n) :: Size(files[n]) <= LOG_FILE_BYTES
  }

  lemma AfterPrune(was: Files, files: Files)
    requires Within(Logs(files), Logs(was))
    ensures Bounded(was) ==> Bounded(files)
    ensures Active in files ==> Active in was && files[Active] == was[Active]
  {
    assert forall n | n in files && IsLog(n) :: n in Logs(files);
  }

  /** A log file is left as it was, or was dropped for its age or to make room. */
  lemma KeptOrDropped(was: Files, files: Files, now: int, n: Name)
    requires Retained(Logs(was), files, now) && n in was && IsLog(n)
    ensures if n in files then files[n] == was[n]
            else Expired(was[n].mtime, now) || MadeRoom(was[n], files, n)
  {
    assert n in Logs(was);
  }

  lemma AfterRetained(was: Files, files: Files, now: int)
    requires Retained(Logs(was), files, now)
    ensures |RotatedNames(files)| <= LOG_FILE_COUNT - 1
    ensures Active in files <==> Active in was && !Expired(was[Active].mtime, now)
  {
    assert Active in was ==> Active in Logs(was);
  }
}
