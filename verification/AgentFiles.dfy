/**
 The files that the replacement of one client configuration file works on, and the journal
 that describes it.

 Every step of a replacement owns the names of one `Slot`: the live target, the scratch
 directory's entries, their cleanup quarantines and the timestamped backups beside the
 target.  A name denotes a file with an inode number, so two names can be hard links of one
 file, and reading follows the source's rule that a second link is refused unless it is the
 one link the caller allows.
 */
module AgentFiles {
  import opened Options

  type Bytes = string

  datatype Image = Image(bytes: Bytes, mode: nat)

  datatype File = File(ino: nat, image: Image)

  datatype Name =
    | Target
    | Next | Previous | Archive            // entries of the scratch directory
    | QNext | QPrevious | QArchive         // their cleanup quarantines, also inside scratch
    | Backup(stamp: nat)                   // a timestamped backup beside the target
    | Orphan(id: nat)                      // a trimmed backup in a scratch directory of its own

  datatype Slot = Slot(names: map<Name, File>, scratch: bool, nextIno: nat)

  const PRIVATE_MODE: nat := 0x180 // 0o600

  predicate Same(s: Slot, m: Name, n: Name) {
    m in s.names && n in s.names && s.names[m].ino == s.names[n].ino
  }

  /** An entry of the scratch directory. */
  predicate InScratch(n: Name) {
    n in {Next, Previous, Archive, QNext, QPrevious, QArchive}
  }

  datatype Got = Unsafe | Got(image: Option<Image>) {
    predicate IsFailure() { Unsafe? }
    function PropagateFailure(): Status requires Unsafe? { Failed }
    function Extract(): Option<Image> requires Got? { image }
  }

  /** How an operation on durable state ended: it ran, the process died, or it threw. */
  datatype Status = Done | Crashed | Failed {
    predicate IsFailure() { !Done? }
    function PropagateFailure(): Status requires !Done? { this }
  }

  /** Has `n` a hard link other than itself and the one that is allowed? */
  predicate ForeignLink(s: Slot, n: Name, allowed: Option<Name>) {
    n in s.names
    && exists m | m in s.names :: m != n && Some(m) != allowed && s.names[m].ino == s.names[n].ino
  }

  function Read(s: Slot, n: Name, allowed: Option<Name>): Got {
    if n !in s.names then Got(None)
    else if ForeignLink(s, n, allowed) then Unsafe
    else Got(Some(s.names[n].image))
  }

  // The effects of the system calls.

  function Created(s: Slot, n: Name, image: Image): Slot {
    s.(names := s.names[n := File(s.nextIno, image)], nextIno := s.nextIno + 1)
  }

  function Rewritten(s: Slot, n: Name, image: Image): Slot
    requires n in s.names
  {
    var ino := s.names[n].ino;
    s.(names := map m | m in s.names :: if s.names[m].ino == ino then File(ino, image) else s.names[m])
  }

  function Chmodded(s: Slot, n: Name, mode: nat): Slot
    requires n in s.names
  {
    Rewritten(s, n, s.names[n].image.(mode := mode))
  }

  function Removed(s: Slot, n: Name): Slot {
    s.(names := s.names - {n})
  }

  function Linked(s: Slot, from: Name, to: Name): Slot
    requires from in s.names
  {
    s.(names := s.names[to := s.names[from]])
  }

  function Renamed(s: Slot, from: Name, to: Name): Slot
    requires from in s.names && from != to
  {
    Removed(Linked(s, from, to), from)
  }

  /** No other name than the given ones has come to mean another file. */
  ghost predicate Beside(s: Slot, t: Slot, changed: set<Name>) {
    forall n | n !in changed :: (n in t.names <==> n in s.names) && (n in s.names ==> t.names[n] == s.names[n])
  }

  /** A file of the scratch directory on its way out: untouched, in its quarantine, or gone. */
  predicate Passed(s: Slot, t: Slot, n: Name, quarantine: Name) {
    || ((n in s.names <==> n in t.names) && (quarantine in s.names <==> quarantine in t.names)
        && (n in s.names ==> t.names[n] == s.names[n])
        && (quarantine in s.names ==> t.names[quarantine] == s.names[quarantine]))
    || (n in s.names && n !in t.names && quarantine in t.names && t.names[quarantine] == s.names[n])
    || (n !in t.names && quarantine !in t.names)
  }

  lemma NothingPassed(s: Slot, n: Name, quarantine: Name)
    ensures Passed(s, s, n, quarantine) && Beside(s, s, {n, quarantine})
  {
  }

  lemma Passing(s: Slot, n: Name, quarantine: Name)
    requires n in s.names && quarantine !in s.names
    ensures var t := Renamed(s, n, quarantine);
            Passed(s, t, n, quarantine) && Beside(s, t, {n, quarantine})
            && Passed(s, Removed(t, quarantine), n, quarantine) && Beside(s, Removed(t, quarantine), {n, quarantine})
  {
  }

  lemma Dropping(s: Slot, n: Name, quarantine: Name)
    requires n != quarantine
    ensures n !in s.names ==> Passed(s, Removed(s, quarantine), n, quarantine)
    ensures Beside(s, Removed(s, quarantine), {n, quarantine})
  {
  }

  /** A scratch directory being emptied: each of its files passes through its quarantine, and
      nothing else is touched. */
  ghost predicate Emptying(s: Slot, t: Slot) {
    Passed(s, t, Previous, QPrevious) && Passed(s, t, Next, QNext)
    && Beside(s, t, {Previous, QPrevious, Next, QNext})
  }

  lemma PreviousPasses(s: Slot, t: Slot)
    requires Passed(s, t, Previous, QPrevious) && Beside(s, t, {Previous, QPrevious})
    ensures Emptying(s, t)
  {
  }

  lemma NextPasses(s: Slot, t: Slot, u: Slot)
    requires Passed(s, t, Previous, QPrevious) && Beside(s, t, {Previous, QPrevious})
    requires Passed(t, u, Next, QNext) && Beside(t, u, {Next, QNext})
    ensures Emptying(s, u)
  {
  }

  lemma SameNamesPass(s: Slot, t: Slot, u: Slot)
    requires Emptying(s, t) && u.names == t.names
    ensures Emptying(s, u)
  {
  }

  // The journal.

  datatype Phase = Planned | Displaced | Published

  datatype Step = Step(before: Option<Image>, after: Image, phase: Phase, backup: nat)

  datatype Owned = Owned(stamp: nat, digest: Bytes)

  datatype Entry = Entry(expected: Option<Image>, backups: seq<Owned>)

  datatype Journal = Journal(targets: seq<Entry>, pending: Option<seq<Step>>, revision: nat)

  const MAX_BACKUPS: nat := 365

  predicate Tracks(backups: seq<Owned>, stamp: nat) {
    exists k | 0 <= k < |backups| :: backups[k].stamp == stamp
  }

  predicate DistinctStamps(backups: seq<Owned>) {
    forall j, k | 0 <= j < k < |backups| :: backups[j].stamp != backups[k].stamp
  }

  /** What the store checks before it writes a document. */
  predicate Schema(j: Journal) {
    && (j.pending.Some? ==> |j.pending.value| == |j.targets|)
    && forall i | 0 <= i < |j.targets| ::
         |j.targets[i].backups| <= MAX_BACKUPS && DistinctStamps(j.targets[i].backups)
  }

  datatype Position = AtBefore | AtAfter | AtGap

  datatype Classified = Position(at: Position) | Unrecognized {
    predicate IsFailure() { Unrecognized? }
    function PropagateFailure(): Status requires Unrecognized? { Failed }
    function Extract(): Position requires Position? { at }
  }

  function Classify(s: Slot, step: Step, image: Option<Image>): Classified {
    if step.phase.Planned? && Previous !in s.names then Position(AtBefore)
    else if image == Some(step.after) then Position(AtAfter)
    else if image == step.before then Position(AtBefore)
    else if image.None? && step.before.Some? && Previous in s.names then Position(AtGap)
    else Unrecognized
  }

  function BackupEntry(backups: seq<Owned>, stamp: nat): (r: Option<Owned>)
    ensures r.Some? <==> Tracks(backups, stamp)
    ensures r.Some? ==> r.value in backups && r.value.stamp == stamp
  {
    if backups == [] then None
    else if backups[0].stamp == stamp then assert Tracks(backups, stamp); Some(backups[0])
    else
      var rest := BackupEntry(backups[1..], stamp);
      assert rest.None? ==> !Tracks(backups, stamp) by {
        assert forall k | 1 <= k < |backups| :: backups[k] == backups[1..][k - 1];
      }
      assert rest.Some? ==> Tracks(backups, stamp) by {
        assert forall k | 0 <= k < |backups[1..]| :: backups[1..][k] == backups[k + 1];
      }
      rest
  }

  /** The recorded backups whose file still has the recorded bytes. */
  function StillOwned(s: Slot, backups: seq<Owned>): (r: seq<Owned>)
    ensures |r| <= |backups| && (|r| == |backups| ==> r == backups)
    ensures forall o | o in r :: o in backups && Intact(s, o)
    ensures forall o | o in backups && Intact(s, o) :: o in r
    ensures DistinctStamps(backups) ==> DistinctStamps(r)
  {
    if backups == [] then []
    else
      var rest := StillOwned(s, backups[1..]);
      assert DistinctStamps(backups) ==> DistinctStamps(backups[1..]);
      if Intact(s, backups[0]) then
        assert DistinctStamps(backups) ==> DistinctStamps([backups[0]] + rest) by {
          if DistinctStamps(backups) {
            forall k | 0 <= k < |rest| ensures rest[k].stamp != backups[0].stamp {
              assert rest[k] in backups[1..];
            }
          }
        }
        [backups[0]] + rest
      else rest
  }

  predicate Intact(s: Slot, o: Owned) {
    var got := Read(s, Backup(o.stamp), None);
    got.Got? && got.image.Some? && got.image.value.bytes == o.digest
  }
}
