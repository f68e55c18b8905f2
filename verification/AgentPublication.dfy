/**
 The second half of a step: archiving the displaced original, publishing the new file and
 cleaning up, again one system call or journal write at a time.
 */
module AgentPublication {
  import opened Options
  import opened AgentFiles
  import opened AgentInvariant

  // ---- archiving the displaced original ----

  /** The original is displaced, the journal knows its image, and the target is still absent. */
  ghost predicate Archiving(c: Cell) {
    && Open(c) && c.Has(Previous) && !c.Has(Target)
    && c.step.before.Some? && c.step.before == c.past.displaced && !c.Linked(Next, Previous)
  }

  lemma RevalidatedIsArchiving(c: Cell)
    requires Open(c) && c.Has(Previous) && !c.Has(Target) && !c.Linked(Next, Previous)
    ensures Archiving(Revalidated(c)) && (Stuck(Revalidated(c)) <==> Stuck(c))
  {
  }

  lemma BeforeDisplacing(c: Cell)
    requires Open(c) && !c.Has(Previous) && c.Shows(Next, Some(c.step.after))
    ensures !c.Has(Archive) && NoQuarantine(c)
    ensures Read(c.slot, Next, Some(Target)) == Got(Some(c.step.after))
    ensures Read(c.slot, Target, Some(Next)) == Got(c.Image(Target))
    ensures Stuck(c) <==> c.Linked(Next, Target)
  {
  }

  /** `Archiving` with a complete archive stage. */
  ghost predicate Archived(c: Cell) {
    Archiving(c) && c.Shows(Archive, c.past.displaced)
  }

  lemma ArchiveRead(c: Cell)
    requires Archiving(c)
    ensures c.Image(Previous) == c.step.before
    ensures Read(c.slot, Archive, Some(Backup(c.step.backup))) == Got(c.Image(Archive))
    ensures c.Has(Archive) && !c.Shows(Archive, c.past.displaced) ==> Stuck(c)
  {
  }

  lemma ArchiveWritten(c: Cell, mode: nat)
    requires Archiving(c) && !c.Has(Archive)
    ensures var c' := c.At(Created(c.slot, Archive, Image(c.step.before.value.bytes, mode)));
            Archiving(c') && (Stuck(c) ==> Stuck(c'))
  {
    CreatedWf(c.slot, Archive, Image(c.step.before.value.bytes, mode));
  }

  /** A crash between the write of the archive and the change of its mode leaves an archive that
      no recovery adopts or replaces, unless the modes agree by chance. */
  lemma TornArchive(c: Cell, mode: nat)
    requires Archiving(c) && !c.Has(Archive) && !c.Has(Target) && !Stuck(c)
    ensures var c' := c.At(Created(c.slot, Archive, Image(c.step.before.value.bytes, mode)));
            CellInv(c') && (Stuck(c') <==> mode != c.step.before.value.mode)
  {
    CreatedWf(c.slot, Archive, Image(c.step.before.value.bytes, mode));
  }

  lemma ArchiveProtected(c: Cell, mode: nat)
    requires Archiving(c) && !c.Has(Archive)
    ensures var before := c.step.before.value;
            var s := Created(c.slot, Archive, Image(before.bytes, mode));
            var c' := c.At(Chmodded(s, Archive, before.mode));
            && Archived(c') && (Stuck(c') <==> Stuck(c))
            && c'.Has(Backup(c.step.backup)) == c.Has(Backup(c.step.backup))
            && !c'.Linked(Archive, Backup(c.step.backup))
  {
    var before := c.step.before.value;
    CreatedWf(c.slot, Archive, Image(before.bytes, mode));
    var s := Created(c.slot, Archive, Image(before.bytes, mode));
    RewrittenWf(s, Archive, before);
  }

  /** The archive stage is gone; the backup has the displaced bytes and is tracked. */
  ghost predicate Secured(c: Cell) {
    && Archiving(c) && !c.Has(Archive) && c.BackedUp() && c.Tracked()
  }

  lemma ArchivingHolds(c: Cell)
    requires Archiving(c)
    ensures CellInv(c) && Open(c) && !c.step.phase.Published?
  {
  }

  lemma SecuredHolds(c: Cell)
    requires Secured(c)
    ensures CellInv(c) && Open(c) && !c.Has(Target) && !c.step.phase.Published?
  {
  }

  lemma ArchivingHasOriginal(c: Cell)
    ensures Archiving(c) ==> c.step.before.Some? && c.Has(Previous) && c.past.displaced == c.step.before
  {
  }

  lemma NothingDisplaced(c: Cell)
    requires Open(c) && !c.Has(Previous)
    ensures c.past.displaced.None?
  {
  }

  lemma TargetStays(c: Cell, t: Slot)
    requires ClientSafe(c, t)
    ensures Next in t.names <==> c.Has(Next)
    ensures c.Has(Next) ==> t.names[Next] == c.slot.names[Next]
    ensures Previous in t.names <==> c.Has(Previous)
  {
  }

  lemma OpenHolds(c: Cell)
    requires Open(c)
    ensures CellInv(c) && Wf(c.slot)
  {
  }

  lemma ArchiveUnlinked(c: Cell)
    requires Archived(c) && c.BackedUp() && c.Tracked()
    ensures Secured(c.At(Removed(c.slot, Archive)))
  {
    RemovedWf(c.slot, Archive);
  }

  lemma LinkedArchiveIsBackup(c: Cell)
    requires Archived(c) && c.Linked(Archive, Backup(c.step.backup))
    ensures c.BackedUp() && !Stuck(c)
  {
  }

  /** The file at the step's backup name is the one the journal tracks, with the original's bytes. */
  predicate AdoptsBackup(s: Slot, step: Step, owned: Owned) {
    var got := Read(s, Backup(step.backup), None);
    && got.Got? && got.image.Some? && got.image.value.bytes == owned.digest
    && step.before.Some? && owned.digest == step.before.value.bytes
  }

  lemma BackupAdopted(c: Cell)
    requires Archived(c) && c.Has(Backup(c.step.backup)) && c.Tracked() && !c.Linked(Archive, Backup(c.step.backup))
    ensures if AdoptsBackup(c.slot, c.step, BackupEntry(c.entry.backups, c.step.backup).value)
            then c.BackedUp() && !Stuck(c) else Stuck(c)
  {
  }

  lemma BackupMovedOn(c: Cell, stamp: nat)
    requires Archived(c) && c.Has(Backup(c.step.backup)) && !c.Tracked() && !c.Linked(Archive, Backup(c.step.backup))
    requires !c.Has(Backup(stamp))
    ensures Archived(c.(step := c.step.(backup := stamp)))
    ensures !Stuck(c) && !Stuck(c.(step := c.step.(backup := stamp)))
  {
  }

  lemma BackupLinked(c: Cell)
    requires Archived(c) && !c.Has(Backup(c.step.backup))
    ensures var c' := c.At(Linked(c.slot, Archive, Backup(c.step.backup)));
            Archived(c') && c'.Linked(Archive, Backup(c.step.backup)) && !Stuck(c)
  {
    assert forall m | m in c.slot.names && m != Archive :: c.slot.names[m].ino != c.slot.names[Archive].ino;
    LinkedWf(c.slot, Archive, Backup(c.step.backup));
  }

  /** The entry may be replaced by one that still tracks the step's backup. */
  lemma EntryReplaced(c: Cell, entry: Entry)
    requires Archiving(c) && (c.step.phase.Planned? || Tracks(entry.backups, c.step.backup))
    ensures Archiving(c.(entry := entry))
    ensures Archived(c) ==> Archived(c.(entry := entry))
  {
  }

  // ---- whether the backup will be tracked ----

  lemma UntrackedIsNotForeign(c: Cell)
    requires !c.Tracked()
    ensures !Foreign(c)
  {
    forall o | o in c.entry.backups ensures o.stamp != c.step.backup {
      var k :| 0 <= k < |c.entry.backups| && c.entry.backups[k] == o;
    }
  }

  /** While the original is at its target, so also when it has just been moved. */
  lemma StagingIsNotForeign(c: Cell)
    requires Open(c) && !c.Has(Previous)
    ensures !Foreign(c)
    ensures forall before: Option<Image> :: !Foreign(c.Since(before))
    ensures c.Has(Backup(c.step.backup)) ==> !c.Tracked()
  {
    if c.Has(Backup(c.step.backup)) {
      assert forall o | o in c.entry.backups :: o.stamp != c.step.backup by { UntrackedIsNotForeign(c); }
    }
  }

  lemma MovedIsNotForeign(c: Cell)
    requires Open(c) && !c.Has(Previous) && c.Has(Target)
    ensures !Foreign(Displacing(c))
  {
    StagingIsNotForeign(c);
    if !c.Tracked() { UntrackedIsNotForeign(Displacing(c)); }
  }

  lemma RecordedIsNotForeign(c: Cell, backups: seq<Owned>)
    requires Archived(c) && c.BackedUp() && !Tracks(backups, c.step.backup)
    requires c.entry.backups == backups + [Owned(c.step.backup, c.step.before.value.bytes)]
    ensures !Foreign(c)
  {
    forall o | o in c.entry.backups && o.stamp == c.step.backup ensures o.digest == c.step.before.value.bytes {
      var k :| 0 <= k < |c.entry.backups| && c.entry.backups[k] == o;
    }
  }

  lemma AdoptedIsNotForeign(c: Cell)
    requires Archived(c) && c.Has(Backup(c.step.backup)) && c.Tracked() && DistinctStamps(c.entry.backups)
    requires AdoptsBackup(c.slot, c.step, BackupEntry(c.entry.backups, c.step.backup).value)
    ensures !Foreign(c)
  {
    var owned := BackupEntry(c.entry.backups, c.step.backup).value;
    forall o | o in c.entry.backups && o.stamp == c.step.backup ensures o == owned {
      var j :| 0 <= j < |c.entry.backups| && c.entry.backups[j] == o;
      var k :| 0 <= k < |c.entry.backups| && c.entry.backups[k] == owned;
    }
  }

  lemma ClientKeepsForeign(c: Cell, t: Slot)
    requires ClientSafe(c, t)
    ensures Foreign(c.At(t)) <==> Foreign(c)
  {
  }

  /** Neither the link nor the unlink of the stage touches the backup. */
  lemma PublishingKeepsForeign(c: Cell)
    requires c.Has(Next)
    ensures Foreign(Publishing(c)) <==> Foreign(c)
    ensures Foreign(Publishing(c).At(Removed(Publishing(c).slot, Next))) <==> Foreign(c)
    ensures forall d: Cell, phase: Phase :: Foreign(d.In(phase)) <==> Foreign(d)
  {
  }

  /** While the original is out of the way only its archive can get in the way. */
  lemma SecuredIsReady(c: Cell)
    requires Secured(c) && !Foreign(c)
    ensures !Stuck(c)
  {
    assert forall m | c.Has(m) && m != Backup(c.step.backup) ::
             c.slot.names[m].ino != c.slot.names[Backup(c.step.backup)].ino;
  }

  lemma FreeBackupIsReady(c: Cell)
    requires Archived(c) && (!c.Tracked() || !c.Has(Backup(c.step.backup)))
    ensures !Stuck(c)
  {
  }

  // ---- trimming older backups ----

  /** Only the backups with the `removed` stamps may be gone. */
  ghost predicate Trimmed(s: Slot, t: Slot, removed: set<nat>) {
    && Wf(t) && t.scratch == s.scratch && t.nextIno == s.nextIno
    && (forall n | n in s.names && !n.Orphan? && !(n.Backup? && n.stamp in removed) :: n in t.names)
    && (forall n | n in t.names && !n.Orphan? :: n in s.names && t.names[n] == s.names[n])
  }

  lemma NothingTrimmed(s: Slot, removed: set<nat>)
    requires Wf(s)
    ensures Trimmed(s, s, removed)
  {
  }

  lemma TrimmedKeeps(c: Cell, t: Slot, removed: set<nat>)
    requires CellInv(c) && Trimmed(c.slot, t, removed)
    requires c.step.backup !in removed
    ensures CellInv(c.At(t)) && (Archived(c) ==> Archived(c.At(t)))
    ensures Landed(c) ==> Landed(c.At(t))
    ensures c.At(t).Has(Backup(c.step.backup)) <==> c.Has(Backup(c.step.backup))
    ensures c.At(t).Linked(Archive, Backup(c.step.backup)) <==> c.Linked(Archive, Backup(c.step.backup))
  {
  }

  lemma TrimRenamed(s: Slot, stamp: nat)
    requires Wf(s) && Backup(stamp) in s.names && !ForeignLink(s, Backup(stamp), None)
    ensures var o := Orphan(s.names[Backup(stamp)].ino);
            && o !in s.names
            && o in Renamed(s, Backup(stamp), o).names
            && Trimmed(s, Renamed(s, Backup(stamp), o), {stamp})
            && Trimmed(s, Removed(Renamed(s, Backup(stamp), o), o), {stamp})
            && Wf(Renamed(s, Backup(stamp), o)) && Wf(Removed(Renamed(s, Backup(stamp), o), o))
  {
    var o := Orphan(s.names[Backup(stamp)].ino);
    RenamedWf(s, Backup(stamp), o);
    RemovedWf(Renamed(s, Backup(stamp), o), o);
  }

  /** What is gone stays gone. */
  lemma TrimmedAway(s: Slot, t: Slot, removed: set<nat>)
    requires Trimmed(s, t, removed)
    ensures forall n: nat | Backup(n) !in s.names :: Backup(n) !in t.names
  {
  }

  lemma TrimmedTwice(s: Slot, t: Slot, u: Slot, first: set<nat>, second: set<nat>)
    requires Trimmed(s, t, first) && Trimmed(t, u, second)
    ensures Trimmed(s, u, first + second)
  {
  }

  // ---- publishing ----

  lemma SecuredReady(c: Cell)
    requires Secured(c)
    ensures Secured(c.In(Displaced))
    ensures c.Shows(Next, Some(c.step.after)) && Read(c.slot, Next, Some(Target)) == Got(Some(c.step.after))
  {
  }

  lemma ClientKeepsSecured(c: Cell, t: Slot)
    requires Secured(c) && ClientSafe(c, t) && Target !in t.names
    ensures Secured(c.At(t))
  {
  }

  function Publishing(c: Cell): Cell
    requires c.Has(Next)
  {
    c.At(Linked(c.slot, Next, Target)).(past := c.past.(linked := true))
  }

  lemma PublicationOverDisplaced(c: Cell)
    requires Secured(c) && c.step.phase.Displaced?
    ensures var c' := Publishing(c);
            && CellInv(c') && Landed(c') && c'.Has(Next)
            && CellInv(c'.At(Removed(c'.slot, Next))) && Landed(c'.At(Removed(c'.slot, Next)))
            && !c'.Has(QNext) && !Stuck(c') && !Stuck(c'.At(Removed(c'.slot, Next)))
  {
    LinkedWf(c.slot, Next, Target);
    RemovedWf(Publishing(c).slot, Next);
  }

  /** A publication over no file passes through a state that recovery does not leave. */
  lemma PublicationOverNothing(c: Cell)
    requires Open(c) && !c.Has(Previous) && !c.Has(Target) && c.Shows(Next, Some(c.step.after)) && c.step.before.None?
    ensures var c' := Publishing(c);
            var c'' := c'.At(Removed(c'.slot, Next));
            && CellInv(c') && Stuck(c')
            && CellInv(c'') && !Stuck(c'') && Landed(c''.In(Published)) && !c'.Has(QNext)
  {
    LinkedWf(c.slot, Next, Target);
    RemovedWf(Publishing(c).slot, Next);
  }

  // ---- cleaning the scratch directory ----

  ghost predicate Cleaning(c: Cell) {
    Wf(c.slot) && Landed(c) && c.step.phase.Published?
  }

  lemma CleaningHolds(c: Cell)
    requires Cleaning(c)
    ensures CellInv(c) && c.step.phase.Published? && c.Image(Target) == Some(c.step.after)
    ensures Stuck(c) <==> c.Linked(QNext, Target)
    ensures c.Linked(QNext, Target) <==> c.Has(QNext)
    ensures Read(c.slot, Target, Some(Next)) == if c.Linked(QNext, Target) then Unsafe else Got(Some(c.step.after))
    ensures c.step.before == c.past.displaced
    ensures c.step.before.Some? ==>
              c.Has(Backup(c.step.backup))
              && c.slot.names[Backup(c.step.backup)].image.bytes == c.step.before.value.bytes
    ensures c.Has(Previous) ==> c.step.before.Some? && !c.Has(QPrevious)
    ensures c.Has(Next) ==> !c.Has(QNext)
    ensures !c.Has(Archive) && !c.Has(QArchive)
  {
  }

  /** Nothing of the transaction is left beside the new file and the backup. */
  lemma CleaningHasOrigin(c: Cell)
    requires Cleaning(c)
    ensures c.past.linked && c.step.before == c.past.displaced == c.Origin()
  {
  }

  ghost predicate Settled(c: Cell) {
    Cleaning(c) && NothingLeft(c) && !c.slot.scratch
  }

  lemma SettledHolds(c: Cell)
    requires Settled(c)
    ensures CellInv(c) && Wf(c.slot) && c.step.phase.Published? && !Stuck(c)
  {
  }

  lemma SettledIsBackedUp(c: Cell)
    requires Settled(c)
    ensures c.Image(Target) == Some(c.step.after)
    ensures c.past.displaced.Some? ==> c.BackedUp()
  {
  }

  lemma SettledIsReadable(c: Cell)
    requires Settled(c) && c.step.before.Some?
    ensures Read(c.slot, Backup(c.step.backup), None) == Got(c.Image(Backup(c.step.backup)))
    ensures c.Has(Backup(c.step.backup))
    ensures c.slot.names[Backup(c.step.backup)].image.bytes == c.step.before.value.bytes
  {
    var b := Backup(c.step.backup);
    assert forall m | m in c.slot.names && m != b :: c.slot.names[m].ino != c.slot.names[b].ino;
  }

  lemma EntryIsIrrelevant(c: Cell, entry: Entry)
    requires Settled(c)
    ensures Settled(c.(entry := entry))
  {
  }

  lemma SettledAfterTrim(c: Cell, t: Slot, removed: set<nat>)
    requires Settled(c) && Trimmed(c.slot, t, removed)
    requires c.past.displaced.Some? ==> c.step.backup !in removed
    ensures Settled(c.At(t))
  {
  }

  lemma PreviousQuarantined(c: Cell)
    requires Cleaning(c) && c.Has(Previous)
    ensures Read(c.slot, Previous, None) == Got(c.step.before) && !c.Has(QPrevious)
    ensures var c' := c.At(Renamed(c.slot, Previous, QPrevious));
            Cleaning(c') && c'.Has(QPrevious) && !c'.Has(Previous)
            && c'.Image(Next) == c.Image(Next) && c'.Image(QNext) == c.Image(QNext)
  {
    RenamedWf(c.slot, Previous, QPrevious);
  }

  lemma PreviousDropped(c: Cell)
    requires Cleaning(c) && c.Has(QPrevious)
    ensures Read(c.slot, QPrevious, None) == Got(c.step.before) && !c.Has(Previous)
    ensures var c' := c.At(Removed(c.slot, QPrevious));
            Cleaning(c') && !c'.Has(QPrevious) && !c'.Has(Previous)
            && c'.Image(Next) == c.Image(Next) && c'.Image(QNext) == c.Image(QNext)
  {
    RemovedWf(c.slot, QPrevious);
  }

  lemma NextQuarantined(c: Cell)
    requires Cleaning(c) && c.Has(Next) && !c.Has(Previous) && !c.Has(QPrevious)
    ensures Read(c.slot, Next, Some(Target)) == Got(Some(c.step.after)) && !c.Has(QNext)
    ensures var c' := c.At(Renamed(c.slot, Next, QNext));
            Cleaning(c') && Stuck(c') && c'.Has(QNext) && !c'.Has(Next) && !c'.Has(Previous) && !c'.Has(QPrevious)
  {
    RenamedWf(c.slot, Next, QNext);
  }

  lemma NextDropped(c: Cell)
    requires Cleaning(c) && c.Has(QNext) && !c.Has(Previous) && !c.Has(QPrevious)
    ensures Read(c.slot, QNext, Some(Target)) == Got(Some(c.step.after)) && !c.Has(Next)
    ensures var c' := c.At(Removed(c.slot, QNext));
            Cleaning(c') && NothingLeft(c') && !Stuck(c')
  {
    RemovedWf(c.slot, QNext);
  }

  predicate NothingLeft(c: Cell) {
    && !c.Has(Next) && !c.Has(Previous) && !c.Has(Archive)
    && !c.Has(QNext) && !c.Has(QPrevious) && !c.Has(QArchive)
  }

  lemma ScratchRemoved(c: Cell)
    requires Cleaning(c) && (NothingLeft(c) || !c.slot.scratch)
    ensures NothingLeft(c) && !Stuck(c)
    ensures var c' := c.At(c.slot.(scratch := false)); Cleaning(c') && NothingLeft(c') && !Stuck(c')
  {
  }

  lemma BackupProtected(c: Cell)
    requires Settled(c) && c.Has(Backup(c.step.backup))
    ensures Settled(c.At(Chmodded(c.slot, Backup(c.step.backup), PRIVATE_MODE)))
  {
    var b := Backup(c.step.backup);
    var image := c.slot.names[b].image.(mode := PRIVATE_MODE);
    assert forall m | m in c.slot.names && m != b :: c.slot.names[m].ino != c.slot.names[b].ino;
    assert Rewritten(c.slot, b, image) == c.slot.(names := c.slot.names[b := File(c.slot.names[b].ino, image)]);
  }
}
