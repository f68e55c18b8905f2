/**
 Runs that end in a step no recovery completes, or in a backup that is not tracked.  Each replaces
 one small file and dies once or twice; the moment is given by the number of changes that still
 happen.
 */
module AgentStuck {
  import opened Options
  import opened AgentFiles
  import opened AgentInvariant
  import opened AgentPublication
  import opened AgentManager

  const OLD := Image("old", 0x1A4) // 0o644
  const NEW := Image("new", 0x1A4)

  /** The replacement is pending with its one step stuck, and recovering it is hopeless. */
  ghost predicate Hopeless(m: Manager)
    reads m
  {
    m.Inv() && |m.disk| == 1 && !m.clientActive && Stuck(m.CellAt(0))
  }

  /** The new file is staged, the original not yet moved, and the backup's name is free. */
  ghost predicate Staged(m: Manager, before: Option<Image>, backups: seq<Owned>)
    reads m
  {
    m.Inv() && m.state == m.durable && |m.disk| == 1 && !m.clientActive && m.crashAt.None?
    && m.past == [Past(None, false)]
    && var c := m.CellAt(0);
       Open(c) && !Stuck(c) && !c.Has(Previous) && c.slot.scratch && c.Shows(Next, Some(NEW)) && c.step.after == NEW
       && c.Image(Target) == before && c.step.before == before
       && c.entry.backups == backups && c.step.backup == 0 && !c.Has(Backup(0))
  }

  lemma NothingMoved(c: Cell)
    requires c.past == Past(None, false)
    ensures !Cleaning(c) && !Archiving(c)
    ensures Open(c) ==> !c.Has(Previous) && c.step.phase.Planned?
  {
  }

  /** Up to the point at which the original would be moved. */
  method Stage(before: Option<Image>, backups: seq<Owned>) returns (m: Manager)
    requires |backups| <= 1
    ensures fresh(m) && Staged(m, before, backups)
  {
    hide Open, Stuck, CellInv, Cleaning, Archiving, Foreign;
    var slot := if before.Some? then Slot(map[Target := File(0, before.value)], false, 1) else Slot(map[], false, 0);
    m := new Manager([slot], Journal([Entry(before, backups)], None, 0), None, false);
    var r := m.Plan([NEW], 0);
    var positions;
    r, positions := m.StageAll();
    NothingMoved(m.CellAt(0));
    r := m.RereadTargets(positions);
    NothingMoved(m.CellAt(0));
  }

  /** Up to the point at which the original is out of the way and would be archived. */
  method Displaced(backups: seq<Owned>) returns (m: Manager)
    requires |backups| <= 1
    ensures fresh(m) && m.Inv() && m.state == m.durable && |m.disk| == 1 && !m.clientActive && m.crashAt.None?
    ensures var c := m.CellAt(0);
            Archiving(c) && !Stuck(c) && !c.Has(Archive) && c.step.before == Some(OLD) && c.Shows(Next, Some(NEW))
            && c.step.after == NEW && c.entry.backups == backups && c.step.backup == 0 && !c.Has(Backup(0))
  {
    hide Open, Stuck, CellInv, Cleaning, Archiving, Foreign;
    m := Stage(Some(OLD), backups);
    var r := m.Displace(0);
    ArchivingIs(m.CellAt(0));
  }

  lemma ArchivingIs(c: Cell)
    requires Archiving(c)
    ensures c.step.before == c.past.displaced && CellInv(c) && !c.Has(Target)
  {
  }

  /** Dies between the write of the archive stage and the change of its mode: the mode is then not
      the one of the original, and no recovery adopts or replaces the stage. */
  method TornArchiveRemains(crashes: seq<Option<nat>>) returns (m: Manager, completed: bool)
    ensures fresh(m) && Hopeless(m) && !completed
  {
    hide Open, Stuck, CellInv, Cleaning, Archiving, Foreign;
    m := Displaced([]);
    ghost var c := m.CellAt(0);
    ArchivingIs(c);
    m.crashAt := Some(1);
    TornArchive(c, PRIVATE_MODE);
    var r := m.WriteArchive(0);
    completed := m.RecoverAgain(crashes + [None]);
  }

  /** Dies between the link of the new file and the unlink of its stage, where there was no file. */
  method HalfPublicationRemains(crashes: seq<Option<nat>>) returns (m: Manager, completed: bool)
    ensures fresh(m) && Hopeless(m) && !completed
  {
    hide Open, Stuck, CellInv, Cleaning, Archiving, Foreign;
    m := Stage(None, []);
    var r := m.Displace(0);
    ghost var c := m.CellAt(0);
    m.crashAt := Some(1);
    PublicationOverNothing(c);
    r := m.PublishOverNothing(0);
    completed := m.RecoverAgain(crashes + [None]);
  }

  /** Dies between the link and the unlink, over a displaced original. */
  method LinkedTwice() returns (m: Manager)
    ensures fresh(m) && m.Inv() && |m.disk| == 1 && !m.clientActive && !Stuck(m.CellAt(0))
    ensures var c := m.CellAt(0);
            c.Has(Next) && c.past.displaced.Some? && c.Shows(Target, Some(c.step.after))
  {
    hide Open, Stuck, CellInv, Cleaning, Archiving, Landed, Foreign;
    m := Displaced([]);
    var r := m.ArchiveDisplaced(0);
    r := m.MarkDisplaced(0);
    ghost var c := m.CellAt(0);
    m.crashAt := Some(1);
    PublicationOverDisplaced(c);
    LandedIsOver(Publishing(c));
    r := m.LinkOverDisplaced(0);
  }

  lemma LandedIsOver(c: Cell)
    requires Landed(c) && c.step.phase.Displaced?
    ensures c.past.displaced.Some? && c.Shows(Target, Some(c.step.after))
  {
  }

  lemma NotOpenAgain(c: Cell)
    requires c.past.displaced.Some? && c.Shows(Target, Some(c.step.after))
    ensures !Open(c) && !Archiving(c)
  {
  }

  /** The recovery from there has cleaned up the original and is about to clean up the stage. */
  method Cleaned() returns (m: Manager)
    ensures fresh(m) && m.Inv() && |m.disk| == 1 && !m.clientActive
    ensures var c := m.CellAt(0);
            Cleaning(c) && c.Has(Next) && !c.Has(Previous) && !c.Has(QPrevious)
  {
    hide Open, Stuck, CellInv, Cleaning, Archiving, Landed, Foreign;
    m := LinkedTwice();
    m.crashAt := None;
    m.state := m.durable;
    var r, at := m.Locate(0);
    NotOpenAgain(m.CellAt(0));
    r := m.CleanPrevious(0);
    CleaningHolds(m.CellAt(0));
  }

  /** It dies between the rename of the new file's other link to its quarantine and its unlink. */
  method QuarantineRemains(crashes: seq<Option<nat>>) returns (m: Manager, completed: bool)
    ensures fresh(m) && Hopeless(m) && !completed
  {
    hide Open, Stuck, CellInv, Cleaning, Archiving, Landed, Foreign;
    m := Cleaned();
    m.crashAt := Some(1);
    NextQuarantined(m.CellAt(0));
    var r := m.CleanNext(0);
    CleaningHolds(m.CellAt(0));
    completed := m.RecoverAgain(crashes + [None]);
  }

  /** Dies with the original out of the way; then a client puts another file at the target. */
  method RecreatedTargetRemains(image: Image, crashes: seq<Option<nat>>) returns (m: Manager, completed: bool)
    requires image != NEW
    ensures fresh(m) && Hopeless(m) && !completed
  {
    hide Open, Stuck, CellInv, Cleaning, Archiving, Foreign;
    m := Displaced([]);
    ghost var c := m.CellAt(0);
    ClientMade(c, image);
    m.disk := [Created(m.disk[0], Target, image)];
    assert m.CellAt(0) == c.At(Created(c.slot, Target, image));
    completed := m.RecoverAgain(crashes + [None]);
  }

  lemma ClientMade(c: Cell, image: Image)
    requires Archiving(c) && image != c.step.after
    ensures var t := Created(c.slot, Target, image);
            ClientEdit(c.slot, t, c.step.after) && CellInv(c.At(t)) && Stuck(c.At(t))
  {
    ClientCreated(c, image);
  }

  /** The journal tracks the backup's name with the digest of other bytes, and no file has it.
      Dies between the link of the backup and the save that would track it. */
  method LinkedForeign() returns (m: Manager)
    ensures fresh(m) && m.Inv() && |m.disk| == 1 && !m.clientActive
    ensures var c := m.CellAt(0);
            Archived(c) && c.Linked(Archive, Backup(0)) && c.step.backup == 0 && c.step.before == Some(OLD)
            && Owned(0, "other") in c.entry.backups && !Stuck(c) && Foreign(c)
  {
    hide Open, Stuck, CellInv, Cleaning, Archiving;
    m := Displaced([Owned(0, "other")]);
    ArchivingIs(m.CellAt(0));
    var r := m.WriteArchive(0);
    ghost var c := m.CellAt(0);
    BackupLinked(c);
    m.crashAt := Some(1);
    r := m.LinkBackup(0);
    assert m.CellAt(0) == c.At(Linked(c.slot, Archive, Backup(0)));
    ArchivedIs(m.CellAt(0));
    LinkedArchiveIsBackup(m.CellAt(0));
  }

  /** An undisturbed recovery from there completes, and the backup is not tracked. */
  method UntrackedBackup() returns (m: Manager, ghost steps: seq<Step>)
    ensures fresh(m) && |m.disk| == 1 && m.Replaced(steps) && !Listing(steps[0], m.durable.targets[0].backups)
  {
    hide Open, Stuck, CellInv, Cleaning, Archiving, Foreign, Listing;
    m := LinkedForeign();
    m.crashAt := None;
    var r;
    r, steps := m.Recover();
  }

  /** But if it dies after the archive stage is gone, before the original counts as archived, no
      recovery completes. */
  method ForeignBackupRemains(crashes: seq<Option<nat>>) returns (m: Manager, completed: bool)
    ensures fresh(m) && Hopeless(m) && !completed
  {
    hide Open, Stuck, CellInv, Cleaning, Archiving, Foreign;
    m := LinkedForeign();
    m.crashAt := None;
    m.state := m.durable;
    ArchivedIs(m.CellAt(0));
    var r := m.ArchiveDisplaced(0);
    SecuredHolds(m.CellAt(0));
    SecuredForeignIsStuck(m.CellAt(0));
    m.crashAt := Some(0);
    r := m.MarkDisplaced(0);
    completed := m.RecoverAgain(crashes + [None]);
  }

  lemma ArchivedIs(c: Cell)
    requires Archived(c)
    ensures Archiving(c) && CellInv(c)
  {
  }

  lemma SecuredForeignIsStuck(c: Cell)
    requires Secured(c) && Foreign(c) && DistinctStamps(c.entry.backups)
    ensures Stuck(c)
  {
    var foreign :| foreign in c.entry.backups && foreign.stamp == c.step.backup
                   && foreign.digest != c.slot.names[Backup(c.step.backup)].image.bytes;
    var owned := BackupEntry(c.entry.backups, c.step.backup).value;
    var j :| 0 <= j < |c.entry.backups| && c.entry.backups[j] == foreign;
    var k :| 0 <= k < |c.entry.backups| && c.entry.backups[k] == owned;
  }
}
