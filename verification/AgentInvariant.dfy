/**
 What holds of one replacement step at every instant, so also after a crash at any instant, and
 how each system call and each journal write carries it on.
 */
module AgentInvariant {
  import opened Options
  import opened AgentFiles

  /** What has happened to a target: the image moved away from it, and whether the new file has
      been linked there. */
  datatype Past = Past(displaced: Option<Image>, linked: bool)

  /** Everything durable about one step, and its past. */
  datatype Cell = Cell(slot: Slot, step: Step, entry: Entry, past: Past) {
    predicate Has(n: Name) { n in slot.names }

    function Image(n: Name): Option<Image> {
      if n in slot.names then Some(slot.names[n].image) else None
    }

    predicate Linked(m: Name, n: Name) { Same(slot, m, n) }

    predicate Shows(n: Name, image: Option<Image>) { Has(n) && Image(n) == image }

    /** The step's backup has the displaced bytes. */
    predicate BackedUp() {
      past.displaced.Some? && Has(Backup(step.backup))
      && slot.names[Backup(step.backup)].image.bytes == past.displaced.value.bytes
    }

    /** What was at the target before this step changed anything. */
    function Origin(): Option<Image> {
      if past.displaced.Some? then past.displaced else if past.linked then None else Image(Target)
    }

    predicate Tracked() { Tracks(entry.backups, step.backup) }

    /** This cell after a system call. */
    function At(s: Slot): Cell { this.(slot := s) }

    function In(phase: Phase): Cell { this.(step := step.(phase := phase)) }

    function Since(before: Option<Image>): Cell { this.(step := step.(before := before)) }
  }

  /** The only hard links the protocol makes. */
  predicate Pair(m: Name, n: Name) {
    || (m == Next && (n == Target || n == Previous))
    || (m == QNext && n == Target)
    || (m == Archive && n.Backup?)
  }

  ghost predicate Wf(s: Slot) {
    && (forall n | n in s.names :: s.names[n].ino < s.nextIno)
    && (forall m, n | m in s.names && n in s.names && m != n && s.names[m].ino == s.names[n].ino ::
          (Pair(m, n) || Pair(n, m)) && s.names[m].image == s.names[n].image)
    && (forall n | n in s.names && InScratch(n) :: s.scratch)
    && (forall n | n in s.names && n.Orphan? :: s.names[n].ino == n.id)
  }

  predicate NoQuarantine(c: Cell) {
    !c.Has(QNext) && !c.Has(QPrevious) && !c.Has(QArchive)
  }

  /** Nothing has been displaced: the target is still the client's (or a publication over no file
      that a crash kept out of the journal). */
  predicate Staging(c: Cell) {
    && c.step.phase.Planned? && c.past.displaced.None?
    && !c.Has(Previous) && !c.Has(Archive) && NoQuarantine(c)
    && (c.Has(Next) ==> c.slot.names[Next].image.bytes == c.step.after.bytes)
    && (c.Linked(Next, Target) ==> c.Shows(Next, Some(c.step.after)))
    && (c.Tracked() ==> !c.Has(Backup(c.step.backup)))
  }

  /** The original is at `previous`; the target is absent, or a client has recreated it. */
  predicate Moved(c: Cell) {
    && !c.step.phase.Published?
    && c.past.displaced.Some? && c.Shows(Previous, c.past.displaced)
    && NoQuarantine(c)
    && c.Shows(Next, Some(c.step.after))
    && !c.Shows(Target, Some(c.step.after))
    && (c.Has(Archive) ==>
          c.step.before == c.past.displaced && c.slot.names[Archive].image.bytes == c.past.displaced.value.bytes)
    && (forall n | n in c.slot.names && n.Backup? && Same(c.slot, Archive, n) ::
          n == Backup(c.step.backup) && c.Shows(Archive, c.past.displaced))
    && (c.step.phase.Displaced? ==> c.step.before == c.past.displaced && c.BackedUp() && c.Tracked())
  }

  /** The target is the new file; the scratch directory is being cleaned. */
  predicate Landed(c: Cell) {
    && !c.step.phase.Planned? && c.past.linked
    && c.Shows(Target, Some(c.step.after))
    && !c.Has(Archive) && !c.Has(QArchive)
    && (c.Has(Next) ==> c.Linked(Next, Target) && !c.Has(QNext))
    && (c.Has(QNext) ==> c.Linked(QNext, Target))
    && (c.Has(Previous) ==> c.past.displaced.Some? && c.Shows(Previous, c.past.displaced) && !c.Has(QPrevious))
    && (c.Has(QPrevious) ==> c.past.displaced.Some? && c.Shows(QPrevious, c.past.displaced))
    && c.step.before == c.past.displaced
    && (c.past.displaced.Some? ==> c.BackedUp())
    && (c.past.displaced.None? ==> !c.Has(Next) && !c.Has(QNext))
    && (c.step.phase.Displaced? ==> c.Has(Previous) && !c.Has(QNext))
  }

  ghost predicate CellInv(c: Cell) {
    Wf(c.slot) && (Staging(c) || Moved(c) || Landed(c))
  }

  /** A step that is not published yet. */
  ghost predicate Open(c: Cell) {
    Wf(c.slot) && (Staging(c) || Moved(c))
  }

  /** The states that no recovery leaves by itself; each disjunct is a test on the files and the
      journal that can be made before recovery starts. */
  predicate Stuck(c: Cell) {
    // The target's other link has already been moved to a cleanup quarantine.
    || c.Linked(QNext, Target)
    // A publication over no file was linked but its stage was not yet unlinked.
    || (c.step.phase.Planned? && !c.Has(Previous) && c.Linked(Next, Target))
    || c.Linked(Next, Previous)
    // The original is displaced and ...
    || (c.Has(Previous) && c.Has(Target) && !c.Shows(Target, Some(c.step.after))) // ... a client recreated the target
    || (c.Has(Previous) && !c.Has(Target) && UnusableArchive(c))                  // ... its archive cannot be adopted
  }

  /** The original of the step is the one it was; a step that has linked its new file over no file
      has none. */
  predicate OriginKept(c: Cell, d: Cell) {
    (c.past.linked && c.past.displaced.None?) || d.Origin() == c.Origin()
  }

  lemma BesideKeepsOrigin(c: Cell, d: Cell)
    requires Beside(c.slot, d.slot, {Next}) && d.past == c.past
    ensures d.Origin() == c.Origin() && OriginKept(c, d)
  {
  }

  /** A change of durable state, to the files of one step or to the journal. */
  datatype Change =
    | Made(step: nat, name: Name)
    | Protected(step: nat, name: Name)
    | Renaming(step: nat, from: Name, to: Name)
    | Joined(step: nat, from: Name, to: Name)
    | Dropped(step: nat, name: Name)
    | Scratch(step: nat)
    | Saved

  predicate Concerns(last: Option<Change>, i: nat) {
    last.Some? && (last.value.Saved? || last.value.step == i)
  }

  /** One of the three changes after which a death can leave step `i` stuck, see `Hazard`. */
  predicate Alarming(last: Option<Change>, i: nat) {
    last == Some(Made(i, Archive)) || last == Some(Joined(i, Next, Target)) || last == Some(Renaming(i, Next, QNext))
  }

  /** Dying now leaves step `i` stuck. */
  predicate Hazard(c: Cell, i: nat, last: Option<Change>) {
    // The archive stage is there and does not have the mode of the original yet.
    || (last == Some(Made(i, Archive)) && c.step.before.Some? && c.step.before.value.mode != PRIVATE_MODE)
    // The new file is linked where there was none, and its stage is still there.
    || (last == Some(Joined(i, Next, Target)) && c.step.before.None?)
    // The new file's other link is in its quarantine.
    || last == Some(Renaming(i, Next, QNext))
  }

  predicate UnusableArchive(c: Cell) {
    // The archive stage was written but never given the mode of the original ...
    || (c.Has(Archive) && c.Image(Archive) != c.Image(Previous))
    // ... or the journal tracks the backup's name with the digest of other bytes.
    || (c.Has(Backup(c.step.backup)) && c.Tracked() && !c.Linked(Archive, Backup(c.step.backup)) && !Adoptable(c))
  }

  predicate Adoptable(c: Cell) {
    var owned := BackupEntry(c.entry.backups, c.step.backup);
    var got := Read(c.slot, Backup(c.step.backup), None);
    && owned.Some? && got.Got? && got.image.Some? && got.image.value.bytes == owned.value.digest
    && c.Has(Previous) && owned.value.digest == c.slot.names[Previous].image.bytes
  }

  /** A file has the name of the step's backup, and the journal tracks that name with the digest of
      other bytes.  If the step displaces anything its backup is then not tracked in the end. */
  predicate Foreign(c: Cell) {
    (c.step.before.Some? || c.Has(Previous)) && c.Has(Backup(c.step.backup))
    && exists o :: o in c.entry.backups && o.stamp == c.step.backup
                   && o.digest != c.slot.names[Backup(c.step.backup)].image.bytes
  }

  /** The conservation property of one step: the displaced bytes are at `previous`, at its cleanup
      quarantine, or in the step's backup. */
  predicate Kept(c: Cell) {
    c.past.displaced.Some? ==>
      c.Shows(Previous, c.past.displaced) || c.Shows(QPrevious, c.past.displaced) || c.BackedUp()
  }

  lemma DisplacedIsKept(c: Cell)
    requires CellInv(c)
    ensures Kept(c)
  {
  }

  // ---- the system calls keep a slot well formed ----

  lemma CreatedWf(s: Slot, n: Name, image: Image)
    requires Wf(s) && !n.Orphan? && (InScratch(n) ==> s.scratch)
    ensures Wf(Created(s, n, image))
    ensures forall m | m != n :: !Same(Created(s, n, image), m, n)
    ensures forall l, m | l != n && m != n :: Same(Created(s, n, image), l, m) == Same(s, l, m)
  {
  }

  lemma RewrittenWf(s: Slot, n: Name, image: Image)
    requires Wf(s) && n in s.names
    ensures Wf(Rewritten(s, n, image))
    ensures Rewritten(s, n, image).names.Keys == s.names.Keys
    ensures forall l, m :: Same(Rewritten(s, n, image), l, m) == Same(s, l, m)
    ensures forall m | m in s.names ::
              Rewritten(s, n, image).names[m].image == if Same(s, m, n) then image else s.names[m].image
  {
  }

  lemma RemovedWf(s: Slot, n: Name)
    requires Wf(s)
    ensures Wf(Removed(s, n))
    ensures forall l, m :: Same(Removed(s, n), l, m) == (l != n && m != n && Same(s, l, m))
  {
  }

  lemma LinkedWf(s: Slot, from: Name, to: Name)
    requires Wf(s) && from in s.names && to !in s.names && Pair(from, to)
    requires forall m | m in s.names && m != from :: s.names[m].ino != s.names[from].ino
    ensures Wf(Linked(s, from, to))
    ensures forall l, m | l != to && m != to :: Same(Linked(s, from, to), l, m) == Same(s, l, m)
    ensures forall m | m != from && m != to :: !Same(Linked(s, from, to), m, to)
  {
  }

  lemma RenamedNames(s: Slot, from: Name, to: Name)
    requires from in s.names && to !in s.names
    ensures var t := Renamed(s, from, to);
            && t.scratch == s.scratch && t.nextIno == s.nextIno
            && (forall m :: m in t.names <==> m == to || (m in s.names && m != from))
            && t.names[to] == s.names[from]
            && forall m | m in s.names && m != from :: t.names[m] == s.names[m]
  {
  }

  /** The only links of a renamed file are those that its new name may have. */
  lemma RenamedPairs(s: Slot, from: Name, to: Name, m: Name, n: Name)
    requires Wf(s) && from in s.names && to !in s.names && m != n
    requires forall l | l in s.names && l != from && Same(s, l, from) :: Pair(l, to) || Pair(to, l)
    requires var t := Renamed(s, from, to); Same(t, m, n)
    ensures var t := Renamed(s, from, to);
            (Pair(m, n) || Pair(n, m)) && t.names[m].image == t.names[n].image
  {
    RenamedNames(s, from, to);
    hide Renamed, Pair;
    if m == to {
      assert Same(s, n, from);
    } else if n == to {
      assert Same(s, m, from);
    } else {
      assert Same(s, m, n);
    }
  }

  lemma RenamedWf(s: Slot, from: Name, to: Name)
    requires Wf(s) && from in s.names && to !in s.names
    requires InScratch(to) ==> s.scratch
    requires to.Orphan? ==> to.id == s.names[from].ino
    requires forall m | m in s.names && m != from && Same(s, m, from) :: Pair(m, to) || Pair(to, m)
    ensures Wf(Renamed(s, from, to))
    ensures forall m :: m in Renamed(s, from, to).names <==> m == to || (m in s.names && m != from)
    ensures Renamed(s, from, to).names[to] == s.names[from]
    ensures forall m | m in s.names && m != from :: Renamed(s, from, to).names[m] == s.names[m]
  {
    hide Renamed, Pair, InScratch;
    RenamedNames(s, from, to);
    var t := Renamed(s, from, to);
    forall m, n | m in t.names && n in t.names && m != n && t.names[m].ino == t.names[n].ino
      ensures (Pair(m, n) || Pair(n, m)) && t.names[m].image == t.names[n].image
    {
      RenamedPairs(s, from, to, m, n);
    }
  }

  // ---- locating a step ----

  function Revalidated(c: Cell): Cell {
    if c.Has(Previous) then c.Since(c.Image(Previous)) else c
  }

  lemma Revalidation(c: Cell)
    requires CellInv(c)
    ensures Read(c.slot, Previous, Some(Backup(c.step.backup))) ==
            if c.Linked(Next, Previous) then Unsafe else Got(c.Image(Previous))
    ensures c.Linked(Next, Previous) ==> Stuck(c)
    ensures c.step.phase.Published? ==> Revalidated(c) == c
    ensures CellInv(Revalidated(c))
    ensures (Stuck(Revalidated(c)) <==> Stuck(c)) && (Foreign(Revalidated(c)) <==> Foreign(c))
  {
  }

  lemma Classification(c: Cell)
    requires CellInv(c) && c == Revalidated(c)
    ensures Read(c.slot, Target, Some(Next)) == if c.Linked(QNext, Target) then Unsafe else Got(c.Image(Target))
    ensures c.Linked(QNext, Target) ==> Stuck(c)
    ensures match Classify(c.slot, c.step, c.Image(Target))
            case Unrecognized => Stuck(c)
            case Position(AtAfter) => Landed(c) && (Stuck(c) ==> c.Linked(QNext, Target))
            case Position(AtBefore) => Open(c) && (c.Has(Previous) ==> Stuck(c))
            case Position(AtGap) => Open(c) && c.Has(Previous) && !c.Has(Target)
  {
  }

  lemma Landing(c: Cell)
    requires CellInv(c) && Landed(c)
    ensures CellInv(c.In(Published)) && Landed(c.In(Published))
    ensures (Stuck(c.In(Published)) <==> c.Linked(QNext, Target)) && (Foreign(c.In(Published)) <==> Foreign(c))
  {
  }

  // ---- staging the new file ----

  lemma StageRead(c: Cell)
    requires Open(c)
    ensures Read(c.slot, Next, Some(Target)) == if c.Linked(Next, Previous) then Unsafe else Got(c.Image(Next))
    ensures c.Linked(Next, Previous) ==> Stuck(c)
    ensures c.Has(Previous) ==> c.slot.scratch && c.Shows(Next, Some(c.step.after))
  {
  }

  lemma ScratchMade(c: Cell)
    requires Open(c)
    ensures var c' := c.At(c.slot.(scratch := true)); Open(c') && (Stuck(c') <==> Stuck(c))
  {
  }

  lemma StageWritten(c: Cell, mode: nat)
    requires Open(c) && c.slot.scratch && !c.Has(Next)
    ensures var c' := c.At(Created(c.slot, Next, Image(c.step.after.bytes, mode)));
            Open(c') && !Stuck(c') && !c'.Has(Previous)
    ensures !Stuck(c)
  {
    CreatedWf(c.slot, Next, Image(c.step.after.bytes, mode));
  }

  lemma StageProtected(c: Cell)
    requires Open(c) && c.Has(Next) && !c.Shows(Next, Some(c.step.after))
    ensures c.slot.names[Next].image.bytes == c.step.after.bytes && c.step.phase.Planned?
    ensures var c' := c.At(Chmodded(c.slot, Next, c.step.after.mode));
            Open(c') && !Stuck(c') && !c'.Has(Previous) && c'.Shows(Next, Some(c.step.after))
    ensures !Stuck(c)
  {
    RewrittenWf(c.slot, Next, c.slot.names[Next].image.(mode := c.step.after.mode));
  }

  /** The staged file has no other link yet, so nothing else changes its mode with it. */
  lemma OnlyStageProtected(c: Cell)
    requires Open(c) && c.Has(Next) && !c.Shows(Next, Some(c.step.after))
    ensures Beside(c.slot, Chmodded(c.slot, Next, c.step.after.mode), {Next})
  {
    assert forall m | c.Has(m) && m != Next :: c.slot.names[m].ino != c.slot.names[Next].ino;
  }

  lemma StageAlreadyProtected(c: Cell)
    requires Open(c) && c.Shows(Next, Some(c.step.after))
    ensures Chmodded(c.slot, Next, c.step.after.mode) == c.slot
  {
    assert Chmodded(c.slot, Next, c.step.after.mode).names == c.slot.names;
  }

  // ---- displacing the original ----

  lemma Replanned(c: Cell, before: Option<Image>)
    requires Open(c) && !c.Has(Previous)
    ensures Open(c.Since(before)) && (Stuck(c.Since(before)) <==> Stuck(c))
  {
  }

  /** A client deletes the target, edits it in place or puts another file there; while the original
      is displaced it does not put the very image there that is being published. */
  predicate ClientEdit(s: Slot, t: Slot, after: Image) {
    || t == s
    || t == Removed(s, Target)
    || (Target in t.names
        && var image := t.names[Target].image;
        && (Previous in s.names ==> image != after)
        && (|| t == Created(s, Target, image)
            || (Target in s.names && !ForeignLink(s, Target, None) && t == Rewritten(s, Target, image))))
  }

  ghost predicate ClientSafe(c: Cell, t: Slot) {
    && Open(c.At(t)) && t.scratch == c.slot.scratch
    && (forall n | n != Target :: (n in t.names <==> c.Has(n)) && (c.Has(n) ==> t.names[n] == c.slot.names[n]))
    && (Same(t, Next, Target) ==> c.Linked(Next, Target))
  }

  lemma OpenAgain(c: Cell, t: Slot)
    requires ClientSafe(c, t)
    ensures Open(c.At(t))
  {
  }

  lemma ClientRemoved(c: Cell)
    requires Open(c)
    ensures ClientSafe(c, Removed(c.slot, Target))
  {
    RemovedWf(c.slot, Target);
  }

  lemma ClientCreated(c: Cell, image: Image)
    requires Open(c) && (c.Has(Previous) ==> image != c.step.after)
    ensures ClientSafe(c, Created(c.slot, Target, image))
  {
    CreatedWf(c.slot, Target, image);
  }

  lemma RewrittenAlone(s: Slot, n: Name, image: Image)
    requires n in s.names && !ForeignLink(s, n, None)
    ensures Rewritten(s, n, image) == s.(names := s.names[n := File(s.names[n].ino, image)])
  {
    assert forall m | m in s.names && m != n :: s.names[m].ino != s.names[n].ino;
    assert Rewritten(s, n, image).names == s.names[n := File(s.names[n].ino, image)];
  }

  lemma ClientRewrote(c: Cell, image: Image)
    requires Open(c) && (c.Has(Previous) ==> image != c.step.after)
    requires c.Has(Target) && !ForeignLink(c.slot, Target, None)
    ensures ClientSafe(c, Rewritten(c.slot, Target, image))
  {
    hide Rewritten;
    RewrittenAlone(c.slot, Target, image);
    assert forall m | m in c.slot.names && m != Target :: c.slot.names[m].ino != c.slot.names[Target].ino;
  }

  lemma ClientEdited(c: Cell, t: Slot)
    requires Open(c) && ClientEdit(c.slot, t, c.step.after)
    ensures ClientSafe(c, t)
  {
    if t == c.slot {
    } else if t == Removed(c.slot, Target) {
      ClientRemoved(c);
    } else if t == Created(c.slot, Target, t.names[Target].image) {
      ClientCreated(c, t.names[Target].image);
    } else {
      ClientRewrote(c, t.names[Target].image);
    }
  }

  function Displacing(c: Cell): Cell
    requires c.Has(Target)
  {
    c.At(Renamed(c.slot, Target, Previous)).(past := Past(c.Image(Target), c.past.linked))
  }

  lemma Displacement(c: Cell)
    requires Open(c) && !c.Has(Previous) && c.slot.scratch && c.Shows(Next, Some(c.step.after)) && c.Has(Target)
    ensures var c' := Displacing(c);
            && Open(c') && c'.Has(Previous) && !c'.Has(Target)
            && (Stuck(c') <==> Stuck(c)) && (c'.Linked(Next, Previous) <==> c.Linked(Next, Target))
            && Read(c'.slot, Previous, None) ==
               if c.Linked(Next, Target) then Unsafe else Got(c'.Image(Previous))
  {
    RenamedWf(c.slot, Target, Previous);
  }
}
