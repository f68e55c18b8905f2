/**
 The replacement of an agent's configuration files: plan, execute, archive, finish and clean
 up, with a process crash possible before every change of durable state.

 A method that ends in `Crashed` has stopped in the middle; what its contract still promises
 then is what recovery finds.
 */
module AgentManager {
  import opened Options
  import opened AgentFiles
  import opened AgentInvariant
  import opened AgentPublication
  import opened AgentBackups

  class Manager {
    var disk: seq<Slot>        // one slot per target
    var durable: Journal       // the document in the store
    var state: Journal         // the document in memory
    var crashAt: Option<nat>   // how many changes of durable state happen before the process dies
    const clientActive: bool   // may clients write the targets meanwhile?
    ghost var past: seq<Past>
    ghost var last: Option<Change> // the last change of durable state this process made

    constructor (disk: seq<Slot>, journal: Journal, crashAt: Option<nat>, clientActive: bool)
      ensures this.disk == disk && durable == journal && state == journal
      ensures this.crashAt == crashAt && this.clientActive == clientActive
      ensures past == seq(|disk|, i => Past(None, false)) && last.None?
    {
      this.disk, this.durable, this.state := disk, journal, journal;
      this.crashAt, this.clientActive := crashAt, clientActive;
      this.past, this.last := seq(|disk|, i => Past(None, false)), None;
    }

    /** A replacement is pending, with one step for each target. */
    ghost predicate Pending()
      reads `disk, `durable, `past
    {
      |disk| == |durable.targets| == |past| && Schema(durable) && durable.pending.Some?
    }

    ghost function CellAt(i: nat): Cell
      reads `disk, `durable, `past
      requires Pending() && i < |disk|
    {
      Cell(disk[i], durable.pending.value[i], durable.targets[i], past[i])
    }

    /** A step touches its target only after all earlier steps are published. */
    ghost predicate InOrder()
      reads `disk, `durable, `past
      requires Pending()
    {
      forall i, j | 0 <= i < j < |disk| ::
        past[j].displaced.Some? || past[j].linked ==> CellAt(i).step.phase.Published?
    }

    /** Holds in every state a crash can leave while a replacement is pending. */
    ghost predicate Inv()
      reads `disk, `durable, `past
    {
      Pending() && (forall i | 0 <= i < |disk| :: CellInv(CellAt(i))) && InOrder()
    }

    /** Targets change in the order of the steps: when one has been displaced or replaced, all
        earlier ones already are their new files. */
    lemma EarlierAreReplaced(i: nat, j: nat)
      requires Inv() && i < j < |disk| && (past[j].displaced.Some? || past[j].linked)
      ensures CellAt(i).Image(Target) == Some(CellAt(i).step.after)
      ensures past[i].displaced.Some? ==> CellAt(i).BackedUp()
    {
      assert CellInv(CellAt(i));
    }

    /** Nothing but step `i` has changed, and what is published stays published. */
    twostate predicate OnlyStep(i: nat)
      requires old(Pending()) && Pending() && i < old(|disk|)
      reads `disk, `durable, `past, `last
    {
      && |disk| == |old(disk)|
      && (last == old(last) || Concerns(last, i))
      && durable.revision == old(durable.revision)
      && (forall j | 0 <= j < |disk| && j != i :: CellAt(j) == old(CellAt(j)))
      && CellAt(i).step.after == old(CellAt(i).step.after)
      && (old(CellAt(i).step.phase.Published?) ==> CellAt(i).step.phase.Published?)
      && (old(past[i].displaced.Some?) ==> past[i].displaced == old(past[i].displaced))
      && (old(past[i].linked) ==> past[i].linked)
    }

    /** Nothing that concerns the backups of step `i` has changed. */
    twostate predicate SameBackup(i: nat)
      requires old(Pending()) && Pending() && i < old(|disk|) && i < |disk|
      reads `disk, `durable, `past
    {
      Still(old(CellAt(i)), CellAt(i)) && CellAt(i).step.backup == old(CellAt(i).step.backup)
    }

    /** Dying here leaves step `i` stuck if and only if the last change is one of three. */
    ghost predicate Explained(i: nat)
      requires Pending() && i < |disk|
      reads `disk, `durable, `past, `last
    {
      Stuck(CellAt(i)) <==> Hazard(CellAt(i), i, last)
    }

    /** Nothing is wrong with step `i`, and the last change was none of those three. */
    ghost predicate Quiet(i: nat)
      requires Pending() && i < |disk|
      reads `disk, `durable, `past, `last
    {
      !Stuck(CellAt(i)) && !Alarming(last, i)
    }

    /** From a quiet step a death is explained and anything else quiet. */
    twostate predicate Foreseen(i: nat, done: bool)
      requires old(Pending()) && Pending() && i < old(|disk|) && i < |disk|
      reads `disk, `durable, `past, `last
    {
      old(Quiet(i)) ==> Explained(i) && (done ==> Quiet(i))
    }

    /** So it is unless the backup was foreign. */
    twostate predicate Predicted(i: nat, done: bool)
      requires old(Pending()) && Pending() && i < old(|disk|) && i < |disk|
      reads `disk, `durable, `past, `last
    {
      !old(Foreign(CellAt(i))) ==> Foreseen(i, done)
    }

    ghost predicate AllQuiet()
      requires Pending()
      reads `disk, `durable, `past, `last
    {
      forall k | 0 <= k < |disk| :: Quiet(k)
    }

    ghost predicate AllExplained()
      requires Pending()
      reads `disk, `durable, `past, `last
    {
      forall k | 0 <= k < |disk| :: Explained(k)
    }

    ghost predicate NoneForeign()
      requires Pending()
      reads `disk, `durable, `past
    {
      forall k | 0 <= k < |disk| :: !Foreign(CellAt(k))
    }

    lemma QuietStep(i: nat)
      requires Pending() && i < |disk|
      ensures Quiet(i) ==> Explained(i)
    {
    }

    lemma QuietIsExplained()
      requires Pending()
      ensures AllQuiet() ==> AllExplained()
    {
      hide Stuck;
      if AllQuiet() {
        forall k | 0 <= k < |disk| ensures Explained(k) { assert Quiet(k); }
      }
    }

    /** A process that has changed nothing yet, or only written the journal. */
    lemma ReadyIsQuiet()
      requires Pending() && (last.None? || last == Some(Saved))
      ensures (forall k | 0 <= k < |disk| :: !Stuck(CellAt(k)) && !Foreign(CellAt(k))) ==> AllQuiet() && NoneForeign()
    {
    }

    twostate lemma SavedIsQuiet()
      requires old(Pending()) && Pending() && |disk| == |old(disk)| && last == Some(Saved)
      requires forall k | 0 <= k < |disk| :: Stuck(CellAt(k)) <==> old(Stuck(CellAt(k)))
      ensures old(AllQuiet()) ==> AllQuiet() && AllExplained()
    {
      hide Stuck;
      if old(AllQuiet()) {
        forall k | 0 <= k < |disk| ensures Quiet(k) && Explained(k) { assert old(Quiet(k)); }
      }
    }

    /** What happens to one step says nothing about the others. */
    twostate lemma OthersStayQuiet(i: nat)
      requires old(Pending()) && Pending() && i < old(|disk|) && OnlyStep(i)
      ensures old(AllQuiet()) && Foreseen(i, false) ==> AllExplained()
      ensures old(AllQuiet()) && Foreseen(i, true) ==> AllExplained() && AllQuiet()
    {
      hide Stuck;
      if old(AllQuiet()) {
        forall k | 0 <= k < |disk| && k != i ensures Quiet(k) && Explained(k) {
          assert CellAt(k) == old(CellAt(k)) && old(Quiet(k));
        }
      }
    }

    // ---- changes of durable state ----

    method Tick() returns (r: Status)
      modifies `crashAt
      ensures !r.Failed? && (r.Crashed? <==> old(crashAt) == Some(0)) && crashAt == Ticked(old(crashAt))
      ensures old(crashAt).None? ==> r.Done? && crashAt.None?
    {
      match crashAt
      case None => r := Done;
      case Some(k) =>
        if k == 0 {
          r := Crashed;
        } else {
          crashAt := Some(k - 1);
          r := Done;
        }
    }

    method Create(i: nat, n: Name, image: Image) returns (r: Status)
      requires i < |disk| && n !in disk[i].names
      modifies `disk, `crashAt, `last
      ensures !r.Failed? && (old(crashAt).None? ==> r.Done? && crashAt.None?)
      ensures (r.Crashed? <==> old(crashAt) == Some(0)) && crashAt == Ticked(old(crashAt))
      ensures last == if r.Done? then Some(Made(i, n)) else old(last)
      ensures disk == if r.Done? then old(disk)[i := Created(old(disk[i]), n, image)] else old(disk)
    {
      r := Tick();
      if !r.Done? { return; }
      disk := disk[i := Created(disk[i], n, image)];
      last := Some(Made(i, n));
      r := Done;
    }

    method Chmod(i: nat, n: Name, mode: nat) returns (r: Status)
      requires i < |disk| && n in disk[i].names
      modifies `disk, `crashAt, `last
      ensures !r.Failed? && (old(crashAt).None? ==> r.Done? && crashAt.None?)
      ensures (r.Crashed? <==> old(crashAt) == Some(0)) && crashAt == Ticked(old(crashAt))
      ensures last == if r.Done? then Some(Protected(i, n)) else old(last)
      ensures disk == if r.Done? then old(disk)[i := Chmodded(old(disk[i]), n, mode)] else old(disk)
    {
      r := Tick();
      if !r.Done? { return; }
      disk := disk[i := Chmodded(disk[i], n, mode)];
      last := Some(Protected(i, n));
      r := Done;
    }

    method Rename(i: nat, from: Name, to: Name) returns (r: Status)
      requires i < |disk| && from != to
      modifies `disk, `crashAt, `last
      ensures from !in old(disk[i]).names ==> !r.Done?
      ensures from in old(disk[i]).names ==> !r.Failed?
      ensures old(crashAt).None? ==> !r.Crashed? && crashAt.None?
      ensures (r.Crashed? <==> old(crashAt) == Some(0)) && crashAt == Ticked(old(crashAt))
      ensures last == if r.Done? then Some(Renaming(i, from, to)) else old(last)
      ensures disk == if r.Done? then old(disk)[i := Renamed(old(disk[i]), from, to)] else old(disk)
    {
      r := Tick();
      if !r.Done? { return; }
      if from !in disk[i].names { return Failed; }
      disk := disk[i := Renamed(disk[i], from, to)];
      last := Some(Renaming(i, from, to));
      r := Done;
    }

    /** Creating a hard link never replaces a file that is already there. */
    method Link(i: nat, from: Name, to: Name) returns (r: Status)
      requires i < |disk| && from in disk[i].names
      modifies `disk, `crashAt, `last
      ensures r.Failed? ==> to in old(disk[i]).names
      ensures r.Done? ==> to !in old(disk[i]).names
      ensures old(crashAt).None? ==> !r.Crashed? && crashAt.None?
      ensures (r.Crashed? <==> old(crashAt) == Some(0)) && crashAt == Ticked(old(crashAt))
      ensures last == if r.Done? then Some(Joined(i, from, to)) else old(last)
      ensures disk == if r.Done? then old(disk)[i := Linked(old(disk[i]), from, to)] else old(disk)
    {
      r := Tick();
      if !r.Done? { return; }
      if to in disk[i].names { return Failed; }
      disk := disk[i := Linked(disk[i], from, to)];
      last := Some(Joined(i, from, to));
      r := Done;
    }

    method Unlink(i: nat, n: Name) returns (r: Status)
      requires i < |disk| && n in disk[i].names
      modifies `disk, `crashAt, `last
      ensures !r.Failed? && (old(crashAt).None? ==> r.Done? && crashAt.None?)
      ensures (r.Crashed? <==> old(crashAt) == Some(0)) && crashAt == Ticked(old(crashAt))
      ensures last == if r.Done? then Some(Dropped(i, n)) else old(last)
      ensures disk == if r.Done? then old(disk)[i := Removed(old(disk[i]), n)] else old(disk)
    {
      r := Tick();
      if !r.Done? { return; }
      disk := disk[i := Removed(disk[i], n)];
      last := Some(Dropped(i, n));
      r := Done;
    }

    method SetScratch(i: nat, present: bool) returns (r: Status)
      requires i < |disk|
      modifies `disk, `crashAt, `last
      ensures !r.Failed? && (old(crashAt).None? ==> r.Done? && crashAt.None?)
      ensures (r.Crashed? <==> old(crashAt) == Some(0)) && crashAt == Ticked(old(crashAt))
      ensures last == if r.Done? then Some(Scratch(i)) else old(last)
      ensures disk == if r.Done? then old(disk)[i := old(disk[i]).(scratch := present)] else old(disk)
    {
      r := Tick();
      if !r.Done? { return; }
      disk := disk[i := disk[i].(scratch := present)];
      last := Some(Scratch(i));
      r := Done;
    }

    /** Writes the document in memory to the store. */
    method Save() returns (r: Status)
      modifies `durable, `crashAt, `last
      ensures r.Failed? <==> !Schema(state)
      ensures Schema(state) && old(crashAt).None? ==> r.Done?
      ensures old(crashAt).None? ==> crashAt.None?
      ensures last == if r.Done? then Some(Saved) else old(last)
      ensures durable == if r.Done? then state else old(durable)
      ensures Schema(state) ==> (r.Crashed? <==> old(crashAt) == Some(0)) && crashAt == Ticked(old(crashAt))
    {
      if !Schema(state) { return Failed; }
      :- Tick();
      durable := state;
      last := Some(Saved);
      r := Done;
    }

    /** A client deletes the target, edits it in place or puts another file there; while the
        original is displaced it does not put the very image there that is being published. */
    method ClientWrites(i: nat)
      requires i < |disk| && state.pending.Some? && i < |state.pending.value|
      modifies `disk
      ensures !clientActive ==> disk == old(disk)
      ensures |disk| == |old(disk)| && forall j | 0 <= j < |disk| && j != i :: disk[j] == old(disk[j])
      ensures ClientEdit(old(disk[i]), disk[i], state.pending.value[i].after)
    {
      if !clientActive { return; }
      var s, after := disk[i], state.pending.value[i].after;
      var image: Image := *;
      if Previous in s.names && image == after { return; }
      var t := s;
      if * {
        t := Removed(s, Target);
      } else if * {
        t := Created(s, Target, image);
      } else if Target in s.names && !ForeignLink(s, Target, None) {
        t := Rewritten(s, Target, image);
      }
      disk := disk[i := t];
    }

    // ---- locating and staging ----

    /** Rereads the displaced original; `changed` when the journal had recorded another image. */
    method ValidateDisplaced(i: nat) returns (r: Status, changed: bool)
      requires Pending() && i < |disk| && CellInv(CellAt(i))
      requires state.pending.Some? && i < |state.pending.value| && state.pending.value[i] == CellAt(i).step
      modifies `state
      ensures !r.Crashed? && (r.Failed? <==> CellAt(i).Linked(Next, Previous))
      ensures r.Done? ==> state == Updated(old(state), i, Revalidated(CellAt(i)).step)
      ensures !changed ==> state == old(state)
    {
      hide CellInv;
      changed := false;
      Revalidation(CellAt(i));
      var step := state.pending.value[i];
      assert Updated(state, i, step) == state by { assert state.pending.value[i := step] == state.pending.value; }
      if Previous !in disk[i].names { return Done, false; }
      var saved :- Read(disk[i], Previous, Some(Backup(step.backup)));
      if saved == step.before { return Done, false; }
      if step.phase.Published? { return Failed, false; }
      state := Updated(state, i, step.(before := saved));
      return Done, true;
    }

    /** Journals the image that was really displaced, if the journal had another. */
    method Revalidate(i: nat) returns (r: Status)
      requires Pending() && i < |disk| && CellInv(CellAt(i)) && state == durable
      modifies `durable, `state, `crashAt, `last
      ensures Pending() && OnlyStep(i) && CellInv(CellAt(i))
      ensures r.Done? ==> state == durable && CellAt(i) == Revalidated(old(CellAt(i))) && !CellAt(i).Linked(Next, Previous)
      ensures !r.Done? ==> durable == old(durable) && last == old(last)
      ensures Stuck(CellAt(i)) <==> old(Stuck(CellAt(i)))
      ensures !old(Alarming(last, i)) ==> !Alarming(last, i)
      ensures old(crashAt).None? ==> crashAt.None? && (r.Done? || old(Stuck(CellAt(i))))
      ensures r.Done? ==> (Foreign(CellAt(i)) <==> old(Foreign(CellAt(i))))
      ensures Foreseen(i, r.Done?)
      ensures SameBackup(i)
    {
      hide CellInv, Open, Landed, Staging, Moved, Stuck, Foreign;
      Revalidation(CellAt(i));
      var changed :- ValidateDisplaced(i);
      if changed { :- Save(); }
      r := Done;
    }

    /** Classifies a step; when its target already shows the new file it is marked published. */
    method Locate(i: nat) returns (r: Status, at: Position)
      requires Pending() && i < |disk| && CellInv(CellAt(i)) && state == durable
      modifies `durable, `state, `crashAt, `last
      ensures Pending() && OnlyStep(i) && CellInv(CellAt(i))
      ensures r.Done? ==> state == durable
      ensures r.Done? && at.AtAfter? ==> Cleaning(CellAt(i))
      ensures r.Done? && at.AtBefore? ==> Open(CellAt(i)) && (CellAt(i).Has(Previous) ==> Stuck(CellAt(i)))
      ensures r.Done? && at.AtGap? ==> Archiving(CellAt(i))
      ensures r.Done? ==> (Stuck(CellAt(i)) <==> old(Stuck(CellAt(i)))) && (Stuck(CellAt(i)) ==> !at.AtAfter?)
      ensures old(crashAt).None? ==> crashAt.None? && (r.Done? || old(Stuck(CellAt(i))))
      ensures !clientActive && old(Stuck(CellAt(i))) && !r.Done? ==> Stuck(CellAt(i))
      ensures r.Done? ==> (Foreign(CellAt(i)) <==> old(Foreign(CellAt(i))))
      ensures !clientActive ==> Predicted(i, r.Done?)
      ensures SameBackup(i)
    {
      hide CellInv, Open, Landed, Staging, Moved, Stuck, Foreign, Hazard, Explained;
      at := AtBefore;
      :- Revalidate(i);
      Revalidation(old(CellAt(i)));
      Classification(CellAt(i));
      var image :- Read(disk[i], Target, Some(Next));
      at :- Classify(disk[i], state.pending.value[i], image);
      if at.AtAfter? {
        Landing(CellAt(i));
        state := Updated(state, i, state.pending.value[i].(phase := Published));
        :- Save();
      }
      if at.AtGap? { RevalidatedIsArchiving(CellAt(i)); }
      QuietStep(i);
      r := Done;
    }

    /** Completes the new file in the scratch directory. */
    method PrepareNext(i: nat) returns (r: Status)
      requires Pending() && i < |disk| && Open(CellAt(i)) && state == durable
      modifies `disk, `crashAt, `last
      ensures Pending() && OnlyStep(i) && Open(CellAt(i))
      ensures CellAt(i) == old(CellAt(i)).At(disk[i]) && Beside(old(disk[i]), disk[i], {Next})
      ensures r.Done? ==> disk[i].scratch && CellAt(i).Shows(Next, Some(CellAt(i).step.after))
      ensures CellAt(i).Has(Previous) <==> old(CellAt(i).Has(Previous))
      ensures CellAt(i).Has(Previous) ==> CellAt(i) == old(CellAt(i))
      ensures r.Done? ==> (Stuck(CellAt(i)) <==> old(Stuck(CellAt(i))))
      ensures old(crashAt).None? ==> crashAt.None? && (r.Done? || old(Stuck(CellAt(i))))
      ensures !clientActive && old(Stuck(CellAt(i))) && !r.Done? ==> Stuck(CellAt(i))
      ensures r.Done? ==> (Foreign(CellAt(i)) <==> old(Foreign(CellAt(i))))
      ensures !clientActive ==> Predicted(i, r.Done?)
      ensures SameBackup(i)
    {
      hide Open, Stuck, Staging, Moved;
      StageRead(CellAt(i));
      ScratchMade(CellAt(i));
      if !disk[i].scratch { :- SetScratch(i, true); }
      r := StageNext(i);
    }

    method StageNext(i: nat) returns (r: Status)
      requires Pending() && i < |disk| && Open(CellAt(i)) && state == durable && disk[i].scratch
      modifies `disk, `crashAt, `last
      ensures Pending() && OnlyStep(i) && Open(CellAt(i)) && disk[i].scratch
      ensures CellAt(i) == old(CellAt(i)).At(disk[i]) && Beside(old(disk[i]), disk[i], {Next})
      ensures r.Done? ==> CellAt(i).Shows(Next, Some(CellAt(i).step.after))
      ensures CellAt(i).Has(Previous) ==> disk == old(disk)
      ensures r.Done? ==> (Stuck(CellAt(i)) <==> old(Stuck(CellAt(i))))
      ensures old(crashAt).None? ==> crashAt.None? && (r.Done? || old(Stuck(CellAt(i))))
      ensures !clientActive && old(Stuck(CellAt(i))) && !r.Done? ==> Stuck(CellAt(i))
      ensures r.Done? ==> (Foreign(CellAt(i)) <==> old(Foreign(CellAt(i))))
      ensures !clientActive ==> Predicted(i, r.Done?)
      ensures SameBackup(i)
    {
      hide Open, Stuck, Staging, Moved;
      var step := state.pending.value[i];
      StageRead(CellAt(i));
      var staged :- Read(disk[i], Next, Some(Target));
      if staged.None? {
        StageWritten(CellAt(i), PRIVATE_MODE);
        :- Create(i, Next, Image(step.after.bytes, PRIVATE_MODE));
        :- Protect(i);
      } else if staged.value != step.after {
        StageProtected(CellAt(i));
        if !step.phase.Planned? || staged.value.bytes != step.after.bytes { return Failed; }
        :- Protect(i);
      }
      StageRead(CellAt(i));
      if Read(disk[i], Next, Some(Target)) != Got(Some(step.after)) { return Failed; }
      r := Done;
    }

    /** Gives the staged file the mode it is to have. */
    method Protect(i: nat) returns (r: Status)
      requires Pending() && i < |disk| && Open(CellAt(i)) && CellAt(i).Has(Next) && !CellAt(i).Has(Previous)
      requires state == durable && !Stuck(CellAt(i))
      modifies `disk, `crashAt, `last
      ensures Pending() && OnlyStep(i) && Open(CellAt(i)) && CellAt(i) == old(CellAt(i)).At(disk[i])
      ensures CellAt(i).Has(Next) && !CellAt(i).Has(Previous) && !Stuck(CellAt(i))
      ensures disk[i].scratch == old(disk[i].scratch) && Beside(old(disk[i]), disk[i], {Next})
      ensures r.Done? ==> CellAt(i).Shows(Next, Some(CellAt(i).step.after))
      ensures !r.Failed? && (old(crashAt).None? ==> crashAt.None? && r.Done?)
      ensures r.Done? ==> (Foreign(CellAt(i)) <==> old(Foreign(CellAt(i))))
      ensures !clientActive ==> Predicted(i, r.Done?)
      ensures SameBackup(i)
    {
      hide Open, Stuck, Staging, Moved;
      if disk[i].names[Next].image != CellAt(i).step.after {
        StageProtected(CellAt(i));
        OnlyStageProtected(CellAt(i));
      } else {
        StageAlreadyProtected(CellAt(i));
      }
      :- Chmod(i, Next, state.pending.value[i].after.mode);
      r := Done;
    }

    // ---- archiving ----

    /** Deletes one backup, if it is still the gateway's, by way of a quarantine. */
    method RemoveBackup(i: nat, o: Owned) returns (r: Status)
      requires i < |disk| && Wf(disk[i])
      modifies `disk, `crashAt, `last
      ensures |disk| == |old(disk)| && forall j | 0 <= j < |disk| && j != i :: disk[j] == old(disk[j])
      ensures Trimmed(old(disk[i]), disk[i], {o.stamp}) && Wf(disk[i])
      ensures !Intact(old(disk[i]), o) ==> disk == old(disk)
      ensures r.Done? && Intact(old(disk[i]), o) ==>
                disk[i].names.Keys == old(disk[i]).names.Keys - {Backup(o.stamp)}
      ensures last == old(last) || (Concerns(last, i) && !Alarming(last, i))
      ensures !r.Failed? && (old(crashAt).None? ==> crashAt.None? && r.Done?)
    {
      hide Wf, Trimmed;
      NothingTrimmed(disk[i], {o.stamp});
      if !Intact(disk[i], o) { return Done; }
      TrimRenamed(disk[i], o.stamp);
      var orphan := Orphan(disk[i].names[Backup(o.stamp)].ino);
      :- Rename(i, Backup(o.stamp), orphan);
      :- Unlink(i, orphan);
      r := Done;
    }

    /** Forgets backups that are no longer the gateway's and deletes the oldest beyond `retain`. */
    method Trim(i: nat, retain: nat) returns (r: Status, ghost removed: set<nat>)
      requires i < |disk| && i < |state.targets| && Wf(disk[i])
      modifies `disk, `state, `crashAt, `last
      ensures |disk| == |old(disk)| && forall j | 0 <= j < |disk| && j != i :: disk[j] == old(disk[j])
      ensures Trimmed(old(disk[i]), disk[i], removed)
      ensures removed <= Stamps(Excess(StillOwned(old(disk[i]), old(state.targets[i].backups)), retain))
      ensures r.Done? ==>
                state == Tracking(old(state), i, Retained(StillOwned(old(disk[i]), old(state.targets[i].backups)), retain))
      ensures !r.Done? ==> state == old(state)
      ensures !r.Failed? && (old(crashAt).None? ==> crashAt.None? && r.Done?)
      ensures |StillOwned(old(disk[i]), old(state.targets[i].backups))| <= retain ==>
                r.Done? && disk == old(disk) && crashAt == old(crashAt)
      ensures last == old(last) || (Concerns(last, i) && !Alarming(last, i))
      ensures r.Done? ==> forall o | o in Excess(StillOwned(old(disk[i]), old(state.targets[i].backups)), retain) ::
                Backup(o.stamp) !in disk[i].names
      ensures r.Done? ==> disk[i].names.Keys <= old(disk[i]).names.Keys
    {
      hide Wf, Trimmed, StillOwned, Intact;
      removed := {};
      var backups := StillOwned(disk[i], state.targets[i].backups);
      ghost var kept := backups;
      ghost var n := 0;
      NothingTrimmed(disk[i], {});
      while |backups| > retain
        invariant |disk| == |old(disk)| && forall j | 0 <= j < |disk| && j != i :: disk[j] == old(disk[j])
        invariant n <= |kept| && backups == kept[n..] && n <= |Excess(kept, retain)|
        invariant removed == Stamps(kept[..n]) && forall o | o in kept[..n] :: Backup(o.stamp) !in disk[i].names
        invariant Wf(disk[i]) && Trimmed(old(disk[i]), disk[i], removed)
        invariant disk[i].names.Keys <= old(disk[i]).names.Keys
        invariant |kept| <= retain ==> disk == old(disk) && crashAt == old(crashAt)
        invariant state == old(state) && (old(crashAt).None? ==> crashAt.None?)
        invariant last == old(last) || (Concerns(last, i) && !Alarming(last, i))
      {
        StampsExtend(kept, n);
        StampsMonotone(kept, n + 1, |Excess(kept, retain)|);
        ghost var s := disk[i];
        if backups[0].stamp !in removed { TrimmedKeepsIntact(old(disk[i]), s, removed, backups[0]); }
        r := RemoveBackup(i, backups[0]);
        TrimmedAway(s, disk[i], {backups[0].stamp});
        assert kept[..n + 1] == kept[..n] + [kept[n]];
        TrimmedTwice(old(disk[i]), s, disk[i], removed, {backups[0].stamp});
        removed := removed + {backups[0].stamp};
        if r.Crashed? { return; }
        n := n + 1;
        backups := backups[1..];
      }
      StampsMonotone(kept, n, |Excess(kept, retain)|);
      state := Tracking(state, i, backups);
      r := Done;
    }

    /** Copies the displaced original into the archive stage. */
    method WriteArchive(i: nat) returns (r: Status)
      requires Pending() && i < |disk| && Archiving(CellAt(i)) && !CellAt(i).Has(Archive) && state == durable
      modifies `disk, `crashAt, `last
      ensures Pending() && OnlyStep(i) && CellAt(i) == old(CellAt(i)).At(disk[i])
      ensures Archiving(CellAt(i))
      ensures r.Done? ==> Archived(CellAt(i)) && (Stuck(CellAt(i)) <==> old(Stuck(CellAt(i))))
      ensures old(crashAt) == Some(1) ==>
                r.Crashed?
                && disk[i] == Created(old(disk[i]), Archive, Image(CellAt(i).step.before.value.bytes, PRIVATE_MODE))
      ensures !r.Failed? && (old(crashAt).None? ==> crashAt.None? && r.Done?)
      ensures !clientActive && old(Stuck(CellAt(i))) && !r.Done? ==> Stuck(CellAt(i))
      ensures r.Done? ==> (Foreign(CellAt(i)) <==> old(Foreign(CellAt(i))))
      ensures !clientActive ==> Predicted(i, r.Done?)
      ensures SameBackup(i)
    {
      hide Open, Stuck, Wf, Still, Moved, Staging;
      var before := state.pending.value[i].before.value;
      ArchiveWritten(CellAt(i), PRIVATE_MODE);
      ArchiveProtected(CellAt(i), PRIVATE_MODE);
      if !Stuck(CellAt(i)) { TornArchive(CellAt(i), PRIVATE_MODE); }
      OpenHolds(CellAt(i));
      StillAtFirst(CellAt(i));
      ArchiveIsBeside(CellAt(i), Image(before.bytes, PRIVATE_MODE), before.mode);
      :- Create(i, Archive, Image(before.bytes, PRIVATE_MODE));
      :- Chmod(i, Archive, before.mode);
      r := Done;
    }

    /** Records a backup that is linked already. */
    method RecordBackup(i: nat, backups: seq<Owned>) returns (r: Status)
      requires Pending() && i < |disk| && Archived(CellAt(i))
      requires CellAt(i).Linked(Archive, Backup(CellAt(i).step.backup))
      requires state == Tracking(durable, i, backups)
      requires |backups| < MAX_BACKUPS && DistinctStamps(backups) && !Tracks(backups, CellAt(i).step.backup)
      modifies `durable, `state, `crashAt, `last
      ensures Pending() && OnlyStep(i) && Open(CellAt(i)) && CellAt(i) == old(CellAt(i)).(entry := durable.targets[i])
      ensures r.Done? ==> CellAt(i).entry.backups == backups + Own(CellAt(i).step)
      ensures r.Done? ==> state == durable && Archived(CellAt(i)) && CellAt(i).Tracked() && !Foreign(CellAt(i))
      ensures !r.Failed? && (old(crashAt).None? ==> crashAt.None? && r.Done?)
      ensures old(crashAt) == Some(0) ==> r.Crashed? && durable == old(durable)
      ensures Foreseen(i, r.Done?)
      ensures CellAt(i).entry == old(CellAt(i)).entry || CellAt(i).entry.backups == backups + Own(CellAt(i).step)
    {
      hide Open, Stuck, CellInv;
      var step := state.pending.value[i];
      var more := backups + [Owned(step.backup, step.before.value.bytes)];
      assert more[|backups|].stamp == step.backup;
      LinkedArchiveIsBackup(CellAt(i));
      EntryReplaced(CellAt(i), durable.targets[i].(backups := more));
      state := Tracking(state, i, more);
      :- Save();
      LinkedArchiveIsBackup(CellAt(i));
      RecordedIsNotForeign(CellAt(i), backups);
      r := Done;
    }

    /** Removes the archive stage once its bytes are safe. */
    method DropArchive(i: nat) returns (r: Status)
      requires Pending() && i < |disk| && Archived(CellAt(i)) && CellAt(i).BackedUp() && CellAt(i).Tracked()
      requires state == durable
      modifies `disk, `crashAt, `last
      ensures Pending() && OnlyStep(i) && Open(CellAt(i)) && CellAt(i) == old(CellAt(i)).At(disk[i])
      ensures r.Done? ==> Secured(CellAt(i))
      ensures !r.Failed? && (old(crashAt).None? ==> crashAt.None? && r.Done?)
      ensures r.Done? ==> (Foreign(CellAt(i)) <==> old(Foreign(CellAt(i))))
      ensures !clientActive ==> Predicted(i, r.Done?)
      ensures SameBackup(i) && CellAt(i).step.before == old(CellAt(i).step.before)
    {
      hide Open, Stuck, CellInv;
      ArchiveUnlinked(CellAt(i));
      :- Unlink(i, Archive);
      if !Foreign(CellAt(i)) { SecuredIsReady(CellAt(i)); }
      r := Done;
    }

    /** Trims the tracked backups to make room for one more. */
    method MakeRoom(i: nat) returns (r: Status)
      requires Pending() && i < |disk| && Archived(CellAt(i)) && state == durable
      requires !CellAt(i).Tracked() || !CellAt(i).Has(Backup(CellAt(i).step.backup))
      modifies `disk, `state, `crashAt, `last
      ensures Pending() && OnlyStep(i) && Archived(CellAt(i)) && CellAt(i) == old(CellAt(i)).At(disk[i])
      ensures CellAt(i).Has(Backup(CellAt(i).step.backup)) <==> old(CellAt(i).Has(Backup(CellAt(i).step.backup)))
      ensures CellAt(i).Linked(Archive, Backup(CellAt(i).step.backup)) <==>
              old(CellAt(i).Linked(Archive, Backup(CellAt(i).step.backup)))
      ensures r.Done? ==>
                && |state.targets| == |disk| && state == Tracking(durable, i, state.targets[i].backups)
                && |state.targets[i].backups| < MAX_BACKUPS && DistinctStamps(state.targets[i].backups)
                && !Tracks(state.targets[i].backups, CellAt(i).step.backup)
                && Roomy(old(CellAt(i)), disk[i], state.targets[i].backups)
      ensures !r.Failed? && (old(crashAt).None? ==> crashAt.None? && r.Done?)
      ensures r.Done? ==> (Foreign(CellAt(i)) <==> old(Foreign(CellAt(i))))
      ensures |old(state.targets[i].backups)| < MAX_BACKUPS ==> r.Done? && disk == old(disk) && crashAt == old(crashAt)
      ensures !clientActive ==> Predicted(i, r.Done?)
    {
      hide Open, Stuck, CellInv, Trimmed, StillOwned, Wf;
      var b := state.pending.value[i].backup;
      ghost var c := CellAt(i);
      OpenHolds(c);
      RetainedBackups(disk[i], state.targets[i].backups, MAX_BACKUPS - 1, b);
      ghost var removed;
      r, removed := Trim(i, MAX_BACKUPS - 1);
      TrimmedKeeps(c, disk[i], removed);
      if r.Done? { RoomMade(c, disk[i], removed); }
      FreeBackupIsReady(CellAt(i));
    }

    /** Records a backup that is linked already, for which room was made, and drops the stage; `c` is
        the step before room was made, and `t` what was left then. */
    method RecordAndDrop(i: nat, ghost c: Cell, ghost t: Slot) returns (r: Status)
      requires Pending() && i < |disk| && Archived(CellAt(i)) && CellAt(i).Linked(Archive, Backup(CellAt(i).step.backup))
      requires i < |state.targets| && state == Tracking(durable, i, state.targets[i].backups)
      requires |state.targets[i].backups| < MAX_BACKUPS && DistinctStamps(state.targets[i].backups)
      requires !Tracks(state.targets[i].backups, CellAt(i).step.backup)
      requires Roomy(c, t, state.targets[i].backups) && CellAt(i).entry == c.entry && CellAt(i).step == c.step
      requires forall n: nat | n != c.step.backup :: SameFile(t, disk[i], Backup(n))
      modifies `disk, `durable, `state, `crashAt, `last
      ensures Pending() && OnlyStep(i) && Open(CellAt(i)) && past == old(past) && CellAt(i).step == c.step
      ensures r.Done? ==> state == durable && Secured(CellAt(i)) && !Foreign(CellAt(i)) && Shelved(c, CellAt(i))
      ensures Logged(c, CellAt(i))
      ensures !r.Failed? && (old(crashAt).None? ==> crashAt.None? && r.Done?)
      ensures old(crashAt) == Some(0) ==> r.Crashed? && durable == old(durable) && disk == old(disk)
      ensures !clientActive ==> Foreseen(i, r.Done?)
    {
      hide Open, Stuck, CellInv, Trimmed, Wf, StillOwned, Roomy, Surviving, Recorded, Logged;
      ghost var backups := state.targets[i].backups;
      r := RecordBackup(i, state.targets[i].backups);
      RoomIsLogged(c, t, backups, CellAt(i));
      if !r.Done? { return; }
      ghost var d := CellAt(i);
      r := DropArchive(i);
      LoggedAgain(c, d, CellAt(i));
      if r.Done? {
        RoomIsRecorded(c, t, backups, CellAt(i));
      }
    }

    /** The archive stage is linked at the backup name already: tracks it there if it is not yet. */
    method KeepLinkedBackup(i: nat) returns (r: Status)
      requires Pending() && i < |disk| && Archived(CellAt(i)) && state == durable
      requires CellAt(i).Linked(Archive, Backup(CellAt(i).step.backup))
      modifies `disk, `durable, `state, `crashAt, `last
      ensures Pending() && OnlyStep(i) && Open(CellAt(i)) && past == old(past)
      ensures CellAt(i).step == old(CellAt(i).step)
      ensures r.Done? ==> state == durable && Secured(CellAt(i))
      ensures !r.Failed? && (old(crashAt).None? ==> crashAt.None? && r.Done?)
      ensures r.Done? ==> (Foreign(CellAt(i)) <==> old(Foreign(CellAt(i))))
      ensures !clientActive ==> Predicted(i, r.Done?)
      ensures r.Done? ==> Shelved(old(CellAt(i)), CellAt(i))
      ensures Logged(old(CellAt(i)), CellAt(i))
    {
      hide Open, Stuck, CellInv, Trimmed, Wf, StillOwned, Foreign, Roomy, Recorded, Surviving;
      LinkedArchiveIsBackup(CellAt(i));
      if BackupEntry(state.targets[i].backups, state.pending.value[i].backup).None? {
        UntrackedIsNotForeign(CellAt(i));
        :- MakeRoom(i);
        r := RecordAndDrop(i, old(CellAt(i)), disk[i]);
      } else {
        r := DropArchive(i);
      }
    }

    /** Links the archive stage at the backup name, which no file has, and tracks it. */
    method LinkBackup(i: nat) returns (r: Status)
      requires Pending() && i < |disk| && Archived(CellAt(i)) && state == durable
      requires !CellAt(i).Has(Backup(CellAt(i).step.backup))
      modifies `disk, `durable, `state, `crashAt, `last
      ensures Pending() && OnlyStep(i) && Open(CellAt(i)) && past == old(past)
      ensures CellAt(i).step == old(CellAt(i).step)
      ensures r.Done? ==> state == durable && Secured(CellAt(i))
      ensures !r.Failed? && (old(crashAt).None? ==> crashAt.None? && r.Done?)
      ensures r.Done? ==> (Foreign(CellAt(i)) <==> old(Foreign(CellAt(i))))
      ensures old(crashAt) == Some(1) && |old(durable.targets[i].backups)| < MAX_BACKUPS ==>
                r.Crashed? && durable == old(durable)
                && disk[i] == Linked(old(disk[i]), Archive, Backup(old(CellAt(i).step.backup)))
      ensures !clientActive ==> Predicted(i, r.Done?)
      ensures r.Done? ==> Shelved(old(CellAt(i)), CellAt(i))
      ensures Logged(old(CellAt(i)), CellAt(i))
    {
      hide Open, Stuck, CellInv, Trimmed, Wf, StillOwned, Roomy, Recorded, Surviving;
      :- MakeRoom(i);
      ghost var t := disk[i];
      BackupLinked(CellAt(i));
      :- Link(i, Archive, Backup(state.pending.value[i].backup));
      LinkedArchiveIsBackup(CellAt(i));
      r := RecordAndDrop(i, old(CellAt(i)), t);
    }

    /** Another file has the backup's name, which is not tracked: takes the next name that is free. */
    method PassOver(i: nat) returns (r: Status)
      requires Pending() && i < |disk| && Archived(CellAt(i)) && state == durable
      requires !CellAt(i).Linked(Archive, Backup(CellAt(i).step.backup))
      requires CellAt(i).Has(Backup(CellAt(i).step.backup)) && !CellAt(i).Tracked()
      modifies `durable, `state, `crashAt, `last
      ensures Pending() && OnlyStep(i) && Archived(CellAt(i))
      ensures CellAt(i).step == old(CellAt(i).step).(backup := CellAt(i).step.backup)
      ensures !old(Stuck(CellAt(i))) && !Stuck(CellAt(i)) && !old(Foreign(CellAt(i)))
      ensures r.Done? ==> state == durable && !Foreign(CellAt(i)) && !CellAt(i).Has(Backup(CellAt(i).step.backup))
      ensures !r.Failed? && (old(crashAt).None? ==> crashAt.None? && r.Done?)
      ensures !old(Alarming(last, i)) ==> !Alarming(last, i)
      ensures Still(old(CellAt(i)), CellAt(i))
    {
      hide Open, Stuck, CellInv;
      var step := state.pending.value[i];
      var stamp := NextCollision(disk[i], step.backup + 1);
      BackupMovedOn(CellAt(i), stamp);
      UntrackedIsNotForeign(CellAt(i));
      state := Updated(state, i, step.(backup := stamp));
      :- Save();
      r := Done;
    }

    /** Gives the archive stage a second link at the step's backup name and tracks it there; a name
        that another file has is passed over. */
    method SecureBackup(i: nat) returns (r: Status)
      requires Pending() && i < |disk| && Archived(CellAt(i)) && state == durable
      modifies `disk, `durable, `state, `crashAt, `last
      ensures Pending() && OnlyStep(i) && Open(CellAt(i)) && past == old(past)
      ensures CellAt(i).step == old(CellAt(i).step).(backup := CellAt(i).step.backup)
      ensures r.Done? ==> state == durable && Secured(CellAt(i)) && !old(Stuck(CellAt(i)))
      ensures old(crashAt).None? ==> crashAt.None? && (r.Done? || old(Stuck(CellAt(i))))
      ensures !clientActive && old(Stuck(CellAt(i))) && !r.Done? ==> Stuck(CellAt(i))
      ensures r.Done? ==> (Foreign(CellAt(i)) <==> old(Foreign(CellAt(i))))
      ensures !clientActive ==> Predicted(i, r.Done?)
      ensures r.Done? ==> Shelved(old(CellAt(i)), CellAt(i))
      ensures Logged(old(CellAt(i)), CellAt(i))
    {
      hide Logged, Still, Shelved, Open, Stuck, CellInv, Trimmed, Wf, StillOwned;
      StillAtFirst(CellAt(i));
      while true
        invariant Pending() && OnlyStep(i) && Archived(CellAt(i)) && state == durable && past == old(past)
        invariant CellAt(i).step == old(CellAt(i).step).(backup := CellAt(i).step.backup)
        invariant Still(old(CellAt(i)), CellAt(i))
        invariant Stuck(CellAt(i)) <==> old(Stuck(CellAt(i)))
        invariant Foreign(CellAt(i)) <==> old(Foreign(CellAt(i)))
        invariant !old(Alarming(last, i)) ==> !Alarming(last, i)
        invariant old(crashAt).None? ==> crashAt.None?
        decreases CellAt(i).Has(Backup(CellAt(i).step.backup))
      {
        ghost var c := CellAt(i);
        StillIsLogged(old(CellAt(i)), c);
        var step := state.pending.value[i];
        var owned := BackupEntry(state.targets[i].backups, step.backup);
        if Backup(step.backup) !in disk[i].names {
          BackupLinked(c);
          r := LinkBackup(i);
          LoggedAfterStill(old(CellAt(i)), c, CellAt(i));
          if r.Done? { ShelvedAfterStill(old(CellAt(i)), c, CellAt(i)); }
          return;
        }
        if Same(disk[i], Archive, Backup(step.backup)) {
          LinkedArchiveIsBackup(c);
          r := KeepLinkedBackup(i);
          LoggedAfterStill(old(CellAt(i)), c, CellAt(i));
          if r.Done? { ShelvedAfterStill(old(CellAt(i)), c, CellAt(i)); }
          return;
        }
        if owned.Some? {
          BackupAdopted(c);
          if !AdoptsBackup(disk[i], step, owned.value) { return Failed; }
          AdoptedIsNotForeign(c);
          r := DropArchive(i);
          StillTransitive(old(CellAt(i)), c, CellAt(i));
          if r.Done? { StillIsShelved(old(CellAt(i)), CellAt(i)); }
          return;
        }
        r := PassOver(i);
        StillTransitive(old(CellAt(i)), c, CellAt(i));
        if !r.Done? { return; }
      }
    }

    /** Keeps the displaced original in a backup beside the target. */
    method ArchiveDisplaced(i: nat) returns (r: Status)
      requires Pending() && i < |disk| && Archiving(CellAt(i)) && state == durable
      modifies `disk, `durable, `state, `crashAt, `last
      ensures Pending() && OnlyStep(i) && Open(CellAt(i)) && past == old(past)
      ensures CellAt(i).step == old(CellAt(i).step).(backup := CellAt(i).step.backup)
      ensures r.Done? ==> state == durable && Secured(CellAt(i)) && !old(Stuck(CellAt(i)))
      ensures old(crashAt).None? ==> crashAt.None? && (r.Done? || old(Stuck(CellAt(i))))
      ensures !clientActive && old(Stuck(CellAt(i))) && !r.Done? ==> Stuck(CellAt(i))
      ensures r.Done? ==> (Foreign(CellAt(i)) <==> old(Foreign(CellAt(i))))
      ensures !clientActive ==> Predicted(i, r.Done?)
      ensures r.Done? ==> Shelved(old(CellAt(i)), CellAt(i))
      ensures Logged(old(CellAt(i)), CellAt(i))
    {
      hide Still, Shelved, Open, Stuck, CellInv, Foreign;
      ArchiveRead(CellAt(i));
      var step := state.pending.value[i];
      StillAtFirst(CellAt(i));
      var staged := Read(disk[i], Archive, Some(Backup(step.backup)));
      if staged == Got(None) {
        r := WriteArchive(i);
        StillIsLogged(old(CellAt(i)), CellAt(i));
        if !r.Done? { return; }
      } else if staged != Got(step.before) {
        return Failed;
      }
      ghost var c := CellAt(i);
      r := SecureBackup(i);
      LoggedAfterStill(old(CellAt(i)), c, CellAt(i));
      if r.Done? { ShelvedAfterStill(old(CellAt(i)), c, CellAt(i)); }
    }

    // ---- publishing ----

    /** The new file is ready and the original is out of the way, or there was none. */
    ghost predicate Cleared(i: nat)
      requires Pending() && i < |disk|
      reads `disk, `durable, `past
    {
      var c := CellAt(i);
      && Open(c) && !c.Linked(Next, Previous) && c.Shows(Next, Some(c.step.after))
      && (if c.Has(Previous) then Archiving(c) else c.step.before.None? && (c.Has(Target) ==> clientActive))
    }

    /** Moves the target to `previous` and journals the image that was really moved. */
    method Displace(i: nat) returns (r: Status)
      requires Pending() && i < |disk| && Open(CellAt(i)) && state == durable && !CellAt(i).Has(Previous)
      requires disk[i].scratch && CellAt(i).Shows(Next, Some(CellAt(i).step.after))
      requires past[i].displaced.None?
      modifies `disk, `durable, `state, `crashAt, `last, `past
      ensures Pending() && OnlyStep(i) && Open(CellAt(i))
      ensures r.Done? ==> state == durable && Cleared(i) && !Stuck(CellAt(i))
      ensures r.Done? ==> clientActive || !old(Stuck(CellAt(i)))
      ensures past[i].linked == old(past[i].linked)
      ensures r.Done? && !clientActive ==> past[i].displaced == old(CellAt(i).Image(Target))
      ensures r.Done? ==> !CellAt(i).Has(Archive) && (past[i].displaced.Some? <==> CellAt(i).Has(Previous))
      ensures old(crashAt).None? ==> crashAt.None? && (r.Done? || clientActive || old(Stuck(CellAt(i))))
      ensures !clientActive && old(Stuck(CellAt(i))) && !r.Done? ==> Stuck(CellAt(i))
      ensures r.Done? ==> (Foreign(CellAt(i)) <==> old(Foreign(CellAt(i))))
      ensures !clientActive ==> Predicted(i, r.Done?)
      ensures SameBackup(i)
      ensures !clientActive ==> OriginKept(old(CellAt(i)), CellAt(i))
    {
      hide Open, Stuck, CellInv, Moved, Staging, Foreign;
      var step := state.pending.value[i];
      BeforeDisplacing(CellAt(i));
      StagingIsNotForeign(CellAt(i));
      if Archive in disk[i].names || QNext in disk[i].names
         || QPrevious in disk[i].names || QArchive in disk[i].names
         || Read(disk[i], Next, Some(Target)) != Got(Some(step.after)) {
        return Failed;
      }
      var latest := Read(disk[i], Target, Some(Next));
      if latest.Unsafe? { return Failed; }
      if step.before != latest.image {
        Replanned(CellAt(i), latest.image);
        state := Updated(state, i, step.(before := latest.image));
        :- Save();
      }
      BeforeDisplacing(CellAt(i));
      StagingIsNotForeign(CellAt(i));
      if latest.image.Some? {
        r := MoveAside(i);
      } else {
        r := Done;
      }
    }

    /** A moment at which clients may write the target. */
    method ClientWindow(i: nat)
      requires Pending() && i < |disk| && Open(CellAt(i)) && state == durable
      modifies `disk
      ensures Pending() && OnlyStep(i) && Open(CellAt(i)) && CellAt(i) == old(CellAt(i)).At(disk[i])
      ensures ClientSafe(old(CellAt(i)), disk[i])
      ensures !clientActive ==> disk == old(disk)
      ensures SameBackup(i)
    {
      hide Still, Open, ClientEdit, ClientSafe;
      ghost var c := CellAt(i);
      ClientWrites(i);
      ClientEdited(c, disk[i]);
      OpenAgain(c, disk[i]);
      ClientIsStill(c, disk[i]);
    }

    method MoveAside(i: nat) returns (r: Status)
      requires Pending() && i < |disk| && Open(CellAt(i)) && state == durable && !CellAt(i).Has(Previous)
      requires disk[i].scratch && CellAt(i).Shows(Next, Some(CellAt(i).step.after)) && CellAt(i).Has(Target)
      requires past[i].displaced.None?
      modifies `disk, `durable, `state, `crashAt, `last, `past
      ensures Pending() && OnlyStep(i) && Open(CellAt(i))
      ensures r.Done? ==> state == durable && Archiving(CellAt(i)) && CellAt(i).Shows(Next, Some(CellAt(i).step.after))
      ensures r.Done? ==> !Stuck(CellAt(i)) && (clientActive || !old(Stuck(CellAt(i))))
      ensures past[i].linked == old(past[i].linked)
      ensures r.Done? ==> !CellAt(i).Has(Archive) && past[i].displaced.Some?
      ensures r.Done? && !clientActive ==> past[i].displaced == old(CellAt(i).Image(Target))
      ensures old(crashAt).None? ==> crashAt.None? && (r.Done? || clientActive || old(Stuck(CellAt(i))))
      ensures !clientActive && old(Stuck(CellAt(i))) && !r.Done? ==> Stuck(CellAt(i))
      ensures r.Done? ==> (Foreign(CellAt(i)) <==> old(Foreign(CellAt(i))))
      ensures !clientActive ==> Predicted(i, r.Done?)
      ensures SameBackup(i)
      ensures !clientActive ==> OriginKept(old(CellAt(i)), CellAt(i))
    {
      hide Still, Logged, Open, Stuck, CellInv, Moved, Staging;
      BeforeDisplacing(CellAt(i));
      ghost var c := CellAt(i);
      ClientWindow(i);
      if Target !in disk[i].names { return Failed; }
      var ino := disk[i].names[Target].ino;
      ghost var d := CellAt(i);
      ClientWindow(i);
      ghost var e := CellAt(i);
      StillTransitive(c, d, e);
      if Target !in disk[i].names { return Failed; }
      r := RenameAside(i, ino);
      StillTransitive(c, e, CellAt(i));
    }

    method RenameAside(i: nat, ino: nat) returns (r: Status)
      requires Pending() && i < |disk| && Open(CellAt(i)) && state == durable && !CellAt(i).Has(Previous)
      requires disk[i].scratch && CellAt(i).Shows(Next, Some(CellAt(i).step.after)) && CellAt(i).Has(Target)
      requires past[i].displaced.None?
      modifies `disk, `durable, `state, `crashAt, `last, `past
      ensures Pending() && OnlyStep(i) && Open(CellAt(i))
      ensures r.Done? ==> state == durable && Archiving(CellAt(i)) && CellAt(i).Shows(Next, Some(CellAt(i).step.after))
      ensures r.Done? ==> !Stuck(CellAt(i)) && !old(CellAt(i).Linked(Next, Target)) && old(disk[i].names[Target].ino) == ino
      ensures past[i].linked == old(past[i].linked)
      ensures r.Done? ==> !CellAt(i).Has(Archive) && past[i].displaced == old(CellAt(i).Image(Target))
      ensures old(crashAt).None? ==>
                crashAt.None? && (r.Done? || old(disk[i].names[Target].ino) != ino || old(CellAt(i).Linked(Next, Target)))
      ensures !clientActive && old(Stuck(CellAt(i))) && !r.Done? ==> Stuck(CellAt(i))
      ensures r.Done? ==> (Foreign(CellAt(i)) <==> old(Foreign(CellAt(i))))
      ensures !clientActive ==> Predicted(i, r.Done?)
      ensures SameBackup(i)
      ensures !clientActive ==> OriginKept(old(CellAt(i)), CellAt(i))
    {
      hide Still, Logged, Open, Stuck, CellInv, Moved, Staging, Foreign, Explained, Hazard;
      QuietStep(i);
      ghost var c := CellAt(i);
      BeforeDisplacing(c);
      Displacement(c);
      StagingIsNotForeign(c);
      MovedIsNotForeign(c);
      DisplacingIsStill(c);
      StillAtFirst(c);
      :- Rename(i, Target, Previous);
      past := past[i := Past(c.Image(Target), past[i].linked)];
      QuietStep(i);
      if disk[i].names[Previous].ino != ino { return Failed; }
      ghost var d := CellAt(i);
      r := RecordDisplaced(i);
      StillTransitive(c, d, CellAt(i));
    }

    /** Journals the image that was really moved. */
    method RecordDisplaced(i: nat) returns (r: Status)
      requires Pending() && i < |disk| && Open(CellAt(i)) && state == durable
      requires CellAt(i).Has(Previous) && !CellAt(i).Has(Target)
      requires Read(disk[i], Previous, None) ==
               if CellAt(i).Linked(Next, Previous) then Unsafe else Got(CellAt(i).Image(Previous))
      modifies `durable, `state, `crashAt, `last
      ensures Pending() && OnlyStep(i) && Open(CellAt(i))
      ensures r.Done? ==> state == durable && Archiving(CellAt(i)) && CellAt(i) == Revalidated(old(CellAt(i)))
      ensures Stuck(CellAt(i)) <==> old(Stuck(CellAt(i)))
      ensures old(crashAt).None? ==> crashAt.None? && (r.Done? || old(CellAt(i).Linked(Next, Previous)))
      ensures r.Done? ==> !old(CellAt(i).Linked(Next, Previous))
      ensures r.Done? ==> (Foreign(CellAt(i)) <==> old(Foreign(CellAt(i))))
      ensures Foreseen(i, r.Done?)
      ensures SameBackup(i)
    {
      hide Open, Stuck, CellInv, Moved, Staging, Foreign, Explained, Hazard;
      QuietStep(i);
      var actual :- Read(disk[i], Previous, None);
      OpenHolds(CellAt(i));
      Revalidation(CellAt(i));
      RevalidatedIsArchiving(CellAt(i));
      if actual != state.pending.value[i].before {
        state := Updated(state, i, state.pending.value[i].(before := actual));
        :- Save();
      }
      QuietStep(i);
      r := Done;
    }

    /** Publishes over a displaced original. */
    method PublishDisplaced(i: nat) returns (r: Status)
      requires Pending() && i < |disk| && Archiving(CellAt(i)) && state == durable
      modifies `disk, `durable, `state, `crashAt, `last, `past
      ensures Pending() && OnlyStep(i) && CellInv(CellAt(i)) && past[i].displaced == old(past[i].displaced)
      ensures r.Done? ==> state == durable && Cleaning(CellAt(i)) && !Stuck(CellAt(i)) && !old(Stuck(CellAt(i)))
      ensures old(crashAt).None? ==> crashAt.None? && (r.Done? || clientActive || old(Stuck(CellAt(i))))
      ensures !clientActive && old(Stuck(CellAt(i))) && !r.Done? ==> Stuck(CellAt(i))
      ensures r.Done? ==> (Foreign(CellAt(i)) <==> old(Foreign(CellAt(i))))
      ensures !clientActive ==> Predicted(i, r.Done?)
      ensures r.Done? ==> Shelved(old(CellAt(i)), CellAt(i))
      ensures Logged(old(CellAt(i)), CellAt(i))
      ensures !clientActive ==> OriginKept(old(CellAt(i)), CellAt(i))
    {
      hide Still, Shelved, Open, Stuck, CellInv, Moved, Staging, Landed, Archiving, Secured, ClientSafe, Foreign;
      ArchivingHolds(CellAt(i));
      ArchivingHasOriginal(CellAt(i));
      r := ArchiveDisplaced(i);
      OpenHolds(CellAt(i));
      if !r.Done? { return; }
      SecuredReady(CellAt(i));
      ghost var c := CellAt(i);
      StillAtFirst(c);
      if !state.pending.value[i].phase.Displaced? {
        r := MarkDisplaced(i);
        StillAfterLogged(old(CellAt(i)), c, CellAt(i));
        if !r.Done? { return; }
      }
      ghost var d := CellAt(i);
      r := LinkOverDisplaced(i);
      StillTransitive(c, d, CellAt(i));
      StillAfterLogged(old(CellAt(i)), c, CellAt(i));
      if r.Done? {
        StillAfterShelved(old(CellAt(i)), c, CellAt(i));
      }
    }

    method MarkDisplaced(i: nat) returns (r: Status)
      requires Pending() && i < |disk| && Secured(CellAt(i)) && state == durable
      modifies `durable, `state, `crashAt, `last
      ensures Pending() && OnlyStep(i) && CellInv(CellAt(i))
      ensures r.Done? ==> state == durable && CellAt(i) == old(CellAt(i)).In(Displaced) && Secured(CellAt(i))
      ensures !r.Failed? && (old(crashAt).None? ==> crashAt.None? && r.Done?)
      ensures r.Done? ==> (Foreign(CellAt(i)) <==> old(Foreign(CellAt(i))))
      ensures old(crashAt) == Some(0) ==> r.Crashed? && durable == old(durable)
      ensures !clientActive ==> Predicted(i, r.Done?)
      ensures SameBackup(i) && CellAt(i).step.before == old(CellAt(i).step.before)
    {
      hide Open, Stuck, CellInv, Moved, Staging, Landed, Archiving, Secured;
      SecuredHolds(CellAt(i));
      SecuredReady(CellAt(i));
      state := Updated(state, i, state.pending.value[i].(phase := Displaced));
      :- Save();
      SecuredHolds(CellAt(i));
      if !Foreign(CellAt(i)) { SecuredIsReady(CellAt(i)); }
      r := Done;
    }

    method LinkOverDisplaced(i: nat) returns (r: Status)
      requires Pending() && i < |disk| && Secured(CellAt(i)) && state == durable
      requires CellAt(i).step.phase.Displaced?
      modifies `disk, `durable, `state, `crashAt, `last, `past
      ensures Pending() && OnlyStep(i) && CellInv(CellAt(i)) && past[i].displaced == old(past[i].displaced)
      ensures r.Done? ==> state == durable && Cleaning(CellAt(i)) && !Stuck(CellAt(i))
      ensures old(crashAt) == Some(1) && !clientActive ==> r.Crashed? && CellAt(i) == Publishing(old(CellAt(i)))
      ensures old(crashAt).None? ==> crashAt.None? && (r.Done? || clientActive)
      ensures r.Done? ==> (Foreign(CellAt(i)) <==> old(Foreign(CellAt(i))))
      ensures !clientActive ==> Predicted(i, r.Done?)
      ensures SameBackup(i) && CellAt(i).step.before == old(CellAt(i).step.before)
    {
      hide Still, Open, Stuck, CellInv, Moved, Staging, Landed, Archiving, Secured, ClientSafe, Foreign;
      SecuredHolds(CellAt(i));
      SecuredReady(CellAt(i));
      if Read(disk[i], Next, Some(Target)) != Got(Some(state.pending.value[i].after)) { return Failed; }
      ghost var c := CellAt(i);
      ClientWindow(i);
      ClientKeepsForeign(c, disk[i]);
      ClientIsStill(c, disk[i]);
      ghost var d := CellAt(i);
      OpenHolds(CellAt(i));
      if Target !in disk[i].names { ClientKeepsSecured(c, disk[i]); } else { TargetStays(c, disk[i]); }
      if Target !in disk[i].names {
        SecuredReady(CellAt(i));
        PublicationOverDisplaced(CellAt(i));
        PublishingKeepsForeign(CellAt(i));
        PublishingIsStill(d);
        StillTransitive(c, d, Publishing(d));
      }
      :- Link(i, Next, Target);
      past := past[i := past[i].(linked := true)];
      :- Unlink(i, Next);
      Landing(CellAt(i));
      StillTransitive(c, d, CellAt(i));
      ghost var e := CellAt(i);
      r := MarkPublished(i);
      StillTransitive(c, e, CellAt(i));
    }

    /** Publishes where there was no file. */
    method PublishOverNothing(i: nat) returns (r: Status)
      requires Pending() && i < |disk| && Open(CellAt(i)) && state == durable && !CellAt(i).Has(Previous)
      requires CellAt(i).step.before.None? && CellAt(i).Shows(Next, Some(CellAt(i).step.after))
      modifies `disk, `durable, `state, `crashAt, `last, `past
      ensures Pending() && OnlyStep(i) && CellInv(CellAt(i)) && past[i].displaced == old(past[i].displaced)
      ensures r.Done? ==> state == durable && Cleaning(CellAt(i)) && !Stuck(CellAt(i))
      ensures old(crashAt) == Some(1) && !clientActive && !old(CellAt(i).Has(Target)) ==>
                r.Crashed? && CellAt(i) == Publishing(old(CellAt(i)))
      ensures old(crashAt).None? ==> crashAt.None? && (r.Done? || clientActive || old(CellAt(i).Has(Target)))
      ensures !clientActive && old(Stuck(CellAt(i))) && !r.Done? ==> Stuck(CellAt(i))
      ensures r.Done? ==> (Foreign(CellAt(i)) <==> old(Foreign(CellAt(i))))
      ensures !clientActive ==> Predicted(i, r.Done?)
      ensures SameBackup(i) && CellAt(i).step.before == old(CellAt(i).step.before)
      ensures !clientActive ==> OriginKept(old(CellAt(i)), CellAt(i))
    {
      hide Still, Open, Stuck, CellInv, Moved, Staging, Landed, Archiving, Secured, ClientSafe;
      BeforeDisplacing(CellAt(i));
      OpenHolds(CellAt(i));
      if Read(disk[i], Next, Some(Target)) != Got(Some(state.pending.value[i].after)) { return Failed; }
      ghost var c := CellAt(i);
      ClientWindow(i);
      OpenHolds(CellAt(i));
      TargetStays(c, disk[i]);
      ClientIsStill(c, disk[i]);
      ghost var d := CellAt(i);
      if Target in disk[i].names {
        r := Link(i, Next, Target);
      } else {
        r := LinkOverNothing(i);
        StillTransitive(c, d, CellAt(i));
      }
    }

    method LinkOverNothing(i: nat) returns (r: Status)
      requires Pending() && i < |disk| && Open(CellAt(i)) && state == durable
      requires !CellAt(i).Has(Previous) && !CellAt(i).Has(Target)
      requires CellAt(i).step.before.None? && CellAt(i).Shows(Next, Some(CellAt(i).step.after))
      modifies `disk, `durable, `state, `crashAt, `last, `past
      ensures Pending() && OnlyStep(i) && CellInv(CellAt(i)) && past[i].displaced == old(past[i].displaced)
      ensures r.Done? ==> state == durable && Cleaning(CellAt(i)) && !Stuck(CellAt(i))
      ensures old(crashAt) == Some(1) ==> r.Crashed? && CellAt(i) == Publishing(old(CellAt(i)))
      ensures old(crashAt).None? ==> crashAt.None? && r.Done?
      ensures r.Done? ==> (Foreign(CellAt(i)) <==> old(Foreign(CellAt(i))))
      ensures !clientActive ==> Predicted(i, r.Done?)
      ensures SameBackup(i) && CellAt(i).step.before == old(CellAt(i).step.before)
      ensures !clientActive ==> OriginKept(old(CellAt(i)), CellAt(i))
    {
      hide Open, Stuck, CellInv, Moved, Staging, Landed;
      OpenHolds(CellAt(i));
      PublicationOverNothing(CellAt(i));
      :- Link(i, Next, Target);
      past := past[i := past[i].(linked := true)];
      :- Unlink(i, Next);
      r := MarkPublished(i);
    }

    method MarkPublished(i: nat) returns (r: Status)
      requires Pending() && i < |disk| && CellInv(CellAt(i)) && state == durable
      requires Landed(CellAt(i).In(Published)) && !CellAt(i).Has(QNext)
      modifies `durable, `state, `crashAt, `last
      ensures Pending() && OnlyStep(i) && CellInv(CellAt(i))
      ensures r.Done? ==> state == durable && Cleaning(CellAt(i)) && !Stuck(CellAt(i))
      ensures !r.Failed? && (old(crashAt).None? ==> crashAt.None? && r.Done?)
      ensures r.Done? ==> (Foreign(CellAt(i)) <==> old(Foreign(CellAt(i))))
      ensures !clientActive ==> Predicted(i, r.Done?)
      ensures SameBackup(i) && CellAt(i).step.before == old(CellAt(i).step.before)
    {
      hide Landed, Staging, Moved, Stuck;
      state := Updated(state, i, state.pending.value[i].(phase := Published));
      :- Save();
      CleaningHolds(CellAt(i));
      r := Done;
    }

    /** Carries one prepared step from where it is to its publication. */
    method PublishStep(i: nat, at: Position) returns (r: Status)
      requires Pending() && i < |disk| && Open(CellAt(i)) && state == durable && !at.AtAfter?
      requires disk[i].scratch && CellAt(i).Shows(Next, Some(CellAt(i).step.after))
      requires at.AtGap? ==> Archiving(CellAt(i))
      requires at.AtBefore? && CellAt(i).Has(Previous) ==> Stuck(CellAt(i))
      modifies `disk, `durable, `state, `crashAt, `last, `past
      ensures Pending() && OnlyStep(i) && CellInv(CellAt(i))
      ensures r.Done? ==> state == durable && Cleaning(CellAt(i)) && !Stuck(CellAt(i))
      ensures r.Done? ==> clientActive || !old(Stuck(CellAt(i)))
      ensures old(crashAt).None? ==> crashAt.None? && (r.Done? || clientActive || old(Stuck(CellAt(i))))
      ensures !clientActive && old(Stuck(CellAt(i))) && !r.Done? ==> Stuck(CellAt(i))
      ensures r.Done? ==> (Foreign(CellAt(i)) <==> old(Foreign(CellAt(i))))
      ensures !clientActive ==> Predicted(i, r.Done?)
      ensures r.Done? ==> Shelved(old(CellAt(i)), CellAt(i))
      ensures Logged(old(CellAt(i)), CellAt(i))
      ensures !clientActive ==> OriginKept(old(CellAt(i)), CellAt(i))
    {
      hide Still, Shelved, Open, Stuck, CellInv, Moved, Staging, Landed, Archiving, Secured, Foreign;
      OpenHolds(CellAt(i));
      StillAtFirst(CellAt(i));
      if at.AtBefore? {
        if Previous in disk[i].names { return Failed; }
        NothingDisplaced(CellAt(i));
        r := Displace(i);
        StillIsLogged(old(CellAt(i)), CellAt(i));
        OpenHolds(CellAt(i));
        if !r.Done? { return; }
      }
      ghost var c := CellAt(i);
      if state.pending.value[i].before.Some? && Previous in disk[i].names {
        r := PublishDisplaced(i);
        LoggedAfterStill(old(CellAt(i)), c, CellAt(i));
        if r.Done? { ShelvedAfterStill(old(CellAt(i)), c, CellAt(i)); }
      } else {
        ArchivingHasOriginal(CellAt(i));
        r := PublishOverNothing(i);
        StillTransitive(old(CellAt(i)), c, CellAt(i));
        if r.Done? { StillIsShelved(old(CellAt(i)), CellAt(i)); }
      }
    }

    // ---- executing a pending replacement ----

    /** What a run never takes back. */
    twostate predicate Onward()
      requires old(Pending()) && Pending()
      reads `disk, `durable, `past
    {
      && |disk| == |old(disk)|
      && durable.revision == old(durable.revision)
      && forall j | 0 <= j < |disk| ::
           && CellAt(j).step.after == old(CellAt(j).step.after)
           && (old(CellAt(j).step.phase.Published?) ==> CellAt(j).step.phase.Published?)
           && (old(past[j].displaced.Some?) ==> past[j].displaced == old(past[j].displaced))
           && (old(past[j].linked) ==> past[j].linked)
    }

    ghost predicate Positioned(i: nat, at: Position)
      requires Pending() && i < |disk|
      reads `disk, `durable, `past
    {
      if at.AtAfter? then Cleaning(CellAt(i)) && !Stuck(CellAt(i))
      else
        && Open(CellAt(i)) && disk[i].scratch && CellAt(i).Shows(Next, Some(CellAt(i).step.after))
        && (at.AtGap? ==> Archiving(CellAt(i)))
        && (at.AtBefore? && CellAt(i).Has(Previous) ==> Stuck(CellAt(i)))
    }

    /** Locates and stages every step before any target is touched. */
    method StageAll() returns (r: Status, positions: seq<Position>)
      requires Inv() && state == durable
      modifies `disk, `durable, `state, `crashAt, `last
      ensures Inv() && Onward()
      ensures r.Done? ==> state == durable && |positions| == |disk|
      ensures r.Done? ==> forall k | 0 <= k < |disk| :: Positioned(k, positions[k])
      ensures r.Done? ==> forall k | 0 <= k < |disk| :: Stuck(CellAt(k)) <==> old(Stuck(CellAt(k)))
      ensures r.Done? ==> forall k | 0 <= k < |disk| :: Beside(old(disk[k]), disk[k], {Next})
      ensures old(crashAt).None? ==>
                crashAt.None? && (r.Done? || exists k | 0 <= k < |old(disk)| :: old(Stuck(CellAt(k))))
      ensures !clientActive && !r.Done? ==>
                forall k | 0 <= k < |disk| && old(Stuck(CellAt(k))) :: Stuck(CellAt(k))
      ensures r.Done? ==> forall k | 0 <= k < |disk| :: Foreign(CellAt(k)) <==> old(Foreign(CellAt(k)))
      ensures forall k | 0 <= k < |disk| ::
                Still(old(CellAt(k)), CellAt(k)) && CellAt(k).step.backup == old(CellAt(k).step.backup)
      ensures !clientActive && old(AllQuiet() && NoneForeign()) ==> AllExplained() && (r.Done? ==> AllQuiet())
      ensures forall k | 0 <= k < |disk| :: CellAt(k).Origin() == old(CellAt(k).Origin())
    {
      hide Still, Open, Stuck, CellInv, Archiving, Cleaning, Beside, Foreign;
      hide Quiet, Explained, AllQuiet, AllExplained, Foreseen, Alarming, Hazard;
      positions := [];
      forall k | 0 <= k < |disk| ensures Still(CellAt(k), CellAt(k)) { StillAtFirst(CellAt(k)); }
      var i := 0;
      while i < |disk|
        invariant i <= |disk| == |old(disk)| && |positions| == i
        invariant Inv() && Onward() && state == durable
        invariant forall k | 0 <= k < i :: Positioned(k, positions[k])
        invariant forall k | i <= k < |disk| :: CellAt(k) == old(CellAt(k)) && disk[k] == old(disk[k])
        invariant forall k | 0 <= k < |disk| :: Stuck(CellAt(k)) <==> old(Stuck(CellAt(k)))
        invariant forall k | 0 <= k < |disk| :: Foreign(CellAt(k)) <==> old(Foreign(CellAt(k)))
        invariant forall k | 0 <= k < i :: Beside(old(disk[k]), disk[k], {Next})
        invariant forall k | 0 <= k < |disk| :: CellAt(k).Origin() == old(CellAt(k).Origin())
        invariant forall k | 0 <= k < |disk| ::
                    Still(old(CellAt(k)), CellAt(k)) && CellAt(k).step.backup == old(CellAt(k).step.backup)
        invariant !clientActive && old(AllQuiet() && NoneForeign()) ==> AllQuiet()
        invariant old(crashAt).None? ==> crashAt.None?
      {
        label staging:
        var at;
        r, at := StageOne(i);
        OthersStayQuiet@staging(i);
        BesideKeepsOrigin(old@staging(CellAt(i)), CellAt(i));
        forall k | 0 <= k < |disk| ensures Still(old(CellAt(k)), CellAt(k)) {
          if k != i { assert CellAt(k) == old@staging(CellAt(k)); }
        }
        if !r.Done? { return; }
        positions := positions + [at];
        i := i + 1;
      }
      QuietIsExplained();
      r := Done;
    }

    method StageOne(i: nat) returns (r: Status, at: Position)
      requires Pending() && i < |disk| && CellInv(CellAt(i)) && state == durable
      modifies `disk, `durable, `state, `crashAt, `last
      ensures Pending() && OnlyStep(i) && CellInv(CellAt(i)) && past == old(past)
      ensures r.Done? ==> state == durable && Positioned(i, at)
      ensures r.Done? ==> (Stuck(CellAt(i)) <==> old(Stuck(CellAt(i))))
      ensures Beside(old(disk[i]), disk[i], {Next})
      ensures old(crashAt).None? ==> crashAt.None? && (r.Done? || old(Stuck(CellAt(i))))
      ensures !clientActive && old(Stuck(CellAt(i))) && !r.Done? ==> Stuck(CellAt(i))
      ensures r.Done? ==> (Foreign(CellAt(i)) <==> old(Foreign(CellAt(i))))
      ensures !clientActive ==> Predicted(i, r.Done?)
      ensures SameBackup(i)
    {
      hide Open, Stuck, CellInv, Archiving, Cleaning, Foreign;
      at :- Locate(i);
      if at.AtAfter? { return Done, at; }
      if at.AtGap? { ArchivingHolds(CellAt(i)); ArchivingHasOriginal(CellAt(i)); }
      r := PrepareNext(i);
      OpenHolds(CellAt(i));
    }

    /** Is the original of this step still at its target, so that it is read once more? */
    ghost predicate Rereads(k: nat, at: Position)
      requires Pending() && k < |disk|
      reads `disk, `durable, `past
    {
      !at.AtAfter? && CellAt(k).step.phase.Planned? && !CellAt(k).Has(Previous)
    }

    /** The steps as they are after the targets have been read once more. */
    ghost predicate Reread(steps: seq<Step>, positions: seq<Position>, n: nat)
      requires Pending() && n <= |disk|
      reads `disk, `durable, `past
    {
      |steps| == |disk| == |positions| && forall k | 0 <= k < |disk| ::
        steps[k] == if k < n && Rereads(k, positions[k]) then CellAt(k).Since(CellAt(k).Image(Target)).step
                    else CellAt(k).step
    }

    /** Rereads the targets just before the first one is displaced. */
    method RereadTargets(positions: seq<Position>) returns (r: Status)
      requires Inv() && state == durable && |positions| == |disk|
      requires forall k | 0 <= k < |disk| :: Positioned(k, positions[k])
      modifies `durable, `state, `crashAt, `last
      ensures Inv() && Onward()
      ensures r.Done? ==> state == durable && forall k | 0 <= k < |disk| :: Positioned(k, positions[k])
      ensures r.Done? ==> forall k | 0 <= k < |disk| :: Stuck(CellAt(k)) <==> old(Stuck(CellAt(k)))
      ensures r.Done? ==> forall k | 0 <= k < |disk| ::
                CellAt(k) == if old(Rereads(k, positions[k])) then old(CellAt(k)).Since(CellAt(k).Image(Target))
                             else old(CellAt(k))
      ensures !r.Failed? && (old(crashAt).None? ==> crashAt.None? && r.Done?)
      ensures !clientActive && !r.Done? ==>
                forall k | 0 <= k < |disk| && old(Stuck(CellAt(k))) :: Stuck(CellAt(k))
      ensures r.Done? ==> forall k | 0 <= k < |disk| :: Foreign(CellAt(k)) <==> old(Foreign(CellAt(k)))
      ensures !clientActive && old(AllQuiet() && NoneForeign()) ==> AllExplained() && (r.Done? ==> AllQuiet())
      ensures forall k | 0 <= k < |disk| :: Still(old(CellAt(k)), CellAt(k))
      ensures forall k | 0 <= k < |disk| :: CellAt(k).Origin() == old(CellAt(k).Origin())
    {
      hide Open, Stuck, CellInv, Archiving, Cleaning, Foreign;
      hide Quiet, Explained, AllQuiet, AllExplained, Alarming, Hazard;
      QuietIsExplained();
      var steps := state.pending.value;
      var i := 0;
      while i < |disk|
        modifies {}
        invariant i <= |disk| && Reread(steps, positions, i)
      {
        if !positions[i].AtAfter? && steps[i].phase.Planned? && Previous !in disk[i].names {
          assert Positioned(i, positions[i]);
          BeforeDisplacing(CellAt(i));
          var latest := Read(disk[i], Target, Some(Next)).image;
          if steps[i].before != latest {
            steps := steps[i := steps[i].(before := latest)];
          }
        }
        i := i + 1;
      }
      if steps == state.pending.value { return Done; }
      r := SaveReread(steps, positions);
    }

    method SaveReread(steps: seq<Step>, positions: seq<Position>) returns (r: Status)
      requires Inv() && state == durable && Reread(steps, positions, |disk|)
      requires forall k | 0 <= k < |disk| :: Positioned(k, positions[k])
      modifies `durable, `state, `crashAt, `last
      ensures Inv() && Onward()
      ensures !r.Failed? && (old(crashAt).None? ==> crashAt.None? && r.Done?)
      ensures r.Crashed? ==> durable == old(durable)
      ensures r.Done? ==> state == durable && forall k | 0 <= k < |disk| ::
                && Positioned(k, positions[k]) && (Stuck(CellAt(k)) <==> old(Stuck(CellAt(k))))
                && CellAt(k) == if old(Rereads(k, positions[k])) then old(CellAt(k)).Since(CellAt(k).Image(Target))
                                else old(CellAt(k))
      ensures r.Done? ==> forall k | 0 <= k < |disk| :: Foreign(CellAt(k)) <==> old(Foreign(CellAt(k)))
      ensures !clientActive && old(AllQuiet() && NoneForeign()) ==> AllExplained() && (r.Done? ==> AllQuiet())
      ensures forall k | 0 <= k < |disk| :: Still(old(CellAt(k)), CellAt(k))
    {
      hide Open, Stuck, CellInv, Archiving, Cleaning, Foreign;
      hide Quiet, Explained, AllQuiet, AllExplained, Alarming, Hazard;
      QuietIsExplained();
      forall k | 0 <= k < |disk| && Rereads(k, positions[k])
        ensures Open(CellAt(k).Since(steps[k].before)) && CellInv(CellAt(k).Since(steps[k].before))
        ensures Stuck(CellAt(k).Since(steps[k].before)) <==> Stuck(CellAt(k))
        ensures !positions[k].AtGap? && !Foreign(CellAt(k)) && !Foreign(CellAt(k).Since(steps[k].before))
      {
        Replanned(CellAt(k), steps[k].before);
        StagingIsNotForeign(CellAt(k));
        ArchivingHasOriginal(CellAt(k));
        OpenHolds(CellAt(k).Since(steps[k].before));
      }
      state := state.(pending := Some(steps));
      :- Save();
      forall k | 0 <= k < |disk|
        ensures CellInv(CellAt(k)) && (CellAt(k).step.phase == old(CellAt(k).step.phase))
      {
        assert CellAt(k) == old(CellAt(k)) || CellAt(k) == old(CellAt(k)).Since(steps[k].before);
      }
      SavedIsQuiet();
      r := Done;
    }

    twostate lemma InOrderKept(i: nat)
      requires old(Pending()) && old(InOrder()) && Pending() && i < |disk| && i < old(|disk|) && OnlyStep(i)
      requires past == old(past) || forall k | 0 <= k < i :: CellAt(k).step.phase.Published?
      ensures InOrder()
    {
      forall j, k | 0 <= j < k < |disk| && (past[k].displaced.Some? || past[k].linked)
        ensures CellAt(j).step.phase.Published?
      {
        assert k != i ==> CellAt(k) == old(CellAt(k));
        assert j != i ==> CellAt(j) == old(CellAt(j));
      }
    }

    /** Publishes one step, unless that has been done, when those before it are published. */
    method PublishOne(i: nat, at: Position) returns (r: Status)
      requires Inv() && state == durable && i < |disk| && Positioned(i, at)
      requires forall k | 0 <= k < i :: CellAt(k).step.phase.Published?
      modifies `disk, `durable, `state, `crashAt, `last, `past
      ensures Inv() && Onward() && OnlyStep(i)
      ensures r.Done? ==> state == durable && Cleaning(CellAt(i)) && !Stuck(CellAt(i))
      ensures r.Done? ==> clientActive || !old(Stuck(CellAt(i)))
      ensures old(crashAt).None? ==> crashAt.None? && (r.Done? || clientActive || old(Stuck(CellAt(i))))
      ensures !clientActive && old(Stuck(CellAt(i))) && !r.Done? ==> Stuck(CellAt(i))
      ensures r.Done? ==> (Foreign(CellAt(i)) <==> old(Foreign(CellAt(i))))
      ensures !clientActive && old(AllQuiet() && NoneForeign()) ==> AllExplained() && (r.Done? ==> AllQuiet())
      ensures r.Done? ==> Shelved(old(CellAt(i)), CellAt(i))
      ensures Logged(old(CellAt(i)), CellAt(i))
      ensures !clientActive ==> OriginKept(old(CellAt(i)), CellAt(i))
    {
      hide OriginKept, Logged, Shelved, Open, Stuck, CellInv, Archiving, Cleaning, Foreign;
      hide Quiet, Explained, AllQuiet, AllExplained, Foreseen, Alarming, Hazard;
      ShelvedAtFirst(CellAt(i));
      BesideKeepsOrigin(CellAt(i), CellAt(i));
      QuietIsExplained();
      if at.AtAfter? { return Done; }
      r := PublishStep(i, at);
      InOrderKept(i);
      OthersStayQuiet(i);
    }

    /** Publishes the prepared steps, one after the other. */
    method PublishAll(positions: seq<Position>) returns (r: Status)
      requires Inv() && state == durable && |positions| == |disk|
      requires forall k | 0 <= k < |disk| :: Positioned(k, positions[k])
      modifies `disk, `durable, `state, `crashAt, `last, `past
      ensures Inv() && Onward()
      ensures r.Done? ==> state == durable && forall k | 0 <= k < |disk| :: Cleaning(CellAt(k)) && !Stuck(CellAt(k))
      ensures r.Done? ==> clientActive || forall k | 0 <= k < |disk| :: !old(Stuck(CellAt(k)))
      ensures old(crashAt).None? ==>
                && crashAt.None?
                && (r.Done? || clientActive || exists k | 0 <= k < |old(disk)| :: old(Stuck(CellAt(k))))
      ensures !clientActive && !r.Done? ==>
                forall k | 0 <= k < |disk| && old(Stuck(CellAt(k))) :: Stuck(CellAt(k))
      ensures r.Done? ==> forall k | 0 <= k < |disk| :: Foreign(CellAt(k)) <==> old(Foreign(CellAt(k)))
      ensures !clientActive && old(AllQuiet() && NoneForeign()) ==> AllExplained() && (r.Done? ==> AllQuiet())
      ensures r.Done? ==> forall k | 0 <= k < |disk| :: Shelved(old(CellAt(k)), CellAt(k))
      ensures forall k | 0 <= k < |disk| :: Logged(old(CellAt(k)), CellAt(k))
      ensures !clientActive ==> forall k | 0 <= k < |disk| :: OriginKept(old(CellAt(k)), CellAt(k))
    {
      hide OriginKept, Logged, Shelved, Open, Stuck, CellInv, Archiving, Cleaning, Foreign;
      hide Quiet, Explained, AllQuiet, AllExplained, Foreseen, Alarming, Hazard;
      var i := 0;
      forall k | 0 <= k < |disk|
        ensures Shelved(CellAt(k), CellAt(k)) && Logged(CellAt(k), CellAt(k)) && OriginKept(CellAt(k), CellAt(k))
      {
        ShelvedAtFirst(CellAt(k));
        BesideKeepsOrigin(CellAt(k), CellAt(k));
      }
      while i < |disk|
        invariant i <= |disk| == |old(disk)| == |positions|
        invariant Inv() && Onward() && state == durable
        invariant forall k | 0 <= k < i :: Cleaning(CellAt(k)) && !Stuck(CellAt(k))
        invariant forall k | 0 <= k < i :: clientActive || !old(Stuck(CellAt(k)))
        invariant forall k | 0 <= k < |disk| :: Logged(old(CellAt(k)), CellAt(k))
        invariant forall k | 0 <= k < |disk| :: Shelved(old(CellAt(k)), CellAt(k))
        invariant !clientActive ==> forall k | 0 <= k < |disk| :: OriginKept(old(CellAt(k)), CellAt(k))
        invariant forall k | i <= k < |disk| :: Positioned(k, positions[k]) && CellAt(k) == old(CellAt(k))
        invariant forall k | 0 <= k < |disk| :: Foreign(CellAt(k)) <==> old(Foreign(CellAt(k)))
        invariant !clientActive && old(AllQuiet() && NoneForeign()) ==> AllQuiet()
        invariant old(crashAt).None? ==> crashAt.None?
      {
        forall k | 0 <= k < i ensures CellAt(k).step.phase.Published? { CleaningHolds(CellAt(k)); }
        r := PublishOne(i, positions[i]);
        if !r.Done? { return; }
        i := i + 1;
      }
      QuietIsExplained();
      r := Done;
    }

    method Execute() returns (r: Status)
      requires Inv() && state == durable
      modifies `disk, `durable, `state, `crashAt, `last, `past
      ensures Inv() && Onward()
      ensures r.Done? ==> state == durable && forall k | 0 <= k < |disk| :: Cleaning(CellAt(k)) && !Stuck(CellAt(k))
      ensures r.Done? ==> clientActive || forall k | 0 <= k < |disk| :: !old(Stuck(CellAt(k)))
      ensures old(crashAt).None? ==>
                && crashAt.None?
                && (r.Done? || clientActive || exists k | 0 <= k < |old(disk)| :: old(Stuck(CellAt(k))))
      ensures !clientActive && !r.Done? ==>
                forall k | 0 <= k < |disk| && old(Stuck(CellAt(k))) :: Stuck(CellAt(k))
      ensures r.Done? ==> forall k | 0 <= k < |disk| :: Foreign(CellAt(k)) <==> old(Foreign(CellAt(k)))
      ensures !clientActive && old(AllQuiet() && NoneForeign()) ==> AllExplained() && (r.Done? ==> AllQuiet())
      ensures r.Done? ==> forall k | 0 <= k < |disk| :: Shelved(old(CellAt(k)), CellAt(k))
      ensures forall k | 0 <= k < |disk| :: Logged(old(CellAt(k)), CellAt(k))
      ensures !clientActive ==> forall k | 0 <= k < |disk| :: OriginKept(old(CellAt(k)), CellAt(k))
    {
      hide Logged, Still, Shelved, Open, Stuck, CellInv, Archiving, Cleaning, Foreign;
      hide Quiet, Explained, AllQuiet, AllExplained, Foreseen, Alarming, Hazard;
      var positions;
      r, positions := StageAll();
      forall k | 0 <= k < |disk| ensures Logged(old(CellAt(k)), CellAt(k)) { StillIsLogged(old(CellAt(k)), CellAt(k)); }
      if !r.Done? { return; }
      label staged:
      r := RereadTargets(positions);
      forall k | 0 <= k < |disk| ensures Logged(old(CellAt(k)), CellAt(k)) {
        StillTransitive(old(CellAt(k)), old@staged(CellAt(k)), CellAt(k));
      }
      if !r.Done? { return; }
      label reread:
      r := PublishAll(positions);
      forall k | 0 <= k < |disk| ensures Logged(old(CellAt(k)), CellAt(k)) {
        StillTransitive(old(CellAt(k)), old@staged(CellAt(k)), old@reread(CellAt(k)));
        LoggedAfterStill(old(CellAt(k)), old@reread(CellAt(k)), CellAt(k));
      }
      if r.Done? {
        forall k | 0 <= k < |disk| ensures Shelved(old(CellAt(k)), CellAt(k)) {
          StillTransitive(old(CellAt(k)), old@staged(CellAt(k)), old@reread(CellAt(k)));
          ShelvedAfterStill(old(CellAt(k)), old@reread(CellAt(k)), CellAt(k));
        }
      }
    }

    // ---- cleaning up ----

    /** What `Foreseen` comes to for a step that is being cleaned up. */
    twostate predicate Tidy(i: nat)
      requires old(Pending()) && Pending() && i < old(|disk|) && i < |disk|
      reads `disk, `durable, `past, `last
    {
      !old(CellAt(i).Has(QNext) || Alarming(last, i)) ==>
        if CellAt(i).Has(QNext) then last == Some(Renaming(i, Next, QNext)) else !Alarming(last, i)
    }

    twostate lemma TidyIsForeseen(i: nat)
      requires old(Pending()) && Pending() && i < old(|disk|) && i < |disk|
      requires old(Cleaning(CellAt(i))) && Cleaning(CellAt(i)) && Tidy(i)
      ensures Foreseen(i, false) && (Settled(CellAt(i)) ==> Foreseen(i, true))
    {
      hide Stuck, Cleaning;
      CleaningHolds(old(CellAt(i)));
      CleaningHolds(CellAt(i));
    }

    method CleanPrevious(i: nat) returns (r: Status)
      requires Pending() && i < |disk| && Cleaning(CellAt(i))
      modifies `disk, `crashAt, `last
      ensures Pending() && OnlyStep(i) && Cleaning(CellAt(i)) && CellAt(i) == old(CellAt(i)).At(disk[i])
      ensures CellAt(i).Image(Next) == old(CellAt(i).Image(Next)) && CellAt(i).Image(QNext) == old(CellAt(i).Image(QNext))
      ensures r.Done? ==> !CellAt(i).Has(Previous) && !CellAt(i).Has(QPrevious)
      ensures Passed(old(disk[i]), disk[i], Previous, QPrevious)
      ensures Beside(old(disk[i]), disk[i], {Previous, QPrevious})
      ensures !r.Failed? && (old(crashAt).None? ==> crashAt.None? && r.Done?)
      ensures Tidy(i)
    {
      hide Cleaning, Passed, Beside, Renamed, Removed, Stuck, Landed, Wf, Read, NothingLeft;
      ghost var s := disk[i];
      NothingPassed(s, Previous, QPrevious);
      var before := durable.pending.value[i].before;
      if Previous in disk[i].names {
        PreviousQuarantined(CellAt(i));
        Passing(s, Previous, QPrevious);
        if Read(disk[i], Previous, None) != Got(before) { return Failed; }
        :- Rename(i, Previous, QPrevious);
      }
      if QPrevious in disk[i].names {
        PreviousDropped(CellAt(i));
        Dropping(s, Previous, QPrevious);
        if Read(disk[i], QPrevious, None) != Got(before) { return Failed; }
        :- Unlink(i, QPrevious);
      }
      r := Done;
    }

    method CleanNext(i: nat) returns (r: Status)
      requires Pending() && i < |disk| && Cleaning(CellAt(i))
      requires !CellAt(i).Has(Previous) && !CellAt(i).Has(QPrevious)
      modifies `disk, `crashAt, `last
      ensures Pending() && OnlyStep(i) && Cleaning(CellAt(i)) && CellAt(i) == old(CellAt(i)).At(disk[i])
      ensures r.Done? ==> NothingLeft(CellAt(i))
      ensures Passed(old(disk[i]), disk[i], Next, QNext) && Beside(old(disk[i]), disk[i], {Next, QNext})
      ensures old(crashAt) == Some(1) && old(CellAt(i).Has(Next)) ==>
                r.Crashed? && disk[i] == Renamed(old(disk[i]), Next, QNext)
      ensures !r.Failed? && (old(crashAt).None? ==> crashAt.None? && r.Done?)
      ensures Tidy(i)
    {
      hide Cleaning, Passed, Beside, Renamed, Removed, Stuck, Landed;
      ghost var s := disk[i];
      NothingPassed(s, Next, QNext);
      var after := Some(durable.pending.value[i].after);
      CleaningHolds(CellAt(i));
      if Next in disk[i].names {
        NextQuarantined(CellAt(i));
        Passing(s, Next, QNext);
        if Read(disk[i], Next, Some(Target)) != Got(after) { return Failed; }
        :- Rename(i, Next, QNext);
      }
      if QNext in disk[i].names {
        NextDropped(CellAt(i));
        Dropping(s, Next, QNext);
        if Read(disk[i], QNext, Some(Target)) != Got(after) { return Failed; }
        :- Unlink(i, QNext);
      }
      r := Done;
    }

    /** Empties the scratch directory of a published step, through quarantine names, and removes it. */
    method Cleanup(i: nat) returns (r: Status)
      requires Pending() && i < |disk| && Cleaning(CellAt(i))
      modifies `disk, `crashAt, `last
      ensures Pending() && OnlyStep(i) && Cleaning(CellAt(i)) && CellAt(i) == old(CellAt(i)).At(disk[i])
      ensures r.Done? ==> Settled(CellAt(i))
      ensures Emptying(old(disk[i]), disk[i])
      ensures !r.Failed? && (old(crashAt).None? ==> crashAt.None? && r.Done?)
      ensures Tidy(i)
    {
      hide Cleaning, Passed, Beside, Emptying, Stuck, Renamed, Removed, Landed, Wf, Read, NothingLeft;
      ghost var s := disk[i];
      NothingPassed(s, Previous, QPrevious);
      PreviousPasses(s, s);
      if !disk[i].scratch {
        ScratchRemoved(CellAt(i));
        return Done;
      }
      CleaningHolds(CellAt(i));
      if (Previous in disk[i].names && QPrevious in disk[i].names)
         || (Next in disk[i].names && QNext in disk[i].names) {
        return Failed;
      }
      r := CleanPrevious(i);
      ghost var t := disk[i];
      PreviousPasses(s, t);
      CleaningHolds(CellAt(i));
      if !r.Done? { return; }
      r := CleanNext(i);
      NextPasses(s, t, disk[i]);
      if !r.Done? { return; }
      ScratchRemoved(CellAt(i));
      ghost var u := disk[i];
      :- SetScratch(i, false);
      SameNamesPass(s, u, disk[i]);
      r := Done;
    }

    // ---- finishing ----

    /** The document in memory while a replacement is being finished: the store's, except that the
        first `n` targets already expect their new files and backup lists may have changed. */
    ghost predicate Finishing(n: nat)
      requires Pending() && n <= |disk|
      reads `disk, `durable, `past, `state
    {
      && state.pending == durable.pending && state.revision == durable.revision
      && |state.targets| == |disk|
      && (forall k | 0 <= k < n :: state.targets[k].expected == Some(CellAt(k).step.after))
      && (forall k | 0 <= k < |disk| :: DistinctStamps(state.targets[k].backups))
    }

    /** The backup list of one target before its final trimming. */
    ghost predicate Listed(k: nat)
      requires Pending() && k < |disk|
      reads `disk, `durable, `past, `state
    {
      && k < |state.targets|
      && var backups := state.targets[k].backups;
      && |backups| <= MAX_BACKUPS + 1
      && (|backups| == MAX_BACKUPS + 1 ==> backups[MAX_BACKUPS].stamp == CellAt(k).step.backup)
    }

    /** The target is the new file, and readable as such. */
    ghost predicate Expectable(k: nat)
      requires Pending() && k < |disk|
      reads `disk, `durable, `past
    {
      Read(disk[k], Target, Some(Next)) == Got(Some(CellAt(k).step.after))
    }

    /** Fails rather than expect an image that is not at its target. */
    method ExpectNewFiles() returns (r: Status)
      requires Pending() && state == durable
      modifies `state
      ensures !r.Crashed? && (r.Done? <==> forall k | 0 <= k < |disk| :: Expectable(k))
      ensures r.Done? ==> Finishing(|disk|)
      ensures |state.targets| == |disk|
      ensures forall k | 0 <= k < |disk| :: state.targets[k].backups == durable.targets[k].backups
    {
      var i := 0;
      while i < |disk|
        modifies `state
        invariant i <= |disk| && Finishing(i) && forall k | 0 <= k < i :: Expectable(k)
        invariant forall k | 0 <= k < |disk| :: state.targets[k].backups == durable.targets[k].backups
      {
        assert Expectable(i) <==> Read(disk[i], Target, Some(Next)) == Got(Some(state.pending.value[i].after));
        if Read(disk[i], Target, Some(Next)) != Got(Some(state.pending.value[i].after)) { return Failed; }
        state := state.(targets := state.targets[i := state.targets[i].(expected := Some(state.pending.value[i].after))]);
        i := i + 1;
      }
      r := Done;
    }

    /** Cleans one step up and makes sure its backup is private and tracked. */
    method FinishStep(i: nat) returns (r: Status)
      requires Pending() && i < |disk| && Cleaning(CellAt(i)) && Finishing(|disk|)
      requires |state.targets[i].backups| <= MAX_BACKUPS
      modifies `disk, `state, `crashAt, `last
      ensures Pending() && OnlyStep(i) && Cleaning(CellAt(i)) && past == old(past)
      ensures CellAt(i) == old(CellAt(i)).At(disk[i])
      ensures Finishing(|disk|) && Listed(i)
      ensures forall k | 0 <= k < |disk| && k != i :: state.targets[k] == old(state.targets[k])
      ensures r.Done? ==> Settled(CellAt(i))
      ensures !r.Failed? && (old(crashAt).None? ==> crashAt.None? && r.Done?)
      ensures Tidy(i)
      ensures r.Done? ==> Finalized(old(CellAt(i)), disk[i])
      ensures r.Done? ==>
                state.targets[i].backups == WithOwn(CellAt(i).step, old(state.targets[i].backups))
    {
      hide Cleaning;
      var step := state.pending.value[i];
      CleaningHolds(CellAt(i));
      :- Cleanup(i);
      EmptyingKeepsBackups(old(disk[i]), disk[i]);
      CleaningHolds(CellAt(i));
      if step.before.None? || Backup(step.backup) !in disk[i].names { return Done; }
      r := FinishBackup(i);
    }

    /** Makes the backup of what was displaced private and tracks it if it is not yet. */
    method FinishBackup(i: nat) returns (r: Status)
      requires Pending() && i < |disk| && Settled(CellAt(i)) && Finishing(|disk|)
      requires |state.targets[i].backups| <= MAX_BACKUPS && CellAt(i).step.before.Some?
      modifies `disk, `state, `crashAt, `last
      ensures Pending() && OnlyStep(i) && Settled(CellAt(i)) && CellAt(i) == old(CellAt(i)).At(disk[i])
      ensures Finishing(|disk|) && Listed(i)
      ensures forall k | 0 <= k < |disk| && k != i :: state.targets[k] == old(state.targets[k])
      ensures !r.Failed? && (old(crashAt).None? ==> crashAt.None? && r.Done?)
      ensures last == old(last) || !Alarming(last, i)
      ensures r.Done? ==> Finalized(old(CellAt(i)), disk[i])
      ensures r.Done? ==>
                state.targets[i].backups == WithOwn(CellAt(i).step, old(state.targets[i].backups))
    {
      hide Cleaning, Settled, NothingLeft;
      var step := state.pending.value[i];
      SettledIsReadable(CellAt(i));
      BackupProtected(CellAt(i));
      :- Chmod(i, Backup(step.backup), PRIVATE_MODE);
      SettledIsReadable(CellAt(i));
      var backup := Read(disk[i], Backup(step.backup), None);
      if backup.Unsafe? || backup.image.None? { return Failed; }
      var backups := state.targets[i].backups;
      if BackupEntry(backups, step.backup).None? {
        state := Tracking(state, i, backups + [Owned(step.backup, backup.image.value.bytes)]);
      }
      r := Done;
    }

    method FinishSteps() returns (r: Status)
      requires Inv() && Finishing(|disk|)
      requires forall k | 0 <= k < |disk| :: Cleaning(CellAt(k)) && |state.targets[k].backups| <= MAX_BACKUPS
      modifies `disk, `state, `crashAt, `last
      ensures Inv() && Onward() && past == old(past) && durable == old(durable)
      ensures r.Done? ==> Finishing(|disk|) && forall k | 0 <= k < |disk| :: Settled(CellAt(k)) && Listed(k)
      ensures !r.Failed? && (old(crashAt).None? ==> crashAt.None? && r.Done?)
      ensures old(AllQuiet()) ==> AllExplained() && (r.Done? ==> AllQuiet())
      ensures r.Done? ==> forall k | 0 <= k < |disk| ::
                Finalized(old(CellAt(k)), disk[k])
                && state.targets[k].backups == WithOwn(CellAt(k).step, old(state.targets[k].backups))
    {
      hide CellInv, Cleaning, Settled, Tidy, Finalized, WithOwn, Stuck;
      hide Quiet, Explained, AllQuiet, AllExplained, Foreseen, Alarming, Hazard;
      var i := 0;
      while i < |disk|
        invariant i <= |disk| == |old(disk)|
        invariant Inv() && Onward() && past == old(past) && Finishing(|disk|)
        invariant forall k | 0 <= k < i :: Settled(CellAt(k)) && Listed(k)
        invariant forall k | 0 <= k < i ::
                    Finalized(old(CellAt(k)), disk[k])
                    && state.targets[k].backups == WithOwn(CellAt(k).step, old(state.targets[k].backups))
        invariant forall k | i <= k < |disk| :: CellAt(k) == old(CellAt(k))
        invariant forall k | i <= k < |disk| :: state.targets[k] == old(state.targets[k])
        invariant forall k | i <= k < |disk| :: Cleaning(CellAt(k)) && |state.targets[k].backups| <= MAX_BACKUPS
        invariant old(AllQuiet()) ==> AllQuiet()
        invariant old(crashAt).None? ==> crashAt.None?
      {
        label before:
        r := FinishStep(i);
        CleaningHolds(CellAt(i));
        InOrderKept@before(i);
        TidyIsForeseen@before(i);
        OthersStayQuiet@before(i);
        if !r.Done? { return; }
        i := i + 1;
      }
      QuietIsExplained();
      r := Done;
    }

    method TrimStep(i: nat) returns (r: Status)
      requires Pending() && i < |disk| && Settled(CellAt(i)) && Finishing(|disk|) && Listed(i)
      modifies `disk, `state, `crashAt, `last
      ensures Pending() && OnlyStep(i) && Settled(CellAt(i)) && CellAt(i) == old(CellAt(i)).At(disk[i])
      ensures Finishing(|disk|) && |state.targets| == |disk|
      ensures forall k | 0 <= k < |disk| && k != i :: state.targets[k] == old(state.targets[k])
      ensures r.Done? ==> |state.targets[i].backups| <= MAX_BACKUPS
      ensures !r.Failed? && (old(crashAt).None? ==> crashAt.None? && r.Done?)
      ensures Foreseen(i, r.Done?)
      ensures r.Done? ==> CutDown(old(disk[i]), old(state.targets[i].backups), disk[i], state.targets[i].backups)
      ensures CellAt(i).step.backup !in Stamps(Excess(Surviving(old(disk[i]), old(state.targets[i].backups)), MAX_BACKUPS))
    {
      hide Settled, Wf, Trimmed, StillOwned, Surviving, CutDown;
      SettledHolds(CellAt(i));
      ghost var c := CellAt(i);
      LastIsRetained(disk[i], state.targets[i].backups, CellAt(i).step.backup);
      ghost var removed;
      r, removed := Trim(i, MAX_BACKUPS);
      SettledAfterTrim(c, disk[i], removed);
      TrimKept(c, old(state.targets[i].backups));
      if r.Done? { TrimIsCut(c, old(state.targets[i].backups), disk[i], removed); }
      SettledHolds(CellAt(i));
    }

    method TrimSteps() returns (r: Status)
      requires Inv() && Finishing(|disk|) && forall k | 0 <= k < |disk| :: Settled(CellAt(k)) && Listed(k)
      modifies `disk, `state, `crashAt, `last
      ensures Inv() && Onward() && past == old(past) && durable == old(durable)
      ensures r.Done? ==> Finishing(|disk|)
      ensures r.Done? ==> forall k | 0 <= k < |disk| :: Settled(CellAt(k)) && |state.targets[k].backups| <= MAX_BACKUPS
      ensures !r.Failed? && (old(crashAt).None? ==> crashAt.None? && r.Done?)
      ensures old(AllQuiet()) ==> AllExplained() && (r.Done? ==> AllQuiet())
      ensures r.Done? ==> forall k | 0 <= k < |disk| ::
                CutDown(old(disk[k]), old(state.targets[k].backups), disk[k], state.targets[k].backups)
                && CellAt(k).step.backup
                   !in Stamps(Excess(Surviving(old(disk[k]), old(state.targets[k].backups)), MAX_BACKUPS))
    {
      hide CellInv, Settled, CutDown, Surviving, Stamps, Excess;
      hide Quiet, Explained, AllQuiet, AllExplained, Foreseen, Alarming, Hazard;
      var i := 0;
      while i < |disk|
        invariant i <= |disk| == |old(disk)|
        invariant Inv() && Onward() && past == old(past) && Finishing(|disk|)
        invariant forall k | 0 <= k < |disk| :: Settled(CellAt(k))
        invariant forall k | 0 <= k < i :: |state.targets[k].backups| <= MAX_BACKUPS
        invariant forall k | 0 <= k < i ::
                    CutDown(old(disk[k]), old(state.targets[k].backups), disk[k], state.targets[k].backups)
                    && CellAt(k).step.backup
                       !in Stamps(Excess(Surviving(old(disk[k]), old(state.targets[k].backups)), MAX_BACKUPS))
        invariant forall k | i <= k < |disk| :: CellAt(k) == old(CellAt(k)) && disk[k] == old(disk[k])
        invariant forall k | i <= k < |disk| :: Listed(k) && state.targets[k] == old(state.targets[k])
        invariant old(AllQuiet()) ==> AllQuiet()
        invariant old(crashAt).None? ==> crashAt.None?
      {
        label before:
        r := TrimStep(i);
        forall k | i < k < |disk| ensures Listed(k) { assert old@before(Listed(k)); }
        SettledHolds(CellAt(i));
        InOrderKept@before(i);
        OthersStayQuiet@before(i);
        if !r.Done? { return; }
        i := i + 1;
      }
      QuietIsExplained();
      r := Done;
    }

    /** A replacement that has completed: every target is its new file and nothing of the
        transaction is left; `steps` are the steps it had. */
    ghost predicate Replaced(steps: seq<Step>)
      reads `disk, `durable, `past
    {
      && |disk| == |durable.targets| == |past| == |steps| && Schema(durable) && durable.pending.None?
      && forall k | 0 <= k < |disk| ::
           && Settled(Cell(disk[k], steps[k], durable.targets[k], past[k]))
           && durable.targets[k].expected == Some(steps[k].after)
    }

    method Finish() returns (r: Status, ghost steps: seq<Step>)
      requires Inv() && state == durable && forall k | 0 <= k < |disk| :: Cleaning(CellAt(k)) && !Stuck(CellAt(k))
      modifies `disk, `durable, `state, `crashAt, `last
      ensures past == old(past) && steps == old(durable.pending.value)
      ensures !r.Failed? && (r.Crashed? ==> Inv() && Onward() && durable == old(durable))
      ensures r.Done? ==> state == durable && Replaced(steps) && durable.revision == old(durable.revision) + 1
      ensures r.Done? ==> forall k | 0 <= k < |disk| ::
                Listing(steps[k], durable.targets[k].backups) <==> !old(Foreign(CellAt(k)))
      ensures old(crashAt).None? ==> crashAt.None? && r.Done?
      ensures r.Crashed? && old(AllQuiet()) ==> AllExplained()
      ensures r.Done? ==> forall k | 0 <= k < |disk| ::
                Ended(old(CellAt(k)), disk[k], durable.targets[k].backups) && Private(steps[k], disk[k])
    {
      hide CellInv, Cleaning, Settled, Stuck, Listing, Rightly, Foreign;
      hide Finalized, CutDown, Surviving, Stamps, Excess, WithOwn, Ended, Private, Tracks;
      hide Quiet, Explained, AllQuiet, AllExplained, Foreseen, Alarming, Hazard;
      steps := durable.pending.value;
      forall k | 0 <= k < |disk| ensures Expectable(k) {
        CleaningHolds(CellAt(k));
      }
      r := ExpectNewFiles();
      if r.Failed? { return; }
      :- FinishSteps();
      label finished:
      :- TrimSteps();
      state := state.(pending := None, revision := state.revision + 1);
      label saving:
      :- Save();
      forall k | 0 <= k < |disk| ensures Settled(Cell(disk[k], steps[k], durable.targets[k], past[k])) {
        EntryIsIrrelevant(old@saving(CellAt(k)), durable.targets[k]);
      }
      forall k | 0 <= k < |disk|
        ensures Ended(old(CellAt(k)), disk[k], durable.targets[k].backups) && Private(steps[k], disk[k])
        ensures durable.targets[k].backups
                == Retained(Surviving(old@finished(disk[k]), Completed(old(CellAt(k)))), MAX_BACKUPS)
      {
        CutIsEnd(old(CellAt(k)), old@finished(disk[k]), disk[k], durable.targets[k].backups);
      }
      forall k | 0 <= k < |disk|
        ensures Listing(steps[k], durable.targets[k].backups) <==> !old(Foreign(CellAt(k)))
      {
        RightUnlessForeign(old(CellAt(k)));
        assert old@finished(Listed(k) && Finishing(|disk|) && Settled(CellAt(k)));
        assert old@finished(state.targets[k].backups) == Completed(old(CellAt(k)));
        ListedIfRightly(old(CellAt(k)), old@finished(CellAt(k)), durable.targets[k].backups);
      }
      r := Done;
    }

    // ---- whole operations ----

    /** Checks, before anything is changed, that every pending step can be classified. */
    method RequireRecoverable() returns (r: Status)
      requires Inv() && state == durable
      modifies `durable, `state, `crashAt, `last
      ensures Inv() && Onward() && past == old(past)
      ensures r.Done? ==> state == durable && forall k | 0 <= k < |disk| :: Stuck(CellAt(k)) <==> old(Stuck(CellAt(k)))
      ensures r.Failed? ==> exists k | 0 <= k < |disk| :: old(Stuck(CellAt(k)))
      ensures old(crashAt).None? ==> crashAt.None? && !r.Crashed?
      ensures !clientActive && !r.Done? ==>
                forall k | 0 <= k < |disk| && old(Stuck(CellAt(k))) :: Stuck(CellAt(k))
      ensures r.Done? ==> forall k | 0 <= k < |disk| :: Foreign(CellAt(k)) <==> old(Foreign(CellAt(k)))
      ensures !clientActive && old(AllQuiet() && NoneForeign()) ==> AllExplained() && (r.Done? ==> AllQuiet())
      ensures forall k | 0 <= k < |disk| :: Still(old(CellAt(k)), CellAt(k))
      ensures forall k | 0 <= k < |disk| :: CellAt(k).Origin() == old(CellAt(k).Origin())
    {
      hide CellInv, Stuck, Open, Landed, Foreign, Read, Classify;
      hide Quiet, Explained, AllQuiet, AllExplained, Alarming, Hazard;
      QuietIsExplained();
      var changed := false;
      var i := 0;
      while i < |disk|
        modifies `state
        invariant i <= |disk| && state.pending.Some? && |state.pending.value| == |disk|
        invariant state == durable.(pending := state.pending)
        invariant forall k | 0 <= k < i :: state.pending.value[k] == Revalidated(CellAt(k)).step
        invariant forall k | i <= k < |disk| :: state.pending.value[k] == CellAt(k).step
        invariant !changed ==> state == durable
      {
        ghost var c := CellAt(i);
        Revalidation(c);
        var again;
        r, again := ValidateDisplaced(i);
        if r.Failed? { return; }
        changed := changed || again;
        Classification(Revalidated(c));
        var image :- Read(disk[i], Target, Some(Next));
        var at :- Classify(disk[i], state.pending.value[i], image);
        i := i + 1;
      }
      if changed {
        forall k | 0 <= k < |disk|
          ensures CellInv(Revalidated(CellAt(k))) && (Stuck(Revalidated(CellAt(k))) <==> Stuck(CellAt(k)))
          ensures Foreign(Revalidated(CellAt(k))) <==> Foreign(CellAt(k))
        {
          Revalidation(CellAt(k));
        }
        :- Save();
        forall k | 0 <= k < |disk|
          ensures CellInv(CellAt(k)) && (Stuck(CellAt(k)) <==> old(Stuck(CellAt(k))))
          ensures CellAt(k).step.phase == old(CellAt(k).step.phase) && (Foreign(CellAt(k)) <==> old(Foreign(CellAt(k))))
        {
          assert CellAt(k) == Revalidated(old(CellAt(k)));
        }
        SavedIsQuiet();
      }
      r := Done;
    }

    /** Checks that every step can be classified, and publishes those that are not published yet. */
    method Resume() returns (r: Status)
      requires Inv() && state == durable
      modifies `disk, `durable, `state, `crashAt, `last, `past
      ensures Inv() && Onward()
      ensures r.Done? ==> state == durable && forall k | 0 <= k < |disk| :: Cleaning(CellAt(k)) && !Stuck(CellAt(k))
      ensures r.Done? ==> clientActive || forall k | 0 <= k < |disk| :: !old(Stuck(CellAt(k)))
      ensures old(crashAt).None? ==>
                && crashAt.None?
                && (r.Done? || clientActive || exists k | 0 <= k < |old(disk)| :: old(Stuck(CellAt(k))))
      ensures !clientActive && !r.Done? ==>
                forall k | 0 <= k < |disk| && old(Stuck(CellAt(k))) :: Stuck(CellAt(k))
      ensures r.Done? ==> forall k | 0 <= k < |disk| :: Foreign(CellAt(k)) <==> old(Foreign(CellAt(k)))
      ensures !clientActive && old(AllQuiet() && NoneForeign()) ==> AllExplained() && (r.Done? ==> AllQuiet())
      ensures r.Done? ==> forall k | 0 <= k < |disk| :: Shelved(old(CellAt(k)), CellAt(k))
      ensures forall k | 0 <= k < |disk| :: Logged(old(CellAt(k)), CellAt(k))
      ensures !clientActive ==> forall k | 0 <= k < |disk| :: OriginKept(old(CellAt(k)), CellAt(k))
    {
      hide Logged, Still, Shelved, CellInv, Stuck, Cleaning, Foreign;
      hide Quiet, Explained, AllQuiet, AllExplained, Alarming, Hazard;
      r := RequireRecoverable();
      forall k | 0 <= k < |disk| ensures Logged(old(CellAt(k)), CellAt(k)) { StillIsLogged(old(CellAt(k)), CellAt(k)); }
      if !r.Done? { return; }
      label required:
      r := Execute();
      forall k | 0 <= k < |disk| ensures Logged(old(CellAt(k)), CellAt(k)) {
        LoggedAfterStill(old(CellAt(k)), old@required(CellAt(k)), CellAt(k));
      }
      if r.Done? {
        forall k | 0 <= k < |disk| ensures Shelved(old(CellAt(k)), CellAt(k)) {
          ShelvedAfterStill(old(CellAt(k)), old@required(CellAt(k)), CellAt(k));
        }
      }
    }

    /** What the next run does with a replacement that a crash or a failure left pending. */
    method Recover() returns (r: Status, ghost steps: seq<Step>)
      requires Inv()
      modifies `disk, `durable, `state, `crashAt, `last, `past
      ensures |disk| == |old(disk)| && |past| == |disk|
      ensures !r.Done? ==> Inv() && Onward()
      ensures r.Done? ==> state == durable && Replaced(steps) && durable.revision == old(durable.revision) + 1
      ensures r.Done? ==> forall k | 0 <= k < |disk| ::
                && steps[k].after == old(CellAt(k).step.after)
                && (old(past[k].displaced.Some?) ==> past[k].displaced == old(past[k].displaced))
      ensures r.Done? ==> forall k | 0 <= k < |disk| ::
                Listing(steps[k], durable.targets[k].backups) <==> !old(Foreign(CellAt(k)))
      ensures old(crashAt).None? && !clientActive ==>
                (r.Done? <==> forall k | 0 <= k < |old(disk)| :: !old(Stuck(CellAt(k))))
      ensures r.Done? && !clientActive ==> forall k | 0 <= k < |old(disk)| :: !old(Stuck(CellAt(k)))
      ensures !clientActive && !r.Done? ==>
                forall k | 0 <= k < |disk| && old(Stuck(CellAt(k))) :: Stuck(CellAt(k))
      ensures !clientActive && !r.Done?
              && old(forall k | 0 <= k < |disk| :: !Stuck(CellAt(k)) && !Foreign(CellAt(k))) ==>
                forall k | 0 <= k < |disk| :: Explained(k)
      ensures r.Done? ==> forall k | 0 <= k < |disk| ::
                Carried(old(disk[k]), old(durable.targets[k].backups), steps[k], disk[k], durable.targets[k].backups)
                && Private(steps[k], disk[k])
      ensures !r.Done? ==> forall k | 0 <= k < |disk| ::
                NothingForgotten(old(disk[k]), old(durable.targets[k].backups), CellAt(k).step, durable.targets[k].backups)
      ensures !clientActive ==> forall k | 0 <= k < |disk| && !old(past[k].linked && past[k].displaced.None?) ::
                if r.Done? then steps[k].before == old(CellAt(k).Origin())
                else CellAt(k).Origin() == old(CellAt(k).Origin())
    {
      hide CellInv, Stuck, Cleaning, Settled, Foreign, Listing;
      hide NothingForgotten, Still, Shelved, Ended, Carried, Private, Quiet, Explained, Alarming, Hazard, AllQuiet;
      steps := [];
      state, last := durable, None;
      ReadyIsQuiet();
      r := Resume();
      if !r.Done? { return; }
      label executed:
      r, steps := Finish();
      forall k | 0 <= k < |disk|
        ensures steps[k].before == past[k].displaced == old@executed(CellAt(k).Origin()) && past[k].linked
      {
        CleaningHasOrigin(old@executed(CellAt(k)));
      }
      if r.Done? {
        forall k | 0 <= k < |disk|
          ensures Carried(old(disk[k]), old(durable.targets[k].backups), steps[k], disk[k], durable.targets[k].backups)
        {
          ShelvedIsCarried(old(CellAt(k)), old@executed(CellAt(k)), disk[k], durable.targets[k].backups);
        }
      } else {
        forall k | 0 <= k < |disk| ensures Logged(old(CellAt(k)), CellAt(k)) {
          LoggedAgain(old(CellAt(k)), old@executed(CellAt(k)), CellAt(k));
        }
      }
    }

    /** A step that is stuck stays so: no number of recoveries completes the replacement, wherever
        each of them dies. */
    method RecoverAgain(crashes: seq<Option<nat>>) returns (completed: bool)
      requires Inv() && !clientActive && exists k | 0 <= k < |disk| :: Stuck(CellAt(k))
      modifies `disk, `durable, `state, `crashAt, `last, `past
      ensures !completed && Inv() && Onward()
      ensures forall k | 0 <= k < |disk| && old(Stuck(CellAt(k))) :: Stuck(CellAt(k))
    {
      hide CellInv, Stuck;
      ghost var stuck :| 0 <= stuck < |disk| && Stuck(CellAt(stuck));
      completed := false;
      for i := 0 to |crashes|
        invariant !completed && Inv() && Onward()
        invariant forall k | 0 <= k < |disk| && old(Stuck(CellAt(k))) :: Stuck(CellAt(k))
      {
        crashAt := crashes[i];
        var r, steps := Recover();
        completed := r.Done?;
      }
    }

    /** A slot between replacements. */
    ghost predicate Idle(s: Slot)
      reads {}
    {
      Wf(s) && !s.scratch
    }

    /** Plans a replacement and makes it durable; `stamp` is the time of the apply. */
    method Plan(after: seq<Image>, stamp: nat) returns (r: Status)
      requires |disk| == |durable.targets| == |after| && Schema(durable) && durable.pending.None? && state == durable
      requires forall k | 0 <= k < |disk| :: Idle(disk[k])
      modifies `durable, `state, `crashAt, `last, `past
      ensures !r.Done? ==> durable == old(durable)
      ensures r.Done? ==> Inv() && state == durable && durable.revision == old(durable.revision) && last == Some(Saved)
      ensures r.Done? ==> forall k | 0 <= k < |disk| ::
                && CellAt(k).step.after == after[k] && CellAt(k).step.before == CellAt(k).Image(Target)
                && !Stuck(CellAt(k)) && past[k] == Past(None, false)
                && !CellAt(k).Has(Backup(CellAt(k).step.backup)) && !Foreign(CellAt(k))
      ensures !r.Failed? && (old(crashAt).None? ==> crashAt.None? && r.Done?)
      ensures r.Done? ==> forall k | 0 <= k < |disk| ::
                CellAt(k).entry.backups == old(durable.targets[k].backups)
                && CellAt(k).entry.expected == CellAt(k).Image(Target)
                && (Backup(stamp) !in disk[k].names ==> CellAt(k).step.backup == stamp)
    {
      var steps: seq<Step> := [];
      past := seq(|disk|, k => Past(None, false));
      var targets := durable.targets;
      var i := 0;
      while i < |disk|
        modifies {}
        invariant i <= |disk| && |steps| == i && |targets| == |disk|
        invariant forall k | 0 <= k < i ::
                    FreshlyPlanned(Cell(disk[k], steps[k], durable.targets[k], Past(None, false)), after[k])
                    && (Backup(stamp) !in disk[k].names ==> steps[k].backup == stamp)
        invariant forall k | 0 <= k < |disk| :: targets[k].backups == durable.targets[k].backups
        invariant forall k | 0 <= k < i :: targets[k].expected == ImageAt(disk[k], Target)
      {
        var current := Read(disk[i], Target, None);
        if current.Unsafe? { return Failed; }
        var backup := NextCollision(disk[i], stamp);
        steps := steps + [Step(current.image, after[i], Planned, backup)];
        targets := targets[i := targets[i].(expected := current.image)];
        i := i + 1;
      }
      state := state.(pending := Some(steps), targets := targets);
      :- Save();
      forall k | 0 <= k < |disk|
        ensures FreshlyPlanned(CellAt(k), after[k]) && CellInv(CellAt(k)) && !Stuck(CellAt(k))
      {
        PlannedHolds(Cell(disk[k], steps[k], old(durable.targets[k]), Past(None, false)), durable.targets[k], after[k]);
      }
      r := Done;
    }

    /** Replaces every target by its new image. */
    method Apply(after: seq<Image>, stamp: nat) returns (r: Status, ghost steps: seq<Step>)
      requires |disk| == |durable.targets| == |after| && Schema(durable) && durable.pending.None? && state == durable
      requires forall k | 0 <= k < |disk| :: Idle(disk[k])
      modifies `disk, `durable, `state, `crashAt, `last, `past
      ensures |disk| == |old(disk)|
      ensures !r.Done? ==> (durable == old(durable) && disk == old(disk)) || (Inv() && InStep(after))
      ensures r.Done? ==> state == durable && Replaced(steps) && durable.revision == old(durable.revision) + 1
      ensures r.Done? ==> forall k | 0 <= k < |disk| ::
                steps[k].after == after[k] && Listing(steps[k], durable.targets[k].backups)
      ensures old(crashAt).None? && !clientActive ==> r.Done?
      ensures !clientActive && !r.Done? && durable.pending.Some? ==>
                forall k | 0 <= k < |disk| :: Explained(k)
      ensures r.Done? ==> forall k | 0 <= k < |disk| ::
                Carried(old(disk[k]), old(durable.targets[k].backups), steps[k], disk[k], durable.targets[k].backups)
                && Private(steps[k], disk[k])
      ensures !r.Done? && durable.pending.Some? ==> forall k | 0 <= k < |disk| ::
                NothingForgotten(old(disk[k]), old(durable.targets[k].backups), CellAt(k).step, durable.targets[k].backups)
      ensures !clientActive && durable.pending.Some? ==> forall k | 0 <= k < |disk| ::
                CellAt(k).Origin() == old(ImageAt(disk[k], Target))
      ensures !clientActive && r.Done? ==> forall k | 0 <= k < |disk| ::
                steps[k].before == old(ImageAt(disk[k], Target))
    {
      hide CellInv, Stuck, Cleaning, Settled, Wf, Foreign, Listing;
      hide Still, Shelved, Ended, Carried, Private, Quiet, Explained, Alarming, Hazard, AllQuiet, NoneForeign;
      steps := [];
      :- Plan(after, stamp);
      ReadyIsQuiet();
      label planned:
      r := Execute();
      forall k | 0 <= k < |disk| && !clientActive ensures CellAt(k).Origin() == old(ImageAt(disk[k], Target)) {
        assert OriginKept(old@planned(CellAt(k)), CellAt(k));
      }
      if !r.Done? { return; }
      label executed:
      r, steps := Finish();
      forall k | 0 <= k < |disk|
        ensures steps[k].before == past[k].displaced == old@executed(CellAt(k).Origin()) && past[k].linked
      {
        CleaningHasOrigin(old@executed(CellAt(k)));
      }
      if r.Done? {
        forall k | 0 <= k < |disk|
          ensures Carried(old(disk[k]), old(durable.targets[k].backups), steps[k], disk[k], durable.targets[k].backups)
        {
          ShelvedIsCarried(old@planned(CellAt(k)), old@executed(CellAt(k)), disk[k], durable.targets[k].backups);
        }
      }
    }

    function ImageAt(s: Slot, n: Name): Option<Image> {
      if n in s.names then Some(s.names[n].image) else None
    }

    ghost predicate InStep(after: seq<Image>)
      requires Pending()
      reads `disk, `durable, `past
    {
      |after| == |disk| && forall k | 0 <= k < |disk| :: CellAt(k).step.after == after[k]
    }

    /** One replacement and any number of recoveries, each dying after any number of changes or
        none: whatever the crashes, either nothing has happened, or the replacement has completed,
        or it is pending and no displaced byte is lost. */
    method Run(after: seq<Image>, stamp: nat, crashes: seq<Option<nat>>) returns (r: Status, ghost steps: seq<Step>)
      requires |disk| == |durable.targets| == |after| && Schema(durable) && durable.pending.None? && state == durable
      requires forall k | 0 <= k < |disk| :: Idle(disk[k])
      modifies `disk, `durable, `state, `crashAt, `last, `past
      ensures |disk| == |old(disk)|
      ensures r.Done? ==> Replaced(steps) && forall k | 0 <= k < |disk| ::
                && steps[k].after == after[k]
                && (past[k].displaced.Some? ==> Cell(disk[k], steps[k], durable.targets[k], past[k]).BackedUp())
      ensures !r.Done? ==>
                || (durable == old(durable) && disk == old(disk))
                || (Inv() && InStep(after) && forall k | 0 <= k < |disk| :: Kept(CellAt(k)))
      ensures !clientActive && old(crashAt).None? ==> r.Done?
      ensures !clientActive && !r.Done? && durable.pending.Some? && crashes != [] && crashes[|crashes| - 1].None? ==>
                exists k | 0 <= k < |disk| :: Stuck(CellAt(k))
      ensures !clientActive ==> forall k | 0 <= k < |disk| && old(ImageAt(disk[k], Target)).Some? ::
                && (r.Done? ==> steps[k].before == old(ImageAt(disk[k], Target)))
                && (durable.pending.Some? ==> CellAt(k).Origin() == old(ImageAt(disk[k], Target)))
    {
      hide CellInv, Stuck, Cleaning, Settled, Wf;
      r, steps := Apply(after, stamp);
      var i := 0;
      while i < |crashes| && !r.Done? && durable.pending.Some?
        invariant |disk| == |old(disk)| == |after|
        invariant r.Done? ==> Replaced(steps) && forall k | 0 <= k < |disk| :: steps[k].after == after[k]
        invariant !r.Done? ==> (durable == old(durable) && disk == old(disk)) || (Inv() && InStep(after))
        invariant i <= |crashes| && (!clientActive && old(crashAt).None? ==> r.Done?)
        invariant !clientActive && !r.Done? && durable.pending.Some? && i > 0 && crashes[i - 1].None? ==>
                    exists k | 0 <= k < |disk| :: Stuck(CellAt(k))
        invariant !clientActive ==> forall k | 0 <= k < |disk| && old(ImageAt(disk[k], Target)).Some? ::
                    && (r.Done? ==> steps[k].before == old(ImageAt(disk[k], Target)))
                    && (durable.pending.Some? ==> CellAt(k).Origin() == old(ImageAt(disk[k], Target)))
      {
        crashAt := crashes[i];
        r, steps := Recover();
        i := i + 1;
      }
      if r.Done? {
        forall k | 0 <= k < |disk|
          ensures past[k].displaced.Some? ==> Cell(disk[k], steps[k], durable.targets[k], past[k]).BackedUp()
        {
          SettledIsBackedUp(Cell(disk[k], steps[k], durable.targets[k], past[k]));
        }
      } else if durable.pending.Some? {
        forall k | 0 <= k < |disk| ensures Kept(CellAt(k)) { DisplacedIsKept(CellAt(k)); }
      }
    }
  }

  /** A step as it is planned. */
  ghost predicate FreshlyPlanned(c: Cell, after: Image) {
    && Wf(c.slot) && !c.slot.scratch && c.past == Past(None, false)
    && c.step.phase.Planned? && c.step.after == after && c.step.before == c.Image(Target)
    && !c.Has(Backup(c.step.backup))
  }

  lemma PlannedHolds(c: Cell, entry: Entry, after: Image)
    requires FreshlyPlanned(c, after)
    ensures var c' := c.(entry := entry); FreshlyPlanned(c', after) && CellInv(c') && !Stuck(c')
  {
  }

  /** The backup of what the step displaced is tracked. */
  predicate Listing(step: Step, backups: seq<Owned>) {
    step.before.Some? ==> Tracks(backups, step.backup)
  }

  /** The name of that backup is not tracked with the digest of other bytes. */
  predicate Rightly(step: Step, backups: seq<Owned>) {
    step.before.Some? ==> forall o | o in backups && o.stamp == step.backup :: o.digest == step.before.value.bytes
  }

  lemma RightUnlessForeign(c: Cell)
    requires Cleaning(c)
    ensures Rightly(c.step, c.entry.backups) <==> !Foreign(c)
  {
  }

  lemma OneMoreListed(step: Step, backups: seq<Owned>)
    ensures Listing(step, WithOwn(step, backups))
    ensures Rightly(step, WithOwn(step, backups)) <==> Rightly(step, backups)
  {
    if step.before.Some? && !Tracks(backups, step.backup) {
      var more := backups + Own(step);
      assert more[|backups|].stamp == step.backup;
      forall o | o in backups ensures o.stamp != step.backup {
        var k :| 0 <= k < |backups| && backups[k] == o;
      }
    }
  }

  /** The final trimming keeps exactly the entries of the newest backup that are intact. */
  lemma NewestStays(s: Slot, backups: seq<Owned>, stamp: nat)
    requires DistinctStamps(backups) && |backups| <= MAX_BACKUPS + 1
    requires |backups| == MAX_BACKUPS + 1 ==> backups[MAX_BACKUPS].stamp == stamp
    ensures var less := Retained(StillOwned(s, backups), MAX_BACKUPS);
            (forall o | o in backups && o.stamp == stamp && Intact(s, o) :: o in less)
            && forall o | o in less :: o in backups && Intact(s, o)
  {
    hide Intact;
    LastIsRetained(s, backups, stamp);
    var kept := StillOwned(s, backups);
    assert kept == Excess(kept, MAX_BACKUPS) + Retained(kept, MAX_BACKUPS);
  }

  lemma TracksIs(backups: seq<Owned>, stamp: nat)
    ensures Tracks(backups, stamp) <==> exists o :: o in backups && o.stamp == stamp
  {
    if Tracks(backups, stamp) {
      var k :| 0 <= k < |backups| && backups[k].stamp == stamp;
      assert backups[k] in backups;
    }
  }

  lemma IntactIs(c: Cell, o: Owned)
    requires Settled(c) && c.step.before.Some? && o.stamp == c.step.backup
    ensures Intact(c.slot, o) <==> o.digest == c.step.before.value.bytes
  {
    SettledIsReadable(c);
  }

  /** It leaves the backup of the step tracked unless its digest is of other bytes. */
  lemma FinallyListed(c: Cell, backups: seq<Owned>)
    requires Settled(c) && DistinctStamps(backups) && |backups| <= MAX_BACKUPS + 1
    requires |backups| == MAX_BACKUPS + 1 ==> backups[MAX_BACKUPS].stamp == c.step.backup
    ensures Listing(c.step, backups) ==>
              (Listing(c.step, Retained(StillOwned(c.slot, backups), MAX_BACKUPS)) <==> Rightly(c.step, backups))
  {
    hide Settled, StillOwned, Retained, Tracks, Intact;
    if c.step.before.Some? && Listing(c.step, backups) {
      var less := Retained(StillOwned(c.slot, backups), MAX_BACKUPS);
      forall o: Owned | o.stamp == c.step.backup ensures Intact(c.slot, o) <==> o.digest == c.step.before.value.bytes {
        IntactIs(c, o);
      }
      NewestStays(c.slot, backups, c.step.backup);
      TracksIs(backups, c.step.backup);
      TracksIs(less, c.step.backup);
    }
  }

  /** `c` is the step when it was published, `d` when its backup was listed. */
  lemma ListedIfRightly(c: Cell, d: Cell, now: seq<Owned>)
    requires Settled(d) && d.step == c.step && now == Retained(Surviving(d.slot, Completed(c)), MAX_BACKUPS)
    requires DistinctStamps(Completed(c)) && |Completed(c)| <= MAX_BACKUPS + 1
    requires |Completed(c)| == MAX_BACKUPS + 1 ==> Completed(c)[MAX_BACKUPS].stamp == c.step.backup
    ensures Listing(c.step, now) <==> Rightly(c.step, c.entry.backups)
  {
    hide Settled, Surviving, StillOwned, Listing, Rightly, WithOwn;
    OneMoreListed(c.step, c.entry.backups);
    TrimKept(d, Completed(c));
    FinallyListed(d, Completed(c));
  }

  function Tracking(j: Journal, i: nat, backups: seq<Owned>): Journal
    requires i < |j.targets|
  {
    j.(targets := j.targets[i := j.targets[i].(backups := backups)])
  }

  lemma RetainedBackups(s: Slot, backups: seq<Owned>, retain: nat, stamp: nat)
    requires !Tracks(backups, stamp) || Backup(stamp) !in s.names
    requires DistinctStamps(backups)
    ensures var kept := StillOwned(s, backups);
            && |Retained(kept, retain)| <= retain && DistinctStamps(Retained(kept, retain))
            && !Tracks(Retained(kept, retain), stamp) && stamp !in Stamps(Excess(kept, retain))
            && forall o | o in Retained(kept, retain) :: o in backups && o.stamp !in Stamps(Excess(kept, retain))
  {
    var kept := StillOwned(s, backups);
    assert kept == Excess(kept, retain) + Retained(kept, retain);
    assert DistinctStamps(kept);
    forall o | o in kept ensures o.stamp != stamp {
      var k :| 0 <= k < |backups| && backups[k] == o;
    }
  }

  /** The first backup name from `from` on that no file has. */
  method NextCollision(s: Slot, from: nat) returns (stamp: nat)
    ensures stamp >= from && Backup(stamp) !in s.names
    ensures forall k | from <= k < stamp :: Backup(k) in s.names
  {
    stamp := from;
    ghost var left := set n | n in s.names && n.Backup? && n.stamp >= from;
    while Backup(stamp) in s.names
      invariant stamp >= from && forall k | from <= k < stamp :: Backup(k) in s.names
      invariant left == set n | n in s.names && n.Backup? && n.stamp >= stamp
      decreases left
    {
      assert Backup(stamp) in left;
      stamp := stamp + 1;
      left := set n | n in s.names && n.Backup? && n.stamp >= stamp;
    }
  }

  /** The final trimming spares the newest entry. */
  lemma LastIsRetained(s: Slot, backups: seq<Owned>, stamp: nat)
    requires DistinctStamps(backups) && |backups| <= MAX_BACKUPS + 1
    requires |backups| == MAX_BACKUPS + 1 ==> backups[MAX_BACKUPS].stamp == stamp
    ensures var kept := StillOwned(s, backups);
            && |Retained(kept, MAX_BACKUPS)| <= MAX_BACKUPS && DistinctStamps(Retained(kept, MAX_BACKUPS))
            && stamp !in Stamps(Excess(kept, MAX_BACKUPS))
  {
    hide Intact, StillOwned;
    var kept := StillOwned(s, backups);
    if |kept| > MAX_BACKUPS {
      assert kept == backups && Excess(kept, MAX_BACKUPS) == [backups[0]];
      assert backups[0].stamp != backups[MAX_BACKUPS].stamp;
    }
  }

  function Updated(j: Journal, i: nat, step: Step): Journal
    requires j.pending.Some? && i < |j.pending.value|
  {
    j.(pending := Some(j.pending.value[i := step]))
  }
}
