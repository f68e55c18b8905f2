/**
 The operation lease of a data directory, shared by any number of processes that come, race and
 die.  Each method is one file operation, or one question to the operating system, of one process.
 */
module OperationLease {
  import opened Options

  /** A process for its whole life: process numbers are used again, start identities are not. */
  datatype Process = Process(pid: nat, start: nat)

  datatype Temp = Temp(initializer: Process, unique: nat)

  datatype Owner = Owner(held: bool, process: Process, token: nat)

  datatype Phase =
    | Idle
    | Creating(temp: Temp, ino: nat)
    | Prepared(temp: Temp, ino: nat)
    | Published(temp: Temp)
    | Polling
    | Sweeping(ino: nat, todo: set<Temp>)
    | Asked(ino: nat, todo: set<Temp>, temp: Temp, actual: Option<nat>)
    | Verified(ino: nat)
    | Held(ino: nat, token: nat)
    | Releasing(ino: nat)

  datatype Event =
    | Start(process: Process)
    | Kill(process: Process)
    | Acquire(process: Process, unique: nat)
    | Continue(process: Process, temp: Temp, token: nat)
    | Release(process: Process)
    | GiveUp(process: Process)

  /** The phases in which a process has the exclusive transaction open. */
  predicate HasLock(p: Phase) {
    p.Sweeping? || p.Asked? || p.Verified? || p.Held? || p.Releasing?
  }

  class LeaseDirectory {
    var database: Option<nat>            // the inode the database path names
    var temps: map<Temp, nat>            // initialization files and their inodes
    var complete: set<nat>               // the inodes that were written to the end
    var owner: Option<Owner>
    var ownerTemp: bool
    var locks: map<nat, Process>         // exclusive transactions, by inode
    var live: map<nat, nat>              // the running processes: number to start identity
    var phases: map<Process, Phase>      // of the running processes
    var nextIno: nat
    var everLived: set<Process>          // start identities are not given out twice

    predicate Alive(p: Process)
      reads `live
    {
      p.pid in live && live[p.pid] == p.start
    }

    /** One process holds the lock of one file, which is the file the path names. */
    ghost predicate LocksOk()
      reads `database, `locks, `phases
    {
      (forall p | p in phases && HasLock(phases[p]) ::
         database == Some(phases[p].ino) && phases[p].ino in locks && locks[phases[p].ino] == p)
      && forall i | i in locks :: locks[i] in phases && HasLock(phases[locks[i]]) && phases[locks[i]].ino == i
    }

    /** An initializer that runs still has its file, and nobody else's. */
    ghost predicate TempsOk()
      reads `database, `temps, `complete, `phases, `nextIno, `everLived
    {
      (forall p | p in phases && (phases[p].Creating? || phases[p].Prepared?) ::
         phases[p].temp.initializer == p && phases[p].temp in temps && temps[phases[p].temp] == phases[p].ino
         && database != Some(phases[p].ino) && (phases[p].Prepared? ==> phases[p].ino in complete))
      && (forall p | p in phases && phases[p].Published? :: phases[p].temp.initializer == p)
      && (forall t | t in temps :: t.initializer in everLived && temps[t] < nextIno)
      && (forall t, u | t in temps && u in temps && t != u :: temps[t] != temps[u])
      && (database.Some? ==> database.value in complete && database.value < nextIno)
    }

    /** Whoever was found gone when asked about stays gone. */
    ghost predicate AskedOk()
      reads `phases, `live, `everLived
    {
      (forall p | p in phases :: Alive(p))
      && (forall pid | pid in live :: Process(pid, live[pid]) in everLived)
      && forall p | p in phases && phases[p].Asked? && phases[p].actual != Some(phases[p].temp.initializer.start) ::
           phases[p].temp.initializer in everLived && !Alive(phases[p].temp.initializer)
    }

    /** While a process holds the lease the owner file says so. */
    ghost predicate OwnerOk()
      reads `owner, `phases
    {
      forall p | p in phases && phases[p].Held? :: owner == Some(Owner(true, p, phases[p].token))
    }

    ghost predicate Valid()
      reads this
    {
      LocksOk() && TempsOk() && AskedOk() && OwnerOk()
    }

    /** At most one process, of all that run, is between publishing its ownership and giving it up. */
    lemma MutualExclusion(p: Process, q: Process)
      requires Valid() && p in phases && q in phases && HasLock(phases[p]) && HasLock(phases[q])
      ensures p == q
    {
    }

    constructor ()
      ensures Valid() && database.None?
    {
      database, temps, complete, owner, ownerTemp := None, map[], {}, None, false;
      locks, live, phases, nextIno, everLived := map[], map[], map[], 0, {};
    }

    method Spawn(p: Process)
      requires Valid() && p !in everLived && p.pid !in live
      modifies `live, `phases, `everLived
      ensures Valid() && Alive(p) && phases == old(phases)[p := Idle]
      ensures live == old(live)[p.pid := p.start] && everLived == old(everLived) + {p}
    {
      live := live[p.pid := p.start];
      phases := phases[p := Idle];
      everLived := everLived + {p};
    }

    /** The process dies, wherever it is; the system ends its transactions. */
    method Die(p: Process)
      requires Valid() && p in phases
      modifies `live, `phases, `locks
      ensures Valid() && !Alive(p) && phases == old(phases) - {p}
      ensures live == old(live) - {p.pid}
      ensures forall i :: i in locks <==> i in old(locks) && old(locks)[i] != p
      ensures forall i | i in locks :: locks[i] == old(locks)[i]
    {
      live := live - {p.pid};
      phases := phases - {p};
      locks := map i | i in locks && locks[i] != p :: locks[i];
    }

    method Begin(p: Process, unique: nat)
      requires Valid() && p in phases && phases[p].Idle? && Temp(p, unique) !in temps
      modifies `temps, `phases, `nextIno
      ensures Valid()
      ensures database.Some? ==> phases == old(phases)[p := Polling] && temps == old(temps) && nextIno == old(nextIno)
      ensures database.None? ==> phases == old(phases)[p := Creating(Temp(p, unique), old(nextIno))]
                                 && temps == old(temps)[Temp(p, unique) := old(nextIno)]
    {
      if database.Some? {
        phases := phases[p := Polling];
        return;
      }
      temps := temps[Temp(p, unique) := nextIno];
      phases := phases[p := Creating(Temp(p, unique), nextIno)];
      nextIno := nextIno + 1;
    }

    method Prepare(p: Process)
      requires Valid() && p in phases && phases[p].Creating?
      modifies `complete, `phases
      ensures Valid() && phases == old(phases)[p := Prepared(old(phases)[p].temp, old(phases)[p].ino)]
      ensures complete == old(complete) + {old(phases)[p].ino}
    {
      complete := complete + {phases[p].ino};
      phases := phases[p := Prepared(phases[p].temp, phases[p].ino)];
    }

    /** Links the prepared file to the path, unless the path already names one. */
    method Link(p: Process)
      requires Valid() && p in phases && phases[p].Prepared?
      modifies `database, `phases
      ensures Valid() && database.Some? && database.value in complete
      ensures database == if old(database).Some? then old(database) else Some(old(phases)[p].ino)
      ensures phases == old(phases)[p := Published(old(phases)[p].temp)]
    {
      if database.None? { database := Some(temps[phases[p].temp]); }
      phases := phases[p := Published(phases[p].temp)];
    }

    method DropTemp(p: Process)
      requires Valid() && p in phases && phases[p].Published?
      modifies `temps, `phases
      ensures Valid() && phases == old(phases)[p := Polling] && temps == old(temps) - {old(phases)[p].temp}
    {
      temps := temps - {phases[p].temp};
      phases := phases[p := Polling];
    }

    /** Opens the file the path names and begins an exclusive transaction, if nobody has one. */
    method TryLock(p: Process) returns (ok: bool)
      requires Valid() && p in phases && phases[p].Polling? && database.Some?
      modifies `locks, `phases
      ensures Valid() && ok == (database.value !in old(locks))
      ensures phases == if ok then old(phases)[p := Sweeping(database.value, temps.Keys)] else old(phases)
      ensures locks == if ok then old(locks)[database.value := p] else old(locks)
    {
      var ino := database.value;
      if ino in locks { return false; }
      locks := locks[ino := p];
      phases := phases[p := Sweeping(ino, temps.Keys)];
      ok := true;
    }

    /** Looks at one initialization file: a second name of the database goes at once; of another
        one the initializer is asked for. */
    method Inspect(p: Process, t: Temp)
      requires Valid() && p in phases && phases[p].Sweeping? && t in phases[p].todo
      modifies `temps, `phases
      ensures Valid()
      ensures temps == if t in old(temps) && database == Some(old(temps)[t]) then old(temps) - {t} else old(temps)
      ensures var ino, rest := old(phases)[p].ino, old(phases)[p].todo - {t};
              phases == old(phases)[p := if t !in temps then Sweeping(ino, rest)
                                         else if t.initializer.pid in live
                                         then Asked(ino, rest, t, Some(live[t.initializer.pid]))
                                         else Asked(ino, rest, t, None)]
    {
      var ino := phases[p].ino;
      var todo := phases[p].todo - {t};
      if t !in temps {
        phases := phases[p := Sweeping(ino, todo)];
      } else if database == Some(temps[t]) {
        temps := temps - {t};
        phases := phases[p := Sweeping(ino, todo)];
      } else {
        var actual := if t.initializer.pid in live then Some(live[t.initializer.pid]) else None;
        phases := phases[p := Asked(ino, todo, t, actual)];
      }
    }

    /** Removes the file of an initializer that was gone when it was asked for; one that still
        runs keeps its file. */
    method Sweep(p: Process)
      requires Valid() && p in phases && phases[p].Asked?
      modifies `temps, `phases
      ensures Valid() && phases == old(phases)[p := Sweeping(old(phases)[p].ino, old(phases)[p].todo)]
      ensures var a := old(phases)[p];
              temps == (if a.actual == Some(a.temp.initializer.start) then old(temps) else old(temps) - {a.temp})
              && (temps != old(temps) ==> !Alive(a.temp.initializer))
    {
      var a := phases[p];
      phases := phases[p := Sweeping(a.ino, a.todo)];
      if a.temp in temps && a.actual != Some(a.temp.initializer.start) {
        temps := temps - {a.temp};
      }
    }

    /** An owner that is gone, or that released, is followed; any other is an error. */
    method VerifyOwner(p: Process) returns (ok: bool)
      requires Valid() && p in phases && phases[p].Sweeping? && phases[p].todo == {}
      modifies `ownerTemp, `phases, `locks
      ensures Valid()
      ensures ok <==> owner.None? || !owner.value.held || owner.value.process.pid !in live
      ensures phases == old(phases)[p := if ok then Verified(old(phases)[p].ino) else Idle]
      ensures !ownerTemp && locks == if ok then old(locks) else old(locks) - {old(phases)[p].ino}
      ensures ok ==> (owner.Some? && owner.value.held ==> !Alive(owner.value.process))
    {
      ownerTemp := false;
      if owner.Some? && owner.value.held && owner.value.process.pid in live {
        Fail(p);
        return false;
      }
      phases := phases[p := Verified(phases[p].ino)];
      ok := true;
    }

    method WriteOwnerTemp(p: Process) returns (ok: bool)
      requires Valid() && p in phases && (phases[p].Verified? || phases[p].Held?)
      modifies `ownerTemp
      ensures Valid() && ok == !old(ownerTemp) && ownerTemp
    {
      ok := !ownerTemp;
      ownerTemp := true;
    }

    method PublishHeld(p: Process, token: nat)
      requires Valid() && p in phases && phases[p].Verified? && ownerTemp
      modifies `owner, `ownerTemp, `phases
      ensures Valid() && owner == Some(Owner(true, p, token)) && !ownerTemp
      ensures phases == old(phases)[p := Held(old(phases)[p].ino, token)]
    {
      owner, ownerTemp := Some(Owner(true, p, token)), false;
      phases := phases[p := Held(phases[p].ino, token)];
    }

    method PublishReleased(p: Process)
      requires Valid() && p in phases && phases[p].Held? && ownerTemp
      modifies `owner, `ownerTemp, `phases
      ensures Valid() && owner == Some(Owner(false, p, old(phases)[p].token)) && !ownerTemp
      ensures phases == old(phases)[p := Releasing(old(phases)[p].ino)]
    {
      owner, ownerTemp := Some(Owner(false, p, phases[p].token)), false;
      phases := phases[p := Releasing(phases[p].ino)];
    }

    /** The transaction ends: after a release, after an error, or because the request was aborted. */
    method Fail(p: Process)
      requires Valid() && p in phases && HasLock(phases[p])
      modifies `locks, `phases
      ensures Valid() && phases == old(phases)[p := Idle] && locks == old(locks) - {old(phases)[p].ino}
    {
      locks := locks - {phases[p].ino};
      phases := phases[p := Idle];
    }

    /** Any processes in any interleaving, with deaths anywhere: once the path names a file it
        names that file forever, and of those that run at most one has the lease. */
    method Run(schedule: seq<Event>)
      requires Valid()
      modifies this
      ensures Valid() && (old(database).Some? ==> database == old(database))
    {
      hide Valid;
      for i := 0 to |schedule|
        invariant Valid() && (old(database).Some? ==> database == old(database))
      {
        Step(schedule[i]);
      }
    }

    method Step(event: Event)
      requires Valid()
      modifies this
      ensures Valid() && (old(database).Some? ==> database == old(database))
    {
      hide LocksOk, TempsOk, AskedOk, OwnerOk;
      var p := event.process;
      match event
      case Start(_) => if p !in everLived && p.pid !in live { Spawn(p); }
      case Kill(_) => if p in phases { Die(p); }
      case Acquire(_, unique) =>
        if p in phases && phases[p].Idle? && Temp(p, unique) !in temps { Begin(p, unique); }
      case Continue(_, t, token) => if p in phases { Advance(p, t, token); }
      case Release(_) =>
        if p in phases && phases[p].Held? {
          var ok := WriteOwnerTemp(p);
          if ok { PublishReleased(p); }
        }
      case GiveUp(_) => if p in phases && HasLock(phases[p]) { Fail(p); }
    }

    /** The next step of an acquisition. */
    method Advance(p: Process, t: Temp, token: nat)
      requires Valid() && p in phases
      modifies this
      ensures Valid() && (old(database).Some? ==> database == old(database))
    {
      hide LocksOk, TempsOk, AskedOk, OwnerOk;
      match phases[p]
      case Idle =>
      case Creating(_, _) => Prepare(p);
      case Prepared(_, _) => Link(p);
      case Published(_) => DropTemp(p);
      case Polling => if database.Some? { var _ := TryLock(p); }
      case Sweeping(_, todo) =>
        if t in todo { Inspect(p, t); }
        else if todo == {} { var _ := VerifyOwner(p); }
      case Asked(_, _, _, _) => Sweep(p);
      case Verified(_) => if ownerTemp { PublishHeld(p, token); } else { var _ := WriteOwnerTemp(p); }
      case Held(_, _) =>
      case Releasing(_) => Fail(p);
    }
  }
}
