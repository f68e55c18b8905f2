/**
 The bounded pool of upstream connections: entries with a fixed number of slots and a queue of
 waiters each, and a registry that evicts idle entries to make room for new ones.  Requests carry
 tickets in the order in which they ask for a slot.
 */
module InferencePool {
  import opened Options

  /** An entry's key: the origin and the connect timeout. */
  datatype Profile = Profile(origin: string, connectTimeoutMs: nat)

  datatype Limits = Limits(maxEntries: nat, connectionsPerEntry: nat, maxWaitersPerEntry: nat)

  datatype Acquired = Granted(ticket: nat) | Queued(ticket: nat) | Closed | Saturated

  class InferencePoolEntry {
    const key: Profile
    const limits: Limits
    var active: nat
    var waiters: seq<nat>
    var closed: bool
    var dispatcher: bool
    var initializing: bool
    var failed: bool
    var idleTimer: bool
    var lastUsedMs: int
    var nextTicket: nat
    var outstanding: set<nat>     // the leases whose release has not run yet
    ghost var granted: set<nat>   // every ticket that ever got a slot

    /** Slots are conserved, nobody waits while one is free, and no ticket overtakes another. */
    ghost predicate Valid()
      reads `active, `waiters, `closed, `nextTicket, `outstanding, `granted
    {
      active == |outstanding| && active <= limits.connectionsPerEntry
      && (waiters != [] ==> active == limits.connectionsPerEntry)
      && |waiters| <= limits.maxWaitersPerEntry
      && (closed ==> waiters == [])
      && outstanding <= granted
      && (forall g | g in granted :: g < nextTicket)
      && (forall i | 0 <= i < |waiters| :: waiters[i] < nextTicket)
      && (forall i, j | 0 <= i < j < |waiters| :: waiters[i] < waiters[j])
      && (forall g, i | g in granted && 0 <= i < |waiters| :: g < waiters[i])
    }

    predicate Idle()
      reads this
    {
      active == 0 && waiters == [] && !initializing
    }

    constructor (key: Profile, limits: Limits, nowMs: int)
      ensures Valid() && !closed && outstanding == {} && this.key == key && this.limits == limits
      ensures waiters == [] && lastUsedMs == nowMs && !idleTimer && !initializing
    {
      this.key, this.limits := key, limits;
      active, waiters, closed, dispatcher, initializing, failed := 0, [], false, false, false, false;
      idleTimer, lastUsedMs, nextTicket, outstanding, granted := false, nowMs, 0, {}, {};
    }

    lemma ClosedHasNoWaiters()
      requires Valid() && closed
      ensures waiters == []
    {
    }

    lemma Bounds()
      requires Valid()
      ensures active == |outstanding| && active <= limits.connectionsPerEntry
      ensures |waiters| <= limits.maxWaitersPerEntry && nextTicket !in outstanding
    {
    }

    lemma IdleHasNoLease()
      requires Valid() && Idle()
      ensures outstanding == {}
    {
    }

    method Touch(nowMs: int)
      modifies `lastUsedMs, `idleTimer
      ensures lastUsedMs == nowMs && !idleTimer
    {
      lastUsedMs := nowMs;
      idleTimer := false;
    }

    method Acquire(nowMs: int) returns (r: Acquired)
      requires Valid()
      modifies this
      ensures Valid() && closed == old(closed)
      ensures r.Closed? <==> old(closed)
      ensures r.Granted? <==> !old(closed) && old(active) < limits.connectionsPerEntry
      ensures r.Saturated? <==> !old(closed) && old(active) == limits.connectionsPerEntry
                                && |old(waiters)| == limits.maxWaitersPerEntry
      ensures r.Granted? ==> old(waiters) == [] && r.ticket == old(nextTicket)
      ensures outstanding == if r.Granted? then old(outstanding) + {r.ticket} else old(outstanding)
      ensures waiters == if r.Queued? then old(waiters) + [old(nextTicket)] else old(waiters)
      ensures granted == if r.Granted? then old(granted) + {r.ticket} else old(granted)
      ensures r.Queued? ==> r.ticket == old(nextTicket)
      ensures initializing == old(initializing) && dispatcher == old(dispatcher) && failed == old(failed)
      ensures if closed then lastUsedMs == old(lastUsedMs) && idleTimer == old(idleTimer)
              else lastUsedMs == nowMs && !idleTimer
    {
      if closed { return Closed; }
      Touch(nowMs);
      if active < limits.connectionsPerEntry {
        active := active + 1;
        r := Granted(nextTicket);
        outstanding := outstanding + {nextTicket};
        granted := granted + {nextTicket};
        nextTicket := nextTicket + 1;
        return;
      }
      if |waiters| >= limits.maxWaitersPerEntry { return Saturated; }
      r := Queued(nextTicket);
      waiters := waiters + [nextTicket];
      nextTicket := nextTicket + 1;
    }

    /** The release of one lease, however often it is called: the slot goes to whoever has waited
        longest, or becomes free.  `idle` asks for an eviction timer. */
    method Release(ticket: nat, nowMs: int) returns (idle: bool)
      requires Valid()
      modifies `active, `waiters, `lastUsedMs, `outstanding, `granted
      ensures Valid()
      ensures ticket !in old(outstanding) ==>
                outstanding == old(outstanding) && waiters == old(waiters) && granted == old(granted)
                && active == old(active) && !idle
      ensures ticket in old(outstanding) && old(waiters) != [] ==>
                outstanding == old(outstanding) - {ticket} + {old(waiters)[0]}
                && waiters == old(waiters)[1..] && active == old(active)
                && granted == old(granted) + {old(waiters)[0]}
      ensures ticket in old(outstanding) && old(waiters) == [] ==>
                outstanding == old(outstanding) - {ticket} && waiters == [] && active == old(active) - 1
                && granted == old(granted)
      ensures idle <==> ticket in old(outstanding) && active == 0 && waiters == [] && !initializing
      ensures lastUsedMs == if ticket in old(outstanding) then nowMs else old(lastUsedMs)
    {
      if ticket !in outstanding { return false; }
      outstanding := outstanding - {ticket};
      lastUsedMs := nowMs;
      if waiters != [] {
        var next := waiters[0];
        assert next !in outstanding;
        waiters := waiters[1..];
        outstanding := outstanding + {next};
        granted := granted + {next};
        return false;
      }
      active := if active - 1 > 0 then active - 1 else 0;
      idle := active == 0 && waiters == [] && !initializing;
    }

    /** A waiter gives up, by abort or timeout; the others keep their order. */
    method Abandon(ticket: nat)
      requires Valid()
      modifies `waiters
      ensures Valid()
      ensures ticket !in old(waiters) ==> waiters == old(waiters)
      ensures forall i | 0 <= i < |old(waiters)| && old(waiters)[i] == ticket ::
                waiters == old(waiters)[..i] + old(waiters)[i + 1..]
      ensures ticket !in waiters
    {
      var index := 0;
      while index < |waiters| && waiters[index] != ticket
        invariant 0 <= index <= |waiters|
        invariant ticket !in waiters[..index]
      {
        index := index + 1;
      }
      if index < |waiters| {
        waiters := waiters[..index] + waiters[index + 1..];
      }
    }

    /** Closing rejects everyone who waits; slots already granted stay with their leases. */
    method Close()
      requires Valid()
      modifies `closed, `waiters, `idleTimer, `initializing
      ensures Valid() && closed && waiters == [] && !idleTimer && !initializing
    {
      closed, waiters, idleTimer, initializing := true, [], false, false;
    }

    method StartDispatcher()
      requires !closed
      modifies `initializing
      ensures initializing == (!dispatcher || old(initializing))
    {
      if !dispatcher { initializing := true; }
    }

    /** The creation of the dispatcher has ended. */
    method DispatcherSettled(created: bool) returns (idle: bool)
      modifies `initializing, `failed, `dispatcher
      ensures failed == !created && !initializing
      ensures dispatcher == (old(dispatcher) || (created && !closed))
      ensures idle <==> active == 0 && waiters == [] && !initializing
    {
      failed := !created;
      if created && !closed { dispatcher := true; }
      initializing := false;
      idle := active == 0 && waiters == [] && !initializing;
    }

    method ScheduleIdle(nowMs: int)
      modifies `lastUsedMs, `idleTimer
      ensures idleTimer == (Idle() && !closed) && lastUsedMs == nowMs
    {
      Touch(nowMs);
      if !(active == 0 && waiters == [] && !initializing) || closed { return; }
      idleTimer := true;
    }
  }

  datatype Action = Find(key: Profile, nowMs: int) | CloseAll(force: bool) | On(move: Move)

  datatype Move =
    | Ask(nowMs: int)
    | Return(ticket: nat, nowMs: int)
    | GiveUp(ticket: nat)
    | Connect
    | Connected(created: bool, nowMs: int)
    | Drop
    | Expire
    | Settle

  datatype Found = Entry(entry: InferencePoolEntry) | Draining(evicted: InferencePoolEntry) | PoolClosed | PoolSaturated

  class BoundedInferencePoolRegistry {
    const limits: Limits
    var entries: map<Profile, InferencePoolEntry>
    var draining: set<InferencePoolEntry>
    var closed: bool
    var all: set<InferencePoolEntry>             // every entry ever created: requests may still hold it
    ghost var evicted: set<InferencePoolEntry>   // those that were closed to make room or for idleness

    /** Tracked entries stay within the limit, an entry is found only while it is open, and an
        entry that was evicted holds no lease and never will. */
    ghost predicate Valid()
      reads this, all
    {
      (forall e | e in all :: e.Valid())
      && |entries.Keys| + |draining| <= limits.maxEntries
      && MapOk() && DrainingOk()
      && (closed ==> entries == map[])
    }

    ghost predicate MapOk()
      reads `entries, `draining, `all, all
    {
      forall k | k in entries ::
        entries[k] in all && entries[k].key == k && !entries[k].closed && entries[k] !in draining
    }

    ghost predicate DrainingOk()
      reads `draining, `evicted, `all, all
    {
      draining <= all && evicted <= all
      && (forall e | e in draining :: e.closed)
      && (forall e | e in evicted :: e.closed && e.outstanding == {})
    }

    constructor (limits: Limits)
      ensures Valid() && this.limits == limits && !closed
    {
      this.limits := limits;
      entries, draining, closed, all, evicted := map[], {}, false, {}, {};
    }

    /** One turn of the search for an entry.  After an eviction the caller waits for the drain and
        searches again, so what it finds may be closed by the time it asks for a slot. */
    method EntryFor(key: Profile, nowMs: int) returns (r: Found)
      requires Valid()
      modifies `entries, `draining, `all, `evicted, all
      ensures Valid() && old(all) <= all && fresh(all - old(all))
      ensures r.PoolClosed? <==> closed
      ensures r.Entry? ==> key in entries && entries[key] == r.entry && !r.entry.closed
      ensures r.Entry? && key in old(entries) ==> entries == old(entries) && r.entry == old(entries[key])
      ensures r.Entry? && key !in old(entries) ==>
                |old(entries).Keys| + |old(draining)| < limits.maxEntries && entries == old(entries)[key := r.entry]
                && r.entry !in old(all)
      ensures r.Entry? ==>
                r.entry.lastUsedMs == nowMs && !r.entry.idleTimer
                && forall e | e in old(all) && e != r.entry :: unchanged(e)
      ensures r.Entry? && key !in old(entries) ==>
                r.entry.key == key && r.entry.limits == limits && r.entry.active == 0 && r.entry.waiters == []
      ensures r.Draining? ==>
                |old(entries).Keys| + |old(draining)| == limits.maxEntries
                && r.evicted.closed && forall e | e in old(all) && e != r.evicted :: unchanged(e)
      ensures r.PoolClosed? || r.PoolSaturated? ==>
                entries == old(entries) && draining == old(draining) && forall e | e in old(all) :: unchanged(e)
      ensures r.Draining? ==>
                key !in entries && r.evicted in evicted && r.evicted.key in old(entries)
                && old(entries)[r.evicted.key] == r.evicted
                && old(r.evicted.active == 0 && r.evicted.waiters == [] && !r.evicted.initializing)
                && entries == old(entries) - {r.evicted.key} && draining == old(draining) + {r.evicted}
                && (forall k | k in entries
                               && old(entries[k].active == 0 && entries[k].waiters == [] && !entries[k].initializing) ::
                      old(entries[k].lastUsedMs) >= old(r.evicted.lastUsedMs))
      ensures r.PoolSaturated? ==>
                key !in entries && |entries.Keys| + |draining| == limits.maxEntries
                && forall k | k in entries ::
                     entries[k].active > 0 || entries[k].waiters != [] || entries[k].initializing
      ensures forall e | e in old(all) :: e.outstanding == old(e.outstanding) && e.waiters == old(e.waiters)
    {
      hide InferencePoolEntry.Valid, MapOk, DrainingOk;
      if closed { return PoolClosed; }
      if key in entries {
        KeyIs(key);
        entries[key].Touch(nowMs);
        StepKeeps(entries[key]);
        return Entry(entries[key]);
      }
      if |entries.Keys| + |draining| < limits.maxEntries {
        var created := Create(key, nowMs);
        return Entry(created);
      }
      var idle := OldestIdle();
      match idle
      case None => r := PoolSaturated;
      case Some(entry) =>
        EntryIsUntracked(entry);
        Evict(entry);
        r := Draining(entry);
    }

    method Create(key: Profile, nowMs: int) returns (created: InferencePoolEntry)
      requires Valid() && !closed && key !in entries && |entries.Keys| + |draining| < limits.maxEntries
      modifies `entries, `all
      ensures Valid() && fresh(created) && all == old(all) + {created}
      ensures entries == old(entries)[key := created] && !created.closed && created !in old(all)
      ensures created.key == key && created.limits == limits && created.active == 0 && created.waiters == []
      ensures created.lastUsedMs == nowMs && !created.idleTimer
    {
      hide InferencePoolEntry.Valid;
      created := new InferencePoolEntry(key, limits, nowMs);
      entries := entries[key := created];
      all := all + {created};
      assert entries.Keys == old(entries.Keys) + {key};
    }

    method OldestIdle() returns (r: Option<InferencePoolEntry>)
      requires Valid()
      ensures r.None? ==> forall k | k in entries :: !entries[k].Idle()
      ensures r.Some? ==>
                r.value.key in entries && entries[r.value.key] == r.value && r.value.Idle()
                && forall k | k in entries && entries[k].Idle() :: entries[k].lastUsedMs >= r.value.lastUsedMs
    {
      r := None;
      var rest := entries.Keys;
      while rest != {}
        modifies {}
        invariant rest <= entries.Keys
        invariant r.None? ==> forall k | k in entries && k !in rest :: !entries[k].Idle()
        invariant r.Some? ==>
                    r.value.key in entries && entries[r.value.key] == r.value && r.value.Idle()
                    && forall k | k in entries && k !in rest && entries[k].Idle() ::
                         entries[k].lastUsedMs >= r.value.lastUsedMs
        decreases rest
      {
        var k :| k in rest;
        if entries[k].Idle() && (r.None? || entries[k].lastUsedMs < r.value.lastUsedMs) {
          r := Some(entries[k]);
        }
        rest := rest - {k};
      }
    }

    /** Eviction takes an entry that nobody uses. */
    method Evict(entry: InferencePoolEntry)
      requires Valid() && entry.key in entries && entries[entry.key] == entry && entry.Idle()
      modifies `entries, `draining, `evicted, entry
      ensures Valid() && entries == old(entries) - {entry.key} && draining == old(draining) + {entry}
      ensures evicted == old(evicted) + {entry} && entry.closed
      ensures entry.outstanding == old(entry.outstanding) && entry.waiters == old(entry.waiters)
    {
      hide InferencePoolEntry.Valid, MapOk;
      EntryIsUntracked(entry);
      entry.IdleHasNoLease();
      Drain(entry);
      assert DrainingOk() && entry in all;
      evicted := evicted + {entry};
      assert DrainingOk();
    }

    /** Removes an entry from the map and starts to drain it, in one step. */
    method Drain(entry: InferencePoolEntry)
      requires Valid() && entry.key in entries && entries[entry.key] == entry
      modifies `entries, `draining, entry
      ensures Valid() && entries == old(entries) - {entry.key} && draining == old(draining) + {entry}
      ensures entry.closed && entry.outstanding == old(entry.outstanding) && entry.waiters == []
    {
      hide InferencePoolEntry.Valid, DrainingOk, MapOk;
      EntryIsUntracked(entry);
      entry.Close();
      entries, draining := entries - {entry.key}, draining + {entry};
      assert entries.Keys == old(entries.Keys) - {entry.key};
      DrainKeeps(entry);
    }

    lemma EntryIsUntracked(entry: InferencePoolEntry)
      requires MapOk() && entry.key in entries && entries[entry.key] == entry
      ensures entry in all && entry !in draining
    {
    }

    twostate lemma DrainKeeps(entry: InferencePoolEntry)
      requires old(MapOk()) && old(DrainingOk()) && all == old(all) && evicted == old(evicted)
      requires entry.key in old(entries) && old(entries)[entry.key] == entry
      requires entries == old(entries) - {entry.key} && draining == old(draining) + {entry}
      requires entry.closed && entry.outstanding == old(entry.outstanding)
      requires forall e | e in all && e != entry :: e.closed == old(e.closed) && e.outstanding == old(e.outstanding)
      ensures MapOk() && DrainingOk()
    {
    }

    /** A step of one entry that does not reopen it, nor give a lease to one that was evicted. */
    twostate lemma StepKeeps(entry: InferencePoolEntry)
      requires old(Valid()) && old(entry in all) && entry.Valid() && entry.closed == old(entry.closed)
      requires entry.closed ==> entry.outstanding <= old(entry.outstanding)
      requires unchanged(this) && forall e | e in all && e != entry :: unchanged(e)
      ensures Valid()
    {
      hide InferencePoolEntry.Valid;
      forall e | e in all ensures e.Valid() {
        assert e != entry ==> unchanged(e) && old(e.Valid());
      }
      assert MapOk() by {
        forall k | k in entries ensures entries[k] in all && !entries[k].closed {
          assert old(entries[k].key == k && !entries[k].closed);
        }
      }
      assert DrainingOk() by {
        forall e | e in evicted ensures e.closed && e.outstanding == {} {
          assert old(e.closed && e.outstanding == {}) && (e != entry ==> unchanged(e));
        }
        forall e | e in draining ensures e.closed {
          assert old(e.closed) && (e != entry ==> unchanged(e));
        }
      }
    }

    /** A request asks its entry for a slot; the entry may have been evicted in the meantime. */
    method Acquire(entry: InferencePoolEntry, nowMs: int) returns (r: Acquired)
      requires Valid() && entry in all
      modifies entry
      ensures Valid()
      ensures entry in evicted ==> r.Closed? && entry.outstanding == {}
      ensures r.Closed? <==> old(entry.closed)
      ensures r.Granted? <==> !old(entry.closed) && old(entry.active) < entry.limits.connectionsPerEntry
      ensures r.Queued? <==> !old(entry.closed) && old(entry.active) == entry.limits.connectionsPerEntry
                             && |old(entry.waiters)| < entry.limits.maxWaitersPerEntry
      ensures r.Saturated? <==> !old(entry.closed) && old(entry.active) == entry.limits.connectionsPerEntry
                                && |old(entry.waiters)| == entry.limits.maxWaitersPerEntry
      ensures r.Granted? ==> r.ticket !in old(entry.outstanding) && entry.active == old(entry.active) + 1
      ensures entry.outstanding == if r.Granted? then old(entry.outstanding) + {r.ticket} else old(entry.outstanding)
      ensures entry.waiters == if r.Queued? then old(entry.waiters) + [r.ticket] else old(entry.waiters)
      ensures !r.Closed? ==> entry.lastUsedMs == nowMs && !entry.idleTimer
    {
      hide InferencePoolEntry.Valid, MapOk;
      entry.Bounds();
      r := entry.Acquire(nowMs);
      entry.Bounds();
      StepKeeps(entry);
    }

    /** A release, a second release, or the release of a lease that outlived its entry. */
    method Release(entry: InferencePoolEntry, ticket: nat, nowMs: int)
      requires Valid() && entry in all
      modifies entry
      ensures Valid()
      ensures ticket !in old(entry.outstanding) ==> unchanged(entry)
      ensures ticket in old(entry.outstanding) && old(entry.waiters) != [] ==>
                entry.outstanding == old(entry.outstanding) - {ticket} + {old(entry.waiters)[0]}
                && entry.waiters == old(entry.waiters)[1..] && entry.active == old(entry.active)
      ensures ticket in old(entry.outstanding) && old(entry.waiters) == [] ==>
                entry.outstanding == old(entry.outstanding) - {ticket} && entry.waiters == []
                && entry.active == old(entry.active) - 1
      ensures ticket in old(entry.outstanding) ==>
                entry.lastUsedMs == nowMs && entry.closed == old(entry.closed)
                && entry.idleTimer == if entry.Idle() then !entry.closed else old(entry.idleTimer)
    {
      hide InferencePoolEntry.Valid, MapOk, DrainingOk;
      if entry.closed { entry.ClosedHasNoWaiters(); }
      var idle := entry.Release(ticket, nowMs);
      if idle { entry.ScheduleIdle(nowMs); }
      StepKeeps(entry);
    }

    method Abandon(entry: InferencePoolEntry, ticket: nat)
      requires Valid() && entry in all
      modifies entry
      ensures Valid() && ticket !in entry.waiters && entry.outstanding == old(entry.outstanding)
      ensures ticket !in old(entry.waiters) ==> unchanged(entry)
      ensures forall i | 0 <= i < |old(entry.waiters)| && old(entry.waiters)[i] == ticket ::
                entry.waiters == old(entry.waiters)[..i] + old(entry.waiters)[i + 1..]
    {
      hide InferencePoolEntry.Valid, MapOk, DrainingOk;
      entry.Abandon(ticket);
      StepKeeps(entry);
    }

    method StartDispatcher(entry: InferencePoolEntry)
      requires Valid() && entry in all
      modifies entry`initializing
      ensures Valid()
      ensures entry.initializing == (old(entry.initializing) || (!entry.closed && !entry.dispatcher))
    {
      hide InferencePoolEntry.Valid, MapOk, DrainingOk;
      if !entry.closed { entry.StartDispatcher(); }
      StepKeeps(entry);
    }

    method DispatcherSettled(entry: InferencePoolEntry, created: bool, nowMs: int)
      requires Valid() && entry in all
      modifies entry`initializing, entry`failed, entry`dispatcher, entry`lastUsedMs, entry`idleTimer
      ensures Valid()
      ensures !entry.initializing && entry.failed == !created
      ensures entry.dispatcher == (old(entry.dispatcher) || (created && !entry.closed))
      ensures if entry.Idle() then entry.lastUsedMs == nowMs && entry.idleTimer == !entry.closed
              else entry.lastUsedMs == old(entry.lastUsedMs) && entry.idleTimer == old(entry.idleTimer)
    {
      hide InferencePoolEntry.Valid, MapOk, DrainingOk;
      var idle := entry.DispatcherSettled(created);
      if idle { entry.ScheduleIdle(nowMs); }
      StepKeeps(entry);
    }

    /** An entry whose dispatcher could not be created is forgotten. */
    method DropFailed(entry: InferencePoolEntry)
      requires Valid()
      modifies `entries
      ensures Valid()
      ensures entries == if entry.failed && entry.key in old(entries) && old(entries)[entry.key] == entry
                         then old(entries) - {entry.key} else old(entries)
    {
      hide InferencePoolEntry.Valid, DrainingOk;
      if entry.failed && entry.key in entries && entries[entry.key] == entry {
        assert (entries - {entry.key}).Keys == entries.Keys - {entry.key};
        entries := entries - {entry.key};
      }
    }

    /** The idle timer of an entry fires. */
    method IdleExpired(entry: InferencePoolEntry)
      requires Valid()
      modifies `entries, `draining, `evicted, entry
      ensures Valid()
      ensures if !closed && entry.key in old(entries) && old(entries)[entry.key] == entry && old(entry.Idle()) then
                entry.closed && evicted == old(evicted) + {entry}
                && entries == old(entries) - {entry.key} && draining == old(draining) + {entry}
              else
                entries == old(entries) && draining == old(draining) && evicted == old(evicted) && unchanged(entry)
    {
      if closed || entry.key !in entries || entries[entry.key] != entry || !entry.Idle() { return; }
      Evict(entry);
    }

    method Drained(entry: InferencePoolEntry)
      requires Valid()
      modifies `draining
      ensures Valid() && draining == old(draining) - {entry}
    {
      hide InferencePoolEntry.Valid;
      draining := draining - {entry};
    }

    /** Closing: every entry moves to the draining set, or is forgotten when forced. */
    method Close(force: bool)
      requires Valid()
      modifies `entries, `draining, `closed, all
      ensures Valid() && closed && entries == map[] && (force ==> draining == {})
      ensures forall e | e in all :: e.outstanding == old(e.outstanding)
      ensures forall k | k in old(entries) :: old(entries)[k].closed && old(entries)[k].waiters == []
      ensures !force ==> draining == old(draining) + set k | k in old(entries) :: old(entries)[k]
    {
      hide InferencePoolEntry.Valid, MapOk, DrainingOk;
      while entries != map[]
        modifies `entries, `draining, all
        invariant Valid()
        invariant forall e | e in all :: e.outstanding == old(e.outstanding)
        invariant draining == old(draining) + set k | k in old(entries) && k !in entries :: old(entries)[k]
        invariant entries.Keys <= old(entries).Keys && forall k | k in entries :: entries[k] == old(entries)[k]
        invariant forall k | k in old(entries) ::
                    (old(entries)[k].closed && old(entries)[k].waiters == [])
                    || (k in entries && entries[k] == old(entries)[k])
        decreases entries.Keys
      {
        var k :| k in entries;
        KeyIs(k);
        Drain(entries[k]);
      }
      closed := true;
      if force { Forget(); }
    }

    method Forget()
      requires Valid() && closed
      modifies `draining
      ensures Valid() && draining == {}
    {
      hide InferencePoolEntry.Valid;
      draining := {};
    }

    lemma KeyIs(k: Profile)
      requires MapOk() && k in entries
      ensures entries[k].key == k && entries[k] in all && !entries[k].closed
    {
    }

    /** Any interleaving.  Which entry a step is about is left open, so requests may hold on to
        entries that were evicted, dropped or closed long ago. */
    method Run(schedule: seq<Action>)
      requires Valid()
      modifies this, all
      ensures Valid() && old(all) <= all
    {
      hide Valid;
      for i := 0 to |schedule|
        invariant Valid() && old(all) <= all && fresh(all - old(all))
      {
        Step(schedule[i]);
      }
    }

    method Step(action: Action)
      requires Valid()
      modifies this, all
      ensures Valid() && old(all) <= all && fresh(all - old(all))
    {
      hide InferencePoolEntry.Valid, MapOk, DrainingOk;
      match action
      case Find(key, nowMs) => var _ := EntryFor(key, nowMs);
      case CloseAll(force) => Close(force);
      case On(move) =>
        if all != {} {
          var entry :| entry in all;
          StepOf(entry, move);
        }
    }

    method StepOf(entry: InferencePoolEntry, move: Move)
      requires Valid() && entry in all
      modifies this, all
      ensures Valid() && all == old(all)
    {
      hide InferencePoolEntry.Valid, MapOk, DrainingOk;
      match move
      case Ask(nowMs) => var _ := Acquire(entry, nowMs);
      case Return(ticket, nowMs) => Release(entry, ticket, nowMs);
      case GiveUp(ticket) => Abandon(entry, ticket);
      case Connect => StartDispatcher(entry);
      case Connected(created, nowMs) => DispatcherSettled(entry, created, nowMs);
      case Drop => DropFailed(entry);
      case Expire => IdleExpired(entry);
      case Settle => Drained(entry);
    }
  }
}
