/**
 The account directory.  Every method is one segment between two points at which other work may
 run, and starts when the lanes it needs are held; the schedule decides everything else.
 */
module AccountDirectory {
  import opened Options
  import opened CredentialStore
  import opened AccountInvariant

  const REFRESH_SKEW_MS := 60_000

  datatype Admission = Admitted | RemovalInProgress | CapacityReached

  datatype Removal = Started | AlreadyRemoved | NotFound | RevisionConflict

  datatype Upserted = Bound(generation: nat) | Refused(why: Admission) | Uncommitted | CleanupFailed

  /** When the signal of an upsert is aborted, if ever: seen before the commit, or by the sweep. */
  datatype Abort = Never | BeforeCommit | AfterCommit

  datatype Token = Missing | Usable(token: Option<string>) | Stale

  datatype Event =
    | Upsert(id: Id, token: string)
    | Remove(id: Id, revision: nat)
    | Cleanup
    | Continue(aborted: bool)
    | CommitFails
    | UseDefault(id: Id, revision: nat)
    | BindAccount(id: Id)
    | RefreshToken(id: Id, generation: nat, nowMs: int)
    | Refreshed(id: Id, token: string, expiresAtMs: int)
    | RefreshFailed(id: Id)
    | Capacity(max: nat)
    | Fault(after: Option<nat>)
    | Crash

  function NeedsRefresh(credential: Secret, nowMs: int, ghes: bool): bool {
    if ghes then false
    else if credential.copilotToken.None? || credential.copilotExpiresAtMs.None? then true
    else credential.copilotExpiresAtMs.value - nowMs < REFRESH_SKEW_MS
  }

  class AccountDirectory {
    const credentials: FileCredentialStore
    var rows: map<Id, Row>
    var defaultId: Option<Id>
    var prefsRevision: nat
    var maxAuthenticated: nat
    var lifecycle: Lifecycle
    var refreshing: map<Id, Refresh>
    ghost var tokens: map<Id, string>
    var bound: set<(Id, nat)>
    ghost var highest: nat
    ghost var abandoned: set<Id>

    ghost function Value(): World
      reads this, credentials
    {
      World(rows, defaultId, prefsRevision, credentials.entries, lifecycle, refreshing, tokens, bound, highest,
            abandoned)
    }

    ghost predicate Valid()
      reads this, credentials
    {
      credentials.Valid() && Inv(Value()) && maxAuthenticated <= highest
    }

    constructor (credentials: FileCredentialStore, maxAuthenticated: nat)
      requires credentials.Valid() && credentials.entries == map[]
      ensures Valid() && this.credentials == credentials && this.maxAuthenticated == maxAuthenticated
      ensures rows == map[] && lifecycle.Idle? && refreshing == map[] && abandoned == {}
    {
      this.credentials, this.maxAuthenticated, highest := credentials, maxAuthenticated, maxAuthenticated;
      rows, defaultId, prefsRevision := map[], None, 0;
      lifecycle, refreshing, tokens, bound, abandoned := Idle, map[], map[], {}, {};
    }

    method BeginUpsert(id: Id, token: string) returns (r: Admission)
      requires Valid() && lifecycle.Idle? && id !in refreshing
      modifies `lifecycle
      ensures Valid()
      ensures r.RemovalInProgress? <==> id in rows && rows[id].state.Removing?
      ensures r.CapacityReached? <==>
              !r.RemovalInProgress? && !IsActive(rows, id) && |ActiveIds(rows)| >= maxAuthenticated
      ensures r.Admitted? ==> !(id in rows && rows[id].state.Removing?)
      ensures lifecycle == if r.Admitted? then Putting(id, Generation(rows, id) + 1, token) else Idle
    {
      if id in rows && rows[id].state.Removing? { return RemovalInProgress; }
      if !IsActive(rows, id) && |ActiveIds(rows)| >= maxAuthenticated { return CapacityReached; }
      ghost var w := Value();
      lifecycle := Putting(id, Generation(rows, id) + 1, token);
      assert Inv(Value()) by {
        assert forall i | i in w.rows :: Authenticated(w, i);
        assert forall i | i in w.refreshing :: RefreshOk(w, i);
        forall i ensures Accounted(Value(), i) { assert Accounted(w, i); }
      }
      r := Admitted;
    }

    /** Stores the next generation.  Whether it fails before or after taking effect, no row
        refers to it yet. */
    method PutUpsert() returns (r: Crash)
      requires Valid() && lifecycle.Putting?
      modifies `lifecycle, `abandoned, credentials
      ensures Valid()
      ensures old(credentials.crashAt).None? ==> r.Finished? && credentials.crashAt.None?
      ensures var l, was := old(lifecycle), old(credentials.entries);
              var more := was[(l.id, l.generation) := Secret(l.generation, l.token, None, None)];
              if r.Finished? then
                lifecycle == Committing(l.id, l.generation, l.token) && credentials.entries == more
                && abandoned == old(abandoned)
              else
                lifecycle.Idle?
                && ((credentials.entries == was && abandoned == old(abandoned))
                    || (credentials.entries == more && abandoned == old(abandoned) + {l.id}))
      ensures var l := old(lifecycle);
              var secret := Secret(l.generation, l.token, None, None);
              if r.Finished? then
                Value() == Prepared(old(Value()), secret)
              else
                Value() == Released(old(Value()), Idle)
                || Value() == Released(Prepared(old(Value()), secret), Idle)
    {
      ghost var w := Value();
      var secret := Secret(lifecycle.generation, lifecycle.token, None, None);
      PutKeeps(w, secret);
      ReleaseKeeps(w);
      ReleaseKeeps(Prepared(w, secret));
      hide Inv;
      r := credentials.PutGeneration(lifecycle.id, lifecycle.generation, secret);
      if r.Finished? {
        lifecycle := Committing(lifecycle.id, lifecycle.generation, lifecycle.token);
      } else {
        if credentials.entries == Stored(w, lifecycle.id, lifecycle.generation, secret).creds {
          abandoned := abandoned + {lifecycle.id};
        }
        lifecycle := Idle;
      }
    }

    /** An abort seen after the put: pruning with the aborted signal throws before it does
        anything, so what was put stays until a later sweep. */
    method AbortUpsert()
      requires Valid() && lifecycle.Committing?
      modifies `lifecycle, `abandoned
      ensures Valid() && Value() == Released(old(Value()), Idle)
      ensures lifecycle.Idle? && abandoned == old(abandoned) + {old(lifecycle).id}
    {
      ReleaseKeeps(Value());
      hide Inv;
      abandoned := abandoned + {lifecycle.id};
      lifecycle := Idle;
    }

    /** The row of the account is active with the given generation, at its next revision, and no
        other row has changed. */
    ghost predicate Rewrote(id: Id, generation: nat, was: map<Id, Row>)
      reads `rows
    {
      rows == was[id := Row(if id in was then was[id].revision + 1 else 1, generation, Active)]
    }

    /** A default that was set is unchanged, and one that was missing is the account now. */
    ghost predicate Defaulted(id: Id, was: Option<Id>, revision: nat)
      reads `defaultId, `prefsRevision
    {
      if was.Some? then defaultId == was && prefsRevision == revision
      else defaultId == Some(id) && prefsRevision == revision + 1
    }

    /** The database transaction. */
    method CommitUpsert()
      requires Valid() && lifecycle.Committing?
      modifies `lifecycle, `rows, `defaultId, `prefsRevision, `tokens, `abandoned
      ensures Valid() && Advances(old(Value()), Value())
      ensures Value() == Committed(old(Value()))
      ensures var id, was := old(lifecycle).id, old(rows);
              rows == if id in was then was[id := Row(was[id].revision + 1, was[id].generation + 1, Active)]
                      else was[id := Row(1, 1, Active)]
      ensures old(defaultId).Some? ==> defaultId == old(defaultId) && prefsRevision == old(prefsRevision)
      ensures old(defaultId).None? ==>
                defaultId == Some(old(lifecycle).id) && prefsRevision == old(prefsRevision) + 1
      ensures lifecycle.Pruning? && abandoned == old(abandoned) - {old(lifecycle).id}
      ensures tokens == old(tokens)[old(lifecycle).id := old(lifecycle).token]
    {
      hide Inv, Advances, Holds;
      ghost var w := Value();
      CommitKeeps(w);
      RowsAdvance(w);
      LifecycleFacts(w);
      var id := lifecycle.id;
      if id !in rows {
        rows := rows[id := Row(1, lifecycle.generation, Active)];
      } else {
        rows := rows[id := Row(rows[id].revision + 1, lifecycle.generation, Active)];
      }
      tokens := tokens[id := lifecycle.token];
      if defaultId.None? {
        defaultId, prefsRevision := Some(id), prefsRevision + 1;
      }
      abandoned := abandoned - {id};
      lifecycle := Pruning;
    }

    /** A failed transaction changes no row and is followed by a sweep. */
    method FailUpsert()
      requires Valid() && lifecycle.Committing?
      modifies `lifecycle, `abandoned
      ensures Valid() && Value() == Released(old(Value()), Pruning)
      ensures lifecycle.Pruning? && abandoned == old(abandoned) + {old(lifecycle).id}
    {
      ReleaseKeeps(Value());
      hide Inv;
      abandoned := abandoned + {lifecycle.id};
      lifecycle := Pruning;
    }

    method BeginCleanup()
      requires Valid() && lifecycle.Idle?
      modifies `lifecycle
      ensures Valid() && lifecycle.Pruning?
    {
      ReleaseKeeps(Value());
      hide Inv;
      lifecycle := Pruning;
    }

    /** Sweeps the document; an aborted sweep does nothing, and a failing one may have. */
    method Prune(aborted: bool) returns (r: Crash)
      requires Valid() && lifecycle.Pruning?
      modifies `lifecycle, `abandoned, credentials
      ensures Valid() && lifecycle.Idle?
      ensures Value() == Released(old(Value()), Idle) || (!aborted && Value() == Released(Swept(old(Value())), Idle))
      ensures r.Finished? ==> Value() == Released(Swept(old(Value())), Idle)
      ensures r.Finished? ==> abandoned == {} && Unaltered(credentials.entries, old(credentials.entries))
      ensures r.Finished? ==>
                credentials.entries.Keys == set id | id in ActiveIds(rows) :: (id, rows[id].generation)
      ensures r.Finished? ==>
                forall id | id in ActiveIds(rows) ::
                  id in tokens && Holds(credentials.entries, id, rows[id].generation, tokens[id])
      ensures aborted ==> r.Died?
      ensures old(credentials.crashAt).None? ==> credentials.crashAt.None? && (r.Finished? <==> !aborted)
    {
      ghost var w := Value();
      SweepKeeps(w);
      SweptExactly(w);
      ReleaseKeeps(w);
      ReleaseKeeps(Swept(w));
      SweptUnaltered(w);
      hide Inv, Holds, Pruned, ActiveReferences, Unaltered;
      if aborted {
        r := Died;
      } else {
        r := credentials.Prune(ActiveReferences(rows));
        if r.Finished? || credentials.entries == Swept(w).creds { abandoned := {}; }
      }
      lifecycle := Idle;
    }

    /** Withdraws the account before its credentials are touched. */
    method BeginRemove(id: Id, expectedRevision: nat) returns (r: Removal)
      requires Valid() && lifecycle.Idle? && id !in refreshing
      modifies `lifecycle, `rows, `defaultId, `prefsRevision
      ensures Valid() && Advances(old(Value()), Value())
      ensures r.NotFound? <==> id !in old(rows)
      ensures r.RevisionConflict? <==> id in old(rows) && old(rows)[id].revision != expectedRevision
      ensures r.AlreadyRemoved? <==> id in old(rows) && old(rows)[id].revision == expectedRevision
                                     && old(rows)[id].state.Removed?
      ensures Value() == if r.Started? then Withdrawn(old(Value()), id) else old(Value())
      ensures r.Started? && IsActive(old(rows), id) ==>
                rows == old(rows)[id := Row(old(rows)[id].revision + 1, old(rows)[id].generation, Removing)]
                && defaultId == (if old(defaultId) == Some(id) then None else old(defaultId))
                && prefsRevision == old(prefsRevision) + 1
      ensures !(r.Started? && IsActive(old(rows), id)) ==>
                rows == old(rows) && defaultId == old(defaultId) && prefsRevision == old(prefsRevision)
      ensures lifecycle == if r.Started? then Deleting(id) else Idle
    {
      hide Inv, Advances;
      ghost var w := Value();
      RowsAdvance(w);
      Unchanged(w);
      if id !in rows { return NotFound; }
      if rows[id].revision != expectedRevision { return RevisionConflict; }
      if rows[id].state.Removed? { return AlreadyRemoved; }
      WithdrawKeeps(w, id);
      LifecycleFacts(w);
      if rows[id].state.Active? {
        rows := rows[id := Row(rows[id].revision + 1, rows[id].generation, Removing)];
        defaultId := if defaultId == Some(id) then None else defaultId;
        prefsRevision := prefsRevision + 1;
      }
      lifecycle := Deleting(id);
      r := Started;
    }

    method DeleteCredentials() returns (r: Crash)
      requires Valid() && lifecycle.Deleting?
      modifies `lifecycle, `abandoned, credentials
      ensures Valid()
      ensures var v := Erased(old(Value()), old(lifecycle).id);
              if r.Finished? then Value() == v.(lifecycle := Finishing(old(lifecycle).id))
              else Value() == Released(old(Value()), Idle) || Value() == Released(v, Idle)
      ensures r.Finished? ==> NothingStored(credentials.entries, old(lifecycle).id)
      ensures old(credentials.crashAt).None? ==> r.Finished? && credentials.crashAt.None?
      ensures OthersStay(old(lifecycle).id, old(credentials.entries), credentials.entries)
      ensures lifecycle == if r.Finished? then Finishing(old(lifecycle).id) else Idle
    {
      ghost var w := Value();
      EraseKeeps(w);
      ReleaseKeeps(w);
      ReleaseKeeps(Erased(w, lifecycle.id));
      assert NothingStored(Without(w.creds, lifecycle.id), lifecycle.id);
      assert OthersStay(lifecycle.id, w.creds, w.creds);
      assert OthersStay(lifecycle.id, w.creds, Without(w.creds, lifecycle.id));
      hide Inv, Without, OthersStay, NothingStored;
      r := credentials.RemoveAccount(lifecycle.id);
      if r.Finished? || credentials.entries == Erased(w, lifecycle.id).creds {
        abandoned := abandoned - {lifecycle.id};
      }
      lifecycle := if r.Finished? then Finishing(lifecycle.id) else Idle;
    }

    /** The row is marked removed only when nothing of the account is stored any more. */
    method FinishRemove(aborted: bool)
      requires Valid() && lifecycle.Finishing?
      modifies `lifecycle, `rows
      ensures Valid() && Advances(old(Value()), Value())
      ensures Value() == if aborted then old(Value()).(lifecycle := Idle) else Retired(old(Value()))
      ensures lifecycle.Idle? && (aborted ==> rows == old(rows))
      ensures var id := old(lifecycle).id;
              !aborted ==>
                id in old(rows) && NothingStored(credentials.entries, id)
                && rows == old(rows)[id := Row(old(rows)[id].revision + 1, old(rows)[id].generation, Removed)]
    {
      hide Inv, Advances;
      ghost var w := Value();
      LifecycleFacts(w);
      RetireKeeps(w);
      ReleaseKeeps(w);
      RowsAdvance(w);
      Unchanged(w);
      if !aborted {
        var id := lifecycle.id;
        rows := rows[id := Row(rows[id].revision + 1, rows[id].generation, Removed)];
      }
      lifecycle := Idle;
    }

    method Use(id: Id, expectedRevision: nat) returns (r: Option<nat>)
      requires Valid()
      modifies `defaultId, `prefsRevision
      ensures Valid() && Advances(old(Value()), Value())
      ensures r.Some? <==> old(prefsRevision) == expectedRevision && IsActive(rows, id)
      ensures Value() == if r.Some?
                         then old(Value()).(defaultId := Some(id), prefsRevision := r.value)
                         else old(Value())
      ensures r.Some? ==> r.value == expectedRevision + 1
    {
      if prefsRevision != expectedRevision || !IsActive(rows, id) { return None; }
      ghost var w := Value();
      defaultId, prefsRevision := Some(id), prefsRevision + 1;
      assert Inv(Value()) by {
        assert forall i | i in w.rows :: Authenticated(w, i);
        assert forall i | i in w.refreshing :: RefreshOk(w, i);
        forall i ensures Accounted(Value(), i) { assert Accounted(w, i); }
      }
      r := Some(prefsRevision);
    }

    method Bind(id: Id) returns (r: Option<nat>)
      requires Valid()
      modifies `bound
      ensures Valid() && Advances(old(Value()), Value())
      ensures r.Some? <==> IsActive(rows, id)
      ensures r.Some? ==> r.value == rows[id].generation && bound == old(bound) + {(id, r.value)}
      ensures r.None? ==> bound == old(bound)
    {
      if !IsActive(rows, id) { return None; }
      ghost var w := Value();
      bound := bound + {(id, rows[id].generation)};
      assert Inv(Value()) by {
        assert forall i | i in w.rows :: Authenticated(w, i);
        assert forall i | i in w.refreshing :: RefreshOk(w, i);
        forall i ensures Accounted(Value(), i) { assert Accounted(w, i); }
      }
      r := Some(rows[id].generation);
    }

    /** The part of `getValidToken` before the exchange.  A request bound to an account that is
        still active with the same generation never misses its credential. */
    method BeginRefresh(id: Id, generation: nat, ghes: bool, nowMs: int) returns (r: Token)
      requires Valid() && (id, generation) in bound
      requires id !in refreshing && !HoldsLane(lifecycle, id)
      modifies `refreshing
      ensures Valid()
      ensures r.Missing? <==> (id, generation) !in credentials.entries
      ensures r.Missing? ==> !(IsActive(rows, id) && rows[id].generation == generation)
      ensures r.Stale? <==>
              !r.Missing? && !ghes
              && var stored := credentials.entries[(id, generation)];
                 stored.copilotToken.None? || stored.copilotExpiresAtMs.None?
                 || stored.copilotExpiresAtMs.value - nowMs < REFRESH_SKEW_MS
      ensures !r.Stale? ==> refreshing == old(refreshing)
      ensures r.Stale? ==> refreshing == old(refreshing)[id := Refresh(generation, credentials.entries[(id, generation)])]
      ensures r.Usable? ==> r.token == (if ghes then Some(credentials.entries[(id, generation)].githubToken)
                                        else credentials.entries[(id, generation)].copilotToken)
    {
      ghost var w := Value();
      assert Read(credentials.live, id, generation) == Lookup(credentials.entries, id, generation);
      assert IsActive(rows, id) ==> Authenticated(w, id);
      var read := Read(credentials.live, id, generation);
      if read.None? { return Missing; }
      if ghes { return Usable(Some(read.value.githubToken)); }
      if !NeedsRefresh(read.value, nowMs, false) { return Usable(read.value.copilotToken); }
      assert Tracked(w.rows, (id, generation));
      refreshing := refreshing[id := Refresh(generation, read.value)];
      assert Inv(Value()) by {
        assert forall i | i in w.rows :: Authenticated(w, i);
        assert forall i | i in w.refreshing :: RefreshOk(w, i);
        forall i ensures Accounted(Value(), i) { assert Accounted(w, i); }
      }
      r := Stale;
    }

    method FinishRefresh(id: Id, copilotToken: string, expiresAtMs: int) returns (r: Crash)
      requires Valid() && id in refreshing
      modifies `refreshing, credentials
      ensures Valid() && refreshing == old(refreshing) - {id}
      ensures r.Finished? ==>
                var was := old(refreshing)[id];
                credentials.entries == old(credentials.entries)[
                  (id, was.generation) := was.again.(copilotToken := Some(copilotToken),
                                                     copilotExpiresAtMs := Some(expiresAtMs))]
    {
      ghost var w := Value();
      var was := refreshing[id];
      var secret := was.again.(copilotToken := Some(copilotToken), copilotExpiresAtMs := Some(expiresAtMs));
      assert RefreshOk(w, id);
      RefreshPutKeeps(w, id, secret);
      DropKeeps(w, id);
      hide Inv;
      r := credentials.PutGeneration(id, was.generation, secret);
      refreshing := refreshing - {id};
    }

    /** The exchange failed, or was aborted. */
    method FailRefresh(id: Id)
      requires Valid() && id in refreshing
      modifies `refreshing
      ensures Valid() && refreshing == old(refreshing) - {id}
    {
      DropKeeps(Value(), id);
      hide Inv;
      refreshing := refreshing - {id};
    }

    method SetMaxAuthenticated(max: nat)
      requires Valid()
      modifies `maxAuthenticated, `highest
      ensures Valid() && Advances(old(Value()), Value())
      ensures maxAuthenticated == max && highest == if max > old(highest) then max else old(highest)
    {
      ghost var w := Value();
      maxAuthenticated := max;
      highest := if max > highest then max else highest;
      assert Inv(Value()) by {
        assert forall i | i in w.rows :: Authenticated(w, i);
        assert forall i | i in w.refreshing :: RefreshOk(w, i);
        forall i ensures Accounted(Value(), i) { assert Accounted(w, i); }
      }
    }

    /** The process died and another one opened the same database and document. */
    method Restart()
      requires Valid()
      modifies `lifecycle, `refreshing, `abandoned
      ensures Valid() && Value() == Released(old(Value()), Idle).(refreshing := map[])
      ensures lifecycle.Idle? && refreshing == map[]
    {
      ReleaseKeeps(Value());
      hide Inv;
      if lifecycle.Committing? { abandoned := abandoned + {lifecycle.id}; }
      lifecycle, refreshing := Idle, map[];
    }

    method CommitAndSweep(aborted: bool) returns (r: Upserted)
      requires Valid() && lifecycle.Committing?
      modifies `lifecycle, `rows, `defaultId, `prefsRevision, `tokens, `bound, `abandoned, credentials
      ensures Valid() && Advances(old(Value()), Value()) && lifecycle.Idle?
      ensures Rewrote(old(lifecycle).id, old(lifecycle).generation, old(rows)) && old(lifecycle).id !in abandoned
      ensures Defaulted(old(lifecycle).id, old(defaultId), old(prefsRevision))
      ensures Holds(credentials.entries, old(lifecycle).id, rows[old(lifecycle).id].generation, old(lifecycle).token)
      ensures r.CleanupFailed? || r == Bound(rows[old(lifecycle).id].generation)
      ensures r.Bound? ==>
                !aborted && abandoned == {} && bound == old(bound) + {(old(lifecycle).id, r.generation)}
                && credentials.entries.Keys == set i | i in ActiveIds(rows) :: (i, rows[i].generation)
      ensures old(credentials.crashAt).None? ==> (r.CleanupFailed? ==> aborted) && credentials.crashAt.None?
    {
      hide Inv, Advances, Holds;
      var id := lifecycle.id;
      CommitUpsert();
      ghost var d := Value();
      Unchanged(d);
      var swept := Prune(aborted);
      AuthenticatedIs(Value(), id);
      AdvancesTransitive(old(Value()), d, Value());
      if swept.Died? { return CleanupFailed; }
      var generation := Bind(id);
      AdvancesTransitive(old(Value()), d, Value());
      r := Bound(generation.value);
    }

    /** The rest of an admitted upsert. */
    method PutAndCommit(abort: Abort) returns (r: Upserted)
      requires Valid() && lifecycle.Putting?
      modifies `lifecycle, `rows, `defaultId, `prefsRevision, `tokens, `bound, `abandoned, credentials
      ensures Valid() && Advances(old(Value()), Value()) && lifecycle.Idle?
      ensures !r.Refused?
      ensures r.Uncommitted? ==>
                rows == old(rows) && defaultId == old(defaultId) && prefsRevision == old(prefsRevision)
      ensures var l := old(lifecycle);
              !r.Uncommitted? ==>
                Rewrote(l.id, l.generation, old(rows)) && Defaulted(l.id, old(defaultId), old(prefsRevision))
                && Holds(credentials.entries, l.id, l.generation, l.token) && l.id !in abandoned
      ensures r.Bound? ==>
                r.generation == old(lifecycle).generation && bound == old(bound) + {(old(lifecycle).id, r.generation)}
                && credentials.entries.Keys == set i | i in ActiveIds(rows) :: (i, rows[i].generation)
      ensures old(credentials.crashAt).None? ==>
                credentials.crashAt.None? && (r.Uncommitted? <==> abort.BeforeCommit?) && (r.Bound? <==> abort.Never?)
      ensures var l := old(lifecycle);
              old(credentials.crashAt).None? && r.Uncommitted? ==>
                l.id in abandoned && Holds(credentials.entries, l.id, l.generation, l.token)
    {
      hide Inv, Advances, Holds, Put;
      ghost var w := Value();
      Unchanged(w);
      var put := PutUpsert();
      if put.Died? { return Uncommitted; }
      ghost var c := Value();
      LifecycleFacts(c);
      if abort.BeforeCommit? {
        AbortUpsert();
        return Uncommitted;
      }
      r := CommitAndSweep(abort.AfterCommit?);
      AdvancesTransitive(w, c, Value());
    }

    /** `upsertAuthenticated` from end to end, with nothing else in between.  Of an account that
        is not committed in the end, something is stored if and only if it is abandoned, which
        the abort between put and commit makes it. */
    method UpsertAuthenticated(id: Id, token: string, abort: Abort) returns (r: Upserted)
      requires Valid() && lifecycle.Idle? && id !in refreshing
      modifies `lifecycle, `rows, `defaultId, `prefsRevision, `tokens, `bound, `abandoned, credentials
      ensures Valid() && Advances(old(Value()), Value()) && lifecycle.Idle?
      ensures r == Refused(RemovalInProgress) <==> id in old(rows) && old(rows)[id].state.Removing?
      ensures r == Refused(CapacityReached) <==>
              !(id in old(rows) && old(rows)[id].state.Removing?)
              && !IsActive(old(rows), id) && |ActiveIds(old(rows))| >= maxAuthenticated
      ensures r.Refused? ==>
                !r.why.Admitted? && credentials.entries == old(credentials.entries) && abandoned == old(abandoned)
      ensures r.Refused? || r.Uncommitted? ==>
                rows == old(rows) && defaultId == old(defaultId) && prefsRevision == old(prefsRevision)
      ensures r.Bound? || r.CleanupFailed? ==>
                var was := old(rows);
                rows == (if id in was then was[id := Row(was[id].revision + 1, was[id].generation + 1, Active)]
                         else was[id := Row(1, 1, Active)])
                && (if old(defaultId).Some?
                    then defaultId == old(defaultId) && prefsRevision == old(prefsRevision)
                    else defaultId == Some(id) && prefsRevision == old(prefsRevision) + 1)
                && Holds(credentials.entries, id, rows[id].generation, token) && id !in abandoned
      ensures r.Bound? ==>
                r.generation == rows[id].generation && bound == old(bound) + {(id, r.generation)}
                && credentials.entries.Keys == set i | i in ActiveIds(rows) :: (i, rows[i].generation)
      ensures (id in rows ==> rows[id].state.Removed?) ==>
                (NothingStored(credentials.entries, id) <==> id !in abandoned)
      ensures old(credentials.crashAt).None? && !r.Refused? ==>
                (r.Uncommitted? <==> abort.BeforeCommit?) && (r.Bound? <==> abort.Never?)
      ensures old(credentials.crashAt).None? ==>
                credentials.crashAt.None?
                && (r.Uncommitted? ==> id in abandoned && Holds(credentials.entries, id, Generation(rows, id) + 1, token))
    {
      hide Inv, Advances, Holds, NothingStored;
      ghost var w := Value();
      Unchanged(w);
      var admission := BeginUpsert(id, token);
      if admission.Admitted? {
        ghost var c := Value();
        r := PutAndCommit(abort);
        AdvancesTransitive(w, c, Value());
      } else {
        r := Refused(admission);
      }
      if id in rows ==> rows[id].state.Removed? { RemovedLeavesNothing(Value(), id); }
    }

    lemma LifecycleFacts(w: World)
      requires Inv(w)
      ensures w.lifecycle.Putting? || w.lifecycle.Committing? ==>
                w.lifecycle.generation == Generation(w.rows, w.lifecycle.id) + 1
      ensures w.lifecycle.Committing? ==>
                Holds(w.creds, w.lifecycle.id, w.lifecycle.generation, w.lifecycle.token)
      ensures w.lifecycle.Finishing? ==> w.lifecycle.id in w.rows && NothingStored(w.creds, w.lifecycle.id)
      ensures w.defaultId.Some? ==> IsActive(w.rows, w.defaultId.value)
    {
    }

    /** Whatever happened to the store, the lanes and the bound set, no row or default moved. */
    lemma Unchanged(w: World)
      ensures forall v: World | v.rows == w.rows && v.tokens == w.tokens && v.defaultId == w.defaultId
                                && v.prefsRevision == w.prefsRevision && v.highest == w.highest ::
                Advances(w, v)
    {
    }

    lemma AuthenticatedIs(w: World, id: Id)
      requires Inv(w) && IsActive(w.rows, id)
      ensures id in w.tokens && Holds(w.creds, id, w.rows[id].generation, w.tokens[id])
    {
      assert Authenticated(w, id);
    }

    /** `removeUnlocked` from end to end, also for a removal that is under way. */
    method RemoveUnlocked(id: Id, expectedRevision: nat) returns (r: Crash)
      requires Valid() && lifecycle.Idle? && id !in refreshing && id in rows
      requires !rows[id].state.Removed? && rows[id].revision == expectedRevision
      modifies `lifecycle, `rows, `defaultId, `prefsRevision, `abandoned, credentials
      ensures Valid() && Advances(old(Value()), Value()) && lifecycle.Idle?
      ensures var was, active := old(rows)[id], old(rows)[id].state.Active?;
              var revision := if active then was.revision + 1 else was.revision;
              rows == old(rows)[id := if r.Finished? then Row(revision + 1, was.generation, Removed)
                                      else Row(revision, was.generation, Removing)]
              && defaultId == (if active && old(defaultId) == Some(id) then None else old(defaultId))
              && prefsRevision == old(prefsRevision) + if active then 1 else 0
      ensures OthersStay(id, old(credentials.entries), credentials.entries)
      ensures r.Finished? ==> NothingStored(credentials.entries, id) && id !in abandoned
      ensures old(credentials.crashAt).None? ==> r.Finished? && credentials.crashAt.None?
    {
      hide Inv, Advances, Without, NothingStored, OthersStay;
      ghost var w := Value();
      var started := BeginRemove(id, expectedRevision);
      ghost var u := Value();
      Unchanged(u);
      r := DeleteCredentials();
      AdvancesTransitive(w, u, Value());
      if r.Died? { return; }
      ghost var v := Value();
      FinishRemove(false);
      AdvancesTransitive(w, v, Value());
    }

    /** Takes a removal up again where it stopped. */
    method FinishRemoval(id: Id, expectedRevision: nat) returns (r: Crash)
      requires Valid() && lifecycle.Idle? && id !in refreshing && id in rows
      requires rows[id].state.Removing? && rows[id].revision == expectedRevision
      modifies `lifecycle, `rows, `defaultId, `prefsRevision, `abandoned, credentials
      ensures Valid() && Advances(old(Value()), Value()) && lifecycle.Idle?
      ensures rows == if r.Finished? then old(rows)[id := rows[id]] else old(rows)
      ensures id in rows && Retirement(old(rows)[id], rows[id]) && (r.Finished? ==> rows[id].state.Removed?)
      ensures defaultId == old(defaultId) && prefsRevision == old(prefsRevision)
      ensures old(credentials.crashAt).None? ==> r.Finished? && credentials.crashAt.None?
    {
      hide Inv, Advances, OthersStay, NothingStored;
      r := RemoveUnlocked(id, expectedRevision);
      assert rows[id := rows[id]] == rows;
    }

    method FinishRemovals() returns (r: Crash)
      requires Valid() && lifecycle.Idle? && refreshing == map[]
      modifies `lifecycle, `rows, `defaultId, `prefsRevision, `abandoned, credentials
      ensures Valid() && Advances(old(Value()), Value()) && lifecycle.Idle?
      ensures rows.Keys == old(rows).Keys && defaultId == old(defaultId) && prefsRevision == old(prefsRevision)
      ensures forall id | id in rows && !old(rows)[id].state.Removing? :: rows[id] == old(rows)[id]
      ensures r.Finished? ==> forall id | id in rows :: !rows[id].state.Removing?
      ensures forall id | id in rows && old(rows)[id].state.Removing? :: Retirement(old(rows)[id], rows[id])
      ensures old(credentials.crashAt).None? ==> r.Finished? && credentials.crashAt.None?
    {
      hide Inv, Advances;
      ghost var was := Value();
      Unchanged(was);
      var removing := map id | id in rows && rows[id].state.Removing? :: rows[id].revision;
      r := Finished;
      while removing != map[]
        invariant Valid() && Advances(was, Value()) && lifecycle.Idle? && r.Finished?
        invariant rows.Keys == was.rows.Keys && defaultId == was.defaultId && prefsRevision == was.prefsRevision
        invariant forall id | id in rows && !was.rows[id].state.Removing? :: rows[id] == was.rows[id]
        invariant forall id | id in rows && was.rows[id].state.Removing? :: Retirement(was.rows[id], rows[id])
        invariant forall id | id in removing ::
                    id in rows && rows[id] == was.rows[id] && rows[id].revision == removing[id]
        invariant forall id | id in rows :: rows[id].state.Removing? <==> id in removing
        invariant old(credentials.crashAt).None? ==> credentials.crashAt.None?
        decreases removing.Keys
      {
        var id :| id in removing;
        ghost var w := Value();
        r := FinishRemoval(id, removing[id]);
        AdvancesTransitive(was, w, Value());
        if r.Died? { return; }
        removing := removing - {id};
      }
    }

    /** Startup finishes every removal that was under way and sweeps: nothing is left half
        removed, and the document holds the active accounts' credentials and nothing else. */
    method Reconcile() returns (r: Crash)
      requires Valid() && lifecycle.Idle? && refreshing == map[]
      modifies `lifecycle, `rows, `defaultId, `prefsRevision, `abandoned, credentials
      ensures Valid() && Advances(old(Value()), Value()) && lifecycle.Idle?
      ensures rows.Keys == old(rows).Keys && defaultId == old(defaultId) && prefsRevision == old(prefsRevision)
      ensures forall id | id in rows && !old(rows)[id].state.Removing? :: rows[id] == old(rows)[id]
      ensures forall id | id in rows && old(rows)[id].state.Removing? :: Retirement(old(rows)[id], rows[id])
      ensures r.Finished? ==> abandoned == {} && forall id | id in rows :: !rows[id].state.Removing?
      ensures r.Finished? ==>
                credentials.entries.Keys == set id | id in ActiveIds(rows) :: (id, rows[id].generation)
      ensures old(credentials.crashAt).None? ==> r.Finished?
    {
      hide Inv, Advances;
      ghost var was := Value();
      r := FinishRemovals();
      if r.Died? { return; }
      ghost var w := Value();
      Unchanged(w);
      BeginCleanup();
      r := Prune(false);
      AdvancesTransitive(was, w, Value());
    }

    /** Any schedule of segments, faults, aborts and restarts. */
    method Run(schedule: seq<Event>)
      requires Valid()
      modifies this, credentials
      ensures Valid() && Advances(old(Value()), Value())
      ensures forall id | id !in rows || rows[id].state.Removed? ::
                NothingStored(credentials.entries, id) <==> id !in abandoned && !InFlight(lifecycle, id)
    {
      hide Inv, Advances, NothingStored, InFlight;
      ghost var was := Value();
      Unchanged(was);
      for i := 0 to |schedule|
        invariant Valid() && Advances(was, Value())
      {
        ghost var w := Value();
        Step(schedule[i]);
        AdvancesTransitive(was, w, Value());
      }
      forall id | id !in rows || rows[id].state.Removed?
        ensures NothingStored(credentials.entries, id) <==> id !in abandoned && !InFlight(lifecycle, id)
      {
        RemovedLeavesNothing(Value(), id);
      }
    }

    /** One event, if the lanes it needs are free and its work has come that far. */
    method Step(event: Event)
      requires Valid()
      modifies this, credentials
      ensures Valid() && Advances(old(Value()), Value())
    {
      hide Inv, Advances, Holds, Without, Retired, Withdrawn, Committed;
      Unchanged(Value());
      match event
      case Upsert(id, token) =>
        if lifecycle.Idle? && id !in refreshing { var _ := BeginUpsert(id, token); }
      case Remove(id, revision) =>
        if lifecycle.Idle? && id !in refreshing { var _ := BeginRemove(id, revision); }
      case Cleanup =>
        if lifecycle.Idle? { BeginCleanup(); }
      case Continue(aborted) => Progress(aborted);
      case CommitFails =>
        if lifecycle.Committing? { FailUpsert(); }
      case UseDefault(id, revision) => var _ := Use(id, revision);
      case BindAccount(id) => var _ := Bind(id);
      case RefreshToken(id, generation, nowMs) =>
        if id !in refreshing && !HoldsLane(lifecycle, id) && (id, generation) in bound {
          var _ := BeginRefresh(id, generation, false, nowMs);
        }
      case Refreshed(id, token, expiresAtMs) =>
        if id in refreshing { var _ := FinishRefresh(id, token, expiresAtMs); }
      case RefreshFailed(id) =>
        if id in refreshing { FailRefresh(id); }
      case Capacity(max) => SetMaxAuthenticated(max);
      case Fault(after) => credentials.Arm(after);
      case Crash => Restart();
    }

    method Progress(aborted: bool)
      requires Valid()
      modifies this, credentials
      ensures Valid() && Advances(old(Value()), Value())
    {
      hide Inv, Advances, Holds, Without, Retired, Withdrawn, Committed;
      Unchanged(Value());
      match lifecycle
      case Idle =>
      case Putting(_, _, _) => var _ := PutUpsert();
      case Committing(_, _, _) => if aborted { AbortUpsert(); } else { CommitUpsert(); }
      case Pruning => var _ := Prune(aborted);
      case Deleting(_) => var _ := DeleteCredentials();
      case Finishing(_) => FinishRemove(aborted);
    }

    lemma DropKeeps(w: World, id: Id)
      requires Inv(w)
      ensures Inv(w.(refreshing := w.refreshing - {id}))
    {
      var v := w.(refreshing := w.refreshing - {id});
      forall i | i in v.rows ensures Authenticated(v, i) {
        assert Authenticated(w, i);
      }
      forall i | i in v.refreshing ensures RefreshOk(v, i) {
        assert RefreshOk(w, i);
      }
      forall i ensures Accounted(v, i) {
        assert Accounted(w, i);
      }
    }
  }

  /** Whatever is stored was stored before, unaltered. */
  ghost predicate Unaltered(now: Credentials, was: Credentials) {
    forall k | k in now :: k in was && now[k] == was[k]
  }

  lemma SweptUnaltered(w: World)
    ensures Unaltered(Swept(w).creds, w.creds)
  {
  }

  /** What is stored of other accounts is as it was, and nothing new is stored. */
  ghost predicate OthersStay(id: Id, was: Credentials, now: Credentials) {
    (forall k | k in was && k.0 != id :: k in now) && Unaltered(now, was)
  }

  /** A removal that was under way has been finished, or not yet. */
  predicate Retirement(was: Row, now: Row) {
    now == was || now == Row(was.revision + 1, was.generation, Removed)
  }

  /** Aborting after the put leaves a credential of an account that is not active, even of one
      that was removed: the document is not clean until the next sweep. */
  method AbortedUpsert() returns (d: AccountDirectory)
    ensures fresh(d) && d.Valid() && d.lifecycle.Idle?
    ensures "a" in d.rows && d.rows["a"].state.Removed? && "a" in d.abandoned
    ensures ("a", d.rows["a"].generation + 1) in d.credentials.entries
  {
    hide Inv, Advances, NothingStored, Without, ActiveReferences, Pruned;
    var store := new FileCredentialStore(map[], map[], None);
    d := new AccountDirectory(store, 1);
    assert ActiveIds(d.rows) == {};
    var first := d.UpsertAuthenticated("a", "t", Never);
    assert d.rows["a"] == Row(1, 1, Active);
    var removed := d.RemoveUnlocked("a", 1);
    assert ActiveIds(d.rows) == {};
    var second := d.UpsertAuthenticated("a", "t", BeforeCommit);
  }
}
