/**
 Account rows live in a database and their credentials in a separate document; no transaction
 covers both.  This module says what holds of the two together between any two steps, and what
 no sequence of steps can undo.
 */
module AccountInvariant {
  import opened Options
  import opened CredentialStore

  datatype CredentialState = Active | Removing | Removed

  datatype Row = Row(revision: nat, generation: nat, state: CredentialState)

  /** What the holder of the lifecycle lane has done so far. */
  datatype Lifecycle =
    | Idle
    | Putting(id: Id, generation: nat, token: string)
    | Committing(id: Id, generation: nat, token: string)
    | Pruning
    | Deleting(id: Id)
    | Finishing(id: Id)

  /** A token refresh that holds its account's generation lane. */
  datatype Refresh = Refresh(generation: nat, again: Secret)

  /** `tokens` is the token of each account's last committed authentication, `bound` the accounts
      and generations handed out to requests, `highest` the largest capacity ever set.
      `abandoned` has the accounts of which an upsert stored a credential and then stopped before
      its commit, until a later commit, removal or sweep of that account takes effect. */
  datatype World = World(
    rows: map<Id, Row>,
    defaultId: Option<Id>,
    prefsRevision: nat,
    creds: Credentials,
    lifecycle: Lifecycle,
    refreshing: map<Id, Refresh>,
    tokens: map<Id, string>,
    bound: set<(Id, nat)>,
    highest: nat,
    abandoned: set<Id>)

  function Generation(rows: map<Id, Row>, id: Id): nat {
    if id in rows then rows[id].generation else 0
  }

  predicate IsActive(rows: map<Id, Row>, id: Id) {
    id in rows && rows[id].state.Active?
  }

  function ActiveIds(rows: map<Id, Row>): set<Id> {
    set id | id in rows && rows[id].state.Active?
  }

  function ActiveReferences(rows: map<Id, Row>): map<Id, nat> {
    map id | id in rows && rows[id].state.Active? :: rows[id].generation
  }

  predicate Holds(creds: Credentials, id: Id, generation: nat, token: string) {
    (id, generation) in creds
    && creds[(id, generation)].generation == generation
    && creds[(id, generation)].githubToken == token
  }

  /** An active account's own generation is stored, with the token it was authenticated with. */
  predicate Authenticated(w: World, id: Id) {
    IsActive(w.rows, id) ==> id in w.tokens && Holds(w.creds, id, w.rows[id].generation, w.tokens[id])
  }

  /** Nothing is stored past the next generation, and of an account that is removed, or was
      never committed, only that next generation: an upsert that stopped before its commit. */
  predicate Tracked(rows: map<Id, Row>, k: (Id, nat)) {
    1 <= k.1 <= Generation(rows, k.0) + 1
    && (k.0 !in rows || rows[k.0].state.Removed? ==> k.1 == Generation(rows, k.0) + 1)
  }

  /** The account whose generation lane the lifecycle holder also holds. */
  predicate HoldsLane(lifecycle: Lifecycle, id: Id) {
    !lifecycle.Idle? && !lifecycle.Pruning? && lifecycle.id == id
  }

  ghost predicate LifecycleOk(w: World) {
    match w.lifecycle
    case Idle => true
    case Pruning => true
    case Putting(id, generation, token) => MayCommit(w, id, generation)
    case Committing(id, generation, token) =>
      MayCommit(w, id, generation) && Holds(w.creds, id, generation, token)
    case Deleting(id) => id in w.rows && w.rows[id].state.Removing?
    case Finishing(id) =>
      id in w.rows && w.rows[id].state.Removing? && forall k | k in w.creds :: k.0 != id
  }

  ghost predicate MayCommit(w: World, id: Id, generation: nat) {
    generation == Generation(w.rows, id) + 1
    && (id in w.rows ==> !w.rows[id].state.Removing?)
    && (!IsActive(w.rows, id) ==> |ActiveIds(w.rows)| < w.highest)
  }

  predicate RefreshOk(w: World, id: Id)
    requires id in w.refreshing
  {
    var r := w.refreshing[id];
    id in w.rows
    && !w.rows[id].state.Removed?
    && 1 <= r.generation <= w.rows[id].generation
    && r.again.generation == r.generation
    && !HoldsLane(w.lifecycle, id)
    && (w.rows[id].state.Active? && r.generation == w.rows[id].generation ==>
          id in w.tokens && r.again.githubToken == w.tokens[id])
  }

  ghost predicate AccountsOk(w: World) {
    forall id | id in w.rows :: w.rows[id].generation >= 1 && Authenticated(w, id)
  }

  ghost predicate StoreOk(w: World) {
    forall k | k in w.creds :: Tracked(w.rows, k) && w.creds[k].generation == k.1
  }

  ghost predicate PreferencesOk(w: World) {
    (w.defaultId.Some? ==> IsActive(w.rows, w.defaultId.value))
    && |ActiveIds(w.rows)| <= w.highest
    && (forall b | b in w.bound :: b.0 in w.rows && 1 <= b.1 <= w.rows[b.0].generation)
  }

  /** The account between the put and the commit of an upsert. */
  predicate InFlight(lifecycle: Lifecycle, id: Id) {
    lifecycle.Committing? && lifecycle.id == id
  }

  /** A generation past the committed one is stored exactly for the abandoned accounts and the
      one in flight. */
  predicate Accounted(w: World, id: Id) {
    (id, Generation(w.rows, id) + 1) in w.creds <==> id in w.abandoned || InFlight(w.lifecycle, id)
  }

  ghost predicate AbandonedOk(w: World) {
    forall id :: Accounted(w, id)
  }

  ghost predicate RefreshesOk(w: World) {
    forall id | id in w.refreshing :: RefreshOk(w, id)
  }

  ghost predicate Inv(w: World) {
    AccountsOk(w)
    && StoreOk(w)
    && PreferencesOk(w)
    && LifecycleOk(w)
    && RefreshesOk(w)
    && AbandonedOk(w)
  }

  /** Rows are never dropped and generations never decrease; a changed row or default shows in
      its revision; a generation that has stopped being active never is again. */
  ghost predicate RowAdvances(w: World, v: World, id: Id)
    requires id in w.rows
  {
    id in v.rows
    && v.rows[id].generation >= w.rows[id].generation
    && v.rows[id].revision >= w.rows[id].revision
    && (v.rows[id] != w.rows[id] ==> v.rows[id].revision > w.rows[id].revision)
    && (v.rows[id].generation == w.rows[id].generation && v.rows[id].state.Active? ==>
          w.rows[id].state.Active?
          && (id in w.tokens ==> id in v.tokens && v.tokens[id] == w.tokens[id]))
  }

  ghost predicate Advances(w: World, v: World) {
    (forall id | id in w.rows :: RowAdvances(w, v, id))
    && v.prefsRevision >= w.prefsRevision
    && (v.defaultId != w.defaultId ==> v.prefsRevision > w.prefsRevision)
    && v.highest >= w.highest
  }

  lemma AdvancesTransitive(u: World, v: World, w: World)
    requires Inv(u) && Advances(u, v) && Advances(v, w)
    ensures Advances(u, w)
  {
    forall id | id in u.rows ensures RowAdvances(u, w, id) {
      assert RowAdvances(u, v, id);
      assert RowAdvances(v, w, id);
    }
  }

  // Steps, each from the world as it is when the holder of the lanes runs.

  function Stored(w: World, id: Id, generation: nat, value: Secret): World {
    w.(creds := Put(w.creds, id, generation, value))
  }

  function Prepared(w: World, value: Secret): World
    requires w.lifecycle.Putting?
  {
    var l := w.lifecycle;
    Stored(w, l.id, l.generation, value).(lifecycle := Committing(l.id, l.generation, l.token))
  }

  function CommittedRow(rows: map<Id, Row>, id: Id, generation: nat): Row {
    Row(if id in rows then rows[id].revision + 1 else 1, generation, Active)
  }

  function Committed(w: World): World
    requires w.lifecycle.Committing?
  {
    var id := w.lifecycle.id;
    w.(rows := w.rows[id := CommittedRow(w.rows, id, w.lifecycle.generation)],
       tokens := w.tokens[id := w.lifecycle.token],
       defaultId := if w.defaultId.None? then Some(id) else w.defaultId,
       prefsRevision := if w.defaultId.None? then w.prefsRevision + 1 else w.prefsRevision,
       lifecycle := Pruning,
       abandoned := w.abandoned - {id})
  }

  /** The lifecycle lane is given up, or goes on to a sweep, without a commit. */
  function Released(w: World, next: Lifecycle): World {
    w.(lifecycle := next,
       abandoned := if w.lifecycle.Committing? then w.abandoned + {w.lifecycle.id} else w.abandoned)
  }

  function Withdrawn(w: World, id: Id): World
    requires id in w.rows
  {
    if w.rows[id].state.Active?
    then
      w.(rows := w.rows[id := Row(w.rows[id].revision + 1, w.rows[id].generation, Removing)],
         defaultId := if w.defaultId == Some(id) then None else w.defaultId,
         prefsRevision := w.prefsRevision + 1,
         lifecycle := Deleting(id))
    else
      w.(lifecycle := Deleting(id))
  }

  function Erased(w: World, id: Id): World {
    w.(creds := Without(w.creds, id), abandoned := w.abandoned - {id})
  }

  function Retired(w: World): World
    requires w.lifecycle.Finishing? && w.lifecycle.id in w.rows
  {
    var id := w.lifecycle.id;
    w.(rows := w.rows[id := Row(w.rows[id].revision + 1, w.rows[id].generation, Removed)], lifecycle := Idle)
  }

  function Swept(w: World): World {
    w.(creds := Pruned(w.creds, ActiveReferences(w.rows)), abandoned := {})
  }

  lemma PutKeeps(w: World, value: Secret)
    requires Inv(w) && w.lifecycle.Putting?
    requires value.generation == w.lifecycle.generation && value.githubToken == w.lifecycle.token
    ensures Inv(Prepared(w, value))
  {
    var v := Prepared(w, value);
    forall id | id in v.rows ensures Authenticated(v, id) {
      assert Authenticated(w, id);
    }
    forall id | id in v.refreshing ensures RefreshOk(v, id) {
      assert RefreshOk(w, id);
    }
    forall id ensures Accounted(v, id) {
      assert Accounted(w, id);
    }
  }

  /** Whoever gives up the lane, for whatever reason and at whatever point. */
  lemma ReleaseKeeps(w: World)
    requires Inv(w)
    ensures Inv(Released(w, Idle)) && Inv(Released(w, Pruning))
    ensures Inv(Released(w, Idle).(refreshing := map[]))
  {
    var a, b := Released(w, Idle), Released(w, Pruning);
    var c := a.(refreshing := map[]);
    forall id | id in w.rows ensures Authenticated(a, id) && Authenticated(b, id) && Authenticated(c, id) {
      assert Authenticated(w, id);
    }
    forall id | id in w.refreshing ensures RefreshOk(a, id) && RefreshOk(b, id) {
      assert RefreshOk(w, id);
    }
    forall id ensures Accounted(a, id) && Accounted(b, id) && Accounted(c, id) {
      assert Accounted(w, id);
    }
  }

  lemma CommitKeeps(w: World)
    requires Inv(w) && w.lifecycle.Committing?
    ensures Inv(Committed(w))
  {
    var v := Committed(w);
    var c := w.lifecycle.id;
    assert AccountsOk(v) by {
      forall id | id in v.rows ensures v.rows[id].generation >= 1 && Authenticated(v, id) {
        if id != c { assert Authenticated(w, id); }
      }
    }
    assert StoreOk(v) by {
      forall k | k in v.creds ensures Tracked(v.rows, k) {
        assert Tracked(w.rows, k);
      }
    }
    assert RefreshesOk(v) by {
      forall id | id in v.refreshing ensures RefreshOk(v, id) {
        assert RefreshOk(w, id);
      }
    }
    assert AbandonedOk(v) by {
      forall id ensures Accounted(v, id) {
        assert Accounted(w, id);
      }
    }
    assert ActiveIds(v.rows) == ActiveIds(w.rows) + {c};
  }

  lemma WithdrawKeeps(w: World, id: Id)
    requires Inv(w) && w.lifecycle.Idle? && id in w.rows && id !in w.refreshing && !w.rows[id].state.Removed?
    ensures Inv(Withdrawn(w, id))
  {
    var v := Withdrawn(w, id);
    assert AccountsOk(v) by {
      forall i | i in v.rows ensures v.rows[i].generation >= 1 && Authenticated(v, i) {
        assert Authenticated(w, i);
      }
    }
    assert StoreOk(v) by {
      forall k | k in v.creds ensures Tracked(v.rows, k) {
        assert Tracked(w.rows, k);
      }
    }
    assert RefreshesOk(v) by {
      forall i | i in v.refreshing ensures RefreshOk(v, i) {
        assert RefreshOk(w, i);
      }
    }
    assert AbandonedOk(v) by {
      forall i ensures Accounted(v, i) {
        assert Accounted(w, i);
      }
    }
    assert ActiveIds(v.rows) == ActiveIds(w.rows) - {id};
  }

  lemma EraseKeeps(w: World)
    requires Inv(w) && w.lifecycle.Deleting?
    ensures var v := Erased(w, w.lifecycle.id);
            Inv(v) && Inv(v.(lifecycle := Finishing(w.lifecycle.id)))
  {
    var v := Erased(w, w.lifecycle.id);
    forall id | id in v.rows ensures Authenticated(v, id) {
      assert Authenticated(w, id);
    }
    var u := v.(lifecycle := Finishing(w.lifecycle.id));
    forall i ensures Accounted(v, i) && Accounted(u, i) {
      assert Accounted(w, i);
    }
  }

  lemma RetireKeeps(w: World)
    requires Inv(w) && w.lifecycle.Finishing?
    ensures Inv(Retired(w))
  {
    var v := Retired(w);
    var c := w.lifecycle.id;
    forall id | id in v.rows ensures v.rows[id].generation >= 1 && Authenticated(v, id) {
      assert Authenticated(w, id);
    }
    forall k | k in v.creds ensures Tracked(v.rows, k) {
      assert Tracked(w.rows, k);
    }
    assert ActiveIds(v.rows) == ActiveIds(w.rows);
    forall id | id in v.refreshing ensures RefreshOk(v, id) {
      assert RefreshOk(w, id);
    }
    forall i ensures Accounted(v, i) {
      assert Accounted(w, i);
    }
  }

  /** Only the holder of the lifecycle lane prunes, and not between its put and its commit. */
  lemma SweepKeeps(w: World)
    requires Inv(w) && w.lifecycle.Pruning?
    ensures Inv(Swept(w))
  {
    var v := Swept(w);
    forall id | id in v.rows ensures Authenticated(v, id) {
      assert Authenticated(w, id);
    }
    forall i ensures Accounted(v, i) {
      assert Accounted(w, i);
    }
  }

  lemma RefreshPutKeeps(w: World, id: Id, value: Secret)
    requires Inv(w) && id in w.refreshing
    requires value.generation == w.refreshing[id].generation
    requires value.githubToken == w.refreshing[id].again.githubToken
    ensures var v := Stored(w, id, w.refreshing[id].generation, value);
            Inv(v.(refreshing := v.refreshing - {id}))
  {
    assert RefreshOk(w, id);
    var v := Stored(w, id, w.refreshing[id].generation, value);
    var u := v.(refreshing := v.refreshing - {id});
    forall i | i in u.rows ensures Authenticated(u, i) {
      assert Authenticated(w, i);
    }
    forall k | k in u.creds ensures Tracked(u.rows, k) {
    }
    forall i | i in u.refreshing ensures RefreshOk(u, i) {
      assert RefreshOk(w, i);
    }
    forall i ensures Accounted(u, i) {
      assert Accounted(w, i);
    }
  }

  lemma RowsAdvance(w: World)
    requires Inv(w)
    ensures w.lifecycle.Committing? ==> Advances(w, Committed(w))
    ensures forall id | id in w.rows && !w.rows[id].state.Removed? :: Advances(w, Withdrawn(w, id))
    ensures w.lifecycle.Finishing? ==> Advances(w, Retired(w))
  {
    hide StoreOk, RefreshesOk, AbandonedOk, PreferencesOk, AccountsOk;
    forall id | id in w.rows ensures w.lifecycle.Committing? ==> RowAdvances(w, Committed(w), id) {
    }
    forall id, i | id in w.rows && i in w.rows ensures RowAdvances(w, Withdrawn(w, id), i) {
    }
    forall id | id in w.rows ensures w.lifecycle.Finishing? ==> RowAdvances(w, Retired(w), id) {
    }
  }

  predicate NothingStored(creds: Credentials, id: Id) {
    forall k | k in creds :: k.0 != id
  }

  /** Of an account that is removed, or was never committed, nothing is stored exactly when no
      upsert of it is between its put and its commit, or stopped there since the last sweep. */
  lemma RemovedLeavesNothing(w: World, id: Id)
    requires Inv(w) && (id in w.rows ==> w.rows[id].state.Removed?)
    ensures NothingStored(w.creds, id) <==> id !in w.abandoned && !InFlight(w.lifecycle, id)
  {
    assert Accounted(w, id);
    assert forall k | k in w.creds && k.0 == id :: Tracked(w.rows, k) && k == (id, k.1);
  }

  /** After a sweep the document holds the active accounts' own generations and nothing else. */
  lemma SweptExactly(w: World)
    requires Inv(w)
    ensures Swept(w).creds.Keys == set id | id in ActiveIds(w.rows) :: (id, w.rows[id].generation)
    ensures forall id | id in ActiveIds(w.rows) ::
              id in w.tokens && Holds(Swept(w).creds, id, w.rows[id].generation, w.tokens[id])
  {
    forall id | id in ActiveIds(w.rows)
      ensures id in w.tokens && Holds(Swept(w).creds, id, w.rows[id].generation, w.tokens[id])
      ensures (id, w.rows[id].generation) in Swept(w).creds
    {
      assert Authenticated(w, id);
    }
    forall k | k in Swept(w).creds
      ensures k in set id | id in ActiveIds(w.rows) :: (id, w.rows[id].generation)
    {
      assert k.0 in ActiveIds(w.rows) && k == (k.0, w.rows[k.0].generation);
    }
  }
}
