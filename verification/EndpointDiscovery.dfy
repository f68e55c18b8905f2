/**
 Endpoint discovery.  Requests of one account and credential generation share an operation,
 whose answer is kept in the account's lane only if that lane and that operation are still the
 registered ones.  Lanes and operations are numbered by one clock, so a number is also a time.
 */
module EndpointDiscovery {
  import opened Options

  type AccountId = string

  type Key = (AccountId, nat) // an account and a credential generation

  /** `endpoint` names the operation whose answer is kept. */
  datatype Lane = Lane(key: Key, endpoint: Option<nat>, operation: Option<nat>)

  datatype Progress = Asking | Found | Failed

  datatype Operation = Operation(key: Key, lane: nat, progress: Progress, settled: bool, aborted: bool, waiters: int)

  /** A request that waits; `since` is when its account was last invalidated before it began. */
  datatype Request = Request(key: Key, lane: nat, operation: nat, since: nat)

  datatype Discovered = Cached(operation: nat) | Waits(request: nat) | Closed

  datatype Event =
    | Ask(key: Key)
    | Answer(operation: nat, ok: bool)
    | Settle(operation: nat)
    | Leave(request: nat, aborted: bool)
    | Invalidate(account: AccountId)
    | CloseAll

  function WaitingFor(requests: map<nat, Request>, operation: nat): set<nat> {
    set r | r in requests && requests[r].operation == operation
  }

  function Since(invalidatedAt: map<AccountId, nat>, a: AccountId): nat {
    if a in invalidatedAt then invalidatedAt[a] else 0
  }

  /** Neither finished nor given up, and begun after the last invalidation of its account. */
  predicate Live(operations: map<nat, Operation>, invalidatedAt: map<AccountId, nat>, o: nat)
    requires o in operations
  {
    !operations[o].settled && !operations[o].aborted && o >= Since(invalidatedAt, operations[o].key.0)
  }

  function OneMore(operation: Operation): Operation {
    operation.(waiters := operation.waiters + 1)
  }

  function Unjoined(joins: map<Key, nat>, key: Key, o: nat): map<Key, nat> {
    if key in joins && joins[key] == o then joins - {key} else joins
  }

  function Freed(lane: map<nat, Lane>, l: nat, o: nat): map<nat, Lane> {
    if l in lane && lane[l].operation == Some(o) then lane[l := lane[l].(operation := None)] else lane
  }

  function GivenUp(operations: map<nat, Operation>): map<nat, Operation> {
    map o | o in operations :: operations[o].(aborted := operations[o].aborted || !operations[o].settled)
  }

  // What holds between any two steps.

  /** What is registered was made after the last invalidation of its account. */
  ghost predicate RegisteredOk(lanes: map<AccountId, nat>, lane: map<nat, Lane>, invalidatedAt: map<AccountId, nat>) {
    forall a | a in lanes ::
      lanes[a] in lane && lane[lanes[a]].key.0 == a && lanes[a] >= Since(invalidatedAt, a)
  }

  /** Operation `o` began after the lane of this number and has its key. */
  predicate Of(operations: map<nat, Operation>, o: nat, l: nat, key: Key) {
    o in operations && l < o && operations[o].key == key
  }

  predicate LaneOk(operations: map<nat, Operation>, l: nat, lane: Lane) {
    (lane.operation.Some? ==> Of(operations, lane.operation.value, l, lane.key))
    && (lane.endpoint.Some? ==>
          Of(operations, lane.endpoint.value, l, lane.key) && operations[lane.endpoint.value].progress.Found?)
  }

  ghost predicate LanesOk(lane: map<nat, Lane>, operations: map<nat, Operation>, clock: nat) {
    (forall l | l in lane :: l < clock && LaneOk(operations, l, lane[l]))
    && forall o | o in operations :: operations[o].lane in lane && lane[operations[o].lane].key == operations[o].key
  }

  predicate Joined(joins: map<Key, nat>, operations: map<nat, Operation>, o: nat)
    requires o in operations
  {
    operations[o].key in joins && joins[operations[o].key] == o
  }

  /** Exactly the live operations may be joined, each under its own key. */
  ghost predicate JoinsOk(joins: map<Key, nat>, operations: map<nat, Operation>, invalidatedAt: map<AccountId, nat>,
                          closed: bool)
  {
    (forall k | k in joins ::
       joins[k] in operations && operations[joins[k]].key == k && Live(operations, invalidatedAt, joins[k]))
    && (!closed ==> forall o | o in operations && Live(operations, invalidatedAt, o) :: Joined(joins, operations, o))
  }

  ghost predicate ClockOk(operations: map<nat, Operation>, invalidatedAt: map<AccountId, nat>, clock: nat) {
    (forall o | o in operations :: o < clock) && forall a | a in invalidatedAt :: invalidatedAt[a] <= clock
  }

  /** Waiters are counted, and unless all is closed nobody waits for what was given up. */
  ghost predicate CountsOk(operations: map<nat, Operation>, requests: map<nat, Request>, closed: bool) {
    forall o | o in operations ::
      operations[o].waiters == |WaitingFor(requests, o)|
      && (operations[o].aborted && !closed ==> operations[o].waiters == 0)
  }

  predicate RequestOk(operations: map<nat, Operation>, lane: map<nat, Lane>, q: Request) {
    q.operation in operations && operations[q.operation].key == q.key && q.operation >= q.since
    && q.lane in lane && lane[q.lane].key == q.key
  }

  ghost predicate RequestsOk(requests: map<nat, Request>, operations: map<nat, Operation>, lane: map<nat, Lane>,
                             issued: nat)
  {
    forall r | r in requests :: r < issued && RequestOk(operations, lane, requests[r])
  }

  // How the steps keep it.

  predicate Same(before: Operation, after: Operation) {
    after.key == before.key && after.lane == before.lane && (before.progress.Found? ==> after.progress.Found?)
  }

  ghost predicate Later(before: map<nat, Operation>, after: map<nat, Operation>) {
    forall o | o in before :: o in after && Same(before[o], after[o])
  }

  ghost predicate LaterLanes(before: map<nat, Lane>, after: map<nat, Lane>) {
    forall l | l in before :: l in after && after[l].key == before[l].key
  }

  lemma OperationsMoveOn(lane: map<nat, Lane>, before: map<nat, Operation>, after: map<nat, Operation>, clock: nat,
                         requests: map<nat, Request>, issued: nat)
    requires LanesOk(lane, before, clock) && RequestsOk(requests, before, lane, issued) && Later(before, after)
    requires before.Keys == after.Keys
    ensures LanesOk(lane, after, clock) && RequestsOk(requests, after, lane, issued)
  {
    forall l | l in lane ensures LaneOk(after, l, lane[l]) {
      assert LaneOk(before, l, lane[l]);
    }
    forall r | r in requests ensures RequestOk(after, lane, requests[r]) {
      assert RequestOk(before, lane, requests[r]);
    }
  }

  lemma OperationStarts(lane: map<nat, Lane>, before: map<nat, Operation>, clock: nat, l: nat, key: Key,
                        requests: map<nat, Request>, issued: nat)
    requires LanesOk(lane, before, clock) && RequestsOk(requests, before, lane, issued) && clock !in before
    requires l in lane && lane[l].key == key
    ensures var after := before[clock := Operation(key, l, Asking, false, false, 0)];
            var lanes := lane[l := lane[l].(operation := Some(clock))];
            LanesOk(lanes, after, clock + 1) && RequestsOk(requests, after, lanes, issued) && LaterLanes(lane, lanes)
  {
    var after := before[clock := Operation(key, l, Asking, false, false, 0)];
    var lanes := lane[l := lane[l].(operation := Some(clock))];
    forall m | m in lanes ensures m < clock + 1 && LaneOk(after, m, lanes[m]) {
      assert LaneOk(before, m, lane[m]);
    }
    forall r | r in requests ensures RequestOk(after, lanes, requests[r]) {
      assert RequestOk(before, lane, requests[r]);
    }
  }

  lemma LaneChanges(lane: map<nat, Lane>, operations: map<nat, Operation>, clock: nat, l: nat, next: Lane,
                    requests: map<nat, Request>, issued: nat)
    requires LanesOk(lane, operations, clock) && RequestsOk(requests, operations, lane, issued)
    requires if l in lane then next.key == lane[l].key else l == clock
    requires LaneOk(operations, l, next)
    ensures LanesOk(lane[l := next], operations, clock + if l in lane then 0 else 1)
    ensures RequestsOk(requests, operations, lane[l := next], issued) && LaterLanes(lane, lane[l := next])
  {
    forall r | r in requests ensures RequestOk(operations, lane[l := next], requests[r]) {
      assert RequestOk(operations, lane, requests[r]);
    }
  }

  lemma FreedIsOk(lane: map<nat, Lane>, operations: map<nat, Operation>, clock: nat, l: nat, o: nat,
                  requests: map<nat, Request>, issued: nat)
    requires LanesOk(lane, operations, clock) && RequestsOk(requests, operations, lane, issued)
    ensures LanesOk(Freed(lane, l, o), operations, clock)
    ensures RequestsOk(requests, operations, Freed(lane, l, o), issued) && LaterLanes(lane, Freed(lane, l, o))
  {
    if l in lane {
      assert LaneOk(operations, l, lane[l]);
      LaneChanges(lane, operations, clock, l, lane[l].(operation := None), requests, issued);
    }
  }

  lemma StaysRegistered(lanes: map<AccountId, nat>, before: map<nat, Lane>, after: map<nat, Lane>,
                        invalidatedAt: map<AccountId, nat>)
    requires RegisteredOk(lanes, before, invalidatedAt) && LaterLanes(before, after)
    ensures RegisteredOk(lanes, after, invalidatedAt)
  {
  }

  lemma JoinsStay(joins: map<Key, nat>, before: map<nat, Operation>, after: map<nat, Operation>,
                  invalidatedAt: map<AccountId, nat>, closed: bool)
    requires JoinsOk(joins, before, invalidatedAt, closed) && before.Keys == after.Keys
    requires forall o | o in before ::
               after[o].key == before[o].key && after[o].settled == before[o].settled
               && after[o].aborted == before[o].aborted
    ensures JoinsOk(joins, after, invalidatedAt, closed)
  {
    if !closed {
      forall o | o in after && Live(after, invalidatedAt, o) ensures Joined(joins, after, o) {
        assert Joined(joins, before, o);
      }
    }
  }

  lemma JoinStarts(joins: map<Key, nat>, before: map<nat, Operation>, invalidatedAt: map<AccountId, nat>, o: nat,
                   next: Operation)
    requires JoinsOk(joins, before, invalidatedAt, false) && o !in before && next.key !in joins
    requires !next.settled && !next.aborted && o >= Since(invalidatedAt, next.key.0)
    ensures JoinsOk(joins[next.key := o], before[o := next], invalidatedAt, false)
  {
    var after := before[o := next];
    forall p | p in after && Live(after, invalidatedAt, p) ensures Joined(joins[next.key := o], after, p) {
      if p != o { assert Joined(joins, before, p); }
    }
  }

  lemma JoinEnds(joins: map<Key, nat>, before: map<nat, Operation>, invalidatedAt: map<AccountId, nat>, closed: bool,
                 o: nat, next: Operation)
    requires JoinsOk(joins, before, invalidatedAt, closed) && o in before && next.key == before[o].key
    requires next.settled || next.aborted
    ensures JoinsOk(Unjoined(joins, next.key, o), before[o := next], invalidatedAt, closed)
  {
    var after := before[o := next];
    var less := Unjoined(joins, next.key, o);
    if !closed {
      forall p | p in after && Live(after, invalidatedAt, p) ensures Joined(less, after, p) {
        assert Joined(joins, before, p);
      }
    }
  }

  lemma JoinsInvalidated(joins: map<Key, nat>, operations: map<nat, Operation>, invalidatedAt: map<AccountId, nat>,
                         closed: bool, a: AccountId, clock: nat)
    requires JoinsOk(joins, operations, invalidatedAt, closed) && ClockOk(operations, invalidatedAt, clock)
    ensures JoinsOk(map k | k in joins && k.0 != a :: joins[k], operations, invalidatedAt[a := clock], closed)
  {
    var less := map k | k in joins && k.0 != a :: joins[k];
    var later := invalidatedAt[a := clock];
    if !closed {
      forall o | o in operations && Live(operations, later, o) ensures Joined(less, operations, o) {
        assert Joined(joins, operations, o);
      }
    }
  }

  lemma CountsStay(before: map<nat, Operation>, after: map<nat, Operation>, requests: map<nat, Request>, closed: bool)
    requires CountsOk(before, requests, closed) && before.Keys == after.Keys
    requires forall o | o in before :: after[o].waiters == before[o].waiters && after[o].aborted == before[o].aborted
    ensures CountsOk(after, requests, closed)
  {
    hide WaitingFor;
  }

  lemma NobodyWaits(operations: map<nat, Operation>, requests: map<nat, Request>, lane: map<nat, Lane>, issued: nat,
                    closed: bool, o: nat, next: Operation)
    requires RequestsOk(requests, operations, lane, issued) && CountsOk(operations, requests, closed)
    requires o !in operations && next.waiters == 0
    ensures CountsOk(operations[o := next], requests, closed)
  {
    assert forall r | r in requests :: RequestOk(operations, lane, requests[r]);
    assert WaitingFor(requests, o) == {};
  }

  lemma OneMoreWaits(operations: map<nat, Operation>, requests: map<nat, Request>, closed: bool, r: nat, q: Request)
    requires CountsOk(operations, requests, closed) && r !in requests && q.operation in operations
    requires !operations[q.operation].aborted
    ensures CountsOk(operations[q.operation := OneMore(operations[q.operation])], requests[r := q], closed)
  {
    assert WaitingFor(requests[r := q], q.operation) == WaitingFor(requests, q.operation) + {r};
    assert forall i | i != q.operation :: WaitingFor(requests[r := q], i) == WaitingFor(requests, i);
    hide WaitingFor;
  }

  lemma OneLessWaits(operations: map<nat, Operation>, requests: map<nat, Request>, closed: bool, r: nat)
    requires CountsOk(operations, requests, closed) && r in requests && requests[r].operation in operations
    ensures var o := requests[r].operation;
            var next := operations[o].(waiters := operations[o].waiters - 1);
            CountsOk(operations[o := next], requests - {r}, closed)
            && (next.waiters == 0 <==> WaitingFor(requests, o) == {r})
            && (next.waiters == 0 ==> CountsOk(operations[o := next.(aborted := true)], requests - {r}, closed))
  {
    var o := requests[r].operation;
    assert WaitingFor(requests - {r}, o) == WaitingFor(requests, o) - {r};
    assert forall i | i != o :: WaitingFor(requests - {r}, i) == WaitingFor(requests, i);
    hide WaitingFor;
  }

  class EndpointDiscovery {
    var lanes: map<AccountId, nat>       // the registered lane of each account
    var lane: map<nat, Lane>             // every lane ever made
    var joins: map<Key, nat>             // the operations that may be joined
    var operations: map<nat, Operation>  // every operation ever started
    var requests: map<nat, Request>      // the requests that wait
    var invalidatedAt: map<AccountId, nat>
    var clock: nat
    var issued: nat
    var closed: bool

    ghost predicate Valid()
      reads this
    {
      RegisteredOk(lanes, lane, invalidatedAt) && LanesOk(lane, operations, clock)
      && JoinsOk(joins, operations, invalidatedAt, closed) && ClockOk(operations, invalidatedAt, clock)
      && CountsOk(operations, requests, closed) && RequestsOk(requests, operations, lane, issued)
      && (closed ==> lanes == map[] && joins == map[])
    }

    constructor ()
      ensures Valid() && !closed
    {
      lanes, lane, joins, operations, requests, invalidatedAt := map[], map[], map[], map[], map[], map[];
      clock, issued, closed := 0, 0, false;
    }

    /** Of one account and credential generation at most one operation is live. */
    lemma OneLive(o: nat, p: nat)
      requires Valid() && !closed && o in operations && p in operations && operations[o].key == operations[p].key
      requires Live(operations, invalidatedAt, o) && Live(operations, invalidatedAt, p)
      ensures o == p
    {
      assert Joined(joins, operations, o) && Joined(joins, operations, p);
    }

    /** What a registered lane keeps was asked for after the last invalidation of its account, with
        the credentials of the lane. */
    lemma KeptIsFresh(a: AccountId)
      requires Valid() && a in lanes
      ensures lanes[a] in lane && lane[lanes[a]].key.0 == a
      ensures var kept := lane[lanes[a]].endpoint;
              kept.Some? ==> kept.value in operations && operations[kept.value].key == lane[lanes[a]].key
                             && operations[kept.value].progress.Found? && kept.value >= Since(invalidatedAt, a)
    {
      assert LaneOk(operations, lanes[a], lane[lanes[a]]);
    }

    /** The synchronous part of `discover`. */
    method Discover(key: Key) returns (r: Discovered)
      requires Valid()
      modifies this
      ensures Valid() && closed == old(closed) && invalidatedAt == old(invalidatedAt)
      ensures r.Closed? <==> closed
      ensures r.Cached? <==> !closed && key.0 in old(lanes) && old(lanes)[key.0] in old(lane)
                             && old(lane)[old(lanes)[key.0]].key == key && old(lane)[old(lanes)[key.0]].endpoint.Some?
      ensures r.Cached? ==>
                r.operation in operations && operations[r.operation].key == key
                && operations[r.operation].progress.Found? && r.operation >= Since(invalidatedAt, key.0)
      ensures r.Waits? ==>
                r.request !in old(requests) && r.request in requests
                && var q := requests[r.request];
                   requests == old(requests)[r.request := q] && q.key == key && q.since == Since(invalidatedAt, key.0)
                   && q.operation in operations && Live(operations, invalidatedAt, q.operation)
                   && (if key in old(joins) then
                         q.operation == old(joins)[key] && q.operation in old(operations) && joins == old(joins)
                         && operations == old(operations)[q.operation := old(operations)[q.operation].(
                              waiters := old(operations)[q.operation].waiters + 1)]
                       else
                         q.operation !in old(operations) && joins == old(joins)[key := q.operation]
                         && operations == old(operations)[q.operation := Operation(key, q.lane, Asking, false, false, 1)])
                   && (key.0 in old(lanes) ==> old(lanes)[key.0] in old(lane))
                   && (if key.0 in old(lanes) && old(lane)[old(lanes)[key.0]].key == key then
                         q.lane == old(lanes)[key.0] && lanes == old(lanes)
                       else
                         q.lane !in old(lane)
                         && lanes == if key.0 in old(lanes) && old(lane)[old(lanes)[key.0]].key.1 > key.1
                                     then old(lanes) else old(lanes)[key.0 := q.lane])
                   && (key !in old(joins) ==> q.lane in lane && lane[q.lane].operation == Some(q.operation))
      ensures !r.Waits? ==>
                lanes == old(lanes) && lane == old(lane) && joins == old(joins) && operations == old(operations)
                && requests == old(requests)
    {
      hide RegisteredOk, LanesOk, JoinsOk, ClockOk, CountsOk, RequestsOk, Since, Live;
      if closed { return Closed; }
      if key.0 in lanes {
        KeptIsFresh(key.0);
        if lane[lanes[key.0]].key == key && lane[lanes[key.0]].endpoint.Some? {
          return Cached(lane[lanes[key.0]].endpoint.value);
        }
      }
      var l := LaneFor(key);
      var o: nat;
      if key in joins {
        o := joins[key];
      } else {
        o := StartOperation(key, l);
      }
      var q := Join(key, l, o);
      r := Waits(q);
    }

    /** The lane of the account, unless it is of another generation: one of newer credentials takes
        its place, one of older credentials is not registered. */
    method LaneFor(key: Key) returns (l: nat)
      requires Valid() && !closed
      modifies `lanes, `lane, `clock
      ensures Valid() && l in lane && lane[l].key == key
      ensures key.0 in old(lanes) ==> old(lanes)[key.0] in old(lane)
      ensures if key.0 in old(lanes) && old(lane)[old(lanes)[key.0]].key == key
              then l == old(lanes)[key.0] && lanes == old(lanes) && lane == old(lane)
              else l !in old(lane) && lane == old(lane)[l := Lane(key, None, None)]
                   && lanes == if key.0 in old(lanes) && old(lane)[old(lanes)[key.0]].key.1 > key.1
                               then old(lanes) else old(lanes)[key.0 := l]
    {
      hide LanesOk, JoinsOk, CountsOk, RequestsOk;
      if key.0 in lanes && lane[lanes[key.0]].key == key { return lanes[key.0]; }
      l := clock;
      ClockIsNew();
      LaneChanges(lane, operations, clock, l, Lane(key, None, None), requests, issued);
      if key.0 !in lanes || key.1 > lane[lanes[key.0]].key.1 { lanes := lanes[key.0 := l]; }
      lane := lane[l := Lane(key, None, None)];
      clock := clock + 1;
    }

    lemma ClockIsNew()
      requires LanesOk(lane, operations, clock) && ClockOk(operations, invalidatedAt, clock)
      ensures clock !in lane && clock !in operations && ClockOk(operations, invalidatedAt, clock + 1)
      ensures forall a :: clock >= Since(invalidatedAt, a)
    {
    }

    method StartOperation(key: Key, l: nat) returns (o: nat)
      requires Valid() && !closed && key !in joins && l in lane && lane[l].key == key
      modifies `lane, `joins, `operations, `clock
      ensures Valid() && o !in old(operations) && joins == old(joins)[key := o]
      ensures operations == old(operations)[o := Operation(key, l, Asking, false, false, 0)]
      ensures lane == old(lane)[l := old(lane)[l].(operation := Some(o))]
    {
      hide RegisteredOk, LanesOk, JoinsOk, CountsOk, RequestsOk;
      o := clock;
      var operation := Operation(key, l, Asking, false, false, 0);
      ClockIsNew();
      OperationStarts(lane, operations, clock, l, key, requests, issued);
      StaysRegistered(lanes, lane, lane[l := lane[l].(operation := Some(o))], invalidatedAt);
      JoinStarts(joins, operations, invalidatedAt, o, operation);
      NobodyWaits(operations, requests, lane, issued, closed, o, operation);
      lane := lane[l := lane[l].(operation := Some(o))];
      joins := joins[key := o];
      operations := operations[o := operation];
      clock := clock + 1;
    }

    method Join(key: Key, l: nat, o: nat) returns (r: nat)
      requires Valid() && key in joins && joins[key] == o && l in lane && lane[l].key == key
      modifies `operations, `requests, `issued
      ensures Valid() && r !in old(requests)
      ensures requests == old(requests)[r := Request(key, l, o, Since(invalidatedAt, key.0))]
      ensures o in old(operations)
              && operations == old(operations)[o := OneMore(old(operations)[o])]
      ensures Live(operations, invalidatedAt, o)
    {
      hide RegisteredOk, LanesOk, JoinsOk, ClockOk, CountsOk, RequestsOk;
      r := issued;
      var q := Request(key, l, o, Since(invalidatedAt, key.0));
      JoinedIsLive(key);
      JoinKeeps(q);
      requests := requests[r := q];
      operations := operations[o := OneMore(operations[o])];
      issued := issued + 1;
    }

    lemma JoinedIsLive(key: Key)
      requires JoinsOk(joins, operations, invalidatedAt, closed) && key in joins
      ensures joins[key] in operations && operations[joins[key]].key == key
      ensures Live(operations, invalidatedAt, joins[key])
    {
    }

    lemma JoinKeeps(q: Request)
      requires Valid() && RequestOk(operations, lane, q) && !operations[q.operation].aborted
      ensures var more := operations[q.operation := OneMore(operations[q.operation])];
              issued !in requests && LanesOk(lane, more, clock) && JoinsOk(joins, more, invalidatedAt, closed)
              && ClockOk(more, invalidatedAt, clock) && CountsOk(more, requests[issued := q], closed)
              && RequestsOk(requests[issued := q], more, lane, issued + 1)
    {
      hide LanesOk, JoinsOk, CountsOk, RequestsOk, WaitingFor;
      var more := operations[q.operation := OneMore(operations[q.operation])];
      NotYetIssued();
      OperationsMoveOn(lane, operations, more, clock, requests, issued);
      JoinsStay(joins, operations, more, invalidatedAt, closed);
      OneMoreWaits(operations, requests, closed, issued, q);
      RequestAdded(more, q);
    }

    lemma NotYetIssued()
      requires RequestsOk(requests, operations, lane, issued)
      ensures issued !in requests
    {
    }

    lemma RequestAdded(more: map<nat, Operation>, q: Request)
      requires RequestsOk(requests, more, lane, issued) && RequestOk(more, lane, q)
      ensures RequestsOk(requests[issued := q], more, lane, issued + 1)
    {
      forall r | r in requests ensures RequestOk(more, lane, requests[r]) {
      }
    }

    /** The source has answered or failed.  The answer is kept only in the registered lane, by the
        operation that is registered there. */
    method Answered(o: nat, ok: bool)
      requires Valid() && o in operations && operations[o].progress.Asking?
      modifies `lane, `operations
      ensures Valid()
      ensures var was := old(operations)[o];
              var found := ok && !closed && !was.aborted;
              operations == old(operations)[o := was.(progress := if found then Found else Failed)]
              && was.lane in old(lane)
              && lane == if found && was.key.0 in lanes && lanes[was.key.0] == was.lane
                            && old(lane)[was.lane].operation == Some(o)
                         then old(lane)[was.lane := old(lane)[was.lane].(endpoint := Some(o))] else old(lane)
    {
      hide RegisteredOk, LanesOk, JoinsOk, CountsOk, RequestsOk;
      var found := ok && !closed && !operations[o].aborted;
      var l := operations[o].lane;
      var a := operations[o].key.0;
      ghost var after := operations[o := operations[o].(progress := if found then Found else Failed)];
      HomeIs(o);
      OperationsMoveOn(lane, operations, after, clock, requests, issued);
      JoinsStay(joins, operations, after, invalidatedAt, closed);
      CountsStay(operations, after, requests, closed);
      operations := operations[o := operations[o].(progress := if found then Found else Failed)];
      if found && a in lanes && lanes[a] == l && lane[l].operation == Some(o) {
        LaneChanges(lane, operations, clock, l, lane[l].(endpoint := Some(o)), requests, issued);
        StaysRegistered(lanes, lane, lane[l := lane[l].(endpoint := Some(o))], invalidatedAt);
        lane := lane[l := lane[l].(endpoint := Some(o))];
      }
    }

    lemma HomeIs(o: nat)
      requires LanesOk(lane, operations, clock) && o in operations
      ensures operations[o].lane in lane && lane[operations[o].lane].key == operations[o].key
      ensures LaneOk(operations, operations[o].lane, lane[operations[o].lane])
    {
    }

    /** What follows the answer: later requests start another operation, unless one is kept. */
    method Settled(o: nat)
      requires Valid() && o in operations && !operations[o].progress.Asking? && !operations[o].settled
      modifies `lane, `operations, `joins
      ensures Valid() && operations == old(operations)[o := old(operations)[o].(settled := true)]
      ensures var k := operations[o].key;
              joins == if k in old(joins) && old(joins)[k] == o then old(joins) - {k} else old(joins)
      ensures var l := operations[o].lane;
              lane == if l in old(lane) && old(lane)[l].operation == Some(o)
                      then old(lane)[l := old(lane)[l].(operation := None)] else old(lane)
    {
      hide RegisteredOk, LanesOk, JoinsOk, CountsOk, RequestsOk;
      ghost var after := operations[o := operations[o].(settled := true)];
      OperationsMoveOn(lane, operations, after, clock, requests, issued);
      JoinEnds(joins, operations, invalidatedAt, closed, o, operations[o].(settled := true));
      CountsStay(operations, after, requests, closed);
      FreedIsOk(lane, after, clock, operations[o].lane, o, requests, issued);
      StaysRegistered(lanes, lane, Freed(lane, operations[o].lane, o), invalidatedAt);
      operations := operations[o := operations[o].(settled := true)];
      joins := Unjoined(joins, operations[o].key, o);
      lane := Freed(lane, operations[o].lane, o);
    }

    /** A request stops waiting, with the answer or without.  The last to leave an operation that
        has not finished gives it up, and the lane with it. */
    method Left(r: nat, aborted: bool) returns (answer: Option<nat>)
      requires Valid() && r in requests && requests[r].operation in operations
      requires aborted || operations[requests[r].operation].settled
      modifies `lanes, `lane, `joins, `operations, `requests
      ensures Valid() && requests == old(requests) - {r}
      ensures answer.Some? <==> !aborted && old(operations)[old(requests)[r].operation].progress.Found?
      ensures answer.Some? ==>
                answer.value in operations && operations[answer.value].key == old(requests)[r].key
                && answer.value >= old(requests)[r].since
      ensures var q := old(requests)[r];
              var was := old(operations)[q.operation];
              var last := WaitingFor(old(requests), q.operation) == {r} && !was.settled;
              operations == old(operations)[q.operation := was.(waiters := was.waiters - 1, aborted := was.aborted || last)]
              && joins == (if last && q.key in old(joins) && old(joins)[q.key] == q.operation
                           then old(joins) - {q.key} else old(joins))
              && lane == (if last && q.lane in old(lane) && old(lane)[q.lane].operation == Some(q.operation)
                          then old(lane)[q.lane := old(lane)[q.lane].(operation := None)] else old(lane))
              && lanes == if last && q.key.0 in old(lanes) && old(lanes)[q.key.0] == q.lane
                          then old(lanes) - {q.key.0} else old(lanes)
    {
      hide RegisteredOk, LanesOk, JoinsOk, CountsOk, RequestsOk;
      var q := requests[r];
      var o := q.operation;
      LeaveKeeps(r);
      answer := if !aborted && operations[o].progress.Found? then Some(o) else None;
      operations := operations[o := operations[o].(waiters := operations[o].waiters - 1)];
      requests := requests - {r};
      if operations[o].waiters == 0 && !operations[o].settled {
        OrphanKeeps(q);
        joins := Unjoined(joins, q.key, o);
        lane := Freed(lane, q.lane, o);
        if q.key.0 in lanes && lanes[q.key.0] == q.lane { lanes := lanes - {q.key.0}; }
        operations := operations[o := operations[o].(aborted := true)];
      }
    }

    lemma LeaveKeeps(r: nat)
      requires Valid() && r in requests
      ensures var q := requests[r];
              RequestOk(operations, lane, q)
              && var next := operations[q.operation].(waiters := operations[q.operation].waiters - 1);
                 var less := operations[q.operation := next];
                 LanesOk(lane, less, clock) && JoinsOk(joins, less, invalidatedAt, closed)
                 && ClockOk(less, invalidatedAt, clock) && CountsOk(less, requests - {r}, closed)
                 && RequestsOk(requests - {r}, less, lane, issued)
                 && (next.waiters == 0 <==> WaitingFor(requests, q.operation) == {r})
                 && (next.waiters == 0 ==>
                       CountsOk(less[q.operation := next.(aborted := true)], requests - {r}, closed))
    {
      hide LanesOk, JoinsOk, CountsOk, WaitingFor;
      var q := requests[r];
      assert RequestOk(operations, lane, q);
      var next := operations[q.operation].(waiters := operations[q.operation].waiters - 1);
      var less := operations[q.operation := next];
      OperationsMoveOn(lane, operations, less, clock, requests, issued);
      JoinsStay(joins, operations, less, invalidatedAt, closed);
      OneLessWaits(operations, requests, closed, r);
      assert less[q.operation := next.(aborted := true)] == operations[q.operation := next.(aborted := true)];
    }

    lemma OrphanKeeps(q: Request)
      requires RegisteredOk(lanes, lane, invalidatedAt) && LanesOk(lane, operations, clock)
      requires JoinsOk(joins, operations, invalidatedAt, closed) && ClockOk(operations, invalidatedAt, clock)
      requires RequestsOk(requests, operations, lane, issued)
      requires q.operation in operations && operations[q.operation].key == q.key
      ensures var after := operations[q.operation := operations[q.operation].(aborted := true)];
              var freed := Freed(lane, q.lane, q.operation);
              LanesOk(freed, after, clock) && ClockOk(after, invalidatedAt, clock)
              && JoinsOk(Unjoined(joins, q.key, q.operation), after, invalidatedAt, closed)
              && RequestsOk(requests, after, freed, issued)
              && RegisteredOk(lanes, freed, invalidatedAt) && RegisteredOk(lanes - {q.key.0}, freed, invalidatedAt)
    {
      hide LanesOk, JoinsOk, RequestsOk, Freed;
      var after := operations[q.operation := operations[q.operation].(aborted := true)];
      OperationsMoveOn(lane, operations, after, clock, requests, issued);
      JoinEnds(joins, operations, invalidatedAt, closed, q.operation, after[q.operation]);
      FreedIsOk(lane, after, clock, q.lane, q.operation, requests, issued);
      StaysRegistered(lanes, lane, Freed(lane, q.lane, q.operation), invalidatedAt);
    }

    /** Nothing that was begun before can be joined or found afterwards. */
    method Invalidate(a: AccountId)
      requires Valid()
      modifies `lanes, `joins, `invalidatedAt
      ensures Valid() && lanes == old(lanes) - {a} && invalidatedAt == old(invalidatedAt)[a := clock]
      ensures joins == map k | k in old(joins) && k.0 != a :: old(joins)[k]
      ensures forall o | o in operations && operations[o].key.0 == a :: o < Since(invalidatedAt, a)
    {
      hide LanesOk, JoinsOk, CountsOk, RequestsOk;
      JoinsInvalidated(joins, operations, invalidatedAt, closed, a, clock);
      lanes := lanes - {a};
      joins := map k | k in joins && k.0 != a :: joins[k];
      invalidatedAt := invalidatedAt[a := clock];
    }

    /** Every operation is given up, and what still answers is not kept. */
    method Close()
      requires Valid()
      modifies `closed, `lanes, `joins, `operations
      ensures Valid() && closed && requests == old(requests)
      ensures lanes == map[] && joins == map[] && operations.Keys == old(operations).Keys
      ensures forall o | o in operations ::
                operations[o] == old(operations)[o].(aborted := old(operations)[o].aborted || !old(operations)[o].settled)
    {
      hide LanesOk, RequestsOk, WaitingFor;
      OperationsMoveOn(lane, operations, GivenUp(operations), clock, requests, issued);
      closed, lanes, joins := true, map[], map[];
      operations := GivenUp(operations);
    }

    /** Any interleaving of requests, answers, departures, invalidations and a close. */
    method Run(schedule: seq<Event>)
      requires Valid()
      modifies this
      ensures Valid()
    {
      hide RegisteredOk, LanesOk, JoinsOk, ClockOk, CountsOk, RequestsOk;
      for i := 0 to |schedule|
        invariant Valid()
      {
        match schedule[i]
        case Ask(key) => var _ := Discover(key);
        case Answer(o, ok) => if o in operations && operations[o].progress.Asking? { Answered(o, ok); }
        case Settle(o) =>
          if o in operations && !operations[o].progress.Asking? && !operations[o].settled { Settled(o); }
        case Leave(r, aborted) =>
          if r in requests && requests[r].operation in operations
             && (aborted || operations[requests[r].operation].settled) {
            var _ := Left(r, aborted);
          }
        case Invalidate(a) => Invalidate(a);
        case CloseAll => Close();
      }
    }
  }
}
