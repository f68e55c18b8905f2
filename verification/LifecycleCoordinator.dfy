/**
 Lifecycle operations, one at a time for each data directory, under that directory's lease.
 Between two points where it waits, the drain of a lane runs as far as it can.
 */
module LifecycleCoordinator {
  import opened Options

  const MAX_PENDING_LIFECYCLE_OPERATIONS_PER_DIRECTORY := 64

  type Dir = string

  datatype Outcome = Resolved | Rejected | Interrupted

  /** Where a drain is: between two operations, waiting for a lease, holding one while the operation
      runs, or with the lease given back, if that worked, and the operation not yet settled. */
  datatype Phase = Between | Acquiring(node: nat) | Holding(node: nat) | Returned(node: nat, released: bool) {
    predicate Has(n: nat) { !Between? && node == n }
  }

  /** `draining` is the flag that decides whether a drain is started; `drains` are those that were
      started and have not ended. */
  datatype Lane = Lane(queue: seq<nat>, draining: bool, drains: map<nat, Phase>) {
    predicate Has(n: nat) {
      n in queue || exists k :: k in drains && drains[k].Has(n)
    }

    function In(k: nat, phase: Phase): Lane {
      this.(drains := drains[k := phase])
    }

    /** At most one drain runs, and the flag says whether one does. */
    predicate Serial() {
      (draining <==> drains != map[]) && forall k, l | k in drains && l in drains :: k == l
    }

    /** Waiting operations are in the order in which they came, behind the current one. */
    predicate Ordered() {
      Serial()
      && (forall i, j | 0 <= i < j < |queue| :: queue[i] < queue[j])
      && (forall k, i | k in drains && !drains[k].Between? && 0 <= i < |queue| :: drains[k].node < queue[i])
      && |queue| <= MAX_PENDING_LIFECYCLE_OPERATIONS_PER_DIRECTORY
    }

    /** The lane is drained, and its drain waits for a lease or for its operation. */
    predicate Resting() {
      draining && forall k | k in drains :: drains[k].Acquiring? || drains[k].Holding?
    }

    predicate Holds(n: nat) {
      exists k :: k in drains && (drains[k] == Holding(n) || drains[k] == Returned(n, false))
    }
  }

  /** How giving a lease back goes: at once, only when it is tried again, or not at all. */
  datatype Release = AtOnce | Again | Never

  datatype Event =
    | Submit(dir: Dir, aborted: bool)
    | Signal(node: nat)
    | LeaseAnswer(dir: Dir, drain: nat, acquired: bool, release: Release)
    | OperationEnd(dir: Dir, drain: nat, ok: bool, release: Release)

  /** An operation is settled, or in the lane of its directory, and never both. */
  ghost predicate Conserved(lanes: map<Dir, Lane>, outcomes: map<nat, Outcome>, place: map<nat, Dir>) {
    (forall n | n in place :: n in outcomes || (place[n] in lanes && lanes[place[n]].Has(n)))
    && (forall n | n in outcomes :: n in place)
    && forall d | d in lanes :: Owns(d, lanes[d], outcomes, place)
  }

  ghost predicate Owns(d: Dir, lane: Lane, outcomes: map<nat, Outcome>, place: map<nat, Dir>) {
    lane.Ordered() && forall n: nat | lane.Has(n) :: n in place && place[n] == d && n !in outcomes
  }

  predicate HeldIn(lanes: map<Dir, Lane>, n: nat) {
    exists d :: d in lanes && lanes[d].Holds(n)
  }

  /** A lease is held exactly while a drain holds it, or because it could not be given back. */
  ghost predicate LeasesOk(lanes: map<Dir, Lane>, leases: set<nat>, unreleased: set<nat>) {
    forall n :: n in leases <==> n in unreleased || HeldIn(lanes, n)
  }

  // What happens to one lane.

  lemma Pushed(lane: Lane, n: nat)
    requires lane.Ordered() && forall m: nat | lane.Has(m) :: m < n
    requires |lane.queue| < MAX_PENDING_LIFECYCLE_OPERATIONS_PER_DIRECTORY
    ensures var more := lane.(queue := lane.queue + [n]);
            more.Ordered() && forall m :: more.Has(m) <==> lane.Has(m) || m == n
  {
    var more := lane.(queue := lane.queue + [n]);
    assert forall i | 0 <= i < |lane.queue| :: more.queue[i] == lane.queue[i] && lane.Has(lane.queue[i]);
    assert forall k | k in lane.drains && !lane.drains[k].Between? :: lane.Has(lane.drains[k].node);
    assert forall m :: m in more.queue <==> m in lane.queue || m == n;
  }

  /** A drain goes on with the same operation. */
  lemma Phased(lane: Lane, k: nat, phase: Phase)
    requires lane.Ordered() && k in lane.drains && !lane.drains[k].Between?
    requires !phase.Between? && phase.node == lane.drains[k].node
    ensures lane.In(k, phase).Ordered() && forall m :: lane.In(k, phase).Has(m) <==> lane.Has(m)
  {
    var next := lane.In(k, phase);
    forall m ensures next.Has(m) <==> lane.Has(m) {
      assert next.drains[k].Has(m) <==> lane.drains[k].Has(m);
      assert forall l | l in lane.drains :: l == k;
      assert forall l | l in next.drains :: l == k;
    }
  }

  /** The current operation leaves the lane. */
  lemma Vacated(lane: Lane, k: nat)
    requires lane.Ordered() && k in lane.drains && !lane.drains[k].Between?
    ensures var rest := lane.In(k, Between);
            rest.Ordered() && forall m :: rest.Has(m) <==> lane.Has(m) && m != lane.drains[k].node
    ensures lane.Has(lane.drains[k].node)
  {
    var rest := lane.In(k, Between);
    assert lane.drains[k].Has(lane.drains[k].node);
    forall m ensures rest.Has(m) <==> lane.Has(m) && m != lane.drains[k].node {
      assert forall l | l in lane.drains :: l == k;
      assert forall l | l in rest.drains :: l == k;
      assert lane.drains[k].Has(m) <==> m == lane.drains[k].node;
    }
  }

  /** The longest waiting operation becomes the current one. */
  lemma Shifted(lane: Lane, k: nat)
    requires lane.Ordered() && k in lane.drains && lane.drains[k].Between? && lane.queue != []
    ensures var next := lane.(queue := lane.queue[1..]).In(k, Acquiring(lane.queue[0]));
            next.Ordered() && forall m :: next.Has(m) <==> lane.Has(m)
  {
    var next := lane.(queue := lane.queue[1..]).In(k, Acquiring(lane.queue[0]));
    assert forall i | 0 <= i < |next.queue| :: next.queue[i] == lane.queue[i + 1];
    forall m ensures next.Has(m) <==> lane.Has(m) {
      assert lane.queue == [lane.queue[0]] + next.queue;
      assert forall l | l in lane.drains :: l == k;
      assert forall l | l in next.drains :: l == k;
      assert next.drains[k].Has(m) <==> m == lane.queue[0];
    }
  }

  lemma Removed(lane: Lane, index: nat)
    requires lane.Ordered() && index < |lane.queue|
    ensures var rest := lane.(queue := lane.queue[..index] + lane.queue[index + 1..]);
            rest.Ordered() && (forall m :: rest.Has(m) <==> lane.Has(m) && m != lane.queue[index])
  {
    var q, n := lane.queue, lane.queue[index];
    var r := q[..index] + q[index + 1..];
    Omitted(q, r, index);
    forall i, j | 0 <= i < j < |r| ensures r[i] < r[j] {
      assert r[i] == q[if i < index then i else i + 1] && r[j] == q[if j < index then j else j + 1];
    }
    forall k, i | k in lane.drains && !lane.drains[k].Between? && 0 <= i < |r| ensures lane.drains[k].node < r[i] {
      assert r[i] == q[if i < index then i else i + 1];
    }
    forall i | 0 <= i < |r| ensures r[i] != n {
      assert r[i] == q[if i < index then i else i + 1];
    }
  }

  lemma Omitted(q: seq<nat>, r: seq<nat>, index: nat)
    requires index < |q| && r == q[..index] + q[index + 1..]
    ensures forall m :: m in q <==> m in r || m == q[index]
  {
    assert q == q[..index] + [q[index]] + q[index + 1..];
  }

  lemma Begun(lane: Lane, k: nat)
    requires lane.Ordered() && !lane.draining
    ensures var next := lane.(draining := true).In(k, Between);
            next.Ordered() && (forall m :: next.Has(m) <==> lane.Has(m)) && next.drains == map[k := Between]
  {
    var next := lane.(draining := true).In(k, Between);
    assert lane.drains == map[];
    assert next.drains[k].Between?;
  }

  lemma Empty(lane: Lane, k: nat)
    requires lane.Ordered() && k in lane.drains && lane.drains[k].Between? && lane.queue == []
    ensures var rest := Lane([], false, lane.drains - {k});
            rest.Ordered() && rest.drains == map[] && forall m :: !lane.Has(m) && !rest.Has(m)
  {
    assert forall l | l in lane.drains :: l == k;
    assert lane.drains - {k} == map[];
  }

  /** The lease of a lane is that of its one drain. */
  lemma HoldsOne(lane: Lane, k: nat)
    requires lane.Ordered() && k in lane.drains
    ensures forall n :: lane.Holds(n) <==> lane.drains[k] == Holding(n) || lane.drains[k] == Returned(n, false)
  {
  }

  // What happens to all of them.

  /** A lane changes without gaining or losing an operation. */
  lemma LaneKeeps(lanes: map<Dir, Lane>, outcomes: map<nat, Outcome>, place: map<nat, Dir>, d: Dir, lane: Lane)
    requires Conserved(lanes, outcomes, place) && d in lanes && lane.Ordered()
    requires forall m :: lane.Has(m) <==> lanes[d].Has(m)
    ensures Conserved(lanes[d := lane], outcomes, place)
  {
    hide Lane.Has, Lane.Ordered;
    var more := lanes[d := lane];
    forall e | e in more ensures Owns(e, more[e], outcomes, place) {
      assert Owns(e, lanes[e], outcomes, place);
    }
  }

  /** An operation moves from its lane to the outcomes. */
  lemma SettleKeeps(lanes: map<Dir, Lane>, outcomes: map<nat, Outcome>, place: map<nat, Dir>, d: Dir, lane: Lane,
                    n: nat, outcome: Outcome)
    requires Conserved(lanes, outcomes, place) && d in lanes && lanes[d].Has(n) && lane.Ordered()
    requires forall m | lane.Has(m) :: lanes[d].Has(m) && m != n
    requires forall m | lanes[d].Has(m) && m != n :: lane.Has(m)
    ensures n in place && n !in outcomes && Conserved(lanes[d := lane], outcomes[n := outcome], place)
  {
    hide Lane.Has, Lane.Ordered;
    assert Owns(d, lanes[d], outcomes, place);
    forall e | e in lanes ensures Owns(e, lanes[d := lane][e], outcomes[n := outcome], place) {
      assert Owns(e, lanes[e], outcomes, place);
    }
  }

  lemma SubmitKeeps(lanes: map<Dir, Lane>, outcomes: map<nat, Outcome>, place: map<nat, Dir>, d: Dir, lane: Lane, n: nat)
    requires Conserved(lanes, outcomes, place) && n !in place && lane.Ordered()
    requires forall m :: lane.Has(m) <==> (d in lanes && lanes[d].Has(m)) || m == n
    ensures Conserved(lanes[d := lane], outcomes, place[n := d])
  {
    hide Lane.Has, Lane.Ordered;
    var more := lanes[d := lane];
    forall e | e in more ensures Owns(e, more[e], outcomes, place[n := d]) {
      if e in lanes { assert Owns(e, lanes[e], outcomes, place); }
    }
  }

  lemma DropKeeps(lanes: map<Dir, Lane>, outcomes: map<nat, Outcome>, place: map<nat, Dir>, d: Dir)
    requires Conserved(lanes, outcomes, place) && d in lanes && forall m :: !lanes[d].Has(m)
    ensures Conserved(lanes - {d}, outcomes, place)
  {
    hide Lane.Has, Lane.Ordered;
  }

  lemma LeasesStay(lanes: map<Dir, Lane>, leases: set<nat>, unreleased: set<nat>, d: Dir, lane: Lane)
    requires LeasesOk(lanes, leases, unreleased)
    requires forall m :: lane.Holds(m) <==> d in lanes && lanes[d].Holds(m)
    ensures LeasesOk(lanes[d := lane], leases, unreleased)
  {
    hide Lane.Holds;
    var more := lanes[d := lane];
    forall m ensures HeldIn(more, m) <==> HeldIn(lanes, m) {
      if e :| e in lanes && lanes[e].Holds(m) { assert more[e].Holds(m); }
      if e :| e in more && more[e].Holds(m) { assert e in lanes && lanes[e].Holds(m); }
    }
  }

  lemma LeaseTaken(lanes: map<Dir, Lane>, leases: set<nat>, unreleased: set<nat>, d: Dir, lane: Lane, n: nat)
    requires LeasesOk(lanes, leases, unreleased) && d in lanes
    requires forall m :: lane.Holds(m) <==> lanes[d].Holds(m) || m == n
    ensures LeasesOk(lanes[d := lane], leases + {n}, unreleased)
  {
    hide Lane.Holds;
    var more := lanes[d := lane];
    assert more[d].Holds(n);
    forall m ensures HeldIn(more, m) <==> HeldIn(lanes, m) || m == n {
      if e :| e in lanes && lanes[e].Holds(m) { assert more[e].Holds(m); }
      if e :| e in more && more[e].Holds(m) { assert m == n || (e in lanes && lanes[e].Holds(m)); }
    }
  }

  /** A lane lets go of a lease that no other lane has: it is given back, or lost. */
  lemma LeaseLeft(lanes: map<Dir, Lane>, leases: set<nat>, unreleased: set<nat>, d: Dir, lane: Lane, n: nat)
    requires LeasesOk(lanes, leases, unreleased) && d in lanes && n !in unreleased
    requires forall m :: lane.Holds(m) <==> lanes[d].Holds(m) && m != n
    requires forall e | e in lanes && e != d :: !lanes[e].Holds(n)
    ensures LeasesOk(lanes[d := lane], leases - {n}, unreleased)
    ensures lanes[d].Holds(n) ==> LeasesOk(lanes[d := lane], leases, unreleased + {n})
  {
    hide Lane.Holds;
    var less := lanes[d := lane];
    forall m ensures HeldIn(less, m) <==> HeldIn(lanes, m) && m != n {
      if e :| e in lanes && lanes[e].Holds(m) { assert m == n || less[e].Holds(m); }
      if e :| e in less && less[e].Holds(m) { assert e in lanes && lanes[e].Holds(m); }
    }
    if lanes[d].Holds(n) { assert HeldIn(lanes, n); }
  }

  lemma LeasesDropped(lanes: map<Dir, Lane>, leases: set<nat>, unreleased: set<nat>, d: Dir)
    requires LeasesOk(lanes, leases, unreleased) && forall m :: d in lanes ==> !lanes[d].Holds(m)
    ensures LeasesOk(lanes - {d}, leases, unreleased)
  {
    hide Lane.Holds;
    forall m ensures HeldIn(lanes - {d}, m) <==> HeldIn(lanes, m) {
      if e :| e in lanes && lanes[e].Holds(m) { assert (lanes - {d})[e].Holds(m); }
    }
  }

  /** The lanes once the current operation of one of them has gone: the next one asks for the lease,
      or the lane goes too. */
  ghost function Rest(lanes: map<Dir, Lane>, d: Dir, k: nat): map<Dir, Lane>
    requires d in lanes
  {
    if lanes[d].queue == [] then lanes - {d}
    else lanes[d := Lane(lanes[d].queue[1..], true, map[k := Acquiring(lanes[d].queue[0])])]
  }

  class LifecycleCoordinator {
    var lanes: map<Dir, Lane>
    var leases: set<nat>               // the operations whose lease is held
    var unreleased: set<nat>           // those whose lease could not be given back
    var begun: set<nat>                // the operations that were called
    var aborted: set<nat>
    var outcomes: map<nat, Outcome>
    var issued: nat
    var place: map<nat, Dir>           // the directory of every operation submitted

    /** All drains rest, except those of the directory whose drain is running now. */
    ghost predicate Rested(except: Option<Dir>)
      reads `lanes
    {
      forall d | d in lanes && except != Some(d) :: lanes[d].Resting()
    }

    ghost predicate NumbersOk()
      reads `issued, `place, `aborted, `unreleased, `outcomes
    {
      (forall n | n in place :: n < issued) && aborted <= place.Keys && unreleased <= outcomes.Keys
    }

    /** Nothing that waits has been aborted. */
    ghost predicate Wanted()
      reads `lanes, `aborted
    {
      forall d | d in lanes :: forall n | n in lanes[d].queue :: n !in aborted
    }

    ghost predicate Running(except: Option<Dir>)
      reads `lanes, `leases, `unreleased, `aborted, `outcomes, `issued, `place
    {
      Conserved(lanes, outcomes, place) && LeasesOk(lanes, leases, unreleased) && Rested(except) && NumbersOk()
      && Wanted()
    }

    ghost predicate Valid()
      reads `lanes, `leases, `unreleased, `aborted, `outcomes, `issued, `place
    {
      Running(None)
    }

    constructor ()
      ensures Valid() && lanes == map[] && outcomes == map[] && leases == {}
    {
      lanes, leases, unreleased, begun, aborted, outcomes, issued, place := map[], {}, {}, {}, {}, map[], 0, map[];
    }

    /** What a step does to the lane of one directory, with the operations it has. */
    lemma LaneIs(d: Dir)
      requires Conserved(lanes, outcomes, place) && d in lanes
      ensures lanes[d].Ordered()
      ensures forall n: nat | lanes[d].Has(n) :: n in place && place[n] == d && n !in outcomes
    {
      assert Owns(d, lanes[d], outcomes, place);
    }

    /** An operation of one lane has no lease in another. */
    lemma OnlyHere(d: Dir, n: nat)
      requires Conserved(lanes, outcomes, place) && n in place && place[n] == d
      ensures forall e | e in lanes && e != d :: !lanes[e].Holds(n)
    {
      forall e | e in lanes && lanes[e].Holds(n) ensures e == d {
        assert Owns(e, lanes[e], outcomes, place);
        var k :| k in lanes[e].drains && (lanes[e].drains[k] == Holding(n) || lanes[e].drains[k] == Returned(n, false));
        assert lanes[e].drains[k].Has(n);
      }
    }

    method Run(dir: Dir, abortedAlready: bool) returns (node: Option<nat>)
      requires Valid()
      modifies this
      ensures Valid()
      ensures node.None? <==> abortedAlready
                              || (dir in old(lanes)
                                  && |old(lanes)[dir].queue| >= MAX_PENDING_LIFECYCLE_OPERATIONS_PER_DIRECTORY)
      ensures node.None? ==> place == old(place) && lanes == old(lanes)
      ensures node.Some? ==> node.value !in old(place) && place == old(place)[node.value := dir]
                             && var n := node.value;
                                lanes == old(lanes)[dir := if dir in old(lanes)
                                                           then old(lanes)[dir].(queue := old(lanes)[dir].queue + [n])
                                                           else Lane([], true, map[n := Acquiring(n)])]
      ensures outcomes == old(outcomes) && leases == old(leases) && begun == old(begun)
      ensures aborted == old(aborted) && unreleased == old(unreleased)
    {
      hide Conserved, Lane.Has, Lane.Ordered, LeasesOk, Lane.Holds, Lane.Resting;
      if abortedAlready { return None; }
      var lane := if dir in lanes then lanes[dir] else Lane([], false, map[]);
      if |lane.queue| >= MAX_PENDING_LIFECYCLE_OPERATIONS_PER_DIRECTORY { return None; }
      var n := issued;
      Push(dir, lane, n);
      node := Some(n);
      if !lane.draining {
        assert lanes[dir].queue == [n] && [n][1..] == [];
        Drain(dir, n);
      }
    }

    /** The new operation is put last. */
    method Push(dir: Dir, lane: Lane, n: nat)
      requires Valid() && n == issued && |lane.queue| < MAX_PENDING_LIFECYCLE_OPERATIONS_PER_DIRECTORY
      requires lane == if dir in lanes then lanes[dir] else Lane([], false, map[])
      modifies `lanes, `issued, `place
      ensures Running(Some(dir)) && (lane.draining ==> Valid()) && n !in old(place) && n !in aborted
      ensures lanes == old(lanes)[dir := lane.(queue := lane.queue + [n])] && place == old(place)[n := dir]
      ensures lane.draining <==> dir in old(lanes)
    {
      hide Conserved, Lane.Has, Lane.Ordered, LeasesOk, Lane.Holds;
      Admitted(dir, lane, n);
      SubmitKeeps(lanes, outcomes, place, dir, lane.(queue := lane.queue + [n]), n);
      LeasesStay(lanes, leases, unreleased, dir, lane.(queue := lane.queue + [n]));
      issued := issued + 1;
      place := place[n := dir];
      lanes := lanes[dir := lane.(queue := lane.queue + [n])];
    }

    lemma Admitted(dir: Dir, lane: Lane, n: nat)
      requires Valid() && n == issued && |lane.queue| < MAX_PENDING_LIFECYCLE_OPERATIONS_PER_DIRECTORY
      requires lane == if dir in lanes then lanes[dir] else Lane([], false, map[])
      ensures var more := lane.(queue := lane.queue + [n]);
              more.Ordered() && (forall m :: more.Has(m) <==> (dir in lanes && lanes[dir].Has(m)) || m == n)
              && (forall m :: more.Holds(m) <==> dir in lanes && lanes[dir].Holds(m))
      ensures lane.draining <==> dir in lanes
    {
      if dir in lanes {
        LaneIs(dir);
        assert lanes[dir].Resting();
      }
      Pushed(lane, n);
    }

    /** Starts a drain, which runs until it has to wait. */
    method Drain(d: Dir, k: nat)
      requires Running(Some(d)) && d in lanes && !lanes[d].draining && lanes[d].queue != []
      modifies `lanes
      ensures Valid()
      ensures lanes == old(lanes)[d := Lane(old(lanes)[d].queue[1..], true, map[k := Acquiring(old(lanes)[d].queue[0])])]
    {
      hide Conserved, Lane.Has, Lane.Ordered, LeasesOk, Lane.Holds, Lane.Resting;
      Begin(d, k);
      ghost var first := Acquiring(lanes[d].queue[0]);
      assert (map[k := Between])[k := first] == map[k := first];
      Continue(d, k);
    }

    method Begin(d: Dir, k: nat)
      requires Running(Some(d)) && d in lanes && !lanes[d].draining
      modifies `lanes
      ensures Running(Some(d)) && lanes == old(lanes)[d := Lane(old(lanes)[d].queue, true, map[k := Between])]
    {
      hide Conserved, Lane.Has, Lane.Ordered, LeasesOk, Lane.Holds, Lane.Resting;
      LaneIs(d);
      Begun(lanes[d], k);
      var next := lanes[d].(draining := true).In(k, Between);
      NothingHeld(lanes[d], k);
      LaneKeeps(lanes, outcomes, place, d, next);
      LeasesStay(lanes, leases, unreleased, d, next);
      lanes := lanes[d := next];
    }

    /** The drain goes on: it starts the next operation, or ends and removes the lane when nothing
        waits any more.  What is aborted while it waits leaves the queue at once, so the drain never
        comes upon an operation that is settled already. */
    method Continue(d: Dir, k: nat)
      requires Running(Some(d)) && d in lanes && k in lanes[d].drains && lanes[d].drains[k].Between?
      modifies `lanes
      ensures Valid()
      ensures var queue := old(lanes)[d].queue;
              lanes == if queue == [] then old(lanes) - {d}
                       else old(lanes)[d := Lane(queue[1..], true, map[k := Acquiring(queue[0])])]
    {
      hide Running;
      if lanes[d].queue == [] {
        End(d, k);
      } else {
        NextIsWanted(d, k);
        Shift(d, k);
      }
    }

    /** The one drain of a lane, whose next operation has not been aborted. */
    lemma NextIsWanted(d: Dir, k: nat)
      requires Running(Some(d)) && d in lanes && k in lanes[d].drains && lanes[d].queue != []
      ensures lanes[d].queue[0] !in aborted && lanes[d].draining
      ensures forall phase :: lanes[d].drains[k := phase] == map[k := phase]
    {
      LaneIs(d);
      assert lanes[d].queue[0] in lanes[d].queue;
    }

    method Shift(d: Dir, k: nat)
      requires Running(Some(d)) && d in lanes && k in lanes[d].drains && lanes[d].drains[k].Between?
      requires lanes[d].queue != []
      modifies `lanes
      ensures Running(Some(d)) && Valid()
      ensures lanes == old(lanes)[d := old(lanes)[d].(queue := old(lanes)[d].queue[1..])
                                                     .In(k, Acquiring(old(lanes)[d].queue[0]))]
    {
      hide Conserved, Lane.Has, Lane.Ordered, LeasesOk, Lane.Holds;
      LaneIs(d);
      var next := lanes[d].(queue := lanes[d].queue[1..]).In(k, Acquiring(lanes[d].queue[0]));
      Shifted(lanes[d], k);
      HoldsOne(lanes[d], k);
      HoldsOne(next, k);
      LaneKeeps(lanes, outcomes, place, d, next);
      LeasesStay(lanes, leases, unreleased, d, next);
      OneDrain(lanes[d], k);
      lanes := lanes[d := next];
    }

    /** The drain has found nothing more to do. */
    method End(d: Dir, k: nat)
      requires Running(Some(d)) && d in lanes && k in lanes[d].drains && lanes[d].drains[k].Between?
      requires lanes[d].queue == []
      modifies `lanes
      ensures Valid() && lanes == old(lanes) - {d}
    {
      hide Conserved, Lane.Has, Lane.Ordered, LeasesOk, Lane.Holds;
      LaneIs(d);
      Empty(lanes[d], k);
      HoldsOne(lanes[d], k);
      DropKeeps(lanes, outcomes, place, d);
      LeasesDropped(lanes, leases, unreleased, d);
      lanes := lanes - {d};
    }

    /** The current operation of a drain is settled; its lease has been given back by then, or
        could not be. */
    method Settle(d: Dir, k: nat, outcome: Outcome)
      requires Running(Some(d)) && d in lanes && k in lanes[d].drains
      requires lanes[d].drains[k].Acquiring? || lanes[d].drains[k].Returned?
      modifies `lanes, `outcomes, `unreleased
      ensures Running(Some(d)) && lanes == old(lanes)[d := old(lanes)[d].In(k, Between)]
      ensures old(lanes)[d].drains[k].node !in old(outcomes)
      ensures outcomes == old(outcomes)[old(lanes)[d].drains[k].node := outcome]
      ensures unreleased == old(unreleased) + if old(lanes)[d].drains[k] == Returned(old(lanes)[d].drains[k].node, false)
                                              then {old(lanes)[d].drains[k].node} else {}
    {
      hide Conserved, Lane.Has, Lane.Ordered, LeasesOk, Lane.Holds, Lane.Resting;
      LaneIs(d);
      var n := lanes[d].drains[k].node;
      var rest := lanes[d].In(k, Between);
      Vacated(lanes[d], k);
      HoldsOne(lanes[d], k);
      HoldsOne(rest, k);
      OnlyHere(d, n);
      SettleKeeps(lanes, outcomes, place, d, rest, n, outcome);
      LeaseLeft(lanes, leases, unreleased, d, rest, n);
      if lanes[d].drains[k] == Returned(n, false) {
        unreleased := unreleased + {n};
      } else {
        LeasesStay(lanes, leases, unreleased, d, rest);
      }
      lanes := lanes[d := rest];
      outcomes := outcomes[n := outcome];
    }

    /** A signal is aborted.  An operation that has not started leaves its queue at once. */
    method Abort(n: nat)
      requires Valid() && n in place
      modifies `aborted, `lanes, `outcomes
      ensures Valid() && aborted == old(aborted) + {n}
      ensures if n !in old(outcomes) && place[n] in old(lanes) && n in old(lanes)[place[n]].queue
              then outcomes == old(outcomes)[n := Interrupted]
                   && exists i | 0 <= i < |old(lanes)[place[n]].queue| ::
                        var lane := old(lanes)[place[n]];
                        lane.queue[i] == n
                        && lanes == old(lanes)[place[n] := Lane(lane.queue[..i] + lane.queue[i + 1..],
                                                                lane.draining, lane.drains)]
              else outcomes == old(outcomes) && lanes == old(lanes)
    {
      hide Conserved, Lane.Has, Lane.Ordered, LeasesOk, Lane.Holds;
      Queued(n);
      aborted := aborted + {n};
      Placed(n);
      if n in outcomes { return; }
      var d := place[n];
      var index := IndexOf(lanes[d].queue, n);
      if index < |lanes[d].queue| {
        LaneIs(d);
        var rest := lanes[d].(queue := lanes[d].queue[..index] + lanes[d].queue[index + 1..]);
        Removed(lanes[d], index);
        SameDrains(lanes[d], rest);
        SettleKeeps(lanes, outcomes, place, d, rest, n, Interrupted);
        LeasesStay(lanes, leases, unreleased, d, rest);
        lanes := lanes[d := rest];
        outcomes := outcomes[n := Interrupted];
      }
    }

    /** An operation waits once, and in the lane of its directory only. */
    lemma Queued(n: nat)
      requires Conserved(lanes, outcomes, place) && n in place
      ensures forall d | d in lanes :: n in lanes[d].queue ==> d == place[n] && n !in outcomes
      ensures forall d, i | d in lanes && 0 <= i < |lanes[d].queue| && lanes[d].queue[i] == n ::
                n !in lanes[d].queue[..i] + lanes[d].queue[i + 1..]
    {
      forall d | d in lanes ensures n in lanes[d].queue ==> d == place[n] && n !in outcomes {
        LaneIs(d);
        assert n in lanes[d].queue ==> lanes[d].Has(n);
      }
      forall d, i | d in lanes && 0 <= i < |lanes[d].queue| && lanes[d].queue[i] == n
        ensures n !in lanes[d].queue[..i] + lanes[d].queue[i + 1..]
      {
        LaneIs(d);
        assert forall j | 0 <= j < |lanes[d].queue| && j != i :: lanes[d].queue[j] != n;
      }
    }

    lemma Placed(n: nat)
      requires Conserved(lanes, outcomes, place) && n in place
      ensures n !in outcomes ==> place[n] in lanes && lanes[place[n]].Has(n)
    {
    }

    method IndexOf(queue: seq<nat>, n: nat) returns (index: nat)
      ensures index <= |queue| && n !in queue[..index] && (index < |queue| ==> queue[index] == n)
      ensures index == |queue| <==> n !in queue
    {
      index := 0;
      while index < |queue| && queue[index] != n
        invariant index <= |queue| && n !in queue[..index]
      {
        index := index + 1;
      }
      assert queue[..|queue|] == queue;
    }

    /** The lease has been obtained. */
    method Hold(d: Dir, k: nat)
      requires Valid() && d in lanes && k in lanes[d].drains && lanes[d].drains[k].Acquiring?
      modifies `lanes, `leases
      ensures Valid() && lanes == old(lanes)[d := old(lanes)[d].In(k, Holding(old(lanes)[d].drains[k].node))]
      ensures leases == old(leases) + {old(lanes)[d].drains[k].node}
    {
      hide Conserved, Lane.Has, Lane.Ordered, LeasesOk, Lane.Holds;
      LaneIs(d);
      var n := lanes[d].drains[k].node;
      var next := lanes[d].In(k, Holding(n));
      Phased(lanes[d], k, Holding(n));
      HoldsOne(lanes[d], k);
      HoldsOne(next, k);
      OneDrain(lanes[d], k);
      LaneKeeps(lanes, outcomes, place, d, next);
      LeaseTaken(lanes, leases, unreleased, d, next, n);
      lanes := lanes[d := next];
      leases := leases + {n};
    }

    /** The lease is given back, if that works; the operation is not settled yet. */
    method GiveBack(d: Dir, k: nat, released: bool)
      requires Valid() && d in lanes && k in lanes[d].drains && lanes[d].drains[k].Holding?
      modifies `lanes, `leases
      ensures Running(Some(d))
      ensures lanes == old(lanes)[d := old(lanes)[d].In(k, Returned(old(lanes)[d].drains[k].node, released))]
      ensures leases == if released then old(leases) - {old(lanes)[d].drains[k].node} else old(leases)
      ensures old(lanes)[d].drains[k].node !in outcomes
    {
      hide Conserved, Lane.Has, Lane.Ordered, LeasesOk, Lane.Holds;
      LaneIs(d);
      var n := lanes[d].drains[k].node;
      var next := lanes[d].In(k, Returned(n, released));
      Vacated(lanes[d], k);
      Phased(lanes[d], k, Returned(n, released));
      HoldsOne(lanes[d], k);
      HoldsOne(next, k);
      OnlyHere(d, n);
      LaneKeeps(lanes, outcomes, place, d, next);
      if released {
        LeaseLeft(lanes, leases, unreleased, d, next, n);
        leases := leases - {n};
      } else {
        LeasesStay(lanes, leases, unreleased, d, next);
      }
      lanes := lanes[d := next];
    }

    lemma NotHeld(d: Dir, k: nat)
      requires Valid() && d in lanes && k in lanes[d].drains && lanes[d].drains[k].Acquiring?
      ensures lanes[d].drains[k].node !in leases
    {
      var n := lanes[d].drains[k].node;
      LaneIs(d);
      assert lanes[d].drains[k].Has(n);
      assert lanes[d].Has(n);
      OnlyHere(d, n);
      HoldsOne(lanes[d], k);
    }

    lemma Unrested(d: Dir)
      requires Running(None) || Running(Some(d))
      ensures Running(Some(d))
    {
    }

    /** The lease of the directory was obtained, or not.  An operation that was aborted meanwhile
        is not called. */
    method LeaseAnswered(d: Dir, k: nat, acquired: bool, release: Release)
      requires Valid() && d in lanes && k in lanes[d].drains && lanes[d].drains[k].Acquiring?
      modifies `lanes, `leases, `outcomes, `unreleased, `begun
      ensures Valid()
      ensures var n := old(lanes)[d].drains[k].node;
              if acquired && n !in aborted then
                lanes == old(lanes)[d := old(lanes)[d].In(k, Holding(n))] && begun == old(begun) + {n}
                && leases == old(leases) + {n} && outcomes == old(outcomes)
              else
                begun == old(begun) && n !in old(outcomes)
                && outcomes == old(outcomes)[n := if n in aborted then Interrupted else Rejected]
                && lanes == Rest(old(lanes), d, k)
                && if acquired && !release.AtOnce?
                   then leases == old(leases) + {n} && unreleased == old(unreleased) + {n}
                   else leases == old(leases) && unreleased == old(unreleased)
    {
      hide Running;
      var n := lanes[d].drains[k].node;
      NotHeld(d, k);
      if acquired {
        Hold(d, k);
        if n !in aborted {
          begun := begun + {n};
          return;
        }
        GiveBack(d, k, release.AtOnce?);
      }
      Unrested(d);
      Settle(d, k, if n in aborted then Interrupted else Rejected);
      Continue(d, k);
    }

    /** The operation has ended; `release` tells how giving back its lease goes.  It is tried again
        only after an operation that would have succeeded. */
    method OperationEnded(d: Dir, k: nat, ok: bool, release: Release)
      requires Valid() && d in lanes && k in lanes[d].drains && lanes[d].drains[k].Holding?
      modifies `lanes, `leases, `outcomes, `unreleased
      ensures Valid()
      ensures var n := old(lanes)[d].drains[k].node;
              n !in old(outcomes)
              && outcomes == old(outcomes)[n := if n in aborted then Interrupted
                                                else if ok && release.AtOnce? then Resolved else Rejected]
              && lanes == Rest(old(lanes), d, k)
              && if release.AtOnce? || (release.Again? && ok && n !in aborted)
                 then leases == old(leases) - {n} && unreleased == old(unreleased)
                 else leases == old(leases) && unreleased == old(unreleased) + {n}
    {
      hide Running;
      var n := lanes[d].drains[k].node;
      var well := ok && n !in aborted;
      GiveBack(d, k, release.AtOnce? || (release.Again? && well));
      Settle(d, k, if n in aborted then Interrupted else if well && release.AtOnce? then Resolved else Rejected);
      Continue(d, k);
    }

    /** Of each directory at most one drain runs and at most one lease is held; whatever is settled
        has no lease, unless it could not be given back. */
    lemma OneAtATime()
      requires Valid()
      ensures forall d | d in lanes :: lanes[d].Serial()
      ensures forall n | n in outcomes :: n !in leases || n in unreleased
      ensures forall m, n | m in leases - unreleased && n in leases - unreleased ::
                m in place && n in place && (place[m] == place[n] ==> m == n)
    {
      forall d | d in lanes ensures lanes[d].Serial() { LaneIs(d); }
      forall n | n in leases - unreleased
        ensures n in place && n !in outcomes && place[n] in lanes && lanes[place[n]].Holds(n)
      {
        var d :| d in lanes && lanes[d].Holds(n);
        LaneIs(d);
        var k :| k in lanes[d].drains && (lanes[d].drains[k] == Holding(n) || lanes[d].drains[k] == Returned(n, false));
        assert lanes[d].drains[k].Has(n);
        assert lanes[d].Has(n);
      }
      forall m, n | m in leases - unreleased && n in leases - unreleased && place[m] == place[n] ensures m == n {
        LaneIs(place[m]);
        var k :| k in lanes[place[m]].drains;
        HoldsOne(lanes[place[m]], k);
      }
    }

    /** Any interleaving: one drain and one lease for each directory, and what is settled once
        stays as it is. */
    method RunAll(schedule: seq<Event>)
      requires Valid()
      modifies this
      ensures Valid() && old(place.Keys) <= place.Keys
      ensures forall d | d in lanes :: lanes[d].Serial()
      ensures forall n | n in outcomes :: n !in leases || n in unreleased
      ensures forall m, n | m in leases - unreleased && n in leases - unreleased ::
                m in place && n in place && (place[m] == place[n] ==> m == n)
      ensures forall n | n in old(outcomes) :: n in outcomes && outcomes[n] == old(outcomes)[n]
    {
      hide Valid, Lane.Serial;
      for i := 0 to |schedule|
        invariant Valid() && old(place.Keys) <= place.Keys
        invariant forall n | n in old(outcomes) :: n in outcomes && outcomes[n] == old(outcomes)[n]
      {
        Step(schedule[i]);
      }
      OneAtATime();
    }

    method Step(event: Event)
      requires Valid()
      modifies this
      ensures Valid() && old(place.Keys) <= place.Keys
      ensures forall n | n in old(outcomes) :: n in outcomes && outcomes[n] == old(outcomes)[n]
    {
      hide Running;
      match event
      case Submit(d, abortedAlready) => var _ := Run(d, abortedAlready);
      case Signal(n) => if n in place { Abort(n); }
      case LeaseAnswer(d, k, acquired, release) =>
        if d in lanes && k in lanes[d].drains && lanes[d].drains[k].Acquiring? {
          LeaseAnswered(d, k, acquired, release);
        }
      case OperationEnd(d, k, ok, release) =>
        if d in lanes && k in lanes[d].drains && lanes[d].drains[k].Holding? {
          OperationEnded(d, k, ok, release);
        }
    }

    ghost function Unsettled(): set<nat>
      reads `place, `outcomes
    {
      place.Keys - outcomes.Keys
    }

    ghost function Asking(): set<Dir>
      reads `lanes
    {
      set d | d in lanes && exists k :: k in lanes[d].drains && lanes[d].drains[k].Acquiring?
    }

    /** Every lane has a drain, and that waits for a lease or for its operation. */
    lemma SomeDrain(d: Dir)
      requires Valid() && d in lanes
      ensures lanes[d].drains != map[]
      ensures forall k | k in lanes[d].drains :: lanes[d].drains[k].Acquiring? || lanes[d].drains[k].Holding?
      ensures forall k | k in lanes[d].drains :: lanes[d].drains[k].node in Unsettled()
      ensures forall k, l | k in lanes[d].drains && l in lanes[d].drains :: k == l
    {
      LaneIs(d);
      assert lanes[d].Resting();
      forall k | k in lanes[d].drains ensures lanes[d].drains[k].node in Unsettled() {
        assert lanes[d].drains[k].Has(lanes[d].drains[k].node);
        assert lanes[d].Has(lanes[d].drains[k].node);
      }
    }

    lemma AllSettled()
      requires Valid() && lanes == map[]
      ensures place.Keys <= outcomes.Keys && leases == unreleased
    {
      forall n | n in place ensures n in outcomes { Placed(n); }
      assert forall n :: !HeldIn(lanes, n);
    }

    /** However the requests for leases are answered and the operations end, every operation that
        was submitted is settled and no lane is left. */
    method SettleAll()
      requires Valid()
      modifies `lanes, `leases, `outcomes, `unreleased, `begun
      ensures Valid() && lanes == map[] && place.Keys <= outcomes.Keys && leases == unreleased
      ensures forall n | n in old(outcomes) :: n in outcomes && outcomes[n] == old(outcomes)[n]
    {
      hide Running;
      while lanes != map[]
        invariant Valid()
        invariant forall n | n in old(outcomes) :: n in outcomes && outcomes[n] == old(outcomes)[n]
        decreases Unsettled(), Asking()
      {
        var d :| d in lanes;
        SomeDrain(d);
        var k :| k in lanes[d].drains;
        ghost var was, asking := Unsettled(), Asking();
        var well: bool := *;
        var release: Release := *;
        if lanes[d].drains[k].Acquiring? {
          LeaseAnswered(d, k, well, release);
          assert Unsettled() == was ==> d in asking && d !in Asking() && Asking() <= asking;
        } else {
          OperationEnded(d, k, well, release);
        }
      }
      AllSettled();
    }
  }

  lemma NothingHeld(lane: Lane, k: nat)
    requires lane.Ordered() && !lane.draining
    ensures forall n :: !lane.Holds(n) && !lane.(draining := true).In(k, Between).Holds(n)
  {
    var next := lane.(draining := true).In(k, Between);
    assert lane.drains == map[];
    assert forall l | l in next.drains :: next.drains[l].Between?;
  }

  lemma OneDrain(lane: Lane, k: nat)
    requires lane.Ordered() && k in lane.drains
    ensures lane.draining && forall l | l in lane.drains :: l == k
  {
  }

  lemma SameDrains(lane: Lane, rest: Lane)
    requires rest.drains == lane.drains
    ensures forall m :: rest.Holds(m) <==> lane.Holds(m)
    ensures rest.draining == lane.draining ==> (rest.Resting() <==> lane.Resting())
  {
  }
}
