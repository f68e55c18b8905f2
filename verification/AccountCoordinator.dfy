/**
 Serial lanes: one for lifecycle work, and one for the credential generations of each account
 that has work pending.  A lane is dropped when it runs empty and made again when needed.  A
 lifecycle job may enter a generation lane itself, and then ends after the job it put there.
 */
module AccountCoordinator {
  import opened Options

  type AccountId = string

  /** The jobs that run in a lane and those that wait there, in order. */
  datatype Line = Line(running: set<nat>, queue: seq<nat>) {
    /** At most one runs, nobody queues behind nothing, and jobs run in the order in which they
        came. */
    ghost predicate Ordered() {
      (queue != [] ==> running != {})
      && (forall j, k | j in running && k in running :: j == k)
      && (forall i, j | 0 <= i < j < |queue| :: queue[i] < queue[j])
      && (forall j, i | j in running && 0 <= i < |queue| :: j < queue[i])
    }

    predicate Has(j: nat) {
      j in running || j in queue
    }

    function Members(): (r: set<nat>)
      ensures forall j :: j in r <==> Has(j)
    {
      (set j | j in queue) + running
    }
  }

  datatype Job = OfLifecycle(number: nat) | OfGeneration(account: AccountId, number: nat)

  /** All lanes at one moment, with the generation job that the running lifecycle job awaits. */
  datatype Work = Work(lifecycle: Line, generations: map<AccountId, Line>, nested: Option<(AccountId, nat)>) {
    function LineOf(h: Job): Line {
      match h
      case OfLifecycle(_) => lifecycle
      case OfGeneration(a, _) => if a in generations then generations[a] else Line({}, [])
    }

    predicate Pending(h: Job) {
      LineOf(h).Has(h.number)
    }

    predicate Running(h: Job) {
      h.number in LineOf(h).running
    }

    function Jobs(): (r: set<Job>)
      ensures forall h :: h in r <==> Pending(h)
    {
      (set j | j in lifecycle.Members() :: OfLifecycle(j))
      + (set a, j | a in generations && j in generations[a].Members() :: OfGeneration(a, j))
    }

    /** A queued job waits for the one that runs in its lane and for those queued before it; a
        running lifecycle job waits for the generation job it has entered. */
    ghost predicate WaitsFor(h: Job, g: Job) {
      Pending(h) && Pending(g)
      && if Running(h)
         then h.OfLifecycle? && nested.Some? && g == OfGeneration(nested.value.0, nested.value.1)
         else SameLane(h, g) && (Running(g) || Before(LineOf(h).queue, g.number, h.number))
    }

    /** Runs and waits for nothing. */
    ghost predicate Free(h: Job) {
      Running(h) && forall g :: !WaitsFor(h, g)
    }

    /** Each job waits for the next. */
    ghost predicate Chain(path: seq<Job>) {
      forall i | 0 <= i < |path| - 1 :: WaitsFor(path[i], path[i + 1])
    }

    /** What is awaited is still there, and so is the lifecycle job that awaits it. */
    predicate Awaits() {
      nested.Some? ==> lifecycle.running != {} && Pending(OfGeneration(nested.value.0, nested.value.1))
    }

    ghost predicate Sound(bound: nat) {
      LineOk(lifecycle, bound)
      && (forall a | a in generations :: LineOk(generations[a], bound) && generations[a].running != {})
      && Awaits()
    }
  }

  ghost predicate LineOk(line: Line, bound: nat) {
    line.Ordered() && forall j: nat | line.Has(j) :: j < bound
  }

  predicate SameLane(h: Job, g: Job) {
    if h.OfLifecycle? then g.OfLifecycle? else g.OfGeneration? && h.account == g.account
  }

  ghost predicate Before(queue: seq<nat>, first: nat, second: nat) {
    exists i, j :: 0 <= i < j < |queue| && queue[i] == first && queue[j] == second
  }

  /** Jobs wait only for jobs of a lower rank: lifecycle jobs rank above all generation jobs. */
  function Rank(h: Job, bound: nat): nat {
    if h.OfLifecycle? then bound + h.number else h.number
  }

  lemma WaitingRanksHigher(w: Work, bound: nat, h: Job, g: Job)
    requires w.Sound(bound) && w.WaitsFor(h, g)
    ensures Rank(g, bound) < Rank(h, bound)
  {
    assert w.LineOf(h).Ordered();
  }

  /** No job waits for itself, through however many others. */
  lemma {:induction false} NoCycle(w: Work, bound: nat, path: seq<Job>)
    requires w.Sound(bound) && |path| >= 2 && w.Chain(path)
    ensures Rank(path[|path| - 1], bound) < Rank(path[0], bound)
    ensures path[|path| - 1] != path[0]
  {
    var last := |path| - 1;
    assert w.WaitsFor(path[last - 1], path[last]);
    WaitingRanksHigher(w, bound, path[last - 1], path[last]);
    if |path| > 2 { NoCycle(w, bound, path[..last]); }
  }

  /** Whatever a pending job waits for, there is a running job at the end that waits for nothing. */
  lemma {:induction false} Unblocked(w: Work, bound: nat, h: Job) returns (path: seq<Job>)
    requires w.Sound(bound) && w.Pending(h)
    ensures path != [] && path[0] == h && w.Chain(path)
    ensures w.Free(path[|path| - 1])
    decreases Rank(h, bound)
  {
    path := [h];
    if w.Running(h) && !(h.OfLifecycle? && w.nested.Some?) { return; }
    var g: Job;
    if w.Running(h) {
      g := OfGeneration(w.nested.value.0, w.nested.value.1);
    } else {
      var j :| j in w.LineOf(h).running;
      g := if h.OfLifecycle? then OfLifecycle(j) else OfGeneration(h.account, j);
    }
    assert w.WaitsFor(h, g);
    WaitingRanksHigher(w, bound, h, g);
    var rest := Unblocked(w, bound, g);
    path := [h] + rest;
    assert forall i | 0 <= i < |path| - 1 :: path[i] == if i == 0 then h else rest[i - 1];
  }

  function Updated(generations: map<AccountId, Line>, a: AccountId, line: Line): map<AccountId, Line> {
    if line.running == {} then generations - {a} else generations[a := line]
  }

  /** A job has entered a generation lane. */
  lemma EnteringAdds(w: Work, v: Work, a: AccountId, line: Line, job: nat)
    requires w.Awaits() && v == w.(generations := Updated(w.generations, a, line))
    requires line.running != {}
    requires forall j :: line.Has(j) <==> w.LineOf(OfGeneration(a, job)).Has(j) || j == job
    ensures v.Awaits() && v.Jobs() == w.Jobs() + {OfGeneration(a, job)}
  {
    hide Line.Has, Work.Jobs;
    assert forall h :: v.Pending(h) <==> w.Pending(h) || h == OfGeneration(a, job);
  }

  /** A job has left its generation lane, and is not awaited any more. */
  lemma LeavingRemoves(w: Work, v: Work, a: AccountId, line: Line, job: nat)
    requires w.Awaits() && a in w.generations && (line.running == {} ==> line.queue == [])
    requires forall j :: line.Has(j) <==> w.generations[a].Has(j) && j != job
    requires v == w.(generations := Updated(w.generations, a, line),
                     nested := if w.nested == Some((a, job)) then None else w.nested)
    ensures v.Awaits() && v.Jobs() == w.Jobs() - {OfGeneration(a, job)}
  {
    hide Work.Jobs;
    forall h ensures v.Pending(h) <==> w.Pending(h) && h != OfGeneration(a, job) {
      if h.OfGeneration? && h.account == a {
        assert v.LineOf(h).Has(h.number) <==> line.Has(h.number);
      }
    }
  }

  /** Jobs of the lifecycle lane come and go beside the others. */
  lemma LifecycleChanges(w: Work, v: Work, job: nat)
    requires v.generations == w.generations
    ensures (forall j :: v.lifecycle.Has(j) <==> w.lifecycle.Has(j) || j == job) ==>
              v.Jobs() == w.Jobs() + {OfLifecycle(job)}
    ensures (forall j :: v.lifecycle.Has(j) <==> w.lifecycle.Has(j) && j != job) ==>
              v.Jobs() == w.Jobs() - {OfLifecycle(job)}
    ensures v.lifecycle == w.lifecycle ==> v.Jobs() == w.Jobs()
  {
    hide Line.Has, Work.Jobs;
    assert forall h: Job | h.OfGeneration? :: v.Pending(h) <==> w.Pending(h);
    assert forall h: Job | h.OfLifecycle? :: v.Pending(h) <==> v.lifecycle.Has(h.number);
    assert forall h: Job | h.OfLifecycle? :: w.Pending(h) <==> w.lifecycle.Has(h.number);
  }

  /** Taking one queued job out keeps the order, and takes out no other. */
  lemma OneLess(line: Line, queue: seq<nat>, index: nat)
    requires line.Ordered() && index < |line.queue|
    requires queue == line.queue[..index] + line.queue[index + 1..]
    ensures line.(queue := queue).Ordered() && line.queue[index] !in queue
    ensures forall j :: line.(queue := queue).Has(j) <==> line.Has(j) && j != line.queue[index]
  {
    Spliced(line.queue, queue, index);
    forall i, j | 0 <= i < j < |queue| ensures queue[i] < queue[j] {
      assert queue[i] == line.queue[if i < index then i else i + 1];
      assert queue[j] == line.queue[if j < index then j else j + 1];
    }
    forall i | 0 <= i < |queue| ensures queue[i] != line.queue[index] {
      assert queue[i] == line.queue[if i < index then i else i + 1];
    }
  }

  lemma Spliced(was: seq<nat>, queue: seq<nat>, index: nat)
    requires index < |was| && queue == was[..index] + was[index + 1..]
    ensures forall j :: j in was <==> j in queue || j == was[index]
  {
    assert was == was[..index] + [was[index]] + was[index + 1..];
  }

  class CoordinationLane {
    var active: bool
    var queue: seq<nat>
    var running: set<nat> // the jobs that were admitted and have not ended

    ghost function Now(): Line
      reads this
    {
      Line(running, queue)
    }

    /** The flag says whether a job runs, and never lets a second one start. */
    ghost predicate Valid()
      reads this
    {
      Now().Ordered() && (active <==> running != {})
    }

    function Pending(): nat
      reads this
    {
      |queue| + if active then 1 else 0
    }

    constructor ()
      ensures Valid() && !active && queue == [] && forall j :: !Now().Has(j)
    {
      active, queue, running := false, [], {};
    }

    /** Starts the job if the lane is free, and queues it otherwise. */
    method Enter(job: nat)
      requires Valid() && forall j: nat | Now().Has(j) :: j < job
      modifies `active, `queue, `running
      ensures Valid() && active && Pending() == old(Pending()) + 1
      ensures forall j :: Now().Has(j) <==> old(Now()).Has(j) || j == job
      ensures if !old(active) then running == {job} && queue == []
              else running == old(running) && queue == old(queue) + [job]
    {
      if active {
        assert (forall j | j in running :: Now().Has(j)) && forall i | 0 <= i < |queue| :: Now().Has(queue[i]);
        assert forall j :: j in queue + [job] <==> j in queue || j == job;
        queue := queue + [job];
        return;
      }
      active := true;
      Admit(job);
    }

    /** The work of a job begins. */
    method Admit(job: nat)
      modifies `running
      ensures running == old(running) + {job}
    {
      running := running + {job};
    }

    /** A job has ended, well or not; the longest waiting one takes over. */
    method Finish(job: nat)
      requires Valid() && job in running
      modifies this
      ensures Valid() && Pending() == old(Pending()) - 1
      ensures forall j :: Now().Has(j) <==> old(Now()).Has(j) && j != job
      ensures if old(queue) == [] then !active && running == {} && queue == []
              else running == {old(queue)[0]} && queue == old(queue)[1..]
    {
      running := running - {job};
      active := false;
      if queue != [] {
        active := true;
        var next := queue[0];
        queue := queue[1..];
        Admit(next);
      }
    }

    /** A queued job is aborted; one that runs is not touched. */
    method Abort(job: nat)
      requires Valid()
      modifies `queue
      ensures Valid() && job !in queue && Pending() <= old(Pending())
      ensures forall j :: Now().Has(j) <==> old(Now()).Has(j) && (j != job || job !in old(queue))
      ensures forall i | 0 <= i < |old(queue)| && old(queue)[i] == job ::
                queue == old(queue)[..i] + old(queue)[i + 1..]
      ensures job !in old(queue) ==> queue == old(queue)
    {
      var index := 0;
      while index < |queue| && queue[index] != job
        invariant 0 <= index <= |queue| && job !in queue[..index]
      {
        index := index + 1;
      }
      if index < |queue| {
        OneLess(Now(), queue[..index] + queue[index + 1..], index);
        queue := queue[..index] + queue[index + 1..];
      }
    }
  }

  datatype Event =
    | EnterLifecycle(aborted: bool)
    | EnterGeneration(account: AccountId, aborted: bool)
    | EnterNested(account: AccountId, aborted: bool)
    | LeaveLifecycle(job: nat)
    | LeaveGeneration(account: AccountId, job: nat)
    | AbandonLifecycle(job: nat)
    | AbandonGeneration(account: AccountId, job: nat)
    | StopAll
    | AwaitDrain(id: nat)

  ghost predicate Within(a: map<AccountId, CoordinationLane>, b: map<AccountId, CoordinationLane>) {
    forall k | k in a :: k in b && a[k] == b[k]
  }

  datatype Entered = Admitted(lane: CoordinationLane, job: nat) | ShutDown | Aborted

  class AccountCoordinator {
    const lifecycle: CoordinationLane
    var generations: map<AccountId, CoordinationLane>
    var nested: Option<(AccountId, nat)> // what the running lifecycle job awaits
    var stopped: bool
    var issued: nat
    var drainWaiters: set<nat>
    var drained: set<nat>                // the drains that have been resolved
    ghost var owner: map<CoordinationLane, AccountId>  // every generation lane ever made

    ghost function Now(): Work
      reads `generations, `nested, lifecycle, generations.Values
    {
      Work(lifecycle.Now(), map a | a in generations :: generations[a].Now(), nested)
    }

    /** Of all the lanes ever made for an account only the current one can have work pending. */
    ghost predicate LanesOk()
      reads `owner, `generations, `issued, owner.Keys
    {
      (forall l | l in owner :: l.Valid() && LineOk(l.Now(), issued) && (l.Pending() > 0 <==> Current(l)))
      && (forall a | a in generations :: generations[a] in owner && owner[generations[a]] == a)
    }

    ghost predicate Current(l: CoordinationLane)
      requires l in owner
      reads `generations, `owner
    {
      owner[l] in generations && generations[owner[l]] == l
    }

    ghost predicate LifecycleOk()
      reads `issued, `owner, lifecycle
    {
      lifecycle !in owner && lifecycle.Valid() && LineOk(lifecycle.Now(), issued)
    }

    predicate Idle()
      reads `generations, lifecycle
    {
      lifecycle.Pending() == 0 && generations == map[]
    }

    ghost predicate Valid()
      reads this, lifecycle, owner.Keys, generations.Values
    {
      LanesOk() && LifecycleOk() && Now().Awaits()
      && (drainWaiters != {} ==> !Idle()) && drainWaiters !! drained
    }

    constructor ()
      ensures Valid() && !stopped && Idle()
    {
      lifecycle := new CoordinationLane();
      generations, nested, stopped, issued, owner := map[], None, false, 0, map[];
      drainWaiters, drained := {}, {};
    }

    method WithLifecycle(aborted: bool) returns (r: Entered)
      requires Valid()
      modifies `issued, lifecycle
      ensures Valid()
      ensures r.ShutDown? <==> stopped
      ensures r.Aborted? <==> !stopped && aborted
      ensures r.Admitted? ==> r.lane == lifecycle && r.job == old(issued)
                              && Now().Jobs() == old(Now().Jobs()) + {OfLifecycle(r.job)}
      ensures r.Admitted? ==>
                if old(lifecycle.active)
                then lifecycle.running == old(lifecycle.running) && lifecycle.queue == old(lifecycle.queue) + [r.job]
                else lifecycle.running == {r.job} && lifecycle.queue == []
      ensures !r.Admitted? ==> unchanged(lifecycle)
    {
      hide LanesOk;
      if stopped { return ShutDown; }
      if aborted { return Aborted; }
      r := Admitted(lifecycle, issued);
      lifecycle.Enter(issued);
      issued := issued + 1;
      IssueKeeps();
      LifecycleChanges(old(Now()), Now(), r.job);
    }

    twostate lemma IssueKeeps()
      requires old(LanesOk()) && old(lifecycle !in owner)
      requires owner == old(owner) && generations == old(generations) && issued >= old(issued)
      requires forall l | l in owner :: unchanged(l)
      ensures LanesOk() && Now().generations == old(Now().generations)
    {
      hide Line.Ordered, Line.Has;
    }

    /** Uses the account's lane, and makes one if it has none. */
    method WithCredentialGeneration(a: AccountId, aborted: bool) returns (r: Entered)
      requires Valid()
      modifies `generations, `issued, `owner, owner.Keys
      ensures Valid() && fresh(owner.Keys - old(owner.Keys))
      ensures r.ShutDown? <==> stopped
      ensures r.Aborted? <==> !stopped && aborted
      ensures r.Admitted? ==> r.job == old(issued) && a in generations && generations[a] == r.lane
                              && generations == old(generations)[a := r.lane]
                              && (a in old(generations) ==> r.lane == old(generations)[a])
                              && Now().Jobs() == old(Now().Jobs()) + {OfGeneration(a, r.job)}
      ensures r.Admitted? ==>
                if a in old(generations)
                then r.lane.running == old(generations[a].running) && r.lane.queue == old(generations[a].queue) + [r.job]
                else r.lane.running == {r.job} && r.lane.queue == []
      ensures forall l | l in old(owner) && !(r.Admitted? && l == r.lane) :: unchanged(l)
      ensures !r.Admitted? ==> generations == old(generations) && owner == old(owner)
                               && forall l | l in owner :: unchanged(l)
    {
      hide LanesOk, Line.Ordered, Line.Has, Work.Jobs, Work.Awaits, Updated;
      if stopped { return ShutDown; }
      if aborted { return Aborted; }
      var lane: CoordinationLane;
      if a in generations {
        lane := generations[a];
        CurrentIsOwned(a);
      } else {
        lane := new CoordinationLane();
        generations := generations[a := lane];
        owner := owner[lane := a];
      }
      r := Admitted(lane, issued);
      lane.Enter(issued);
      issued := issued + 1;
      EnterKeeps(a, lane);
      EnteringAdds(old(Now()), Now(), a, lane.Now(), r.job);
    }

    lemma CurrentIsOwned(a: AccountId)
      requires LanesOk() && a in generations
      ensures generations[a] in owner && owner[generations[a]] == a
      ensures generations[a].Valid() && LineOk(generations[a].Now(), issued) && generations[a].running != {}
    {
      assert Current(generations[a]);
    }

    twostate lemma EnterKeeps(a: AccountId, new lane: CoordinationLane)
      requires old(LanesOk()) && issued == old(issued) + 1
      requires lane.Valid() && LineOk(lane.Now(), issued) && lane.active
      requires owner == old(owner)[lane := a] && generations == old(generations)[a := lane]
      requires a in old(generations) ==> lane == old(generations)[a] && lane in old(owner)
      requires a !in old(generations) ==> lane !in old(owner)
      requires forall l | l in old(owner) && l != lane :: unchanged(l)
      ensures LanesOk() && Now().generations == Updated(old(Now()).generations, a, lane.Now())
    {
      hide Line.Ordered, Line.Has;
      OthersStay(a, lane);
      LanesShow(a, lane);
      forall l | l in owner ensures LineOk(l.Now(), issued) && (l.Pending() > 0 <==> Current(l)) {
        if l != lane { assert l in old(owner) && unchanged(l); }
      }
    }

    /** Only the account's own line has changed. */
    twostate lemma LanesShow(a: AccountId, new lane: CoordinationLane)
      requires generations == if lane.running == {} then old(generations) - {a} else old(generations)[a := lane]
      requires forall b | b in old(generations) && b != a :: old(generations)[b].Now() == old(generations[b].Now())
      ensures Now().generations == Updated(old(Now()).generations, a, lane.Now())
    {
      var v, w := Now().generations, Updated(old(Now()).generations, a, lane.Now());
      assert v.Keys == w.Keys;
      forall b | b in v ensures v[b] == w[b] {
        if b != a { assert generations[b] == old(generations)[b]; }
      }
    }

    twostate lemma OthersStay(a: AccountId, new lane: CoordinationLane)
      requires old(LanesOk()) && (a in old(generations) ==> lane == old(generations)[a])
      requires a in old(generations) || lane !in old(owner)
      requires forall l | l in old(owner) && l != lane :: unchanged(l)
      ensures forall b | b in old(generations) && b != a :: old(generations)[b].Now() == old(generations[b].Now())
    {
      hide Line.Ordered, Line.Has;
      forall b | b in old(generations) && b != a
        ensures old(generations)[b].Now() == old(generations[b].Now())
      {
        assert old(owner)[old(generations)[b]] == b;
      }
    }

    /** A lifecycle job enters a generation lane and awaits its turn there. */
    method EnterNested(a: AccountId, aborted: bool) returns (r: Entered)
      requires Valid() && lifecycle.active && nested.None?
      modifies `generations, `issued, `owner, `nested, owner.Keys
      ensures Valid() && fresh(owner.Keys - old(owner.Keys))
      ensures r.ShutDown? <==> stopped
      ensures r.Aborted? <==> !stopped && aborted
      ensures if r.Admitted? then nested == Some((a, r.job)) else nested.None?
      ensures r.Admitted? ==> r.job == old(issued) && generations == old(generations)[a := r.lane]
                              && (a in old(generations) ==> r.lane == old(generations)[a])
                              && Now().Jobs() == old(Now().Jobs()) + {OfGeneration(a, r.job)}
      ensures r.Admitted? ==>
                if a in old(generations)
                then r.lane.running == old(generations[a].running) && r.lane.queue == old(generations[a].queue) + [r.job]
                else r.lane.running == {r.job} && r.lane.queue == []
      ensures forall l | l in old(owner) && !(r.Admitted? && l == r.lane) :: unchanged(l)
      ensures !r.Admitted? ==> generations == old(generations) && owner == old(owner)
                               && forall l | l in owner :: unchanged(l)
    {
      hide LanesOk, Line.Ordered, Line.Has, Work.Jobs;
      r := WithCredentialGeneration(a, aborted);
      if r.Admitted? {
        assert OfGeneration(a, r.job) in Now().Jobs();
        nested := Some((a, r.job));
      }
    }

    /** A generation job has ended; an empty lane is dropped, a lifecycle job that awaited it
        goes on, and drains may be over. */
    method FinishGeneration(a: AccountId, job: nat)
      requires Valid() && a in generations && job in generations[a].running
      modifies `generations, `nested, `drainWaiters, `drained, generations[a]
      ensures Valid() && Within(generations, old(generations))
      ensures a in generations <==> old(generations[a].queue) != []
      ensures nested == if old(nested) == Some((a, job)) then None else old(nested)
      ensures Now().Jobs() == old(Now().Jobs()) - {OfGeneration(a, job)}
      ensures drained + drainWaiters == old(drained + drainWaiters) && (drained != old(drained) ==> Idle())
    {
      hide LanesOk, Line.Ordered, Line.Has, Work.Jobs, Work.Awaits;
      CurrentIsOwned(a);
      Vacate(a, job);
      Changed();
    }

    method Vacate(a: AccountId, job: nat)
      requires LanesOk() && Now().Awaits() && a in generations && job in generations[a].running
      requires lifecycle !in owner && generations[a] in owner
      requires generations[a].Valid() && LineOk(generations[a].Now(), issued)
      modifies `generations, `nested, generations[a]
      ensures LanesOk() && Now().Awaits() && Within(generations, old(generations))
      ensures a in generations <==> old(generations[a].queue) != []
      ensures nested == if old(nested) == Some((a, job)) then None else old(nested)
      ensures Now().Jobs() == old(Now().Jobs()) - {OfGeneration(a, job)}
    {
      hide LanesOk, Line.Ordered, Line.Has, Work.Jobs, Work.Awaits;
      var lane := generations[a];
      ghost var w := Now();
      lane.Finish(job);
      if lane.Pending() == 0 { generations := generations - {a}; }
      if nested == Some((a, job)) { nested := None; }
      LeaveKeeps(a, lane);
      LeavingRemoves(w, Now(), a, lane.Now(), job);
    }

    /** The job has left its lane, which is dropped if that was the last. */
    twostate lemma LeaveKeeps(a: AccountId, new lane: CoordinationLane)
      requires old(LanesOk()) && owner == old(owner) && issued == old(issued)
      requires a in old(generations) && lane == old(generations)[a]
      requires lane in owner && lane.Valid() && LineOk(lane.Now(), issued) && (lane.running == {} <==> lane.Pending() == 0)
      requires generations == if lane.Pending() == 0 then old(generations) - {a} else old(generations)
      requires forall l | l in owner && l != lane :: unchanged(l)
      ensures LanesOk() && Now().generations == Updated(old(Now()).generations, a, lane.Now())
    {
      hide Line.Ordered, Line.Has;
      OthersStay(a, lane);
      LanesShow(a, lane);
    }

    /** The lifecycle job has ended, which it cannot while a job it awaits has not. */
    method FinishLifecycle(job: nat)
      requires Valid() && job in lifecycle.running && nested.None?
      modifies `drainWaiters, `drained, lifecycle
      ensures Valid() && Now().Jobs() == old(Now().Jobs()) - {OfLifecycle(job)}
      ensures drained + drainWaiters == old(drained + drainWaiters) && (drained != old(drained) ==> Idle())
    {
      hide LanesOk, Line.Ordered, Line.Has, Work.Jobs;
      lifecycle.Finish(job);
      IssueKeeps();
      LifecycleChanges(old(Now()), Now(), job);
      Changed();
    }

    method AbortGeneration(a: AccountId, job: nat)
      requires Valid() && a in generations
      modifies `nested, `drainWaiters, `drained, generations[a]
      ensures Valid() && generations[a].running == old(generations[a].running) && job !in generations[a].queue
      ensures nested == if old(nested) == Some((a, job)) && job in old(generations[a].queue) then None else old(nested)
      ensures Now().Jobs() == old(Now().Jobs()) - if job in old(generations[a].queue) then {OfGeneration(a, job)} else {}
      ensures drained + drainWaiters == old(drained + drainWaiters) && (drained != old(drained) ==> Idle())
    {
      hide LanesOk, Line.Ordered, Line.Has, Work.Jobs;
      CurrentIsOwned(a);
      if job !in generations[a].queue { return; }
      ghost var w := Now();
      if nested == Some((a, job)) { nested := None; }
      generations[a].Abort(job);
      LeaveKeeps(a, generations[a]);
      LeavingRemoves(w, Now(), a, generations[a].Now(), job);
      Changed();
    }

    method AbortLifecycle(job: nat)
      requires Valid()
      modifies `drainWaiters, `drained, lifecycle
      ensures Valid() && lifecycle.running == old(lifecycle.running) && job !in lifecycle.queue
      ensures Now().Jobs() == old(Now().Jobs()) - if job in old(lifecycle.queue) then {OfLifecycle(job)} else {}
      ensures drained + drainWaiters == old(drained + drainWaiters) && (drained != old(drained) ==> Idle())
    {
      hide LanesOk, Line.Ordered, Line.Has, Work.Jobs;
      if job !in lifecycle.queue { return; }
      lifecycle.Abort(job);
      IssueKeeps();
      LifecycleChanges(old(Now()), Now(), job);
      Changed();
    }

    /** Resolves the drains, and only when there is nothing left to wait for. */
    method Changed()
      modifies `drainWaiters, `drained
      ensures if Idle() then drainWaiters == {} && drained == old(drained) + old(drainWaiters)
              else drainWaiters == old(drainWaiters) && drained == old(drained)
    {
      if lifecycle.Pending() != 0 || generations != map[] { return; }
      drained := drained + drainWaiters;
      drainWaiters := {};
    }

    method Stop()
      requires Valid()
      modifies `stopped, `drainWaiters, `drained
      ensures Valid() && stopped && drained == old(drained) && drainWaiters == old(drainWaiters)
    {
      hide LanesOk;
      if stopped { return; }
      stopped := true;
      Changed();
    }

    method Drain(id: nat)
      requires Valid() && id !in drained && id !in drainWaiters
      modifies `drainWaiters, `drained
      ensures Valid() && drained + drainWaiters == old(drained + drainWaiters) + {id}
      ensures if Idle() then drained == old(drained) + {id} && drainWaiters == old(drainWaiters)
              else drained == old(drained) && drainWaiters == old(drainWaiters) + {id}
    {
      hide LanesOk;
      if lifecycle.Pending() == 0 && generations == map[] {
        drained := drained + {id};
      } else {
        drainWaiters := drainWaiters + {id};
      }
    }

    lemma NowIsSound()
      requires Valid()
      ensures Now().Sound(issued)
    {
      forall a | a in generations
        ensures generations[a].Valid() && LineOk(generations[a].Now(), issued) && generations[a].running != {}
      {
        CurrentIsOwned(a);
      }
    }

    /** Work is never stuck: unless there is none, some running job waits for nothing, and no
        job waits for itself. */
    lemma SomethingRuns()
      requires Valid()
      ensures Idle() || exists h :: Now().Free(h)
      ensures forall path: seq<Job> | |path| >= 2 && Now().Chain(path) :: path[|path| - 1] != path[0]
    {
      NowIsSound();
      forall path: seq<Job> | |path| >= 2 && Now().Chain(path) ensures path[|path| - 1] != path[0] {
        NoCycle(Now(), issued, path);
      }
      if lifecycle.Pending() > 0 {
        var j :| j in lifecycle.running;
        var path := Unblocked(Now(), issued, OfLifecycle(j));
      } else if generations != map[] {
        var a :| a in generations;
        CurrentIsOwned(a);
        var j :| j in generations[a].running;
        var path := Unblocked(Now(), issued, OfGeneration(a, j));
      }
    }

    /** Some job can end, unless there is none at all. */
    lemma SomeoneEnds()
      requires Valid()
      ensures Idle() <==> Now().Jobs() == {}
      ensures !Idle() ==> (lifecycle.running != {} && nested.None?) || generations != map[]
      ensures forall j | j in lifecycle.running :: OfLifecycle(j) in Now().Jobs()
      ensures forall a, j | a in generations && j in generations[a].running :: OfGeneration(a, j) in Now().Jobs()
      ensures forall a | a in generations :: generations[a].running != {}
    {
      NowIsSound();
      hide LanesOk, Work.Jobs;
      forall a, j | a in generations && j in generations[a].running ensures OfGeneration(a, j) in Now().Jobs() {
        assert Now().Pending(OfGeneration(a, j));
      }
      forall j | j in lifecycle.running ensures OfLifecycle(j) in Now().Jobs() {
        assert Now().Pending(OfLifecycle(j));
      }
      forall a | a in generations ensures generations[a].running != {} {
        assert Now().generations[a].running != {};
      }
      if Idle() { assert forall h :: !Now().Pending(h); }
      if lifecycle.Pending() > 0 {
        var j :| j in lifecycle.running;
      } else if generations != map[] {
        var a :| a in generations;
        var j :| j in generations[a].running;
        assert OfGeneration(a, j) in Now().Jobs();
      }
    }

    /** However the jobs that can end do end, all of them come to an end. */
    method FinishAll()
      requires Valid()
      modifies this, lifecycle, owner.Keys
      ensures Valid() && Idle() && Now().Jobs() == {} && stopped == old(stopped) && owner == old(owner)
      ensures drainWaiters == {} && drained == old(drained + drainWaiters)
    {
      hide LanesOk, Line.Ordered, Line.Has, Work.Jobs;
      while lifecycle.Pending() > 0 || generations != map[]
        invariant Valid() && stopped == old(stopped) && owner == old(owner)
        invariant drained + drainWaiters == old(drained + drainWaiters)
        decreases Now().Jobs()
      {
        SomeoneEnds();
        if {
          case lifecycle.running != {} && nested.None? =>
            var j :| j in lifecycle.running;
            FinishLifecycle(j);
          case generations != map[] =>
            var a :| a in generations;
            CurrentIsOwned(a);
            var j :| j in generations[a].running;
            FinishGeneration(a, j);
        }
      }
      SomeoneEnds();
    }

    /** After a stop, whatever still happens and however the jobs end, every drain is resolved. */
    method Close(schedule: seq<Event>)
      requires Valid()
      modifies this, lifecycle, owner.Keys
      ensures Valid() && stopped && Idle() && Now().Jobs() == {}
      ensures drainWaiters == {} && old(drained + drainWaiters) <= drained
    {
      hide LanesOk, Line.Ordered, Line.Has, Work.Jobs;
      Stop();
      Run(schedule);
      FinishAll();
    }

    /** Of the jobs that were started in a lane at most one has not ended, and the flag says so. */
    lemma OneRuns()
      requires Valid()
      ensures forall l | l == lifecycle || l in owner ::
                (l.active <==> l.running != {}) && forall j, k | j in l.running && k in l.running :: j == k
    {
    }

    /** Any interleaving.  In every lane at most one job runs; after a stop no lane is made and no
        job enters one. */
    method Run(schedule: seq<Event>)
      requires Valid()
      modifies this, lifecycle, owner.Keys
      ensures Valid() && Now().Sound(issued) && old(drained + drainWaiters) <= drained + drainWaiters
      ensures fresh(owner.Keys - old(owner.Keys))
      ensures forall l | l == lifecycle || l in owner ::
                (l.active <==> l.running != {}) && forall j, k | j in l.running && k in l.running :: j == k
      ensures old(stopped) ==> stopped && owner == old(owner) && Within(generations, old(generations))
                               && Now().Jobs() <= old(Now().Jobs())
    {
      hide LanesOk, Line.Ordered, Line.Has, Work.Jobs, Work.Sound;
      for i := 0 to |schedule|
        invariant Valid() && fresh(owner.Keys - old(owner.Keys))
        invariant old(drained + drainWaiters) <= drained + drainWaiters
        invariant old(stopped) ==> stopped && owner == old(owner) && Within(generations, old(generations))
                                   && Now().Jobs() <= old(Now().Jobs())
      {
        Step(schedule[i]);
      }
      NowIsSound();
      OneRuns();
    }

    method Step(event: Event)
      requires Valid()
      modifies this, lifecycle, owner.Keys
      ensures Valid() && fresh(owner.Keys - old(owner.Keys))
      ensures old(drained + drainWaiters) <= drained + drainWaiters
      ensures old(stopped) ==> stopped && owner == old(owner) && Within(generations, old(generations))
                               && Now().Jobs() <= old(Now().Jobs())
    {
      hide LanesOk, Line.Ordered, Work.Jobs;
      match event
      case EnterLifecycle(aborted) => var _ := WithLifecycle(aborted);
      case EnterGeneration(a, aborted) => var _ := WithCredentialGeneration(a, aborted);
      case EnterNested(a, aborted) =>
        if lifecycle.active && nested.None? { var _ := EnterNested(a, aborted); }
      case LeaveLifecycle(job) =>
        if job in lifecycle.running && nested.None? { FinishLifecycle(job); }
      case LeaveGeneration(a, job) =>
        if a in generations && job in generations[a].running {
          CurrentIsOwned(a);
          FinishGeneration(a, job);
        }
      case AbandonLifecycle(job) => AbortLifecycle(job);
      case AbandonGeneration(a, job) =>
        if a in generations { CurrentIsOwned(a); AbortGeneration(a, job); }
      case StopAll => Stop();
      case AwaitDrain(id) =>
        if id !in drainWaiters && id !in drained { Drain(id); }
    }
  }
}
