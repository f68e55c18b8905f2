/**
 The admission controller, under one configuration.  A request that waited is granted a slot in
 one step and resumes in a later one, and a newcomer may come in between.
 */
module Admission {

  datatype Admitted = Active(ticket: nat) | Queued(ticket: nat) | QueueFull | Aborted

  datatype Event =
    | Arrive(aborted: bool)
    | Resume(ticket: nat)
    | Release(ticket: nat)
    | GiveUp(ticket: nat)
    | Close

  function Max(a: nat, b: nat): nat {
    if a > b then a else b
  }

  class AdmissionController {
    const activeMax: nat
    const queueMax: nat
    var active: nat
    var closed: bool
    var waiters: seq<nat>
    var granted: set<nat>     // woken, but not resumed yet
    var holders: set<nat>     // resumed, and not released yet
    var issued: nat
    ghost var overbooked: bool // a newcomer was admitted when every slot was held or promised
    ghost var peak: nat        // the largest number of slots ever held or promised

    ghost predicate Valid()
      reads this
    {
      active == |holders| && granted !! holders
      && |waiters| <= queueMax
      && (waiters != [] ==> active + |granted| >= activeMax)
      && active + |granted| <= peak && (peak <= activeMax <==> !overbooked)
      && (forall t | t in holders :: t < issued)
      && (forall t | t in granted :: t < issued)
      && (forall i | 0 <= i < |waiters| ::
            waiters[i] < issued && waiters[i] !in holders && waiters[i] !in granted)
      && (forall i, j | 0 <= i < j < |waiters| :: waiters[i] < waiters[j])
      && (forall g, i | g in granted && 0 <= i < |waiters| :: g < waiters[i])
    }

    constructor (activeMax: nat, queueMax: nat)
      ensures Valid() && !closed && !overbooked && peak == 0 && this.activeMax == activeMax && this.queueMax == queueMax
      ensures holders == {} && granted == {} && waiters == [] && issued == 0
    {
      this.activeMax, this.queueMax := activeMax, queueMax;
      active, closed, waiters, granted, holders, issued, overbooked, peak := 0, false, [], {}, {}, 0, false, 0;
    }

    method Acquire(aborted: bool) returns (r: Admitted)
      requires Valid()
      modifies this
      ensures Valid() && closed == old(closed) && granted == old(granted)
      ensures r.Aborted? <==> closed || aborted
      ensures r.Active? <==> !closed && !aborted && old(active) < activeMax
      ensures r.QueueFull? <==> !closed && !aborted && old(active) >= activeMax && |old(waiters)| >= queueMax
      ensures holders == if r.Active? then old(holders) + {r.ticket} else old(holders)
      ensures waiters == if r.Queued? then old(waiters) + [r.ticket] else old(waiters)
      ensures r.Active? || r.Queued? ==> r.ticket == old(issued)
      ensures overbooked == (old(overbooked) || (r.Active? && old(active) + |old(granted)| >= activeMax))
      ensures peak == Max(old(peak), active + |granted|)
      ensures issued == old(issued) + if r.Active? || r.Queued? then 1 else 0
    {
      if closed || aborted { return Aborted; }
      if active < activeMax {
        overbooked := overbooked || active + |granted| >= activeMax;
        active := active + 1;
        r := Active(issued);
        holders := holders + {issued};
        peak := Max(peak, active + |granted|);
        issued := issued + 1;
        return;
      }
      if |waiters| >= queueMax { return QueueFull; }
      r := Queued(issued);
      waiters := waiters + [issued];
      issued := issued + 1;
    }

    /** A waiter that was woken continues, whatever happened since. */
    method Resume(ticket: nat)
      requires Valid() && ticket in granted
      modifies `active, `granted, `holders
      ensures Valid() && granted == old(granted) - {ticket} && holders == old(holders) + {ticket}
      ensures active == old(active) + 1 && |granted| == |old(granted)| - 1
    {
      active := active + 1;
      granted := granted - {ticket};
      holders := holders + {ticket};
    }

    /** Each holder releases once; the clamp at zero never matters. */
    method Release(ticket: nat)
      requires Valid() && ticket in holders
      modifies `active, `granted, `holders, `waiters
      ensures Valid() && active == old(active) - 1 && holders == old(holders) - {ticket}
      ensures if old(waiters) == [] then waiters == [] && granted == old(granted)
              else waiters == old(waiters)[1..] && granted == old(granted) + {old(waiters)[0]}
    {
      holders := holders - {ticket};
      active := if active - 1 > 0 then active - 1 else 0;
      if waiters != [] {
        var next := waiters[0];
        waiters := waiters[1..];
        granted := granted + {next};
      }
    }

    /** An abort or a timeout of a request that still waits. */
    method GiveUp(ticket: nat)
      requires Valid()
      modifies `waiters
      ensures Valid() && ticket !in waiters
      ensures ticket !in old(waiters) ==> waiters == old(waiters)
      ensures forall i | 0 <= i < |old(waiters)| && old(waiters)[i] == ticket ::
                waiters == old(waiters)[..i] + old(waiters)[i + 1..]
    {
      var index := 0;
      while index < |waiters| && waiters[index] != ticket
        invariant 0 <= index <= |waiters| && ticket !in waiters[..index]
      {
        index := index + 1;
      }
      if index < |waiters| { waiters := waiters[..index] + waiters[index + 1..]; }
    }

    method Close()
      requires Valid()
      modifies `closed, `waiters
      ensures Valid() && closed && waiters == []
    {
      closed, waiters := true, [];
    }

    /** Too many slots promised means too many requests active: nothing takes a promise back. */
    method ResumeAll()
      requires Valid()
      modifies `active, `granted, `holders
      ensures Valid() && granted == {} && holders == old(holders) + old(granted)
      ensures active > activeMax <==> old(active) + |old(granted)| > activeMax
    {
      while granted != {}
        invariant Valid() && active + |granted| == old(active) + |old(granted)|
        invariant holders + granted == old(holders) + old(granted)
        decreases |granted|
      {
        var next :| next in granted;
        Resume(next);
      }
    }

    /** Any interleaving: no waiter is stranded while a slot is free, and the slots held or
        promised stay within the limit exactly as long as no newcomer is admitted when they are
        all held or promised. */
    method Run(schedule: seq<Event>)
      requires Valid()
      modifies this
      ensures Valid() && old(peak) <= peak && active + |granted| <= peak && (old(overbooked) ==> overbooked)
      ensures peak <= activeMax <==> !overbooked
    {
      for i := 0 to |schedule|
        invariant Valid() && peak >= old(peak) && (old(overbooked) ==> overbooked)
      {
        match schedule[i]
        case Arrive(aborted) => var _ := Acquire(aborted);
        case Resume(t) => if t in granted { Resume(t); }
        case Release(t) => if t in holders { Release(t); }
        case GiveUp(t) => GiveUp(t);
        case Close => Close();
      }
    }
  }

  /** The limit is exceeded by such a newcomer: it comes between the release and the resumption
      of a waiter, and one request too many is active in the end. */
  method Overtaking() returns (c: AdmissionController)
    ensures fresh(c) && c.Valid() && c.activeMax == 1 && c.active == 2 && c.overbooked
  {
    c := new AdmissionController(1, 1);
    var first := c.Acquire(false);
    var waiting := c.Acquire(false);
    c.Release(first.ticket);
    var newcomer := c.Acquire(false);
    c.Resume(waiting.ticket);
  }
}
