/**
 Device authorization, the client side of sections 3.4 and 3.5 of RFC 8628: when the token
 endpoint may be asked, and how the polling interval grows.
 */
module DeviceFlow {
  import opened Options

  const MAX_DEVICE_FLOWS := 8
  const DEVICE_FLOW_TTL_MS := 15 * 60 * 1000
  const DEVICE_FLOW_TERMINAL_TTL_MS := 60_000

  type FlowId = nat

  datatype Status = Complete | Expired | Denied | Failed

  datatype Flow =
    | Pending(pollIntervalSeconds: int, nextPollAtMs: int, expiresAtMs: int, authorized: bool)
    | Terminal(status: Status, expiresAtMs: int)

  /** One request to the token endpoint, with the interval in force when it started. */
  datatype Exchange = Exchange(startedAtMs: int, pollIntervalSeconds: int)

  /** What is known of a flow's past: when it was to expire, its exchanges so far, how many of them
      have been answered, and which was answered with an authorization, if any. */
  datatype Past = Past(deadline: int, exchanges: seq<Exchange>, answered: nat, authorizedAt: Option<nat>)

  /** A poll in flight: when it began, when its flow was then to expire, and whether it waits for the
      token endpoint or is storing an account. */
  datatype InFlight = InFlight(startedAtMs: int, expiresAtMs: int, exchanging: bool)

  datatype Answer =
    | AuthorizationPending
    | SlowDown(pollIntervalSeconds: Option<int>)
    | Authorized
    | Refused(status: Status)
    | Thrown(permanent: bool) // the request failed, for good or for now

  datatype Event =
    | Start(nowMs: int)
    | CodeArrived(ok: bool, nowMs: int, intervalSec: int, expiresInSec: int)
    | PollFlow(id: FlowId, nowMs: int)
    | Reply(id: FlowId, answer: Answer, aborted: bool, nowMs: int)
    | Stored(id: FlowId, status: Option<Status>, nowMs: int)
    | Timer(id: FlowId, nowMs: int)
    | ForgetTimer(id: FlowId)
    | CancelFlow(id: FlowId)
    | CloseService

  datatype Polled =
    | NotFound
    | Done(status: Status)
    | Wait(pollIntervalSeconds: int, nextPollAtMs: int)
    | Exchanging
    | Resuming

  function Min(a: int, b: int): int { if a < b then a else b }

  function Max(a: int, b: int): int { if a < b then b else a }

  /** Section 3.5: requests are at least the current interval apart, the interval never shrinks,
      none is made before the one before it is answered, and none once the code has expired or the
      device is authorized. */
  ghost predicate Paced(past: Past) {
    past.answered <= |past.exchanges| <= past.answered + 1
    && (forall i | 0 <= i < |past.exchanges| ::
       past.exchanges[i].startedAtMs < past.deadline && past.exchanges[i].pollIntervalSeconds >= 1)
    && (past.authorizedAt.Some? ==> |past.exchanges| == past.authorizedAt.value + 1 == past.answered)
    && forall i, j | 0 <= i < j < |past.exchanges| ::
         past.exchanges[j].startedAtMs >= past.exchanges[i].startedAtMs + past.exchanges[j].pollIntervalSeconds * 1000
         && past.exchanges[j].pollIntervalSeconds >= past.exchanges[i].pollIntervalSeconds
  }

  /** Until it is authorized a flow keeps its deadline, and its next poll follows from its last
      exchange and the interval in force. */
  ghost predicate FlowOk(flow: Flow, past: Past) {
    (flow.Pending? ==> flow.pollIntervalSeconds >= 1 && (flow.authorized <==> past.authorizedAt.Some?))
    && (flow.Pending? && !flow.authorized ==>
      flow.expiresAtMs == past.deadline
      && (past.exchanges != [] ==>
            var last := past.exchanges[|past.exchanges| - 1];
            flow.pollIntervalSeconds >= last.pollIntervalSeconds
            && flow.nextPollAtMs == Min(flow.expiresAtMs, last.startedAtMs + flow.pollIntervalSeconds * 1000)))
  }

  function Awaiting(flows: map<FlowId, Flow>): set<FlowId> {
    set id | id in flows && flows[id].Pending?
  }

  /** The flows that are pending and have not expired. */
  function Live(flows: map<FlowId, Flow>, nowMs: int): set<FlowId> {
    set id | id in flows && flows[id].Pending? && flows[id].expiresAtMs > nowMs
  }

  function Terminals(flows: map<FlowId, Flow>): set<FlowId> {
    set id | id in flows && flows[id].Terminal?
  }

  /** The pending flows whose time is up, and the outcomes whose time is up. */
  ghost function Lapsed(flows: map<FlowId, Flow>, nowMs: int): set<FlowId> {
    set id | id in flows && flows[id].Pending? && flows[id].expiresAtMs <= nowMs
  }

  ghost function Stale(flows: map<FlowId, Flow>, nowMs: int): set<FlowId> {
    set id | id in flows && flows[id].Terminal? && flows[id].expiresAtMs <= nowMs
  }

  /** The outcome has taken the place of the flow, last in line, and of the outcomes before it only
      the oldest has made room, if there were too many. */
  ghost predicate Concluded(was: map<FlowId, Flow>, order: seq<FlowId>, flows: map<FlowId, Flow>, terminals: seq<FlowId>,
                            id: FlowId, outcome: Flow)
  {
    var kept := Filtered(order, id);
    if |kept| < 8
    then terminals == kept + [id] && flows == was[id := outcome]
    else terminals == kept[1..] + [id] && flows == (was - {kept[0]})[id := outcome]
  }

  /** Outcomes are as they were, or those of the pending flows whose time was up; only the outcomes
      whose time is up are gone, and more only if there are too many. */
  ghost predicate Collected(was: map<FlowId, Flow>, outcomes: nat, flows: map<FlowId, Flow>, nowMs: int) {
    (forall id | id in flows && flows[id].Terminal? ::
       id in was && flows[id] == if was[id].Pending? then Terminal(Expired, nowMs + 60_000) else was[id])
    && (outcomes + |Lapsed(was, nowMs)| <= 8 ==> flows.Keys == was.Keys - Stale(was, nowMs))
  }

  /** The interval has grown by five seconds, or more if more was suggested, and counts from when the
      exchange started. */
  ghost predicate Slowed(was: map<FlowId, Flow>, flows: map<FlowId, Flow>, id: FlowId, startedAtMs: int,
                         suggested: Option<int>)
  {
    id in was && was[id].Pending? && id in flows && flows[id].Pending?
    && (var interval := flows[id].pollIntervalSeconds;
        var due := startedAtMs + interval * 1000;
        flows == was[id := Pending(interval, if due < was[id].expiresAtMs then due else was[id].expiresAtMs,
                                   was[id].expiresAtMs, was[id].authorized)]
        && interval >= was[id].pollIntervalSeconds + 5
        && (suggested.Some? ==> interval >= suggested.value)
        && (interval == was[id].pollIntervalSeconds + 5 || suggested == Some(interval)))
  }

  ghost predicate PastsOk(flows: map<FlowId, Flow>, past: map<FlowId, Past>) {
    (forall id | id in past :: Paced(past[id]))
    && forall id | id in flows :: id in past && FlowOk(flows[id], past[id])
  }

  /** A poll waits for the token endpoint exactly when the last exchange of its flow is unanswered,
      and then began with it. */
  ghost predicate PollsOk(past: map<FlowId, Past>, polls: map<FlowId, InFlight>) {
    (forall id | id in polls :: id in past && past[id].exchanges != [])
    && (forall id | id in past ::
          |past[id].exchanges| == past[id].answered + 1 <==> id in polls && polls[id].exchanging)
    && forall id | id in polls && polls[id].exchanging ::
         past[id].authorizedAt.None?
         && polls[id].startedAtMs == past[id].exchanges[|past[id].exchanges| - 1].startedAtMs
  }

  ghost predicate Bounded(flows: map<FlowId, Flow>, terminals: seq<FlowId>, startingFlows: nat) {
    |Awaiting(flows)| + startingFlows <= MAX_DEVICE_FLOWS
    && |terminals| <= MAX_DEVICE_FLOWS
    && (forall id :: id in terminals <==> id in Terminals(flows))
    && Distinct(terminals)
  }

  predicate Distinct(ids: seq<FlowId>) {
    forall i, j | 0 <= i < j < |ids| :: ids[i] != ids[j]
  }

  class DeviceFlowService {
    var flows: map<FlowId, Flow>
    var terminals: seq<FlowId>       // the terminal flows, in the insertion order of the map
    var polls: map<FlowId, InFlight> // the polls in flight
    var startingFlows: nat
    var closed: bool
    var issued: nat
    ghost var past: map<FlowId, Past>   // of every flow ever started

    ghost predicate Valid()
      reads this
    {
      PastsOk(flows, past) && PollsOk(past, polls) && Bounded(flows, terminals, startingFlows)
      && forall id | id in past :: id < issued
    }

    constructor ()
      ensures Valid() && !closed
    {
      flows, terminals, polls, startingFlows, closed, issued, past := map[], [], map[], 0, false, 0, map[];
    }

    /** Forgets a flow. */
    method RemoveFlow(id: FlowId)
      requires Valid() && id in flows
      modifies `flows, `terminals
      ensures Valid() && flows == old(flows) - {id} && terminals == Filtered(old(terminals), id)
      ensures id in Terminals(old(flows)) ==> |terminals| == |old(terminals)| - 1
    {
      hide PastsOk, PollsOk, Bounded;
      RemovalKeeps(flows, terminals, startingFlows, past, polls, id);
      flows := flows - {id};
      terminals := Filtered(terminals, id);
    }

    /** `flows` and `terminals` are what they were but for the outcome of one flow. */
    twostate predicate Remembered(id: FlowId, status: Status, nowMs: int)
      reads this
    {
      Concluded(old(flows), old(terminals), flows, terminals, id, Terminal(status, nowMs + 60_000))
    }

    twostate predicate Ended(id: FlowId, status: Status, nowMs: int)
      reads this
    {
      if closed then Untouched() else Remembered(id, status, nowMs)
    }

    twostate predicate Untouched()
      reads this
    {
      flows == old(flows) && terminals == old(terminals)
    }

    /** Replaces a flow, or one that is gone, by its outcome; the oldest outcome makes room. */
    method RememberTerminal(id: FlowId, status: Status, nowMs: int)
      requires Valid() && id < issued
      requires id in past
      modifies `flows, `terminals
      ensures Valid()
      ensures Ended(id, status, nowMs)
      ensures !closed ==> id in flows && flows[id] == Terminal(status, nowMs + 60_000)
      ensures forall i | i in flows && i != id :: i in old(flows) && flows[i] == old(flows)[i]
      ensures forall i | i in old(flows) && old(flows)[i].Pending? && i != id :: i in flows
    {
      hide PastsOk, PollsOk, Bounded;
      hide Filtered;
      if closed { return; }
      OldestGoes(flows, terminals, startingFlows, id);
      if id in flows { RemoveFlow(id); }
      OldestIsTerminal();
      OldestGoes(flows, terminals, startingFlows, id);
      if |terminals| >= MAX_DEVICE_FLOWS { RemoveFlow(terminals[0]); }
      InsertionKeeps(flows, terminals, startingFlows, past, polls, id,
                     Terminal(status, nowMs + DEVICE_FLOW_TERMINAL_TTL_MS));
      flows := flows[id := Terminal(status, nowMs + DEVICE_FLOW_TERMINAL_TTL_MS)];
      terminals := terminals + [id];
    }

    static lemma OldestGoes(flows: map<FlowId, Flow>, terminals: seq<FlowId>, startingFlows: nat, id: FlowId)
      requires Bounded(flows, terminals, startingFlows)
      ensures id !in flows ==> Filtered(terminals, id) == terminals
      ensures terminals != [] ==> Filtered(terminals, terminals[0]) == terminals[1..]
    {
      FilteredIs(terminals, id);
      if terminals != [] {
        FilteredIs(terminals, terminals[0]);
        assert terminals[..0] + terminals[0 + 1..] == terminals[1..];
      }
    }

    lemma OldestIsTerminal()
      requires Bounded(flows, terminals, startingFlows)
      ensures terminals != [] ==> terminals[0] in flows && flows[terminals[0]].Terminal?
      ensures |terminals| <= MAX_DEVICE_FLOWS
    {
      if terminals != [] { assert terminals[0] in terminals; }
    }

    /** Makes expired flows terminal and forgets old outcomes. */
    method Gc(nowMs: int)
      requires Valid() && !closed
      modifies `flows, `terminals
      ensures Valid()
      ensures forall id | id in flows :: flows[id].expiresAtMs > nowMs
      ensures Live(flows, nowMs) == Awaiting(flows) == Live(old(flows), nowMs)
      ensures forall id | id in Awaiting(flows) :: flows[id] == old(flows)[id]
      ensures Collected(old(flows), |old(terminals)|, flows, nowMs)
    {
      hide PastsOk, PollsOk, Bounded, Concluded, Filtered;
      var todo := flows.Keys;
      while todo != {}
        invariant Valid() && todo <= old(flows.Keys)
        invariant forall id | id in flows && flows[id].Pending? :: id in old(flows) && flows[id] == old(flows)[id]
        invariant forall id | id in Live(old(flows), nowMs) :: id in flows && flows[id] == old(flows)[id]
        invariant forall id | id in flows && id !in todo :: flows[id].expiresAtMs > nowMs
        invariant forall id | id in flows && flows[id].Terminal? ::
                    id in old(flows)
                    && flows[id] == if old(flows)[id].Pending? then Terminal(Expired, nowMs + 60_000) else old(flows)[id]
        invariant |terminals| + |Lapsed(flows, nowMs)| <= |old(terminals)| + |Lapsed(old(flows), nowMs)|
        invariant |old(terminals)| + |Lapsed(old(flows), nowMs)| <= 8 ==>
                    old(flows).Keys - Stale(old(flows), nowMs) <= flows.Keys
        decreases todo
      {
        var id :| id in todo;
        todo := todo - {id};
        if id in flows && flows[id].expiresAtMs <= nowMs {
          label Before:
          if flows[id].Pending? {
            Known(id);
            RememberTerminal(id, Expired, nowMs);
            LapsedEnds(old@Before(flows), old@Before(terminals), flows, terminals, startingFlows, id, nowMs);
          } else {
            RemoveFlow(id);
            assert Lapsed(flows, nowMs) == Lapsed(old@Before(flows), nowMs);
          }
        }
      }
    }

    static lemma LapsedEnds(was: map<FlowId, Flow>, order: seq<FlowId>, flows: map<FlowId, Flow>, terminals: seq<FlowId>,
                            startingFlows: nat, id: FlowId, nowMs: int)
      requires Bounded(was, order, startingFlows) && id in Lapsed(was, nowMs)
      requires Concluded(was, order, flows, terminals, id, Terminal(Expired, nowMs + 60_000))
      ensures |terminals| + |Lapsed(flows, nowMs)| <= |order| + |Lapsed(was, nowMs)|
      ensures |order| + |Lapsed(was, nowMs)| <= 8 ==> flows.Keys == was.Keys
    {
      hide Filtered;
      assert id in Terminals(was) || id !in order;
      FilteredIs(order, id);
      if order != [] { assert order[0] in Terminals(was); }
      assert Lapsed(flows, nowMs) == Lapsed(was, nowMs) - {id};
    }

    lemma Known(id: FlowId)
      requires Valid() && (id in flows || id in polls)
      ensures id in past && id < issued
    {
    }

    /** The start of a flow, up to the request for a device code. */
    method Begin(nowMs: int) returns (ok: bool)
      requires Valid()
      modifies `flows, `terminals, `startingFlows
      ensures Valid()
      ensures startingFlows == old(startingFlows) + if ok then 1 else 0
      ensures ok <==> !closed && |Live(old(flows), nowMs)| + old(startingFlows) < MAX_DEVICE_FLOWS
      ensures if closed then Untouched()
              else Awaiting(flows) == Live(old(flows), nowMs) && Collected(old(flows), |old(terminals)|, flows, nowMs)
      ensures forall id | id in Awaiting(flows) :: id in old(flows) && flows[id] == old(flows)[id]
    {
      hide PastsOk, PollsOk;
      if closed { return false; }
      Gc(nowMs);
      if |Awaiting(flows)| + startingFlows >= MAX_DEVICE_FLOWS { return false; }
      startingFlows := startingFlows + 1;
      ok := true;
    }

    /** The device code has arrived, or the request for it has failed. */
    method Started(ok: bool, nowMs: int, intervalSec: int, expiresInSec: int) returns (id: FlowId)
      requires Valid() && startingFlows > 0
      modifies `flows, `startingFlows, `issued, `past
      ensures Valid() && startingFlows == old(startingFlows) - 1
      ensures !ok ==> flows == old(flows) && past == old(past)
      ensures ok ==> id !in old(past) && id in flows && past == old(past)[id := Past(flows[id].expiresAtMs, [], 0, None)]
                     && flows == old(flows)[id := flows[id]] && flows[id].Pending? && !flows[id].authorized
                     && flows[id].expiresAtMs == nowMs + Min(expiresInSec * 1000, DEVICE_FLOW_TTL_MS)
                     && flows[id].pollIntervalSeconds == Max(1, intervalSec)
                     && flows[id].nextPollAtMs
                        == Min(flows[id].expiresAtMs, nowMs + flows[id].pollIntervalSeconds * 1000)
    {
      hide PastsOk, PollsOk, Bounded;
      id := issued;
      var interval := Max(1, intervalSec);
      var expires := nowMs + Min(expiresInSec * 1000, DEVICE_FLOW_TTL_MS);
      var flow := Pending(interval, Min(expires, nowMs + interval * 1000), expires, false);
      StartKeeps(flow);
      startingFlows := startingFlows - 1;
      if ok {
        flows := flows[id := flow];
        past := past[id := Past(expires, [], 0, None)];
        issued := issued + 1;
      }
    }

    lemma StartKeeps(flow: Flow)
      requires Valid() && startingFlows > 0 && flow.Pending? && !flow.authorized && flow.pollIntervalSeconds >= 1
      ensures var more := flows[issued := flow];
              var pasts := past[issued := Past(flow.expiresAtMs, [], 0, None)];
              PastsOk(more, pasts) && PollsOk(pasts, polls) && Bounded(more, terminals, startingFlows - 1)
              && issued !in past
      ensures Bounded(flows, terminals, startingFlows - 1)
    {
      hide Paced;
      PacedAtFirst(flow);
      OneMoreAwaits(flows, terminals, startingFlows, issued, flow);
      hide Bounded;
    }

    lemma PacedAtFirst(flow: Flow)
      requires flow.Pending?
      ensures Paced(Past(flow.expiresAtMs, [], 0, None))
    {
    }

    /** A poll, up to the request it makes, if it may make one. */
    method Poll(id: FlowId, nowMs: int) returns (r: Polled)
      requires Valid()
      modifies `flows, `terminals, `polls, `past
      ensures Valid()
      ensures var flow := if id in old(flows) then old(flows)[id] else Terminal(Failed, nowMs);
              var ready := !closed && flow.Pending? && id !in old(polls)
                           && flow.nextPollAtMs <= nowMs < flow.expiresAtMs;
              (r.Exchanging? <==> ready && !flow.authorized) && (r.Resuming? <==> ready && flow.authorized)
      ensures r.Exchanging? ==>
                past == old(past)[id := old(past)[id].(exchanges := old(past)[id].exchanges
                                                       + [Exchange(nowMs, old(flows)[id].pollIntervalSeconds)])]
                && old(past)[id].authorizedAt.None? && old(past)[id].answered == |old(past)[id].exchanges|
      ensures !r.Exchanging? ==> past == old(past)
      ensures r.Exchanging? || r.Resuming? ==>
                polls == old(polls)[id := InFlight(nowMs, old(flows)[id].expiresAtMs, r.Exchanging?)]
      ensures !(r.Exchanging? || r.Resuming?) ==> polls == old(polls)
      ensures r.Wait? ==> r.nextPollAtMs > nowMs
      ensures var flow := if id in old(flows) && !closed then old(flows)[id] else Terminal(Failed, nowMs);
              match r
              case NotFound =>
                flow.Terminal? && flow.expiresAtMs <= nowMs
                && if closed || id !in old(flows) then Untouched()
                   else flows == old(flows) - {id} && terminals == Filtered(old(terminals), id)
              case Done(status) =>
                if flow.Terminal? then status == flow.status && nowMs < flow.expiresAtMs && Untouched()
                else status == Expired && flow.expiresAtMs <= nowMs && id !in polls && Remembered(id, Expired, nowMs)
              case Wait(interval, next) =>
                Untouched() && flow.Pending? && (flow.expiresAtMs <= nowMs ==> id in polls)
                && interval == flow.pollIntervalSeconds
                && next == if flow.expiresAtMs <= nowMs then nowMs + 1_000
                           else if id in polls && flow.nextPollAtMs < nowMs + interval * 1000 then nowMs + interval * 1000
                           else flow.nextPollAtMs
              case _ =>
                var due := nowMs + flow.pollIntervalSeconds * 1000;
                terminals == old(terminals)
                && flows == old(flows)[id := Pending(flow.pollIntervalSeconds,
                                                     if due < flow.expiresAtMs then due else flow.expiresAtMs,
                                                     flow.expiresAtMs, flow.authorized)]
    {
      hide PastsOk, PollsOk, Bounded;
      if closed || id !in flows { return NotFound; }
      Known(id);
      var flow := flows[id];
      if flow.Terminal? {
        if flow.expiresAtMs <= nowMs {
          RemoveFlow(id);
          return NotFound;
        }
        return Done(flow.status);
      }
      if flow.expiresAtMs <= nowMs {
        if id in polls { return Wait(flow.pollIntervalSeconds, nowMs + 1_000); }
        RememberTerminal(id, Expired, nowMs);
        return Done(Expired);
      }
      if id in polls {
        PositiveInterval(id);
        return Wait(flow.pollIntervalSeconds, Max(flow.nextPollAtMs, nowMs + flow.pollIntervalSeconds * 1000));
      }
      if flow.nextPollAtMs > nowMs { return Wait(flow.pollIntervalSeconds, flow.nextPollAtMs); }
      PollKeeps(id, nowMs);
      flows := flows[id := Polling(flow, nowMs)];
      polls := polls[id := InFlight(nowMs, flow.expiresAtMs, !flow.authorized)];
      if flow.authorized { return Resuming; }
      past := past[id := Asked(past[id], nowMs, flow.pollIntervalSeconds)];
      r := Exchanging;
    }

    lemma PositiveInterval(id: FlowId)
      requires PastsOk(flows, past) && id in flows && flows[id].Pending?
      ensures flows[id].pollIntervalSeconds >= 1
    {
      assert FlowOk(flows[id], past[id]);
    }

    lemma PollKeeps(id: FlowId, nowMs: int)
      requires Valid() && id in flows && flows[id].Pending? && id !in polls
      requires flows[id].nextPollAtMs <= nowMs < flows[id].expiresAtMs
      ensures var flow := flows[id];
              var more := flows[id := Polling(flow, nowMs)];
              var pasts := if flow.authorized then past else past[id := Asked(past[id], nowMs, flow.pollIntervalSeconds)];
              PastsOk(more, pasts) && PollsOk(pasts, polls[id := InFlight(nowMs, flow.expiresAtMs, !flow.authorized)])
              && Bounded(more, terminals, startingFlows)
      ensures flows[id].authorized <==> past[id].authorizedAt.Some?
      ensures past[id].answered == |past[id].exchanges|
    {
      hide Paced, FlowOk, Asked, Bounded;
      var flow := flows[id];
      NoneUnanswered(id);
      AskedIsPaced(flow, past[id], nowMs);
      PollingIsOk(flow, past[id], nowMs);
      UpdateKeeps(id, Polling(flow, nowMs));
    }

    lemma NoneUnanswered(id: FlowId)
      requires PastsOk(flows, past) && PollsOk(past, polls) && id in past && id !in polls
      ensures past[id].answered == |past[id].exchanges|
    {
      assert Paced(past[id]);
    }

    lemma UpdateKeeps(id: FlowId, flow: Flow)
      requires Bounded(flows, terminals, startingFlows) && id in flows && flows[id].Pending? && flow.Pending?
      ensures Bounded(flows[id := flow], terminals, startingFlows)
    {
      assert Awaiting(flows[id := flow]) == Awaiting(flows);
      assert Terminals(flows[id := flow]) == Terminals(flows);
    }

    /** The token endpoint has answered, or the request failed; `aborted` says whether the flow was
        given up meanwhile.  An authorized flow stays in flight until its account is stored. */
    method Answered(id: FlowId, answer: Answer, aborted: bool, nowMs: int)
      requires Valid() && id in polls && polls[id].exchanging
      modifies `flows, `terminals, `polls, `past
      ensures Valid()
      ensures polls == if answer.Authorized? then old(polls)[id := old(polls)[id].(exchanging := false)]
                       else old(polls) - {id}
      ensures id in old(past) && var p := old(past)[id];
              |p.exchanges| == p.answered + 1 && p.authorizedAt.None?
              && past == old(past)[id := Past(p.deadline, p.exchanges, |p.exchanges|,
                                              if answer.Authorized? then Some(|p.exchanges| - 1) else None)]
      ensures var flow := if id in old(flows) then old(flows)[id] else Terminal(Failed, nowMs);
              var lapsed := if aborted then nowMs >= old(polls)[id].expiresAtMs
                            else flow.Pending? && nowMs >= flow.expiresAtMs && !answer.Thrown?;
              if answer.Authorized? then
                terminals == old(terminals)
                && if flow.Pending?
                   then !flow.authorized && flows == old(flows)[id := Pending(flow.pollIntervalSeconds, flow.nextPollAtMs,
                                                                              flow.expiresAtMs + 60_000, true)]
                   else flows == old(flows)
              else if answer == Thrown(true) then Ended(id, Failed, nowMs)
              else if lapsed then Ended(id, Expired, nowMs)
              else if aborted || flow.Terminal? then Untouched()
              else if answer.Refused? then Ended(id, answer.status, nowMs)
              else if answer.SlowDown? then
                terminals == old(terminals)
                && Slowed(old(flows), flows, id, old(polls)[id].startedAtMs, answer.pollIntervalSeconds)
              else Untouched()
    {
      hide PastsOk, PollsOk, Bounded;
      Known(id);
      var poll := polls[id];
      AnswerKeeps(id, answer.Authorized?);
      if answer.Authorized? {
        past := past[id := AuthorizedNow(past[id])];
        polls := polls[id := poll.(exchanging := false)];
        if id in flows && flows[id].Pending? {
          flows := flows[id := AuthorizedFlow(flows[id])];
        }
        return;
      }
      past := past[id := AnsweredNow(past[id])];
      polls := polls - {id};
      if answer == Thrown(true) {
        RememberTerminal(id, Failed, nowMs);
        return;
      }
      if aborted {
        if nowMs >= poll.expiresAtMs { RememberTerminal(id, Expired, nowMs); }
        return;
      }
      if answer.Thrown? || id !in flows || flows[id].Terminal? { return; }
      var flow := flows[id];
      if flow.expiresAtMs <= nowMs {
        RememberTerminal(id, Expired, nowMs);
        return;
      }
      match answer
      case AuthorizationPending =>
      case Refused(status) => RememberTerminal(id, status, nowMs);
      case SlowDown(suggested) =>
        var interval := Max(flow.pollIntervalSeconds + 5, if suggested.Some? then suggested.value else 0);
        PositiveInterval(id);
        SlowDownKeeps(id, poll.startedAtMs, interval);
        flows := flows[id := flow.(pollIntervalSeconds := interval,
                                   nextPollAtMs := Min(flow.expiresAtMs, poll.startedAtMs + interval * 1000))];
    }

    lemma EndKeeps(id: FlowId)
      requires PollsOk(past, polls) && id in polls && !polls[id].exchanging
      ensures PollsOk(past, polls - {id})
    {
    }

    lemma AnswerKeeps(id: FlowId, authorized: bool)
      requires Valid() && id in polls && polls[id].exchanging
      ensures id in past && |past[id].exchanges| == past[id].answered + 1 && past[id].authorizedAt.None?
      ensures polls[id].startedAtMs == past[id].exchanges[|past[id].exchanges| - 1].startedAtMs
      ensures id in flows && flows[id].Pending? ==> !flows[id].authorized
      ensures var more := if authorized && id in flows && flows[id].Pending?
                          then flows[id := AuthorizedFlow(flows[id])] else flows;
              var pasts := past[id := if authorized then AuthorizedNow(past[id]) else AnsweredNow(past[id])];
              var left := if authorized then polls[id := polls[id].(exchanging := false)] else polls - {id};
              PastsOk(more, pasts) && PollsOk(pasts, left) && Bounded(more, terminals, startingFlows)
              && pasts.Keys == past.Keys
    {
      hide Bounded, Paced, FlowOk;
      if id in flows && flows[id].Pending? {
        assert FlowOk(flows[id], past[id]);
        UpdateKeeps(id, AuthorizedFlow(flows[id]));
      }
      AnsweredIsPaced(past[id]);
      if id in flows { AnsweredIsOk(flows[id], past[id]); }
    }

    /** The interval counts from the start of the exchange that was told to slow down. */
    lemma SlowDownKeeps(id: FlowId, started: int, interval: int)
      requires PastsOk(flows, past) && Bounded(flows, terminals, startingFlows)
      requires id in flows && flows[id].Pending? && interval >= flows[id].pollIntervalSeconds
      requires !flows[id].authorized ==>
                 var exchanges := past[id].exchanges;
                 exchanges != [] && exchanges[|exchanges| - 1].startedAtMs == started
      ensures var flow := flows[id];
              var more := flows[id := flow.(pollIntervalSeconds := interval,
                                            nextPollAtMs := Min(flow.expiresAtMs, started + interval * 1000))];
              PastsOk(more, past) && Bounded(more, terminals, startingFlows)
    {
      var flow := flows[id];
      UpdateKeeps(id, flow.(pollIntervalSeconds := interval,
                            nextPollAtMs := Min(flow.expiresAtMs, started + interval * 1000)));
      hide Paced, Bounded;
    }

    /** The poll of an authorized flow has ended: its account is stored, or it failed. */
    method Settled(id: FlowId, status: Option<Status>, nowMs: int)
      requires Valid() && id in polls && !polls[id].exchanging
      modifies `flows, `terminals, `polls
      ensures Valid() && polls == old(polls) - {id}
      ensures if status.None? then Untouched() else Ended(id, status.value, nowMs)
    {
      hide PastsOk, PollsOk, Bounded;
      Known(id);
      EndKeeps(id);
      polls := polls - {id};
      if status.Some? { RememberTerminal(id, status.value, nowMs); }
    }

    /** The expiry timer of a flow that is not authorized; a poll in flight decides for itself. */
    method ExpiryTimer(id: FlowId, nowMs: int)
      requires Valid()
      modifies `flows, `terminals
      ensures Valid()
      ensures var ends := id in old(flows) && old(flows)[id].Pending? && !old(flows)[id].authorized && id !in polls;
              if ends then Ended(id, Expired, nowMs) else Untouched()
    {
      hide PastsOk, PollsOk, Bounded;
      if id in flows && flows[id].Pending? && !flows[id].authorized && id !in polls {
        Known(id);
        RememberTerminal(id, Expired, nowMs);
      }
    }

    /** The removal timer of an outcome. */
    method Forget(id: FlowId)
      requires Valid()
      modifies `flows, `terminals
      ensures Valid()
      ensures if id in old(flows) && old(flows)[id].Terminal?
              then flows == old(flows) - {id} && terminals == Filtered(old(terminals), id)
              else Untouched()
    {
      hide PastsOk, PollsOk, Bounded;
      if id in flows && flows[id].Terminal? { RemoveFlow(id); }
    }

    /** Cancels a flow; one in flight is removed when its poll has ended without an account. */
    method Cancel(id: FlowId) returns (complete: bool)
      requires Valid()
      modifies `flows, `terminals
      ensures Valid()
      ensures complete <==> id in old(flows) && old(flows)[id].Terminal? && old(flows)[id].status.Complete?
      ensures if id in old(flows) && !complete && (id !in polls || old(flows)[id].Terminal?)
              then flows == old(flows) - {id} && terminals == Filtered(old(terminals), id)
              else Untouched()
    {
      hide PastsOk, PollsOk, Bounded;
      if id !in flows { return false; }
      if flows[id].Terminal? && flows[id].status.Complete? { return true; }
      if id !in polls || flows[id].Terminal? { RemoveFlow(id); }
      complete := false;
    }

    method Close()
      requires Valid()
      modifies `flows, `terminals, `closed
      ensures Valid() && closed
      ensures forall id | id in flows :: id in old(flows) && flows[id] == old(flows)[id]
      ensures !old(closed) ==>
                forall id | id in old(flows) ::
                  id in flows <==> old(flows)[id].Pending? && old(flows)[id].authorized && id in polls
      ensures old(closed) ==> Untouched()
    {
      hide PastsOk, PollsOk, Bounded;
      if closed { return; }
      closed := true;
      var todo := flows.Keys;
      while todo != {}
        invariant Valid() && closed && todo <= old(flows.Keys)
        invariant forall id | id in flows :: id in old(flows) && flows[id] == old(flows)[id]
        invariant forall id | id in old(flows) && id !in flows ::
                    !(old(flows)[id].Pending? && old(flows)[id].authorized && id in polls)
        invariant forall id | id in flows && id !in todo :: flows[id].Pending? && flows[id].authorized && id in polls
        decreases todo
      {
        var id :| id in todo;
        todo := todo - {id};
        if id in flows && !(flows[id].Pending? && flows[id].authorized && id in polls) { RemoveFlow(id); }
      }
    }

    lemma AllPaced()
      requires Valid()
      ensures forall id | id in past :: Paced(past[id])
      ensures |Awaiting(flows)| <= MAX_DEVICE_FLOWS
    {
    }

    /** Any interleaving, on any clock. */
    method Run(schedule: seq<Event>)
      requires Valid()
      modifies this
      ensures Valid() && Grown(old(past), past) && |Awaiting(flows)| <= MAX_DEVICE_FLOWS
      ensures forall id | id in past :: Paced(past[id])
    {
      hide Valid, Paced, Awaiting;
      for i := 0 to |schedule|
        invariant Valid() && Grown(old(past), past)
      {
        ghost var was := past;
        Step(schedule[i]);
        GrownTransitive(old(past), was, past);
      }
      AllPaced();
    }

    method Step(event: Event)
      requires Valid()
      modifies this
      ensures Valid() && Grown(old(past), past)
    {
      hide PastsOk, PollsOk, Bounded;
      match event
      case Start(nowMs) => var _ := Begin(nowMs);
      case CodeArrived(ok, nowMs, intervalSec, expiresInSec) =>
        if startingFlows > 0 { var _ := Started(ok, nowMs, intervalSec, expiresInSec); }
      case PollFlow(id, nowMs) => var _ := Poll(id, nowMs);
      case Reply(id, answer, aborted, nowMs) =>
        if id in polls && polls[id].exchanging { Answered(id, answer, aborted, nowMs); }
      case Stored(id, status, nowMs) =>
        if id in polls && !polls[id].exchanging { Settled(id, status, nowMs); }
      case Timer(id, nowMs) => ExpiryTimer(id, nowMs);
      case ForgetTimer(id) => Forget(id);
      case CancelFlow(id) => var _ := Cancel(id);
      case CloseService => Close();
    }
  }

  /** History is only added to, and to that of an authorized flow nothing is. */
  ghost predicate Grown(was: map<FlowId, Past>, past: map<FlowId, Past>) {
    forall id | id in was ::
      id in past && past[id].deadline == was[id].deadline && was[id].exchanges <= past[id].exchanges
      && was[id].answered <= past[id].answered
      && (was[id].authorizedAt.Some? ==> past[id] == was[id])
  }

  lemma GrownTransitive(a: map<FlowId, Past>, b: map<FlowId, Past>, c: map<FlowId, Past>)
    requires Grown(a, b) && Grown(b, c)
    ensures Grown(a, c)
  {
  }

  function AuthorizedFlow(flow: Flow): Flow
    requires flow.Pending?
  {
    flow.(authorized := true, expiresAtMs := flow.expiresAtMs + DEVICE_FLOW_TERMINAL_TTL_MS)
  }

  lemma AnsweredIsPaced(p: Past)
    requires Paced(p) && p.exchanges != [] && p.authorizedAt.None?
    ensures Paced(AuthorizedNow(p)) && Paced(AnsweredNow(p))
  {
  }

  lemma AnsweredIsOk(flow: Flow, p: Past)
    requires FlowOk(flow, p) && p.exchanges != [] && p.authorizedAt.None?
    ensures flow.Pending? ==> !flow.authorized && FlowOk(AuthorizedFlow(flow), AuthorizedNow(p))
    ensures !flow.Pending? ==> FlowOk(flow, AuthorizedNow(p))
    ensures FlowOk(flow, AnsweredNow(p))
  {
  }

  /** The last exchange has been answered, with an authorization. */
  function AuthorizedNow(p: Past): Past
    requires p.exchanges != []
  {
    p.(authorizedAt := Some(|p.exchanges| - 1), answered := |p.exchanges|)
  }

  /** It has been answered otherwise, or has failed. */
  function AnsweredNow(p: Past): Past {
    p.(answered := |p.exchanges|)
  }

  ghost function Asked(p: Past, nowMs: int, pollIntervalSeconds: int): (r: Past)
    ensures |r.exchanges| == |p.exchanges| + 1 && r.answered == p.answered && r.authorizedAt == p.authorizedAt
  {
    p.(exchanges := p.exchanges + [Exchange(nowMs, pollIntervalSeconds)])
  }

  function Filtered(ids: seq<FlowId>, id: FlowId): seq<FlowId> {
    if ids == [] then [] else (if ids[0] == id then [] else [ids[0]]) + Filtered(ids[1..], id)
  }

  lemma {:induction false} FilteredMeans(ids: seq<FlowId>, id: FlowId)
    requires Distinct(ids)
    ensures var kept := Filtered(ids, id);
            (forall i :: i in kept <==> i in ids && i != id) && Distinct(kept)
            && |kept| == if id in ids then |ids| - 1 else |ids|
  {
    if ids != [] {
      FilteredMeans(ids[1..], id);
      assert forall i :: i in ids <==> i == ids[0] || i in ids[1..];
      assert ids[0] !in ids[1..];
    }
  }

  lemma {:induction false} FilteredIs(ids: seq<FlowId>, id: FlowId)
    requires Distinct(ids)
    ensures id !in ids ==> Filtered(ids, id) == ids
    ensures forall k | 0 <= k < |ids| && ids[k] == id :: Filtered(ids, id) == ids[..k] + ids[k + 1..]
  {
    if ids != [] {
      var rest := ids[1..];
      FilteredIs(rest, id);
      assert ids == [ids[0]] + rest;
      forall k | 0 <= k < |ids| && ids[k] == id
        ensures Filtered(ids, id) == ids[..k] + ids[k + 1..]
      {
        if k == 0 {
          assert id !in rest;
        } else {
          assert rest[k - 1] == id && ids[0] != id;
          assert ids[..k] == [ids[0]] + rest[..k - 1] && ids[k + 1..] == rest[k..];
        }
      }
    }
  }

  /** A pending flow while it is polled. */
  function Polling(flow: Flow, nowMs: int): Flow
    requires flow.Pending?
  {
    flow.(nextPollAtMs := Min(flow.expiresAtMs, nowMs + flow.pollIntervalSeconds * 1000))
  }

  /** A poll that is due is late enough after the last exchange. */
  lemma AskedIsPaced(flow: Flow, p: Past, nowMs: int)
    requires Paced(p) && FlowOk(flow, p)
    requires flow.Pending? && flow.nextPollAtMs <= nowMs < flow.expiresAtMs && p.answered == |p.exchanges|
    ensures !flow.authorized ==> Paced(Asked(p, nowMs, flow.pollIntervalSeconds))
  {
  }

  lemma PollingIsOk(flow: Flow, p: Past, nowMs: int)
    requires Paced(p) && FlowOk(flow, p) && flow.Pending?
    ensures flow.authorized <==> p.authorizedAt.Some?
    ensures flow.authorized ==> FlowOk(Polling(flow, nowMs), p) && p.exchanges != []
    ensures var asked := Asked(p, nowMs, flow.pollIntervalSeconds);
            !flow.authorized ==>
              FlowOk(Polling(flow, nowMs), asked) && asked.exchanges[|asked.exchanges| - 1].startedAtMs == nowMs
  {
  }

  lemma OneMoreAwaits(flows: map<FlowId, Flow>, terminals: seq<FlowId>, startingFlows: nat, id: FlowId, flow: Flow)
    requires Bounded(flows, terminals, startingFlows) && startingFlows > 0 && flow.Pending? && id !in flows
    ensures Bounded(flows[id := flow], terminals, startingFlows - 1) && Bounded(flows, terminals, startingFlows - 1)
  {
    assert Awaiting(flows[id := flow]) == Awaiting(flows) + {id};
    assert Terminals(flows[id := flow]) == Terminals(flows);
  }

  lemma RemovalKeeps(flows: map<FlowId, Flow>, terminals: seq<FlowId>, startingFlows: nat,
                     past: map<FlowId, Past>, polls: map<FlowId, InFlight>, id: FlowId)
    requires PastsOk(flows, past) && PollsOk(past, polls) && Bounded(flows, terminals, startingFlows)
    ensures var less := flows - {id};
            PastsOk(less, past) && PollsOk(past, polls)
            && Bounded(less, Filtered(terminals, id), startingFlows)
            && (id in Terminals(flows) ==> |Filtered(terminals, id)| == |terminals| - 1)
  {
    FilteredMeans(terminals, id);
    assert Awaiting(flows - {id}) == Awaiting(flows) - {id};
  }

  lemma InsertionKeeps(flows: map<FlowId, Flow>, terminals: seq<FlowId>, startingFlows: nat,
                       past: map<FlowId, Past>, polls: map<FlowId, InFlight>, id: FlowId, flow: Flow)
    requires PastsOk(flows, past) && PollsOk(past, polls) && Bounded(flows, terminals, startingFlows)
    requires id !in flows && id in past && flow.Terminal? && |terminals| < MAX_DEVICE_FLOWS
    ensures var more := flows[id := flow];
            PastsOk(more, past) && PollsOk(past, polls) && Bounded(more, terminals + [id], startingFlows)
  {
    assert Awaiting(flows[id := flow]) == Awaiting(flows);
    assert id !in terminals;
  }
}
