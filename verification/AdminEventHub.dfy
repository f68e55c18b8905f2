/**
 The hub: one store of recorded events, any number of subscribers over time and at most a fixed
 number at once, in any interleaving of recording, publication, reading and closing.
 */
module AdminEventHub {
  import opened Options
  import opened EventHistory
  import opened AdminEvents

  const MAX_SAFE_INTEGER := 9_007_199_254_740_991

  datatype Opened = Opened(subscriber: Subscriber) | CapacityExceeded | ValidationFailed

  datatype Action =
    | Record(size: nat)
    | Retain(kept: nat)
    | Publish
    | PublishPerformance(status: Option<nat>)
    | Open(lastEventId: Option<nat>)
    | Advance(status: Option<nat>)
    | Heartbeat
    | Abort
    | Close

  class AdminEventStreamHub {
    var history: seq<Event>
    var kept: nat
    var published: nat
    var subscribers: set<Subscriber>
    var closed: bool
    ghost var sessions: set<Subscriber>

    /** Every subscriber ever opened is in good standing, and the open ones are the tracked ones. */
    ghost predicate Valid()
      reads this, sessions
    {
      Increasing(history) && kept <= |history| && published <= |history|
      && |subscribers| <= SUBSCRIBER_CAP
      && (forall s | s in sessions :: s.Valid(history, published) && (s in subscribers <==> !s.closed))
      && subscribers <= sessions && (closed ==> subscribers == {})
    }

    constructor ()
      ensures Valid() && history == [] && sessions == {} && subscribers == {} && !closed && kept == 0 && published == 0
    {
      history, kept, published, subscribers, closed, sessions := [], 0, 0, {}, false, {};
    }

    /** A recorded event gets an id past all earlier ones. */
    method Record(e: Event)
      requires Valid() && (history != [] ==> history[|history| - 1].id < e.id)
      modifies `history
      ensures Valid() && history == old(history) + [e]
    {
      hide Subscriber.Valid, Increasing;
      LargerId(history, e);
      forall s | s in sessions ensures s.Valid(history + [e], published) {
        s.RecordKeepsValid(history, published, e);
      }
      history := history + [e];
    }

    lemma LargerId(h: seq<Event>, e: Event)
      requires Increasing(h) && (h != [] ==> h[|h| - 1].id < e.id)
      ensures Increasing(h + [e])
    {
    }

    method Open(lastEventId: Option<nat>) returns (r: Opened)
      requires Valid()
      modifies `subscribers, `sessions
      ensures Valid()
      ensures r.CapacityExceeded? <==> closed || |old(subscribers)| >= SUBSCRIBER_CAP
      ensures r.ValidationFailed? <==>
              !r.CapacityExceeded? && lastEventId.Some? && lastEventId.value > MAX_SAFE_INTEGER
      ensures r.Opened? ==>
                fresh(r.subscriber) && subscribers == old(subscribers) + {r.subscriber}
                && sessions == old(sessions) + {r.subscriber}
                && r.subscriber.resume == lastEventId && r.subscriber.from == published && !r.subscriber.reset
                && r.subscriber.performancePending && r.subscriber.queue == [] && r.subscriber.pulling.Resting?
                && !r.subscriber.replayStarted && r.subscriber.replayCursor == lastEventId
                && (lastEventId.Some? ==> r.subscriber.Asks())
      ensures !r.Opened? ==> subscribers == old(subscribers) && sessions == old(sessions)
    {
      hide Subscriber.Valid, Increasing;
      if closed || |subscribers| >= SUBSCRIBER_CAP { return CapacityExceeded; }
      if lastEventId.Some? && lastEventId.value > MAX_SAFE_INTEGER { return ValidationFailed; }
      var s := new Subscriber(lastEventId, history, published);
      subscribers := subscribers + {s};
      sessions := sessions + {s};
      r := Opened(s);
    }

    /** Hands the next recorded event to one subscriber, and drops it if it overflows. */
    method Hand(s: Subscriber)
      requires Increasing(history) && published < |history| && s.Valid(history, published) && !s.closed
      modifies `subscribers, s
      ensures s.Valid(history, published + 1) && s.sent == old(s.sent) && s.Steady()
      ensures subscribers == if s.closed then old(subscribers) - {s} else old(subscribers)
      ensures s.closed <==>
              !old(s.Covers(history[published].id))
              && (old(s.queuedEvents) + |old(s.replay)| >= QUEUE_CAP
                  || old(s.queuedBytes) + old(s.replayBytes) + history[published].size > QUEUE_BYTES)
      ensures !s.closed ==>
                s.queue == old(s.queue) + if old(s.Covers(history[published].id)) then []
                                          else [Operational(history[published])]
    {
      hide Subscriber.Valid, Increasing;
      s.Receive(history[published], history, published);
      if s.closed { subscribers := subscribers - {s}; }
    }

    /** The next recorded event reaches every subscriber that is open. */
    method Publish()
      requires Valid() && published < |history|
      modifies `subscribers, `published, sessions
      ensures Valid() && published == old(published) + 1 && subscribers <= old(subscribers)
      ensures forall s | s in sessions :: s.sent == old(s.sent) && s.Steady()
      ensures subscribers == set s | s in old(subscribers) && !s.closed
      ensures forall s | s in old(subscribers) ::
                s.closed <==>
                  !old(s.Covers(history[published].id))
                  && (old(s.queuedEvents) + |old(s.replay)| >= QUEUE_CAP
                      || old(s.queuedBytes) + old(s.replayBytes) + old(history[published]).size > QUEUE_BYTES)
      ensures forall s | s in subscribers ::
                s.queue == old(s.queue) + if old(s.Covers(history[published].id)) then []
                                          else [Operational(old(history[published]))]
    {
      hide Subscriber.Valid, Increasing, Count, Bytes, Live, AtMost, Events, Query, Subscriber.Covers;
      ClosedStay();
      var todo := subscribers;
      while todo != {}
        modifies `subscribers, sessions
        invariant todo <= subscribers <= old(subscribers)
        invariant forall s | s in todo :: s.Valid(history, published) && unchanged(s)
        invariant forall s | s in sessions && s !in todo :: s.Valid(history, published + 1)
        invariant forall s | s in sessions :: s in subscribers <==> !s.closed
        invariant forall s | s in sessions :: s.sent == old(s.sent) && s.Steady()
        invariant forall s | s in old(subscribers) && s !in todo ::
                    s.closed <==>
                      !old(s.Covers(history[published].id))
                      && (old(s.queuedEvents) + |old(s.replay)| >= QUEUE_CAP
                          || old(s.queuedBytes) + old(s.replayBytes) + history[published].size > QUEUE_BYTES)
        invariant forall s | s in subscribers && s !in todo ::
                    s.queue == old(s.queue) + if old(s.Covers(history[published].id)) then []
                                              else [Operational(history[published])]
        decreases todo
      {
        var s :| s in todo;
        todo := todo - {s};
        Hand(s);
      }
      published := published + 1;
      Fewer(subscribers, old(subscribers));
    }

    /** Publication does not concern a subscriber that is closed. */
    lemma ClosedStay()
      requires Valid()
      ensures forall s | s in sessions && s !in subscribers :: s.Valid(history, published + 1)
    {
    }

    lemma {:induction false} Fewer(a: set<Subscriber>, b: set<Subscriber>)
      requires a <= b
      ensures |a| <= |b|
    {
      if a != {} {
        var s :| s in a;
        Fewer(a - {s}, b - {s});
      }
    }

    /** A performance frame for everyone; when the status cannot be read the rest get none. */
    method PublishPerformance(status: Option<nat>)
      requires Valid()
      modifies `subscribers, sessions
      ensures Valid() && subscribers <= old(subscribers)
      ensures forall s | s in sessions :: s.sent == old(s.sent) && s.Steady()
      ensures subscribers == set s | s in old(subscribers) && !s.closed
      ensures status.None? ==> forall s | s in sessions :: unchanged(s)
      ensures status.Some? ==> forall s | s in old(subscribers) ::
                if old(s.queuedEvents) + |old(s.replay)| >= QUEUE_CAP
                   || old(s.queuedBytes) + old(s.replayBytes) + status.value > QUEUE_BYTES then
                  s.closed
                else
                  !s.closed && s.queue == old(s.queue) + [Performance(status.value)]
    {
      hide Subscriber.Valid, Increasing, Count, Bytes, Live, AtMost, Events, Query;
      var todo := subscribers;
      while todo != {} && status.Some?
        modifies `subscribers, sessions
        invariant todo <= subscribers <= old(subscribers)
        invariant forall s | s in sessions :: s.Valid(history, published)
        invariant forall s | s in sessions :: s in subscribers <==> !s.closed
        invariant forall s | s in sessions :: s.sent == old(s.sent) && s.Steady()
        invariant forall s | s in todo || status.None? :: s in sessions ==> unchanged(s)
        invariant status.Some? ==> forall s | s in old(subscribers) && s !in todo ::
                    if old(s.queuedEvents) + |old(s.replay)| >= QUEUE_CAP
                       || old(s.queuedBytes) + old(s.replayBytes) + status.value > QUEUE_BYTES then
                      s.closed
                    else
                      !s.closed && s.queue == old(s.queue) + [Performance(status.value)]
        decreases todo
      {
        var s :| s in todo;
        todo := todo - {s};
        s.ReceivePerformance(status.value, history, published);
        if s.closed { subscribers := subscribers - {s}; }
      }
      Fewer(subscribers, old(subscribers));
    }

    /** The next step of one subscriber's pull. */
    method Advance(s: Subscriber, status: Option<nat>) returns (r: Pulled)
      requires Valid() && s in subscribers
      modifies `subscribers, s
      ensures Valid() && subscribers == if s.closed then old(subscribers) - {s} else old(subscribers)
      ensures s.sent == old(s.sent) + if r.Sent? then [r.frame] else []
      ensures s.Steady()
      ensures old(s.pulling).Waiting? ==> r.Pending? && unchanged(s)
      ensures old(s.pulling).Woken? ==> r == Sent(old(s.queue)[0]) && s.queue == old(s.queue)[1..]
      ensures old(s.pulling).Resting? && !old(s.Asks()) ==>
                if old(s.replay) != [] then
                  r == Sent(old(s.replay)[0]) && s.replay == old(s.replay)[1..] && s.queue == old(s.queue)
                else if old(s.initialFrame).Some? then r == Sent(old(s.initialFrame).value) && s.queue == old(s.queue)
                else if old(s.performancePending) then
                  r == (if status.Some? then Sent(Performance(status.value)) else Ended)
                  && (status.Some? ==> s.queue == old(s.queue) && !s.performancePending)
                else if old(s.queue) == [] then r.Pending? && s.pulling.Waiting?
                else r == Sent(old(s.queue)[0]) && s.queue == old(s.queue)[1..]
      ensures old(s.pulling).Replaying? ==>
                var answer := old(s.pulling).answer;
                && (s.replayThrough == if old(s.replayStarted) then old(s.replayThrough)
                                       else if answer.latest.None? then old(s.replayCursor) else answer.latest)
                && s.replayThrough.Some?
                && var rest := if old(s.replayStarted) then old(s.queue) else Live(old(s.queue), s.replayThrough.value);
                   var items := AtMost(answer.items, s.replayThrough.value);
                   if !answer.found then r == Sent(Reset(answer.latest)) && s.queue == rest
                   else if Count(rest) + |items| > QUEUE_CAP || Bytes(rest) + Bytes(Frames(items)) > QUEUE_BYTES then
                     r.Ended?
                   else if items != [] then
                     r == Sent(Operational(items[0])) && s.replay == Frames(items)[1..] && s.queue == rest
                   else if old(s.performancePending) then
                     r == if status.Some? then Sent(Performance(status.value)) else Ended
                   else if rest == [] then r.Pending? && s.pulling.Waiting?
                   else r == Sent(rest[0]) && s.queue == rest[1..]
      ensures r.Ended? <==> s.closed
      ensures old(s.Asks()) ==>
                r.Pending? && s.pulling == Replaying(Query(history[kept..], old(s.replayCursor).value)) && !s.closed
                && s.replayStarted == old(s.replayStarted)
      ensures old(s.pulling).Replaying? && !old(s.replayStarted) && !old(s.pulling).answer.found ==>
                !s.closed && s.reset && s.newest == old(s.pulling).answer.latest
    {
      hide Subscriber.Valid, Increasing, Count, Bytes, Live, AtMost, Events, Query;
      match s.pulling {
        case Resting => r := s.Pull(history[kept..], status, history, published, kept);
        case Replaying(_) => r := s.Replayed(status, history, published);
        case Woken => r := s.Awake(history, published);
        case Waiting => r := Pending;
      }
      if s.closed { subscribers := subscribers - {s}; }
      Fewer(subscribers, old(subscribers));
    }

    method CloseSubscriber(s: Subscriber)
      requires Valid() && s in subscribers
      modifies `subscribers, s
      ensures Valid() && s.closed && s.sent == old(s.sent) && s.Steady() && subscribers == old(subscribers) - {s}
    {
      hide Subscriber.Valid, Increasing;
      s.Cut(history, published);
      subscribers := subscribers - {s};
    }

    method Close()
      requires Valid()
      modifies `closed, `subscribers, sessions
      ensures Valid() && closed && subscribers == {} && sessions == old(sessions)
      ensures forall s | s in sessions :: s.sent == old(s.sent) && s.Steady()
    {
      hide Subscriber.Valid, Increasing;
      if closed { return; }
      while subscribers != {}
        modifies `subscribers, sessions
        invariant Valid()
        invariant forall s | s in sessions :: s.sent == old(s.sent) && s.Steady()
        decreases subscribers
      {
        var s :| s in subscribers;
        CloseSubscriber(s);
      }
      closed := true;
    }

    lemma StaysLost(s: Subscriber, e: Event)
      requires Valid() && s in sessions && s.reset && s.newest.None? && s.resume.Some? && e.id <= s.resume.value
      ensures e !in Events(s.sent)
    {
      s.NeverSent(history, e);
    }

    /** Any interleaving.  Which subscriber moves is left open. */
    method Run(schedule: seq<Action>)
      requires Valid()
      modifies this, sessions
      ensures Valid() && old(history) <= history && old(sessions) <= sessions && old(published) <= published
      ensures forall s | s in old(sessions) :: s.Steady()
    {
      hide Valid;
      for i := 0 to |schedule|
        invariant Valid() && old(history) <= history && old(sessions) <= sessions && old(published) <= published
        invariant fresh(sessions - old(sessions))
        invariant forall s | s in old(sessions) :: s.Steady()
      {
        Step(schedule[i]);
      }
    }

    method Step(action: Action)
      requires Valid()
      modifies this, sessions
      ensures Valid() && old(history) <= history && old(sessions) <= sessions && old(published) <= published
      ensures fresh(sessions - old(sessions))
      ensures forall s | s in old(sessions) :: s.Steady()
    {
      hide Subscriber.Valid, Increasing, Count, Bytes, Live, AtMost, Events, Query;
      match action
      case Record(size) =>
        var id := if history == [] then 1 else history[|history| - 1].id + 1;
        Record(Event(id, size));
      case Retain(n) =>
        if kept <= n <= |history| { kept := n; }
      case Publish =>
        if published < |history| { Publish(); }
      case PublishPerformance(status) => PublishPerformance(status);
      case Open(lastEventId) => var _ := Open(lastEventId);
      case Advance(status) =>
        if subscribers != {} {
          var s :| s in subscribers;
          var _ := Advance(s, status);
        }
      case Heartbeat =>
        if subscribers != {} {
          var s :| s in subscribers;
          s.Heartbeat(history, published);
        }
      case Abort =>
        if subscribers != {} {
          var s :| s in subscribers;
          CloseSubscriber(s);
        }
      case Close => Close();
    }
  }

  /** A subscriber that asks to resume past everything, while nothing is stored. */
  method ResetOnNothing() returns (hub: AdminEventStreamHub, s: Subscriber)
    ensures fresh(hub) && hub.Valid() && fresh(hub.sessions) && s in hub.sessions && s.from == 0
    ensures hub.history == [] && hub.published == 0
    ensures s.reset && s.newest.None? && s.resume == Some(500)
  {
    hide Subscriber.Valid, Increasing, AdminEventStreamHub.Valid;
    hub := new AdminEventStreamHub();
    var first := hub.Open(Some(500));
    s := first.subscriber;
    var asked := hub.Advance(s, None);
    var answered := hub.Advance(s, None);
  }

  /** It is reset; the next event is published and never sent to it, whatever happens then. */
  method ResetLosesEvent(schedule: seq<Action>) returns (hub: AdminEventStreamHub, s: Subscriber)
    ensures fresh(hub) && hub.Valid() && s in hub.sessions && s.reset
    ensures [Event(1, 10)] <= hub.history && hub.published > 0 && s.from == 0
    ensures Event(1, 10) !in Events(s.sent)
  {
    hide Subscriber.Valid, Increasing, AdminEventStreamHub.Valid;
    hub, s := ResetOnNothing();
    hub.Record(Event(1, 10));
    hub.Publish();
    hub.Run(schedule);
    hub.StaysLost(s, Event(1, 10));
  }
}
