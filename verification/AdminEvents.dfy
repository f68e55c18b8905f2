/**
 The event stream of the administration interface: a replay of recorded events in batches, the
 live events that arrive meanwhile, and a budget on what may wait for a slow reader.
 */
module AdminEvents {
  import opened Options
  import opened EventHistory

  const SUBSCRIBER_CAP := 8
  const QUEUE_CAP := 128
  const QUEUE_BYTES := 1_048_576

  datatype Frame =
    | Operational(event: Event)
    | Performance(size: nat)
    | Reset(latest: Option<nat>)
    | KeepAlive

  predicate Counted(f: Frame) {
    f.Operational? || f.Performance?
  }

  function Size(f: Frame): nat {
    match f
    case Operational(e) => e.size
    case Performance(size) => size
    case Reset(_) => 0
    case KeepAlive => 0
  }

  function Count(fs: seq<Frame>): nat {
    if fs == [] then 0 else Count(fs[..|fs| - 1]) + if Counted(fs[|fs| - 1]) then 1 else 0
  }

  function Bytes(fs: seq<Frame>): nat {
    if fs == [] then 0 else Bytes(fs[..|fs| - 1]) + if Counted(fs[|fs| - 1]) then Size(fs[|fs| - 1]) else 0
  }

  function Events(fs: seq<Frame>): seq<Event> {
    if fs == [] then []
    else Events(fs[..|fs| - 1]) + if fs[|fs| - 1].Operational? then [fs[|fs| - 1].event] else []
  }

  predicate Superseded(f: Frame, through: nat) {
    f.Operational? && f.event.id <= through
  }

  /** The frames a replay up to the bound does not cover. */
  function Live(fs: seq<Frame>, through: nat): seq<Frame> {
    if fs == [] then []
    else Live(fs[..|fs| - 1], through) + if Superseded(fs[|fs| - 1], through) then [] else [fs[|fs| - 1]]
  }

  function Frames(items: seq<Event>): (fs: seq<Frame>)
    ensures |fs| == |items| && forall i | 0 <= i < |fs| :: fs[i] == Operational(items[i])
  {
    seq(|items|, i requires 0 <= i < |items| => Operational(items[i]))
  }

  lemma {:induction false} Concat(a: seq<Frame>, b: seq<Frame>)
    ensures Count(a + b) == Count(a) + Count(b)
    ensures Bytes(a + b) == Bytes(a) + Bytes(b)
    ensures Events(a + b) == Events(a) + Events(b)
    decreases |b|
  {
    if b == [] {
      assert a + b == a;
    } else {
      var c := b[..|b| - 1];
      Concat(a, c);
      assert (a + b)[..|a + b| - 1] == a + c;
    }
  }

  lemma {:induction false} LiveConcat(a: seq<Frame>, b: seq<Frame>, through: nat)
    ensures Live(a + b, through) == Live(a, through) + Live(b, through)
    decreases |b|
  {
    if b == [] {
      assert a + b == a;
    } else {
      var c := b[..|b| - 1];
      LiveConcat(a, c, through);
      assert (a + b)[..|a + b| - 1] == a + c;
    }
  }

  lemma {:induction false} FramesEvents(items: seq<Event>)
    ensures Events(Frames(items)) == items && Count(Frames(items)) == |items|
  {
    if items != [] {
      var rest := items[..|items| - 1];
      FramesEvents(rest);
      assert Frames(items)[..|items| - 1] == Frames(rest);
      assert items == rest + [items[|items| - 1]];
    }
  }

  lemma {:induction false} LiveEvents(fs: seq<Frame>, through: nat)
    requires Increasing(Events(fs))
    ensures Events(Live(fs, through)) == After(Events(fs), through)
  {
    if fs != [] {
      hide Increasing, After, Count, Bytes;
      var rest := fs[..|fs| - 1];
      var f := fs[|fs| - 1];
      PrefixIncreases(Events(fs), |Events(rest)|);
      assert Events(fs)[..|Events(rest)|] == Events(rest);
      LiveEvents(rest, through);
      if f.Operational? { AfterAppend(Events(rest), f.event, through); }
      if Superseded(f, through) {
        assert Live(fs, through) == Live(rest, through);
      } else {
        EventsAppend(Live(rest, through), f);
        assert !f.Operational? ==> Events(fs) == Events(rest);
      }
    }
  }

  lemma EventsAppend(fs: seq<Frame>, f: Frame)
    ensures Events(fs + [f]) == Events(fs) + if f.Operational? then [f.event] else []
  {
    assert (fs + [f])[..|fs|] == fs;
  }

  lemma {:induction false} LiveCounts(fs: seq<Frame>, through: nat)
    ensures Count(Live(fs, through)) <= Count(fs) && Bytes(Live(fs, through)) <= Bytes(fs)
  {
    if fs != [] {
      var rest := fs[..|fs| - 1];
      var f := fs[|fs| - 1];
      LiveCounts(rest, through);
      if Superseded(f, through) {
        assert Live(fs, through) == Live(rest, through);
      } else {
        assert (Live(rest, through) + [f])[..|Live(rest, through)|] == Live(rest, through);
      }
    }
  }

  lemma LiveHead(f: Frame, rest: seq<Frame>, through: nat)
    ensures Live([f] + rest, through) ==
            if f.Operational? && f.event.id <= through then Live(rest, through) else [f] + Live(rest, through)
  {
    LiveConcat([f], rest, through);
    assert [f][..0] == [];
    assert Live([f], through) == if Superseded(f, through) then [] else [f];
    assert [] + Live(rest, through) == Live(rest, through);
  }

  /** One step of the scan from the back. */
  lemma LiveStep(fs: seq<Frame>, index: nat, through: nat)
    requires index < |fs|
    ensures var before := fs[..index + 1] + Live(fs[index + 1..], through);
            var after := fs[..index] + Live(fs[index..], through);
            before[index] == fs[index]
            && if Superseded(fs[index], through) then
                 after == before[..index] + before[index + 1..]
                 && Count(after) == Count(before) - 1 && Bytes(after) == Bytes(before) - Size(fs[index])
               else
                 after == before
  {
    hide Live, Count, Bytes;
    var f := fs[index];
    var tail := Live(fs[index + 1..], through);
    LiveHead(f, fs[index + 1..], through);
    assert [f] + fs[index + 1..] == fs[index..];
    assert fs[..index + 1] == fs[..index] + [f];
    Removal(fs[..index], f, tail);
    Spliced(fs[..index], f, tail);
    assert Superseded(f, through) ==> Counted(f);
  }

  lemma Removal(a: seq<Frame>, f: Frame, b: seq<Frame>)
    ensures Count((a + [f]) + b) == Count(a + b) + if Counted(f) then 1 else 0
    ensures Bytes((a + [f]) + b) == Bytes(a + b) + if Counted(f) then Size(f) else 0
  {
    Concat(a, [f]);
    Concat(a + [f], b);
    Concat(a, b);
    Head([f]);
    hide *;
  }

  lemma Spliced<T>(a: seq<T>, f: T, b: seq<T>)
    ensures (a + [f]) + b == a + ([f] + b)
    ensures var before := (a + [f]) + b; before[..|a|] == a && before[|a| + 1..] == b
  {
  }

  datatype Pulling = Resting | Replaying(answer: Replay) | Waiting | Woken

  datatype Pulled = Sent(frame: Frame) | Pending | Ended

  class Subscriber {
    var queue: seq<Frame>
    var replay: seq<Frame>
    var replayBytes: int
    var replayCursor: Option<nat>
    var replayThrough: Option<nat>
    var replayStarted: bool
    var replayDone: bool
    var initialFrame: Option<Frame>
    var performancePending: bool
    var queuedBytes: int
    var queuedEvents: int
    var latestLiveEventId: Option<nat>
    var closed: bool
    var pulling: Pulling
    ghost var resume: Option<nat>
    ghost var from: nat
    ghost var seen: nat
    ghost var reset: bool
    ghost var newest: Option<nat> // the newest id of the first answer
    ghost var sent: seq<Frame>

    ghost function Standing(): Account
      reads `resume, `reset, `newest, `sent, `replay, `queue, `replayCursor, `replayThrough, `replayDone
    {
      Account(resume, replayCursor, newest, replayThrough, replayDone, reset, Events(sent), Events(replay), Events(queue))
    }

    /** The counters are the sums over the buffers, and within the budget. */
    ghost predicate Budget()
      reads `queue, `replay, `replayBytes, `queuedBytes, `queuedEvents
    {
      queuedEvents == Count(queue) && queuedBytes == Bytes(queue) && replayBytes == Bytes(replay)
      && (forall f | f in replay :: f.Operational?)
      && queuedEvents + |replay| <= QUEUE_CAP
      && queuedBytes + replayBytes <= QUEUE_BYTES
    }

    /** What was sent is in order and nothing is missing in between, even if it was cut short. */
    ghost predicate Sound(h: seq<Event>)
      reads `reset, `newest, `resume, `from, `sent, `replayCursor
    {
      from <= |h|
      && (reset ==> SoundReset(h))
      && (!reset && resume.Some? ==> Events(sent) <= After(h, resume.value))
      && (resume.None? ==> Events(sent) <= h[from..])
    }

    /** After a reset: the part that was replayed before, and then the live events after the bound. */
    ghost predicate SoundReset(h: seq<Event>)
      requires from <= |h|
      reads `newest, `resume, `from, `sent, `replayCursor
    {
      resume.Some? && replayCursor.Some?
      && (replayCursor == resume || (newest.Some? && Reached(h, replayCursor.value)))
      && Events(sent) <= Between(h, resume.value, replayCursor.value) + After(h[from..], Bound(resume.value, newest))
    }

    /** What a subscriber asked for stays, and a reset is for good. */
    twostate predicate Steady()
      reads `resume, `from, `reset, `newest
    {
      resume == old(resume) && from == old(from) && (old(reset) ==> reset && newest == old(newest))
    }

    /** A live event with this id is left to the replay. */
    predicate Covers(id: nat)
      reads `replayThrough
    {
      replayThrough.Some? && id <= replayThrough.value
    }

    /** The next pull asks the store. */
    predicate Asks()
      reads `closed, `replay, `initialFrame, `replayDone, `replayCursor, `pulling
    {
      !closed && pulling.Resting? && replay == [] && initialFrame.None? && !replayDone && replayCursor.Some?
    }

    /** A pull in progress: a replay query that was answered, or a wait for the next frame. */
    ghost predicate PullOk(h: seq<Event>)
      reads `replayDone, `replay, `queue, `replayThrough, `replayCursor, `pulling, `from, `seen
    {
      match pulling
      case Resting => true
      case Replaying(answer) =>
        replay == [] && !replayDone && replayCursor.Some?
        && from <= seen && Answers(h, seen, replayCursor.value, answer)
        && (replayThrough.Some? && answer.found ==> replayThrough.value <= h[seen - 1].id)
      case Waiting => replayDone && replay == [] && queue == []
      case Woken => replayDone && replay == [] && queue != []
    }

    /** What was sent and what is on its way is what was asked for. */
    ghost predicate Owed(h: seq<Event>, published: nat)
      reads `resume, `from, `reset, `newest, `sent, `replay, `queue, `replayCursor, `replayThrough, `replayDone,
            `latestLiveEventId
    {
      Settled(h, published, from, Standing(), latestLiveEventId)
    }

    static ghost predicate Settled(h: seq<Event>, published: nat, from: nat, a: Account, latest: Option<nat>) {
      from <= published <= |h|
      && Exact(h, h[from..published], a)
      && (a.through.Some? && !a.reset ==> UpTo(h, a.through.value) >= from)
      && (latest.Some? ==> published > 0 && latest.value <= h[published - 1].id)
    }

    ghost predicate Reading(h: seq<Event>)
      reads `initialFrame, `replayDone, `replay, `queue, `replayStarted, `replayThrough, `replayCursor,
            `pulling, `from, `seen
    {
      (initialFrame.Some? ==> initialFrame.value.Reset? && replayDone && replay == [])
      && replayStarted == replayThrough.Some?
      && PullOk(h)
    }

    ghost predicate Valid(h: seq<Event>, published: nat)
      reads this
    {
      Sound(h) && Budget()
      && (closed ==> queue == [] && replay == [])
      && (!closed ==> Owed(h, published) && Reading(h))
    }

    constructor (lastEventId: Option<nat>, h: seq<Event>, published: nat)
      requires Increasing(h) && published <= |h|
      ensures Valid(h, published) && !closed && resume == lastEventId && from == published && sent == []
      ensures queue == [] && replay == [] && performancePending && pulling.Resting? && initialFrame.None?
      ensures !reset && !replayStarted && replayCursor == lastEventId && (lastEventId.Some? ==> Asks())
    {
      queue, replay, replayBytes, replayCursor, replayThrough := [], [], 0, lastEventId, None;
      replayStarted, replayDone, initialFrame, performancePending := false, lastEventId.None?, None, true;
      queuedBytes, queuedEvents, latestLiveEventId, closed, pulling := 0, 0, None, false, Resting;
      resume, from, seen, reset, newest, sent := lastEventId, published, 0, false, None, [];
    }

    method Close()
      requires Budget()
      modifies `queue, `replay, `replayBytes, `queuedBytes, `queuedEvents, `closed, `pulling
      ensures Budget() && closed
      ensures old(closed) ==> queue == old(queue) && replay == old(replay)
      ensures !old(closed) ==> queue == [] && replay == [] && pulling.Resting?
    {
      if closed { return; }
      closed := true;
      queue, replay, replayBytes, queuedBytes, queuedEvents := [], [], 0, 0, 0;
      pulling := Resting;
    }

    /** An aborted request, a failed replay, or the end of the hub. */
    method Cut(ghost h: seq<Event>, ghost published: nat)
      requires Valid(h, published)
      modifies this
      ensures Valid(h, published) && closed && sent == old(sent) && Steady()
    {
      hide Sound, Owed, Reading, Budget;
      Close();
    }

    /** Adds a frame, or closes a subscriber that reads too slowly. */
    method Enqueue(frame: Frame)
      requires Budget()
      modifies `queue, `replay, `replayBytes, `queuedBytes, `queuedEvents, `closed, `pulling
      ensures Budget()
      ensures old(closed) ==> closed && queue == old(queue) && replay == old(replay)
      ensures !old(closed) ==>
                (closed <==> Counted(frame)
                             && (old(queuedEvents) + |old(replay)| >= QUEUE_CAP
                                 || old(queuedBytes) + old(replayBytes) + Size(frame) > QUEUE_BYTES))
      ensures !old(closed) && closed ==> queue == [] && replay == []
      ensures !closed ==>
                queue == (if Counted(frame) || (old(queue) == [] && replay == [] && !performancePending)
                          then old(queue) + [frame] else old(queue))
                && Events(queue) == (if frame.Operational? then old(Events(queue)) + [frame.event] else old(Events(queue)))
                && replay == old(replay)
                && pulling == (if queue != old(queue) && old(pulling).Waiting? then Woken else old(pulling))
    {
      hide Count, Bytes, Events;
      if closed { return; }
      if !Counted(frame) && (|queue| > 0 || |replay| > 0 || performancePending) {
        return;
      }
      if Counted(frame) && (queuedEvents + |replay| >= QUEUE_CAP
                            || queuedBytes + replayBytes + Size(frame) > QUEUE_BYTES) {
        Close();
        return;
      }
      Head([frame]);
      Concat(queue, [frame]);
      queue := queue + [frame];
      if Counted(frame) {
        queuedEvents := queuedEvents + 1;
        queuedBytes := queuedBytes + Size(frame);
      }
      if pulling.Waiting? { pulling := Woken; }
    }

    /** Takes one frame from the replay buffer. */
    method TakeReplay() returns (frame: Frame)
      requires Budget() && replay != []
      modifies `replay, `replayBytes, `sent
      ensures Budget()
      ensures frame == old(replay)[0] && replay == old(replay)[1..] && sent == old(sent) + [frame]
      ensures Events(sent) == if frame.Operational? then old(Events(sent)) + [frame.event] else old(Events(sent))
      ensures !frame.Operational? ==> Events(replay) == old(Events(replay))
    {
      frame := replay[0];
      Head(replay);
      Concat(sent, [frame]);
      replay := replay[1..];
      replayBytes := replayBytes - Size(frame);
      sent := sent + [frame];
    }

    method TakeQueue() returns (frame: Frame)
      requires Budget() && queue != []
      modifies `queue, `queuedEvents, `queuedBytes, `sent
      ensures Budget()
      ensures frame == old(queue)[0] && queue == old(queue)[1..] && sent == old(sent) + [frame]
      ensures Events(sent) == if frame.Operational? then old(Events(sent)) + [frame.event] else old(Events(sent))
      ensures !frame.Operational? ==> Events(queue) == old(Events(queue))
    {
      frame := queue[0];
      Head(queue);
      Concat(sent, [frame]);
      queue := queue[1..];
      if Counted(frame) {
        queuedEvents := queuedEvents - 1;
        queuedBytes := queuedBytes - Size(frame);
      }
      sent := sent + [frame];
    }

    method DiscardReplayedLiveEvents()
      requires Budget() && replayThrough.Some?
      modifies `queue, `queuedEvents, `queuedBytes
      ensures Budget()
      ensures queue == Live(old(queue), replayThrough.value)
    {
      LiveCounts(queue, replayThrough.value);
      hide Live, Count, Bytes;
      Splice(replayThrough.value);
    }

    /** Splices superseded frames out, from the back. */
    method Splice(through: nat)
      requires queuedEvents == Count(queue) && queuedBytes == Bytes(queue)
      modifies `queue, `queuedEvents, `queuedBytes
      ensures queue == Live(old(queue), through)
      ensures queuedEvents == Count(queue) && queuedBytes == Bytes(queue)
    {
      var index := |queue|;
      ghost var was := queue;
      assert was[..index] + Live(was[index..], through) == was;
      hide *;
      while index > 0
        invariant 0 <= index <= |was|
        invariant queue == was[..index] + Live(was[index..], through)
        invariant queuedEvents == Count(queue) && queuedBytes == Bytes(queue)
      {
        index := index - 1;
        LiveStep(was, index, through);
        var pending := queue[index];
        if Superseded(pending, through) {
          queue := queue[..index] + queue[index + 1..];
          queuedEvents := queuedEvents - 1;
          queuedBytes := queuedBytes - Size(pending);
        }
      }
      assert was[0..] == was && was[..0] + queue == queue;
    }

    /** An open subscriber has been sent a prefix of what it asked for, and all of it once
        nothing is waiting. */
    lemma ExactIsSound(h: seq<Event>, published: nat)
      requires Increasing(h) && Owed(h, published)
      ensures Sound(h)
      ensures resume.Some? && !reset ==>
                Increasing(Events(sent))
                && (replayDone && replay == [] && queue == [] && published == |h| ==>
                      Events(sent) == After(h, resume.value))
    {
      if resume.Some? && !reset {
        ExactlyOnce(h, from, published, Standing());
      }
      if resume.None? {
        assert Events(sent) <= h[from..published] <= h[from..];
      }
      if reset { ResetIsSound(h, published); }
    }

    lemma ResetIsSound(h: seq<Event>, published: nat)
      requires Increasing(h) && Owed(h, published) && reset
      ensures SoundReset(h)
    {
      var bound := Bound(resume.value, newest);
      var base := Between(h, resume.value, replayCursor.value);
      AfterPrefix(h, from, published, bound);
      assert Events(sent) <= Events(sent) + Events(queue);
      assert base + After(h[from..published], bound) <= base + After(h[from..], bound);
    }

    lemma AfterPrefix(h: seq<Event>, from: nat, published: nat, bound: nat)
      requires Increasing(h) && from <= published <= |h|
      ensures After(h[from..published], bound) <= After(h[from..], bound)
    {
      IncreasingSlice(h, from, published);
      IncreasingSlice(h, from, |h|);
      var low, high := h[from..published], h[from..];
      assert forall i | 0 <= i < |low| :: low[i] == high[i];
      var n := UpTo(low, bound);
      if n < |low| {
        UpToIs(high, bound, n);
      } else {
        assert After(low, bound) == [];
      }
    }

    lemma SoundResetGrows(h: seq<Event>, e: Event)
      requires Increasing(h + [e]) && from <= |h| && SoundReset(h)
      ensures SoundReset(h + [e])
    {
      hide Increasing, UpTo, After, Between, Events;
      var bound := Bound(resume.value, newest);
      LaterAppend(h, e, from, bound);
      CursorBehind(h, e);
      assert Between(h, resume.value, replayCursor.value) + After(h[from..], bound)
             <= Between(h, resume.value, replayCursor.value) + After((h + [e])[from..], bound);
    }

    lemma LaterAppend(h: seq<Event>, e: Event, from: nat, bound: nat)
      requires Increasing(h + [e]) && from <= |h|
      ensures After(h[from..], bound) <= After((h + [e])[from..], bound)
    {
      IncreasingSlice(h + [e], from, |h| + 1);
      hide Increasing, UpTo, After;
      assert (h + [e])[from..] == h[from..] + [e];
      AfterAppend(h[from..], e, bound);
    }

    lemma CursorBehind(h: seq<Event>, e: Event)
      requires Increasing(h + [e]) && resume.Some? && replayCursor.Some?
      requires replayCursor == resume || Reached(h, replayCursor.value)
      ensures Between(h + [e], resume.value, replayCursor.value) == Between(h, resume.value, replayCursor.value)
      ensures Reached(h, replayCursor.value) ==> Reached(h + [e], replayCursor.value)
    {
      assert h != [] ==> (h + [e])[|h| - 1].id < (h + [e])[|h|].id;
      if replayCursor == resume {
        NothingBetween(h, resume.value);
        NothingBetween(h + [e], resume.value);
      } else {
        UpToAppend(h, e, replayCursor.value);
        UpToAppend(h, e, resume.value);
      }
    }

    /** What a subscriber that was reset has lost: nothing that is newer than the first answer's
        newest event, unless there was none and the id is not past the one asked for. */
    lemma LostAfterReset(h: seq<Event>, published: nat, e: Event)
      requires Increasing(h) && Owed(h, published) && reset && e in h[from..published]
      requires newest.Some? ==> e.id > newest.value
      ensures resume.Some?
      ensures e !in Events(sent) + Events(queue) <==> newest.None? && e.id <= resume.value
    {
      IncreasingSlice(h, from, published);
      AfterReset(h, h[from..published], Standing(), e);
    }

    /** And what is lost stays lost, also when the subscriber is closed. */
    lemma NeverSent(h: seq<Event>, e: Event)
      requires Increasing(h) && Sound(h) && reset && newest.None? && e.id <= resume.value
      ensures e !in Events(sent)
    {
      NothingBetween(h, resume.value);
      IncreasingSlice(h, from, |h|);
      AfterMeans(h[from..], resume.value);
      hide Between, After, Increasing;
      var later := After(h[from..], resume.value);
      assert [] + later == later;
      NotInPrefix(Events(sent), later, e);
    }

    /** A recorded event is visible to replays before it is published. */
    lemma RecordKeepsValid(h: seq<Event>, published: nat, e: Event)
      requires Valid(h, published) && Increasing(h + [e]) && published <= |h|
      ensures Valid(h + [e], published)
    {
      if resume.Some? { AfterAppend(h, e, resume.value); }
      if reset { SoundResetGrows(h, e); }
      assert Sound(h + [e]);
      if !closed {
        RecordKeepsOwed(h, published, e);
        if pulling.Replaying? { AnswersAppend(h, e, seen, replayCursor.value, pulling.answer); }
        hide Exact, Increasing, Owed, Sound, UpTo, Answers, After, Budget;
      }
    }

    lemma RecordKeepsOwed(h: seq<Event>, published: nat, e: Event)
      requires Owed(h, published) && Increasing(h + [e])
      ensures Owed(h + [e], published)
    {
      RecordKeeps(h, h[from..published], Standing(), e);
      if replayThrough.Some? { UpToAppend(h, e, replayThrough.value); }
      hide Exact, Increasing, UpTo;
      assert (h + [e])[from..published] == h[from..published];
    }

    lemma PublishKeepsOwed(h: seq<Event>, published: nat)
      requires Increasing(h) && published < |h| && Owed(h, published)
      ensures var e := h[published];
              if replayThrough.Some? && e.id <= replayThrough.value then
                Settled(h, published + 1, from, Standing(), latestLiveEventId)
              else
                Settled(h, published + 1, from, Standing().(queue := Events(queue) + [e]), Some(e.id))
      ensures latestLiveEventId.Some? ==> latestLiveEventId.value < h[published].id
    {
      hide Increasing, UpTo, Events, Exact;
      var live := h[from..published];
      assert h[from..published + 1] == live + [h[published]];
      IncreasingSlice(h, from, published + 1);
      NextIsLarger(h, published);
      PublishKeeps(h, live, Standing(), h[published]);
    }

    /** Publication of the next event to this subscriber. */
    method Receive(e: Event, ghost h: seq<Event>, ghost published: nat)
      requires Increasing(h) && published < |h| && h[published] == e && Valid(h, published) && !closed
      modifies this
      ensures Valid(h, published + 1)
      ensures Steady() && sent == old(sent)
      ensures closed <==>
              !old(Covers(e.id))
              && (old(queuedEvents) + |old(replay)| >= QUEUE_CAP
                  || old(queuedBytes) + old(replayBytes) + e.size > QUEUE_BYTES)
      ensures !closed ==>
                queue == (if old(Covers(e.id)) then old(queue) else old(queue) + [Operational(e)])
                && replay == old(replay)
                && pulling == if queue != old(queue) && old(pulling).Waiting? then Woken else old(pulling)
    {
      hide Sound, Settled, Increasing, Events, After, UpTo, Answers, Budget;
      PublishKeepsOwed(h, published);
      if (replayThrough.Some? && e.id <= replayThrough.value)
         || (latestLiveEventId.Some? && e.id <= latestLiveEventId.value) {
        return;
      }
      latestLiveEventId := Some(e.id);
      Enqueue(Operational(e));
    }

    method ReceivePerformance(size: nat, ghost h: seq<Event>, ghost published: nat)
      requires Increasing(h) && Valid(h, published)
      modifies this
      ensures Valid(h, published)
      ensures Steady() && sent == old(sent)
      ensures !old(closed) ==>
                (closed <==> old(queuedEvents) + |old(replay)| >= QUEUE_CAP
                             || old(queuedBytes) + old(replayBytes) + size > QUEUE_BYTES)
      ensures !closed ==> queue == old(queue) + [Performance(size)] && replay == old(replay)
      ensures !closed ==> pulling == if old(pulling).Waiting? then Woken else old(pulling)
    {
      hide Settled, Increasing, Events, After, UpTo, Answers, Budget;
      Enqueue(Performance(size));
    }

    method Heartbeat(ghost h: seq<Event>, ghost published: nat)
      requires Increasing(h) && Valid(h, published)
      modifies this
      ensures Valid(h, published) && closed == old(closed)
      ensures Steady() && sent == old(sent) && replay == old(replay)
      ensures queue == if !closed && old(queue) == [] && replay == [] && !performancePending then [KeepAlive]
                       else old(queue)
    {
      hide Settled, Increasing, Events, After, UpTo, Answers, Budget;
      Enqueue(KeepAlive);
    }

    /** The start of a pull, up to its frame, its end, or a point where it has to wait. */
    method Pull(stored: seq<Event>, status: Option<nat>, ghost h: seq<Event>, ghost published: nat, ghost kept: nat)
      returns (r: Pulled)
      requires Increasing(h) && Valid(h, published) && pulling.Resting?
      requires published <= |h| && kept <= |h| && stored == h[kept..]
      modifies this
      ensures Valid(h, published)
      ensures r.Ended? <==> closed
      ensures sent == old(sent) + if r.Sent? then [r.frame] else []
      ensures Steady()
      ensures old(Asks()) ==>
                r.Pending? && pulling == Replaying(Query(stored, old(replayCursor).value)) && !closed
                && replayStarted == old(replayStarted)
      ensures old(closed) ==> r.Ended?
      ensures if old(closed) || old(Asks())
              then initialFrame == old(initialFrame) && queue == old(queue) && replay == old(replay)
              else initialFrame == if old(replay) == [] then None else old(initialFrame)
      ensures performancePending <==>
                old(performancePending)
                && (old(closed) || old(Asks()) || old(replay) != [] || old(initialFrame).Some?)
      ensures !old(closed) && !old(Asks()) ==>
                if old(replay) != [] then r == Sent(old(replay)[0]) && replay == old(replay)[1..] && queue == old(queue)
                else if old(initialFrame).Some? then r == Sent(old(initialFrame).value) && queue == old(queue)
                else if old(performancePending) then
                  r == (if status.Some? then Sent(Performance(status.value)) else Ended)
                  && (status.Some? ==> queue == old(queue) && !performancePending)
                else if old(queue) == [] then r.Pending? && pulling.Waiting?
                else r == Sent(old(queue)[0]) && queue == old(queue)[1..]
    {
      hide Sound, Settled, Increasing, Events, After, UpTo, Answers, Budget, Query;
      if closed { return Ended; }
      Unfinished(h, published);
      if replay == [] && initialFrame.None? && !replayDone && replayCursor.Some? {
        QueryAnswers(h, kept, replayCursor.value);
        pulling, seen := Replaying(Query(stored, replayCursor.value)), |h|;
        return Pending;
      }
      r := NextBuffered(status, h, published);
    }

    /** The replay buffer first, then a reset, then what comes after the replay. */
    method NextBuffered(status: Option<nat>, ghost h: seq<Event>, ghost published: nat) returns (r: Pulled)
      requires Increasing(h) && Valid(h, published) && pulling.Resting? && !closed
      requires replay != [] || initialFrame.Some? || replayDone
      modifies `queue, `replay, `replayBytes, `queuedBytes, `queuedEvents, `closed, `pulling, `sent,
               `initialFrame, `performancePending
      ensures Valid(h, published)
      ensures r.Ended? <==> closed
      ensures sent == old(sent) + if r.Sent? then [r.frame] else []
      ensures old(replay) != [] || old(initialFrame).Some? ==>
                !closed && pulling.Resting? && performancePending == old(performancePending)
      ensures initialFrame == if old(replay) == [] then None else old(initialFrame)
      ensures if old(replay) != [] then r == Sent(old(replay)[0]) && replay == old(replay)[1..] && queue == old(queue)
              else if old(initialFrame).Some? then r == Sent(old(initialFrame).value) && queue == old(queue)
              else if old(performancePending) then
                r == (if status.Some? then Sent(Performance(status.value)) else Ended)
                && !performancePending && (status.Some? ==> queue == old(queue))
              else if old(queue) == [] then r.Pending? && pulling.Waiting? && !performancePending
              else r == Sent(old(queue)[0]) && queue == old(queue)[1..] && !performancePending
    {
      hide Sound, Settled, Increasing, Events, After, UpTo, Answers, Budget;
      Unfinished(h, published);
      if replay != [] {
        SendReplayKeeps(h, published);
        var frame := TakeReplay();
        ExactIsSound(h, published);
        return Sent(frame);
      }
      if initialFrame.Some? {
        SkipKeeps(sent, initialFrame.value);
        sent := sent + [initialFrame.value];
        r := Sent(initialFrame.value);
        initialFrame := None;
        ExactIsSound(h, published);
        return;
      }
      r := Deliver(status, h, published);
    }

    /** The first answer: fixes the bound, and drops what the replay will send. */
    method Start(answer: Replay, ghost h: seq<Event>, ghost published: nat)
      requires Increasing(h) && Valid(h, published) && !closed
      requires pulling == Replaying(answer) && !replayStarted
      modifies `replayStarted, `replayThrough, `queue, `queuedEvents, `queuedBytes,
               `replayDone, `initialFrame, `pulling, `reset, `newest
      ensures Valid(h, published) && replayStarted && newest == answer.latest && reset == !answer.found
      ensures !old(reset)
      ensures replayThrough == if answer.latest.None? then replayCursor else answer.latest
      ensures replayThrough.Some? && queue == Live(old(queue), replayThrough.value)
      ensures if answer.found then pulling == Replaying(answer) && answer.latest.Some?
              else pulling.Resting? && replayDone && initialFrame == Some(Reset(answer.latest))
    {
      hide Sound, Settled, Increasing, Events, After, UpTo, Answers, Budget, Live;
      StartSettles(answer, h, published);
      SetThrough(if answer.latest.None? then replayCursor else answer.latest);
      newest := answer.latest;
      if answer.found {
        ExactIsSound(h, published);
      } else {
        EndReplay(answer.latest);
        ExactIsSound(h, published);
      }
    }

    /** The cursor was not found: nothing more is replayed, and a reset comes next. */
    method EndReplay(latest: Option<nat>)
      modifies `replayDone, `initialFrame, `pulling, `reset
      ensures replayDone && reset && pulling.Resting? && initialFrame == Some(Reset(latest))
    {
      replayDone, reset, pulling := true, true, Resting;
      initialFrame := Some(Reset(latest));
    }

    method SetThrough(through: Option<nat>)
      requires Budget() && through.Some?
      modifies `replayStarted, `replayThrough, `queue, `queuedEvents, `queuedBytes
      ensures Budget() && replayStarted && replayThrough == through && queue == Live(old(queue), through.value)
    {
      hide Budget, Live;
      replayStarted, replayThrough := true, through;
      DiscardReplayedLiveEvents();
    }

    lemma StartSettles(answer: Replay, h: seq<Event>, published: nat)
      requires Increasing(h) && Owed(h, published) && Reading(h)
      requires pulling == Replaying(answer) && !replayStarted
      ensures var through := if answer.latest.None? then replayCursor.value else answer.latest.value;
              var b := Standing().(newest := answer.latest, through := Some(through), queue := Events(Live(queue, through)));
              Settled(h, published, from, b.(done := !answer.found, reset := !answer.found), latestLiveEventId)
      ensures !reset && (answer.found ==> answer.latest == Some(h[seen - 1].id))
    {
      var through := if answer.latest.None? then replayCursor.value else answer.latest.value;
      IncreasingSlice(h, from, published);
      assert Events(sent) + Events(queue) == h[from..published];
      assert Events(queue) == h[from..published] by { if resume.Some? { assert [] + Events(queue) == Events(queue); } }
      LiveEvents(queue, through);
      StartKeeps(h, h[from..published], Standing(), seen, answer);
      if answer.found { UpToIs(h, through, seen); }
    }

    /** The cursor is gone: the replay ends with a reset. */
    method Lose(answer: Replay, ghost h: seq<Event>, ghost published: nat)
      requires Increasing(h) && Valid(h, published) && !closed
      requires pulling == Replaying(answer) && replayStarted && !answer.found
      modifies `replayDone, `initialFrame, `pulling, `reset
      ensures Valid(h, published)
      ensures pulling.Resting? && replayDone && initialFrame == Some(Reset(answer.latest)) && reset
    {
      hide Sound, Settled, Increasing, Events, After, UpTo, Answers, Budget;
      LoseSettles(h, published);
      EndReplay(answer.latest);
      ExactIsSound(h, published);
    }

    lemma LoseSettles(h: seq<Event>, published: nat)
      requires Increasing(h) && Owed(h, published) && !replayDone && replay == [] && replayThrough.Some?
      ensures Settled(h, published, from, Standing().(done := true, reset := true), latestLiveEventId)
    {
      LostKeeps(h, h[from..published], Standing());
    }

    /** Buffers one batch, or closes the subscriber if it does not fit the budget. */
    method Buffer(answer: Replay, ghost h: seq<Event>, ghost published: nat)
      requires Increasing(h) && Valid(h, published) && !closed
      requires pulling == Replaying(answer) && replayStarted && answer.found
      modifies `queue, `replay, `replayBytes, `queuedBytes, `queuedEvents, `closed, `pulling,
               `replayCursor, `replayDone
      ensures Valid(h, published)
      ensures !closed ==> pulling.Resting? && (replay != [] || replayDone)
      ensures !closed && !replayDone ==>
                replayCursor.value > old(replayCursor).value && replayCursor.value <= replayThrough.value
      ensures var items := AtMost(answer.items, replayThrough.value);
              closed <==> old(queuedEvents) + |items| > QUEUE_CAP
                          || old(queuedBytes) + Bytes(Frames(items)) > QUEUE_BYTES
      ensures var items := AtMost(answer.items, replayThrough.value);
              !closed ==>
                replay == Frames(items) && queue == old(queue)
                && replayCursor == (if items == [] then old(replayCursor) else Some(items[|items| - 1].id))
                && (replayDone <==> items == [] || items[|items| - 1].id >= replayThrough.value)
    {
      hide Sound, Settled, Increasing, Events, After, UpTo, Answers, Count, Bytes, AtMost, Frames;
      BufferSettles(answer, h, published);
      var through := replayThrough.value;
      var items := AtMost(answer.items, through); // a batch is never longer than its limit
      var frames := Frames(items);
      var bytes := Total(frames);
      if queuedEvents + |frames| > QUEUE_CAP || queuedBytes + bytes > QUEUE_BYTES {
        Close();
        return;
      }
      pulling, replay, replayBytes := Resting, frames, bytes;
      if items != [] { replayCursor := Some(items[|items| - 1].id); }
      if items == [] || items[|items| - 1].id >= through { replayDone := true; }
      ExactIsSound(h, published);
    }

    /** The `reduce` over a batch. */
    method Total(frames: seq<Frame>) returns (bytes: nat)
      ensures bytes == Bytes(frames)
    {
      bytes := 0;
      for i := 0 to |frames|
        invariant bytes == Bytes(frames[..i])
      {
        assert frames[..i + 1][..i] == frames[..i];
        bytes := bytes + if Counted(frames[i]) then Size(frames[i]) else 0;
      }
      assert frames[..|frames|] == frames;
    }

    lemma BufferSettles(answer: Replay, h: seq<Event>, published: nat)
      requires Increasing(h) && Owed(h, published) && Reading(h)
      requires pulling == Replaying(answer) && replayStarted && answer.found
      ensures |answer.items| <= REPLAY_BATCH_SIZE
      ensures var items := AtMost(answer.items, replayThrough.value);
              Events(Frames(items)) == items
              && Settled(h, published, from,
                         Standing().(replay := items,
                                     cursor := if items == [] then replayCursor else Some(items[|items| - 1].id),
                                     done := items == [] || items[|items| - 1].id >= replayThrough.value),
                         latestLiveEventId)
              && (items != [] ==> replayCursor.value < items[|items| - 1].id <= replayThrough.value)
    {
      FramesEvents(AtMost(answer.items, replayThrough.value));
      BatchKeeps(h, h[from..published], Standing(), seen, answer);
    }

    lemma NotInPrefix<T>(a: seq<T>, b: seq<T>, x: T)
      requires a <= b && x !in b
      ensures x !in a
    {
    }

    lemma NextIsLarger(h: seq<Event>, i: nat)
      requires Increasing(h) && i < |h|
      ensures i > 0 ==> h[i - 1].id < h[i].id
    {
    }

    lemma IncreasingSlice(h: seq<Event>, i: nat, j: nat)
      requires Increasing(h) && i <= j <= |h|
      ensures Increasing(h[i..j])
    {
    }

    lemma SkipKeeps(fs: seq<Frame>, f: Frame)
      requires !f.Operational?
      ensures Events(fs + [f]) == Events(fs)
    {
      Head([f]);
      Concat(fs, [f]);
    }

    lemma Unfinished(h: seq<Event>, published: nat)
      requires Owed(h, published) && Budget()
      ensures replayCursor.None? ==> replayDone
      ensures forall f | f in replay :: f.Operational?
      ensures !replayDone ==> from <= |h| && (replayThrough.Some? ==> h != [] && replayThrough.value <= h[|h| - 1].id)
    {
    }

    /** Moving the head of the replay buffer to what was sent changes nothing else. */
    lemma SendReplayKeeps(h: seq<Event>, published: nat)
      requires Owed(h, published) && replay != [] && replay[0].Operational?
      ensures Settled(h, published, from,
                      Standing().(sent := Events(sent) + [replay[0].event], replay := Events(replay[1..])),
                      latestLiveEventId)
    {
      Head(replay);
      SendKeeps(h, h[from..published], Standing());
      assert Events(replay)[..1] == [replay[0].event] && Events(replay)[1..] == Events(replay[1..]);
    }

    lemma SendQueueKeeps(h: seq<Event>, published: nat)
      requires Owed(h, published) && replayDone && replay == [] && queue != [] && queue[0].Operational?
      ensures Settled(h, published, from,
                      Standing().(sent := Events(sent) + [queue[0].event], queue := Events(queue[1..])),
                      latestLiveEventId)
    {
      Head(queue);
      SendKeeps(h, h[from..published], Standing());
      assert Events(queue)[..1] == [queue[0].event] && Events(queue)[1..] == Events(queue[1..]);
    }

    /** After the replay: one performance frame, then the queue. */
    method Deliver(status: Option<nat>, ghost h: seq<Event>, ghost published: nat) returns (r: Pulled)
      requires Increasing(h) && Valid(h, published) && pulling.Resting? && !closed
      requires replayDone && replay == [] && initialFrame.None?
      modifies `queue, `replay, `replayBytes, `queuedBytes, `queuedEvents, `closed, `pulling, `sent, `performancePending
      ensures Valid(h, published)
      ensures r.Ended? <==> closed
      ensures sent == old(sent) + if r.Sent? then [r.frame] else []
      ensures if old(performancePending) then
                r == (if status.Some? then Sent(Performance(status.value)) else Ended)
                && !performancePending && (status.Some? ==> queue == old(queue))
              else if old(queue) == [] then r.Pending? && pulling.Waiting? && !performancePending
              else r == Sent(old(queue)[0]) && queue == old(queue)[1..] && !performancePending
    {
      hide Settled, Increasing, Events, After, UpTo, Answers, Budget;
      if performancePending {
        performancePending := false;
        match status
        case None =>
          Close();
          return Ended;
        case Some(n) =>
          SkipKeeps(sent, Performance(n));
          sent := sent + [Performance(n)];
          return Sent(Performance(n));
      }
      if queue == [] {
        pulling := Waiting;
        return Pending;
      }
      r := TakeNext(h, published);
    }

    /** What the answer of a replay query does to the buffers. */
    method TakeAnswer(ghost h: seq<Event>, ghost published: nat)
      requires Increasing(h) && Valid(h, published) && pulling.Replaying? && !closed
      modifies this
      ensures Valid(h, published) && Steady() && sent == old(sent) && performancePending == old(performancePending)
      ensures !closed ==> pulling.Resting? && (replay != [] || initialFrame.Some? || replayDone)
      ensures !closed && !replayDone ==>
                replayCursor.value > old(replayCursor).value && replayCursor.value <= replayThrough.value
      ensures !old(replayStarted) ==> reset == !old(pulling).answer.found && newest == old(pulling).answer.latest
      ensures var answer := old(pulling).answer;
              && (replayThrough == if old(replayStarted) then old(replayThrough)
                                   else if answer.latest.None? then old(replayCursor) else answer.latest)
              && replayThrough.Some?
              && var rest := if old(replayStarted) then old(queue) else Live(old(queue), replayThrough.value);
                 var items := AtMost(answer.items, replayThrough.value);
                 (closed <==> answer.found
                              && (Count(rest) + |items| > QUEUE_CAP || Bytes(rest) + Bytes(Frames(items)) > QUEUE_BYTES))
                 && (!closed ==>
                       queue == rest && replay == (if answer.found then Frames(items) else [])
                       && initialFrame == if answer.found then None else Some(Reset(answer.latest)))
    {
      hide Sound, Settled, Increasing, Events, After, UpTo, Answers, AtMost, Count, Bytes, Live;
      var answer := pulling.answer;
      if !replayStarted {
        Start(answer, h, published);
      } else if !answer.found {
        Lose(answer, h, published);
      }
      if answer.found {
        Buffer(answer, h, published);
      }
    }

    /** The replay query has answered. */
    method Replayed(status: Option<nat>, ghost h: seq<Event>, ghost published: nat) returns (r: Pulled)
      requires Increasing(h) && Valid(h, published) && pulling.Replaying? && !closed
      modifies this
      ensures Valid(h, published)
      ensures r.Ended? <==> closed
      ensures sent == old(sent) + if r.Sent? then [r.frame] else []
      ensures Steady()
      ensures !closed && !replayDone ==>
                replayCursor.value > old(replayCursor).value && replayCursor.value <= replayThrough.value
      ensures !old(replayStarted) && !old(pulling).answer.found ==>
                !closed && reset && newest == old(pulling).answer.latest && pulling.Resting?
      ensures var answer := old(pulling).answer;
              && (replayThrough == if old(replayStarted) then old(replayThrough)
                                   else if answer.latest.None? then old(replayCursor) else answer.latest)
              && replayThrough.Some?
              && var rest := if old(replayStarted) then old(queue) else Live(old(queue), replayThrough.value);
                 var items := AtMost(answer.items, replayThrough.value);
                 if !answer.found then r == Sent(Reset(answer.latest)) && queue == rest
                 else if Count(rest) + |items| > QUEUE_CAP || Bytes(rest) + Bytes(Frames(items)) > QUEUE_BYTES then r.Ended?
                 else if items != [] then
                   r == Sent(Operational(items[0])) && replay == Frames(items)[1..] && queue == rest
                 else if old(performancePending) then r == if status.Some? then Sent(Performance(status.value)) else Ended
                 else if rest == [] then r.Pending? && pulling.Waiting?
                 else r == Sent(rest[0]) && queue == rest[1..]
    {
      hide Sound, Settled, Increasing, Events, After, UpTo, Answers, Budget, AtMost, Count, Bytes, Live;
      TakeAnswer(h, published);
      if closed { return Ended; }
      r := NextBuffered(status, h, published);
    }

    /** The wait for the next live frame is over. */
    method Awake(ghost h: seq<Event>, ghost published: nat) returns (r: Pulled)
      requires Increasing(h) && Valid(h, published) && pulling.Woken?
      modifies this
      ensures Valid(h, published)
      ensures closed == old(closed)
      ensures if closed then r.Ended? && sent == old(sent) else r.Sent? && sent == old(sent) + [r.frame]
      ensures !closed ==> r.frame == old(queue)[0] && queue == old(queue)[1..]
      ensures Steady()
    {
      hide Sound, Settled, Increasing, Events, After, UpTo, Answers, Budget;
      pulling := Resting;
      if closed { return Ended; }
      r := TakeNext(h, published);
    }

    method TakeNext(ghost h: seq<Event>, ghost published: nat) returns (r: Pulled)
      requires Increasing(h) && Valid(h, published) && pulling.Resting? && !closed
      requires replayDone && replay == [] && queue != []
      modifies `queue, `queuedBytes, `queuedEvents, `sent
      ensures Valid(h, published) && !closed && r.Sent?
      ensures sent == old(sent) + [r.frame]
      ensures r.frame == old(queue)[0] && queue == old(queue)[1..]
    {
      hide Settled, Increasing, Events, After, UpTo, Answers, Budget;
      if queue[0].Operational? { SendQueueKeeps(h, published); }
      var frame := TakeQueue();
      ExactIsSound(h, published);
      r := Sent(frame);
    }
  }

  lemma Head(fs: seq<Frame>)
    requires fs != []
    ensures Count(fs) == (if Counted(fs[0]) then 1 else 0) + Count(fs[1..])
    ensures Bytes(fs) == (if Counted(fs[0]) then Size(fs[0]) else 0) + Bytes(fs[1..])
    ensures Events(fs) == (if fs[0].Operational? then [fs[0].event] else []) + Events(fs[1..])
    ensures Events([fs[0]]) == if fs[0].Operational? then [fs[0].event] else []
    ensures Count([fs[0]]) == (if Counted(fs[0]) then 1 else 0)
    ensures Bytes([fs[0]]) == if Counted(fs[0]) then Size(fs[0]) else 0
  {
    Concat([fs[0]], fs[1..]);
    assert [fs[0]] + fs[1..] == fs;
    assert [fs[0]][..0] == [];
  }
}
