/**
 Recorded events carry strictly increasing ids and are published in that order.  What one
 subscriber has been sent and what is still on its way add up to exactly what it is owed.
 */
module EventHistory {
  import opened Options

  const REPLAY_BATCH_SIZE := 32

  datatype Event = Event(id: nat, size: nat)

  ghost predicate Increasing(h: seq<Event>) {
    forall i, j | 0 <= i < j < |h| :: h[i].id < h[j].id
  }

  /** How many of the events have ids up to the bound. */
  function UpTo(h: seq<Event>, bound: nat): (n: nat)
    ensures n <= |h|
    ensures Increasing(h) ==> forall i | 0 <= i < |h| :: h[i].id <= bound <==> i < n
  {
    if h == [] then 0
    else if h[|h| - 1].id <= bound then |h|
    else UpTo(h[..|h| - 1], bound)
  }

  function After(h: seq<Event>, bound: nat): seq<Event> {
    h[UpTo(h, bound)..]
  }

  function Between(h: seq<Event>, low: nat, high: nat): seq<Event> {
    if UpTo(h, low) <= UpTo(h, high) then h[UpTo(h, low)..UpTo(h, high)] else []
  }

  /** The `filter` of a replayed batch. */
  function AtMost(items: seq<Event>, bound: nat): seq<Event> {
    if items == [] then []
    else (if items[0].id <= bound then [items[0]] else []) + AtMost(items[1..], bound)
  }

  /** The rows after the cursor, oldest first, at most one batch of them. */
  function Rows(stored: seq<Event>, cursor: nat): seq<Event> {
    var rows := After(stored, cursor);
    if |rows| <= REPLAY_BATCH_SIZE then rows else rows[..REPLAY_BATCH_SIZE]
  }

  lemma UpToIs(h: seq<Event>, bound: nat, n: nat)
    requires Increasing(h) && n <= |h|
    requires n == 0 || h[n - 1].id <= bound
    requires n == |h| || h[n].id > bound
    ensures UpTo(h, bound) == n
  {
  }

  lemma UpToLast(h: seq<Event>, n: nat)
    requires Increasing(h) && 0 < n <= |h|
    ensures UpTo(h, h[n - 1].id) == n
  {
    UpToIs(h, h[n - 1].id, n);
  }

  lemma UpToGrows(h: seq<Event>, low: nat, high: nat)
    requires Increasing(h) && low <= high
    ensures UpTo(h, low) <= UpTo(h, high)
  {
    var n := UpTo(h, high);
    assert n < |h| ==> h[n].id > high;
  }

  lemma AfterMeans(h: seq<Event>, bound: nat)
    requires Increasing(h)
    ensures Increasing(After(h, bound))
    ensures forall e :: e in After(h, bound) <==> e in h && e.id > bound
  {
    forall e | e in h && e.id > bound ensures e in After(h, bound) {
      var i :| 0 <= i < |h| && h[i] == e;
      assert After(h, bound)[i - UpTo(h, bound)] == e;
    }
  }

  lemma UpToAppend(h: seq<Event>, e: Event, bound: nat)
    requires Increasing(h + [e])
    ensures UpTo(h + [e], bound) == if e.id <= bound then |h| + 1 else UpTo(h, bound)
  {
    assert (h + [e])[..|h|] == h;
  }

  lemma AfterAppend(h: seq<Event>, e: Event, bound: nat)
    requires Increasing(h + [e])
    ensures After(h + [e], bound) == After(h, bound) + if e.id <= bound then [] else [e]
  {
    UpToAppend(h, e, bound);
    assert e.id <= bound ==> UpTo(h, bound) == |h| by {
      if e.id <= bound {
        assert forall i | 0 <= i < |h| :: (h + [e])[i].id < e.id;
        assert Increasing(h) by {
          forall i, j | 0 <= i < j < |h| ensures h[i].id < h[j].id {
            assert (h + [e])[i].id < (h + [e])[j].id;
          }
        }
      }
    }
  }

  lemma BetweenAppend(h: seq<Event>, e: Event, low: nat, high: nat)
    requires Increasing(h + [e]) && low <= high && (high < e.id || low == high)
    ensures Between(h + [e], low, high) == Between(h, low, high)
  {
    UpToAppend(h, e, low);
    UpToAppend(h, e, high);
  }

  lemma {:induction false} AtMostIsPrefix(items: seq<Event>, bound: nat)
    requires Increasing(items)
    ensures AtMost(items, bound) == items[..UpTo(items, bound)]
  {
    hide Increasing, UpTo;
    if items != [] {
      UpToTail(items, bound);
      AtMostIsPrefix(items[1..], bound);
      var m := UpTo(items[1..], bound);
      assert items[..m + 1] == [items[0]] + items[1..][..m];
    }
  }

  lemma UpToTail(items: seq<Event>, bound: nat)
    requires Increasing(items) && items != []
    ensures Increasing(items[1..])
    ensures items[0].id <= bound ==> UpTo(items, bound) == UpTo(items[1..], bound) + 1
    ensures items[0].id > bound ==> UpTo(items, bound) == 0 == UpTo(items[1..], bound)
  {
    var rest := items[1..];
    assert forall i | 0 <= i < |rest| :: rest[i] == items[i + 1];
    if items[0].id <= bound {
      UpToIs(items, bound, UpTo(rest, bound) + 1);
    } else {
      UpToIs(items, bound, 0);
      UpToIs(rest, bound, 0);
    }
  }

  /** What a subscriber asked for and has been given.  `live` are the events published since it
      opened, `newest` is the newest id of the first answer to its replay, `sent` what it was sent,
      `replay` and `queue` what is waiting for it. */
  datatype Account = Account(
    resume: Option<nat>,
    cursor: Option<nat>,
    newest: Option<nat>,
    through: Option<nat>,
    done: bool,
    reset: bool,
    sent: seq<Event>,
    replay: seq<Event>,
    queue: seq<Event>)

  /** How far a replay goes: to the newest event at its start, or to the id asked for if there was
      no event at all. */
  function Bound(resume: nat, newest: Option<nat>): nat {
    if newest.Some? then newest.value else resume
  }

  ghost predicate Recorded(h: seq<Event>, id: nat) {
    exists i :: 0 <= i < |h| && h[i].id == id
  }

  /** Everything owed is sent, buffered, or still to be replayed, once and in order. */
  ghost predicate Exact(h: seq<Event>, live: seq<Event>, a: Account) {
    match a.through
    case None =>
      a.replay == [] && !a.reset && a.cursor == a.resume && a.done == a.resume.None? && a.newest.None?
      && a.sent + a.queue == live
      && (a.resume.Some? ==> a.sent == [])
    case Some(through) =>
      a.resume.Some? && a.cursor.Some? && a.resume.value <= a.cursor.value
      && through == Bound(a.resume.value, a.newest)
      && (if a.newest.Some? then Recorded(h, a.newest.value) else a.reset && a.cursor == a.resume)
      && (a.resume == a.cursor || Reached(h, a.cursor.value))
      && (!a.done ==> a.queue == After(live, through))
      && if a.reset then
           a.done && a.replay == []
           && a.sent + a.queue == Between(h, a.resume.value, a.cursor.value) + After(live, through)
         else
           a.cursor.value <= through && Reached(h, through)
           && a.sent + a.replay + Unread(h, a.cursor.value, a.through.value, a.done) + a.queue
              == Between(h, a.resume.value, through) + After(live, through)
  }

  predicate Reached(h: seq<Event>, id: nat) {
    h != [] && id <= h[|h| - 1].id
  }

  function Unread(h: seq<Event>, cursor: nat, through: nat, done: bool): seq<Event> {
    if done then [] else Between(h, cursor, through)
  }

  lemma RecordKeeps(h: seq<Event>, live: seq<Event>, a: Account, e: Event)
    requires Increasing(h + [e]) && Exact(h, live, a)
    ensures Exact(h + [e], live, a)
  {
    if a.through.Some? {
      var through := a.through.value;
      assert h != [] ==> (h + [e])[|h| - 1].id < (h + [e])[|h|].id;
      BetweenAppend(h, e, a.resume.value, a.cursor.value);
      if a.newest.Some? {
        var i :| 0 <= i < |h| && h[i].id == a.newest.value;
        assert (h + [e])[i].id == a.newest.value;
      }
      if !a.reset {
        BetweenAppend(h, e, a.cursor.value, through);
        BetweenAppend(h, e, a.resume.value, through);
      }
    }
  }

  lemma Grow<T>(given: seq<T>, queue: seq<T>, base: seq<T>, tail: seq<T>, more: seq<T>)
    requires given + queue == base + tail
    ensures given + (queue + more) == base + (tail + more)
  {
    assert given + (queue + more) == (given + queue) + more;
  }

  lemma PublishKeeps(h: seq<Event>, live: seq<Event>, a: Account, e: Event)
    requires Increasing(live + [e]) && Exact(h, live, a)
    ensures Exact(h, live + [e], if a.through.Some? && e.id <= a.through.value then a else a.(queue := a.queue + [e]))
  {
    hide Between, After, Reached, Unread, Increasing;
    if a.through.None? {
      Grow(a.sent, a.queue, [], live, [e]);
      assert [] + live == live && [] + (live + [e]) == live + [e];
    } else {
      var through := a.through.value;
      AfterAppend(live, e, through);
      if e.id > through {
        if a.reset {
          Grow(a.sent, a.queue, Between(h, a.resume.value, a.cursor.value), After(live, through), [e]);
        } else {
          Grow(a.sent + a.replay + Unread(h, a.cursor.value, a.through.value, a.done), a.queue,
               Between(h, a.resume.value, through), After(live, through), [e]);
        }
      }
    }
  }

  lemma SendKeeps(h: seq<Event>, live: seq<Event>, a: Account)
    requires Exact(h, live, a)
    ensures a.replay != [] ==> Exact(h, live, a.(sent := a.sent + a.replay[..1], replay := a.replay[1..]))
    ensures a.done && a.replay == [] && a.queue != [] ==>
              Exact(h, live, a.(sent := a.sent + a.queue[..1], queue := a.queue[1..]))
  {
    if a.replay != [] {
      assert a.sent + a.replay == (a.sent + a.replay[..1]) + a.replay[1..];
    }
    if a.replay == [] && a.queue != [] {
      assert a.sent + a.queue == (a.sent + a.queue[..1]) + a.queue[1..];
    }
  }

  /** The answer to a replay query made when `seen` events had been recorded. */
  datatype Replay = Replay(found: bool, latest: Option<nat>, items: seq<Event>)

  /** What the store answers: whether the cursor is still there, the newest id, and the rows. */
  function Query(stored: seq<Event>, cursor: nat): Replay {
    var found := exists k | 0 <= k < |stored| :: stored[k].id == cursor;
    Replay(found, if stored == [] then None else Some(stored[|stored| - 1].id),
           if found then Rows(stored, cursor) else [])
  }

  ghost predicate Answers(h: seq<Event>, seen: nat, cursor: nat, r: Replay) {
    seen <= |h|
    && (r.latest.Some? ==> seen > 0 && r.latest.value == h[seen - 1].id)
    && (r.found ==>
          var i := UpTo(h, cursor);
          r.latest.Some? && 0 < i <= seen && h[i - 1].id == cursor
          && r.items == h[i..if seen <= i + REPLAY_BATCH_SIZE then seen else i + REPLAY_BATCH_SIZE])
  }

  lemma AnswersAppend(h: seq<Event>, e: Event, seen: nat, cursor: nat, r: Replay)
    requires Increasing(h + [e]) && Answers(h, seen, cursor, r)
    ensures Answers(h + [e], seen, cursor, r)
  {
    UpToAppend(h, e, cursor);
    if r.found {
      assert (h + [e])[|h|].id > (h + [e])[UpTo(h, cursor) - 1].id;
    }
  }

  /** Retention deletes the oldest rows, so a cursor that is still stored has lost nothing. */
  lemma QueryAnswers(h: seq<Event>, kept: nat, cursor: nat)
    requires Increasing(h) && kept <= |h|
    ensures Answers(h, |h|, cursor, Query(h[kept..], cursor))
  {
    hide Increasing, UpTo, After;
    var stored := h[kept..];
    if k :| 0 <= k < |stored| && stored[k].id == cursor {
      StoredAfter(h, kept, cursor, k);
    }
  }

  lemma StoredAfter(h: seq<Event>, kept: nat, cursor: nat, k: nat)
    requires Increasing(h) && kept + k < |h| && h[kept + k].id == cursor
    ensures UpTo(h, cursor) == kept + k + 1
    ensures After(h[kept..], cursor) == h[kept + k + 1..]
  {
    var stored := h[kept..];
    assert forall i | 0 <= i < |stored| :: stored[i] == h[kept + i];
    UpToIs(h, cursor, kept + k + 1);
    UpToIs(stored, cursor, k + 1);
  }

  /** The first answer fixes how far the replay goes: up to the newest event recorded then. */
  lemma StartKeeps(h: seq<Event>, live: seq<Event>, a: Account, seen: nat, r: Replay)
    requires Increasing(h) && Increasing(live) && Exact(h, live, a)
    requires a.through.None? && a.resume.Some? && Answers(h, seen, a.resume.value, r)
    ensures var through := if r.latest.None? then a.resume.value else r.latest.value;
            var b := a.(newest := r.latest, through := Some(through), queue := After(a.queue, through));
            Exact(h, live, if r.found then b else b.(done := true, reset := true))
  {
    var through := if r.latest.None? then a.resume.value else r.latest.value;
    assert a.queue == live;
    if r.found {
      assert h[seen - 1].id <= h[|h| - 1].id;
    }
    assert Between(h, a.resume.value, a.resume.value) == [];
  }

  /** After a reset a live event is sent or queued, or it is not newer than the first answer's
      newest event; but if there was no such event, all up to the id asked for are lost. */
  lemma AfterReset(h: seq<Event>, live: seq<Event>, a: Account, e: Event)
    requires Increasing(h) && Increasing(live) && Exact(h, live, a) && a.reset && e in live
    ensures a.sent + a.queue
            == Between(h, a.resume.value, a.cursor.value) + After(live, Bound(a.resume.value, a.newest))
    ensures (a.newest.Some? ==> e.id > a.newest.value) ==>
              (e !in a.sent + a.queue <==> a.newest.None? && e.id <= a.resume.value)
  {
    var bound := Bound(a.resume.value, a.newest);
    AfterMeans(live, bound);
    if a.newest.None? {
      NothingBetween(h, a.resume.value);
      assert a.sent + a.queue == After(live, bound);
    } else if e.id > bound {
      assert e in After(live, bound);
    }
  }

  lemma ReadSoFar(h: seq<Event>, live: seq<Event>, a: Account)
    requires Increasing(h) && Exact(h, live, a) && a.through.Some? && !a.done
    ensures a.sent + a.replay == Between(h, a.resume.value, a.cursor.value)
  {
    UpToGrows(h, a.resume.value, a.cursor.value);
    UpToGrows(h, a.cursor.value, a.through.value);
    var all := Between(h, a.resume.value, a.through.value);
    var read := Between(h, a.resume.value, a.cursor.value);
    assert all == read + Unread(h, a.cursor.value, a.through.value, a.done);
    var left := a.sent + a.replay + Unread(h, a.cursor.value, a.through.value, a.done);
    assert left == (left + a.queue)[..|left|];
    assert left == all;
    assert a.sent + a.replay == left[..|read|] == all[..|read|];
  }

  /** A later answer that no longer finds the cursor ends the replay. */
  lemma LostKeeps(h: seq<Event>, live: seq<Event>, a: Account)
    requires Increasing(h) && Exact(h, live, a) && a.through.Some? && !a.done && a.replay == []
    ensures Exact(h, live, a.(done := true, reset := true))
  {
    ReadSoFar(h, live, a);
    assert a.sent + [] == a.sent;
  }

  /** A batch moves the cursor to its last event, so the distance to the bound shrinks. */
  lemma BatchKeeps(h: seq<Event>, live: seq<Event>, a: Account, seen: nat, r: Replay)
    requires Increasing(h) && Exact(h, live, a) && a.through.Some? && !a.done && a.replay == []
    requires r.found && Answers(h, seen, a.cursor.value, r) && a.through.value <= h[seen - 1].id
    ensures var items := AtMost(r.items, a.through.value);
            Exact(h, live, a.(replay := items,
                              cursor := if items == [] then a.cursor else Some(items[|items| - 1].id),
                              done := items == [] || items[|items| - 1].id >= a.through.value))
            && (items != [] ==> a.cursor.value < items[|items| - 1].id <= a.through.value)
  {
    var items := AtMost(r.items, a.through.value);
    BatchIs(h, a.cursor.value, a.through.value, seen, r);
    if items != [] {
      var last := items[|items| - 1].id;
      NothingBetween(h, a.through.value);
      hide Answers, AtMost, Between, After, Increasing, UpTo;
      Regroup(a.sent, items, Between(h, last, a.through.value), a.queue);
      assert last >= a.through.value ==> last == a.through.value;
    } else {
      hide Answers, AtMost, Between, After, Increasing, UpTo;
    }
  }

  lemma Regroup<T>(a: seq<T>, b: seq<T>, c: seq<T>, d: seq<T>)
    ensures a + [] + (b + c) + d == a + b + c + d
  {
    assert a + [] + (b + c) == a + b + c;
  }

  lemma NothingBetween(h: seq<Event>, id: nat)
    ensures Between(h, id, id) == []
  {
  }

  lemma BatchIs(h: seq<Event>, cursor: nat, through: nat, seen: nat, r: Replay)
    requires Increasing(h) && r.found && Answers(h, seen, cursor, r) && cursor <= through <= h[seen - 1].id
    ensures var items := AtMost(r.items, through);
            if items == [] then Between(h, cursor, through) == []
            else
              cursor < items[|items| - 1].id <= through && Reached(h, items[|items| - 1].id)
              && Between(h, cursor, through) == items + Between(h, items[|items| - 1].id, through)
  {
    var i := UpTo(h, cursor);
    var t := UpTo(h, through);
    var n := BatchEnds(h, cursor, through, seen, r);
    var items := AtMost(r.items, through);
    var all := Between(h, cursor, through);
    if n > i {
      Positions(h, i, n, through);
      var rest := Between(h, h[n - 1].id, through);
      assert all == h[i..t] && rest == h[n..t];
      hide *;
      Cut(h, i, n, t);
    }
  }

  lemma Positions(h: seq<Event>, i: nat, n: nat, through: nat)
    requires Increasing(h) && 0 < i < n <= UpTo(h, through)
    ensures h[i - 1].id < h[n - 1].id <= through && Reached(h, h[n - 1].id)
    ensures UpTo(h, h[n - 1].id) == n
  {
    UpToIs(h, h[n - 1].id, n);
  }

  /** A batch ends at its limit or at the bound, whichever comes first. */
  lemma BatchEnds(h: seq<Event>, cursor: nat, through: nat, seen: nat, r: Replay) returns (n: nat)
    requires Increasing(h) && r.found && Answers(h, seen, cursor, r) && cursor <= through <= h[seen - 1].id
    ensures UpTo(h, cursor) <= n <= UpTo(h, through)
    ensures AtMost(r.items, through) == h[UpTo(h, cursor)..n]
    ensures n == UpTo(h, cursor) ==> n == UpTo(h, through)
  {
    hide Increasing, AtMost;
    var i := UpTo(h, cursor);
    var t := UpTo(h, through);
    var last := if seen <= i + REPLAY_BATCH_SIZE then seen else i + REPLAY_BATCH_SIZE;
    n := if last <= t then last else t;
    UpToGrows(h, cursor, through);
    UpToGrows(h, through, h[seen - 1].id);
    UpToLast(h, seen);
    SliceUpTo(h, i, last, through);
    AtMostIsPrefix(r.items, through);
    assert r.items == h[i..last] && UpTo(r.items, through) == n - i;
    var items := AtMost(r.items, through);
    hide *;
    assert h[i..last][..n - i] == h[i..n];
  }

  lemma Cut<T>(h: seq<T>, i: nat, n: nat, t: nat)
    requires i <= n <= t <= |h|
    ensures h[i..t] == h[i..n] + h[n..t]
    ensures i < n ==> h[i..n][n - i - 1] == h[n - 1]
  {
  }

  lemma SliceUpTo(h: seq<Event>, from: nat, to: nat, bound: nat)
    requires Increasing(h) && from <= to <= |h|
    requires from <= UpTo(h, bound)
    ensures Increasing(h[from..to])
    ensures UpTo(h[from..to], bound) == (if UpTo(h, bound) <= to then UpTo(h, bound) else to) - from
  {
    assert forall i | 0 <= i < to - from :: h[from..to][i] == h[from + i];
    UpToIs(h[from..to], bound, (if UpTo(h, bound) <= to then UpTo(h, bound) else to) - from);
  }

  /** Nothing is sent that was not asked for, nothing twice and nothing out of order; and once
      nothing is waiting, everything published that was asked for has been sent. */
  lemma ExactlyOnce(h: seq<Event>, from: nat, published: nat, a: Account)
    requires Increasing(h) && from <= published <= |h| && Exact(h, h[from..published], a)
    requires a.resume.Some? && !a.reset
    requires a.through.Some? ==> UpTo(h, a.through.value) >= from
    ensures a.sent <= After(h, a.resume.value)
    ensures Increasing(a.sent)
    ensures a.done && a.replay == [] && a.queue == [] && published == |h| ==> a.sent == After(h, a.resume.value)
  {
    hide Between, Reached, Increasing, UpTo, After, Unread;
    AfterMeans(h, a.resume.value);
    if a.through.Some? {
      var through := a.through.value;
      OwedIs(h, from, published, a.resume.value, through);
      UnreadWhenDone(h, a.cursor.value, through);
      var owed := Between(h, a.resume.value, through) + After(h[from..published], through);
      Split(a.sent, a.replay, Unread(h, a.cursor.value, through, a.done), a.queue);
      assert a.sent == After(h, a.resume.value)[..|a.sent|];
      PrefixIncreases(After(h, a.resume.value), |a.sent|);
    } else {
      PrefixIncreases(After(h, a.resume.value), 0);
    }
  }

  lemma Split<T>(a: seq<T>, b: seq<T>, c: seq<T>, d: seq<T>)
    ensures a <= a + b + c + d
    ensures b == [] && c == [] && d == [] ==> a + b + c + d == a
  {
  }

  lemma UnreadWhenDone(h: seq<Event>, cursor: nat, through: nat)
    ensures Unread(h, cursor, through, true) == []
  {
  }

  lemma PrefixIncreases(h: seq<Event>, n: nat)
    requires Increasing(h) && n <= |h|
    ensures Increasing(h[..n])
  {
  }

  lemma OwedIs(h: seq<Event>, from: nat, published: nat, resume: nat, through: nat)
    requires Increasing(h) && from <= published <= |h| && resume <= through && UpTo(h, through) >= from
    ensures var owed := Between(h, resume, through) + After(h[from..published], through);
            owed <= After(h, resume) && (published == |h| ==> owed == After(h, resume))
  {
    UpToGrows(h, resume, through);
    SliceUpTo(h, from, published, through);
    var l := UpTo(h, resume);
    var t := UpTo(h, through);
    var live := h[from..published];
    var n := (if t <= published then t else published) - from;
    var first := Between(h, resume, through);
    var second := After(live, through);
    var all := After(h, resume);
    assert first == h[l..t] && second == live[n..] && all == h[l..];
    hide *;
    Joined(h, l, t, from, published);
  }

  lemma Joined<T>(h: seq<T>, l: nat, t: nat, from: nat, to: nat)
    requires l <= t <= |h| && from <= t && from <= to <= |h|
    ensures var joined := h[l..t] + h[from..to][(if t <= to then t else to) - from..];
            joined <= h[l..] && (to == |h| ==> joined == h[l..])
  {
  }
}
