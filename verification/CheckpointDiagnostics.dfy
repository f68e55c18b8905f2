/**
 The checkpoint collector: running totals and the slowest samples, kept up to date one sample at a
 time, are what one would compute from the whole history since the last reset.
 */
module CheckpointDiagnostics {
  import opened Options

  datatype State = Partial | Complete

  datatype Operation = StatementGet | StatementAll | StatementRun | Transaction | TransactionCallback | TransactionBoundary

  datatype Timing = Timing(operation: Operation, elapsedMs: real)

  datatype Aggregate = Aggregate(count: nat, totalMs: real, maxMs: real)

  datatype Sample = Sample(ordinal: nat, state: State, elapsedMs: real, timings: seq<Timing>)

  const EMPTY := Aggregate(0, 0.0, 0.0)

  function MaxOf(a: real, b: real): real { if a < b then b else a }

  function Observed(a: Aggregate, elapsedMs: real): Aggregate {
    Aggregate(a.count + 1, a.totalMs + elapsedMs, MaxOf(a.maxMs, elapsedMs))
  }

  function Merged(a: Aggregate, b: Aggregate): Aggregate {
    Aggregate(a.count + b.count, a.totalMs + b.totalMs, MaxOf(a.maxMs, b.maxMs))
  }

  // What the report means, from the history alone.

  function OfOperation(timings: seq<Timing>, op: Operation): Aggregate {
    if timings == [] then EMPTY
    else
      var rest := OfOperation(timings[..|timings| - 1], op);
      var last := timings[|timings| - 1];
      if last.operation == op then Observed(rest, last.elapsedMs) else rest
  }

  function AllTimings(history: seq<Sample>): seq<Timing> {
    if history == [] then [] else AllTimings(history[..|history| - 1]) + history[|history| - 1].timings
  }

  function OfState(history: seq<Sample>, state: State): Aggregate {
    if history == [] then EMPTY
    else
      var rest := OfState(history[..|history| - 1], state);
      var last := history[|history| - 1];
      if last.state == state then Observed(rest, last.elapsedMs) else rest
  }

  function Exceeding(history: seq<Sample>, thresholdMs: real): nat {
    if history == [] then 0
    else Exceeding(history[..|history| - 1], thresholdMs) + if history[|history| - 1].elapsedMs > thresholdMs then 1 else 0
  }

  // The same once more, by index and not one after the other.

  ghost function TimingsOf(timings: seq<Timing>, op: Operation): set<nat> {
    set i | 0 <= i < |timings| && timings[i].operation == op
  }

  ghost function SamplesOf(history: seq<Sample>, state: State): set<nat> {
    set i | 0 <= i < |history| && history[i].state == state
  }

  ghost function Times(timings: seq<Timing>): seq<real> {
    seq(|timings|, i requires 0 <= i < |timings| => timings[i].elapsedMs)
  }

  ghost function Elapsed(history: seq<Sample>): seq<real> {
    seq(|history|, i requires 0 <= i < |history| => history[i].elapsedMs)
  }

  ghost function Sum(times: seq<real>, indices: set<nat>): real {
    if times == [] then 0.0
    else
      var n := |times| - 1;
      Sum(times[..n], indices - {n}) + if n in indices then times[n] else 0.0
  }

  /** The number, the sum and the largest, if that is positive, of the times at some indices. */
  ghost predicate Means(a: Aggregate, times: seq<real>, indices: set<nat>) {
    (forall i | i in indices :: i < |times|)
    && a.count == |indices| && a.totalMs == Sum(times, indices) && a.maxMs >= 0.0
    && (forall i | i in indices :: times[i] <= a.maxMs)
    && (a.maxMs == 0.0 || exists i | i in indices :: times[i] == a.maxMs)
  }

  /** One more time, at the end. */
  lemma OneMore(a: Aggregate, times: seq<real>, indices: set<nat>, t: real)
    requires Means(a, times, indices)
    ensures Means(a, times + [t], indices)
    ensures Means(Aggregate(a.count + 1, a.totalMs + t, MaxOf(a.maxMs, t)), times + [t], indices + {|times|})
  {
    var n := |times|;
    assert (times + [t])[..n] == times;
    assert indices - {n} == indices && indices + {n} - {n} == indices;
    if a.maxMs != 0.0 {
      var i :| i in indices && times[i] == a.maxMs;
      assert (times + [t])[i] == a.maxMs;
    }
    assert n in indices + {n} && (times + [t])[n] == t;
  }

  lemma NothingMeans()
    ensures Means(EMPTY, [], {})
  {
  }

  /** The totals of an operation are those of all its timings. */
  lemma {:induction false} OperationMeans(timings: seq<Timing>, op: Operation)
    ensures Means(OfOperation(timings, op), Times(timings), TimingsOf(timings, op))
  {
    hide Means;
    if timings == [] {
      NothingMeans();
      assert Times(timings) == [] && TimingsOf(timings, op) == {};
    } else {
      var n := |timings| - 1;
      var times, at := Times(timings[..n]), TimingsOf(timings[..n], op);
      OperationMeans(timings[..n], op);
      OneMore(OfOperation(timings[..n], op), times, at, timings[n].elapsedMs);
      assert Times(timings) == times + [timings[n].elapsedMs];
      assert TimingsOf(timings, op) == if timings[n].operation == op then at + {|times|} else at;
    }
  }

  /** The totals of a state are those of all its samples. */
  lemma {:induction false} StateMeans(history: seq<Sample>, state: State)
    ensures Means(OfState(history, state), Elapsed(history), SamplesOf(history, state))
  {
    hide Means;
    if history == [] {
      NothingMeans();
      assert Elapsed(history) == [] && SamplesOf(history, state) == {};
    } else {
      var n := |history| - 1;
      var times, at := Elapsed(history[..n]), SamplesOf(history[..n], state);
      StateMeans(history[..n], state);
      OneMore(OfState(history[..n], state), times, at, history[n].elapsedMs);
      assert Elapsed(history) == times + [history[n].elapsedMs];
      assert SamplesOf(history, state) == if history[n].state == state then at + {|times|} else at;
    }
  }

  lemma {:induction false} ExceedingMeans(history: seq<Sample>, thresholdMs: real)
    ensures Exceeding(history, thresholdMs) == |set i | 0 <= i < |history| && history[i].elapsedMs > thresholdMs|
  {
    if history != [] {
      var n := |history| - 1;
      ExceedingMeans(history[..n], thresholdMs);
      assert (set i | 0 <= i < |history| && history[i].elapsedMs > thresholdMs)
          == (set i | 0 <= i < n && history[..n][i].elapsedMs > thresholdMs)
             + if history[n].elapsedMs > thresholdMs then {n} else {};
    }
  }

  lemma {:induction false} AllTimingsMean(history: seq<Sample>, i: nat, j: nat)
    requires i < |history| && j < |history[i].timings|
    ensures history[i].timings[j] in AllTimings(history)
    ensures |AllTimings(history)| == |AllTimings(history[..|history| - 1])| + |history[|history| - 1].timings|
  {
    if i < |history| - 1 {
      AllTimingsMean(history[..|history| - 1], i, j);
    }
  }

  /** Slower samples first, earlier ones first among equals. */
  predicate Precedes(a: Sample, b: Sample) {
    a.elapsedMs > b.elapsedMs || (a.elapsedMs == b.elapsedMs && a.ordinal < b.ordinal)
  }

  ghost predicate Sorted(s: seq<Sample>) {
    forall i, j | 0 <= i < j < |s| :: Precedes(s[i], s[j])
  }

  /** The first `limit` samples of the history in that order. */
  ghost predicate Slowest(history: seq<Sample>, limit: nat, s: seq<Sample>) {
    Sorted(s) && |s| == (if |history| <= limit then |history| else limit)
    && (forall x | x in s :: x in history)
    && forall x, y | x in history && x !in s && y in s :: Precedes(y, x)
  }

  ghost predicate Numbered(history: seq<Sample>) {
    forall i | 0 <= i < |history| :: history[i].ordinal == i + 1
  }

  lemma {:induction false} MergeIsConcat(a: seq<Timing>, b: seq<Timing>, op: Operation)
    ensures OfOperation(a + b, op) == Merged(OfOperation(a, op), OfOperation(b, op))
    ensures OfOperation(b, op).maxMs >= 0.0
    decreases |b|
  {
    if b == [] {
      assert a + b == a;
      MaxIsNonnegative(a, op);
    } else {
      MergeIsConcat(a, b[..|b| - 1], op);
      assert (a + b)[..|a + b| - 1] == a + b[..|b| - 1];
    }
  }

  lemma {:induction false} MaxIsNonnegative(a: seq<Timing>, op: Operation)
    ensures OfOperation(a, op).maxMs >= 0.0
  {
    if a != [] { MaxIsNonnegative(a[..|a| - 1], op); }
  }

  /** There is only one such list, so keeping it up to date is computing it from scratch. */
  lemma {:induction false} SlowestIsUnique(history: seq<Sample>, limit: nat, s: seq<Sample>, t: seq<Sample>)
    requires Slowest(history, limit, s) && Slowest(history, limit, t)
    ensures s == t
  {
    if x :| x in s && x !in t {
      Missing(s, t, x);
      var y :| y in t && y !in s;
      assert false;
    } else {
      SameOrder(s, t);
    }
  }

  function Elements(s: seq<Sample>): set<Sample> {
    set x | x in s
  }

  lemma {:induction false} Distinct(s: seq<Sample>)
    requires Sorted(s)
    ensures |Elements(s)| == |s|
  {
    if s != [] {
      var rest := s[..|s| - 1];
      Distinct(rest);
      assert Elements(s) == Elements(rest) + {s[|s| - 1]};
      assert s[|s| - 1] !in rest;
    }
  }

  lemma Missing(s: seq<Sample>, t: seq<Sample>, x: Sample)
    requires Sorted(s) && Sorted(t) && |s| == |t| && x in s && x !in t
    ensures exists y :: y in t && y !in s
  {
    Distinct(s);
    Distinct(t);
    if forall y | y in t :: y in s {
      assert Elements(t) <= Elements(s) - {x};
      Subset(Elements(t), Elements(s) - {x});
    }
  }

  lemma {:induction false} Subset(a: set<Sample>, b: set<Sample>)
    requires a <= b
    ensures |a| <= |b|
  {
    if a != {} {
      var x :| x in a;
      Subset(a - {x}, b - {x});
    }
  }

  lemma {:induction false} SameOrder(s: seq<Sample>, t: seq<Sample>)
    requires Sorted(s) && Sorted(t) && |s| == |t| && forall x | x in s :: x in t
    ensures s == t
  {
    if s != [] {
      assert forall y | y in t :: y in s by {
        if y :| y in t && y !in s {
          Missing(t, s, y);
        }
      }
      var n := |s| - 1;
      assert s[n] in t && t[n] in s;
      assert s[n] == t[n];
      forall x | x in s[..n] ensures x in t[..n] {
        var i :| 0 <= i < n && s[i] == x;
        assert Precedes(s[i], s[n]) && s[i] in t;
        var j :| 0 <= j < |t| && t[j] == x;
        assert t[..n][j] == x;
      }
      SameOrder(s[..n], t[..n]);
      assert s == s[..n] + [s[n]] && t == t[..n] + [t[n]];
    }
  }

  /** A sample that does not make the cut now never will. */
  lemma RetainKeeps(history: seq<Sample>, limit: nat, s: seq<Sample>, c: Sample, all: seq<Sample>)
    requires Slowest(history, limit, s) && c !in history && limit > 0
    requires Sorted(all) && |all| == |s| + 1 && forall x :: x in all <==> x in s || x == c
    ensures Slowest(history + [c], limit, if |all| > limit then all[..limit] else all)
  {
    var kept := if |all| > limit then all[..limit] else all;
    assert forall x | x in kept :: x in all;
    forall x, y | x in history + [c] && x !in kept && y in kept ensures Precedes(y, x) {
      var j :| 0 <= j < |kept| && kept[j] == y;
      if x in all {
        var i :| 0 <= i < |all| && all[i] == x;
        assert i >= |kept|;
      } else {
        Full(history, limit, s, x);
        if y == c {
          var z := all[limit];
          assert Precedes(c, z) && z in s && Precedes(z, x);
        }
      }
    }
  }

  /** A sample is left out only when the list is full. */
  lemma Full(history: seq<Sample>, limit: nat, s: seq<Sample>, x: Sample)
    requires Slowest(history, limit, s) && x in history && x !in s
    ensures |s| == limit
    ensures forall y | y in s :: y.elapsedMs > x.elapsedMs || (y.elapsedMs == x.elapsedMs && y.ordinal < x.ordinal)
  {
    Distinct(s);
    AtMost(history);
    Subset(Elements(s), Elements(history) - {x});
  }

  lemma {:induction false} AtMost(s: seq<Sample>)
    ensures |Elements(s)| <= |s|
  {
    if s != [] {
      AtMost(s[..|s| - 1]);
      assert Elements(s) == Elements(s[..|s| - 1]) + {s[|s| - 1]};
    }
  }

  class CheckpointDiagnosticsCollector {
    const retainedSlowestLimit: nat
    const thresholdMs: real
    var partial: Aggregate
    var complete: Aggregate
    var sqlite: map<Operation, Aggregate>
    var slowest: seq<Sample>
    var observedCount: nat
    var thresholdExceededCount: nat
    var active: Option<Sample>        // its elapsed time is not known yet
    var measured: map<Operation, Aggregate>
    ghost var history: seq<Sample>    // the samples completed since the last reset

    /** Everything reported is computed from the completed samples, and from nothing else. */
    ghost predicate Valid()
      reads this
    {
      retainedSlowestLimit > 0 && Numbered(history)
      && observedCount == |history| && thresholdExceededCount == Exceeding(history, thresholdMs)
      && partial == OfState(history, Partial) && complete == OfState(history, Complete)
      && (forall op :: op in sqlite && sqlite[op] == OfOperation(AllTimings(history), op))
      && Slowest(history, retainedSlowestLimit, slowest)
      && (active.Some? ==>
            active.value.ordinal == |history| + 1
            && forall op :: op in measured && measured[op] == OfOperation(active.value.timings, op))
    }

    constructor (retainedSlowestLimit: nat, thresholdMs: real)
      requires retainedSlowestLimit > 0
      ensures Valid() && history == [] && active.None?
    {
      this.retainedSlowestLimit, this.thresholdMs := retainedSlowestLimit, thresholdMs;
      partial, complete, sqlite := EMPTY, EMPTY, Zeroes();
      slowest, observedCount, thresholdExceededCount, active, measured, history := [], 0, 0, None, Zeroes(), [];
    }

    method Reset() returns (ok: bool)
      requires Valid()
      modifies this
      ensures Valid() && ok == old(active).None? && active == old(active)
      ensures history == if ok then [] else old(history)
    {
      if active.Some? { return false; }
      observedCount, thresholdExceededCount := 0, 0;
      partial, complete, sqlite, slowest := EMPTY, EMPTY, Zeroes(), [];
      history := [];
      ok := true;
    }

    method StartCheckpoint(state: State) returns (ok: bool)
      requires Valid()
      modifies `active, `measured
      ensures Valid() && ok == old(active).None?
      ensures active == if ok then Some(Sample(observedCount + 1, state, 0.0, [])) else old(active)
    {
      if active.Some? { return false; }
      active := Some(Sample(observedCount + 1, state, 0.0, []));
      measured := Zeroes();
      ok := true;
    }

    method ObserveSqlite(op: Operation, elapsedMs: real)
      requires Valid()
      modifies `active, `measured
      ensures Valid() && active.Some? == old(active).Some?
      ensures active.Some? ==>
                active.value == old(active).value.(timings := old(active).value.timings + [Timing(op, elapsedMs)])
    {
      if active.None? { return; }
      var timings := active.value.timings + [Timing(op, elapsedMs)];
      assert timings[..|timings| - 1] == active.value.timings;
      active := Some(active.value.(timings := timings));
      measured := measured[op := Observed(measured[op], elapsedMs)];
    }

    /** Ends a sample; a negative time, or no sample to end, is refused. */
    method CompleteCheckpoint(elapsedMs: real) returns (ok: bool)
      requires Valid()
      modifies this
      ensures Valid() && ok == (elapsedMs >= 0.0 && old(active).Some?)
      ensures history == if ok then old(history) + [old(active).value.(elapsedMs := elapsedMs)] else old(history)
      ensures active == if ok then None else old(active)
    {
      hide OfState, OfOperation, AllTimings, Exceeding, Slowest, Numbered;
      if elapsedMs < 0.0 || active.None? { return false; }
      var sample := active.value.(elapsedMs := elapsedMs);
      active := None;
      Totals(history, sample);
      observedCount := observedCount + 1;
      if elapsedMs > thresholdMs { thresholdExceededCount := thresholdExceededCount + 1; }
      if sample.state.Partial? {
        partial := Observed(partial, elapsedMs);
      } else {
        complete := Observed(complete, elapsedMs);
      }
      MergeSqliteTimings(sample.timings);
      RetainSlowest(sample);
      history := history + [sample];
      ok := true;
    }

    method Abandon() returns (ok: bool)
      requires Valid()
      modifies `active
      ensures Valid() && active.None? && ok == old(active).Some?
    {
      ok := active.Some?;
      active := None;
    }

    method MergeSqliteTimings(ghost timings: seq<Timing>)
      requires forall op :: op in sqlite && op in measured && measured[op] == OfOperation(timings, op)
      modifies `sqlite
      ensures forall op :: op in sqlite && sqlite[op] == Merged(old(sqlite)[op], OfOperation(timings, op))
    {
      var operations := sqlite.Keys;
      while operations != {}
        invariant operations <= sqlite.Keys && sqlite.Keys == old(sqlite).Keys
        invariant forall op | op in operations :: sqlite[op] == old(sqlite)[op]
        invariant forall op | op in sqlite && op !in operations ::
                    sqlite[op] == Merged(old(sqlite)[op], OfOperation(timings, op))
        decreases operations
      {
        var op :| op in operations;
        sqlite := sqlite[op := Merged(sqlite[op], measured[op])];
        operations := operations - {op};
      }
    }

    /** Pushes, sorts and truncates. */
    method RetainSlowest(candidate: Sample)
      requires retainedSlowestLimit > 0 && Slowest(history, retainedSlowestLimit, slowest)
      requires Numbered(history) && candidate.ordinal == |history| + 1
      modifies `slowest
      ensures Slowest(history + [candidate], retainedSlowestLimit, slowest)
    {
      ghost var before := slowest;
      NewOrdinal(history, candidate, slowest);
      var sorted := SortSamples(slowest + [candidate]);
      RetainKeeps(history, retainedSlowestLimit, before, candidate, sorted);
      slowest := if |sorted| > retainedSlowestLimit then sorted[..retainedSlowestLimit] else sorted;
    }
  }

  /** Sorts by repeated insertion; the order is total because ordinals differ. */
  method SortSamples(samples: seq<Sample>) returns (sorted: seq<Sample>)
    requires forall i, j | 0 <= i < j < |samples| :: samples[i].ordinal != samples[j].ordinal
    ensures Sorted(sorted) && |sorted| == |samples| && forall x :: x in sorted <==> x in samples
  {
    sorted := [];
    for n := 0 to |samples|
      invariant Sorted(sorted) && |sorted| == n && forall x :: x in sorted <==> x in samples[..n]
    {
      var x := samples[n];
      var k := |sorted|;
      while k > 0 && Precedes(x, sorted[k - 1])
        invariant 0 <= k <= |sorted|
        invariant forall i | k <= i < |sorted| :: Precedes(x, sorted[i])
      {
        k := k - 1;
      }
      forall i | 0 <= i < |sorted| ensures sorted[i].ordinal != x.ordinal {
        assert sorted[i] in samples[..n];
      }
      Inserted(sorted, k, x);
      assert samples[..n + 1] == samples[..n] + [x];
      sorted := sorted[..k] + [x] + sorted[k..];
    }
    assert samples[..|samples|] == samples;
  }

  lemma Inserted(s: seq<Sample>, k: nat, x: Sample)
    requires Sorted(s) && k <= |s|
    requires forall i | 0 <= i < |s| :: s[i].ordinal != x.ordinal
    requires forall i | k <= i < |s| :: Precedes(x, s[i])
    requires k > 0 ==> !Precedes(x, s[k - 1])
    ensures Sorted(s[..k] + [x] + s[k..])
    ensures forall y :: y in s[..k] + [x] + s[k..] <==> y in s || y == x
  {
    assert forall i | 0 <= i < k - 1 :: Precedes(s[i], s[k - 1]);
    assert s == s[..k] + s[k..];
  }

  const OPERATIONS: set<Operation> :=
    {StatementGet, StatementAll, StatementRun, Transaction, TransactionCallback, TransactionBoundary}

  function Zeroes(): (r: map<Operation, Aggregate>)
    ensures forall op :: op in r && r[op] == EMPTY
  {
    AllOperations();
    map op | op in OPERATIONS :: EMPTY
  }

  lemma AllOperations()
    ensures forall op :: op in OPERATIONS
  {
    forall op ensures op in OPERATIONS {
      match op
      case StatementGet =>
      case StatementAll =>
      case StatementRun =>
      case Transaction =>
      case TransactionCallback =>
      case TransactionBoundary =>
    }
  }

  lemma NewOrdinal(history: seq<Sample>, c: Sample, s: seq<Sample>)
    requires Numbered(history) && c.ordinal == |history| + 1 && Sorted(s) && forall x | x in s :: x in history
    ensures c !in history
    ensures var all := s + [c]; forall i, j | 0 <= i < j < |all| :: all[i].ordinal != all[j].ordinal
  {
    forall x, y | x in history && y in history && x.ordinal == y.ordinal ensures x == y {
      var i :| 0 <= i < |history| && history[i] == x;
      var j :| 0 <= j < |history| && history[j] == y;
    }
    forall i | 0 <= i < |s| ensures s[i].ordinal <= |history| {
      assert s[i] in history;
    }
    forall i, j | 0 <= i < j < |s| ensures s[i].ordinal != s[j].ordinal {
      assert Precedes(s[i], s[j]) && s[i] in history && s[j] in history;
    }
  }

  /** One more sample adds its own part to every total. */
  lemma Totals(history: seq<Sample>, c: Sample)
    ensures var more := history + [c];
            (forall t :: Exceeding(more, t) == Exceeding(history, t) + if c.elapsedMs > t then 1 else 0)
            && (forall s :: OfState(more, s) == if c.state == s then Observed(OfState(history, s), c.elapsedMs)
                                                  else OfState(history, s))
            && (forall op :: OfOperation(AllTimings(more), op)
                             == Merged(OfOperation(AllTimings(history), op), OfOperation(c.timings, op)))
            && (Numbered(history) && c.ordinal == |history| + 1 ==> Numbered(more))
  {
    assert (history + [c])[..|history|] == history;
    forall op ensures OfOperation(AllTimings(history) + c.timings, op)
                      == Merged(OfOperation(AllTimings(history), op), OfOperation(c.timings, op)) {
      MergeIsConcat(AllTimings(history), c.timings, op);
    }
  }
}
