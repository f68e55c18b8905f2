/**
 The tracked backups of a target over a whole replacement: which stay, which are dropped, and in
 what order.
 */
module AgentBackups {
  import opened Options
  import opened AgentFiles
  import opened AgentInvariant
  import opened AgentPublication

  /** The file of a tracked backup still has the recorded bytes. */
  predicate Held(s: Slot, o: Owned) {
    Backup(o.stamp) in s.names && s.names[Backup(o.stamp)].image.bytes == o.digest
  }

  /** `a` is `b` with entries left out. */
  predicate Subsequence(a: seq<Owned>, b: seq<Owned>) {
    if a == [] then true
    else if b == [] then false
    else if a[0] == b[0] then Subsequence(a[1..], b[1..])
    else Subsequence(a, b[1..])
  }

  /** The entry that the step itself adds. */
  function Own(step: Step): seq<Owned> {
    if step.before.Some? then [Owned(step.backup, step.before.value.bytes)] else []
  }

  /** What becomes of the tracked backups of a target: `was` and `s` before, `now` and `t` after. */
  ghost predicate Carried(s: Slot, was: seq<Owned>, step: Step, t: Slot, now: seq<Owned>) {
    // Nothing is tracked but what was before, in the order in which it was, and the step's own.
    && Subsequence(now, was + Own(step))
    && (forall o | o in now && o.stamp != step.backup :: Held(s, o))
    // An entry whose file had its bytes is dropped only beyond the limit, the oldest first.
    && (forall o | o in was && Held(s, o) && o.stamp != step.backup && o !in now ::
          |now| == MAX_BACKUPS && Subsequence([o] + now, was + Own(step)))
    // Exactly the files of the dropped entries are gone, and no other has changed.
    && (forall n: nat | n != step.backup ::
          (Backup(n) in t.names <==>
             Backup(n) in s.names && forall o | o in was && o.stamp == n && Held(s, o) :: o in now)
          && (Backup(n) in t.names ==> t.names[Backup(n)] == s.names[Backup(n)]))
  }

  // ---- subsequences ----

  lemma {:induction false} Whole(a: seq<Owned>)
    ensures Subsequence(a, a)
  {
    if a != [] { Whole(a[1..]); }
  }

  lemma {:induction false} Elements(a: seq<Owned>, b: seq<Owned>)
    requires Subsequence(a, b)
    ensures forall o | o in a :: o in b
    decreases |b|
  {
    if a != [] {
      if a[0] == b[0] { Elements(a[1..], b[1..]); } else { Elements(a, b[1..]); }
      assert forall o | o in a :: o == a[0] || o in a[1..];
    }
  }

  /** One more entry in front of the longer sequence. */
  lemma {:induction false} Longer(a: seq<Owned>, b: seq<Owned>, o: Owned)
    requires Subsequence(a, b)
    ensures Subsequence(a, [o] + b)
    decreases |b|, 1
  {
    assert ([o] + b)[1..] == b;
    if a != [] && a[0] == o { Tail(a, b); }
  }

  lemma {:induction false} Tail(a: seq<Owned>, b: seq<Owned>)
    requires Subsequence(a, b) && a != []
    ensures Subsequence(a[1..], b)
    decreases |b|, 0
  {
    if a[0] == b[0] {
      Longer(a[1..], b[1..], b[0]);
      assert [b[0]] + b[1..] == b;
    } else {
      Tail(a, b[1..]);
      Longer(a[1..], b[1..], b[0]);
      assert [b[0]] + b[1..] == b;
    }
  }

  lemma {:induction false} Through(a: seq<Owned>, b: seq<Owned>, c: seq<Owned>)
    requires Subsequence(a, b) && Subsequence(b, c)
    ensures Subsequence(a, c)
    decreases |c|
  {
    if a != [] {
      if b[0] == c[0] {
        if a[0] == b[0] { Through(a[1..], b[1..], c[1..]); } else { Through(a, b[1..], c[1..]); }
      } else {
        Through(a, b, c[1..]);
        Longer(a, c[1..], c[0]);
        assert [c[0]] + c[1..] == c;
      }
    }
  }

  /** The same entries behind both. */
  lemma {:induction false} Behind(a: seq<Owned>, b: seq<Owned>, more: seq<Owned>)
    requires Subsequence(a, b)
    ensures Subsequence(a + more, b + more)
    decreases |b|
  {
    if b == [] {
      assert a + more == more && b + more == more;
      Whole(more);
    } else if a != [] && a[0] == b[0] {
      Behind(a[1..], b[1..], more);
      assert (a + more)[1..] == a[1..] + more && (b + more)[1..] == b[1..] + more;
    } else {
      Behind(a, b[1..], more);
      assert (b + more) == [b[0]] + (b[1..] + more);
      Longer(a + more, b[1..] + more, b[0]);
    }
  }

  lemma {:induction false} Suffix(a: seq<Owned>, n: nat)
    requires n <= |a|
    ensures Subsequence(a[n..], a)
  {
    if n == 0 {
      assert a[0..] == a;
      Whole(a);
    } else {
      Suffix(a[1..], n - 1);
      assert a[n..] == a[1..][n - 1..];
      Longer(a[n..], a[1..], a[0]);
      assert [a[0]] + a[1..] == a;
    }
  }

  /** An entry and everything from a later point on. */
  lemma {:induction false} OneAndSuffix(a: seq<Owned>, i: nat, n: nat)
    requires i < n <= |a|
    ensures Subsequence([a[i]] + a[n..], a)
  {
    var both := [a[i]] + a[n..];
    assert both[0] == a[i] && both[1..] == a[n..];
    if i == 0 {
      Suffix(a[1..], n - 1);
      assert a[n..] == a[1..][n - 1..];
    } else {
      OneAndSuffix(a[1..], i - 1, n - 1);
      assert a[1..][n - 1..] == a[n..] && a[1..][i - 1] == a[i];
      Longer(both, a[1..], a[0]);
      assert [a[0]] + a[1..] == a;
    }
  }

  // ---- the entries whose files still have their bytes ----

  function Surviving(s: Slot, backups: seq<Owned>): (r: seq<Owned>)
    ensures |r| <= |backups| && (|r| == |backups| ==> r == backups)
    ensures forall o :: o in r <==> o in backups && Held(s, o)
  {
    if backups == [] then []
    else
      assert forall o :: o in backups <==> o == backups[0] || o in backups[1..];
      (if Held(s, backups[0]) then [backups[0]] else []) + Surviving(s, backups[1..])
  }

  lemma {:induction false} SurvivingIsSubsequence(s: Slot, backups: seq<Owned>)
    ensures Subsequence(Surviving(s, backups), backups)
  {
    if backups != [] {
      var rest := Surviving(s, backups[1..]);
      SurvivingIsSubsequence(s, backups[1..]);
      if Held(s, backups[0]) {
        assert ([backups[0]] + rest)[1..] == rest;
      } else {
        assert [] + rest == rest;
        Longer(rest, backups[1..], backups[0]);
        assert [backups[0]] + backups[1..] == backups;
      }
    }
  }

  lemma {:induction false} SurvivingAppend(s: Slot, a: seq<Owned>, b: seq<Owned>)
    ensures Surviving(s, a + b) == Surviving(s, a) + Surviving(s, b)
  {
    hide Held;
    if a == [] {
      assert a + b == b;
    } else {
      SurvivingAppend(s, a[1..], b);
      assert (a + b)[1..] == a[1..] + b;
    }
  }

  lemma {:induction false} SurvivingAlike(s: Slot, t: Slot, backups: seq<Owned>)
    requires forall o | o in backups :: Held(s, o) <==> Held(t, o)
    ensures Surviving(s, backups) == Surviving(t, backups)
  {
    if backups != [] {
      assert backups[0] in backups && forall o | o in backups[1..] :: o in backups;
      SurvivingAlike(s, t, backups[1..]);
    }
  }

  lemma {:induction false} AllSurvive(s: Slot, backups: seq<Owned>)
    requires forall o | o in backups :: Held(s, o)
    ensures Surviving(s, backups) == backups
  {
    if backups != [] {
      assert backups[0] in backups && forall o | o in backups[1..] :: o in backups;
      AllSurvive(s, backups[1..]);
      assert [backups[0]] + backups[1..] == backups;
    }
  }

  /** Where no other name means the file of a tracked backup, reading it is looking at it. */
  lemma {:induction false} StillOwnedSurvives(s: Slot, backups: seq<Owned>)
    requires forall o | o in backups :: Intact(s, o) <==> Held(s, o)
    ensures StillOwned(s, backups) == Surviving(s, backups)
  {
    if backups != [] {
      assert backups[0] in backups && forall o | o in backups[1..] :: o in backups;
      StillOwnedSurvives(s, backups[1..]);
      assert [] + Surviving(s, backups[1..]) == Surviving(s, backups[1..]);
    }
  }

  /** Only the archive stage is ever linked to a backup, and only to the step's own. */
  lemma OthersAreUnlinked(c: Cell, o: Owned)
    requires CellInv(c) && (o.stamp == c.step.backup ==> !c.Linked(Archive, Backup(c.step.backup)))
    ensures Intact(c.slot, o) <==> Held(c.slot, o)
  {
    var b := Backup(o.stamp);
    if c.Has(b) {
      assert forall m | c.Has(m) && m != b :: c.slot.names[m].ino != c.slot.names[b].ino;
    }
  }

  // ---- dropping the oldest ----

  /** The oldest entries beyond `retain`, and the others. */
  function Excess(backups: seq<Owned>, retain: nat): seq<Owned> {
    if |backups| > retain then backups[..|backups| - retain] else []
  }

  function Retained(backups: seq<Owned>, retain: nat): seq<Owned> {
    if |backups| > retain then backups[|backups| - retain..] else backups
  }

  ghost function Stamps(backups: seq<Owned>): set<nat> {
    set o | o in backups :: o.stamp
  }

  lemma StampsExtend(backups: seq<Owned>, n: nat)
    requires n < |backups|
    ensures Stamps(backups[..n + 1]) == Stamps(backups[..n]) + {backups[n].stamp}
  {
    assert backups[..n + 1] == backups[..n] + [backups[n]];
  }

  lemma StampsMonotone(backups: seq<Owned>, m: nat, n: nat)
    requires m <= n <= |backups|
    ensures Stamps(backups[..m]) <= Stamps(backups[..n])
  {
  }

  // ---- one step ----

  predicate SameFile(s: Slot, t: Slot, n: Name) {
    (n in s.names <==> n in t.names) && (n in s.names ==> t.names[n] == s.names[n])
  }

  /** Nothing about the backups has changed. */
  ghost predicate Still(c: Cell, d: Cell) {
    d.entry == c.entry && forall n: nat :: SameFile(c.slot, d.slot, Backup(n))
  }

  /** The step's backup has been recorded, and room was made for it. */
  ghost predicate Recorded(c: Cell, d: Cell) {
    var held := Surviving(c.slot, c.entry.backups);
    && d.step.before.Some? && !Tracks(held, d.step.backup)
    && d.entry.backups == Retained(held, MAX_BACKUPS - 1) + Own(d.step)
    && (forall o | o in Excess(held, MAX_BACKUPS - 1) :: !d.Has(Backup(o.stamp)))
    && (forall n: nat | n != d.step.backup && n !in Stamps(Excess(held, MAX_BACKUPS - 1)) ::
          SameFile(c.slot, d.slot, Backup(n)))
  }

  /** Room has been made for the backup of the step: `t` is what is left of the files. */
  ghost predicate Roomy(c: Cell, t: Slot, backups: seq<Owned>) {
    var held := Surviving(c.slot, c.entry.backups);
    && !Tracks(held, c.step.backup) && backups == Retained(held, MAX_BACKUPS - 1)
    && (forall o | o in Excess(held, MAX_BACKUPS - 1) :: Backup(o.stamp) !in t.names)
    && (forall n: nat | n !in Stamps(Excess(held, MAX_BACKUPS - 1)) :: SameFile(c.slot, t, Backup(n)))
  }

  /** A trim keeps the entries it does not drop intact. */
  lemma TrimmedKeepsIntact(s: Slot, t: Slot, removed: set<nat>, o: Owned)
    requires Wf(s) && Trimmed(s, t, removed) && Intact(s, o) && o.stamp !in removed
    ensures Intact(t, o)
  {
    var b := Backup(o.stamp);
    forall m | m in t.names && m != b ensures t.names[m].ino != t.names[b].ino {
      if !m.Orphan? { assert s.names[m].ino != s.names[b].ino; }
    }
  }

  lemma RoomMade(c: Cell, t: Slot, removed: set<nat>)
    requires CellInv(c) && Trimmed(c.slot, t, removed)
    requires !c.Tracked() || !c.Has(Backup(c.step.backup))
    requires var excess := Excess(StillOwned(c.slot, c.entry.backups), MAX_BACKUPS - 1);
             removed <= Stamps(excess) && forall o | o in excess :: Backup(o.stamp) !in t.names
    ensures Roomy(c, t, Retained(StillOwned(c.slot, c.entry.backups), MAX_BACKUPS - 1))
  {
    hide CellInv, Surviving, StillOwned, Wf, Held, Intact;
    forall o | o in c.entry.backups
      ensures (Intact(c.slot, o) <==> Held(c.slot, o)) && (Held(c.slot, o) ==> o.stamp != c.step.backup)
    {
      UntrackedIsAbsent(c, o);
    }
    StillOwnedSurvives(c.slot, c.entry.backups);
  }

  lemma UntrackedIsAbsent(c: Cell, o: Owned)
    requires CellInv(c) && o in c.entry.backups && (!c.Tracked() || !c.Has(Backup(c.step.backup)))
    ensures (Intact(c.slot, o) <==> Held(c.slot, o)) && (Held(c.slot, o) ==> o.stamp != c.step.backup)
  {
    var k :| 0 <= k < |c.entry.backups| && c.entry.backups[k] == o;
    if o.stamp != c.step.backup { OthersAreUnlinked(c, o); }
  }

  lemma RoomIsRecorded(c: Cell, t: Slot, backups: seq<Owned>, d: Cell)
    requires Roomy(c, t, backups) && d.step.backup == c.step.backup && d.step.before.Some?
    requires d.entry.backups == backups + Own(d.step)
    requires forall n: nat | n != c.step.backup :: SameFile(t, d.slot, Backup(n))
    ensures Recorded(c, d)
  {
    hide Surviving;
    var held := Surviving(c.slot, c.entry.backups);
    var excess := Excess(held, MAX_BACKUPS - 1);
    forall o | o in excess ensures !d.Has(Backup(o.stamp)) {
      assert o in held;
      var k :| 0 <= k < |held| && held[k] == o;
      assert o.stamp != c.step.backup && SameFile(t, d.slot, Backup(o.stamp));
    }
  }

  /** The tracked backups from one state of a step to a later one: as they were, except that the
      step's own may have been linked, or with the step's own recorded. */
  ghost predicate Shelved(c: Cell, d: Cell) {
    || (d.entry == c.entry && forall n: nat | n != d.step.backup :: SameFile(c.slot, d.slot, Backup(n)))
    || Recorded(c, d)
  }

  /** Wherever a process dies, the journal tracks what it tracked, or what of that was intact and
      within the limit, with the step's own recorded. */
  ghost predicate NothingForgotten(s: Slot, was: seq<Owned>, step: Step, now: seq<Owned>) {
    now == was || (step.before.Some? && now == Retained(Surviving(s, was), MAX_BACKUPS - 1) + Own(step))
  }

  ghost predicate Logged(c: Cell, d: Cell) {
    NothingForgotten(c.slot, c.entry.backups, d.step, d.entry.backups)
  }

  lemma StillIsLogged(c: Cell, d: Cell)
    requires Still(c, d)
    ensures Logged(c, d)
  {
  }

  lemma RoomIsLogged(c: Cell, t: Slot, backups: seq<Owned>, d: Cell)
    requires Roomy(c, t, backups)
    requires d.entry == c.entry || (d.step.before.Some? && d.entry.backups == backups + Own(d.step))
    ensures Logged(c, d)
  {
  }

  lemma LoggedAgain(c: Cell, d: Cell, e: Cell)
    requires Logged(c, d) && e.entry == d.entry && e.step == d.step
    ensures Logged(c, e)
  {
  }

  lemma LoggedAfterStill(c: Cell, d: Cell, e: Cell)
    requires Still(c, d) && Logged(d, e)
    ensures Logged(c, e)
  {
    SurvivingAlike(c.slot, d.slot, c.entry.backups);
  }

  lemma StillAfterLogged(c: Cell, d: Cell, e: Cell)
    requires Logged(c, d) && Still(d, e) && e.step.backup == d.step.backup && e.step.before == d.step.before
    ensures Logged(c, e)
  {
  }

  lemma ShelvedAfterStill(c: Cell, d: Cell, e: Cell)
    requires Still(c, d) && Shelved(d, e)
    ensures Shelved(c, e)
  {
    SurvivingAlike(c.slot, d.slot, c.entry.backups);
    hide Surviving, Stamps, Retained, Excess;
  }

  lemma StillAfterShelved(c: Cell, d: Cell, e: Cell)
    requires Shelved(c, d) && Still(d, e) && e.step.backup == d.step.backup && e.step.before == d.step.before
    ensures Shelved(c, e)
  {
    hide Surviving, Stamps, Retained, Excess;
    assert forall o | o in Excess(Surviving(c.slot, c.entry.backups), MAX_BACKUPS - 1) ::
             SameFile(d.slot, e.slot, Backup(o.stamp));
  }

  lemma StillAtFirst(c: Cell)
    ensures Still(c, c) && Logged(c, c)
  {
  }

  lemma ShelvedAtFirst(c: Cell)
    ensures Shelved(c, c) && Logged(c, c)
  {
  }

  lemma StillIsShelved(c: Cell, d: Cell)
    requires Still(c, d)
    ensures Shelved(c, d)
  {
  }

  lemma ClientIsStill(c: Cell, t: Slot)
    requires ClientSafe(c, t)
    ensures Still(c, c.At(t))
  {
  }

  lemma DisplacingIsStill(c: Cell)
    requires c.Has(Target)
    ensures Still(c, Displacing(c))
  {
  }

  lemma PublishingIsStill(c: Cell)
    requires c.Has(Next)
    ensures Still(c, Publishing(c))
    ensures Still(c, Publishing(c).At(Removed(Publishing(c).slot, Next)))
  {
  }

  lemma StillTransitive(c: Cell, d: Cell, e: Cell)
    requires Still(c, d) && Still(d, e)
    ensures Still(c, e) && Logged(c, e)
  {
    assert forall n: nat :: SameFile(c.slot, d.slot, Backup(n)) && SameFile(d.slot, e.slot, Backup(n));
  }

  // ---- the whole replacement ----

  /** Entries may follow the longer sequence. */
  lemma {:induction false} InFront(a: seq<Owned>, b: seq<Owned>, more: seq<Owned>)
    requires Subsequence(a, b)
    ensures Subsequence(a, b + more)
    decreases |b|
  {
    if a != [] {
      assert (b + more)[1..] == b[1..] + more;
      if a[0] == b[0] { InFront(a[1..], b[1..], more); } else { InFront(a, b[1..], more); }
    }
  }

  lemma RestIsInOrder(was: seq<Owned>, held: seq<Owned>, n: nat, tail: seq<Owned>, own: seq<Owned>)
    requires Subsequence(held, was) && n <= |held| && (tail == [] || tail == own)
    ensures Subsequence(held[n..] + tail, was + own)
  {
    hide Subsequence;
    Suffix(held, n);
    Through(held[n..], held, was);
    Behind(held[n..], was, own);
    InFront(held[n..], was, own);
    assert held[n..] + [] == held[n..];
  }

  lemma OlderIsInFront(was: seq<Owned>, held: seq<Owned>, i: nat, n: nat, tail: seq<Owned>, own: seq<Owned>)
    requires Subsequence(held, was) && i < n <= |held| && (tail == [] || tail == own)
    ensures Subsequence([held[i]] + (held[n..] + tail), was + own)
  {
    hide Subsequence;
    var rest := [held[i]] + held[n..];
    OneAndSuffix(held, i, n);
    Through(rest, held, was);
    Behind(rest, was, own);
    InFront(rest, was, own);
    assert [held[i]] + (held[n..] + tail) == rest + tail && rest + [] == rest;
  }

  /** What a cut in the right place amounts to: `held` are the entries that could stay, `n` of
      them, the oldest, do not, and `tail` is added. */
  lemma CutIsCarried(s: Slot, was: seq<Owned>, step: Step, t: Slot, held: seq<Owned>, n: nat, tail: seq<Owned>)
    requires Subsequence(held, was) && DistinctStamps(held) && n <= |held| && (tail == [] || tail == Own(step))
    requires forall o: Owned | o.stamp != step.backup :: o in held <==> o in was && Held(s, o)
    requires n > 0 ==> |held| - n + |tail| == MAX_BACKUPS
    requires forall m: nat | m != step.backup ::
               if m in Stamps(held[..n]) then Backup(m) !in t.names else SameFile(s, t, Backup(m))
    ensures Carried(s, was, step, t, held[n..] + tail)
  {
    var now := held[n..] + tail;
    RestIsInOrder(was, held, n, tail, Own(step));
    forall o | o in was && Held(s, o) && o.stamp != step.backup && o !in now
      ensures |now| == MAX_BACKUPS && Subsequence([o] + now, was + Own(step))
      ensures o.stamp in Stamps(held[..n])
    {
      var i :| 0 <= i < |held| && held[i] == o;
      assert i < n;
      assert held[..n][i] == o;
      OlderIsInFront(was, held, i, n, tail, Own(step));
    }
    forall m: nat | m != step.backup && m in Stamps(held[..n])
      ensures exists o :: o in was && o.stamp == m && Held(s, o) && o !in now
    {
      var o :| o in held[..n] && o.stamp == m;
      var i :| 0 <= i < n && held[i] == o;
      assert forall j | n <= j < |held| :: held[j].stamp != held[i].stamp;
      assert o !in held[n..] && o !in tail;
    }
  }

  lemma HeldInOrder(s: Slot, backups: seq<Owned>)
    requires DistinctStamps(backups)
    ensures Subsequence(Surviving(s, backups), backups) && DistinctStamps(Surviving(s, backups))
  {
    SurvivingIsSubsequence(s, backups);
    SubsequenceDistinct(Surviving(s, backups), backups);
  }

  lemma {:induction false} SubsequenceDistinct(a: seq<Owned>, b: seq<Owned>)
    requires Subsequence(a, b) && DistinctStamps(b)
    ensures DistinctStamps(a)
    decreases |b|
  {
    if a != [] {
      assert DistinctStamps(b[1..]);
      if a[0] == b[0] {
        SubsequenceDistinct(a[1..], b[1..]);
        Elements(a[1..], b[1..]);
        forall j | 1 <= j < |a| ensures a[j].stamp != a[0].stamp {
          assert a[1..][j - 1] in b[1..];
          var k :| 0 <= k < |b[1..]| && b[1..][k] == a[j];
          assert b[k + 1] == a[j];
        }
      } else {
        SubsequenceDistinct(a, b[1..]);
      }
    }
  }

  lemma ArchiveIsBeside(c: Cell, image: Image, mode: nat)
    requires Wf(c.slot) && !c.Has(Archive)
    ensures Still(c, c.At(Created(c.slot, Archive, image)))
    ensures Still(c, c.At(Chmodded(Created(c.slot, Archive, image), Archive, mode)))
  {
  }

  /** The list that a replacement ends with before it is trimmed, from a step that is published. */
  function Completed(c: Cell): seq<Owned> {
    WithOwn(c.step, c.entry.backups)
  }

  function WithOwn(step: Step, backups: seq<Owned>): seq<Owned> {
    if Tracks(backups, step.backup) then backups else backups + Own(step)
  }

  /** The backup of what the step displaced has its bytes and is private. */
  predicate Private(step: Step, t: Slot) {
    step.before.Some? ==>
      Backup(step.backup) in t.names
      && t.names[Backup(step.backup)].image == Image(step.before.value.bytes, PRIVATE_MODE)
  }

  /** A step whose own backup has been made private; the bytes of no backup have changed. */
  ghost predicate Finalized(c: Cell, t: Slot) {
    && (forall n: nat | n != c.step.backup :: SameFile(c.slot, t, Backup(n)))
    && (forall o: Owned :: Held(c.slot, o) <==> Held(t, o))
    && Private(c.step, t)
  }

  lemma EmptyingKeepsBackups(s: Slot, t: Slot)
    requires Emptying(s, t)
    ensures forall n: nat :: SameFile(s, t, Backup(n))
    ensures forall o: Owned :: Held(s, o) <==> Held(t, o)
  {
    assert forall n: nat :: SameFile(s, t, Backup(n));
  }

  /** A list cut to the limit, and the files with it. */
  ghost predicate CutDown(s: Slot, backups: seq<Owned>, t: Slot, now: seq<Owned>) {
    var held := Surviving(s, backups);
    && now == Retained(held, MAX_BACKUPS)
    && (forall o | o in Excess(held, MAX_BACKUPS) :: Backup(o.stamp) !in t.names)
    && (forall n: nat | n !in Stamps(Excess(held, MAX_BACKUPS)) :: SameFile(s, t, Backup(n)))
  }

  /** The end of a replacement: the list is cut, and so are the files. */
  ghost predicate Ended(c: Cell, t: Slot, now: seq<Owned>) {
    var held := Surviving(c.slot, Completed(c));
    && now == Retained(held, MAX_BACKUPS)
    && (forall o | o in Excess(held, MAX_BACKUPS) :: Backup(o.stamp) !in t.names)
    && (forall n: nat | n != c.step.backup && n !in Stamps(Excess(held, MAX_BACKUPS)) :: SameFile(c.slot, t, Backup(n)))
  }

  lemma CutIsEnd(c: Cell, s: Slot, t: Slot, now: seq<Owned>)
    requires Finalized(c, s) && CutDown(s, Completed(c), t, now)
    requires c.step.backup !in Stamps(Excess(Surviving(s, Completed(c)), MAX_BACKUPS))
    ensures Ended(c, t, now) && Private(c.step, t)
    ensures now == Retained(Surviving(s, Completed(c)), MAX_BACKUPS)
  {
    SurvivingAlike(c.slot, s, Completed(c));
    hide Surviving, Held, Completed;
    forall n: nat | n != c.step.backup && n !in Stamps(Excess(Surviving(s, Completed(c)), MAX_BACKUPS))
      ensures SameFile(c.slot, t, Backup(n))
    {
      assert SameFile(c.slot, s, Backup(n)) && SameFile(s, t, Backup(n));
    }
    assert SameFile(s, t, Backup(c.step.backup));
  }

  lemma TrimKept(c: Cell, backups: seq<Owned>)
    requires Settled(c)
    ensures StillOwned(c.slot, backups) == Surviving(c.slot, backups)
  {
    SettledHolds(c);
    assert !c.Has(Archive);
    hide CellInv, Settled, Surviving, StillOwned, Held, Intact;
    forall o | o in backups ensures Intact(c.slot, o) <==> Held(c.slot, o) {
      OthersAreUnlinked(c, o);
    }
    StillOwnedSurvives(c.slot, backups);
  }

  lemma TrimIsCut(c: Cell, backups: seq<Owned>, t: Slot, removed: set<nat>)
    requires Settled(c) && Trimmed(c.slot, t, removed)
    requires var excess := Excess(StillOwned(c.slot, backups), MAX_BACKUPS);
             removed <= Stamps(excess) && forall o | o in excess :: Backup(o.stamp) !in t.names
    ensures CutDown(c.slot, backups, t, Retained(StillOwned(c.slot, backups), MAX_BACKUPS))
  {
    TrimKept(c, backups);
    hide Settled, Surviving, StillOwned, Wf;
  }

  lemma ShelvedIsCarried(c: Cell, d: Cell, t: Slot, now: seq<Owned>)
    requires Shelved(c, d) && Cleaning(d) && Ended(d, t, now)
    requires DistinctStamps(c.entry.backups) && |c.entry.backups| <= MAX_BACKUPS
    ensures Carried(c.slot, c.entry.backups, d.step, t, now)
  {
    CleaningHolds(d);
    assert forall o | o in Own(d.step) :: Held(d.slot, o);
    hide Cleaning;
    HeldInOrder(c.slot, c.entry.backups);
    if Recorded(c, d) {
      RecordedIsCarried(c, d, t, now);
    } else {
      UnrecordedIsCarried(c, d, t, now);
    }
  }

  lemma RecordedIsCarried(c: Cell, d: Cell, t: Slot, now: seq<Owned>)
    requires Recorded(c, d) && Ended(d, t, now) && forall o | o in Own(d.step) :: Held(d.slot, o)
    requires var held := Surviving(c.slot, c.entry.backups);
             DistinctStamps(held) && Subsequence(held, c.entry.backups)
    ensures Carried(c.slot, c.entry.backups, d.step, t, now)
  {
    hide Surviving, Carried, Subsequence;
    var held, own := Surviving(c.slot, c.entry.backups), Own(d.step);
    var n := |Excess(held, MAX_BACKUPS - 1)|;
    assert Excess(held, MAX_BACKUPS - 1) == held[..n] && Retained(held, MAX_BACKUPS - 1) == held[n..];
    assert d.entry.backups[|held[n..]|] == own[0];
    assert Completed(d) == held[n..] + own;
    RecordedSurvive(c, d, held, n);
    assert Excess(held[n..] + own, MAX_BACKUPS) == [];
    assert Stamps([]) == {};
    forall m: nat | m != d.step.backup
      ensures if m in Stamps(held[..n]) then Backup(m) !in t.names else SameFile(c.slot, t, Backup(m))
    {
      assert SameFile(d.slot, t, Backup(m));
    }
    CutIsCarried(c.slot, c.entry.backups, d.step, t, held, n, own);
  }

  /** What was recorded or kept is intact. */
  lemma RecordedSurvive(c: Cell, d: Cell, held: seq<Owned>, n: nat)
    requires held == Surviving(c.slot, c.entry.backups) && DistinctStamps(held) && n <= |held|
    requires !Tracks(held, d.step.backup) && forall o | o in Own(d.step) :: Held(d.slot, o)
    requires forall m: nat | m != d.step.backup && m !in Stamps(held[..n]) :: SameFile(c.slot, d.slot, Backup(m))
    ensures Surviving(d.slot, held[n..] + Own(d.step)) == held[n..] + Own(d.step)
  {
    hide Surviving;
    forall o | o in held[n..] ensures Held(d.slot, o) {
      var j :| n <= j < |held| && held[j] == o;
      assert forall i | 0 <= i < n :: held[i].stamp != held[j].stamp;
      assert o.stamp !in Stamps(held[..n]) && held[j].stamp != d.step.backup && o in held;
      assert SameFile(c.slot, d.slot, Backup(o.stamp));
    }
    AllSurvive(d.slot, held[n..] + Own(d.step));
  }

  lemma UnrecordedIsCarried(c: Cell, d: Cell, t: Slot, now: seq<Owned>)
    requires d.entry == c.entry && forall n: nat | n != d.step.backup :: SameFile(c.slot, d.slot, Backup(n))
    requires Ended(d, t, now) && forall o | o in Own(d.step) :: Held(d.slot, o)
    requires DistinctStamps(c.entry.backups) && |c.entry.backups| <= MAX_BACKUPS
    ensures Carried(c.slot, c.entry.backups, d.step, t, now)
  {
    hide Surviving, Carried, Subsequence, Held;
    var was, b := c.entry.backups, d.step.backup;
    var tail := if Completed(d) == was then [] else Own(d.step);
    var held := Surviving(d.slot, was);
    HeldInOrder(d.slot, was);
    CompletedSurvives(d, was, tail);
    HeldAlike(c.slot, d.slot, b);
    var n := |Excess(held + tail, MAX_BACKUPS)|;
    assert Excess(held + tail, MAX_BACKUPS) == held[..n] && now == held[n..] + tail;
    forall m: nat | m != b
      ensures if m in Stamps(held[..n]) then Backup(m) !in t.names else SameFile(c.slot, t, Backup(m))
    {
      if m !in Stamps(held[..n]) { assert SameFile(d.slot, t, Backup(m)) && SameFile(c.slot, d.slot, Backup(m)); }
    }
    CutIsCarried(c.slot, was, d.step, t, held, n, tail);
  }

  lemma CompletedSurvives(d: Cell, was: seq<Owned>, tail: seq<Owned>)
    requires was == d.entry.backups && forall o | o in Own(d.step) :: Held(d.slot, o)
    requires tail == if Completed(d) == was then [] else Own(d.step)
    ensures Surviving(d.slot, Completed(d)) == Surviving(d.slot, was) + tail
  {
    hide Surviving;
    SurvivingAppend(d.slot, was, Own(d.step));
    AllSurvive(d.slot, Own(d.step));
    assert was + [] == was && Surviving(d.slot, was) + [] == Surviving(d.slot, was);
  }

  lemma HeldAlike(s: Slot, t: Slot, b: nat)
    requires forall n: nat | n != b :: SameFile(s, t, Backup(n))
    ensures forall o: Owned | o.stamp != b :: Held(s, o) <==> Held(t, o)
  {
    forall o: Owned | o.stamp != b ensures Held(s, o) <==> Held(t, o) {
      assert SameFile(s, t, Backup(o.stamp));
    }
  }
}
