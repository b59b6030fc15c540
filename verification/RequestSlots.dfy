/** The background request table of afs_daemons.c as a state machine.  Requests are numbered in
    the order they are queued; a slot remembers its request's number, how many user references
    are outstanding and whether the daemon still owes its own release.  Only refCount, the
    BSTARTED flag and the 32-bit timestamp exist in the source. */
module RequestSlots {
  import opened Basics
  import opened Seqs

  const NBRS: nat := 15

  datatype Slot = Slot(refCount: nat, started: bool, ts: int, serial: nat, users: nat, owed: bool)

  /** The table, the timestamp of request 0, and how many requests have been queued and claimed. */
  datatype Sched = Sched(slots: seq<Slot>, start: int, queued: nat, claimed: nat)

  predicate Free(sl: Slot)
  {
    sl.refCount == 0
  }

  predicate Unclaimed(sl: Slot)
  {
    sl.refCount > 0 && !sl.started
  }

  ghost predicate SlotInv(s: Sched, sl: Slot)
  {
    && sl.refCount == sl.users + (if sl.owed then 1 else 0)
    && (Free(sl) ==> !sl.started)
    && (Unclaimed(sl) ==> sl.owed && s.claimed <= sl.serial < s.queued)
    && (sl.started ==> sl.serial < s.claimed)
    && (!Free(sl) ==> sl.ts == Wrap32(s.start + sl.serial))
  }

  /** The unclaimed requests are exactly those numbered from `claimed` up to `queued`, each in
      one slot: their timestamps are consecutive. */
  ghost predicate Inv(s: Sched)
  {
    && |s.slots| == NBRS
    && s.claimed <= s.queued <= s.claimed + NBRS
    && (forall i :: 0 <= i < NBRS ==> SlotInv(s, s.slots[i]))
    && (forall i, j :: 0 <= i < j < NBRS && !Free(s.slots[i]) && !Free(s.slots[j]) ==> s.slots[i].serial != s.slots[j].serial)
    && (forall n :: s.claimed <= n < s.queued ==> Waiting(s, n))
  }

  /** Request n sits unclaimed in some slot. */
  ghost predicate Waiting(s: Sched, n: int)
  {
    exists i :: 0 <= i < |s.slots| && Unclaimed(s.slots[i]) && s.slots[i].serial == n
  }

  // ---------------------------------------------------------------- timestamps

  /** The 32-bit difference of two wrapped timestamps is the true difference of the request
      numbers whenever those are less than 2^31 apart, whatever the counter started from. */
  lemma WrapDifference(start: int, m: int, n: int)
    requires -TWO31 < m - n < TWO31
    ensures Wrap32(Wrap32(start + m) - Wrap32(start + n)) == m - n
  {
  }

  /** Incrementing a wrapped counter. */
  lemma NextCount(start: int, n: int)
    ensures Wrap32(Wrap32(start + n) + 1) == Wrap32(start + (n + 1))
  {
  }

  /** The daemon's comparison `min_ts - ts > 0` orders unclaimed requests by age. */
  lemma ComparisonIsAge(s: Sched, i: nat, j: nat)
    requires Inv(s) && i < NBRS && j < NBRS && Unclaimed(s.slots[i]) && Unclaimed(s.slots[j])
    ensures Wrap32(s.slots[i].ts - s.slots[j].ts) > 0 <==> s.slots[i].serial > s.slots[j].serial
  {
    assert SlotInv(s, s.slots[i]) && SlotInv(s, s.slots[j]);
    WrapDifference(s.start, s.slots[i].serial, s.slots[j].serial);
  }

  // ---------------------------------------------------------------- steps

  /** afs_BQueue filling free slot i, with `ause` references for the user. */
  function Enqueued(s: Sched, i: nat, ause: nat): (r: Sched)
    requires i < |s.slots|
  {
    s.(slots := s.slots[i := Slot(ause + 1, false, Wrap32(s.start + s.queued), s.queued, ause, true)], queued := s.queued + 1)
  }

  /** A daemon setting BSTARTED on slot i. */
  function Claimed(s: Sched, i: nat): (r: Sched)
    requires i < |s.slots|
  {
    s.(slots := s.slots[i := s.slots[i].(started := true)], claimed := s.claimed + 1)
  }

  /** afs_BRelease of slot i, by a user or by the daemon. */
  function Released(s: Sched, i: nat, byUser: bool): (r: Sched)
    requires i < |s.slots| && s.slots[i].refCount > 0 && (byUser ==> s.slots[i].users > 0)
  {
    var sl := s.slots[i];
    var left := sl.refCount - 1;
    s.(slots := s.slots[i := sl.(refCount := left, started := left > 0 && sl.started,
                                 users := if byUser then sl.users - 1 else sl.users,
                                 owed := byUser && sl.owed)])
  }

  lemma EnqueuedKeeps(s: Sched, i: nat, ause: nat)
    requires Inv(s) && i < NBRS && Free(s.slots[i])
    ensures Inv(Enqueued(s, i, ause))
  {
    var r := Enqueued(s, i, ause);
    forall j | 0 <= j < NBRS ensures SlotInv(r, r.slots[j]) {
      assert SlotInv(s, s.slots[j]);
    }
    forall n | r.claimed <= n < r.queued ensures Waiting(r, n) {
      if n < s.queued {
        assert Waiting(s, n);
        var j :| 0 <= j < |s.slots| && Unclaimed(s.slots[j]) && s.slots[j].serial == n;
        assert Unclaimed(r.slots[j]) && r.slots[j].serial == n;
      } else {
        assert Unclaimed(r.slots[i]) && r.slots[i].serial == n;
      }
    }
    RoomLeft(r);
  }

  /** Fifteen slots hold at most fifteen waiting requests. */
  lemma RoomLeft(s: Sched)
    requires |s.slots| == NBRS && s.claimed <= s.queued && forall n :: s.claimed <= n < s.queued ==> Waiting(s, n)
    ensures s.queued <= s.claimed + NBRS
  {
    Pigeonhole(Holders(s, s.claimed, s.queued), NBRS);
  }

  /** The slots of requests lo up to hi, in order. */
  ghost function Holders(s: Sched, lo: nat, hi: nat): (r: seq<nat>)
    requires lo <= hi && forall n :: lo <= n < hi ==> Waiting(s, n)
    ensures |r| == hi - lo && Distinct(r)
    ensures forall k :: 0 <= k < |r| ==> r[k] < |s.slots| && s.slots[r[k]].serial == lo + k
    decreases hi
  {
    if lo == hi then [] else
      assert Waiting(s, hi - 1);
      var i :| 0 <= i < |s.slots| && Unclaimed(s.slots[i]) && s.slots[i].serial == hi - 1;
      Holders(s, lo, hi - 1) + [i]
  }

  lemma ClaimedKeeps(s: Sched, i: nat)
    requires Inv(s) && i < NBRS && Unclaimed(s.slots[i]) && s.slots[i].serial == s.claimed
    ensures Inv(Claimed(s, i))
  {
    var r := Claimed(s, i);
    forall j | 0 <= j < NBRS ensures SlotInv(r, r.slots[j]) {
      assert SlotInv(s, s.slots[j]);
    }
    forall n | r.claimed <= n < r.queued ensures Waiting(r, n) {
      assert Waiting(s, n);
      var j :| 0 <= j < |s.slots| && Unclaimed(s.slots[j]) && s.slots[j].serial == n;
      assert Unclaimed(r.slots[j]) && r.slots[j].serial == n;
    }
  }

  lemma ReleasedKeeps(s: Sched, i: nat, byUser: bool)
    requires Inv(s) && i < NBRS && s.slots[i].refCount > 0
    requires if byUser then s.slots[i].users > 0 else s.slots[i].started && s.slots[i].owed
    ensures Inv(Released(s, i, byUser))
  {
    var r := Released(s, i, byUser);
    assert SlotInv(s, s.slots[i]);
    forall j | 0 <= j < NBRS ensures SlotInv(r, r.slots[j]) {
      assert SlotInv(s, s.slots[j]);
    }
    forall n | r.claimed <= n < r.queued ensures Waiting(r, n) {
      assert Waiting(s, n);
      var j :| 0 <= j < |s.slots| && Unclaimed(s.slots[j]) && s.slots[j].serial == n;
      assert Unclaimed(r.slots[j]) && r.slots[j].serial == n;
    }
  }

  /** Someone still holds the request, or its daemon has not finished: its slot is not free, so
      afs_BQueue cannot reuse it. */
  lemma BusySlotNotFree(s: Sched, i: nat)
    requires Inv(s) && i < NBRS
    ensures Free(s.slots[i]) <==> s.slots[i].users == 0 && !s.slots[i].owed
  {
  }

  // ---------------------------------------------------------------- runs

  datatype Event =
    | Queue(i: nat, ause: nat)
    | Claim(i: nat)
    | Release(i: nat, byUser: bool)

  /** What the code can do: queue into a free slot, claim the request that wins the 32-bit
      comparison against every other waiting one, or release a reference actually held. */
  predicate Legal(s: Sched, e: Event)
  {
    && e.i < |s.slots|
    && match e
       case Queue(i, _) => Free(s.slots[i])
       case Claim(i) => Unclaimed(s.slots[i]) && Oldest(s, i)
       case Release(i, byUser) =>
         s.slots[i].refCount > 0 && if byUser then s.slots[i].users > 0 else s.slots[i].started && s.slots[i].owed
  }

  predicate Oldest(s: Sched, i: nat)
    requires i < |s.slots|
  {
    forall j :: 0 <= j < |s.slots| && Unclaimed(s.slots[j]) ==> Wrap32(s.slots[i].ts - s.slots[j].ts) <= 0
  }

  function Apply(s: Sched, e: Event): (r: Sched)
    requires Legal(s, e)
  {
    match e
    case Queue(i, ause) => Enqueued(s, i, ause)
    case Claim(i) => Claimed(s, i)
    case Release(i, byUser) => Released(s, i, byUser)
  }

  lemma OldestIsNext(s: Sched, i: nat)
    requires Inv(s) && i < NBRS && Unclaimed(s.slots[i]) && Oldest(s, i)
    ensures s.slots[i].serial == s.claimed
  {
    assert SlotInv(s, s.slots[i]);
    assert Waiting(s, s.claimed);
    var j :| 0 <= j < |s.slots| && Unclaimed(s.slots[j]) && s.slots[j].serial == s.claimed;
    ComparisonIsAge(s, i, j);
  }

  lemma StepKeeps(s: Sched, e: Event)
    requires Inv(s) && Legal(s, e)
    ensures Inv(Apply(s, e))
  {
    match e {
      case Queue(i, ause) => EnqueuedKeeps(s, i, ause);
      case Claim(i) => OldestIsNext(s, i); ClaimedKeeps(s, i);
      case Release(i, byUser) => ReleasedKeeps(s, i, byUser);
    }
  }

  predicate LegalRun(s: Sched, evs: seq<Event>)
    decreases |evs|
  {
    evs == [] || (Legal(s, evs[0]) && LegalRun(Apply(s, evs[0]), evs[1..]))
  }

  function Run(s: Sched, evs: seq<Event>): (r: Sched)
    requires LegalRun(s, evs)
    decreases |evs|
  {
    if evs == [] then s else Run(Apply(s, evs[0]), evs[1..])
  }

  /** The numbers of the requests claimed during a run, in order. */
  function Claims(s: Sched, evs: seq<Event>): (r: seq<nat>)
    requires LegalRun(s, evs)
    decreases |evs|
  {
    if evs == [] then []
    else (if evs[0].Claim? then [s.slots[evs[0].i].serial] else []) + Claims(Apply(s, evs[0]), evs[1..])
  }

  /** In every run, whatever the counter does, requests are claimed exactly once each and in the
      order they were queued: the k-th claim of the run is request claimed + k. */
  lemma {:induction false} ClaimsInOrder(s: Sched, evs: seq<Event>)
    requires Inv(s) && LegalRun(s, evs)
    ensures Inv(Run(s, evs)) && Run(s, evs).claimed == s.claimed + |Claims(s, evs)|
    ensures forall k :: 0 <= k < |Claims(s, evs)| ==> Claims(s, evs)[k] == s.claimed + k
    decreases |evs|
  {
    if evs != [] {
      StepKeeps(s, evs[0]);
      if evs[0].Claim? { OldestIsNext(s, evs[0].i); }
      ClaimsInOrder(Apply(s, evs[0]), evs[1..]);
    }
  }

  /** A slot keeps its request, through any run, as long as a user reference or the daemon's is
      outstanding at every step: if the slot holds another request at the end, there was a
      moment at which nobody held it. */
  lemma {:induction false} SlotKeptWhileHeld(s: Sched, evs: seq<Event>, i: nat)
    requires Inv(s) && LegalRun(s, evs) && i < NBRS && !Free(s.slots[i])
    ensures |Run(s, evs).slots| == NBRS
    ensures Run(s, evs).slots[i].serial == s.slots[i].serial ||
            exists k :: 0 <= k <= |evs| && LegalRun(s, evs[..k]) && |Run(s, evs[..k]).slots| == NBRS &&
                        Run(s, evs[..k]).slots[i].users == 0 && !Run(s, evs[..k]).slots[i].owed
    decreases |evs|
  {
    if evs != [] {
      var s1, rest := Apply(s, evs[0]), evs[1..];
      StepKeeps(s, evs[0]);
      ClaimsInOrder(s1, rest);
      if Free(s1.slots[i]) {
        BusySlotNotFree(s1, i);
        var first := evs[..1];
        assert first[0] == evs[0] && first[1..] == [] && LegalRun(s1, []) && Run(s1, []) == s1;
        assert LegalRun(s, first) && Run(s, first) == s1;
      } else {
        SlotKeptWhileHeld(s1, rest, i);
        if Run(s1, rest).slots[i].serial != s1.slots[i].serial {
          var k :| 0 <= k <= |rest| && LegalRun(s1, rest[..k]) && |Run(s1, rest[..k]).slots| == NBRS &&
                   Run(s1, rest[..k]).slots[i].users == 0 && !Run(s1, rest[..k]).slots[i].owed;
          assert evs[..k + 1][1..] == rest[..k];
          assert LegalRun(s, evs[..k + 1]) && Run(s, evs[..k + 1]) == Run(s1, rest[..k]);
        }
      }
    }
  }
}
