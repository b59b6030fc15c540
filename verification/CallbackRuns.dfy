/** Whole runs of the callback queue: grants, in-place extensions, stalings and flushes by any
    thread, interleaved with the periodic work of afs_Daemon.  The theorems say how long
    CStatd can outlive the promise it stands for. */
module CallbackRuns {
  import opened Basics
  import opened CallbackWheel

  /** The seconds CheckCallbacks looks ahead when afs_Daemon calls it. */
  const LOOKAHEAD: nat := 20

  /** How a grant names its expiry.  `Timed` is the common form: the server's relative time
      `dur`, stamped with a clock reading `start` taken before the call, hashed as CBHash(dur).
      `Created` is what afs_create does: the relative time has already been turned into an
      absolute one when it is hashed. */
  datatype Stamp = Timed(start: nat, dur: nat) | Created(expires: nat)

  function ExpiresOf(st: Stamp): nat
  {
    match st
    case Timed(start, dur) => start + dur
    case Created(e) => e
  }

  function ATimeOf(st: Stamp): nat
  {
    match st
    case Timed(_, dur) => CBHash(dur)
    case Created(e) => CBHash(e)
  }

  datatype Event =
    | Tick(now: nat)
    | Grant(now: nat, id: nat, stamp: Stamp, server: nat, avp: Option<nat>)
    | StaleOne(now: nat, id: nat, noCB: bool, clearCB: bool)
    | Flush(now: nat)
    | ServerState(now: nat, vol: nat, i: nat, isDown: bool)
    | DaemonCheck(now: nat)
    | DaemonBump(now: nat, mid: nat, now2: nat)

  /** The wheel and the clock readings that matter: when the base last moved, afs_Daemon's
      lastCBSlotBump, when afs_Daemon last reached its bump test, when it last ran
      CheckCallbacks, and when a server last came up. */
  datatype Sys = Sys(w: Wheel, clock: nat, bumpTime: nat, lastTry: nat, lastTest: nat, lastCheck: nat, upTime: nat)

  /** A server of a volume marked as down or up. */
  function SetDown(w: Wheel, vol: nat, i: nat, isDown: bool): (r: Wheel)
  {
    if vol in w.vols && i < |w.vols[vol].down|
    then w.(vols := w.vols[vol := w.vols[vol].(down := w.vols[vol].down[i := isDown])]) else w
  }

  ghost function Step(s: Sys, e: Event): (r: Sys)
    requires WellFormed(s.w)
  {
    match e
    case Tick(now) => s.(clock := now)
    case Grant(now, id, stamp, server, avp) =>
      if id < |s.w.vcs| then
        var v := s.w.vcs[id].(expires := ExpiresOf(stamp), statd := true, callback := Some(server));
        s.(clock := now, w := Queue(SetVcache(s.w, id, v), id, ATimeOf(stamp), avp))
      else s.(clock := now)
    case StaleOne(now, id, noCB, clearCB) =>
      s.(clock := now, w := if id < |s.w.vcs| then Stale(s.w, id, noCB, clearCB) else s.w)
    case Flush(now) => s.(clock := now, w := FlushCBs(s.w, now), bumpTime := now)
    case ServerState(now, vol, i, isDown) =>
      s.(clock := now, w := SetDown(s.w, vol, i, isDown), upTime := if isDown then s.upTime else now)
    case DaemonCheck(now) => s.(clock := now, w := CheckCallbacks(s.w, now, LOOKAHEAD), lastCheck := now)
    case DaemonBump(now, mid, now2) =>
      if s.lastTry + CBHTSLOTLEN < now then
        BumpBaseEffect(s.w, mid);
        var w1 := BumpBase(s.w, mid);
        if BumpDue(s.w, mid) then
          Sys(CheckCallbacks(w1, now2, LOOKAHEAD), now2, mid, now, now, now2, s.upTime)
        else
          s.(clock := now2, w := w1, lastTry := now, lastTest := now)
      else s.(clock := now2, lastTest := now)
  }

  /** A read-only vcache whose volume's servers are all down, or one of which has come up since the
      last check: it may be valid beyond its time. */
  ghost predicate Excused(s: Sys, id: nat)
    requires id < |s.w.vcs|
  {
    var v := s.w.vcs[id]; v.ro && v.vol in s.w.vols && (AnyUp(s.w.vols[v.vol]) ==> s.lastCheck <= s.upTime)
  }

  /** The time of a vcache: when its callback runs out and, for a read-only one, its volume's too. */
  ghost function Due(w: Wheel, id: nat): (due: nat)
    requires id < |w.vcs|
    ensures due >= w.vcs[id].expires
  {
    var v := w.vcs[id];
    if v.ro && v.vol in w.vols && w.vols[v.vol].expireTime > v.expires then w.vols[v.vol].expireTime else v.expires
  }

  /** Its volume's callback lasts as long as its own. */
  ghost predicate Covered(w: Wheel, id: nat)
    requires id < |w.vcs|
  {
    var v := w.vcs[id]; v.ro && v.vol in w.vols && w.vols[v.vol].expireTime >= v.expires
  }

  /** A grant that may be queued now: its slot starts no later than it expires,
      give or take the 19 seconds basetime may run ahead and the `lag` a grant may be stamped
      before the base moved; and it is good for at least a slot. */
  predicate Fits(w: Wheel, stamp: Stamp, lag: nat)
  {
    var d := ATimeOf(stamp) % CBHTSIZE;
    ExpiresOf(stamp) + 19 + lag >= w.basetime + CBHTSLOTLEN * (if d == 0 then 1 else d)
  }

  /** What the server and the callers promise of a grant to one of the vcaches in question: one
      already queued is never granted a shorter time (expiry times only decrease through a
      CallBack RPC, which dequeues), unless its volume's callback lasts that long; a relative
      time is at least one slot long and stamped no more than `lag` seconds before the base last
      moved; an absolute one fits its slot. */
  ghost predicate LegalGrant(s: Sys, id: nat, stamp: Stamp, lag: nat, who: set<nat>)
  {
    id in who && id < |s.w.vcs| ==>
      if Queued(s.w, id) then ExpiresOf(stamp) >= s.w.vcs[id].expires || Covered(s.w, id)
      else match stamp
        case Timed(start, dur) => dur >= CBHTSLOTLEN && start + lag >= s.bumpTime
        case Created(_) => Fits(s.w, stamp, lag)
  }

  /** afs_Daemon passes both its CheckCallbacks call and its bump test at least every
      `period` seconds. */
  predicate Timely(s: Sys, now: nat, period: nat)
  {
    s.clock <= now <= s.lastCheck + period && now <= s.lastTest + period
  }

  ghost predicate Legal(s: Sys, e: Event, period: nat, lag: nat, who: set<nat>)
  {
    && Timely(s, e.now, period)
    && (e.DaemonBump? ==> e.now <= e.mid <= e.now2 && Timely(s, e.now2, period))
    && (e.Grant? ==> LegalGrant(s, e.id, e.stamp, lag, who))
  }

  ghost predicate LegalRun(s: Sys, evs: seq<Event>, period: nat, lag: nat, who: set<nat>)
    decreases |evs|
  {
    WellFormed(s.w) &&
    (evs == [] || (Legal(s, evs[0], period, lag, who) && LegalRun(Step(s, evs[0]), evs[1..], period, lag, who)))
  }

  ghost function Run(s: Sys, evs: seq<Event>, period: nat, lag: nat, who: set<nat>): (r: Sys)
    requires LegalRun(s, evs, period, lag, who)
    decreases |evs|
  {
    if evs == [] then s else Run(Step(s, evs[0]), evs[1..], period, lag, who)
  }

  // ---------------------------------------------------------------- the invariant

  /** The slot bound, for every vcache on the wheel, live or not: d >= 1 slots
      ahead of the base it expires no sooner than its slot, up to the slack; in the base
      bucket it has either survived the last check or still meets the bound of slot 1. */
  ghost predicate SlotBound(s: Sys, lag: nat, who: set<nat>)
    requires WellFormed(s.w)
  {
    forall b, id :: In(s.w, b, id) && id in who ==> SlotBoundFor(s, lag, b, id)
  }

  ghost predicate SlotBoundFor(s: Sys, lag: nat, b: nat, id: nat)
    requires WellFormed(s.w) && id < |s.w.vcs| && b < CBHTSIZE
  {
    || EntryBound(Due(s.w, id), s.w.basetime, Ahead(s.w.base, b), s.lastCheck, lag)
    || (b == s.w.base && Excused(s, id))
  }

  predicate EntryBound(expires: nat, basetime: nat, d: nat, lastCheck: nat, lag: nat)
  {
    if d >= 1 then expires + 19 + lag >= basetime + CBHTSLOTLEN * d
    else expires >= lastCheck + LOOKAHEAD || expires + 19 + lag >= basetime + CBHTSLOTLEN
  }

  ghost predicate Inv(s: Sys, lag: nat, who: set<nat>)
  {
    && WellFormed(s.w)
    && (forall id :: 0 <= id < |s.w.vcs| && s.w.vcs[id].statd ==> Queued(s.w, id))
    && SlotBound(s, lag, who)
    && s.w.basetime <= s.bumpTime + 19
    && s.lastTry <= s.w.basetime + 107
    && s.lastTest <= s.lastTry + CBHTSLOTLEN
    && s.lastTry <= s.clock && s.lastTest <= s.clock && s.lastCheck <= s.clock && s.upTime <= s.clock
  }

  /** A grant stated as a relative time always fits its slot, whatever its length, even when
      the slot number wraps. */
  lemma TimedFits(s: Sys, start: nat, dur: nat, lag: nat)
    requires s.w.basetime <= s.bumpTime + 19 && dur >= CBHTSLOTLEN && start + lag >= s.bumpTime
    ensures Fits(s.w, Timed(start, dur), lag)
  {
  }

  /** Volumes' callbacks only get longer, and servers stay up. */
  ghost predicate Longer(w: Wheel, r: Wheel)
  {
    && |r.vcs| == |w.vcs| && r.vols.Keys == w.vols.Keys
    && forall k :: k in w.vols ==> r.vols[k].down == w.vols[k].down && r.vols[k].expireTime >= w.vols[k].expireTime
  }

  /** With a volume's callback the time of its vcaches only moves away. */
  lemma DueGrows(w: Wheel, r: Wheel, id: nat)
    requires Longer(w, r) && id < |w.vcs| && SameFile(w.vcs[id], r.vcs[id])
    requires r.vcs[id].expires >= w.vcs[id].expires || Covered(w, id)
    ensures Due(r, id) >= Due(w, id)
  {
  }

  /** The wheel after a grant. */
  lemma GrantEffect(s: Sys, e: Event)
    requires WellFormed(s.w) && e.Grant? && e.id < |s.w.vcs|
    ensures var r, id := Step(s, e), e.id;
            && WellFormed(r.w) && Longer(s.w, r.w) && r.w.base == s.w.base && r.w.basetime == s.w.basetime
            && r.w.vcs == s.w.vcs[id := s.w.vcs[id].(expires := ExpiresOf(e.stamp), statd := true, callback := Some(e.server))]
            && (forall b, x :: In(r.w, b, x) <==>
                  In(s.w, b, x) || (x == id && !Queued(s.w, id) && b == (s.w.base + ATimeOf(e.stamp)) % 128))
            && (e.avp.Some? && e.avp.value in r.w.vols ==> r.w.vols[e.avp.value].expireTime >= ExpiresOf(e.stamp))
  {
    var id := e.id;
    var v := s.w.vcs[id].(expires := ExpiresOf(e.stamp), statd := true, callback := Some(e.server));
    var w1 := SetVcache(s.w, id, v);
    assert forall b, x :: In(w1, b, x) <==> In(s.w, b, x);
    QueueEffect(w1, id, ATimeOf(e.stamp), e.avp);
  }

  lemma GrantKeeps(s: Sys, e: Event, period: nat, lag: nat, who: set<nat>)
    requires Inv(s, lag, who) && Legal(s, e, period, lag, who) && e.Grant?
    ensures Inv(Step(s, e), lag, who)
  {
    var r, id := Step(s, e), e.id;
    if id < |s.w.vcs| {
      GrantEffect(s, e);
      forall b, x | In(r.w, b, x) && x in who ensures SlotBoundFor(r, lag, b, x) {
        if In(s.w, b, x) {
          assert SlotBoundFor(s, lag, b, x);
          DueGrows(s.w, r.w, x);
        } else {
          ReslotAhead(s.w.base, ATimeOf(e.stamp));
          if e.stamp.Timed? { TimedFits(s, e.stamp.start, e.stamp.dur, lag); }
        }
      }
      forall x | 0 <= x < |r.w.vcs| && r.w.vcs[x].statd ensures Queued(r.w, x) {
        StillQueued(s.w, r.w, x);
        if x == id && !Queued(s.w, id) { assert In(r.w, (s.w.base + ATimeOf(e.stamp)) % 128, id); }
      }
    }
  }

  lemma StillQueued(w: Wheel, r: Wheel, x: nat)
    requires |r.slots| == |w.slots| && forall b :: In(w, b, x) ==> In(r, b, x)
    ensures Queued(w, x) ==> Queued(r, x)
  {
    if Queued(w, x) {
      var b :| 0 <= b < |w.slots| && In(w, b, x);
      assert In(r, b, x);
    }
  }

  lemma StaleKeeps(s: Sys, e: Event, period: nat, lag: nat, who: set<nat>)
    requires Inv(s, lag, who) && Legal(s, e, period, lag, who) && e.StaleOne?
    ensures Inv(Step(s, e), lag, who)
  {
    var r, id := Step(s, e), e.id;
    if id < |s.w.vcs| {
      StaleEffect(s.w, id, e.noCB, e.clearCB);
      forall x | 0 <= x < |r.w.vcs| && r.w.vcs[x].statd ensures Queued(r.w, x) {
        var b :| 0 <= b < |s.w.slots| && In(s.w, b, x);
        assert In(r.w, b, x);
      }
    }
  }

  /** A server that goes down, or comes up, moves nothing. */
  lemma ServerKeeps(s: Sys, e: Event, period: nat, lag: nat, who: set<nat>)
    requires Inv(s, lag, who) && Legal(s, e, period, lag, who) && e.ServerState?
    ensures Inv(Step(s, e), lag, who)
  {
    var r := Step(s, e);
    assert forall b, x :: In(r.w, b, x) <==> In(s.w, b, x);
    forall b, x | In(r.w, b, x) && x in who ensures SlotBoundFor(r, lag, b, x) {
      assert SlotBoundFor(s, lag, b, x);
      assert Due(r.w, x) == Due(s.w, x);
    }
    forall x | 0 <= x < |r.w.vcs| && r.w.vcs[x].statd ensures Queued(r.w, x) {
      StillQueued(s.w, r.w, x);
    }
  }

  /** An entry of the base slot that a check has left on the wheel. */
  lemma CheckedBound(w: Wheel, r: Wheel, b: nat, id: nat, now: nat, lag: nat)
    requires WellFormed(w) && WellFormed(r) && r.base == w.base && r.basetime == w.basetime && r.vols == w.vols
    requires id < |w.vcs| == |r.vcs| && CheckedAs(w, r, id, now, LOOKAHEAD) && In(r, b, id)
    ensures EntryBound(Due(r, id), r.basetime, Ahead(r.base, b), now, lag) || (b == r.base && Cut(r, r.vcs[id]))
    ensures b == r.base ==> r.vcs[id].expires >= now + LOOKAHEAD || Cut(r, r.vcs[id])
  {
    var e := r.vcs[id].expires;
    if e > w.basetime {
      ReslotAhead(w.base, (e - w.basetime) / 128);
    }
  }

  /** CheckCallbacks(20) at time now keeps the slot bound, and everything it leaves in the base
      bucket is good for 20 more seconds, unless there is no server to ask. */
  lemma CheckKeeps(w: Wheel, now: nat, lag: nat, who: set<nat>)
    requires WellFormed(w)
    requires forall b, id :: In(w, b, id) && id in who && b != w.base ==>
               Due(w, id) + 19 + lag >= w.basetime + CBHTSLOTLEN * Ahead(w.base, b)
    requires forall id :: 0 <= id < |w.vcs| && w.vcs[id].statd ==> Queued(w, id)
    ensures var r := CheckCallbacks(w, now, LOOKAHEAD);
            && WellFormed(r) && r.base == w.base && r.basetime == w.basetime
            && (forall b, id :: In(r, b, id) && id in who ==>
                  EntryBound(Due(r, id), r.basetime, Ahead(r.base, b), now, lag) || (b == r.base && Cut(r, r.vcs[id])))
            && (forall id :: In(r, r.base, id) ==> r.vcs[id].expires >= now + LOOKAHEAD || Cut(r, r.vcs[id]))
            && (forall id :: 0 <= id < |r.vcs| && r.vcs[id].statd ==> Queued(r, id))
  {
    var ids := w.slots[w.base];
    assert forall x :: x in ids <==> In(w, w.base, x);
    CheckAllEffect(w, ids, now, LOOKAHEAD);
    BaseChecked(w, now, LOOKAHEAD);
    var r := CheckCallbacks(w, now, LOOKAHEAD);
    forall b, id | In(r, b, id) && (id in who || b == r.base)
      ensures id in who ==>
                EntryBound(Due(r, id), r.basetime, Ahead(r.base, b), now, lag) || (b == r.base && Cut(r, r.vcs[id]))
      ensures b == r.base ==> r.vcs[id].expires >= now + LOOKAHEAD || Cut(r, r.vcs[id])
    {
      if id in ids {
        CheckedBound(w, r, b, id, now, lag);
      } else {
        assert In(w, b, id) && !In(w, w.base, id);
      }
    }
    forall x | 0 <= x < |r.vcs| && r.vcs[x].statd ensures Queued(r, x) {
      if x !in ids {
        StillQueued(w, r, x);
      }
    }
  }

  /** A check is a step that keeps the invariant. */
  lemma CheckedSlots(s: Sys, lag: nat, who: set<nat>)
    requires WellFormed(s.w)
    requires forall b, id :: In(s.w, b, id) && id in who ==>
               EntryBound(Due(s.w, id), s.w.basetime, Ahead(s.w.base, b), s.lastCheck, lag) || (b == s.w.base && Cut(s.w, s.w.vcs[id]))
    ensures SlotBound(s, lag, who)
  {
    forall b, id | In(s.w, b, id) && id in who ensures SlotBoundFor(s, lag, b, id) {
      if Cut(s.w, s.w.vcs[id]) {
        assert !AnyUp(s.w.vols[s.w.vcs[id].vol]);
      }
    }
  }

  /** Off the base slot nothing is excused. */
  lemma OffBase(s: Sys, lag: nat, who: set<nat>)
    requires WellFormed(s.w) && SlotBound(s, lag, who)
    ensures forall b, id :: In(s.w, b, id) && id in who && b != s.w.base ==>
              Due(s.w, id) + 19 + lag >= s.w.basetime + CBHTSLOTLEN * Ahead(s.w.base, b)
  {
    forall b, id | In(s.w, b, id) && id in who && b != s.w.base
      ensures Due(s.w, id) + 19 + lag >= s.w.basetime + CBHTSLOTLEN * Ahead(s.w.base, b)
    {
      assert SlotBoundFor(s, lag, b, id);
    }
  }

  lemma BumpKeeps(s: Sys, e: Event, period: nat, lag: nat, who: set<nat>)
    requires Inv(s, lag, who) && Legal(s, e, period, lag, who) && e.DaemonBump?
    ensures Inv(Step(s, e), lag, who)
    ensures s.lastTry + CBHTSLOTLEN < e.now ==> e.mid <= Step(s, e).w.basetime + 107
  {
    if s.lastTry + CBHTSLOTLEN < e.now {
      BumpBaseEffect(s.w, e.mid);
      var w1 := BumpBase(s.w, e.mid);
      if BumpDue(s.w, e.mid) {
        OffBase(s, lag, who);
        forall b, id | In(w1, b, id) && id in who && b != w1.base
          ensures Due(w1, id) + 19 + lag >= w1.basetime + CBHTSLOTLEN * Ahead(w1.base, b)
        {
          assert In(s.w, b, id) && Due(w1, id) == Due(s.w, id);
        }
        CheckKeeps(w1, e.now2, lag, who);
        CheckedSlots(Step(s, e), lag, who);
      }
    }
  }

  lemma StepKeeps(s: Sys, e: Event, period: nat, lag: nat, who: set<nat>)
    requires Inv(s, lag, who) && Legal(s, e, period, lag, who)
    ensures Inv(Step(s, e), lag, who)
  {
    match e {
      case Tick(now) =>
      case Grant(_, _, _, _, _) => GrantKeeps(s, e, period, lag, who);
      case StaleOne(_, _, _, _) => StaleKeeps(s, e, period, lag, who);
      case Flush(now) => assert forall b, x :: !In(Step(s, e).w, b, x);
      case ServerState(_, _, _, _) => ServerKeeps(s, e, period, lag, who);
      case DaemonCheck(now) =>
        OffBase(s, lag, who);
        CheckKeeps(s.w, now, lag, who);
        CheckedSlots(Step(s, e), lag, who);
      case DaemonBump(_, _, _) => BumpKeeps(s, e, period, lag, who);
    }
  }

  /** The base moves just if more than a slot has passed since the last try, and basetime is 108 seconds
      behind. */
  lemma BumpsExactly(s: Sys, e: Event)
    requires WellFormed(s.w) && e.DaemonBump?
    ensures Step(s, e).w.basetime != s.w.basetime <==> s.lastTry + 128 < e.now && s.w.basetime + 108 <= e.mid
    ensures !(s.lastTry + 128 < e.now && s.w.basetime + 108 <= e.mid) ==> Step(s, e).w == s.w
    ensures Step(s, e).lastTry == if s.lastTry + 128 < e.now then e.now else s.lastTry
  {
    BumpBaseEffect(s.w, e.mid);
    var w1 := BumpBase(s.w, e.mid);
    assert forall x :: x in w1.slots[w1.base] ==> In(w1, w1.base, x);
    CheckAllEffect(w1, w1.slots[w1.base], e.now2, LOOKAHEAD);
  }

  // ---------------------------------------------------------------- theorems

  /** The daemon is keeping up. */
  predicate OnTime(s: Sys, period: nat)
  {
    s.clock <= s.lastCheck + period && s.clock <= s.lastTest + period
  }

  lemma {:induction false} RunKeeps(s: Sys, evs: seq<Event>, period: nat, lag: nat, who: set<nat>)
    requires Inv(s, lag, who) && OnTime(s, period) && LegalRun(s, evs, period, lag, who)
    ensures Inv(Run(s, evs, period, lag, who), lag, who) && OnTime(Run(s, evs, period, lag, who), period)
    decreases |evs|
  {
    if evs != [] {
      StepKeeps(s, evs[0], period, lag, who);
      RunKeeps(Step(s, evs[0]), evs[1..], period, lag, who);
    }
  }

  /** A freshly initialised queue, with afs_Daemon starting less than 108 seconds after
      afs_InitCBQueue and nothing statted yet. */
  lemma StartInv(s: Sys, now: nat, lag: nat, who: set<nat>)
    requires s.w == InitQueue(s.w, now) && forall id :: 0 <= id < |s.w.vcs| ==> !s.w.vcs[id].statd
    requires now == s.bumpTime <= s.lastTry == s.lastTest == s.lastCheck == s.clock <= now + 107 && s.upTime <= s.clock
    ensures Inv(s, lag, who) && OnTime(s, 0)
  {
  }

  /** In every run in which afs_Daemon comes round at least every `period` seconds and no
      grant is stamped more than `lag` seconds before the base last moved, no vcache keeps
      CStatd more than 126 + period + lag seconds past its callback's expiry or, if it is
      read-only, past its volume's, unless all servers of its volume are down or a server has
      come up in the last `period` seconds. */
  lemma DueBound(s: Sys, evs: seq<Event>, period: nat, lag: nat, who: set<nat>, id: nat)
    requires Inv(s, lag, who) && OnTime(s, period) && LegalRun(s, evs, period, lag, who)
    requires var r := Run(s, evs, period, lag, who);
             id in who && id < |r.w.vcs| && r.w.vcs[id].statd
    ensures var r := Run(s, evs, period, lag, who); var v := r.w.vcs[id];
            || r.clock <= Due(r.w, id) + 126 + period + lag
            || (v.ro && v.vol in r.w.vols && (AnyUp(r.w.vols[v.vol]) ==> r.clock <= r.upTime + period))
  {
    RunKeeps(s, evs, period, lag, who);
    var r := Run(s, evs, period, lag, who);
    var b :| 0 <= b < |r.w.slots| && In(r.w, b, id);
    var d := Ahead(r.w.base, b);
    assert SlotBoundFor(r, lag, b, id);
  }

  /** Read-write vcaches have their own callback only. */
  lemma ExpiryBound(s: Sys, evs: seq<Event>, period: nat, lag: nat, who: set<nat>, id: nat)
    requires Inv(s, lag, who) && OnTime(s, period) && LegalRun(s, evs, period, lag, who)
    requires var r := Run(s, evs, period, lag, who);
             id in who && id < |r.w.vcs| && r.w.vcs[id].statd && !r.w.vcs[id].ro
    ensures var r := Run(s, evs, period, lag, who); r.clock <= r.w.vcs[id].expires + 126 + period + lag
  {
    DueBound(s, evs, period, lag, who, id);
  }

  /** A read-only vcache that is still valid, of a volume with a server that is up, with no server
      having come up lately: its volume's callback, or its own, ran out no longer ago than that. */
  lemma ReadOnlyBound(s: Sys, evs: seq<Event>, period: nat, lag: nat, who: set<nat>, id: nat, i: nat)
    requires Inv(s, lag, who) && OnTime(s, period) && LegalRun(s, evs, period, lag, who)
    requires var r := Run(s, evs, period, lag, who);
             && id in who && id < |r.w.vcs| && r.w.vcs[id].statd && r.w.vcs[id].ro && r.w.vcs[id].vol in r.w.vols
             && i < |r.w.vols[r.w.vcs[id].vol].down| && !r.w.vols[r.w.vcs[id].vol].down[i]
             && r.clock > r.upTime + period
    ensures var r := Run(s, evs, period, lag, who);
            || r.clock <= r.w.vcs[id].expires + 126 + period + lag
            || r.clock <= r.w.vols[r.w.vcs[id].vol].expireTime + 126 + period + lag
  {
    DueBound(s, evs, period, lag, who, id);
  }

  /** The file server keeps a callback three minutes longer than it promised.  A daemon and
      grants that together waste at most 54 seconds stay inside that grace. */
  lemma WithinServerGrace(s: Sys, evs: seq<Event>, period: nat, lag: nat, who: set<nat>, id: nat)
    requires Inv(s, lag, who) && OnTime(s, period) && LegalRun(s, evs, period, lag, who) && period + lag <= 54
    requires var r := Run(s, evs, period, lag, who);
             id in who && id < |r.w.vcs| && r.w.vcs[id].statd && !r.w.vcs[id].ro
    ensures var r := Run(s, evs, period, lag, who); r.clock <= r.w.vcs[id].expires + 180
  {
    ExpiryBound(s, evs, period, lag, who, id);
  }

  /** Right after the base has moved and been checked, nothing read-write on the wheel had
      expired at the time of the bump. */
  lemma FreshAfterBump(s: Sys, evs: seq<Event>, e: Event, period: nat, lag: nat, who: set<nat>, b: nat, id: nat)
    requires Inv(s, lag, who) && OnTime(s, period) && LegalRun(s, evs, period, lag, who)
    requires var r := Run(s, evs, period, lag, who);
             WellFormed(r.w) && Legal(r, e, period, lag, who) && e.DaemonBump? && Step(r, e).bumpTime == e.mid &&
             r.lastTry + CBHTSLOTLEN < e.now && BumpDue(r.w, e.mid)
    requires var t := Step(Run(s, evs, period, lag, who), e).w; In(t, b, id) && id in who && id < |t.vcs| && !t.vcs[id].ro
    ensures Step(Run(s, evs, period, lag, who), e).w.vcs[id].expires + lag >= e.mid + 2
  {
    RunKeeps(s, evs, period, lag, who);
    var r := Run(s, evs, period, lag, who);
    StepKeeps(r, e, period, lag, who);
    BumpKeeps(r, e, period, lag, who);
    var t := Step(r, e);
    assert SlotBoundFor(t, lag, b, id);
  }

  // ---------------------------------------------------------------- grants that do not fit

  /** When a grant hashed by its absolute expiry keeps the slot bound: exactly when the slot
      its clock time happens to select does not start too late. */
  lemma CreatedKeepsExactly(s: Sys, now: nat, id: nat, expires: nat, server: nat, avp: Option<nat>, lag: nat, who: set<nat>)
    requires Inv(s, lag, who) && id in who && id < |s.w.vcs| && !s.w.vcs[id].ro && !Queued(s.w, id)
    ensures var r := Step(s, Grant(now, id, Created(expires), server, avp));
            WellFormed(r.w) &&
            var d := (expires / 128) % 128;
            (SlotBound(r, lag, who) <==>
              if d != 0 then expires + 19 + lag >= s.w.basetime + 128 * d
              else expires >= s.lastCheck + 20 || expires + 19 + lag >= s.w.basetime + 128)
  {
    var e := Grant(now, id, Created(expires), server, avp);
    var r := Step(s, e);
    GrantEffect(s, e);
    var slot := (s.w.base + CBHash(expires)) % CBHTSIZE;
    assert In(r.w, slot, id);
    ReslotAhead(s.w.base, CBHash(expires));
    assert SlotBoundFor(r, lag, slot, id) <==> EntryBound(expires, s.w.basetime, Ahead(s.w.base, slot), s.lastCheck, lag);
    if EntryBound(expires, s.w.basetime, Ahead(s.w.base, slot), s.lastCheck, lag) {
      forall b, x | In(r.w, b, x) && x in who ensures SlotBoundFor(r, lag, b, x) {
        if x != id {
          assert SlotBoundFor(s, lag, b, x);
          DueGrows(s.w, r.w, x);
        }
      }
    }
  }

  /** n punctual rounds of afs_Daemon, `gap` seconds apart. */
  function Rounds(start: nat, gap: nat, n: nat): (evs: seq<Event>)
    decreases n
  {
    if n == 0 then []
    else [DaemonCheck(start + gap), DaemonBump(start + gap, start + gap, start + gap)] + Rounds(start + gap, gap, n - 1)
  }

  /** The daemon has just completed a round. */
  predicate RoundDone(s: Sys)
  {
    s.clock == s.lastCheck == s.lastTest
  }

  /** CheckCallbacks does not touch an entry outside the base bucket. */
  lemma CheckLeavesAlone(w: Wheel, now: nat, b: nat, id: nat)
    requires WellFormed(w) && In(w, b, id) && b != w.base
    ensures var r := CheckCallbacks(w, now, LOOKAHEAD);
            WellFormed(r) && In(r, b, id) && |r.vcs| == |w.vcs| && id < |r.vcs| && r.vcs[id] == w.vcs[id] &&
            r.base == w.base && r.basetime == w.basetime
  {
    var ids := w.slots[w.base];
    assert forall x :: x in ids <==> In(w, w.base, x);
    assert !In(w, w.base, id);
    CheckAllEffect(w, ids, now, LOOKAHEAD);
  }

  /** The time, counted in 127 second bumps, at which slot b becomes the base. */
  function Reached(w: Wheel, b: nat): nat
    requires WellFormed(w) && b < CBHTSIZE
  {
    w.basetime + 127 * Ahead(w.base, b)
  }

  /** Bumping leaves an entry in its bucket as long as the clock is short of the slot. */
  lemma {:induction false} BumpKeepsLate(w: Wheel, now: nat, b: nat, id: nat)
    requires WellFormed(w) && In(w, b, id) && b != w.base && now + 19 < Reached(w, b)
    ensures var r := BumpBase(w, now); WellFormed(r) && In(r, b, id) && b != r.base && Reached(r, b) == Reached(w, b)
    decreases now - w.basetime
  {
    if BumpDue(w, now) {
      BumpOnceEffect(w);
      BumpKeepsLate(BumpOnce(w), now, b, id);
    }
  }

  /** Entry id sits unchanged in slot b, which is not the base. */
  ghost predicate Waiting(s: Sys, b: nat, id: nat, v: Vcache, reached: nat)
  {
    WellFormed(s.w) && In(s.w, b, id) && b != s.w.base && s.w.vcs[id] == v && Reached(s.w, b) == reached
  }

  lemma LateSlotRound(s: Sys, gap: nat, b: nat, id: nat, v: Vcache, reached: nat, who: set<nat>)
    requires Waiting(s, b, id, v, reached) && RoundDone(s) && s.clock + gap + 19 < reached
    ensures var t := s.clock + gap;
            && Legal(s, DaemonCheck(t), gap, 0, who)
            && var s1 := Step(s, DaemonCheck(t));
               && WellFormed(s1.w) && Legal(s1, DaemonBump(t, t, t), gap, 0, who)
               && var s2 := Step(s1, DaemonBump(t, t, t));
                  Waiting(s2, b, id, v, reached) && RoundDone(s2) && s2.clock == t
  {
    var t := s.clock + gap;
    CheckLeavesAlone(s.w, t, b, id);
    var s1 := Step(s, DaemonCheck(t));
    if s1.lastTry + CBHTSLOTLEN < t {
      BumpBaseEffect(s1.w, t);
      BumpKeepsLate(s1.w, t, b, id);
      CheckLeavesAlone(BumpBase(s1.w, t), t, b, id);
    }
  }

  /** What follows a round follows from the state it leads to. */
  lemma RoundThen(s: Sys, gap: nat, rest: seq<Event>, b: nat, id: nat, v: Vcache, reached: nat, who: set<nat>) returns (r: Sys)
    requires Waiting(s, b, id, v, reached) && RoundDone(s) && s.clock + gap + 19 < reached
    ensures Waiting(r, b, id, v, reached) && RoundDone(r) && r.clock == s.clock + gap
    ensures var t := s.clock + gap; var evs := [DaemonCheck(t), DaemonBump(t, t, t)] + rest;
            LegalRun(r, rest, gap, 0, who) ==> LegalRun(s, evs, gap, 0, who) && Run(s, evs, gap, 0, who) == Run(r, rest, gap, 0, who)
  {
    var t := s.clock + gap;
    LateSlotRound(s, gap, b, id, v, reached, who);
    r := Step(Step(s, DaemonCheck(t)), DaemonBump(t, t, t));
    if LegalRun(r, rest, gap, 0, who) {
      TwoSteps(s, DaemonCheck(t), DaemonBump(t, t, t), rest, gap, 0, who);
    }
  }

  /** The daemon cannot reach an entry in a slot that starts late: as long as the clock has
      not caught up with the slot, any number of punctual rounds leaves the entry as it is. */
  lemma {:induction false} LateSlotUntouched(s: Sys, gap: nat, n: nat, b: nat, id: nat, v: Vcache, reached: nat, who: set<nat>)
    requires Waiting(s, b, id, v, reached) && RoundDone(s) && s.clock + gap * n + 19 < reached
    ensures LegalRun(s, Rounds(s.clock, gap, n), gap, 0, who)
    ensures var r := Run(s, Rounds(s.clock, gap, n), gap, 0, who);
            Waiting(r, b, id, v, reached) && r.clock == s.clock + gap * n
    decreases n
  {
    if n > 0 {
      LastRound(gap, n);
      var r := RoundThen(s, gap, Rounds(s.clock + gap, gap, n - 1), b, id, v, reached, who);
      LateSlotUntouched(r, gap, n - 1, b, id, v, reached, who);
    }
  }

  lemma LastRound(gap: nat, n: nat)
    requires n > 0
    ensures gap * n == gap + gap * (n - 1) && gap * (n - 1) >= 0
  {
  }

  lemma TwoSteps(s: Sys, e1: Event, e2: Event, rest: seq<Event>, period: nat, lag: nat, who: set<nat>)
    requires WellFormed(s.w) && Legal(s, e1, period, lag, who)
    requires WellFormed(Step(s, e1).w) && Legal(Step(s, e1), e2, period, lag, who)
    requires LegalRun(Step(Step(s, e1), e2), rest, period, lag, who)
    ensures LegalRun(s, [e1, e2] + rest, period, lag, who)
    ensures Run(s, [e1, e2] + rest, period, lag, who) == Run(Step(Step(s, e1), e2), rest, period, lag, who)
  {
  }

  /** What goes wrong when a create does not fit: the file keeps CStatd, however punctual the
      daemon, at every later time short of the slot its absolute expiry happens to select. */
  lemma CreatedStaysLive(s: Sys, id: nat, expires: nat, server: nat, avp: Option<nat>, gap: nat, n: nat, who: set<nat>)
    requires WellFormed(s.w) && RoundDone(s) && id < |s.w.vcs| && !s.w.vcs[id].ro && !Queued(s.w, id)
    requires (expires / 128) % 128 != 0
    requires s.clock + gap * n + 19 < s.w.basetime + 127 * ((expires / 128) % 128)
    ensures var g := Step(s, Grant(s.clock, id, Created(expires), server, avp));
            && LegalRun(g, Rounds(s.clock, gap, n), gap, 0, who)
            && var r := Run(g, Rounds(s.clock, gap, n), gap, 0, who);
               && r.clock == s.clock + gap * n
               && id < |r.w.vcs| && r.w.vcs[id].statd && !r.w.vcs[id].ro && r.w.vcs[id].expires == expires
  {
    var g := Step(s, Grant(s.clock, id, Created(expires), server, avp));
    var v := s.w.vcs[id].(expires := expires, statd := true, callback := Some(server));
    var w1 := SetVcache(s.w, id, v);
    assert forall b, x :: In(w1, b, x) <==> In(s.w, b, x);
    var slot := (CBHash(expires) + s.w.base) % CBHTSIZE;
    EnqueueIn(w1, id, slot);
    var w2 := Enqueue(w1, id, slot);
    assert !Queued(w1, id) && g.w.slots == w2.slots;
    assert forall c, x :: In(g.w, c, x) <==> In(w2, c, x);
    ReslotAhead(s.w.base, CBHash(expires));
    LateSlotUntouched(g, gap, n, slot, id, v, Reached(g.w, slot), who);
  }

  /** One such file: created with a good seven minute callback in January 2025 (at the time
      1736719936, which is 15936 past a full turn of the wheel), checked every 18 seconds, and
      still marked CStatd more than three minutes after the callback expired, so past the
      server's grace. */
  lemma CreatedOutlivesGrace()
    ensures exists s: Sys, e: Event, evs: seq<Event> ::
              && e.Grant? && Inv(s, 0, {e.id}) && OnTime(s, 18) && e.stamp == Created(s.clock + 420)
              && LegalRun(Step(s, e), evs, 18, 0, {e.id})
              && var r := Run(Step(s, e), evs, 18, 0, {e.id});
                 && e.id < |r.w.vcs| && r.w.vcs[e.id].statd && !r.w.vcs[e.id].ro
                 && r.clock > r.w.vcs[e.id].expires + 180
  {
    var t := 16384 * 106000 + 15936;
    var w := InitQueue(Wheel(0, t, [], [Vcache(0, false, false, 0, None)], map[]), t);
    var s := Sys(w, t, t, t, t, t, t);
    StartInv(s, t, 0, {0});
    assert forall b, x :: !In(s.w, b, x);
    var e := Grant(t, 0, Created(t + 420), 1, None);
    CreatedStaysLive(s, 0, t + 420, 1, None, 18, 34, {0});
    assert LegalRun(Step(s, e), Rounds(t, 18, 34), 18, 0, {e.id});
  }
}
