/** The callback expiry queue (afs_cbqueue.c) as a value: a timing wheel of 128 slots of
    128 seconds.  Slots hold vcache numbers in `next` order of the bucket's ring; the
    functions below are the specification the heap implementation in CallbackQueue is
    proved against, and the subject of the run theorems in CallbackRuns. */
module CallbackWheel {
  import opened Basics
  import opened Seqs

  const CBHTSIZE: nat := 128
  const CBHTSLOTLEN: nat := 128

  /** The part of a vcache the queue uses: cbExpires, the CStatd and CRO bits, the volume
      its fid names and the server that promised the callback. */
  datatype Vcache = Vcache(expires: nat, statd: bool, ro: bool, vol: nat, callback: Option<nat>)

  /** A cached volume: its callback expiry and, per server, whether SRVR_ISDOWN is set. */
  datatype Volume = Volume(expireTime: nat, down: seq<bool>)

  datatype Wheel = Wheel(base: nat, basetime: nat, slots: seq<seq<nat>>, vcs: seq<Vcache>, vols: map<nat, Volume>)

  function CBHash(t: nat): nat
  {
    t / CBHTSLOTLEN
  }

  predicate In(w: Wheel, b: int, id: int)
  {
    0 <= b < |w.slots| && id in w.slots[b]
  }

  predicate Queued(w: Wheel, id: int)
  {
    exists b :: 0 <= b < |w.slots| && In(w, b, id)
  }

  /** How many slots ahead of the base slot b is. */
  function Ahead(base: nat, b: nat): (d: nat)
    requires base < CBHTSIZE && b < CBHTSIZE
  {
    if b >= base then b - base else b + CBHTSIZE - base
  }

  /** Every slot number is in range and every vcache is on at most one slot, once. */
  ghost predicate WellFormed(w: Wheel)
  {
    && |w.slots| == CBHTSIZE
    && w.base < CBHTSIZE
    && (forall b :: 0 <= b < CBHTSIZE ==> Distinct(w.slots[b]))
    && (forall b, id :: In(w, b, id) ==> id < |w.vcs|)
    && (forall b, c, id :: In(w, b, id) && In(w, c, id) ==> b == c)
  }

  // ---------------------------------------------------------------- operations

  /** afs_DequeueCallback. */
  function Dequeue(w: Wheel, id: nat): (r: Wheel)
  {
    w.(slots := seq(|w.slots|, b requires 0 <= b < |w.slots| => Without(w.slots[b], id)))
  }

  /** QAdd into bucket b. */
  function Enqueue(w: Wheel, id: nat, b: nat): (r: Wheel)
    requires b < |w.slots|
  {
    w.(slots := w.slots[b := [id] + w.slots[b]])
  }

  function SetVcache(w: Wheel, id: nat, v: Vcache): (r: Wheel)
    requires id < |w.vcs|
  {
    w.(vcs := w.vcs[id := v])
  }

  /** afs_StaleVCacheFlags: clears CStatd; dequeues unless AFS_STALEVC_NOCB; nulls the
      callback on AFS_STALEVC_CLEARCB. */
  function Stale(w: Wheel, id: nat, noCB: bool, clearCB: bool): (r: Wheel)
    requires id < |w.vcs|
  {
    var v := w.vcs[id];
    var v' := v.(statd := false, callback := if clearCB then None else v.callback);
    SetVcache(if noCB then w else Dequeue(w, id), id, v')
  }

  /** afs_QueueCallback. */
  function Queue(w: Wheel, id: nat, atime: nat, avp: Option<nat>): (r: Wheel)
    requires id < |w.vcs| && |w.slots| == CBHTSIZE
  {
    var e := w.vcs[id].expires;
    var vols := if avp.Some? && avp.value in w.vols && w.vols[avp.value].expireTime < e
                then w.vols[avp.value := w.vols[avp.value].(expireTime := e)] else w.vols;
    var w1 := w.(vols := vols);
    if Queued(w, id) then w1 else Enqueue(w1, id, (atime + w.base) % CBHTSIZE)
  }

  /** The volume's expiration time raised to the vcache's. */
  function Raised(w: Wheel, id: nat, avp: Option<nat>): Wheel
    requires id < |w.vcs|
  {
    var e := w.vcs[id].expires;
    if avp.Some? && avp.value in w.vols && w.vols[avp.value].expireTime < e
    then w.(vols := w.vols[avp.value := w.vols[avp.value].(expireTime := e)]) else w
  }

  /** Filing after the volume's time has been raised. */
  function FiledOnce(w: Wheel, id: nat, b: nat): Wheel
    requires b < |w.slots|
  {
    if Queued(w, id) then w else Enqueue(w, id, b)
  }

  lemma QueueInTwo(w0: Wheel, w1: Wheel, w2: Wheel, id: nat, atime: nat, avp: Option<nat>, slot: nat)
    requires id < |w0.vcs| && |w0.slots| == CBHTSIZE && slot == (atime + w0.base) % CBHTSIZE
    requires w1 == Raised(w0, id, avp) && w2 == FiledOnce(w1, id, slot)
    ensures w2 == Queue(w0, id, atime, avp)
  {
    assert forall b :: In(w1, b, id) <==> In(w0, b, id);
    assert Queued(w1, id) == Queued(w0, id);
  }

  predicate AnyUp(v: Volume)
  {
    exists i :: 0 <= i < |v.down| && !v.down[i]
  }

  /** The staling half of one CheckCallbacks step, for an entry about to expire. */
  function Expire(w: Wheel, id: nat, now: nat, secs: nat): (r: Wheel)
    requires id < |w.vcs|
  {
    var v := w.vcs[id];
    if v.ro && v.vol in w.vols then
      var vol := w.vols[v.vol];
      if vol.expireTime > now + secs then SetVcache(w, id, v.(expires := vol.expireTime))
      else if AnyUp(vol) then Stale(w, id, false, false)
      else w
    else Stale(w, id, false, false)
  }

  /** The re-slotting half: an entry renewed past the base slot moves to its own slot, on
      the queue or not. */
  function Reslot(w: Wheel, id: nat): (r: Wheel)
    requires id < |w.vcs| && |w.slots| == CBHTSIZE
  {
    var e := w.vcs[id].expires;
    if e > w.basetime && CBHash(e - w.basetime) != 0 then
      var slot := (CBHash(e - w.basetime) + w.base) % CBHTSIZE;
      if slot != w.base then Enqueue(Dequeue(w, id), id, slot) else w
    else w
  }

  function CheckEntry(w: Wheel, id: nat, now: nat, secs: nat): (r: Wheel)
    requires id < |w.vcs| && |w.slots| == CBHTSIZE
    ensures |r.vcs| == |w.vcs| && |r.slots| == |w.slots| && r.base == w.base && r.basetime == w.basetime
  {
    Reslot(if w.vcs[id].expires < now + secs then Expire(w, id, now, secs) else w, id)
  }

  /** CheckCallbacks visits the given entries last to first. */
  function CheckAll(w: Wheel, ids: seq<nat>, now: nat, secs: nat): (r: Wheel)
    requires |w.slots| == CBHTSIZE && forall i :: 0 <= i < |ids| ==> ids[i] < |w.vcs|
    decreases |ids|
  {
    if ids == [] then w
    else CheckAll(CheckEntry(w, ids[|ids| - 1], now, secs), ids[..|ids| - 1], now, secs)
  }

  /** afs_CheckCallbacks. */
  ghost function CheckCallbacks(w: Wheel, now: nat, secs: nat): (r: Wheel)
    requires WellFormed(w)
  {
    assert forall i :: 0 <= i < |w.slots[w.base]| ==> In(w, w.base, w.slots[w.base][i]);
    CheckAll(w, w.slots[w.base], now, secs)
  }

  /** One turn of the BumpBase loop: the old base bucket is appended to the next one. */
  function BumpOnce(w: Wheel): (r: Wheel)
    requires |w.slots| == CBHTSIZE && w.base < CBHTSIZE
  {
    var nb := (w.base + 1) % CBHTSIZE;
    w.(base := nb, basetime := w.basetime + (CBHTSLOTLEN - 1),
       slots := w.slots[nb := w.slots[nb] + w.slots[w.base]][w.base := []])
  }

  predicate BumpDue(w: Wheel, now: nat)
  {
    w.basetime + (CBHTSLOTLEN - 20) <= now
  }

  /** afs_BumpBase. */
  function BumpBase(w: Wheel, now: nat): (r: Wheel)
    requires |w.slots| == CBHTSIZE && w.base < CBHTSIZE
    decreases now - w.basetime
  {
    if BumpDue(w, now) then BumpBase(BumpOnce(w), now) else w
  }

  /** afs_InitCBQueue. */
  function InitQueue(w: Wheel, now: nat): (r: Wheel)
  {
    w.(base := 0, basetime := now, slots := seq(CBHTSIZE, _ => []))
  }

  /** afs_FlushCBs: every vcache loses CStatd and its callback and leaves the queue. */
  function FlushCBs(w: Wheel, now: nat): (r: Wheel)
  {
    InitQueue(w.(vcs := seq(|w.vcs|, i requires 0 <= i < |w.vcs| => w.vcs[i].(statd := false, callback := None))), now)
  }

  // ---------------------------------------------------------------- what the operations keep

  lemma DequeueIn(w: Wheel, id: nat)
    requires WellFormed(w)
    ensures WellFormed(Dequeue(w, id))
    ensures forall b, x :: In(Dequeue(w, id), b, x) <==> In(w, b, x) && x != id
  {
    var r := Dequeue(w, id);
    forall b, x ensures In(r, b, x) <==> In(w, b, x) && x != id {
      if 0 <= b < |w.slots| { assert r.slots[b] == Without(w.slots[b], id); }
    }
  }

  lemma DequeueAbsent(w: Wheel, id: nat)
    requires !Queued(w, id)
    ensures Dequeue(w, id) == w
  {
    forall b | 0 <= b < |w.slots| ensures Without(w.slots[b], id) == w.slots[b] {
      assert !In(w, b, id);
      WithoutAbsent(w.slots[b], id);
    }
  }

  lemma EnqueueIn(w: Wheel, id: nat, b: nat)
    requires WellFormed(w) && b < CBHTSIZE && id < |w.vcs| && forall c :: !In(w, c, id)
    ensures WellFormed(Enqueue(w, id, b))
    ensures forall c, x :: In(Enqueue(w, id, b), c, x) <==> In(w, c, x) || (c == b && x == id)
  {
    var r := Enqueue(w, id, b);
    forall c, x ensures In(r, c, x) <==> In(w, c, x) || (c == b && x == id) {
    }
    assert !In(w, b, id);
    DistinctConcat([id], w.slots[b]);
  }

  lemma ReslotAhead(base: nat, h: nat)
    requires base < CBHTSIZE
    ensures (h + base) % CBHTSIZE < CBHTSIZE
    ensures Ahead(base, (h + base) % CBHTSIZE) == h % CBHTSIZE <= h
  {
  }

  /** r is w with at most vcache id and its place on the wheel changed. */
  ghost predicate OnlyTouches(w: Wheel, r: Wheel, id: nat)
  {
    && r.base == w.base && r.basetime == w.basetime && r.vols == w.vols && |r.vcs| == |w.vcs|
    && (forall x :: 0 <= x < |w.vcs| && x != id ==> r.vcs[x] == w.vcs[x])
    && (forall b, x :: x != id ==> (In(r, b, x) <==> In(w, b, x)))
    && (id < |w.vcs| ==> r.vcs[id].ro == w.vcs[id].ro && (r.vcs[id].statd ==> w.vcs[id].statd))
  }

  /** What queueing does: a vcache that is on no slot joins the one atime slots ahead of the base, one
      that is on some slot stays there, and the volume's callback lasts at least as long as this one. */
  lemma QueueEffect(w: Wheel, id: nat, atime: nat, avp: Option<nat>)
    requires WellFormed(w) && id < |w.vcs|
    ensures var r := Queue(w, id, atime, avp);
            && WellFormed(r) && r.base == w.base && r.basetime == w.basetime && r.vcs == w.vcs
            && (forall b, x :: In(r, b, x) <==>
                  In(w, b, x) || (x == id && (forall c :: !In(w, c, id)) && b == (w.base + atime) % 128))
            && r.vols.Keys == w.vols.Keys
            && (forall k :: k in w.vols ==>
                  && r.vols[k].down == w.vols[k].down && r.vols[k].expireTime >= w.vols[k].expireTime
                  && (avp != Some(k) ==> r.vols[k] == w.vols[k])
                  && (avp == Some(k) ==>
                        && r.vols[k].expireTime >= w.vcs[id].expires
                        && (r.vols[k].expireTime == w.vols[k].expireTime || r.vols[k].expireTime == w.vcs[id].expires)))
  {
    var r, w1 := Queue(w, id, atime, avp), Raised(w, id, avp);
    assert forall b, x :: In(w1, b, x) <==> In(w, b, x);
    if Queued(w, id) {
      var b :| 0 <= b < |w.slots| && In(w, b, id);
      assert forall b, x :: In(r, b, x) <==> In(w, b, x);
    } else {
      assert forall c :: !In(w, c, id);
      EnqueueIn(w1, id, (atime + w.base) % CBHTSIZE);
    }
  }

  /** The same kind of file of the same volume. */
  predicate SameFile(u: Vcache, v: Vcache)
  {
    u.ro == v.ro && u.vol == v.vol
  }

  lemma StaleEffect(w: Wheel, id: nat, noCB: bool, clearCB: bool)
    requires WellFormed(w) && id < |w.vcs|
    ensures var r := Stale(w, id, noCB, clearCB);
            && WellFormed(r) && OnlyTouches(w, r, id) && SameFile(w.vcs[id], r.vcs[id])
            && !r.vcs[id].statd && r.vcs[id].expires == w.vcs[id].expires
            && (if clearCB then r.vcs[id].callback == None else r.vcs[id].callback == w.vcs[id].callback)
            && (forall b :: In(r, b, id) <==> noCB && In(w, b, id))
  {
    DequeueIn(w, id);
    var r := Stale(w, id, noCB, clearCB);
    var w1 := if noCB then w else Dequeue(w, id);
    assert forall b, x :: In(r, b, x) <==> In(w1, b, x);
  }

  lemma ExpireEffect(w: Wheel, id: nat, now: nat, secs: nat)
    requires WellFormed(w) && In(w, w.base, id)
    ensures var r := Expire(w, id, now, secs);
            && WellFormed(r) && OnlyTouches(w, r, id)
            && (forall b :: In(r, b, id) ==> b == w.base)
            && (r.vcs[id].statd ==> In(r, w.base, id))
            && (!w.vcs[id].ro ==> r.vcs[id].expires == w.vcs[id].expires && !Queued(r, id))
  {
    StaleEffect(w, id, false, false);
    var r := Expire(w, id, now, secs);
    if r.slots == w.slots {
      assert forall b, x :: In(r, b, x) <==> In(w, b, x);
    }
  }

  lemma ReslotEffect(w: Wheel, id: nat)
    requires WellFormed(w) && id < |w.vcs| && forall b :: In(w, b, id) ==> b == w.base
    ensures var r := Reslot(w, id);
            && WellFormed(r) && OnlyTouches(w, r, id) && r.vcs == w.vcs
            && (In(w, w.base, id) ==> Queued(r, id))
            && (In(r, w.base, id) ==> In(w, w.base, id))
            && (forall b :: In(r, b, id) && b != w.base ==>
                  r.vcs[id].expires >= w.basetime + CBHTSLOTLEN * Ahead(w.base, b))
  {
    var e, r := w.vcs[id].expires, Reslot(w, id);
    if e > w.basetime && CBHash(e - w.basetime) != 0 {
      var h := CBHash(e - w.basetime);
      var slot := (h + w.base) % CBHTSIZE;
      ReslotAhead(w.base, h);
      if slot != w.base {
        DequeueIn(w, id);
        EnqueueIn(Dequeue(w, id), id, slot);
        assert In(r, slot, id);
      }
    }
  }

  /** What checking one entry of the base bucket does: the wheel stays well formed, no other
      entry moves or changes, and the entry itself, if read-write, is afterwards either off
      the wheel, or in the base bucket and good for `secs` more seconds, or in a later slot
      that starts no later than it expires. */
  lemma CheckEntryEffect(w: Wheel, id: nat, now: nat, secs: nat)
    requires WellFormed(w) && In(w, w.base, id)
    ensures var r := CheckEntry(w, id, now, secs);
            && WellFormed(r) && OnlyTouches(w, r, id)
            && (r.vcs[id].statd ==> Queued(r, id))
            && (!w.vcs[id].ro ==>
                && r.vcs[id].expires == w.vcs[id].expires
                && (In(r, w.base, id) ==> r.vcs[id].expires >= now + secs)
                && (forall b :: In(r, b, id) && b != w.base ==>
                     r.vcs[id].expires >= w.basetime + CBHTSLOTLEN * Ahead(w.base, b)))
  {
    var w1 := w;
    if w.vcs[id].expires < now + secs {
      ExpireEffect(w, id, now, secs);
      w1 := Expire(w, id, now, secs);
    }
    ReslotEffect(w1, id);
  }

  // ---------------------------------------------------------------- who stays valid, and until when

  /** Before the volume's callback runs out, no read-only file of the volume does. */
  ghost predicate Renews(w: Wheel, v: Vcache, now: nat, secs: nat)
  {
    v.ro && v.vol in w.vols && w.vols[v.vol].expireTime > now + secs
  }

  /** Every server of the file's volume is down, so that nobody could be asked. */
  ghost predicate Cut(w: Wheel, v: Vcache)
  {
    v.ro && v.vol in w.vols && forall i :: 0 <= i < |w.vols[v.vol].down| ==> w.vols[v.vol].down[i]
  }

  /** What a check makes of vcache x of the base slot, which was v and is u: valid just if it was and is
      good for `secs` more seconds, or its volume is, or there is no server to ask; good until then
      or until its volume is; and on the slot of that time, if that is another, or else on the base
      slot unless none of the three holds. */
  ghost predicate CheckedAs(w: Wheel, r: Wheel, x: nat, now: nat, secs: nat)
    requires x < |w.vcs| && x < |r.vcs|
  {
    var v, u := w.vcs[x], r.vcs[x];
    var late := v.expires < now + secs;
    && SameFile(v, u) && u.callback == v.callback
    && (u.statd <==> v.statd && (!late || Renews(w, v, now, secs) || Cut(w, v)))
    && (late && Renews(w, v, now, secs) ==> u.expires == w.vols[v.vol].expireTime)
    && (!(late && Renews(w, v, now, secs)) ==> u.expires == v.expires)
    && (var h := if u.expires > w.basetime then (u.expires - w.basetime) / 128 else 0;
        if h % 128 != 0 then forall b :: In(r, b, x) <==> b == (h + w.base) % 128
        else forall b :: In(r, b, x) <==> b == w.base && (!late || Renews(w, v, now, secs) || Cut(w, v)))
  }

  lemma ExpireExactly(w: Wheel, id: nat, now: nat, secs: nat)
    requires WellFormed(w) && In(w, w.base, id)
    ensures var r, v := Expire(w, id, now, secs), w.vcs[id];
            && r.base == w.base && r.basetime == w.basetime && |r.vcs| == |w.vcs| && SameFile(v, r.vcs[id])
            && r.vcs[id].callback == v.callback
            && (r.vcs[id].statd <==> v.statd && (Renews(w, v, now, secs) || Cut(w, v)))
            && r.vcs[id].expires == (if Renews(w, v, now, secs) then w.vols[v.vol].expireTime else v.expires)
            && (forall b :: In(r, b, id) <==> b == w.base && (Renews(w, v, now, secs) || Cut(w, v)))
  {
    StaleEffect(w, id, false, false);
    var r := Expire(w, id, now, secs);
    if r.slots == w.slots {
      assert forall b :: In(r, b, id) <==> In(w, b, id);
    }
  }

  lemma ReslotExactly(w: Wheel, id: nat)
    requires WellFormed(w) && id < |w.vcs| && forall b :: In(w, b, id) ==> b == w.base
    ensures var r, e := Reslot(w, id), w.vcs[id].expires;
            && r.vcs == w.vcs && r.base == w.base
            && (var h := if e > w.basetime then (e - w.basetime) / 128 else 0;
                if h % 128 != 0 then forall b :: In(r, b, id) <==> b == (h + w.base) % 128
                else forall b :: In(r, b, id) <==> In(w, b, id))
  {
    var e, r := w.vcs[id].expires, Reslot(w, id);
    if e > w.basetime && CBHash(e - w.basetime) != 0 {
      var slot := (CBHash(e - w.basetime) + w.base) % CBHTSIZE;
      ReslotAhead(w.base, CBHash(e - w.basetime));
      if slot != w.base {
        DequeueIn(w, id);
        EnqueueIn(Dequeue(w, id), id, slot);
      }
    }
  }

  lemma CheckEntryExactly(w: Wheel, id: nat, now: nat, secs: nat)
    requires WellFormed(w) && In(w, w.base, id)
    ensures CheckedAs(w, CheckEntry(w, id, now, secs), id, now, secs)
  {
    var w1 := w;
    if w.vcs[id].expires < now + secs {
      ExpireEffect(w, id, now, secs);
      ExpireExactly(w, id, now, secs);
      w1 := Expire(w, id, now, secs);
    }
    ReslotExactly(w1, id);
  }

  /** Every entry of the base slot that a walk visits. */
  lemma {:induction false} CheckAllExactly(w: Wheel, ids: seq<nat>, now: nat, secs: nat)
    requires WellFormed(w) && Distinct(ids) && forall id :: id in ids ==> In(w, w.base, id)
    ensures forall i :: 0 <= i < |ids| ==> ids[i] < |w.vcs|
    ensures var r := CheckAll(w, ids, now, secs);
            |r.vcs| == |w.vcs| && forall x :: x in ids ==> CheckedAs(w, r, x, now, secs)
    decreases |ids|
  {
    CheckAllEffect(w, ids, now, secs);
    if ids != [] {
      var rest, last := ids[..|ids| - 1], ids[|ids| - 1];
      assert last !in rest && forall x :: x in ids <==> x in rest || x == last;
      CheckEntryEffect(w, last, now, secs);
      CheckEntryExactly(w, last, now, secs);
      var w1 := CheckEntry(w, last, now, secs);
      CheckAllExactly(w1, rest, now, secs);
      CheckAllEffect(w1, rest, now, secs);
      var r := CheckAll(w1, rest, now, secs);
      forall x | x in ids ensures CheckedAs(w, r, x, now, secs) {
        if x == last {
          CheckedLast(w, w1, r, x, now, secs);
        } else {
          CheckedFirst(w, w1, r, x, now, secs);
        }
      }
    }
  }

  lemma CheckedLast(w: Wheel, w1: Wheel, r: Wheel, x: nat, now: nat, secs: nat)
    requires x < |w.vcs| == |w1.vcs| == |r.vcs| && CheckedAs(w, w1, x, now, secs)
    requires r.vcs[x] == w1.vcs[x] && forall b :: In(r, b, x) <==> In(w1, b, x)
    ensures CheckedAs(w, r, x, now, secs)
  {
  }

  lemma CheckedFirst(w: Wheel, w1: Wheel, r: Wheel, x: nat, now: nat, secs: nat)
    requires x < |w.vcs| == |w1.vcs| == |r.vcs| && CheckedAs(w1, r, x, now, secs)
    requires w1.vcs[x] == w.vcs[x] && w1.vols == w.vols && w1.base == w.base && w1.basetime == w.basetime
    ensures CheckedAs(w, r, x, now, secs)
  {
  }

  // ---------------------------------------------------------------- whole walks and bumps

  /** What a whole CheckCallbacks walk over entries of the base bucket does. */
  lemma {:induction false} CheckAllEffect(w: Wheel, ids: seq<nat>, now: nat, secs: nat)
    requires WellFormed(w) && Distinct(ids) && forall id :: id in ids ==> In(w, w.base, id)
    ensures forall i :: 0 <= i < |ids| ==> ids[i] < |w.vcs|
    ensures var r := CheckAll(w, ids, now, secs);
            && WellFormed(r) && r.base == w.base && r.basetime == w.basetime && r.vols == w.vols && |r.vcs| == |w.vcs|
            && (forall x :: 0 <= x < |w.vcs| && x !in ids ==> r.vcs[x] == w.vcs[x])
            && (forall b, x :: x !in ids ==> (In(r, b, x) <==> In(w, b, x)))
            && (forall x :: x in ids ==>
                  && r.vcs[x].ro == w.vcs[x].ro
                  && (r.vcs[x].statd ==> w.vcs[x].statd && Queued(r, x))
                  && (!w.vcs[x].ro ==> r.vcs[x].expires == w.vcs[x].expires)
                  && (!w.vcs[x].ro && In(r, w.base, x) ==> r.vcs[x].expires >= now + secs))
            && (forall b, x :: x in ids && !w.vcs[x].ro && In(r, b, x) && b != w.base ==>
                  r.vcs[x].expires >= w.basetime + CBHTSLOTLEN * Ahead(w.base, b))
    decreases |ids|
  {
    forall i | 0 <= i < |ids| ensures ids[i] < |w.vcs| {
      assert In(w, w.base, ids[i]);
    }
    if ids != [] {
      var rest, last := ids[..|ids| - 1], ids[|ids| - 1];
      assert forall x :: x in ids <==> x in rest || x == last;
      assert last !in rest;
      CheckEntryEffect(w, last, now, secs);
      var w1 := CheckEntry(w, last, now, secs);
      CheckAllEffect(w1, rest, now, secs);
      var r := CheckAll(w1, rest, now, secs);
      if r.vcs[last].statd {
        var b :| 0 <= b < |w1.slots| && In(w1, b, last);
        assert In(r, b, last);
      }
    }
  }

  lemma BaseChecked(w: Wheel, now: nat, secs: nat)
    requires WellFormed(w)
    ensures var r := CheckCallbacks(w, now, secs);
            |r.vcs| == |w.vcs| && forall x :: In(w, w.base, x) ==> CheckedAs(w, r, x, now, secs)
  {
    var ids := w.slots[w.base];
    assert forall x :: x in ids <==> In(w, w.base, x);
    CheckAllExactly(w, ids, now, secs);
  }

  /** One bump moves the old base bucket into the new one and every other bucket one slot
      closer; nothing is lost. */
  lemma BumpOnceEffect(w: Wheel)
    requires WellFormed(w)
    ensures var r := BumpOnce(w);
            && WellFormed(r) && r.vcs == w.vcs
            && (forall b, x :: In(r, b, x) <==>
                  (b != w.base && In(w, b, x)) || (b == r.base && In(w, w.base, x)))
            && (forall b :: 0 <= b < CBHTSIZE && b != w.base ==> Ahead(w.base, b) == Ahead(r.base, b) + 1)
  {
    var r := BumpOnce(w);
    assert forall x :: x in w.slots[w.base] ==> In(w, w.base, x);
    assert forall x :: x in w.slots[r.base] ==> In(w, r.base, x);
    forall b, x ensures In(r, b, x) <==> (b != w.base && In(w, b, x)) || (b == r.base && In(w, w.base, x)) {
    }
    DistinctConcat(w.slots[r.base], w.slots[w.base]);
  }

  /** BumpBase as a whole: it leaves basetime at most 107 seconds behind the clock and, if it
      moved, at most 19 seconds ahead of it; it moves `basetime` by 127 seconds per slot;
      it conserves the entries on the wheel; and an entry that ends up d >= 1 slots ahead of
      the new base has not moved and was d + (bumps) slots ahead of the old one. */
  lemma {:induction false} BumpBaseEffect(w: Wheel, now: nat)
    requires WellFormed(w)
    ensures var r := BumpBase(w, now);
            && WellFormed(r) && r.vcs == w.vcs && r.vols == w.vols
            && now <= r.basetime + 107
            && (BumpDue(w, now) ==> r.basetime <= now + 19 && r.basetime >= w.basetime + 127)
            && (!BumpDue(w, now) ==> r == w)
            && (forall x :: Queued(r, x) <==> Queued(w, x))
            && (r.basetime - w.basetime) % 127 == 0
            && (forall b, x :: In(r, b, x) && b != r.base ==>
                  In(w, b, x) && Ahead(w.base, b) >= Ahead(r.base, b) + (r.basetime - w.basetime) / 127)
    decreases now - w.basetime
  {
    if BumpDue(w, now) {
      var w1 := BumpOnce(w);
      BumpOnceEffect(w);
      BumpBaseEffect(w1, now);
      forall x ensures Queued(w1, x) <==> Queued(w, x) {
        if b :| 0 <= b < |w.slots| && In(w, b, x) {
          assert In(w1, if b == w.base then w1.base else b, x);
        }
        if b :| 0 <= b < |w1.slots| && In(w1, b, x) {
          assert In(w, if b == w1.base && In(w, w.base, x) then w.base else b, x);
        }
      }
    }
  }

  /** No bucket can hold more entries than there are vcaches, so a CheckCallbacks limit of at
      least that many never trips. */
  lemma BucketNoLongerThanTable(w: Wheel, b: nat)
    requires WellFormed(w) && b < CBHTSIZE
    ensures |w.slots[b]| <= |w.vcs|
  {
    forall i | 0 <= i < |w.slots[b]| ensures w.slots[b][i] < |w.vcs| {
      assert In(w, b, w.slots[b][i]);
    }
    Pigeonhole(w.slots[b], |w.vcs|);
  }
}
