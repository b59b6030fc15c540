/** afs_cbqueue.c on the heap: 128 ring heads, every vcache embedding one link.  Each method
    follows the C routine statement by statement and is proved to compute, on the abstract
    wheel `Abs()`, exactly the function of the same name in CallbackWheel. */
module CallbackQueue {
  import opened Basics
  import opened Seqs
  import opened Queues
  import opened CallbackWheel

  class VcacheRec {
    const callsort: AfsQ
    var cbExpires: nat
    var statd: bool
    var ro: bool
    var vol: nat
    var callback: Option<nat>

    constructor (id: nat, ro: bool, vol: nat)
      ensures fresh(callsort) && callsort.id == id && callsort.Unlinked() && !statd && this.ro == ro && this.vol == vol
    {
      callsort := new AfsQ(id);
      cbExpires, statd, this.ro, this.vol, callback := 0, false, ro, vol, None;
    }

    function Value(): Vcache
      reads this
    {
      Vcache(cbExpires, statd, ro, vol, callback)
    }
  }

  class VolumeRec {
    var expireTime: nat
    var down: seq<bool>

    constructor (expireTime: nat, down: seq<bool>)
    {
      this.expireTime, this.down := expireTime, down;
    }

    function Value(): Volume
      reads this
    {
      Volume(expireTime, down)
    }
  }

  ghost function Ids(s: seq<AfsQ>): (r: seq<nat>)
    ensures |r| == |s| && forall i :: 0 <= i < |s| ==> r[i] == s[i].id
  {
    seq(|s|, i requires 0 <= i < |s| => s[i].id)
  }

  ghost function IdLists(ls: seq<seq<AfsQ>>): (r: seq<seq<nat>>)
    ensures |r| == |ls| && forall b :: 0 <= b < |ls| ==> r[b] == Ids(ls[b])
  {
    seq(|ls|, b requires 0 <= b < |ls| => Ids(ls[b]))
  }

  /** Unlinking one of several links with distinct ids. */
  lemma IdsWithout(s: seq<AfsQ>, k: nat)
    requires k < |s| && Distinct(Ids(s))
    ensures Ids(s[..k] + s[k + 1..]) == Without(Ids(s), s[k].id)
  {
    WithoutOne(Ids(s), k);
    assert Ids(s[..k] + s[k + 1..]) == Ids(s)[..k] + Ids(s)[k + 1..];
  }

  /** The lists before and after q leaves bucket b (b == -1: it was on none). */
  ghost predicate DropsOne(before: seq<seq<AfsQ>>, after: seq<seq<AfsQ>>, b: int, q: AfsQ)
  {
    if b == -1 then after == before
    else 0 <= b < |before| && exists k :: 0 <= k < |before[b]| && before[b][k] == q &&
                                          after == before[b := before[b][..k] + before[b][k + 1..]]
  }

  /** Everything ahead of q in list a is still at the front of list b. */
  ghost predicate KeepsBefore(a: seq<AfsQ>, b: seq<AfsQ>, q: AfsQ)
  {
    forall k :: 0 <= k < |a| && a[k] == q ==> k <= |b| && b[..k] == a[..k]
  }

  /** Nothing is queued, statted or promised, and the wheel starts at now. */
  ghost predicate Flushed(w: Wheel, now: nat)
  {
    && w.base == 0 && w.basetime == now
    && (forall b, x :: !In(w, b, x))
    && (forall i :: 0 <= i < |w.vcs| ==> !w.vcs[i].statd && w.vcs[i].callback == None)
  }

  class CBQueue {
    const heads: seq<AfsQ>
    const vcaches: seq<VcacheRec>
    const volumes: map<nat, VolumeRec>
    ghost const nodes: set<AfsQ>
    var base: nat
    var basetime: nat
    /** The members of each bucket in `next` order, and the bucket of each vcache (-1: none). */
    ghost var lists: seq<seq<AfsQ>>
    ghost var home: seq<int>

    /** afs_InitCBQueue at start-up, for the vcaches and volumes the cache manager has. */
    constructor (vcs: seq<VcacheRec>, vols: map<nat, VolumeRec>, now: nat)
      requires forall i :: 0 <= i < |vcs| ==> vcs[i].callsort.id == i && vcs[i].callsort.Unlinked()
      requires forall j, k :: j in vols && k in vols && vols[j] == vols[k] ==> j == k
      ensures Valid() && Abs() == InitQueue(Abs(), now) && vcaches == vcs && volumes == vols
    {
      var hs := NewHeads();
      heads, vcaches, volumes := hs, vcs, vols;
      nodes := (set b | 0 <= b < |hs| :: hs[b]) + (set i | 0 <= i < |vcs| :: vcs[i].callsort);
      base, basetime := 0, now;
      lists, home := seq(CBHTSIZE, _ => []), seq(|vcs|, _ => -1);
      new;
      assert IdLists(lists) == seq(CBHTSIZE, _ => []);
    }

    static method NewHeads() returns (hs: seq<AfsQ>)
      ensures |hs| == CBHTSIZE && Distinct(hs) && forall b :: 0 <= b < |hs| ==> fresh(hs[b]) && Ring(hs[b], [])
    {
      hs := [];
      while |hs| < CBHTSIZE
        invariant |hs| <= CBHTSIZE && Distinct(hs)
        invariant forall b :: 0 <= b < |hs| ==> fresh(hs[b]) && allocated(hs[b]) && Ring(hs[b], [])
      {
        var q := new AfsQ(0);
        QInit(q);
        hs := hs + [q];
      }
    }

    /** The links that exist and whose they are; nothing here ever changes. */
    ghost predicate Layout()
    {
      && |heads| == CBHTSIZE && Distinct(heads)
      && (forall b :: 0 <= b < CBHTSIZE ==> heads[b] in nodes)
      && (forall i :: 0 <= i < |vcaches| ==> Link(i) in nodes && Link(i).id == i && Link(i) !in heads)
      && (forall j, k :: j in volumes && k in volumes && volumes[j] == volumes[k] ==> j == k)
    }

    function Link(i: nat): AfsQ
      requires i < |vcaches|
    {
      vcaches[i].callsort
    }

    /** q is the link of a vcache whose bucket is b. */
    ghost predicate Member(q: AfsQ, b: int)
      reads this`home
    {
      q.id < |vcaches| && Link(q.id) == q && q.id < |home| && home[q.id] == b
    }

    /** Every bucket is a well formed ring of vcache links, no link is on two rings, and a
        link on none is zeroed. */
    ghost predicate Valid()
      reads this, nodes
    {
      && Layout()
      && base < CBHTSIZE
      && |lists| == CBHTSIZE
      && |home| == |vcaches|
      && (forall b, k :: 0 <= b < CBHTSIZE && 0 <= k < |lists[b]| ==> Member(lists[b][k], b) && lists[b][k] in nodes)
      && (forall b :: 0 <= b < CBHTSIZE ==> Ring(heads[b], lists[b]))
      && (forall i :: 0 <= i < |vcaches| ==> Placed(i))
    }

    ghost predicate Placed(i: nat)
      requires i < |vcaches| && i < |home| && |lists| == CBHTSIZE
      reads this`home, this`lists, Link(i)
    {
      if home[i] == -1 then Link(i).Unlinked() else 0 <= home[i] < CBHTSIZE && Link(i) in lists[home[i]]
    }

    ghost function Abs(): (w: Wheel)
      reads this, vcaches, volumes.Values
    {
      Wheel(base, basetime, IdLists(lists),
            seq(|vcaches|, i requires 0 <= i < |vcaches| reads vcaches => vcaches[i].Value()),
            map k | k in volumes :: volumes[k].Value())
    }

    lemma InAbs(b: int, id: int)
      requires Valid()
      ensures In(Abs(), b, id) <==> 0 <= id < |vcaches| && 0 <= b < CBHTSIZE && home[id] == b
    {
      var w := Abs();
      if In(w, b, id) {
        var k :| 0 <= k < |w.slots[b]| && w.slots[b][k] == id;
        assert Member(lists[b][k], b);
      }
      if 0 <= id < |vcaches| && 0 <= b < CBHTSIZE && home[id] == b {
        assert Placed(id);
        var k :| 0 <= k < |lists[b]| && lists[b][k] == Link(id);
        assert w.slots[b][k] == id;
      }
    }

    lemma AbsWellFormed()
      requires Valid()
      ensures WellFormed(Abs())
    {
    }

    /** A vcache link is on a ring exactly when its prev, or its next, is set. */
    lemma QueuedIffLinked(i: nat)
      requires Valid() && i < |vcaches|
      ensures home[i] != -1 <==> Link(i).prev != null
      ensures home[i] != -1 <==> Link(i).next != null
      ensures home[i] != -1 <==> Queued(Abs(), i)
    {
      assert Placed(i);
      if home[i] != -1 {
        var b := home[i];
        var k :| 0 <= k < |lists[b]| && lists[b][k] == Link(i);
        Neighbours(heads[b], lists[b], k);
        InAbs(b, i);
      } else if Queued(Abs(), i) {
        var b :| 0 <= b < |Abs().slots| && In(Abs(), b, i);
        InAbs(b, i);
      }
    }

    /** QAdd of vcache i's link to bucket b. */
    method Attach(i: nat, b: nat)
      requires Valid() && i < |vcaches| && b < CBHTSIZE && home[i] == -1
      modifies this`lists, this`home, nodes
      ensures Valid() && lists == old(lists)[b := [Link(i)] + old(lists)[b]] && home == old(home)[i := b]
    {
      var q := Link(i);
      ghost var s := lists[b];
      assert Ring(heads[b], s);
      Ends(heads[b], s);
      QAdd(heads[b], q, s);
      lists, home := lists[b := [q] + s], home[i := b];
      forall c | 0 <= c < CBHTSIZE && c != b ensures Ring(heads[c], lists[c]) {
        assert old(Ring(heads[c], lists[c]));
      }
      forall j | 0 <= j < |vcaches| ensures Placed(j) {
        assert old(Placed(j));
        assert Link(j) in [q] + s <==> j == i || Link(j) in s;
      }
    }

    /** What unlinking does to the abstract slots. */
    lemma UnlinkedSlots(i: nat, k: nat)
      requires Valid() && i < |vcaches| && home[i] != -1
      requires Placed(i) && k < |lists[home[i]]| && lists[home[i]][k] == Link(i)
      ensures var s := lists[home[i]]; IdLists(lists[home[i] := s[..k] + s[k + 1..]]) == Dequeue(Abs(), i).slots
    {
      var b, w := home[i], Abs();
      var s := lists[b];
      AbsWellFormed();
      forall c | 0 <= c < CBHTSIZE
        ensures Ids(if c == b then s[..k] + s[k + 1..] else lists[c]) == Without(w.slots[c], i)
      {
        InAbs(c, i);
        if c == b {
          assert Ids(s) == w.slots[b];
          IdsWithout(s, k);
        } else {
          WithoutAbsent(w.slots[c], i);
        }
      }
    }

    /** QRemove of vcache i's link, the k-th of its bucket. */
    method Detach(i: nat, ghost k: nat)
      requires Valid() && i < |vcaches| && home[i] != -1
      requires Placed(i) && k < |lists[home[i]]| && lists[home[i]][k] == Link(i)
      modifies this`lists, this`home, nodes
      ensures Valid() && home == old(home)[i := -1]
      ensures var b, s := old(home[i]), old(lists[home[i]]); lists == old(lists)[b := s[..k] + s[k + 1..]]
    {
      var q := Link(i);
      ghost var b := home[i];
      ghost var s := lists[b];
      assert Ring(heads[b], s);
      Neighbours(heads[b], s, k);
      QRemove(q, heads[b], s, k);
      ghost var t := s[..k] + s[k + 1..];
      lists, home := lists[b := t], home[i := -1];
      forall c | 0 <= c < CBHTSIZE && c != b ensures Ring(heads[c], lists[c]) {
        assert old(Ring(heads[c], lists[c]));
      }
      forall j | 0 <= j < |vcaches| ensures Placed(j) {
        assert old(Placed(j));
        assert Link(j) in t <==> j != i && Link(j) in s;
      }
    }

    /** afs_DequeueCallback. */
    method DequeueCallback(i: nat)
      requires Valid() && i < |vcaches|
      modifies this`lists, this`home, nodes
      ensures Valid() && home == old(home)[i := -1] && Abs() == Dequeue(old(Abs()), i)
      ensures DropsOne(old(lists), lists, old(home[i]), Link(i))
    {
      QueuedIffLinked(i);
      assert Placed(i);
      if Link(i).prev != null {
        ghost var k :| 0 <= k < |lists[home[i]]| && lists[home[i]][k] == Link(i);
        UnlinkedSlots(i, k);
        Detach(i, k);
      } else {
        DequeueAbsent(Abs(), i);
      }
    }

    /** Only vcache i differs between the two heaps. */
    twostate lemma OneVcacheChanged(i: nat)
      requires Layout() && i < |vcaches|
      requires forall j :: 0 <= j < |vcaches| && vcaches[j] != vcaches[i] ==> old(vcaches[j].Value()) == vcaches[j].Value()
      ensures Abs().vcs == old(Abs()).vcs[i := vcaches[i].Value()]
    {
      forall j | 0 <= j < |vcaches| && j != i ensures vcaches[j] != vcaches[i] {
        assert Link(j).id == j && Link(i).id == i;
      }
    }

    method SetStale(i: nat, clearCB: bool)
      requires Valid() && i < |vcaches|
      modifies vcaches[i]
      ensures Valid() && Abs() == Stale(old(Abs()), i, true, clearCB)
    {
      vcaches[i].statd := false;
      if clearCB {
        vcaches[i].callback := None;
      }
      OneVcacheChanged(i);
    }

    /** afs_StaleVCacheFlags, as far as the queue is concerned. */
    method StaleVCacheFlags(i: nat, noCB: bool, clearCB: bool)
      requires Valid() && i < |vcaches|
      modifies this`lists, this`home, nodes, vcaches[i]
      ensures Valid() && Abs() == Stale(old(Abs()), i, noCB, clearCB)
      ensures home == if noCB then old(home) else old(home)[i := -1]
      ensures if noCB then lists == old(lists) else DropsOne(old(lists), lists, old(home[i]), Link(i))
    {
      if !noCB {
        DequeueCallback(i);
      }
      SetStale(i, clearCB);
    }

    /** The abstract slots after QAdd. */
    lemma AttachedSlots(ls: seq<seq<AfsQ>>, b: nat, q: AfsQ)
      requires b < |ls|
      ensures IdLists(ls[b := [q] + ls[b]]) == IdLists(ls)[b := [q.id] + IdLists(ls)[b]]
    {
      assert Ids([q] + ls[b]) == [q.id] + Ids(ls[b]);
    }

    method Insert(i: nat, b: nat)
      requires Valid() && i < |vcaches| && b < CBHTSIZE && home[i] == -1
      modifies this`lists, this`home, nodes
      ensures Valid() && Abs() == Enqueue(old(Abs()), i, b)
      ensures lists == old(lists)[b := [Link(i)] + old(lists)[b]] && home == old(home)[i := b]
    {
      AttachedSlots(lists, b, Link(i));
      Attach(i, b);
    }

    method RaiseVolume(k: nat, expires: nat)
      requires Valid() && k in volumes
      modifies volumes.Values
      ensures Valid()
      ensures Abs() == var w := old(Abs());
                       if w.vols[k].expireTime < expires
                       then w.(vols := w.vols[k := w.vols[k].(expireTime := expires)]) else w
    {
      if volumes[k].expireTime < expires {
        volumes[k].expireTime := expires;
        assert forall j :: j in volumes && j != k ==> volumes[j] != volumes[k];
      }
    }

    method RaiseFor(i: nat, avp: Option<nat>)
      requires Valid() && i < |vcaches| && (avp.Some? ==> avp.value in volumes)
      modifies volumes.Values
      ensures Valid() && Abs() == Raised(old(Abs()), i, avp)
    {
      if avp.Some? {
        RaiseVolume(avp.value, vcaches[i].cbExpires);
      }
    }

    /** Filing a vcache that is not on any chain. */
    method InsertOnce(i: nat, b: nat)
      requires Valid() && i < |vcaches| && b < CBHTSIZE
      modifies this`lists, this`home, nodes
      ensures Valid() && Abs() == FiledOnce(old(Abs()), i, b)
    {
      QueuedIffLinked(i);
      if Link(i).next == null {
        Insert(i, b);
      }
    }

    /** afs_QueueCallback. */
    method QueueCallback(i: nat, atime: nat, avp: Option<nat>)
      requires Valid() && i < |vcaches| && (avp.Some? ==> avp.value in volumes)
      modifies this`lists, this`home, nodes, volumes.Values
      ensures Valid() && Abs() == Queue(old(Abs()), i, atime, avp)
    {
      var slot := (atime + base) % CBHTSIZE;
      ghost var w0 := Abs();
      RaiseFor(i, avp);
      ghost var w1 := Abs();
      InsertOnce(i, slot);
      QueueInTwo(w0, w1, Abs(), i, atime, avp, slot);
    }

    /** The staling half of a CheckCallbacks step. */
    method ExpireOne(i: nat, now: nat, secs: nat)
      requires Valid() && i < |vcaches|
      modifies this`lists, this`home, nodes, vcaches[i]
      ensures Valid() && Abs() == Expire(old(Abs()), i, now, secs)
      ensures || (home == old(home) && lists == old(lists))
              || (home == old(home)[i := -1] && DropsOne(old(lists), lists, old(home[i]), Link(i)))
    {
      var tvc := vcaches[i];
      if tvc.ro && tvc.vol in volumes {
        var tvp := volumes[tvc.vol];
        if tvp.expireTime > now + secs {
          tvc.cbExpires := tvp.expireTime;
          OneVcacheChanged(i);
        } else {
          var j := 0;
          while j < |tvp.down|
            invariant 0 <= j <= |tvp.down|
            invariant forall h :: 0 <= h < j ==> tvp.down[h]
          {
            if !tvp.down[j] {
              break;
            }
            j := j + 1;
          }
          assert AnyUp(tvp.Value()) <==> j < |tvp.down|;
          if j < |tvp.down| {
            StaleVCacheFlags(i, false, false);
          }
        }
      } else {
        StaleVCacheFlags(i, false, false);
      }
    }

    /** The re-slotting half. */
    method ReslotOne(i: nat)
      requires Valid() && i < |vcaches| && (home[i] == -1 || home[i] == base)
      modifies this`lists, this`home, nodes
      ensures Valid() && Abs() == Reslot(old(Abs()), i)
      ensures old(home[i]) == -1 ==> lists[base] == old(lists[base])
      ensures KeepsBefore(old(lists[base]), lists[base], Link(i))
    {
      var e := vcaches[i].cbExpires;
      if e > basetime && CBHash(e - basetime) != 0 {
        var slot := (CBHash(e - basetime) + base) % CBHTSIZE;
        if slot != base {
          MoveTo(i, slot);
        }
      }
    }

    /** From wherever it is to another slot than the base. */
    method MoveTo(i: nat, slot: nat)
      requires Valid() && i < |vcaches| && slot < CBHTSIZE && slot != base && (home[i] == -1 || home[i] == base)
      modifies this`lists, this`home, nodes
      ensures Valid() && Abs() == Enqueue(Dequeue(old(Abs()), i), i, slot)
      ensures old(home[i]) == -1 ==> lists[base] == old(lists[base])
      ensures KeepsBefore(old(lists[base]), lists[base], Link(i))
    {
      assert Ring(heads[base], lists[base]);
      DequeueCallback(i);
      Insert(i, slot);
    }

    /** One turn of the CheckCallbacks loop, for the vcache of a link in the base bucket. */
    method CheckOne(i: nat, now: nat, secs: nat)
      requires Valid() && i < |vcaches| && home[i] == base
      modifies this`lists, this`home, nodes, vcaches[i]
      ensures Valid() && Abs() == CheckEntry(old(Abs()), i, now, secs)
      ensures KeepsBefore(old(lists[base]), lists[base], Link(i))
    {
      assert Ring(heads[base], lists[base]);
      if vcaches[i].cbExpires < now + secs {
        ExpireOne(i, now, secs);
      }
      ReslotOne(i);
    }

    /** One turn of the walk: the entry at i of the bucket as it was, whose first i entries are
        still in place; returns the link before it. */
    method Visit(tq: AfsQ, ghost i: nat, ghost l0: seq<AfsQ>, now: nat, secs: nat) returns (uq: AfsQ)
      requires Valid() && i < |l0| && tq == l0[i] && i < |lists[base]| && lists[base][..i + 1] == l0[..i + 1]
      modifies this`lists, this`home, nodes, vcaches
      ensures Valid() && uq == if i > 0 then l0[i - 1] else heads[base]
      ensures tq.id < |vcaches| && Abs() == CheckEntry(old(Abs()), tq.id, now, secs)
      ensures i <= |lists[base]| && lists[base][..i] == l0[..i]
    {
      SamePrefix(lists[base], l0, i);
      assert Member(lists[base][i], base);
      Neighbours(heads[base], lists[base], i);
      uq := tq.prev;
      CheckOne(tq.id, now, secs);
    }

    /** afs_CheckCallbacks, walking the base bucket backwards along `prev` while entries leave
        it.  Visits every entry exactly once; past the sanity limit it drops everything. */
    method CheckCallbacks(now: nat, secs: nat, limit: nat, now2: nat)
      requires Valid()
      modifies this, nodes, vcaches
      ensures Valid()
      ensures WellFormed(old(Abs()))
      ensures |old(Abs()).slots[old(base)]| <= limit ==>
                && Abs() == CallbackWheel.CheckCallbacks(old(Abs()), now, secs) && |Abs().vcs| == |old(Abs()).vcs|
                && forall x :: In(old(Abs()), old(base), x) ==> CheckedAs(old(Abs()), Abs(), x, now, secs)
      ensures |old(Abs()).slots[old(base)]| > limit ==> Flushed(Abs(), now2)
    {
      AbsWellFormed();
      BaseChecked(Abs(), now, secs);
      var safety := Walk(now, secs, limit);
      if safety > limit {
        FlushCBs(now2);
      }
    }

    /** The walk, as far as the sanity limit lets it go. */
    method Walk(now: nat, secs: nat, limit: nat) returns (safety: nat)
      requires Valid() && WellFormed(Abs())
      modifies this, nodes, vcaches
      ensures Valid() && (safety > limit <==> |old(Abs()).slots[old(base)]| > limit)
      ensures safety <= limit ==> Abs() == CallbackWheel.CheckCallbacks(old(Abs()), now, secs)
    {
      ghost var w0, l0 := Abs(), lists[base];
      ghost var ids := w0.slots[base];
      ghost var last := CallbackWheel.CheckCallbacks(w0, now, secs);
      assert Ring(heads[base], l0);
      Ends(heads[base], l0);
      safety := 0;
      var tq := heads[base].prev;
      ghost var i := |l0| - 1;
      assert ids[..i + 1] == ids;
      while safety <= limit && tq != heads[base]
        invariant Valid() && base == old(base)
        invariant -1 <= i < |l0| && safety == |l0| - 1 - i
        invariant tq == if i >= 0 then l0[i] else heads[base]
        invariant i < |lists[base]| && lists[base][..i + 1] == l0[..i + 1]
        invariant |Abs().vcs| == |w0.vcs| && forall k :: 0 <= k <= i ==> ids[k] < |w0.vcs|
        invariant CheckAll(Abs(), ids[..i + 1], now, secs) == last
        decreases i
      {
        CheckAllLast(Abs(), ids, i, now, secs);
        tq := Visit(tq, i, l0, now, secs);
        safety, i := safety + 1, i - 1;
      }
    }

    lemma SamePrefix(l: seq<AfsQ>, l0: seq<AfsQ>, i: nat)
      requires i < |l| && i < |l0| && l[..i + 1] == l0[..i + 1]
      ensures l[i] == l0[i] && (i > 0 ==> l[i - 1] == l0[i - 1])
      ensures forall m :: KeepsBefore(l, m, l0[i]) ==> i <= |m| && m[..i] == l0[..i]
    {
    }

    lemma CheckAllLast(w: Wheel, ids: seq<nat>, i: nat, now: nat, secs: nat)
      requires |w.slots| == CBHTSIZE && i < |ids| && forall k :: 0 <= k <= i ==> ids[k] < |w.vcs|
      ensures CheckAll(w, ids[..i + 1], now, secs) == CheckAll(CheckEntry(w, ids[i], now, secs), ids[..i], now, secs)
    {
      assert ids[..i + 1][..i] == ids[..i];
    }

    /** One turn of the BumpBase loop. */
    method BumpOnce()
      requires Valid()
      modifies this, nodes
      ensures Valid() && Abs() == CallbackWheel.BumpOnce(old(Abs()))
    {
      var oldbase := base;
      SetBase((base + 1) % CBHTSIZE, basetime + (CBHTSLOTLEN - 1));
      Merge(oldbase, base);
    }

    method SetBase(b: nat, time: nat)
      requires Valid() && b < CBHTSIZE
      modifies this`base, this`basetime
      ensures Valid() && Abs() == old(Abs()).(base := b, basetime := time)
      ensures base == b && basetime == time
    {
      base, basetime := b, time;
    }

    method Merge(a: nat, b: nat)
      requires Valid() && a < CBHTSIZE && b < CBHTSIZE && a != b
      modifies this`lists, this`home, nodes
      ensures Valid()
      ensures Abs() == var w := old(Abs()); w.(slots := w.slots[b := w.slots[b] + w.slots[a]][a := []])
    {
      assert Ring(heads[a], lists[a]);
      SpliceSlots(lists, a, b);
      var empty := QEmpty(heads[a], lists[a]);
      if !empty {
        Splice(a, b);
      } else {
        assert lists[b] + [] == lists[b];
      }
    }

    /** QCat of bucket a onto bucket b. */
    method Splice(a: nat, b: nat)
      requires Valid() && a < CBHTSIZE && b < CBHTSIZE && a != b && lists[a] != []
      modifies this`lists, this`home, nodes
      ensures Valid() && lists == old(lists)[b := old(lists[b] + lists[a])][a := []]
    {
      ghost var s1, s2 := lists[a], lists[b];
      Join(a, b);
      lists, home := lists[b := s2 + s1][a := []], Rehomed(home, a, b);
      forall c, k | 0 <= c < CBHTSIZE && 0 <= k < |lists[c]|
        ensures Member(lists[c][k], c) && lists[c][k] in nodes
      {
        if c == b && k >= |s2| {
          assert old(Member(lists[a][k - |s2|], a));
        } else {
          assert old(Member(lists[c][k], c));
        }
      }
      forall j | 0 <= j < |vcaches| ensures Placed(j) {
        assert old(Placed(j));
      }
    }

    /** The rings' part of it. */
    method Join(a: nat, b: nat)
      requires Valid() && a < CBHTSIZE && b < CBHTSIZE && a != b && lists[a] != []
      modifies nodes
      ensures Ring(heads[a], []) && Ring(heads[b], lists[b] + lists[a])
      ensures forall c :: 0 <= c < CBHTSIZE && c != a && c != b ==> Ring(heads[c], lists[c])
      ensures forall j :: 0 <= j < |vcaches| && home[j] == -1 ==> Link(j).Unlinked()
    {
      ghost var s1, s2 := lists[a], lists[b];
      assert Ring(heads[a], s1) && Ring(heads[b], s2);
      Ends(heads[a], s1);
      Ends(heads[b], s2);
      forall j | 0 <= j < |vcaches| && home[j] == -1 ensures Link(j).Unlinked() {
        assert Placed(j);
      }
      QCat(heads[a], heads[b], s1, s2);
      forall c | 0 <= c < CBHTSIZE && c != a && c != b ensures Ring(heads[c], lists[c]) {
        assert old(Ring(heads[c], lists[c]));
      }
    }

    static ghost function Rehomed(home: seq<int>, a: int, b: int): (r: seq<int>)
      ensures |r| == |home| && forall i :: 0 <= i < |home| ==> r[i] == if home[i] == a then b else home[i]
    {
      seq(|home|, i requires 0 <= i < |home| => if home[i] == a then b else home[i])
    }

    lemma SpliceSlots(ls: seq<seq<AfsQ>>, a: nat, b: nat)
      requires a < |ls| && b < |ls| && a != b
      ensures IdLists(ls[b := ls[b] + ls[a]][a := []]) == IdLists(ls)[b := IdLists(ls)[b] + IdLists(ls)[a]][a := []]
    {
      assert Ids(ls[b] + ls[a]) == Ids(ls[b]) + Ids(ls[a]);
    }

    /** afs_BumpBase. */
    method BumpBase(now: nat) returns (didbump: nat)
      requires Valid()
      modifies this, nodes
      ensures Valid() && Abs() == CallbackWheel.BumpBase(old(Abs()), now)
      ensures didbump > 0 <==> BumpDue(old(Abs()), now)
    {
      didbump := 0;
      while basetime + (CBHTSLOTLEN - 20) <= now
        invariant Valid()
        invariant CallbackWheel.BumpBase(Abs(), now) == CallbackWheel.BumpBase(old(Abs()), now)
        invariant didbump == 0 ==> Abs() == old(Abs())
        invariant didbump > 0 ==> BumpDue(old(Abs()), now)
        decreases now - basetime
      {
        BumpOnce();
        didbump := didbump + 1;
      }
    }

    /** afs_InitCBQueue on a queue nothing is on. */
    method InitCBQueue(now: nat)
      requires Valid() && forall b :: 0 <= b < CBHTSIZE ==> lists[b] == []
      modifies this, nodes
      ensures Valid() && home == old(home) && Abs() == InitQueue(old(Abs()), now)
    {
      var b := 0;
      while b < CBHTSIZE
        invariant 0 <= b <= CBHTSIZE
        invariant unchanged(this)
        invariant forall c :: 0 <= c < CBHTSIZE ==> lists[c] == [] && Ring(heads[c], lists[c])
        invariant forall i :: 0 <= i < |vcaches| ==> Placed(i)
      {
        QInit(heads[b]);
        b := b + 1;
      }
      base, basetime := 0, now;
      assert IdLists(lists) == seq(CBHTSIZE, _ => []);
    }

    /** afs_FlushCBs. */
    method FlushCBs(now: nat)
      requires Valid()
      modifies this, nodes, vcaches
      ensures Valid() && Abs() == CallbackWheel.FlushCBs(old(Abs()), now) && Flushed(Abs(), now)
    {
      ghost var w0 := Abs();
      var i := 0;
      while i < |vcaches|
        invariant 0 <= i <= |vcaches|
        invariant Valid() && base == old(base) && basetime == old(basetime)
        invariant forall j :: 0 <= j < i ==> home[j] == -1
        invariant Abs().vols == w0.vols
        invariant forall j :: 0 <= j < |vcaches| ==>
                    vcaches[j].Value() == if j < i then w0.vcs[j].(statd := false, callback := None) else w0.vcs[j]
      {
        ghost var w := Abs();
        StaleVCacheFlags(i, false, true);
        forall j | 0 <= j < |vcaches|
          ensures vcaches[j].Value() == if j <= i then w0.vcs[j].(statd := false, callback := None) else w0.vcs[j]
        {
          assert vcaches[j].Value() == Abs().vcs[j];
          assert w.vcs[j] == if j < i then w0.vcs[j].(statd := false, callback := None) else w0.vcs[j];
        }
        i := i + 1;
      }
      forall b | 0 <= b < CBHTSIZE ensures lists[b] == [] {
        SomeHome(b);
      }
      InitCBQueue(now);
    }

    /** A bucket that is not empty is some vcache's home. */
    lemma SomeHome(b: nat)
      requires Valid() && b < CBHTSIZE
      ensures lists[b] == [] || exists i :: 0 <= i < |vcaches| && home[i] == b
    {
      assert lists[b] == [] || Member(lists[b][0], b);
    }
  }
}
