/** afs_buffer.c: the hashed, reference counted, least recently used, write-back cache of
    directory pages.  Every routine is a sequence of the steps of PoolRuns, which the buffers
    record, and so keeps the flat store or changes it in exactly the promised place. */
module BufferCache {
  import opened Basics
  import opened Seqs
  import opened PagePool
  import opened PoolRuns

  const NPB: nat := 8

  /** The part of a dcache entry the buffer package uses. */
  datatype Dcache = Dcache(index: nat, inode: nat, chunk: nat, chunkBytes: nat)

  ghost predicate HasRoom(bufs: seq<Buffer>, max: nat)
  {
    (exists i :: 0 <= i < |bufs| && bufs[i].lockers == 0) || |bufs| + NPB <= max
  }

  /** The state is the one that the recorded steps lead to. */
  ghost predicate Recorded(start: PS, ops: seq<Op>, s: PS)
  {
    LegalRun(start, ops) && Run(start, ops) == s
  }

  lemma RecordedThen(start: PS, ops: seq<Op>, s: PS, op: Op)
    requires Recorded(start, ops, s) && Legal(s, op)
    ensures Recorded(start, ops + [op], Apply(s, op))
  {
    RunThen(start, ops, op);
  }

  /** From state a, with the steps so far, one step more leads to state b. */
  ghost predicate Stepped(a: PS, ops: seq<Op>, op: Op, b: PS, now: seq<Op>)
  {
    Legal(a, op) && b == Apply(a, op) && now == ops + [op]
  }

  predicate IsQuiet(op: Op)
  {
    !op.New? && !op.Store? && !op.Zap?
  }

  /** Some steps more, none of which changes a page. */
  ghost predicate Quietly(ops: seq<Op>, now: seq<Op>)
  {
    ops <= now && forall i :: |ops| <= i < |now| ==> IsQuiet(now[i])
  }

  lemma QuietlyOn(a: seq<Op>, b: seq<Op>, c: seq<Op>)
    requires Quietly(a, b) && Quietly(b, c)
    ensures Quietly(a, c)
  {
  }

  /** Quiet steps leave the store as it was. */
  lemma {:induction false} QuietStore(start: PS, ops: seq<Op>, s: PS, now: seq<Op>, r: PS)
    requires Recorded(start, ops, s) && Inv(s) && Recorded(start, now, r) && Quietly(ops, now)
    ensures Inv(r) && StoreOf(r.p) == StoreOf(s.p) && r.p.files == s.p.files
    decreases |now|
  {
    if |ops| == |now| {
      assert ops == now;
    } else {
      var n := |now| - 1;
      var m := Run(start, now[..n]);
      QuietStore(start, ops, s, now[..n], m);
      QuietStep(m, now[n]);
    }
  }

  lemma SoundRun(start: PS, ops: seq<Op>, s: PS)
    requires Inv(start) && Recorded(start, ops, s)
    ensures Inv(s)
  {
    RunRefines(start, ops);
  }

  lemma QuietRun(start: PS, ops: seq<Op>, s: PS, now: seq<Op>, r: PS)
    requires Inv(start) && Recorded(start, ops, s) && Recorded(start, now, r) && Quietly(ops, now)
    ensures StoreOf(r.p) == StoreOf(s.p)
  {
    SoundRun(start, ops, s);
    QuietStore(start, ops, s, now, r);
  }

  lemma QuietStep(s: PS, op: Op)
    requires Inv(s) && Legal(s, op) && IsQuiet(op)
    ensures var r := Apply(s, op); Inv(r) && StoreOf(r.p) == StoreOf(s.p) && r.p.files == s.p.files
  {
    StepRefines(s, op);
  }

  lemma StoreViews(a: Pool, b: Pool, f: nat, q: int)
    requires StoreOf(b) == StoreOf(a)
    ensures View(b, f, q) == View(a, f, q)
  {
    assert StoreOf(b)[Key(f, q)] == StoreOf(a)[Key(f, q)];
  }

  /** A page that DNew has made can be read as long as nobody zaps or overwrites it, however often its
      buffer is flushed, given away and claimed again: it is cached, or on disk and within the length
      that DNew has left the directory with. */
  lemma NewReadable(s: PS, op: Op, ops: seq<Op>, bytes: nat)
    requires Inv(s) && op.New? && Legal(s, op) && op.q >= 0 && bytes >= (op.q + 1) * 2048
    requires LegalRun(Apply(s, op), ops) && Spares(Names(Apply(s, op), ops), Key(op.f, op.q))
    ensures var r := Run(Apply(s, op), ops).p;
            && View(r, op.f, op.q) == Some(ZeroPage()) && op.f in r.files && 0 <= op.q * 2048 < bytes
            && (Cached(r, op.f, op.q) || DiskAt(r, r.files[op.f], op.q) == Some(ZeroPage()))
  {
    var t := Apply(s, op);
    StepRefines(s, op);
    assert At(FlatOf(t.p).store, Key(op.f, op.q)) == View(t.p, op.f, op.q);
    NoLostStore(t, ops, op.f, op.q, ZeroPage());
    RunRefines(t, ops);
    var r := Run(t, ops).p;
    if !Cached(r, op.f, op.q) {
      ViewMiss(r, op.f, op.q);
    }
  }

  class DirBuffers {
    /** Buffers: afs_max_buffers slots, of which nbuffers are in use. */
    const buffers: array<Buffer>
    var nbuffers: nat
    /** phTable, with each chain as the sequence met along hashNext. */
    var phTable: seq<seq<nat>>
    var timecounter: int
    /** The cache files, by inode and page, and the inode of each cache slot. */
    var disk: map<(nat, int), Page>
    ghost const files: map<nat, nat>
    /** Buffers a holder has stored into and not yet released dirty. */
    ghost var pending: set<nat>
    /** A DRead that waits for a buffer's lock. */
    ghost var waiting: Option<Want>
    /** The steps taken since the start. */
    ghost const start: PS
    ghost var ops: seq<Op>
    /** timecounter has passed its largest value since the access times last restarted. */
    ghost var wrapped: bool

    ghost function P(): (p: Pool)
      requires nbuffers <= buffers.Length
      reads this, buffers
    {
      Pool(buffers[..nbuffers], phTable, disk, files)
    }

    ghost function S(): (s: PS)
      requires nbuffers <= buffers.Length
      reads this, buffers
    {
      PS(P(), pending, waiting)
    }

    /** Uses are stamped in order, until timecounter wraps. */
    ghost predicate Stamping()
      reads this
    {
      && Int32(timecounter) && FreshTimes(start.p)
      && (!wrapped ==> timecounter > 0 && Rising(ops, timecounter))
    }

    ghost predicate Valid()
      reads this, buffers
    {
      nbuffers <= buffers.Length && |phTable| == PHSIZE && Inv(start) && Recorded(start, ops, S()) && Stamping()
    }

    /** Whatever steps have been taken, the invariant holds. */
    lemma Sound()
      requires Valid()
      ensures Inv(S())
    {
      SoundRun(start, ops, S());
    }

    lemma ChainIn(h: nat)
      requires Valid() && h < PHSIZE
      ensures forall j :: 0 <= j < |phTable[h]| ==> phTable[h][j] < nbuffers
    {
      Sound();
    }

    lemma DirtyIsLive(b: nat)
      requires Valid() && b < nbuffers && buffers[b].dirty
      ensures Live(buffers[b]) && !buffers[b].filling
    {
      Sound();
      assert Coherent(P(), pending, b);
    }

    lemma UnheldIs(b: nat)
      requires Valid() && b < nbuffers && buffers[b].lockers == 0 && !buffers[b].dirty
      ensures Unheld(S(), b) && Distinct(phTable[buffers[b].hashIndex])
    {
      Sound();
      assert OnChain(P(), b);
    }

    lemma KnowsInode(b: nat, adc: Dcache)
      requires Valid() && b < nbuffers && Knows(adc) && buffers[b].fid == adc.index
      ensures buffers[b].inode == adc.inode
    {
      Sound();
      assert Coherent(P(), pending, b);
    }

    lemma UnheldShows(b: nat)
      requires Valid() && b < nbuffers && buffers[b].lockers == 0
      ensures !buffers[b].filling
    {
      Sound();
    }

    lemma FillerHolds(b: nat)
      requires Valid() && b < nbuffers && buffers[b].filling
      ensures buffers[b].lockers == 1
    {
      Sound();
    }

    lemma ShowsStored(b: nat, f: nat, q: int)
      requires Valid() && b < nbuffers && Shows(buffers[b], f, q)
      ensures View(P(), f, q) == Some(buffers[b].data)
    {
      Sound();
      ViewHit(P(), pending, b);
    }

    ghost predicate Knows(adc: Dcache)
    {
      adc.index in files && files[adc.index] == adc.inode
    }

    /** DInit: room for abuffers, rounded up to a multiple of NPB, growing to four times that. */
    constructor (abuffers: nat, disk: map<(nat, int), Page>, ghost files: map<nat, nat>)
      requires forall f, g :: f in files && g in files && files[f] == files[g] ==> f == g
      ensures Valid() && this.files == files && this.disk == disk && pending == {} && waiting == None && ops == []
      ensures abuffers <= nbuffers < abuffers + NPB && nbuffers % NPB == 0 && buffers.Length == 4 * nbuffers
      ensures forall f: nat, q: int :: f in files ==> View(P(), f, q) == DiskAt(P(), files[f], q)
    {
      var n := (abuffers + (NPB - 1)) / NPB * NPB;
      buffers := new Buffer[4 * n](_ => Empty());
      nbuffers, timecounter := n, 1;
      phTable := seq(PHSIZE, _ => []);
      this.disk, this.files, pending, waiting := disk, files, {}, None;
      ops, wrapped := [], false;
      start := PS(Pool(Empties(n), seq(PHSIZE, _ => []), disk, files), {}, None);
      new;
      assert P().bufs == start.p.bufs;
    }

    /** The step that has just been taken is recorded. */
    ghost method Record(s: PS, op: Op)
      requires nbuffers <= buffers.Length && |phTable| == PHSIZE
      requires Inv(start) && Recorded(start, ops, s) && Legal(s, op) && S() == Apply(s, op)
      requires Stamping() && !IsUse(op)
      modifies this`ops
      ensures ops == old(ops) + [op] && Valid()
    {
      RecordedThen(start, ops, s, op);
      if !wrapped {
        RisingThen(ops, op, timecounter);
      }
      ops := ops + [op];
    }

    /** The same for a use of a buffer, stamped with the time before the last tick. */
    ghost method RecordUse(s: PS, op: Op, t: int)
      requires nbuffers <= buffers.Length && |phTable| == PHSIZE
      requires Inv(start) && Recorded(start, ops, s) && Legal(s, op) && S() == Apply(s, op)
      requires IsUse(op) && op.time == t && Int32(timecounter) && FreshTimes(start.p)
      requires !wrapped ==> 0 < t && timecounter == t + 1 && Rising(ops, t)
      modifies this`ops
      ensures ops == old(ops) + [op] && Valid()
    {
      RecordedThen(start, ops, s, op);
      if !wrapped {
        RisingThen(ops, op, t);
      }
      ops := ops + [op];
    }

    /** timecounter++, wrapping. */
    method Tick() returns (t: int)
      requires Int32(timecounter)
      modifies this`timecounter, this`wrapped
      ensures t == old(timecounter) && Int32(timecounter) && (old(wrapped) ==> wrapped)
      ensures !wrapped ==> timecounter == t + 1
    {
      t := timecounter;
      if t == INT32_MAX {
        timecounter, wrapped := INT32_MIN, true;
      } else {
        timecounter := t + 1;
      }
    }

    // ---------------------------------------------------------------- finding a page

    method Front(h: nat, k: nat)
      requires Valid() && waiting == None && h < PHSIZE && k < |phTable[h]|
      modifies this`phTable, this`ops
      ensures Valid() && Stepped(old(S()), old(ops), PoolRuns.Front(h, k), S(), ops)
    {
      ghost var s := S();
      phTable := phTable[h := Fronted(phTable[h], k)];
      Record(s, PoolRuns.Front(h, k));
    }

    /** The search of DRead along a chain, two links to a turn: where the page is first met. */
    method Search(s: seq<nat>, f: nat, q: int) returns (k: nat)
      requires forall j :: 0 <= j < |s| ==> s[j] < buffers.Length
      ensures k <= |s| && (k < |s| ==> Holds(buffers[s[k]], f, q))
      ensures forall j :: 0 <= j < k ==> !Holds(buffers[s[j]], f, q)
    {
      if s == [] || Holds(buffers[s[0]], f, q) {
        return 0;
      }
      k := 0;
      while k + 1 < |s|
        invariant 0 <= k < |s| && forall j :: 0 <= j <= k ==> !Holds(buffers[s[j]], f, q)
      {
        if Holds(buffers[s[k + 1]], f, q) {
          return k + 1;
        }
        if k + 2 < |s| {
          if Holds(buffers[s[k + 2]], f, q) {
            return k + 2;
          }
          k := k + 2;
        } else {
          k := k + 1;
        }
      }
      k := k + 1;
    }

    /** Looks for page q of file f on its chain, moving a hit to the front.  On a miss `last` is
        the end of the chain. */
    method Find(f: nat, q: int) returns (found: bool, b: nat, last: int)
      requires Valid() && waiting == None
      modifies this`phTable, this`ops
      ensures Valid() && Quietly(old(ops), ops) && P().bufs == old(P().bufs)
      ensures found <==> Cached(P(), f, q)
      ensures found ==> b < nbuffers && Holds(buffers[b], f, q) && [b] <= phTable[PHash(f, q)]
      ensures -1 <= last < nbuffers
    {
      var h := PHash(f, q);
      var s := phTable[h];
      ChainIn(h);
      var k := Search(s, f, q);
      FoundOnChain(f, q, k);
      found, b, last := k < |s|, 0, if s == [] then -1 else s[|s| - 1];
      if found {
        b := s[k];
        if k > 0 {
          MoveUp(h, k);
        }
      }
    }

    /** buf_Front changes nothing but the order of a chain. */
    method MoveUp(h: nat, k: nat)
      requires Valid() && waiting == None && h < PHSIZE && k < |phTable[h]|
      modifies this`phTable, this`ops
      ensures Valid() && Quietly(old(ops), ops) && P().bufs == old(P().bufs)
      ensures phTable == old(phTable)[h := Fronted(old(phTable)[h], k)]
    {
      Front(h, k);
    }

    lemma FoundOnChain(f: nat, q: int, k: nat)
      requires Valid() && k <= |phTable[PHash(f, q)]|
      requires forall j :: 0 <= j < |phTable[PHash(f, q)]| ==> phTable[PHash(f, q)][j] < nbuffers
      requires forall j :: 0 <= j < k ==> !Holds(P().bufs[phTable[PHash(f, q)][j]], f, q)
      requires k < |phTable[PHash(f, q)]| ==> Holds(P().bufs[phTable[PHash(f, q)][k]], f, q)
      ensures k < |phTable[PHash(f, q)]| <==> Cached(P(), f, q)
    {
      if k == |phTable[PHash(f, q)]| {
        Sound();
        ChainMiss(P(), f, q);
      }
    }

    /** DRead has found the page's buffer: it keeps afs_bufferLock until it gets the buffer's. */
    method MatchBuffer(b: nat, f: nat, q: int)
      requires Valid() && waiting == None && b < nbuffers && Holds(buffers[b], f, q)
      modifies this`waiting, this`ops
      ensures Valid() && Stepped(old(S()), old(ops), Match(b, f, q), S(), ops)
      ensures waiting == Some(Want(b, f, q)) && Quietly(old(ops), ops)
    {
      ghost var s := S();
      waiting := Some(Want(b, f, q));
      Record(s, Match(b, f, q));
    }

    /** It gets the lock, takes a reference, stamps the buffer and lets go of both locks. */
    method TakeBuffer(b: nat)
      requires Valid() && waiting.Some? && waiting.value.i == b && b < nbuffers && !buffers[b].filling
      modifies this`waiting, this`timecounter, this`wrapped, this`ops, buffers
      ensures Valid() && Stepped(old(S()), old(ops), Take(b, old(timecounter)), S(), ops)
      ensures waiting == None && Quietly(old(ops), ops)
      ensures P().bufs == old(P().bufs)[b := old(buffers[b]).(accesstime := old(timecounter), lockers := old(buffers[b].lockers) + 1)]
    {
      ghost var s := S();
      var t := Tick();
      buffers[b] := buffers[b].(accesstime := t, lockers := buffers[b].lockers + 1);
      waiting := None;
      assert P().bufs == s.p.bufs[b := buffers[b]];
      RecordUse(s, Take(b, t), t);
    }

    // ---------------------------------------------------------------- finding a slot

    /** Nothing but access times changes between the two buffer sequences. */
    static ghost predicate OnlyTimes(a: seq<Buffer>, b: seq<Buffer>)
    {
      |a| == |b| && forall i :: 0 <= i < |a| ==> b[i] == a[i].(accesstime := b[i].accesstime)
    }

    /** The scan of afs_newslot, starting from a hint: finds an unheld buffer if there is one, and
        the least recently used unless timecounter has wrapped; then all access times restart at
        zero and any unheld buffer will do. */
    method Victim(hint: int) returns (lp: int)
      requires Valid() && waiting == None && -1 <= hint < nbuffers
      modifies this`timecounter, this`wrapped, this`ops, buffers
      ensures Valid() && Quietly(old(ops), ops) && OnlyTimes(old(P().bufs), P().bufs) && -1 <= lp < nbuffers
      ensures lp == -1 <==> forall i :: 0 <= i < nbuffers ==> buffers[i].lockers > 0
      ensures lp >= 0 ==> buffers[lp].lockers == 0
      ensures lp >= 0 && !old(wrapped) ==> LeastUsed(old(P().bufs), old(ops), lp)
    {
      if timecounter < 0 {
        lp := RestartTimes(hint);
      } else {
        lp := Oldest(hint);
        if lp >= 0 && !wrapped {
          forall i | 0 <= i < nbuffers && P().bufs[i].lockers == 0 ensures UsedBefore(ops, lp, i) {
            LeastRecentlyUsed(start, ops, timecounter, lp, i);
          }
        }
      }
    }

    /** Every unheld buffer was used no earlier than buffer lp. */
    static predicate LeastUsed(bufs: seq<Buffer>, ops: seq<Op>, lp: nat)
    {
      forall i :: 0 <= i < |bufs| && bufs[i].lockers == 0 ==> UsedBefore(ops, lp, i)
    }

    /** Any unheld buffer, with all access times set back to zero. */
    method RestartTimes(hint: int) returns (lp: int)
      requires Valid() && waiting == None && -1 <= hint < nbuffers
      modifies this`timecounter, this`wrapped, this`ops, buffers
      ensures Valid() && Stepped(old(S()), old(ops), Restart, S(), ops) && -1 <= lp < nbuffers
      ensures OnlyTimes(old(P().bufs), P().bufs) && Quietly(old(ops), ops)
      ensures lp == -1 <==> forall i :: 0 <= i < nbuffers ==> buffers[i].lockers > 0
      ensures lp >= 0 ==> buffers[lp].lockers == 0
    {
      ghost var s := S();
      timecounter := 1;
      lp := if hint >= 0 && buffers[hint].lockers == 0 then hint else -1;
      lp := ZeroTimes(lp);
      assert P().bufs == Restarted(s.p).bufs;
      RecordRestart(s);
    }

    ghost method RecordRestart(s: PS)
      requires nbuffers <= buffers.Length && |phTable| == PHSIZE && timecounter == 1 && FreshTimes(start.p)
      requires Inv(start) && Recorded(start, ops, s) && s.waiting == None && S() == s.(p := Restarted(s.p))
      modifies this`ops, this`wrapped
      ensures ops == old(ops) + [Restart] && Valid()
    {
      RecordedRestart(start, ops, s, S());
      ops, wrapped := ops + [Restart], false;
    }

    static lemma RecordedRestart(start: PS, ops: seq<Op>, s: PS, r: PS)
      requires Recorded(start, ops, s) && s.waiting == None && r == s.(p := Restarted(s.p))
      ensures Recorded(start, ops + [Restart], r) && Rising(ops + [Restart], 1)
    {
      RecordedThen(start, ops, s, Restart);
      RestartRises(ops, 1);
    }

    method ZeroTimes(first: int) returns (lp: int)
      requires nbuffers <= buffers.Length && -1 <= first < nbuffers && (first >= 0 ==> buffers[first].lockers == 0)
      modifies buffers
      ensures forall i :: 0 <= i < nbuffers ==> buffers[i] == old(buffers[i]).(accesstime := 0)
      ensures -1 <= lp < nbuffers && (lp == -1 <==> forall i :: 0 <= i < nbuffers ==> buffers[i].lockers > 0)
      ensures lp >= 0 ==> buffers[lp].lockers == 0
    {
      lp := first;
      var i := 0;
      while i < nbuffers
        invariant 0 <= i <= nbuffers && -1 <= lp < nbuffers
        invariant forall j :: 0 <= j < nbuffers ==> buffers[j] == if j < i then old(buffers[j]).(accesstime := 0) else old(buffers[j])
        invariant lp >= 0 ==> buffers[lp].lockers == 0
        invariant lp == -1 ==> forall j :: 0 <= j < i ==> buffers[j].lockers > 0
      {
        buffers[i] := buffers[i].(accesstime := 0);
        if lp == -1 && buffers[i].lockers == 0 {
          lp := i;
        }
        i := i + 1;
      }
    }

    /** The unheld buffer with the lowest access time. */
    method Oldest(hint: int) returns (lp: int)
      requires nbuffers <= buffers.Length && -1 <= hint < nbuffers
      ensures -1 <= lp < nbuffers
      ensures lp == -1 <==> forall i :: 0 <= i < nbuffers ==> buffers[i].lockers > 0
      ensures lp >= 0 ==> buffers[lp].lockers == 0
      ensures lp >= 0 ==>
                forall i :: 0 <= i < nbuffers && buffers[i].lockers == 0 ==> buffers[lp].accesstime <= buffers[i].accesstime
    {
      lp := -1;
      var lt := 0;
      if hint >= 0 && buffers[hint].lockers == 0 {
        lp, lt := hint, buffers[hint].accesstime;
      }
      var i := 0;
      while i < nbuffers
        invariant 0 <= i <= nbuffers && -1 <= lp < nbuffers
        invariant lp >= 0 ==> buffers[lp].lockers == 0 && lt == buffers[lp].accesstime
        invariant forall j :: 0 <= j < i && buffers[j].lockers == 0 ==> lp >= 0 && lt <= buffers[j].accesstime
      {
        if buffers[i].lockers == 0 {
          if lp == -1 || buffers[i].accesstime < lt {
            lp, lt := i, buffers[i].accesstime;
          }
        }
        i := i + 1;
      }
    }

    /** Adds NPB fresh buffers. */
    method Grow()
      requires Valid() && waiting == None && nbuffers + NPB <= buffers.Length
      modifies this`nbuffers, this`ops, buffers
      ensures Valid() && Stepped(old(S()), old(ops), PoolRuns.Grow(NPB), S(), ops)
    {
      ghost var s := S();
      EmptySlots();
      nbuffers := nbuffers + NPB;
      assert P().bufs == Grown(s.p, NPB).bufs;
      Record(s, PoolRuns.Grow(NPB));
    }

    method EmptySlots()
      requires nbuffers + NPB <= buffers.Length
      modifies buffers
      ensures forall j :: 0 <= j < nbuffers ==> buffers[j] == old(buffers[j])
      ensures forall j :: nbuffers <= j < nbuffers + NPB ==> buffers[j] == Empty()
    {
      var i := 0;
      while i < NPB
        invariant 0 <= i <= NPB
        invariant forall j :: 0 <= j < nbuffers ==> buffers[j] == old(buffers[j])
        invariant forall j :: nbuffers <= j < nbuffers + i ==> buffers[j] == Empty()
      {
        buffers[nbuffers + i] := Empty();
        i := i + 1;
      }
    }

    /** DFlushBuffer. */
    method FlushBuffer(b: nat)
      requires Valid() && b < nbuffers && Live(buffers[b]) && !buffers[b].filling
      modifies this`disk, this`ops, buffers
      ensures Valid() && Stepped(old(S()), old(ops), Flush(b), S(), ops)
    {
      ghost var s := S();
      disk := disk[(buffers[b].inode, buffers[b].page) := buffers[b].data];
      buffers[b] := buffers[b].(dirty := false);
      assert P().bufs == Flushed(s.p, b).bufs;
      Record(s, Flush(b));
    }

    /** Writes buffer lp out if it is dirty. */
    method Clean(lp: nat)
      requires Valid() && lp < nbuffers
      modifies this`disk, this`ops, buffers
      ensures Valid() && Quietly(old(ops), ops)
      ensures P().bufs == old(P().bufs)[lp := old(buffers[lp]).(dirty := false)]
    {
      if buffers[lp].dirty {
        DirtyIsLive(lp);
        FlushBuffer(lp);
      } else {
        assert P().bufs == P().bufs[lp := buffers[lp].(dirty := false)];
      }
    }

    /** Every buffer is as before, up to access times; any further ones are fresh. */
    static ghost predicate Same(before: seq<Buffer>, after: seq<Buffer>)
    {
      && |before| <= |after|
      && (forall i :: 0 <= i < |before| ==> after[i] == before[i].(accesstime := after[i].accesstime))
      && (forall i :: |before| <= i < |after| ==> after[i] == Empty())
    }

    /** A buffer nobody holds, growing the pool if it must; -1 when it cannot. */
    method FreeSlot(hint: int) returns (lp: int)
      requires Valid() && waiting == None && -1 <= hint < nbuffers
      modifies this`nbuffers, this`timecounter, this`wrapped, this`ops, buffers
      ensures Valid() && Quietly(old(ops), ops) && Same(old(P().bufs), P().bufs) && -1 <= lp < nbuffers
      ensures lp == -1 <==> !HasRoom(old(P().bufs), buffers.Length)
      ensures lp >= 0 ==> buffers[lp].lockers == 0
      ensures 0 <= lp < old(nbuffers) && !old(wrapped) ==> LeastUsed(old(P().bufs), old(ops), lp)
    {
      ghost var before, was := P().bufs, ops;
      lp := Victim(hint);
      ghost var mid, now := P().bufs, ops;
      SameRoom(before, mid, buffers.Length);
      SameGrown(before, mid, 0);
      if lp == -1 && nbuffers + NPB <= buffers.Length {
        lp := nbuffers;
        GrowQuietly();
        SameGrown(before, mid, NPB);
        QuietlyOn(was, now, ops);
      }
    }

    static lemma SameGrown(before: seq<Buffer>, mid: seq<Buffer>, n: nat)
      requires OnlyTimes(before, mid)
      ensures Same(before, mid + Empties(n)) && (n == 0 ==> Same(before, mid))
    {
    }

    static lemma SameRoom(before: seq<Buffer>, after: seq<Buffer>, max: nat)
      requires OnlyTimes(before, after)
      ensures HasRoom(before, max) <==> HasRoom(after, max)
      ensures forall i :: 0 <= i < |before| ==> before[i].lockers == after[i].lockers
    {
      if i :| 0 <= i < |before| && before[i].lockers == 0 {
        assert after[i].lockers == 0;
      }
      if i :| 0 <= i < |after| && after[i].lockers == 0 {
        assert before[i].lockers == 0;
      }
    }

    method GrowQuietly()
      requires Valid() && waiting == None && nbuffers + NPB <= buffers.Length
      modifies this`nbuffers, this`ops, buffers
      ensures Valid() && Quietly(old(ops), ops)
      ensures nbuffers == old(nbuffers) + NPB && P().bufs == old(P().bufs) + Empties(NPB)
    {
      ghost var p := P();
      Grow();
      assert P() == Grown(p, NPB);
    }

    /** The first half of FixupBucket: takes b off the chain it remembers, if it is there. */
    method Unchain(b: nat)
      requires b < buffers.Length && buffers[b].hashIndex < |phTable| && Distinct(phTable[buffers[b].hashIndex])
      modifies this`phTable
      ensures var h := buffers[b].hashIndex; phTable == old(phTable)[h := Without(old(phTable[h]), b)]
    {
      var h := buffers[b].hashIndex;
      var s := phTable[h];
      var k := 0;
      while k < |s| && s[k] != b
        invariant 0 <= k <= |s| && b !in s[..k]
      {
        k := k + 1;
      }
      if k < |s| {
        WithoutOne(s, k);
        phTable := phTable[h := s[..k] + s[k + 1..]];
      } else {
        WithoutAbsent(s, b);
      }
    }

    /** The end of afs_newslot: the header of buffer b is filled in for page q of file f, the
        data zeroed, and the buffer moved to the right hash bucket. */
    method Refile(b: nat, f: nat, inode: nat, q: int) returns (t: int)
      requires nbuffers <= buffers.Length && Int32(timecounter) && b < nbuffers && |phTable| == PHSIZE
      requires buffers[b].hashIndex < PHSIZE && Distinct(phTable[buffers[b].hashIndex])
      modifies this`phTable, this`timecounter, this`wrapped, buffers
      ensures P() == Refiled(old(P()), b, f, inode, q, t)
      ensures t == old(timecounter) && Int32(timecounter) && (old(wrapped) ==> wrapped) && (!wrapped ==> timecounter == t + 1)
    {
      ghost var p := P();
      t := Tick();
      Unchain(b);
      var h := PHash(f, q);
      phTable := phTable[h := [b] + phTable[h]];
      buffers[b] := buffers[b].(fid := f, inode := inode, page := q, accesstime := t, hashIndex := h, data := ZeroPage(),
                                filling := true);
      assert P().bufs == Refiled(p, b, f, inode, q, t).bufs;
    }

    /** afs_newslot's buffer, claimed by a DRead: it has the buffer's lock and the first reference,
        and lets go of afs_bufferLock. */
    method ClaimSlot(b: nat, adc: Dcache, q: int)
      requires Valid() && waiting == None && Knows(adc) && b < nbuffers && !Cached(P(), adc.index, q)
      requires buffers[b].lockers == 0 && !buffers[b].dirty
      modifies this`phTable, this`timecounter, this`wrapped, this`ops, buffers
      ensures Valid() && Stepped(old(S()), old(ops), Claim(b, adc.index, q, old(timecounter)), S(), ops)
    {
      ghost var s := S();
      UnheldIs(b);
      var t := Refile(b, adc.index, adc.inode, q);
      ghost var r := P();
      buffers[b] := buffers[b].(lockers := buffers[b].lockers + 1);
      assert P().bufs == r.bufs[b := buffers[b]];
      RecordUse(s, Claim(b, adc.index, q, t), t);
    }

    /** afs_newslot's buffer, taken by DNew as it is. */
    method TakeNew(b: nat, adc: Dcache, q: int)
      requires Valid() && waiting == None && Knows(adc) && b < nbuffers && !Cached(P(), adc.index, q)
      requires buffers[b].lockers == 0 && !buffers[b].dirty
      modifies this`phTable, this`timecounter, this`wrapped, this`pending, this`ops, buffers
      ensures Valid() && Stepped(old(S()), old(ops), New(b, adc.index, q, old(timecounter)), S(), ops)
    {
      ghost var s := S();
      UnheldIs(b);
      var t := Refile(b, adc.index, adc.inode, q);
      ghost var r := P();
      buffers[b] := buffers[b].(lockers := buffers[b].lockers + 1, filling := false);
      pending := pending + {b};
      assert P().bufs == r.bufs[b := buffers[b]];
      RecordUse(s, New(b, adc.index, q, t), t);
    }

    /** Whether a page is cached depends on the live headers only. */
    static lemma SameCached(before: seq<Buffer>, p: Pool, f: nat, q: int)
      requires Same(before, p.bufs) && forall i :: 0 <= i < |before| ==> !Holds(before[i], f, q)
      ensures !Cached(p, f, q) && GainsOne(before, p.bufs, -1)
    {
    }

    static lemma CleanCached(mid: seq<Buffer>, p: Pool, lp: nat, f: nat, q: int)
      requires lp < |mid| && p.bufs == mid[lp := mid[lp].(dirty := false)] && forall i :: 0 <= i < |mid| ==> !Holds(mid[i], f, q)
      ensures !Cached(p, f, q) && forall i :: 0 <= i < |mid| ==> p.bufs[i].lockers == mid[i].lockers
    {
    }

    /** Reference counts: b gains one, the others keep theirs, fresh buffers have none. */
    static ghost predicate GainsOne(before: seq<Buffer>, after: seq<Buffer>, b: int)
    {
      && |before| <= |after|
      && (forall i :: 0 <= i < |before| ==> after[i].lockers == before[i].lockers + (if i == b then 1 else 0))
      && (forall i :: |before| <= i < |after| ==> after[i].lockers == if i == b then 1 else 0)
    }

    /** afs_newslot up to the header: a clean buffer that nobody holds, or -1 when all are held and
        the pool is full.  A dirty victim is written out. */
    method FindSlot(f: nat, q: int, hint: int) returns (lp: int)
      requires Valid() && waiting == None && !Cached(P(), f, q) && -1 <= hint < nbuffers
      modifies this`nbuffers, this`timecounter, this`wrapped, this`disk, this`ops, buffers
      ensures Valid() && Quietly(old(ops), ops) && -1 <= lp < nbuffers && !Cached(P(), f, q)
      ensures lp == -1 <==> !HasRoom(old(P().bufs), buffers.Length)
      ensures lp == -1 <==> (forall i :: 0 <= i < old(nbuffers) ==> old(P().bufs)[i].lockers > 0) && old(nbuffers) + 8 > buffers.Length
      ensures GainsOne(old(P().bufs), P().bufs, -1)
      ensures lp >= 0 ==> buffers[lp].lockers == 0 && !buffers[lp].dirty
    {
      ghost var before, was := P().bufs, ops;
      lp := FreeSlot(hint);
      ghost var mid, now := P().bufs, ops;
      SameCached(before, P(), f, q);
      if lp >= 0 {
        Clean(lp);
        QuietlyOn(was, now, ops);
        CleanCached(mid, P(), lp, f, q);
      }
    }

    // ---------------------------------------------------------------- DRead

    /** A page not cached: a buffer claimed for it, or no room. */
    method ReadMiss(adc: Dcache, q: int, hint: int) returns (code: int, b: nat)
      requires Valid() && waiting == None && Knows(adc) && !Cached(P(), adc.index, q) && -1 <= hint < nbuffers
      modifies this`nbuffers, this`phTable, this`timecounter, this`wrapped, this`disk, this`ops, buffers
      ensures Valid() && Quietly(old(ops), ops)
      ensures code == if HasRoom(old(P().bufs), buffers.Length) then 0 else EIO
      ensures GainsOne(old(P().bufs), P().bufs, if code == 0 then b else -1)
      ensures code == 0 ==> b < nbuffers && Holds(buffers[b], adc.index, q) && buffers[b].filling && buffers[b].lockers == 1
    {
      ghost var before, was := P().bufs, ops;
      var lp := FindSlot(adc.index, q, hint);
      code, b := EIO, 0;
      if lp >= 0 {
        code, b := 0, lp;
        ghost var mid, now := P().bufs, ops;
        Claimed(b, adc, q);
        QuietlyOn(was, now, ops);
        GainsMore(before, mid, P().bufs, b);
      }
    }

    static lemma GainsMore(before: seq<Buffer>, mid: seq<Buffer>, after: seq<Buffer>, b: nat)
      requires GainsOne(before, mid, -1) && b < |mid| == |after| && mid[b].lockers == 0 && after[b].lockers == 1
      requires forall i :: 0 <= i < |mid| && i != b ==> after[i] == mid[i]
      ensures GainsOne(before, after, b)
    {
    }

    method Claimed(b: nat, adc: Dcache, q: int)
      requires Valid() && waiting == None && Knows(adc) && b < nbuffers && !Cached(P(), adc.index, q)
      requires buffers[b].lockers == 0 && !buffers[b].dirty
      modifies this`phTable, this`timecounter, this`wrapped, this`ops, buffers
      ensures Valid() && Quietly(old(ops), ops) && |P().bufs| == |old(P().bufs)|
      ensures forall i :: 0 <= i < nbuffers && i != b ==> P().bufs[i] == old(P().bufs)[i]
      ensures Holds(P().bufs[b], adc.index, q) && P().bufs[b].filling && P().bufs[b].lockers == 1
    {
      ClaimSlot(b, adc, q);
    }

    /** The page has been read into the buffer. */
    method ReadIn(b: nat)
      requires Valid() && b < nbuffers && buffers[b].filling && (buffers[b].inode, buffers[b].page) in disk
      modifies this`ops, buffers
      ensures Valid() && Stepped(old(S()), old(ops), Read(b), S(), ops) && Quietly(old(ops), ops)
      ensures var f := old(buffers[b]);
              P().bufs == old(P().bufs)[b := f.(data := disk[(f.inode, f.page)], filling := false)]
    {
      ghost var s := S();
      buffers[b] := buffers[b].(data := disk[(buffers[b].inode, buffers[b].page)], filling := false);
      assert P().bufs == s.p.bufs[b := buffers[b]];
      Record(s, Read(b));
    }

    /** The page cannot be read: the buffer forgets it and loses its only reference. */
    method Abandon(b: nat)
      requires Valid() && b < nbuffers && buffers[b].filling
      modifies this`ops, buffers
      ensures Valid() && Stepped(old(S()), old(ops), Fail(b), S(), ops) && Quietly(old(ops), ops)
      ensures P().bufs == old(P().bufs)[b := old(buffers[b]).(fid := NULLIDX, inode := 0, dirty := false, filling := false, lockers := 0)]
    {
      ghost var s := S();
      FillerHolds(b);
      buffers[b] := buffers[b].(fid := NULLIDX, inode := 0, dirty := false, filling := false, lockers := buffers[b].lockers - 1);
      assert P().bufs == s.p.bufs[b := buffers[b]];
      Record(s, Fail(b));
    }

    /** All but buffer b are as they were. */
    static ghost predicate AllBut(before: seq<Buffer>, after: seq<Buffer>, b: nat)
    {
      |after| == |before| && forall i :: 0 <= i < |before| && i != b ==> after[i] == before[i]
    }

    /** The rest of DRead once a buffer is claimed and afs_bufferLock released: the page is read in
        or the buffer given up. */
    method Fill(adc: Dcache, q: int, b: nat) returns (code: int)
      requires Valid() && Knows(adc) && b < nbuffers && Holds(buffers[b], adc.index, q) && buffers[b].filling
      modifies this`ops, buffers
      ensures Valid() && Quietly(old(ops), ops) && code in {0, ENOENT, EIO}
      ensures code == 0 <==> !(adc.chunk == 0 && adc.chunkBytes == 0) && q * 2048 < adc.chunkBytes && (adc.inode, q) in disk
      ensures code == ENOENT <==> !(adc.chunk == 0 && adc.chunkBytes == 0) && q * 2048 >= adc.chunkBytes
      ensures AllBut(old(P().bufs), P().bufs, b)
      ensures code == 0 ==> (adc.inode, q) in disk && IsFilled(P().bufs[b], adc.index, q, disk[(adc.inode, q)])
      ensures code != 0 ==> IsGivenUp(P().bufs[b])
    {
      KnowsInode(b, adc);
      code := 0;
      if adc.chunk == 0 && adc.chunkBytes == 0 {
        code := EIO;
      } else if q * AFS_BUFFER_PAGESIZE >= adc.chunkBytes {
        code := ENOENT;
      }
      if code != 0 {
        GiveUp(b);
      } else if (adc.inode, q) !in disk {
        GiveUp(b);
        code := EIO;
      } else {
        FillIn(b, adc.index, q);
      }
    }

    static predicate IsFilled(b: Buffer, f: nat, q: int, d: Page)
    {
      Shows(b, f, q) && b.lockers == 1 && b.data == d
    }

    static predicate IsGivenUp(b: Buffer)
    {
      !Live(b) && b.lockers == 0
    }

    method FillIn(b: nat, f: nat, q: int)
      requires Valid() && b < nbuffers && Holds(buffers[b], f, q) && buffers[b].filling && (buffers[b].inode, q) in disk
      modifies this`ops, buffers
      ensures Valid() && Quietly(old(ops), ops) && AllBut(old(P().bufs), P().bufs, b)
      ensures IsFilled(P().bufs[b], f, q, disk[(old(buffers[b]).inode, q)])
    {
      FillerHolds(b);
      ReadIn(b);
    }

    method GiveUp(b: nat)
      requires Valid() && b < nbuffers && buffers[b].filling
      modifies this`ops, buffers
      ensures Valid() && Quietly(old(ops), ops) && AllBut(old(P().bufs), P().bufs, b) && IsGivenUp(P().bufs[b])
    {
      Abandon(b);
    }

    /** A cached page whose buffer nobody is filling. */
    method ReadHit(b: nat, f: nat, q: int)
      requires Valid() && waiting == None && b < nbuffers && Shows(buffers[b], f, q)
      modifies this`waiting, this`timecounter, this`wrapped, this`ops, buffers
      ensures Valid() && Quietly(old(ops), ops) && waiting == None
      ensures P().bufs == old(P().bufs)[b := old(buffers[b]).(accesstime := old(timecounter), lockers := old(buffers[b].lockers) + 1)]
    {
      ghost var was := ops;
      MatchBuffer(b, f, q);
      ghost var now := ops;
      TakeBuffer(b);
      QuietlyOn(was, now, ops);
    }

    /** The store is what it was. */
    static ghost predicate KeptStore(p: Pool, r: Pool)
    {
      StoreOf(r) == StoreOf(p)
    }

    /** Reading in a page that is not cached, without interruption. */
    method ReadUncached(adc: Dcache, q: int, hint: int) returns (code: int, b: nat)
      requires Valid() && waiting == None && Knows(adc) && !Cached(P(), adc.index, q) && -1 <= hint < nbuffers
      modifies this`nbuffers, this`phTable, this`timecounter, this`wrapped, this`disk, this`ops, buffers
      ensures Valid() && Quietly(old(ops), ops)
      ensures code in {0, ENOENT, EIO}
      ensures code == 0 <==> HasRoom(old(P().bufs), buffers.Length) && !(adc.chunk == 0 && adc.chunkBytes == 0)
                             && q * 2048 < adc.chunkBytes && (adc.inode, q) in old(disk)
      ensures code == ENOENT <==> HasRoom(old(P().bufs), buffers.Length) && !(adc.chunk == 0 && adc.chunkBytes == 0)
                                  && q * 2048 >= adc.chunkBytes
      ensures GainsOne(old(P().bufs), P().bufs, if code == 0 then b else -1)
      ensures code == 0 ==> b < nbuffers && Shows(buffers[b], adc.index, q)
    {
      ghost var s, was := S(), ops;
      code, b := ReadMiss(adc, q, hint);
      if code == 0 {
        ghost var m, now := S(), ops;
        StillOnDisk(start, was, s, now, m, adc.index, q, b);
        code := Fill(adc, q, b);
        QuietlyOn(was, now, ops);
        Filled(s.p.bufs, m.p.bufs, P().bufs, b, code);
      }
    }

    /** Finding a buffer for the page has not changed what the disk has of it. */
    static lemma StillOnDisk(start: PS, ops: seq<Op>, s: PS, now: seq<Op>, r: PS, f: nat, q: int, b: nat)
      requires Inv(start) && Recorded(start, ops, s) && Recorded(start, now, r) && Quietly(ops, now)
      requires f in s.p.files && !Cached(s.p, f, q) && b < |r.p.bufs| && Holds(r.p.bufs[b], f, q) && r.p.bufs[b].filling
      ensures (s.p.files[f], q) in s.p.disk <==> (s.p.files[f], q) in r.p.disk
    {
      SoundRun(start, ops, s);
      QuietStore(start, ops, s, now, r);
      StoreViews(s.p, r.p, f, q);
      ViewMiss(s.p, f, q);
      ViewFilling(r.p, r.pending, b);
      assert Coherent(r.p, r.pending, b);
    }

    static lemma Filled(before: seq<Buffer>, mid: seq<Buffer>, after: seq<Buffer>, b: nat, code: int)
      requires GainsOne(before, mid, b) && b < |mid| == |after| && after[b].lockers == (if code == 0 then 1 else 0)
      requires forall i :: 0 <= i < |mid| && i != b ==> after[i] == mid[i]
      requires b < |before| ==> before[b].lockers == 0
      ensures GainsOne(before, after, if code == 0 then b else -1)
    {
    }

    /** DRead up to where it first lets go of afs_bufferLock or waits for a buffer, in any state:
        it waits for the page's buffer, whoever is filling that, or has claimed one for the page,
        or there is no room. */
    method BeginRead(adc: Dcache, q: int) returns (code: int, b: nat)
      requires Valid() && waiting == None && Knows(adc)
      modifies this`nbuffers, this`phTable, this`timecounter, this`wrapped, this`disk, this`waiting, this`ops, buffers
      ensures Valid() && Quietly(old(ops), ops)
      ensures Cached(old(P()), adc.index, q) ==>
                && code == 0 && waiting == Some(Want(b, adc.index, q)) && P().bufs == old(P().bufs)
                && b < nbuffers && Holds(buffers[b], adc.index, q)
      ensures !Cached(old(P()), adc.index, q) ==>
                && waiting == None && code == (if HasRoom(old(P().bufs), buffers.Length) then 0 else EIO)
                && GainsOne(old(P().bufs), P().bufs, if code == 0 then b else -1)
                && (code == 0 ==> b < nbuffers && Holds(buffers[b], adc.index, q) && buffers[b].filling && buffers[b].lockers == 1)
    {
      ghost var was := ops;
      var found, tb, last := Find(adc.index, q);
      ghost var now := ops;
      if found {
        code, b := 0, tb;
        MatchBuffer(b, adc.index, q);
      } else {
        code, b := ReadMiss(adc, q, last);
      }
      QuietlyOn(was, now, ops);
    }

    /** DRead, when nobody is just filling the page's buffer: on success the caller holds a buffer
        with the page's current contents; success and failure alike leave the store as it was. */
    method DRead(adc: Dcache, q: int) returns (code: int, b: nat)
      requires Valid() && waiting == None && Knows(adc)
      requires forall i :: 0 <= i < nbuffers && Holds(buffers[i], adc.index, q) ==> !buffers[i].filling
      modifies this`nbuffers, this`phTable, this`timecounter, this`wrapped, this`disk, this`waiting, this`ops, buffers
      ensures Valid() && waiting == None && Quietly(old(ops), ops) && KeptStore(old(P()), P())
      ensures code in {0, ENOENT, EIO}
      ensures code == 0 <==> || Cached(old(P()), adc.index, q)
                             || (&& HasRoom(old(P().bufs), buffers.Length) && !(adc.chunk == 0 && adc.chunkBytes == 0)
                                 && q * 2048 < adc.chunkBytes && (adc.inode, q) in old(disk))
      ensures code == ENOENT <==> && !Cached(old(P()), adc.index, q) && HasRoom(old(P().bufs), buffers.Length)
                                  && !(adc.chunk == 0 && adc.chunkBytes == 0) && q * 2048 >= adc.chunkBytes
      ensures GainsOne(old(P().bufs), P().bufs, if code == 0 then b else -1)
      ensures code == 0 ==> b < nbuffers && Shows(buffers[b], adc.index, q) && View(old(P()), adc.index, q) == Some(buffers[b].data)
      ensures View(old(P()), adc.index, q).Some? && 0 <= q * 2048 < adc.chunkBytes && HasRoom(old(P().bufs), buffers.Length) ==> code == 0
    {
      ghost var s, was := S(), ops;
      code, b := ReadPage(adc, q);
      QuietRun(start, was, s, ops, S());
      if code == 0 {
        ShowsStored(b, adc.index, q);
        StoreViews(s.p, P(), adc.index, q);
      }
    }

    method ReadPage(adc: Dcache, q: int) returns (code: int, b: nat)
      requires Valid() && waiting == None && Knows(adc)
      requires forall i :: 0 <= i < nbuffers && Holds(buffers[i], adc.index, q) ==> !buffers[i].filling
      modifies this`nbuffers, this`phTable, this`timecounter, this`wrapped, this`disk, this`waiting, this`ops, buffers
      ensures Valid() && waiting == None && Quietly(old(ops), ops)
      ensures code in {0, ENOENT, EIO}
      ensures code == 0 <==> || Cached(old(P()), adc.index, q)
                             || (&& HasRoom(old(P().bufs), buffers.Length) && !(adc.chunk == 0 && adc.chunkBytes == 0)
                                 && q * 2048 < adc.chunkBytes && (adc.inode, q) in old(disk))
      ensures code == ENOENT <==> && !Cached(old(P()), adc.index, q) && HasRoom(old(P().bufs), buffers.Length)
                                  && !(adc.chunk == 0 && adc.chunkBytes == 0) && q * 2048 >= adc.chunkBytes
      ensures GainsOne(old(P().bufs), P().bufs, if code == 0 then b else -1)
      ensures code == 0 ==> b < nbuffers && Shows(buffers[b], adc.index, q)
    {
      ghost var was := ops;
      var found, tb, last := Find(adc.index, q);
      ghost var now := ops;
      if found {
        code, b := 0, tb;
        ReadHit(b, adc.index, q);
      } else {
        code, b := ReadUncached(adc, q, last);
      }
      QuietlyOn(was, now, ops);
    }

    // ---------------------------------------------------------------- the other routines

    /** DNew: the caller holds a zeroed buffer for a page that had none, and has yet to release
        it dirty; the directory's length grows to cover the page. */
    method DNew(adc: Dcache, q: nat) returns (code: int, b: nat, chunkBytes: nat)
      requires Valid() && waiting == None && Knows(adc) && !Cached(P(), adc.index, q)
      modifies this`nbuffers, this`phTable, this`timecounter, this`wrapped, this`disk, this`pending, this`ops, buffers
      ensures Valid() && code == if HasRoom(old(P().bufs), buffers.Length) then 0 else EIO
      ensures GainsOne(old(P().bufs), P().bufs, if code == 0 then b else -1)
      ensures code == 0 ==> b < nbuffers && Shows(buffers[b], adc.index, q) && buffers[b].data == ZeroPage() && pending == old(pending) + {b}
      ensures code == 0 ==> StoreOf(P()) == old(StoreOf(P()))[Key(adc.index, q) := Some(ZeroPage())]
      ensures code == 0 ==> chunkBytes == if (q + 1) * AFS_BUFFER_PAGESIZE > adc.chunkBytes then (q + 1) * AFS_BUFFER_PAGESIZE
                                          else adc.chunkBytes
      ensures code != 0 ==> KeptStore(old(P()), P()) && pending == old(pending) && chunkBytes == adc.chunkBytes
    {
      ghost var s, was := S(), ops;
      code, b, chunkBytes := 0, 0, adc.chunkBytes;
      var lp := FindSlot(adc.index, q, -1);
      QuietRun(start, was, s, ops, S());
      if lp == -1 {
        code := EIO;
        return;
      }
      b := lp;
      if (q + 1) * AFS_BUFFER_PAGESIZE > chunkBytes {
        chunkBytes := (q + 1) * AFS_BUFFER_PAGESIZE;
      }
      ghost var mid := P().bufs;
      NewPage(b, adc, q);
      GainsMore(s.p.bufs, mid, P().bufs, b);
    }

    method NewPage(b: nat, adc: Dcache, q: int)
      requires Valid() && waiting == None && Knows(adc) && b < nbuffers && !Cached(P(), adc.index, q)
      requires buffers[b].lockers == 0 && !buffers[b].dirty
      modifies this`phTable, this`timecounter, this`wrapped, this`pending, this`ops, buffers
      ensures Valid() && pending == old(pending) + {b} && |P().bufs| == |old(P().bufs)|
      ensures StoreOf(P()) == old(StoreOf(P()))[Key(adc.index, q) := Some(ZeroPage())]
      ensures forall i :: 0 <= i < nbuffers && i != b ==> P().bufs[i] == old(P().bufs)[i]
      ensures Shows(P().bufs[b], adc.index, q) && P().bufs[b].lockers == 1 && P().bufs[b].data == ZeroPage()
    {
      ghost var s, was, t := S(), ops, timecounter;
      TakeNew(b, adc, q);
      NewStored(start, was, s, New(b, adc.index, q, t));
      NewEffect(s, New(b, adc.index, q, t));
    }

    static lemma NewEffect(s: PS, op: Op)
      requires op.New? && Legal(s, op)
      ensures var r := Apply(s, op).p.bufs;
              && |r| == |s.p.bufs| && (forall i :: 0 <= i < |r| && i != op.i ==> r[i] == s.p.bufs[i])
              && Shows(r[op.i], op.f, op.q) && r[op.i].lockers == 1 && r[op.i].data == ZeroPage()
    {
    }

    static lemma NewStored(start: PS, ops: seq<Op>, s: PS, op: Op)
      requires Inv(start) && Recorded(start, ops, s) && op.New? && Legal(s, op)
      ensures StoreOf(Apply(s, op).p) == StoreOf(s.p)[Key(op.f, op.q) := Some(ZeroPage())]
    {
      SoundRun(start, ops, s);
      StepRefines(s, op);
    }

    static lemma DataStored(start: PS, ops: seq<Op>, s: PS, op: Op, f: nat, q: int)
      requires Inv(start) && Recorded(start, ops, s) && op.Store? && Legal(s, op) && Holds(s.p.bufs[op.i], f, q)
      ensures StoreOf(Apply(s, op).p) == StoreOf(s.p)[Key(f, q) := Some(op.d)]
    {
      SoundRun(start, ops, s);
      StepRefines(s, op);
    }

    /** A holder writes into its buffer, which it must then release dirty. */
    method StoreData(b: nat, d: Page)
      requires Valid() && b < nbuffers && Live(buffers[b]) && buffers[b].lockers > 0 && !buffers[b].filling
      modifies this`pending, this`ops, buffers
      ensures Valid() && Stepped(old(S()), old(ops), Store(b, d), S(), ops)
      ensures StoreOf(P()) == old(StoreOf(P()))[Key(buffers[b].fid, buffers[b].page) := Some(d)]
    {
      ghost var s := S();
      buffers[b] := buffers[b].(data := d);
      pending := pending + {b};
      assert P().bufs == Stored(s.p, b, d).bufs;
      DataStored(start, ops, s, Store(b, d), s.p.bufs[b].fid, s.p.bufs[b].page);
      Record(s, Store(b, d));
    }

    /** DRelease.  The last holder to let go of a buffer that somebody stored into must say so. */
    method DRelease(b: nat, flag: bool)
      requires Valid() && b < nbuffers && buffers[b].lockers > 0 && !buffers[b].filling && (flag ==> Live(buffers[b]))
      requires b in pending && buffers[b].lockers == 1 ==> flag
      modifies this`pending, this`ops, buffers
      ensures Valid() && Stepped(old(S()), old(ops), Release(b, flag), S(), ops) && Quietly(old(ops), ops)
      ensures var f := old(buffers[b]); P().bufs == old(P().bufs)[b := f.(lockers := f.lockers - 1, dirty := flag || f.dirty)]
    {
      ghost var s := S();
      buffers[b] := buffers[b].(lockers := buffers[b].lockers - 1);
      if flag {
        buffers[b] := buffers[b].(dirty := true);
        pending := pending - {b};
      }
      assert P().bufs == s.p.bufs[b := buffers[b]];
      Record(s, Release(b, flag));
    }

    static predicate OnlyZaps(was: seq<Op>, now: seq<Op>)
    {
      was <= now && forall i :: |was| <= i < |now| ==> now[i].Zap?
    }

    /** Only unheld buffers of file f have changed, by being forgotten. */
    static ghost predicate Zapped(a: seq<Buffer>, b: seq<Buffer>, f: nat)
    {
      && |b| == |a|
      && (forall i :: 0 <= i < |a| && a[i].fid != f ==> b[i] == a[i])
      && (forall i :: 0 <= i < |a| && a[i].fid == f ==> b[i].lockers == a[i].lockers && (b[i] == a[i] || !Live(b[i])))
    }

    static lemma ZappedOn(a: seq<Buffer>, b: seq<Buffer>, c: seq<Buffer>, f: nat)
      requires Zapped(a, b, f) && Zapped(b, c, f)
      ensures Zapped(a, c, f)
    {
    }

    /** None of the first k of a chain belongs to file f. */
    static ghost predicate NoneOn(bufs: seq<Buffer>, s: seq<nat>, k: nat, f: nat)
    {
      k <= |s| && forall j :: 0 <= j < k ==> s[j] < |bufs| && bufs[s[j]].fid != f
    }

    static lemma NoneStays(b: seq<Buffer>, c: seq<Buffer>, s: seq<nat>, k: nat, f: nat)
      requires Zapped(b, c, f) && NoneOn(b, s, k, f)
      ensures NoneOn(c, s, k, f)
    {
    }

    /** No page has two buffers. */
    static ghost predicate OneEach(bufs: seq<Buffer>)
    {
      forall i, j :: 0 <= i < j < |bufs| && Live(bufs[i]) ==> !Holds(bufs[j], bufs[i].fid, bufs[i].page)
    }

    lemma PagesOnce()
      requires Valid()
      ensures OneEach(P().bufs)
    {
      Sound();
    }

    /** The file's buffers are held by nobody. */
    static ghost predicate NoneHeld(bufs: seq<Buffer>, f: nat)
    {
      forall i :: 0 <= i < |bufs| && bufs[i].fid == f ==> bufs[i].lockers == 0
    }

    static lemma ZappedViews(p: Pool, r: Pool, f: nat)
      requires Zapped(p.bufs, r.bufs, f) && r.disk == p.disk && r.files == p.files && OneEach(p.bufs) && f in p.files
      requires forall i :: 0 <= i < |r.bufs| ==> r.bufs[i].fid != f
      ensures forall g: nat, q: int :: g != f ==> View(r, g, q) == View(p, g, q)
      ensures forall q: int :: View(r, f, q) == DiskAt(p, p.files[f], q)
    {
      forall g: nat, q: int | g != f ensures View(r, g, q) == View(p, g, q) {
        if i :| 0 <= i < |p.bufs| && Shows(p.bufs[i], g, q) {
          assert Shows(r.bufs[i], g, q);
        }
      }
    }

    /** A buffer of the file forgotten. */
    method ZapIf(b: nat, f: nat)
      requires Valid() && waiting == None && b < nbuffers && NoneHeld(P().bufs, f)
      modifies this`ops, buffers
      ensures Valid() && OnlyZaps(old(ops), ops) && Zapped(old(P().bufs), P().bufs, f) && P().bufs[b].fid != f
      ensures NoneHeld(P().bufs, f)
    {
      if buffers[b].fid == f {
        ForgetOne(b, f);
      }
    }

    /** DZap's inner loop over one hash chain. */
    method ZapChain(f: nat, h: nat)
      requires Valid() && waiting == None && h < PHSIZE && NoneHeld(P().bufs, f)
      modifies this`ops, buffers
      ensures Valid() && OnlyZaps(old(ops), ops) && Zapped(old(P().bufs), P().bufs, f) && NoneHeld(P().bufs, f)
      ensures NoneOn(P().bufs, phTable[h], |phTable[h]|, f)
    {
      ghost var bufs := P().bufs;
      ChainIn(h);
      var s, k := phTable[h], 0;
      while k < |s|
        invariant 0 <= k <= |s| && Valid() && OnlyZaps(old(ops), ops) && Zapped(bufs, P().bufs, f) && NoneHeld(P().bufs, f)
        invariant NoneOn(P().bufs, s, k, f)
      {
        ghost var before := P().bufs;
        ZapIf(s[k], f);
        ZappedOn(bufs, before, P().bufs, f);
        NoneStays(before, P().bufs, s, k, f);
        k := k + 1;
      }
    }

    /** The four chains that the file's buffers can be on. */
    method ZapChains(f: nat)
      requires Valid() && waiting == None && NoneHeld(P().bufs, f)
      modifies this`ops, buffers
      ensures Valid() && OnlyZaps(old(ops), ops) && Zapped(old(P().bufs), P().bufs, f)
      ensures forall m :: 0 <= m <= PHPAGEMASK ==> NoneOn(P().bufs, phTable[PHash(f, m)], |phTable[PHash(f, m)]|, f)
    {
      ghost var bufs := P().bufs;
      var n := 0;
      while n <= PHPAGEMASK
        invariant 0 <= n <= PHPAGEMASK + 1 && Valid() && OnlyZaps(old(ops), ops) && Zapped(bufs, P().bufs, f) && NoneHeld(P().bufs, f)
        invariant forall m :: 0 <= m < n ==> NoneOn(P().bufs, phTable[PHash(f, m)], |phTable[PHash(f, m)]|, f)
      {
        ghost var before := P().bufs;
        ZapChain(f, PHash(f, n));
        ZappedOn(bufs, before, P().bufs, f);
        forall m | 0 <= m < n ensures NoneOn(P().bufs, phTable[PHash(f, m)], |phTable[PHash(f, m)]|, f) {
          NoneStays(before, P().bufs, phTable[PHash(f, m)], |phTable[PHash(f, m)]|, f);
        }
        n := n + 1;
      }
    }

    lemma NoneLeft(f: nat)
      requires Valid()
      requires forall m :: 0 <= m <= PHPAGEMASK ==> NoneOn(P().bufs, phTable[PHash(f, m)], |phTable[PHash(f, m)]|, f)
      ensures forall i :: 0 <= i < nbuffers ==> P().bufs[i].fid != f
    {
      Sound();
      forall i | 0 <= i < nbuffers ensures P().bufs[i].fid != f {
        if P().bufs[i].fid == f {
          FourChains(P(), f, i);
        }
      }
    }

    /** DZap: every buffer of the file is forgotten, so the file shows what is on disk; no other
        file changes. */
    method DZap(adc: Dcache)
      requires Valid() && waiting == None && Knows(adc) && NoneHeld(P().bufs, adc.index)
      modifies this`ops, buffers
      ensures Valid() && OnlyZaps(old(ops), ops)
      ensures forall i :: 0 <= i < nbuffers ==> P().bufs[i].fid != adc.index
      ensures forall f: nat, q: int :: f != adc.index ==> View(P(), f, q) == View(old(P()), f, q)
      ensures forall q: int :: View(P(), adc.index, q) == DiskAt(old(P()), adc.inode, q)
    {
      ghost var p := P();
      PagesOnce();
      ZapChains(adc.index);
      NoneLeft(adc.index);
      ZappedViews(p, P(), adc.index);
    }

    /** One buffer forgotten. */
    method ForgetOne(b: nat, f: nat)
      requires Valid() && waiting == None && b < nbuffers && buffers[b].fid == f && buffers[b].lockers == 0
      modifies this`ops, buffers
      ensures Valid() && Stepped(old(S()), old(ops), Zap(b), S(), ops)
      ensures P().bufs == old(P().bufs)[b := buffers[b]] && !Live(buffers[b]) && buffers[b].lockers == 0
    {
      ghost var s := S();
      UnheldShows(b);
      buffers[b] := buffers[b].(fid := NULLIDX, inode := 0, dirty := false);
      assert P().bufs == Forgotten(s.p, b).bufs;
      Record(s, Zap(b));
    }

    /** Every dirty buffer written out, in turn. */
    method CleanAll()
      requires Valid()
      modifies this`disk, this`ops, buffers
      ensures Valid() && Quietly(old(ops), ops) && P().bufs == Cleaned(old(P().bufs))
    {
      ghost var bufs, was := P().bufs, ops;
      var i := 0;
      while i < nbuffers
        invariant 0 <= i <= nbuffers && Valid() && Quietly(was, ops) && CleanedTo(bufs, P().bufs, i)
      {
        ghost var before, now := P().bufs, ops;
        Clean(i);
        CleanedNext(bufs, before, P().bufs, i);
        QuietlyOn(was, now, ops);
        i := i + 1;
      }
      assert P().bufs == Cleaned(bufs);
    }

    /** DFlush: afterwards the disk holds the store, for every page without unsettled stores. */
    method DFlush()
      requires Valid()
      modifies this`disk, this`ops, buffers
      ensures Valid() && Quietly(old(ops), ops) && KeptStore(old(P()), P()) && P().bufs == Cleaned(old(P().bufs))
      ensures forall f: nat, q: int :: f in files && Unwritten(S(), f, q) ==> DiskAt(P(), files[f], q) == View(old(P()), f, q)
    {
      ghost var s, was := S(), ops;
      CleanAll();
      QuietRun(start, was, s, ops, S());
      forall f: nat, q: int | f in files && Unwritten(S(), f, q)
        ensures DiskAt(P(), files[f], q) == View(s.p, f, q)
      {
        CleanIsStored(s.p, f, q);
      }
    }

    /** No holder has an unsettled store to the page. */
    static ghost predicate Unwritten(s: PS, f: nat, q: int)
    {
      forall i :: 0 <= i < |s.p.bufs| && i in s.pending ==> !Holds(s.p.bufs[i], f, q)
    }

    lemma CleanIsStored(p: Pool, f: nat, q: int)
      requires Valid() && KeptStore(p, P()) && f in files && Unwritten(S(), f, q)
      requires forall i :: 0 <= i < nbuffers && Holds(P().bufs[i], f, q) ==> !P().bufs[i].dirty
      ensures DiskAt(P(), files[f], q) == View(p, f, q)
    {
      Sound();
      CleanViewIsDisk(P(), pending, f, q);
      StoreViews(p, P(), f, q);
    }

    static ghost function Cleaned(bufs: seq<Buffer>): (r: seq<Buffer>)
      ensures |r| == |bufs| && forall i :: 0 <= i < |bufs| ==> r[i] == bufs[i].(dirty := false)
    {
      seq(|bufs|, i requires 0 <= i < |bufs| => bufs[i].(dirty := false))
    }

    /** The first i buffers have been cleaned. */
    static ghost predicate CleanedTo(bufs: seq<Buffer>, now: seq<Buffer>, i: nat)
    {
      |now| == |bufs| && forall k :: 0 <= k < |bufs| ==> now[k] == if k < i then bufs[k].(dirty := false) else bufs[k]
    }

    static lemma CleanedNext(bufs: seq<Buffer>, before: seq<Buffer>, now: seq<Buffer>, i: nat)
      requires CleanedTo(bufs, before, i) && i < |bufs| && now == before[i := before[i].(dirty := false)]
      ensures CleanedTo(bufs, now, i + 1)
    {
    }

    static predicate Settled(b: Buffer, f: nat)
    {
      b.fid == f ==> !b.dirty
    }

    /** Nothing but dirty flags changes, from set to clear. */
    static ghost predicate OnlyCleaned(a: seq<Buffer>, b: seq<Buffer>)
    {
      |b| == |a| && forall i :: 0 <= i < |a| ==> b[i] == a[i] || b[i] == a[i].(dirty := false)
    }

    /** The buffers of file f among the first k of a chain are clean. */
    static ghost predicate SettledOn(bufs: seq<Buffer>, s: seq<nat>, k: nat, f: nat)
    {
      k <= |s| && forall j :: 0 <= j < k ==> s[j] < |bufs| && Settled(bufs[s[j]], f)
    }

    static lemma CleanedOn(a: seq<Buffer>, b: seq<Buffer>, c: seq<Buffer>)
      requires OnlyCleaned(a, b) && OnlyCleaned(b, c)
      ensures OnlyCleaned(a, c)
    {
    }

    static lemma SettledStays(b: seq<Buffer>, c: seq<Buffer>, s: seq<nat>, k: nat, f: nat)
      requires OnlyCleaned(b, c) && SettledOn(b, s, k, f)
      ensures SettledOn(c, s, k, f)
    {
    }

    /** A buffer of the file written out if it is dirty. */
    method FlushIf(b: nat, f: nat)
      requires Valid() && b < nbuffers
      modifies this`disk, this`ops, buffers
      ensures Valid() && Quietly(old(ops), ops) && OnlyCleaned(old(P().bufs), P().bufs) && Settled(P().bufs[b], f)
    {
      if buffers[b].fid == f {
        Clean(b);
      }
    }

    method FlushNext(s: seq<nat>, k: nat, f: nat, ghost bufs: seq<Buffer>, ghost was: seq<Op>)
      requires Valid() && k < |s| && s[k] < nbuffers
      requires Quietly(was, ops) && OnlyCleaned(bufs, P().bufs) && SettledOn(P().bufs, s, k, f)
      modifies this`disk, this`ops, buffers
      ensures Valid() && Quietly(was, ops) && OnlyCleaned(bufs, P().bufs) && SettledOn(P().bufs, s, k + 1, f)
    {
      ghost var now, before := ops, P().bufs;
      FlushIf(s[k], f);
      QuietlyOn(was, now, ops);
      CleanedOn(bufs, before, P().bufs);
      SettledStays(before, P().bufs, s, k, f);
    }

    /** DFlushDCache's inner loop over one hash chain. */
    method FlushChain(f: nat, h: nat)
      requires Valid() && h < PHSIZE
      modifies this`disk, this`ops, buffers
      ensures Valid() && Quietly(old(ops), ops) && OnlyCleaned(old(P().bufs), P().bufs)
      ensures SettledOn(P().bufs, phTable[h], |phTable[h]|, f)
    {
      ghost var bufs, was := P().bufs, ops;
      ChainIn(h);
      var s, k := phTable[h], 0;
      while k < |s|
        invariant 0 <= k <= |s| && Valid() && Quietly(was, ops) && OnlyCleaned(bufs, P().bufs) && SettledOn(P().bufs, s, k, f)
      {
        FlushNext(s, k, f, bufs, was);
        k := k + 1;
      }
    }

    /** The four chains that the file's buffers can be on. */
    method FlushChains(f: nat)
      requires Valid()
      modifies this`disk, this`ops, buffers
      ensures Valid() && Quietly(old(ops), ops) && OnlyCleaned(old(P().bufs), P().bufs)
      ensures forall m :: 0 <= m <= PHPAGEMASK ==> SettledOn(P().bufs, phTable[PHash(f, m)], |phTable[PHash(f, m)]|, f)
    {
      ghost var bufs, was := P().bufs, ops;
      var n := 0;
      while n <= PHPAGEMASK
        invariant 0 <= n <= PHPAGEMASK + 1 && Valid() && Quietly(was, ops) && OnlyCleaned(bufs, P().bufs)
        invariant forall m :: 0 <= m < n ==> SettledOn(P().bufs, phTable[PHash(f, m)], |phTable[PHash(f, m)]|, f)
      {
        ghost var now, before := ops, P().bufs;
        FlushChain(f, PHash(f, n));
        QuietlyOn(was, now, ops);
        CleanedOn(bufs, before, P().bufs);
        forall m | 0 <= m < n ensures SettledOn(P().bufs, phTable[PHash(f, m)], |phTable[PHash(f, m)]|, f) {
          SettledStays(before, P().bufs, phTable[PHash(f, m)], |phTable[PHash(f, m)]|, f);
        }
        n := n + 1;
      }
    }

    lemma AllSettled(f: nat)
      requires Valid()
      requires forall m :: 0 <= m <= PHPAGEMASK ==> SettledOn(P().bufs, phTable[PHash(f, m)], |phTable[PHash(f, m)]|, f)
      ensures forall i :: 0 <= i < nbuffers ==> Settled(P().bufs[i], f)
    {
      Sound();
      forall i | 0 <= i < nbuffers ensures Settled(P().bufs[i], f) {
        if P().bufs[i].fid == f {
          FourChains(P(), f, i);
          var n :| 0 <= n <= PHPAGEMASK && i in phTable[PHash(f, n)];
          assert SettledOn(P().bufs, phTable[PHash(f, n)], |phTable[PHash(f, n)]|, f);
        }
      }
    }

    /** DFlushDCache: the same for the buffers of one file. */
    method DFlushDCache(adc: Dcache)
      requires Valid() && Knows(adc)
      modifies this`disk, this`ops, buffers
      ensures Valid() && Quietly(old(ops), ops) && KeptStore(old(P()), P()) && OnlyCleaned(old(P().bufs), P().bufs)
      ensures forall i :: 0 <= i < nbuffers ==> Settled(P().bufs[i], adc.index)
      ensures forall q: int :: Unwritten(S(), adc.index, q) ==> DiskAt(P(), adc.inode, q) == View(old(P()), adc.index, q)
    {
      ghost var s, was := S(), ops;
      FlushChains(adc.index);
      AllSettled(adc.index);
      QuietRun(start, was, s, ops, S());
      forall q: int | Unwritten(S(), adc.index, q) ensures DiskAt(P(), adc.inode, q) == View(s.p, adc.index, q) {
        CleanIsStored(s.p, adc.index, q);
      }
    }
  }
}
