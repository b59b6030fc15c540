/** Whole runs of the page pool: any interleaving, by any number of threads, of the steps that
    the locks of afs_buffer.c make atomic.  The pool refines a flat store and disk, named by file
    and page, which only stores, new pages, write-backs and zaps change: so a store is never
    lost on the way. */
module PoolRuns {
  import opened Basics
  import opened Seqs
  import opened PagePool

  /** A DRead that has found buffer i for page q of file f and, still holding afs_bufferLock,
      waits for the buffer's own lock. */
  datatype Want = Want(i: nat, f: nat, q: int)

  /** The pool, the buffers with stores that are not settled, and who holds afs_bufferLock over
      a wait. */
  datatype PS = PS(p: Pool, pending: set<nat>, waiting: Option<Want>)

  datatype Op =
    | Claim(i: nat, f: nat, q: int, time: int)   // DRead of a page not cached: up to the release of afs_bufferLock
    | Read(i: nat)                               // the same DRead has read the page into its buffer
    | Fail(i: nat)                               // or could not
    | Match(i: nat, f: nat, q: int)              // DRead of a cached page finds its buffer
    | Take(i: nat, time: int)                    // and gets the buffer's lock and a reference
    | New(i: nat, f: nat, q: int, time: int)     // DNew
    | Store(i: nat, d: Page)                     // a holder writes into its buffer
    | Release(i: nat, dirty: bool)               // DRelease
    | Flush(i: nat)                              // DFlush, DFlushDCache, or eviction of a dirty victim
    | Zap(i: nat)                                // DZap
    | Grow(n: nat)                               // more buffers
    | Front(h: nat, k: nat)                      // a buffer moved to the front of its chain
    | Restart                                    // access times start again at 0

  ghost predicate Inv(s: PS)
  {
    && Core(s.p, s.pending)
    && (forall i :: i in s.pending ==> i < |s.p.bufs| && s.p.bufs[i].lockers > 0 && !s.p.bufs[i].filling)
    && (forall i :: 0 <= i < |s.p.bufs| && s.p.bufs[i].filling ==> s.p.bufs[i].lockers == 1)
    && (s.waiting.Some? ==>
          var w := s.waiting.value; w.i < |s.p.bufs| && (Live(s.p.bufs[w.i]) ==> Holds(s.p.bufs[w.i], w.f, w.q)))
  }

  predicate Unheld(s: PS, i: nat)
  {
    && i < |s.p.bufs| && s.p.bufs[i].lockers == 0 && !s.p.bufs[i].dirty && !s.p.bufs[i].filling
    && s.p.bufs[i].hashIndex < PHSIZE == |s.p.chains|
  }

  /** A buffer of which somebody may have the lock, and nobody is reading the page in. */
  predicate Lockable(s: PS, i: nat)
  {
    i < |s.p.bufs| && !s.p.bufs[i].filling
  }

  ghost predicate Legal(s: PS, op: Op)
  {
    match op
    case Claim(i, f, q, _) => s.waiting.None? && Unheld(s, i) && f in s.p.files && !Cached(s.p, f, q)
    case New(i, f, q, _) => s.waiting.None? && Unheld(s, i) && f in s.p.files && !Cached(s.p, f, q)
    case Read(i) =>
      i < |s.p.bufs| && s.p.bufs[i].filling && DiskAt(s.p, s.p.bufs[i].inode, s.p.bufs[i].page).Some?
    case Fail(i) => i < |s.p.bufs| && s.p.bufs[i].filling
    case Match(i, f, q) => s.waiting.None? && i < |s.p.bufs| && Holds(s.p.bufs[i], f, q)
    case Take(i, _) => s.waiting.Some? && s.waiting.value.i == i && Lockable(s, i)
    case Store(i, _) => Lockable(s, i) && Live(s.p.bufs[i]) && s.p.bufs[i].lockers > 0
    case Release(i, dirty) =>
      && Lockable(s, i) && s.p.bufs[i].lockers > 0 && (dirty ==> Live(s.p.bufs[i]))
      && (i in s.pending && s.p.bufs[i].lockers == 1 ==> dirty)
    case Flush(i) => Lockable(s, i) && Live(s.p.bufs[i])
    case Zap(i) => s.waiting.None? && Lockable(s, i) && Live(s.p.bufs[i]) && s.p.bufs[i].lockers == 0
    case Grow(_) => s.waiting.None?
    case Front(h, k) => s.waiting.None? && h < PHSIZE == |s.p.chains| && k < |s.p.chains[h]|
    case Restart => s.waiting.None?
  }

  function SetBuf(p: Pool, i: nat, b: Buffer): (r: Pool)
    requires i < |p.bufs|
  {
    p.(bufs := p.bufs[i := b])
  }

  /** Buffer i refiled for a page and referred to once. */
  function Claimed(p: Pool, i: nat, f: nat, q: int, time: int): (r: Pool)
    requires i < |p.bufs| && |p.chains| == PHSIZE && p.bufs[i].hashIndex < PHSIZE && f in p.files
  {
    var r := Refiled(p, i, f, p.files[f], q, time);
    SetBuf(r, i, r.bufs[i].(lockers := 1))
  }

  function Restarted(p: Pool): Pool
  {
    p.(bufs := seq(|p.bufs|, i requires 0 <= i < |p.bufs| => p.bufs[i].(accesstime := 0)))
  }

  function Released(b: Buffer, dirty: bool): Buffer
    requires b.lockers > 0
  {
    b.(lockers := b.lockers - 1, dirty := dirty || b.dirty)
  }

  ghost function Apply(s: PS, op: Op): (r: PS)
    requires Legal(s, op)
  {
    match op
    case Claim(i, f, q, t) => s.(p := Claimed(s.p, i, f, q, t))
    case New(i, f, q, t) => s.(p := Stored(Claimed(s.p, i, f, q, t), i, ZeroPage()), pending := s.pending + {i})
    case Read(i) => s.(p := Stored(s.p, i, DiskAt(s.p, s.p.bufs[i].inode, s.p.bufs[i].page).value))
    case Fail(i) => var r := Forgotten(s.p, i); s.(p := SetBuf(r, i, r.bufs[i].(lockers := 0)))
    case Match(i, f, q) => s.(waiting := Some(Want(i, f, q)))
    case Take(i, t) =>
      var b := s.p.bufs[i];
      s.(p := SetBuf(s.p, i, b.(lockers := b.lockers + 1, accesstime := t)), waiting := None)
    case Store(i, d) => s.(p := Stored(s.p, i, d), pending := s.pending + {i})
    case Release(i, dirty) =>
      s.(p := SetBuf(s.p, i, Released(s.p.bufs[i], dirty)), pending := if dirty then s.pending - {i} else s.pending)
    case Flush(i) => s.(p := Flushed(s.p, i))
    case Zap(i) => s.(p := Forgotten(s.p, i))
    case Grow(n) => s.(p := Grown(s.p, n))
    case Front(h, k) => s.(p := s.p.(chains := s.p.chains[h := Fronted(s.p.chains[h], k)]))
    case Restart => s.(p := Restarted(s.p))
  }

  // ---------------------------------------------------------------- the flat store and disk

  /** A page of a file. */
  datatype Key = Key(f: nat, q: int)

  /** What each page of each file contains, and what the disk has of it. */
  datatype Flat = Flat(store: imap<Key, Option<Page>>, disk: imap<Key, Option<Page>>)

  /** What can happen to them. */
  datatype FlatOp = Quiet | Write(k: Key, d: Page) | Save(k: Key) | Discard(k: Key)

  ghost function At(m: imap<Key, Option<Page>>, k: Key): Option<Page>
  {
    if k in m then m[k] else None
  }

  ghost function FlatStep(a: Flat, o: FlatOp): Flat
  {
    match o
    case Quiet => a
    case Write(k, d) => a.(store := a.store[k := Some(d)])
    case Save(k) => a.(disk := a.disk[k := At(a.store, k)])
    case Discard(k) => a.(store := a.store[k := At(a.disk, k)])
  }

  ghost function FlatRun(a: Flat, fs: seq<FlatOp>): Flat
  {
    if fs == [] then a else FlatStep(FlatRun(a, fs[..|fs| - 1]), fs[|fs| - 1])
  }

  ghost function OnDisk(p: Pool, f: nat, q: int): Option<Page>
  {
    if f in p.files then DiskAt(p, p.files[f], q) else None
  }

  ghost function StoreOf(p: Pool): imap<Key, Option<Page>>
  {
    imap k: Key | true :: View(p, k.f, k.q)
  }

  ghost function DiskOf(p: Pool): imap<Key, Option<Page>>
  {
    imap k: Key | true :: OnDisk(p, k.f, k.q)
  }

  /** The store and disk that a pool stands for. */
  ghost function FlatOf(p: Pool): Flat
  {
    Flat(StoreOf(p), DiskOf(p))
  }

  /** What a step of the pool is to them: reads, references, evictions, growth and the rest are
      nothing. */
  function Name(s: PS, op: Op): FlatOp
  {
    match op
    case New(_, f, q, _) => Write(Key(f, q), ZeroPage())
    case Store(i, d) => if i < |s.p.bufs| && Live(s.p.bufs[i]) then Write(Key(s.p.bufs[i].fid, s.p.bufs[i].page), d) else Quiet
    case Flush(i) => if i < |s.p.bufs| && Live(s.p.bufs[i]) then Save(Key(s.p.bufs[i].fid, s.p.bufs[i].page)) else Quiet
    case Zap(i) => if i < |s.p.bufs| && Live(s.p.bufs[i]) then Discard(Key(s.p.bufs[i].fid, s.p.bufs[i].page)) else Quiet
    case _ => Quiet
  }

  lemma SameStore(p: Pool, r: Pool)
    requires SameView(p, r)
    ensures StoreOf(r) == StoreOf(p)
  {
    forall k: Key ensures StoreOf(r)[k] == StoreOf(p)[k] {
      assert View(r, k.f, k.q) == View(p, k.f, k.q);
    }
  }

  lemma SameDisk(p: Pool, r: Pool)
    requires r.disk == p.disk && r.files == p.files
    ensures DiskOf(r) == DiskOf(p)
  {
    forall k: Key ensures DiskOf(r)[k] == DiskOf(p)[k] {
      assert OnDisk(r, k.f, k.q) == OnDisk(p, k.f, k.q);
    }
  }

  lemma SameFlat(p: Pool, r: Pool)
    requires SameView(p, r) && r.disk == p.disk && r.files == p.files
    ensures FlatOf(r) == FlatOf(p)
  {
    SameStore(p, r);
    SameDisk(p, r);
  }

  lemma WrittenStore(p: Pool, r: Pool, f: nat, q: int)
    requires SameViewExcept(p, r, f, q)
    ensures StoreOf(r) == StoreOf(p)[Key(f, q) := View(r, f, q)]
  {
    var now := StoreOf(p)[Key(f, q) := View(r, f, q)];
    forall k: Key ensures StoreOf(r)[k] == now[k] {
      assert k == Key(f, q) || View(r, k.f, k.q) == View(p, k.f, k.q);
    }
  }

  lemma WrittenFlat(p: Pool, r: Pool, f: nat, q: int)
    requires SameViewExcept(p, r, f, q) && r.disk == p.disk && r.files == p.files
    ensures FlatOf(r) == FlatOf(p).(store := FlatOf(p).store[Key(f, q) := View(r, f, q)])
  {
    WrittenStore(p, r, f, q);
    SameDisk(p, r);
  }

  lemma ClaimRefines(s: PS, op: Op)
    requires Inv(s) && Legal(s, op) && op.Claim?
    ensures Inv(Apply(s, op)) && SameView(s.p, Apply(s, op).p)
  {
    var Claim(i, f, q, t) := op;
    assert i !in s.pending;
    RefiledKeeps(s.p, s.pending, i, f, q, t);
    AlikeKeeps(Refiled(s.p, i, f, s.p.files[f], q, t), Apply(s, op).p, s.pending);
  }

  lemma NewRefines(s: PS, op: Op)
    requires Inv(s) && Legal(s, op) && op.New?
    ensures Inv(Apply(s, op)) && SameViewExcept(s.p, Apply(s, op).p, op.f, op.q)
    ensures View(Apply(s, op).p, op.f, op.q) == Some(ZeroPage())
  {
    var New(i, f, q, t) := op;
    ClaimRefines(s, Claim(i, f, q, t));
    StoredKeeps(Claimed(s.p, i, f, q, t), s.pending, i, ZeroPage());
  }

  lemma ReadRefines(s: PS, op: Op)
    requires Inv(s) && Legal(s, op) && op.Read?
    ensures Inv(Apply(s, op)) && SameView(s.p, Apply(s, op).p)
  {
    ViewFilling(s.p, s.pending, op.i);
    StoredKeeps(s.p, s.pending, op.i, DiskAt(s.p, s.p.bufs[op.i].inode, s.p.bufs[op.i].page).value);
    assert s.pending - {op.i} == s.pending;
  }

  lemma FailRefines(s: PS, op: Op)
    requires Inv(s) && Legal(s, op) && op.Fail?
    ensures Inv(Apply(s, op)) && SameView(s.p, Apply(s, op).p)
  {
    ViewFilling(s.p, s.pending, op.i);
    assert Coherent(s.p, s.pending, op.i);
    ForgottenKeeps(s.p, s.pending, op.i);
    assert s.pending - {op.i} == s.pending;
    AlikeKeeps(Forgotten(s.p, op.i), Apply(s, op).p, s.pending);
  }

  lemma ReleaseRefines(s: PS, op: Op)
    requires Inv(s) && Legal(s, op) && op.Release?
    ensures Inv(Apply(s, op)) && SameView(s.p, Apply(s, op).p)
  {
    var r, t := s.p, Apply(s, op);
    if op.dirty {
      DirtiedKeeps(s.p, s.pending, op.i);
      r := s.p.(bufs := s.p.bufs[op.i := s.p.bufs[op.i].(dirty := true)]);
    }
    AlikeKeeps(r, t.p, t.pending);
  }

  lemma ZapRefines(s: PS, op: Op)
    requires Inv(s) && Legal(s, op) && op.Zap?
    ensures Inv(Apply(s, op)) && FlatOf(Apply(s, op).p) == FlatStep(FlatOf(s.p), Name(s, op))
  {
    var b := s.p.bufs[op.i];
    ForgottenKeeps(s.p, s.pending, op.i);
    assert op.i !in s.pending && s.pending - {op.i} == s.pending;
    WrittenFlat(s.p, Apply(s, op).p, b.fid, b.page);
    assert At(FlatOf(s.p).disk, Key(b.fid, b.page)) == OnDisk(s.p, b.fid, b.page);
  }

  lemma SavedFlat(p: Pool, r: Pool, f: nat, q: int)
    requires SameView(p, r) && forall g: nat, m: int :: OnDisk(r, g, m) == if g == f && m == q then View(p, f, q) else OnDisk(p, g, m)
    ensures FlatOf(r) == FlatOf(p).(disk := FlatOf(p).disk[Key(f, q) := View(p, f, q)])
  {
    SameStore(p, r);
    var now := DiskOf(p)[Key(f, q) := View(p, f, q)];
    forall k: Key ensures DiskOf(r)[k] == now[k] {
      assert OnDisk(r, k.f, k.q) == if k == Key(f, q) then View(p, f, q) else OnDisk(p, k.f, k.q);
    }
  }

  lemma FlushedDisk(p: Pool, pending: set<nat>, i: nat, f: nat, q: int)
    requires Core(p, pending) && i < |p.bufs| && Holds(p.bufs[i], f, q)
    ensures forall g: nat, m: int :: OnDisk(Flushed(p, i), g, m) == if g == f && m == q then Some(p.bufs[i].data) else OnDisk(p, g, m)
  {
    assert Coherent(p, pending, i);
  }

  lemma FlushFlat(p: Pool, pending: set<nat>, i: nat, f: nat, q: int)
    requires Core(p, pending) && i < |p.bufs| && Shows(p.bufs[i], f, q)
    ensures FlatOf(Flushed(p, i)) == FlatStep(FlatOf(p), Save(Key(f, q)))
  {
    FlushedKeeps(p, pending, i);
    FlushedDisk(p, pending, i, f, q);
    ViewHit(p, pending, i);
    SavedFlat(p, Flushed(p, i), f, q);
    assert At(FlatOf(p).store, Key(f, q)) == View(p, f, q);
  }

  lemma FlushRefines(s: PS, op: Op)
    requires Inv(s) && Legal(s, op) && op.Flush?
    ensures Inv(Apply(s, op)) && FlatOf(Apply(s, op).p) == FlatStep(FlatOf(s.p), Name(s, op))
  {
    FlushedKeeps(s.p, s.pending, op.i);
    FlushFlat(s.p, s.pending, op.i, s.p.bufs[op.i].fid, s.p.bufs[op.i].page);
  }

  lemma StoreRefines(s: PS, op: Op)
    requires Inv(s) && Legal(s, op) && op.Store?
    ensures Inv(Apply(s, op)) && FlatOf(Apply(s, op).p) == FlatStep(FlatOf(s.p), Name(s, op))
  {
    StoredKeeps(s.p, s.pending, op.i, op.d);
    WrittenFlat(s.p, Apply(s, op).p, s.p.bufs[op.i].fid, s.p.bufs[op.i].page);
  }

  lemma GrowRefines(s: PS, op: Op)
    requires Inv(s) && Legal(s, op) && (op.Grow? || op.Front?)
    ensures Inv(Apply(s, op)) && SameView(s.p, Apply(s, op).p)
  {
    if op.Grow? {
      GrownKeeps(s.p, s.pending, op.n);
    } else {
      FrontedSame(s.p.chains[op.h], op.k);
      ReorderedKeeps(s.p, s.pending, op.h, Fronted(s.p.chains[op.h], op.k));
    }
  }

  lemma TimesRefine(s: PS, op: Op)
    requires Inv(s) && Legal(s, op) && (op.Take? || op.Restart?)
    ensures Inv(Apply(s, op)) && SameView(s.p, Apply(s, op).p)
  {
    AlikeKeeps(s.p, Apply(s, op).p, s.pending);
  }

  /** The steps that are nothing to the store and disk. */
  lemma QuietRefines(s: PS, op: Op)
    requires Inv(s) && Legal(s, op) && !op.New? && !op.Store? && !op.Flush? && !op.Zap?
    ensures Inv(Apply(s, op)) && FlatOf(Apply(s, op).p) == FlatOf(s.p)
  {
    match op {
      case Claim(_, _, _, _) => ClaimRefines(s, op);
      case Read(_) => ReadRefines(s, op);
      case Fail(_) => FailRefines(s, op);
      case Match(_, _, _) =>
      case Release(_, _) => ReleaseRefines(s, op);
      case Take(_, _) => TimesRefine(s, op);
      case Restart => TimesRefine(s, op);
      case _ => GrowRefines(s, op);
    }
    SameFlat(s.p, Apply(s, op).p);
  }

  /** Every step of the pool keeps the invariant and is one step of the flat store and disk. */
  lemma StepRefines(s: PS, op: Op)
    requires Inv(s) && Legal(s, op)
    ensures Inv(Apply(s, op)) && Apply(s, op).p.files == s.p.files
    ensures FlatOf(Apply(s, op).p) == FlatStep(FlatOf(s.p), Name(s, op))
  {
    match op {
      case New(_, f, q, _) =>
        NewRefines(s, op);
        WrittenFlat(s.p, Apply(s, op).p, f, q);
      case Store(_, _) => StoreRefines(s, op);
      case Flush(_) => FlushRefines(s, op);
      case Zap(_) => ZapRefines(s, op);
      case _ => QuietRefines(s, op);
    }
  }

  // ---------------------------------------------------------------- runs

  ghost predicate LegalRun(s: PS, ops: seq<Op>)
    decreases |ops|, 0
  {
    ops == [] || (var n := |ops| - 1; LegalRun(s, ops[..n]) && Legal(Run(s, ops[..n]), ops[n]))
  }

  ghost function Run(s: PS, ops: seq<Op>): (r: PS)
    requires LegalRun(s, ops)
    decreases |ops|, 1
  {
    if ops == [] then s else var n := |ops| - 1; Apply(Run(s, ops[..n]), ops[n])
  }

  lemma RunThen(s: PS, ops: seq<Op>, op: Op)
    requires LegalRun(s, ops) && Legal(Run(s, ops), op)
    ensures LegalRun(s, ops + [op]) && Run(s, ops + [op]) == Apply(Run(s, ops), op)
  {
    assert (ops + [op])[..|ops|] == ops;
  }

  /** What a run is to the flat store and disk. */
  ghost function Names(s: PS, ops: seq<Op>): (fs: seq<FlatOp>)
    requires LegalRun(s, ops)
    ensures |fs| == |ops|
    decreases |ops|
  {
    if ops == [] then [] else var n := |ops| - 1; Names(s, ops[..n]) + [Name(Run(s, ops[..n]), ops[n])]
  }

  /** After any run the pool stands for what the named operations alone make of the store and
      disk it stood for before. */
  lemma {:induction false} RunRefines(s: PS, ops: seq<Op>)
    requires Inv(s) && LegalRun(s, ops)
    ensures Inv(Run(s, ops)) && Run(s, ops).p.files == s.p.files
    ensures FlatOf(Run(s, ops).p) == FlatRun(FlatOf(s.p), Names(s, ops))
    decreases |ops|
  {
    if ops != [] {
      var n := |ops| - 1;
      RunRefines(s, ops[..n]);
      StepRefines(Run(s, ops[..n]), ops[n]);
      assert Names(s, ops)[..n] == Names(s, ops[..n]);
    }
  }

  /** No operation writes or discards the page. */
  ghost predicate Spares(fs: seq<FlatOp>, k: Key)
  {
    forall i :: 0 <= i < |fs| ==> !((fs[i].Write? || fs[i].Discard?) && fs[i].k == k)
  }

  lemma {:induction false} SparedStays(a: Flat, fs: seq<FlatOp>, k: Key)
    requires Spares(fs, k)
    ensures At(FlatRun(a, fs).store, k) == At(a.store, k)
    decreases |fs|
  {
    if fs != [] {
      SparedStays(a, fs[..|fs| - 1], k);
    }
  }

  /** A page once stored reads back as stored after any run that spares it, however often its
      buffer is flushed, evicted and fetched again; and once no holder has an unsettled store
      and the page is not dirty, that is also what is on disk. */
  lemma NoLostStore(s: PS, ops: seq<Op>, f: nat, q: int, d: Page)
    requires Inv(s) && LegalRun(s, ops) && Spares(Names(s, ops), Key(f, q)) && View(s.p, f, q) == Some(d)
    ensures var r := Run(s, ops);
            && View(r.p, f, q) == Some(d)
            && (f in r.p.files &&
                (forall i :: 0 <= i < |r.p.bufs| && Holds(r.p.bufs[i], f, q) ==> !r.p.bufs[i].dirty && i !in r.pending) ==>
                  DiskAt(r.p, r.p.files[f], q) == Some(d))
  {
    var r := Run(s, ops);
    RunRefines(s, ops);
    SparedStays(FlatOf(s.p), Names(s, ops), Key(f, q));
    assert At(FlatOf(s.p).store, Key(f, q)) == View(s.p, f, q) && At(FlatOf(r.p).store, Key(f, q)) == View(r.p, f, q);
    if f in r.p.files && forall i :: 0 <= i < |r.p.bufs| && Holds(r.p.bufs[i], f, q) ==> !r.p.bufs[i].dirty && i !in r.pending {
      CleanViewIsDisk(r.p, r.pending, f, q);
    }
  }

  // ---------------------------------------------------------------- a page that is being read in

  /** A DRead that waits for a buffer still has its page when it gets the buffer if and only if
      the read that was filling the buffer, if any, did not fail meanwhile. */
  lemma {:induction false} WaitedExactly(s: PS, ops: seq<Op>, w: Want)
    requires Inv(s) && s.waiting == Some(w) && w.i < |s.p.bufs| && Holds(s.p.bufs[w.i], w.f, w.q)
    requires LegalRun(s, ops) && forall j :: 0 <= j < |ops| ==> !ops[j].Take?
    ensures var r := Run(s, ops);
            && r.waiting == Some(w) && w.i < |r.p.bufs|
            && (Holds(r.p.bufs[w.i], w.f, w.q) <==> Fail(w.i) !in ops)
            && (Fail(w.i) in ops ==> !Live(r.p.bufs[w.i]) && !r.p.bufs[w.i].filling)
    decreases |ops|
  {
    if ops != [] {
      var n := |ops| - 1;
      var most, last := ops[..n], ops[n];
      WaitedExactly(s, most, w);
      assert ops == most + [last];
      WaitStep(Run(s, most), last, w);
    }
  }

  /** While a DRead waits with afs_bufferLock, only a failing read changes what its buffer holds. */
  lemma WaitStep(s: PS, op: Op, w: Want)
    requires s.waiting == Some(w) && w.i < |s.p.bufs| && Legal(s, op) && !op.Take?
    ensures var r := Apply(s, op);
            && r.waiting == Some(w) && w.i < |r.p.bufs|
            && (op == Fail(w.i) ==> !Live(r.p.bufs[w.i]) && !r.p.bufs[w.i].filling)
            && (op != Fail(w.i) ==> r.p.bufs[w.i].fid == s.p.bufs[w.i].fid && r.p.bufs[w.i].page == s.p.bufs[w.i].page
                                    && (!s.p.bufs[w.i].filling ==> !r.p.bufs[w.i].filling))
  {
  }

  /** What the DRead then returns: with no failure in between, a reference to the page's buffer
      and the page's contents; otherwise a reference to a buffer that belongs to no page. */
  lemma TakenExactly(s: PS, ops: seq<Op>, w: Want, time: int)
    requires Inv(s) && s.waiting == Some(w) && w.i < |s.p.bufs| && Holds(s.p.bufs[w.i], w.f, w.q)
    requires LegalRun(s, ops) && (forall j :: 0 <= j < |ops| ==> !ops[j].Take?) && Legal(Run(s, ops), Take(w.i, time))
    ensures var r := Apply(Run(s, ops), Take(w.i, time));
            && w.i < |r.p.bufs| && r.p.bufs[w.i].lockers > 0
            && (Fail(w.i) !in ops ==> Shows(r.p.bufs[w.i], w.f, w.q) && View(r.p, w.f, w.q) == Some(r.p.bufs[w.i].data))
            && (Fail(w.i) in ops ==> !Live(r.p.bufs[w.i]))
  {
    RunRefines(s, ops);
    WaitedExactly(s, ops, w);
    StepRefines(Run(s, ops), Take(w.i, time));
    var r := Apply(Run(s, ops), Take(w.i, time));
    if Fail(w.i) !in ops {
      ViewHit(r.p, r.pending, w.i);
    }
  }

  /** A pool with one buffer that is free, and one file without pages. */
  function OneBuffer(f: nat, inode: nat): PS
  {
    PS(Pool([Empty()], seq(PHSIZE, _ => []), map[], map[f := inode]), {}, None)
  }

  /** Two DReads of a page that cannot be read: the first claims a buffer, the second finds it
      and waits, the first fails, and the second returns with the buffer, which by then belongs
      to no page. */
  lemma SecondReadSucceeds(f: nat, inode: nat, q: int)
    ensures var s := OneBuffer(f, inode);
            var ops := [Claim(0, f, q, 1)] + [Match(0, f, q)] + [Fail(0)] + [Take(0, 2)];
            && Inv(s) && LegalRun(s, ops)
            && (var r := Run(s, ops); |r.p.bufs| == 1 && r.p.bufs[0].lockers == 1 && r.p.bufs[0].fid == NULLIDX)
  {
    var s := OneBuffer(f, inode);
    assert !Cached(s.p, f, q);
    RunThen(s, [], Claim(0, f, q, 1));
    assert [] + [Claim(0, f, q, 1)] == [Claim(0, f, q, 1)];
    RunThen(s, [Claim(0, f, q, 1)], Match(0, f, q));
    RunThen(s, [Claim(0, f, q, 1)] + [Match(0, f, q)], Fail(0));
    RunThen(s, [Claim(0, f, q, 1)] + [Match(0, f, q)] + [Fail(0)], Take(0, 2));
  }

  // ---------------------------------------------------------------- the order of use

  predicate IsUse(op: Op)
  {
    op.Claim? || op.New? || op.Take?
  }

  /** Where buffer i was last used, if it was since the access times last restarted. */
  function LastUse(ops: seq<Op>, i: nat): (r: Option<nat>)
    ensures r.Some? ==> r.value < |ops| && IsUse(ops[r.value])
  {
    if ops == [] then None
    else
      var n := |ops| - 1;
      if ops[n].Restart? then None else if IsUse(ops[n]) && ops[n].i == i then Some(n) else LastUse(ops[..n], i)
  }

  /** Since the access times last restarted, uses were stamped with increasing positive times,
      all below the limit. */
  predicate Rising(ops: seq<Op>, limit: int)
    decreases |ops|
  {
    if ops == [] then true
    else
      var n := |ops| - 1;
      if ops[n].Restart? then true
      else if IsUse(ops[n]) then 0 < ops[n].time < limit && Rising(ops[..n], ops[n].time)
      else Rising(ops[..n], limit)
  }

  lemma RisingThen(ops: seq<Op>, op: Op, limit: int)
    requires Rising(ops, limit) && (IsUse(op) ==> 0 < op.time == limit)
    ensures Rising(ops + [op], if IsUse(op) then limit + 1 else limit)
  {
    assert (ops + [op])[..|ops|] == ops;
  }

  lemma RestartRises(ops: seq<Op>, limit: int)
    ensures Rising(ops + [Restart], limit)
  {
    assert (ops + [Restart])[|ops|] == Restart;
  }

  predicate FreshTimes(p: Pool)
  {
    forall i :: 0 <= i < |p.bufs| ==> p.bufs[i].accesstime == 0
  }

  /** A buffer's access time is that of its last use, or 0. */
  lemma {:induction false} Stamped(s: PS, ops: seq<Op>, i: nat)
    requires LegalRun(s, ops) && FreshTimes(s.p)
    ensures LastUse(ops, i).Some? ==> i < |Run(s, ops).p.bufs|
    ensures i < |Run(s, ops).p.bufs| ==>
              Run(s, ops).p.bufs[i].accesstime == var u := LastUse(ops, i); if u.Some? then ops[u.value].time else 0
    decreases |ops|
  {
    if ops != [] {
      var n := |ops| - 1;
      Stamped(s, ops[..n], i);
      StampStep(Run(s, ops[..n]), ops[n], i);
    }
  }

  lemma StampStep(s: PS, op: Op, i: nat)
    requires Legal(s, op)
    ensures var r := Apply(s, op);
            && |s.p.bufs| <= |r.p.bufs| && (IsUse(op) && op.i == i ==> i < |r.p.bufs| && r.p.bufs[i].accesstime == op.time)
            && (!(IsUse(op) && op.i == i) && i < |r.p.bufs| ==>
                  r.p.bufs[i].accesstime == if op.Restart? || i >= |s.p.bufs| then 0 else s.p.bufs[i].accesstime)
  {
  }

  /** Buffer i was not used since the restart, or buffer j was and later. */
  predicate UsedBefore(ops: seq<Op>, i: nat, j: nat)
  {
    var a, b := LastUse(ops, i), LastUse(ops, j);
    a.None? || (b.Some? && a.value <= b.value)
  }

  lemma {:induction false} RisingOrder(ops: seq<Op>, limit: int, i: nat, j: nat)
    requires Rising(ops, limit)
    ensures var a := LastUse(ops, i); a.Some? ==> 0 < ops[a.value].time < limit
    ensures var a, b := LastUse(ops, i), LastUse(ops, j);
            a.Some? && b.Some? ==> (ops[a.value].time <= ops[b.value].time <==> a.value <= b.value)
    decreases |ops|
  {
    if ops != [] && !ops[|ops| - 1].Restart? {
      var n := |ops| - 1;
      var most := ops[..n];
      var bound := if IsUse(ops[n]) then ops[n].time else limit;
      RisingOrder(most, bound, i, j);
      RisingOrder(most, bound, j, i);
    }
  }

  /** Access times follow the order of use. */
  lemma LeastRecentlyUsed(s: PS, ops: seq<Op>, limit: int, i: nat, j: nat)
    requires LegalRun(s, ops) && FreshTimes(s.p) && Rising(ops, limit)
    requires i < |Run(s, ops).p.bufs| && j < |Run(s, ops).p.bufs|
    ensures Run(s, ops).p.bufs[i].accesstime <= Run(s, ops).p.bufs[j].accesstime <==> UsedBefore(ops, i, j)
  {
    Stamped(s, ops, i);
    Stamped(s, ops, j);
    RisingOrder(ops, limit, i, j);
    RisingOrder(ops, limit, j, i);
  }
}
