/** The directory page buffers of afs_buffer.c as values: a pool of buffers over the cache
    files, and the flat store of (file, page) contents that the pool stands for.  The lemmas
    say what each kind of change does to that store; BufferCache applies them to the code. */
module PagePool {
  import opened Basics
  import opened Seqs

  const PHPAGEMASK: nat := 3
  const PHSIZE: nat := 128
  const AFS_BUFFER_PAGESIZE: nat := 2048

  type Page = Bytes

  function ZeroPage(): Page
  {
    seq(AFS_BUFFER_PAGESIZE, _ => 0)
  }

  /** struct buffer.  `fid` is a cache slot number (the index of a dcache entry), or NULLIDX;
      `filling` says that a DRead holds the buffer's lock while it reads the page in. */
  datatype Buffer = Buffer(fid: int, inode: nat, page: int, accesstime: int, lockers: nat, dirty: bool,
                           hashIndex: nat, data: Page, filling: bool)

  /** Buffers, the chain of buffer numbers in each hash bucket, the pages on disk by inode and
      page number, and the inode of each cache slot's file. */
  datatype Pool = Pool(bufs: seq<Buffer>, chains: seq<seq<nat>>, disk: map<(nat, int), Page>, files: map<nat, nat>)

  /** pHash: five bits of the slot number and the last two of the page number.  Euclidean
      division and remainder are what `&` computes on two's complement integers. */
  function PHash(fid: int, page: int): (h: nat)
    ensures h < PHSIZE
  {
    (fid % 128) / 4 * 4 + page % 4
  }

  predicate Live(b: Buffer)
  {
    b.fid >= 0
  }

  predicate Holds(b: Buffer, f: nat, q: int)
  {
    b.fid == f && b.page == q
  }

  /** What the buffer contains is the page. */
  predicate Shows(b: Buffer, f: nat, q: int)
  {
    Holds(b, f, q) && !b.filling
  }

  predicate Cached(p: Pool, f: nat, q: int)
  {
    exists i :: 0 <= i < |p.bufs| && Holds(p.bufs[i], f, q)
  }

  function DiskAt(p: Pool, inode: nat, q: int): Option<Page>
  {
    if (inode, q) in p.disk then Some(p.disk[(inode, q)]) else None
  }

  /** The flat store: what page q of file f contains. */
  ghost function View(p: Pool, f: nat, q: int): Option<Page>
  {
    if i :| 0 <= i < |p.bufs| && Shows(p.bufs[i], f, q) then Some(p.bufs[i].data)
    else if f in p.files then DiskAt(p, p.files[f], q) else None
  }

  /** Every live buffer is on exactly the chain its file and page hash to; a dead one may sit
      on the chain it remembers, or on none. */
  ghost predicate Hashed(p: Pool)
  {
    && |p.chains| == PHSIZE
    && (forall c :: 0 <= c < PHSIZE ==> Distinct(p.chains[c]))
    && (forall c, k :: 0 <= c < PHSIZE && 0 <= k < |p.chains[c]| ==>
          p.chains[c][k] < |p.bufs| && p.bufs[p.chains[c][k]].hashIndex == c)
    && (forall i :: 0 <= i < |p.bufs| ==> OnChain(p, i))
  }

  ghost predicate OnChain(p: Pool, i: nat)
    requires i < |p.bufs| && |p.chains| == PHSIZE
  {
    var b := p.bufs[i];
    b.hashIndex < PHSIZE && (Live(b) ==> b.hashIndex == PHash(b.fid, b.page) && i in p.chains[b.hashIndex])
  }

  /** At most one buffer per page; buffers know their file's inode; only live buffers are dirty
      or being filled; and a clean buffer nobody has written to since equals the disk. */
  ghost predicate Core(p: Pool, pending: set<nat>)
  {
    && Hashed(p)
    && (forall f, g :: f in p.files && g in p.files && p.files[f] == p.files[g] ==> f == g)
    && (forall i, j :: 0 <= i < j < |p.bufs| && Live(p.bufs[i]) ==> !Holds(p.bufs[j], p.bufs[i].fid, p.bufs[i].page))
    && (forall i :: 0 <= i < |p.bufs| ==> Coherent(p, pending, i))
  }

  ghost predicate Coherent(p: Pool, pending: set<nat>, i: nat)
    requires i < |p.bufs|
  {
    var b := p.bufs[i];
    && (b.dirty ==> Live(b) && !b.filling)
    && (b.filling ==> Live(b))
    && (Live(b) ==> b.fid in p.files && p.files[b.fid] == b.inode)
    && (Live(b) && !b.dirty && !b.filling && i !in pending ==> DiskAt(p, b.inode, b.page) == Some(b.data))
  }

  /** The same store in two pools, except perhaps one page. */
  ghost predicate SameViewExcept(p: Pool, r: Pool, f0: nat, q0: int)
  {
    forall f: nat, q: int :: f != f0 || q != q0 ==> View(r, f, q) == View(p, f, q)
  }

  ghost predicate SameView(p: Pool, r: Pool)
  {
    forall f: nat, q: int :: View(r, f, q) == View(p, f, q)
  }

  // ---------------------------------------------------------------- reading the store

  lemma ViewHit(p: Pool, pending: set<nat>, i: nat)
    requires Core(p, pending) && i < |p.bufs| && Live(p.bufs[i]) && !p.bufs[i].filling
    ensures View(p, p.bufs[i].fid, p.bufs[i].page) == Some(p.bufs[i].data)
  {
    assert Shows(p.bufs[i], p.bufs[i].fid, p.bufs[i].page);
  }

  /** While a page is being read in, its contents are still those on disk. */
  lemma ViewFilling(p: Pool, pending: set<nat>, i: nat)
    requires Core(p, pending) && i < |p.bufs| && p.bufs[i].filling
    ensures Live(p.bufs[i]) && View(p, p.bufs[i].fid, p.bufs[i].page) == DiskAt(p, p.bufs[i].inode, p.bufs[i].page)
  {
    assert Coherent(p, pending, i);
    assert Holds(p.bufs[i], p.bufs[i].fid, p.bufs[i].page);
  }

  lemma ViewMiss(p: Pool, f: nat, q: int)
    requires !Cached(p, f, q) && f in p.files
    ensures View(p, f, q) == DiskAt(p, p.files[f], q)
  {
  }

  /** A buffer for the page, if there is one, is on the page's chain: a miss on the chain is a
      miss everywhere. */
  lemma ChainMiss(p: Pool, f: nat, q: int)
    requires Hashed(p)
    requires forall k :: 0 <= k < |p.chains[PHash(f, q)]| ==>
               p.chains[PHash(f, q)][k] < |p.bufs| && !Holds(p.bufs[p.chains[PHash(f, q)][k]], f, q)
    ensures !Cached(p, f, q)
  {
    forall i | 0 <= i < |p.bufs| ensures !Holds(p.bufs[i], f, q) {
      assert OnChain(p, i);
    }
  }

  /** Four chains reach every buffer of a file, whatever its page number. */
  lemma FourChains(p: Pool, f: nat, i: nat)
    requires Hashed(p) && i < |p.bufs| && p.bufs[i].fid == f
    ensures exists n :: 0 <= n <= PHPAGEMASK && i in p.chains[PHash(f, n)]
  {
    var n := p.bufs[i].page % 4;
    assert OnChain(p, i);
    assert PHash(f, n) == PHash(f, p.bufs[i].page) && 0 <= n <= PHPAGEMASK;
  }

  // ---------------------------------------------------------------- changes that keep it

  /** Access times and reference counts are not part of the store. */
  predicate Alike(a: Buffer, b: Buffer)
  {
    a == b.(accesstime := a.accesstime, lockers := a.lockers)
  }

  lemma AlikeKeeps(p: Pool, r: Pool, pending: set<nat>)
    requires Core(p, pending)
    requires r.chains == p.chains && r.disk == p.disk && r.files == p.files && |r.bufs| == |p.bufs|
    requires forall i :: 0 <= i < |p.bufs| ==> Alike(p.bufs[i], r.bufs[i])
    ensures Core(r, pending) && SameView(p, r)
  {
    forall i | 0 <= i < |p.bufs| ensures OnChain(r, i) && Coherent(r, pending, i) {
      assert OnChain(p, i) && Coherent(p, pending, i);
    }
    SameLookups(p, r, pending);
  }

  /** Pools in which the same buffers hold the same pages with the same data, over disks that
      agree on the pages not held, show the same store. */
  lemma SameLookups(p: Pool, r: Pool, pending: set<nat>)
    requires Core(p, pending) && |r.bufs| >= |p.bufs| && r.files == p.files
    requires forall i :: 0 <= i < |p.bufs| ==>
               r.bufs[i].fid == p.bufs[i].fid && r.bufs[i].page == p.bufs[i].page && r.bufs[i].data == p.bufs[i].data
               && r.bufs[i].filling == p.bufs[i].filling
    requires forall i :: |p.bufs| <= i < |r.bufs| ==> !Live(r.bufs[i])
    requires forall f: nat, q: int :: f in p.files && !Shown(p, f, q) ==>
               DiskAt(r, p.files[f], q) == DiskAt(p, p.files[f], q)
    ensures SameView(p, r)
  {
    forall f: nat, q: int ensures View(r, f, q) == View(p, f, q) {
      LookupSame(p, r, pending, f, q);
    }
  }

  lemma LookupSame(p: Pool, r: Pool, pending: set<nat>, f: nat, q: int)
    requires Core(p, pending) && |r.bufs| >= |p.bufs| && r.files == p.files
    requires forall i :: 0 <= i < |p.bufs| ==>
               r.bufs[i].fid == p.bufs[i].fid && r.bufs[i].page == p.bufs[i].page && r.bufs[i].data == p.bufs[i].data
               && r.bufs[i].filling == p.bufs[i].filling
    requires forall i :: |p.bufs| <= i < |r.bufs| ==> !Live(r.bufs[i])
    requires f in p.files && !Shown(p, f, q) ==> DiskAt(r, p.files[f], q) == DiskAt(p, p.files[f], q)
    ensures View(r, f, q) == View(p, f, q)
  {
    forall j | 0 <= j < |r.bufs| && Shows(r.bufs[j], f, q) ensures j < |p.bufs| && Shows(p.bufs[j], f, q) {
    }
    if i :| 0 <= i < |p.bufs| && Shows(p.bufs[i], f, q) {
      assert Shows(r.bufs[i], f, q);
    }
  }

  predicate Shown(p: Pool, f: nat, q: int)
  {
    exists i :: 0 <= i < |p.bufs| && Shows(p.bufs[i], f, q)
  }

  /** DFlushBuffer: writes buffer i to its file and marks it clean. */
  function Flushed(p: Pool, i: nat): (r: Pool)
    requires i < |p.bufs|
  {
    var b := p.bufs[i];
    p.(bufs := p.bufs[i := b.(dirty := false)], disk := p.disk[(b.inode, b.page) := b.data])
  }

  lemma FlushedKeeps(p: Pool, pending: set<nat>, i: nat)
    requires Core(p, pending) && i < |p.bufs| && Live(p.bufs[i]) && !p.bufs[i].filling
    ensures Core(Flushed(p, i), pending) && SameView(p, Flushed(p, i))
    ensures DiskAt(Flushed(p, i), p.bufs[i].inode, p.bufs[i].page) == Some(p.bufs[i].data)
  {
    var r := Flushed(p, i);
    assert Coherent(p, pending, i);
    forall j | 0 <= j < |p.bufs| ensures OnChain(r, j) && Coherent(r, pending, j) {
      assert OnChain(p, j) && Coherent(p, pending, j);
      if j != i && Live(p.bufs[j]) && p.bufs[j].inode == p.bufs[i].inode {
        assert p.bufs[j].fid == p.bufs[i].fid;
        assert Holds(p.bufs[i], p.bufs[i].fid, p.bufs[i].page) && Holds(p.bufs[j], p.bufs[j].fid, p.bufs[j].page);
      }
    }
    forall f: nat, q: int | f in p.files && !Shown(p, f, q)
      ensures DiskAt(r, p.files[f], q) == DiskAt(p, p.files[f], q)
    {
      assert !Shows(p.bufs[i], f, q);
    }
    SameLookups(p, r, pending);
  }

  function Empty(): Buffer
  {
    Buffer(NULLIDX, 0, 0, 0, 0, false, 0, ZeroPage(), false)
  }

  function Empties(n: nat): (r: seq<Buffer>)
    ensures |r| == n && forall i :: 0 <= i < n ==> r[i] == Empty()
  {
    seq(n, _ => Empty())
  }

  /** The pool grown by n fresh buffers. */
  function Grown(p: Pool, n: nat): (r: Pool)
  {
    p.(bufs := p.bufs + Empties(n))
  }

  lemma GrownKeeps(p: Pool, pending: set<nat>, n: nat)
    requires Core(p, pending)
    ensures Core(Grown(p, n), pending) && SameView(p, Grown(p, n))
  {
    var r := Grown(p, n);
    forall i | 0 <= i < |r.bufs| ensures OnChain(r, i) && Coherent(r, pending, i) {
      if i < |p.bufs| { assert OnChain(p, i) && Coherent(p, pending, i) && r.bufs[i] == p.bufs[i]; }
    }
    SameLookups(p, r, pending);
  }

  /** A clean, unheld buffer i is given to page q of file f: refiled on that page's chain,
      zeroed, and not yet showing the page. */
  function Refiled(p: Pool, i: nat, f: nat, inode: nat, q: int, time: int): (r: Pool)
    requires i < |p.bufs| && |p.chains| == PHSIZE && p.bufs[i].hashIndex < PHSIZE
  {
    var b, h := p.bufs[i], PHash(f, q);
    var pulled := p.chains[b.hashIndex := Without(p.chains[b.hashIndex], i)];
    p.(bufs := p.bufs[i := b.(fid := f, inode := inode, page := q, accesstime := time, hashIndex := h, data := ZeroPage(),
                                     filling := true)],
       chains := pulled[h := [i] + pulled[h]])
  }

  lemma RefiledHashed(p: Pool, i: nat, f: nat, inode: nat, q: int, time: int)
    requires Hashed(p) && i < |p.bufs| && p.bufs[i].hashIndex < PHSIZE
    ensures Hashed(Refiled(p, i, f, inode, q, time))
  {
    var r, h, h0 := Refiled(p, i, f, inode, q, time), PHash(f, q), p.bufs[i].hashIndex;
    var pulled := p.chains[h0 := Without(p.chains[h0], i)];
    forall c | 0 <= c < PHSIZE ensures i !in pulled[c] && Distinct(pulled[c]) {
    }
    DistinctConcat([i], pulled[h]);
    forall c, k | 0 <= c < PHSIZE && 0 <= k < |r.chains[c]|
      ensures r.chains[c][k] < |r.bufs| && r.bufs[r.chains[c][k]].hashIndex == c
    {
      var x := r.chains[c][k];
      if c != h || k > 0 {
        assert x in pulled[c] && x in p.chains[c];
        var m :| 0 <= m < |p.chains[c]| && p.chains[c][m] == x;
      }
    }
    forall j | 0 <= j < |r.bufs| ensures OnChain(r, j) {
      assert OnChain(p, j);
    }
  }

  lemma RefiledKeeps(p: Pool, pending: set<nat>, i: nat, f: nat, q: int, time: int)
    requires Core(p, pending) && i < |p.bufs| && !p.bufs[i].dirty && !p.bufs[i].filling && i !in pending
    requires f in p.files && !Cached(p, f, q) && p.bufs[i].hashIndex < PHSIZE
    ensures var r := Refiled(p, i, f, p.files[f], q, time); Core(r, pending) && SameView(p, r)
  {
    var r := Refiled(p, i, f, p.files[f], q, time);
    RefiledHashed(p, i, f, p.files[f], q, time);
    forall j | 0 <= j < |p.bufs| ensures Coherent(r, pending, j) && !Holds(p.bufs[j], f, q) {
      assert Coherent(p, pending, j);
    }
    forall g: nat, m: int ensures View(r, g, m) == View(p, g, m) {
      if j :| 0 <= j < |p.bufs| && Shows(p.bufs[j], g, m) {
        assert forall k :: 0 <= k < |p.bufs| && Holds(p.bufs[k], g, m) ==> k == j;
        if j != i {
          assert Shows(r.bufs[j], g, m);
        } else {
          assert Coherent(p, pending, i);
        }
      }
    }
  }

  /** A change confined to buffer i, which keeps its page or forgets it, shows on no other page. */
  lemma OthersSame(p: Pool, r: Pool, pending: set<nat>, i: nat)
    requires Core(p, pending) && i < |p.bufs| == |r.bufs| && Live(p.bufs[i])
    requires r.files == p.files && r.disk == p.disk && forall j :: 0 <= j < |p.bufs| && j != i ==> r.bufs[j] == p.bufs[j]
    requires Live(r.bufs[i]) ==> Holds(r.bufs[i], p.bufs[i].fid, p.bufs[i].page)
    ensures SameViewExcept(p, r, p.bufs[i].fid, p.bufs[i].page)
  {
    forall g: nat, m: int | g != p.bufs[i].fid || m != p.bufs[i].page ensures View(r, g, m) == View(p, g, m) {
      assert forall k :: 0 <= k < |p.bufs| ==> (Shows(r.bufs[k], g, m) <==> k != i && Shows(p.bufs[k], g, m));
      if j :| 0 <= j < |p.bufs| && Shows(p.bufs[j], g, m) {
        assert Shows(r.bufs[j], g, m);
      }
    }
  }

  /** The data of buffer i becomes d, by a holder's store, by a read from disk or as a new page;
      the buffer shows it. */
  function Stored(p: Pool, i: nat, d: Page): (r: Pool)
    requires i < |p.bufs|
  {
    p.(bufs := p.bufs[i := p.bufs[i].(data := d, filling := false)])
  }

  lemma StoredKeeps(p: Pool, pending: set<nat>, i: nat, d: Page)
    requires Core(p, pending) && i < |p.bufs| && Live(p.bufs[i])
    ensures var r, b := Stored(p, i, d), p.bufs[i];
            && Core(r, pending + {i}) && SameViewExcept(p, r, b.fid, b.page) && View(r, b.fid, b.page) == Some(d)
            && (DiskAt(p, b.inode, b.page) == Some(d) ==> Core(r, pending - {i}))
  {
    var r, b := Stored(p, i, d), p.bufs[i];
    forall j | 0 <= j < |p.bufs| ensures OnChain(r, j) && Coherent(r, pending + {i}, j) {
      assert OnChain(p, j) && Coherent(p, pending, j);
    }
    assert Shows(r.bufs[i], b.fid, b.page);
    OthersSame(p, r, pending, i);
    if DiskAt(p, b.inode, b.page) == Some(d) {
      forall j | 0 <= j < |p.bufs| ensures Coherent(r, pending - {i}, j) {
        assert Coherent(p, pending, j);
      }
    }
  }

  /** Buffer i forgets its page (DZap, or a read that failed). */
  function Forgotten(p: Pool, i: nat): (r: Pool)
    requires i < |p.bufs|
  {
    p.(bufs := p.bufs[i := p.bufs[i].(fid := NULLIDX, inode := 0, dirty := false, filling := false)])
  }

  lemma ForgottenKeeps(p: Pool, pending: set<nat>, i: nat)
    requires Core(p, pending) && i < |p.bufs| && Live(p.bufs[i])
    ensures var r, b := Forgotten(p, i), p.bufs[i];
            && Core(r, pending - {i}) && SameViewExcept(p, r, b.fid, b.page)
            && b.fid in p.files && View(r, b.fid, b.page) == DiskAt(p, p.files[b.fid], b.page)
  {
    var r, b := Forgotten(p, i), p.bufs[i];
    forall j | 0 <= j < |p.bufs| ensures OnChain(r, j) && Coherent(r, pending - {i}, j) {
      assert OnChain(p, j) && Coherent(p, pending, j);
    }
    assert Coherent(p, pending, i);
    assert Holds(b, b.fid, b.page);
    forall j | 0 <= j < |p.bufs| ensures !Holds(r.bufs[j], b.fid, b.page) {
      if j != i && Live(p.bufs[j]) && j < i { assert !Holds(p.bufs[i], p.bufs[j].fid, p.bufs[j].page); }
    }
    OthersSame(p, r, pending, i);
  }

  /** Marking a held buffer dirty settles the stores made to it. */
  lemma DirtiedKeeps(p: Pool, pending: set<nat>, i: nat)
    requires Core(p, pending) && i < |p.bufs| && Live(p.bufs[i]) && !p.bufs[i].filling
    ensures var r := p.(bufs := p.bufs[i := p.bufs[i].(dirty := true)]); Core(r, pending - {i}) && SameView(p, r)
  {
    var r := p.(bufs := p.bufs[i := p.bufs[i].(dirty := true)]);
    forall j | 0 <= j < |p.bufs| ensures OnChain(r, j) && Coherent(r, pending - {i}, j) {
      assert OnChain(p, j) && Coherent(p, pending, j);
    }
    SameLookups(p, r, pending);
  }

  /** A pool in which nothing is dirty and nobody has unsettled stores shows what is on disk. */
  lemma CleanViewIsDisk(p: Pool, pending: set<nat>, f: nat, q: int)
    requires Core(p, pending) && f in p.files
    requires forall i :: 0 <= i < |p.bufs| && Holds(p.bufs[i], f, q) ==> !p.bufs[i].dirty && i !in pending
    ensures View(p, f, q) == DiskAt(p, p.files[f], q)
  {
    if i :| 0 <= i < |p.bufs| && Shows(p.bufs[i], f, q) {
      assert Coherent(p, pending, i);
      ViewHit(p, pending, i);
    }
  }

  /** Reordering a chain changes nothing: s and t have the same members. */
  lemma ReorderedKeeps(p: Pool, pending: set<nat>, c: nat, s: seq<nat>)
    requires Core(p, pending) && c < PHSIZE && Distinct(s) && forall x :: x in s <==> x in p.chains[c]
    ensures var r := p.(chains := p.chains[c := s]); Core(r, pending) && SameView(p, r)
  {
    var r := p.(chains := p.chains[c := s]);
    forall k | 0 <= k < |s| ensures s[k] < |p.bufs| && p.bufs[s[k]].hashIndex == c {
      assert s[k] in p.chains[c];
    }
    forall i | 0 <= i < |p.bufs| ensures OnChain(r, i) && Coherent(r, pending, i) {
      assert OnChain(p, i) && Coherent(p, pending, i);
    }
  }
}
