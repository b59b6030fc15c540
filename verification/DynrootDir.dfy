/** The two passes of afs_RebuildDynroot over the names to be listed: sizing the directory and
    writing it. */
module DynrootDir {
  import opened Basics
  import opened DirLayout
  import opened DirBits

  class DynDir {
    const hash: string -> nat        // afs_dir_DirHash
    const pages: nat                 // pages allocated
    var cur: Cursor
    var at: map<nat, Entry>          // entries by blob number
    var bitmap: seq<bool>            // freebitmap, page after page
    var alloMap: seq<int>
    var hashTable: seq<nat>

    /** The items have been written. */
    ghost predicate Holds(items: seq<Item>)
      reads this`cur, this`at, this`bitmap, this`alloMap, this`hashTable
    {
      Written(items, pages, hash, cur, at, bitmap, alloMap, hashTable)
    }

    /** An empty directory of the given number of pages in memory that held anything. */
    constructor (hash: string -> nat, pages: nat, memory: seq<bool>)
      requires 0 < pages <= MAXPAGES && |memory| == pages * EPP && forall n :: hash(n) < NHASHENT
      ensures Holds([]) && this.hash == hash && this.pages == pages
    {
      this.hash, this.pages := hash, pages;
      cur, at := Cursor(0, DHE + 1), map[];
      bitmap := seq(DHE + 1, _ => true) + seq(EPP - DHE - 1, _ => false) + memory[EPP..];
      alloMap := [EPP - DHE - 1] + seq(MAXPAGES - 1, _ => EPP);
      hashTable := seq(NHASHENT, _ => 0);
      new;
      EmptyMarked(bitmap, pages);
    }

    /** FindItem: the entry a lookup of the name arrives at. */
    method FindItem(name: string, ghost items: seq<Item>) returns (r: Option<Item>)
      requires Threaded(at, hashTable, hash, Place(items))
      ensures r == LastNamed(items, name)
    {
      var b := hashTable[hash(name)];
      ghost var chain := ChainOf(Place(items), hash, hash(name));
      ChainFinds(items, hash, name);
      while b != 0
        invariant Leads(at, b, chain) && FirstOn(chain, name) == LastNamed(items, name)
        decreases |chain|
      {
        if at[b].item.name == name {
          return Some(at[b].item);
        }
        b, chain := at[b].next, chain[1..];
      }
      r := None;
    }

    /** Marking the blobs of an entry. */
    method Mark(from: nat, n: nat)
      requires from + n <= |bitmap|
      modifies this`bitmap
      ensures |bitmap| == |old(bitmap)|
      ensures forall b :: 0 <= b < |bitmap| ==> bitmap[b] == (old(bitmap)[b] || from <= b < from + n)
    {
      var i := from;
      while i < from + n
        invariant from <= i <= from + n && |bitmap| == |old(bitmap)|
        invariant forall b :: 0 <= b < |bitmap| ==> bitmap[b] == (old(bitmap)[b] || from <= b < i)
      {
        bitmap := bitmap[i := true];
        i := i + 1;
      }
    }

    /** A new page's header: one blob taken. */
    method NewPage(page: nat)
      requires page < pages <= MAXPAGES == |alloMap| && |bitmap| == pages * EPP
      modifies this`bitmap, this`alloMap
      ensures |bitmap| == |old(bitmap)| && alloMap == old(alloMap)[page := EPP - 1]
      ensures forall b :: 0 <= b < |bitmap| ==>
                bitmap[b] == if page * EPP <= b < page * EPP + EPP then b == page * EPP else old(bitmap)[b]
    {
      var i := 0;
      while i < EPP
        invariant 0 <= i <= EPP && |bitmap| == |old(bitmap)|
        invariant alloMap == old(alloMap)
        invariant forall b :: 0 <= b < |bitmap| ==>
                    bitmap[b] == if page * EPP <= b < page * EPP + i then b == page * EPP else old(bitmap)[b]
      {
        bitmap := bitmap[page * EPP + i := i == 0];
        i := i + 1;
      }
      alloMap := alloMap[page := EPP - 1];
    }

    /** Turning to a new page if the entry does not fit the current one. */
    method Turn(name: string, ghost items: seq<Item>)
      requires Fits(items) && cur == Walk(items) && NameBlobs(name) < EPP && Fit(cur, name).page < pages <= MAXPAGES
      requires Marked(bitmap, pages, Place(items), cur.page) && Counted(alloMap, bitmap, pages, cur.page)
      modifies this`cur, this`bitmap, this`alloMap
      ensures cur == Fit(old(cur), name)
      ensures Marked(bitmap, pages, Place(items), cur.page) && Counted(alloMap, bitmap, pages, cur.page)
    {
      FitsLaid(items);
      if cur.chunk + NameBlobs(name) > EPP {
        ghost var before := bitmap;
        cur := Cursor(cur.page + 1, 1);
        NewPage(cur.page);
        NewPageMarked(before, bitmap, pages, Place(items), cur.page);
        NewPageCounted(old(alloMap), before, bitmap, pages, cur.page);
      }
    }

    /** Taking an entry's blobs on the current page. */
    method Take(item: Item, ghost items: seq<Item>)
      requires Fits(items) && Laid(Place(items), Blob(cur)) && pages <= MAXPAGES
      requires 1 <= cur.chunk && cur.chunk + NameBlobs(item.name) <= EPP && Blob(cur) > DHE
      requires Marked(bitmap, pages, Place(items), cur.page) && Counted(alloMap, bitmap, pages, cur.page)
      modifies this`bitmap, this`alloMap
      ensures Marked(bitmap, pages, Place(items) + [Placed(item, Blob(cur))], cur.page)
      ensures Counted(alloMap, bitmap, pages, cur.page)
    {
      ghost var p := Placed(item, Blob(cur));
      BlobParts(cur);
      TakenFree(Place(items), p, cur);
      Mark(Blob(cur), NameBlobs(item.name));
      TakenMarked(old(bitmap), bitmap, pages, Place(items), p, cur.page);
      TakenCounted(old(alloMap), old(bitmap), bitmap, pages, cur.page, p);
      alloMap := alloMap[cur.page := alloMap[cur.page] - NameBlobs(item.name)];
    }

    /** Putting an entry at the front of its chain. */
    method Link(item: Item, ghost items: seq<Item>)
      requires Threaded(at, hashTable, hash, Place(items)) && Fits(items) && Laid(Place(items), Blob(cur)) && Blob(cur) > 0
      modifies this`at, this`hashTable
      ensures Threaded(at, hashTable, hash, Place(items) + [Placed(item, Blob(cur))])
    {
      var b, h := Blob(cur), hash(item.name);
      var e := Entry(item, hashTable[h]);
      ThreadedMore(at, hashTable, hash, Place(items), Placed(item, b), e);
      at := at[b := e];
      hashTable := hashTable[h := b];
    }

    /** afs_dynroot_addDirEnt. */
    method AddDirEnt(item: Item, ghost items: seq<Item>)
      requires Holds(items) && NameBlobs(item.name) < EPP && Walk(items + [item]).page < pages
      modifies this`cur, this`at, this`bitmap, this`alloMap, this`hashTable
      ensures Holds(items + [item])
    {
      WalkAppend(items, item);
      FitsLaid(items);
      FitLaid(Place(items), cur, item.name);
      Turn(item.name, items);
      Take(item, items);
      Link(item, items);
      cur := Past(cur, item.name);
    }
  }

  /** A directory of so many pages holds the items, with the cursor after them. */
  ghost predicate Written(items: seq<Item>, pages: nat, hash: string -> nat, cur: Cursor, at: map<nat, Entry>,
                          bitmap: seq<bool>, alloMap: seq<int>, hashTable: seq<nat>)
  {
    && Fits(items) && cur == Walk(items)
    && pages <= MAXPAGES && Marked(bitmap, pages, Place(items), cur.page)
    && Counted(alloMap, bitmap, pages, cur.page) && Threaded(at, hashTable, hash, Place(items))
  }

  /** freebitmap marks the headers and the entries of the pages begun. */
  ghost predicate Marked(bitmap: seq<bool>, pages: nat, ps: seq<Placed>, page: nat)
  {
    && |bitmap| == pages * EPP && page < pages
    && (forall b :: 0 <= b < (page + 1) * EPP ==> (bitmap[b] <==> Used(ps, b)))
  }

  /** alloMap counts the free blobs of the pages begun, and all blobs of the others. */
  ghost predicate Counted(alloMap: seq<int>, bitmap: seq<bool>, pages: nat, page: nat)
  {
    && |bitmap| == pages * EPP && |alloMap| == MAXPAGES && page < pages <= MAXPAGES
    && (forall p :: page < p < MAXPAGES ==> alloMap[p] == EPP)
    && (forall p :: 0 <= p <= page ==> alloMap[p] == FreeIn(bitmap, p))
  }

  /** The hash chains hold the entries, newest first. */
  ghost predicate Threaded(at: map<nat, Entry>, hashTable: seq<nat>, hash: string -> nat, ps: seq<Placed>)
  {
    && |hashTable| == NHASHENT && (forall n :: hash(n) < NHASHENT)
    && (forall h :: 0 <= h < NHASHENT ==> Leads(at, hashTable[h], ChainOf(ps, hash, h)))
  }

  function FreeIn(bitmap: seq<bool>, p: nat): nat
  {
    if (p + 1) * EPP <= |bitmap| then Zeros(bitmap, p * EPP, (p + 1) * EPP) else 0
  }

  lemma NewPageMarked(before: seq<bool>, bitmap: seq<bool>, pages: nat, ps: seq<Placed>, page: nat)
    requires 0 < page < pages && Marked(before, pages, ps, page - 1) && Laid(ps, page * EPP) && |bitmap| == |before|
    requires forall b :: 0 <= b < |bitmap| ==>
               bitmap[b] == if page * EPP <= b < page * EPP + EPP then b == page * EPP else before[b]
    ensures Marked(bitmap, pages, ps, page)
  {
  }

  lemma NewPageCounted(alloMap: seq<int>, before: seq<bool>, bitmap: seq<bool>, pages: nat, page: nat)
    requires 0 < page < pages && Counted(alloMap, before, pages, page - 1) && |bitmap| == |before|
    requires forall b :: 0 <= b < |bitmap| ==>
               bitmap[b] == if page * EPP <= b < page * EPP + EPP then b == page * EPP else before[b]
    ensures Counted(alloMap[page := EPP - 1], bitmap, pages, page)
  {
    forall p | 0 <= p < page ensures FreeIn(bitmap, p) == FreeIn(before, p) {
      ZerosSame(bitmap, before, p * EPP, (p + 1) * EPP);
    }
    ZerosAll(bitmap, page * EPP + 1, (page + 1) * EPP, false);
  }

  /** The blobs of the next entry were free. */
  lemma TakenFree(ps: seq<Placed>, p: Placed, c: Cursor)
    requires Laid(ps, Blob(c)) && p.blob == Blob(c) > DHE && 1 <= c.chunk && c.chunk + Size(p) <= EPP
    ensures forall b: nat :: Covers(p, b) ==> !Used(ps, b) && c.page * EPP <= b < (c.page + 1) * EPP
  {
  }

  lemma TakenMarked(before: seq<bool>, bitmap: seq<bool>, pages: nat, ps: seq<Placed>, p: Placed, page: nat)
    requires Marked(before, pages, ps, page) && |bitmap| == |before|
    requires forall b :: 0 <= b < |bitmap| ==> bitmap[b] == (before[b] || p.blob <= b < p.blob + Size(p))
    ensures Marked(bitmap, pages, ps + [p], page)
  {
    forall b | 0 <= b < (page + 1) * EPP ensures Used(ps + [p], b) <==> Used(ps, b) || Covers(p, b) {
      assert (ps + [p])[|ps|] == p;
      if i :| 0 <= i < |ps| && Covers(ps[i], b) {
        assert Covers((ps + [p])[i], b);
      }
    }
  }

  lemma TakenCounted(alloMap: seq<int>, before: seq<bool>, bitmap: seq<bool>, pages: nat, page: nat, p: Placed)
    requires Counted(alloMap, before, pages, page) && |bitmap| == |before|
    requires page * EPP <= p.blob && p.blob + Size(p) <= (page + 1) * EPP
    requires forall b: nat :: Covers(p, b) && b < |before| ==> !before[b]
    requires forall b :: 0 <= b < |bitmap| ==> bitmap[b] == (before[b] || p.blob <= b < p.blob + Size(p))
    ensures Counted(alloMap[page := alloMap[page] - Size(p)], bitmap, pages, page)
  {
    forall q | 0 <= q < page ensures FreeIn(bitmap, q) == FreeIn(before, q) {
      ZerosSame(bitmap, before, q * EPP, (q + 1) * EPP);
    }
    assert forall b :: p.blob <= b < p.blob + Size(p) ==> Covers(p, b);
    ZerosTaken(before, bitmap, page * EPP, (page + 1) * EPP, p.blob, Size(p));
  }

  lemma ThreadedMore(at: map<nat, Entry>, hashTable: seq<nat>, hash: string -> nat, ps: seq<Placed>, p: Placed, e: Entry)
    requires Threaded(at, hashTable, hash, ps) && Laid(ps, p.blob) && p.blob > 0
    requires e == Entry(p.item, hashTable[hash(p.item.name)])
    ensures Threaded(at[p.blob := e], hashTable[hash(p.item.name) := p.blob], hash, ps + [p])
  {
    assert (ps + [p])[..|ps|] == ps;
    forall k | 0 <= k < NHASHENT ensures Leads(at[p.blob := e], hashTable[k], ChainOf(ps, hash, k)) {
      ChainFrom(ps, hash, k);
      LeadsFrame(at, hashTable[k], ChainOf(ps, hash, k), p.blob, e);
    }
  }

  /** The header of the first page alone. */
  lemma EmptyMarked(bitmap: seq<bool>, pages: nat)
    requires 0 < pages && |bitmap| == pages * EPP && forall b :: 0 <= b < EPP ==> bitmap[b] == (b <= DHE)
    ensures Marked(bitmap, pages, [], 0) && FreeIn(bitmap, 0) == EPP - DHE - 1
  {
    ZerosSplit(bitmap, 0, DHE + 1, EPP);
    ZerosAll(bitmap, 0, DHE + 1, true);
    ZerosAll(bitmap, DHE + 1, EPP, false);
  }
}
