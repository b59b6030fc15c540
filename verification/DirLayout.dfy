/** How afs_dynroot.c lays out directory entries: 64 blobs of 32 bytes to a page, an entry
    never crossing a page, blobs 0 to 12 of the first page and blob 0 of the others taken by
    headers. */
module DirLayout {

  const AFS_PAGESIZE: nat := 2048
  const EPP: nat := 64
  const DHE: nat := 12
  const MAXPAGES: nat := 128
  const NHASHENT: nat := 128

  /** afs_dir_NameBlobs. */
  function NameBlobs(name: string): nat
  {
    1 + (|name| + 1 + 15) / 32
  }

  datatype Cursor = Cursor(page: nat, chunk: nat)

  /** What is to be listed: a name and the vnode number it leads to. */
  datatype Item = Item(name: string, vnode: nat)

  /** An item in its place; blobs are numbered through all pages. */
  datatype Placed = Placed(item: Item, blob: nat)

  function Size(p: Placed): nat
  {
    NameBlobs(p.item.name)
  }

  /** Where an entry of this name goes. */
  function Fit(c: Cursor, name: string): Cursor
  {
    if c.chunk + NameBlobs(name) > EPP then Cursor(c.page + 1, 1) else c
  }

  function Blob(c: Cursor): nat
  {
    c.page * EPP + c.chunk
  }

  function Past(c: Cursor, name: string): Cursor
  {
    Cursor(c.page, c.chunk + NameBlobs(name))
  }

  function Next(c: Cursor, name: string): Cursor
  {
    Past(Fit(c, name), name)
  }

  /** The cursor after the items. */
  function Walk(items: seq<Item>): Cursor
  {
    if items == [] then Cursor(0, DHE + 1) else Next(Walk(items[..|items| - 1]), items[|items| - 1].name)
  }

  /** The items in their places. */
  function Place(items: seq<Item>): (ps: seq<Placed>)
    ensures |ps| == |items| && forall i :: 0 <= i < |ps| ==> ps[i].item == items[i]
  {
    if items == [] then [] else
      var most, last := items[..|items| - 1], items[|items| - 1];
      Place(most) + [Placed(last, Blob(Fit(Walk(most), last.name)))]
  }

  predicate Fits(items: seq<Item>)
  {
    forall i :: 0 <= i < |items| ==> NameBlobs(items[i].name) < EPP
  }

  predicate Header(b: nat)
  {
    b <= DHE || b % EPP == 0
  }

  predicate Covers(p: Placed, b: nat)
  {
    p.blob <= b < p.blob + Size(p)
  }

  ghost predicate Used(ps: seq<Placed>, b: nat)
  {
    Header(b) || exists i :: 0 <= i < |ps| && Covers(ps[i], b)
  }

  /** In order, none overlapping another or a header, none crossing a page. */
  ghost predicate Laid(ps: seq<Placed>, end: nat)
  {
    && (forall i :: 0 <= i < |ps| ==> ps[i].blob + Size(ps[i]) <= end && 1 <= ps[i].blob % EPP && ps[i].blob > DHE
                                       && ps[i].blob % EPP + Size(ps[i]) <= EPP)
    && (forall i, j :: 0 <= i < j < |ps| ==> ps[i].blob + Size(ps[i]) <= ps[j].blob)
  }

  lemma BlobParts(c: Cursor)
    requires c.chunk < EPP
    ensures Blob(c) % EPP == c.chunk && Blob(c) / EPP == c.page
  {
  }

  /** Room for one more entry, after those already placed. */
  lemma FitLaid(ps: seq<Placed>, c: Cursor, name: string)
    requires Laid(ps, Blob(c)) && 1 <= c.chunk <= EPP && Blob(c) > DHE && NameBlobs(name) < EPP
    ensures var f := Fit(c, name); Laid(ps, Blob(f)) && 1 <= f.chunk && Blob(f) > DHE && f.chunk + NameBlobs(name) <= EPP
  {
  }

  /** Every list of names that fit a page is laid out properly, within the pages walked. */
  lemma {:induction false} FitsLaid(items: seq<Item>)
    requires Fits(items)
    ensures Laid(Place(items), Blob(Walk(items)))
    ensures 1 <= Walk(items).chunk <= EPP && Blob(Walk(items)) > DHE
    decreases |items|
  {
    if items != [] {
      var most, last := items[..|items| - 1], items[|items| - 1];
      FitsLaid(most);
      FitLaid(Place(most), Walk(most), last.name);
      var c := Fit(Walk(most), last.name);
      BlobParts(c);
      LaidMore(Place(most), Placed(last, Blob(c)));
    }
  }

  lemma LaidMore(ps: seq<Placed>, p: Placed)
    requires Laid(ps, p.blob) && 1 <= p.blob % EPP && p.blob > DHE && p.blob % EPP + Size(p) <= EPP
    ensures Laid(ps + [p], p.blob + Size(p))
  {
  }

  /** A list is laid out properly if and only if every name fits a page. */
  lemma PlaceLaid(items: seq<Item>)
    ensures Laid(Place(items), Blob(Walk(items))) <==> Fits(items)
    ensures Fits(items) ==> 1 <= Walk(items).chunk <= EPP && Blob(Walk(items)) > DHE
  {
    if Fits(items) {
      FitsLaid(items);
    } else {
      var i :| 0 <= i < |items| && NameBlobs(items[i].name) >= EPP;
      assert Size(Place(items)[i]) >= EPP;
    }
  }

  // ---------------------------------------------------------------- what is written, and where

  /** Where item i is written: the page, and the blob on it. */
  function At(items: seq<Item>, i: nat): Cursor
    requires i < |items|
  {
    Fit(Walk(items[..i]), items[i].name)
  }

  /** How many bytes an entry takes: its header, its name and a 0. */
  function Bytes(name: string): nat
  {
    12 + |name| + 1
  }

  /** The bytes of entry i end within its page. */
  predicate InPage(items: seq<Item>, i: nat)
    requires i < |items|
  {
    32 * At(items, i).chunk + Bytes(items[i].name) <= AFS_PAGESIZE
  }

  /** The bits that mark entry i are among the 64 of its page's bitmap, and what it takes from its
      page's count is there. */
  predicate InBitmap(items: seq<Item>, i: nat)
    requires i < |items|
  {
    At(items, i).chunk + NameBlobs(items[i].name) <= EPP
  }

  /** The count of entry i's page is one of the 128 of alloMap. */
  predicate InAlloMap(items: seq<Item>, i: nat)
    requires i < |items|
  {
    At(items, i).page < MAXPAGES
  }

  lemma {:induction false} ChunkPositive(items: seq<Item>)
    ensures Walk(items).chunk >= 1
    decreases |items|
  {
    if items != [] {
      ChunkPositive(items[..|items| - 1]);
    }
  }

  /** An entry's bytes lie in the blobs that are marked for it. */
  lemma BytesInBlobs(name: string)
    ensures Bytes(name) <= 32 * NameBlobs(name)
  {
  }

  /** n blobs hold names of up to 32n - 17 characters. */
  lemma BlobsExactly(name: string, n: nat)
    requires n > 0
    ensures NameBlobs(name) <= n <==> |name| <= 32 * n - 17
  {
  }

  /** Entries follow one another without a gap: each is next to the one before, or after the header of
      the first page, unless it does not fit there; then it is the first of the next page. */
  lemma Packed(items: seq<Item>, i: nat)
    requires i < |items|
    ensures var page := if i == 0 then 0 else At(items, i - 1).page;
            var chunk := if i == 0 then 13 else At(items, i - 1).chunk + NameBlobs(items[i - 1].name);
            if chunk + NameBlobs(items[i].name) <= 64 then At(items, i) == Cursor(page, chunk) else At(items, i) == Cursor(page + 1, 1)
  {
    if i > 0 {
      assert items[..i][..i - 1] == items[..i - 1];
    }
  }

  /** One entry: at most 2003 characters fit a page, although 2000 already need 64 blobs. */
  lemma OneInPage(items: seq<Item>, i: nat)
    requires i < |items|
    ensures InPage(items, i) <==> |items[i].name| <= 2003
    ensures InBitmap(items, i) <==> NameBlobs(items[i].name) < EPP
  {
    ChunkPositive(items[..i]);
    var c, name := At(items, i), items[i].name;
    if NameBlobs(name) < EPP {
      BytesInBlobs(name);
    } else {
      assert c.chunk == 1;
    }
  }

  /** No entry's bytes run over the end of its page if and only if no name is longer than 2003
      characters. */
  lemma InPageExactly(items: seq<Item>)
    ensures (forall i :: 0 <= i < |items| ==> InPage(items, i)) <==> forall i :: 0 <= i < |items| ==> |items[i].name| <= 2003
  {
    forall i | 0 <= i < |items| ensures InPage(items, i) <==> |items[i].name| <= 2003 {
      OneInPage(items, i);
    }
  }

  /** All bits and counts are right if and only if every name has fewer than 64 blobs. */
  lemma InBitmapExactly(items: seq<Item>)
    ensures (forall i :: 0 <= i < |items| ==> InBitmap(items, i)) <==> Fits(items)
  {
    forall i | 0 <= i < |items| ensures InBitmap(items, i) <==> NameBlobs(items[i].name) < EPP {
      OneInPage(items, i);
    }
  }

  /** Every page has its count if and only if there are at most 128 pages. */
  lemma InAlloMapExactly(items: seq<Item>)
    ensures (forall i :: 0 <= i < |items| ==> InAlloMap(items, i)) <==> Walk(items).page < MAXPAGES
  {
    if Walk(items).page < MAXPAGES {
      forall i | 0 <= i < |items| ensures InAlloMap(items, i) {
        WalkGrows(items, i + 1);
        assert items[..i + 1][..i] == items[..i];
      }
    } else {
      assert At(items, |items| - 1).page == Walk(items).page;
      assert !InAlloMap(items, |items| - 1);
    }
  }

  // ---------------------------------------------------------------- listings and parts of them

  /** c is no further on than d. */
  predicate NotPast(c: Cursor, d: Cursor)
  {
    c.page < d.page || (c.page == d.page && c.chunk <= d.chunk)
  }

  lemma NextNotPast(c: Cursor, d: Cursor, name: string)
    requires NotPast(c, d) && d.chunk >= 1
    ensures NotPast(Next(c, name), Next(d, name)) && NotPast(c, Next(d, name))
  {
  }

  /** Where the items lead from a cursor. */
  function From(c: Cursor, g: seq<Item>): Cursor
  {
    if g == [] then c else Next(From(c, g[..|g| - 1]), g[|g| - 1].name)
  }

  lemma {:induction false} WalkFrom(a: seq<Item>, g: seq<Item>)
    ensures Walk(a + g) == From(Walk(a), g)
    decreases |g|
  {
    if g == [] {
      assert a + g == a;
    } else {
      var all, most := a + g, g[..|g| - 1];
      WalkFrom(a, most);
      assert all[..|all| - 1] == a + most;
    }
  }

  /** The same entries from an earlier place end no later, and so do none of them. */
  lemma {:induction false} FromNotPast(c: Cursor, d: Cursor, g: seq<Item>)
    requires NotPast(c, d) && d.chunk >= 1
    ensures NotPast(From(c, g), From(d, g)) && NotPast(c, From(d, g)) && From(d, g).chunk >= 1
    decreases |g|
  {
    if g != [] {
      var most, name := g[..|g| - 1], g[|g| - 1].name;
      FromNotPast(c, d, most);
      NextNotPast(From(c, most), From(d, most), name);
      NextNotPast(c, From(d, most), name);
    }
  }

  lemma AppendNotPast(a: seq<Item>, b: seq<Item>, g: seq<Item>)
    requires NotPast(Walk(a), Walk(b))
    ensures NotPast(Walk(a + g), Walk(b + g)) && NotPast(Walk(a), Walk(b + g))
  {
    ChunkPositive(b);
    WalkFrom(a, g);
    WalkFrom(b, g);
    FromNotPast(Walk(a), Walk(b), g);
  }

  /** Blobs placed do not overlap headers: what Laid says of each, blob by blob. */
  lemma NoneShared(ps: seq<Placed>, end: nat, i: nat, j: nat, b: nat)
    requires Laid(ps, end) && i < |ps| && j < |ps| && Covers(ps[i], b)
    ensures !Header(b) && (Covers(ps[j], b) ==> i == j) && b < end
  {
  }

  /** Pages are only added. */
  lemma {:induction false} WalkGrows(items: seq<Item>, n: nat)
    requires n <= |items|
    ensures Walk(items[..n]).page <= Walk(items).page
    decreases |items|
  {
    if n < |items| {
      var most := items[..|items| - 1];
      WalkGrows(most, n);
      assert most[..n] == items[..n];
    } else {
      assert items[..n] == items;
    }
  }

  lemma WalkAppend(items: seq<Item>, item: Item)
    ensures Walk(items + [item]) == Next(Walk(items), item.name)
    ensures Place(items + [item]) == Place(items) + [Placed(item, Blob(Fit(Walk(items), item.name)))]
  {
  }

  /** A prefix needs no more pages. */
  lemma PrefixPage(part: seq<Item>, items: seq<Item>)
    requires part <= items
    ensures Walk(part).page <= Walk(items).page
  {
    WalkGrows(items, |part|);
    assert items[..|part|] == part;
  }
}
