/** What /afs lists when it is made up from the known cells, and the two passes that build it. */
module Dynroot {
  import opened Basics
  import opened Bits
  import opened DirLayout
  import opened DirBits
  import opened DynrootDir

  // ---------------------------------------------------------------- vnode numbers

  const VN_TYPE_CELL: nat := 1
  const VN_TYPE_ALIAS: nat := 2
  const VN_TYPE_SYMLINK: nat := 3
  const TWO24: nat := 0x100_0000

  function VnumFromTypeId(kind: nat, id: nat): nat
  {
    Or(ShiftLeft(kind, 24), id)
  }

  function VnumFromCidxRw(kind: nat, cidx: nat, rw: nat): nat
  {
    VnumFromTypeId(kind, Or(ShiftLeft(cidx, 2), ShiftLeft(rw, 1)))
  }

  function VnumToType(vnum: nat): nat
  {
    ShiftRight(vnum, 24)
  }

  function VnumToId(vnum: nat): nat
  {
    And(vnum, TWO24 - 1)
  }

  function VnumToCidx(vnum: nat): nat
  {
    ShiftRight(VnumToId(vnum), 2)
  }

  function VnumToRw(vnum: nat): nat
  {
    And(ShiftRight(VnumToId(vnum), 1), 1)
  }

  /** The number of a cell's or alias's entry leads back to its kind, index and mode exactly
      when the index has no more than 22 bits. */
  lemma CellNumberDecodes(kind: nat, cidx: nat, rw: nat)
    requires rw <= 1
    ensures cidx < 0x40_0000 <==>
              (var v := VnumFromCidxRw(kind, cidx, rw); VnumToType(v) == kind && VnumToCidx(v) == cidx && VnumToRw(v) == rw)
  {
    var v := VnumFromCidxRw(kind, cidx, rw);
    CellId(cidx, rw);
    if cidx < 0x40_0000 {
      SymlinkNumberDecodes(kind, 4 * cidx + 2 * rw);
      CellIdParts(cidx, rw);
    } else {
      Pow24();
      MaskSplits(v, 24);
      SmallShifts(VnumToId(v));
    }
  }

  lemma CellId(cidx: nat, rw: nat)
    requires rw <= 1
    ensures Or(ShiftLeft(cidx, 2), ShiftLeft(rw, 1)) == 4 * cidx + 2 * rw
  {
    SmallShifts(cidx);
    SmallShifts(rw);
    OrAdds(cidx, ShiftLeft(rw, 1), 2);
  }

  lemma CellIdParts(cidx: nat, rw: nat)
    requires rw <= 1
    ensures ShiftRight(4 * cidx + 2 * rw, 2) == cidx && And(ShiftRight(4 * cidx + 2 * rw, 1), 1) == rw
  {
    SmallShifts(4 * cidx + 2 * rw);
    SmallShifts(cidx);
    ComesApart(cidx, rw, 1);
  }

  lemma SmallShifts(x: nat)
    ensures ShiftLeft(x, 1) == 2 * x && ShiftLeft(x, 2) == 4 * x
    ensures ShiftRight(x, 1) == x / 2 && ShiftRight(x, 2) == x / 4
    ensures Pow2(1) == 2 && Pow2(2) == 4
  {
    assert ShiftLeft(x, 0) == x && Pow2(0) == 1;
    assert ShiftRight(x / 2, 1) == ShiftRight(x / 2 / 2, 0);
  }

  lemma SymlinkNumberDecodes(kind: nat, id: nat)
    ensures id < TWO24 <==> (var v := VnumFromTypeId(kind, id); VnumToType(v) == kind && VnumToId(v) == id)
  {
    Pow24();
    if id < TWO24 {
      OrAdds(kind, id, 24);
      ComesApart(kind, id, 24);
    } else {
      MaskSplits(VnumFromTypeId(kind, id), 24);
    }
  }

  lemma Pow24()
    ensures Pow2(24) == TWO24
  {
    assert Pow2(8) == 256 && Pow2(16) == 65536;
  }

  // ---------------------------------------------------------------- the listing

  /** A known cell; hidden ones, and the made-up cell itself, are not listed. */
  datatype Cell = Cell(name: string, listed: bool)

  datatype Symlink = Symlink(name: string, index: nat)

  /** An entry for read-only access, and one with a dot for read-write. */
  function Pair(name: string, kind: nat, i: nat): seq<Item>
  {
    [Item(name, VnumFromCidxRw(kind, i, 0)), Item("." + name, VnumFromCidxRw(kind, i, 1))]
  }

  function Head(): seq<Item>
  {
    [Item(".", 1)] + [Item("..", 1)] + [Item(".:mount", 3)]
  }

  function LinkItem(l: Symlink): Item
  {
    Item(l.name, VnumFromTypeId(VN_TYPE_SYMLINK, l.index))
  }

  /** The entries each cell, alias or symlink contributes. */
  function CellGroups(cells: seq<Cell>): seq<seq<Item>>
  {
    seq(|cells|, i requires 0 <= i < |cells| => if cells[i].listed then Pair(cells[i].name, VN_TYPE_CELL, i) else [])
  }

  function AliasGroups(aliases: seq<string>): seq<seq<Item>>
  {
    seq(|aliases|, i requires 0 <= i < |aliases| => Pair(aliases[i], VN_TYPE_ALIAS, i))
  }

  function LinkGroups(links: seq<Symlink>): seq<seq<Item>>
  {
    seq(|links|, i requires 0 <= i < |links| => [LinkItem(links[i])])
  }

  ghost predicate AreCells(groups: seq<seq<Item>>, cells: seq<Cell>)
  {
    |groups| == |cells| && forall i :: 0 <= i < |cells| ==>
      groups[i] == if cells[i].listed then Pair(cells[i].name, VN_TYPE_CELL, i) else []
  }

  ghost predicate AreAliases(groups: seq<seq<Item>>, aliases: seq<string>)
  {
    |groups| == |aliases| && forall i :: 0 <= i < |aliases| ==> groups[i] == Pair(aliases[i], VN_TYPE_ALIAS, i)
  }

  ghost predicate AreLinks(groups: seq<seq<Item>>, links: seq<Symlink>)
  {
    |groups| == |links| && forall i :: 0 <= i < |links| ==> groups[i] == [LinkItem(links[i])]
  }

  /** The first n groups after the items listed so far. */
  function Cat(before: seq<Item>, groups: seq<seq<Item>>, n: nat): seq<Item>
    requires n <= |groups|
  {
    if n == 0 then before else Cat(before, groups, n - 1) + groups[n - 1]
  }

  function CellItems(cells: seq<Cell>): seq<Item>
  {
    Cat(Head(), CellGroups(cells), |cells|)
  }

  function AliasItems(cells: seq<Cell>, aliases: seq<string>): seq<Item>
  {
    Cat(CellItems(cells), AliasGroups(aliases), |aliases|)
  }

  function All(cells: seq<Cell>, aliases: seq<string>, links: seq<Symlink>): seq<Item>
  {
    Cat(AliasItems(cells, aliases), LinkGroups(links), |links|)
  }

  lemma {:induction false} CatPrefix(before: seq<Item>, groups: seq<seq<Item>>, n: nat, m: nat)
    requires n <= m <= |groups|
    ensures Cat(before, groups, n) <= Cat(before, groups, m)
    decreases m
  {
    if n < m {
      CatPrefix(before, groups, n, m - 1);
    }
  }

  // ---------------------------------------------------------------- the first pass

  /** afs_dynroot_computeDirEnt. */
  method ComputeDirEnt(name: string, c: Cursor) returns (r: Cursor)
    ensures r == Next(c, name)
  {
    r := c;
    if r.chunk + NameBlobs(name) > EPP {
      r := Cursor(r.page + 1, 1);
    }
    r := Cursor(r.page, r.chunk + NameBlobs(name));
  }

  lemma WalkPair(items: seq<Item>, name: string, kind: nat, i: nat)
    ensures Walk(items + Pair(name, kind, i)) == Next(Next(Walk(items), name), "." + name)
  {
    var p := Pair(name, kind, i);
    WalkAppend(items, p[0]);
    WalkAppend(items + [p[0]], p[1]);
    assert items + p == items + [p[0]] + [p[1]];
  }

  lemma WalkAlias(before: seq<Item>, groups: seq<seq<Item>>, aliases: seq<string>, i: nat)
    requires AreAliases(groups, aliases) && i < |aliases|
    ensures Walk(Cat(before, groups, i + 1)) == Next(Next(Walk(Cat(before, groups, i)), aliases[i]), "." + aliases[i])
  {
    WalkPair(Cat(before, groups, i), aliases[i], VN_TYPE_ALIAS, i);
  }

  lemma WalkLink(before: seq<Item>, groups: seq<seq<Item>>, links: seq<Symlink>, i: nat)
    requires AreLinks(groups, links) && i < |links|
    ensures Walk(Cat(before, groups, i + 1)) == Next(Walk(Cat(before, groups, i)), links[i].name)
  {
    WalkAppend(Cat(before, groups, i), LinkItem(links[i]));
  }

  lemma WalkHead()
    ensures Walk(Head()) == Next(Cursor(0, DHE + 1 + 2), ".:mount")
  {
    WalkAppend([], Item(".", 1));
    WalkAppend([Item(".", 1)], Item("..", 1));
    WalkAppend([Item(".", 1)] + [Item("..", 1)], Item(".:mount", 3));
  }

  method SizeCells(cells: seq<Cell>, start: Cursor, ghost groups: seq<seq<Item>>) returns (c: Cursor)
    requires start == Walk(Head()) && AreCells(groups, cells)
    ensures c == Walk(Cat(Head(), groups, |cells|))
  {
    c := start;
    for i := 0 to |cells|
      invariant c == Walk(Cat(Head(), groups, i))
    {
      ghost var part := Cat(Head(), groups, i);
      if cells[i].listed {
        WalkPair(part, cells[i].name, VN_TYPE_CELL, i);
        c := ComputeDirEnt(cells[i].name, c);
        c := ComputeDirEnt("." + cells[i].name, c);
      } else {
        assert part + [] == part;
      }
    }
  }

  method SizeAliases(aliases: seq<string>, start: Cursor, ghost before: seq<Item>, ghost groups: seq<seq<Item>>) returns (c: Cursor)
    requires start == Walk(before) && AreAliases(groups, aliases)
    ensures c == Walk(Cat(before, groups, |aliases|))
  {
    c := start;
    for i := 0 to |aliases|
      invariant c == Walk(Cat(before, groups, i))
    {
      WalkAlias(before, groups, aliases, i);
      c := ComputeDirEnt(aliases[i], c);
      c := ComputeDirEnt("." + aliases[i], c);
    }
  }

  method SizeLinks(links: seq<Symlink>, start: Cursor, ghost before: seq<Item>, ghost groups: seq<seq<Item>>) returns (c: Cursor)
    requires start == Walk(before) && AreLinks(groups, links)
    ensures c == Walk(Cat(before, groups, |links|))
  {
    c := start;
    for i := 0 to |links|
      invariant c == Walk(Cat(before, groups, i))
    {
      WalkLink(before, groups, links, i);
      c := ComputeDirEnt(links[i].name, c);
    }
  }

  /** The sizing pass of afs_RebuildDynroot ends where the names, in order, take it. */
  method ComputeSize(cells: seq<Cell>, aliases: seq<string>, links: seq<Symlink>) returns (c: Cursor)
    ensures c == Walk(All(cells, aliases, links))
  {
    c := Cursor(0, DHE + 1 + 2);
    c := ComputeDirEnt(".:mount", c);
    WalkHead();
    c := SizeCells(cells, c, CellGroups(cells));
    c := SizeAliases(aliases, c, CellItems(cells), AliasGroups(aliases));
    c := SizeLinks(links, c, AliasItems(cells, aliases), LinkGroups(links));
  }

  // ---------------------------------------------------------------- the second pass

  method Write(d: DynDir, item: Item, ghost part: seq<Item>, ghost all: seq<Item>)
    requires d.Holds(part) && part + [item] <= all && Fits(all) && Walk(all).page < d.pages
    modifies d`cur, d`at, d`bitmap, d`alloMap, d`hashTable
    ensures d.Holds(part + [item])
  {
    PrefixPage(part + [item], all);
    assert all[|part|] == (part + [item])[|part|];
    d.AddDirEnt(item, part);
  }

  /** A cell's or alias's two entries. */
  method WritePair(d: DynDir, name: string, kind: nat, i: nat, ghost part: seq<Item>, ghost all: seq<Item>)
    requires d.Holds(part) && part + Pair(name, kind, i) <= all && Fits(all) && Walk(all).page < d.pages
    modifies d`cur, d`at, d`bitmap, d`alloMap, d`hashTable
    ensures d.Holds(part + Pair(name, kind, i))
  {
    ghost var p := Pair(name, kind, i);
    assert part + p == part + [p[0]] + [p[1]];
    Write(d, Item(name, VnumFromCidxRw(kind, i, 0)), part, all);
    Write(d, Item("." + name, VnumFromCidxRw(kind, i, 1)), part + [p[0]], all);
  }

  /** One more group of the listing keeps within it. */
  lemma NextGroup(before: seq<Item>, groups: seq<seq<Item>>, i: nat, all: seq<Item>)
    requires i < |groups| && Cat(before, groups, |groups|) <= all
    ensures Cat(before, groups, i + 1) == Cat(before, groups, i) + groups[i] <= all
  {
    CatPrefix(before, groups, i + 1, |groups|);
  }

  /** The groups are within the listing, which fits the directory. */
  ghost predicate Within(d: DynDir, before: seq<Item>, groups: seq<seq<Item>>, all: seq<Item>)
  {
    Cat(before, groups, |groups|) <= all && Fits(all) && Walk(all).page < d.pages
  }

  method WriteCell(d: DynDir, cells: seq<Cell>, i: nat, ghost before: seq<Item>, ghost groups: seq<seq<Item>>, ghost all: seq<Item>)
    requires i < |cells| && AreCells(groups, cells) && |groups| == |cells| && Within(d, before, groups, all) && d.Holds(Cat(before, groups, i))
    modifies d`cur, d`at, d`bitmap, d`alloMap, d`hashTable
    ensures d.Holds(Cat(before, groups, i + 1))
  {
    ghost var part := Cat(before, groups, i);
    NextGroup(before, groups, i, all);
    if cells[i].listed {
      WritePair(d, cells[i].name, VN_TYPE_CELL, i, part, all);
    } else {
      assert part + [] == part;
    }
  }

  method WriteCells(d: DynDir, cells: seq<Cell>, ghost before: seq<Item>, ghost groups: seq<seq<Item>>, ghost all: seq<Item>)
    requires AreCells(groups, cells) && |groups| == |cells| && Within(d, before, groups, all) && d.Holds(Cat(before, groups, 0))
    modifies d`cur, d`at, d`bitmap, d`alloMap, d`hashTable
    ensures d.Holds(Cat(before, groups, |cells|))
  {
    for i := 0 to |cells|
      invariant d.Holds(Cat(before, groups, i))
    {
      WriteCell(d, cells, i, before, groups, all);
    }
  }

  method WriteAlias(d: DynDir, aliases: seq<string>, i: nat, ghost before: seq<Item>, ghost groups: seq<seq<Item>>, ghost all: seq<Item>)
    requires i < |aliases| && AreAliases(groups, aliases) && Within(d, before, groups, all) && d.Holds(Cat(before, groups, i))
    modifies d`cur, d`at, d`bitmap, d`alloMap, d`hashTable
    ensures d.Holds(Cat(before, groups, i + 1))
  {
    NextGroup(before, groups, i, all);
    WritePair(d, aliases[i], VN_TYPE_ALIAS, i, Cat(before, groups, i), all);
  }

  method WriteAliases(d: DynDir, aliases: seq<string>, ghost before: seq<Item>, ghost groups: seq<seq<Item>>, ghost all: seq<Item>)
    requires AreAliases(groups, aliases) && Within(d, before, groups, all) && d.Holds(Cat(before, groups, 0))
    modifies d`cur, d`at, d`bitmap, d`alloMap, d`hashTable
    ensures d.Holds(Cat(before, groups, |aliases|))
  {
    for i := 0 to |aliases|
      invariant d.Holds(Cat(before, groups, i))
    {
      WriteAlias(d, aliases, i, before, groups, all);
    }
  }

  method WriteLink(d: DynDir, links: seq<Symlink>, i: nat, ghost before: seq<Item>, ghost groups: seq<seq<Item>>, ghost all: seq<Item>)
    requires i < |links| && AreLinks(groups, links) && Within(d, before, groups, all) && d.Holds(Cat(before, groups, i))
    modifies d`cur, d`at, d`bitmap, d`alloMap, d`hashTable
    ensures d.Holds(Cat(before, groups, i + 1))
  {
    NextGroup(before, groups, i, all);
    Write(d, LinkItem(links[i]), Cat(before, groups, i), all);
  }

  method WriteLinks(d: DynDir, links: seq<Symlink>, ghost before: seq<Item>, ghost groups: seq<seq<Item>>, ghost all: seq<Item>)
    requires AreLinks(groups, links) && Within(d, before, groups, all) && d.Holds(Cat(before, groups, 0))
    modifies d`cur, d`at, d`bitmap, d`alloMap, d`hashTable
    ensures d.Holds(Cat(before, groups, |links|))
  {
    for i := 0 to |links|
      invariant d.Holds(Cat(before, groups, i))
    {
      WriteLink(d, links, i, before, groups, all);
    }
  }

  /** The cells as the second pass finds them: some may have been hidden meanwhile. */
  ghost predicate Hushed(cells: seq<Cell>, again: seq<Cell>)
  {
    |again| == |cells| && forall i :: 0 <= i < |cells| ==> again[i].name == cells[i].name && (again[i].listed ==> cells[i].listed)
  }

  /** One listing's groups are the other's, or empty. */
  ghost predicate Fewer(a: seq<seq<Item>>, b: seq<seq<Item>>)
  {
    |a| == |b| && forall i :: 0 <= i < |a| ==> a[i] == b[i] || a[i] == []
  }

  /** Fewer entries need no more room. */
  lemma {:induction false} FewerFit(before: seq<Item>, after: seq<Item>, a: seq<seq<Item>>, b: seq<seq<Item>>, n: nat)
    requires Fewer(a, b) && n <= |a| && NotPast(Walk(before), Walk(after)) && (Fits(after) ==> Fits(before))
    ensures NotPast(Walk(Cat(before, a, n)), Walk(Cat(after, b, n)))
    ensures Fits(Cat(after, b, n)) ==> Fits(Cat(before, a, n))
  {
    if n > 0 {
      FewerFit(before, after, a, b, n - 1);
      var x, y := Cat(before, a, n - 1), Cat(after, b, n - 1);
      AppendNotPast(x, y, b[n - 1]);
      FitsParts(y, b[n - 1]);
      FitsParts(x, a[n - 1]);
      assert x + [] == x;
    }
  }

  lemma FitsParts(a: seq<Item>, b: seq<Item>)
    ensures Fits(a + b) <==> Fits(a) && Fits(b)
  {
    assert forall i :: 0 <= i < |a| ==> (a + b)[i] == a[i];
    assert forall i :: 0 <= i < |b| ==> (a + b)[|a| + i] == b[i];
  }

  /** What the second pass writes needs no more pages than the first pass found. */
  lemma SecondPassFits(cells: seq<Cell>, again: seq<Cell>, aliases: seq<string>, links: seq<Symlink>)
    requires Hushed(cells, again)
    ensures NotPast(Walk(All(again, aliases, links)), Walk(All(cells, aliases, links)))
    ensures Fits(All(cells, aliases, links)) ==> Fits(All(again, aliases, links))
  {
    FewerFit(Head(), Head(), CellGroups(again), CellGroups(cells), |cells|);
    FewerFit(CellItems(again), CellItems(cells), AliasGroups(aliases), AliasGroups(aliases), |aliases|);
    FewerFit(AliasItems(again, aliases), AliasItems(cells, aliases), LinkGroups(links), LinkGroups(links), |links|);
  }

  /** afs_RebuildDynroot: the directory sized by the first pass is large enough for what the second
      writes, also if cells have been hidden meanwhile, and holds the whole listing.  What it
      requires of the listing is, by InBitmapExactly and InAlloMapExactly, what it takes for all
      bits and counts to be in their places. */
  method Rebuild(hash: string -> nat, cells: seq<Cell>, again: seq<Cell>, aliases: seq<string>, links: seq<Symlink>, memory: seq<bool>)
    returns (d: DynDir)
    requires Hushed(cells, again)
    requires Fits(All(cells, aliases, links)) && Walk(All(cells, aliases, links)).page < MAXPAGES
    requires |memory| == MAXPAGES * EPP && forall n :: hash(n) < NHASHENT
    ensures fresh(d) && d.hash == hash && d.Holds(All(again, aliases, links))
    ensures d.pages == Walk(All(cells, aliases, links)).page + 1 && d.cur.page < d.pages
    ensures again == cells ==> d.cur.page == d.pages - 1
  {
    ghost var all := All(again, aliases, links);
    SecondPassFits(cells, again, aliases, links);
    var size := ComputeSize(cells, aliases, links);
    d := new DynDir(hash, size.page + 1, memory[..(size.page + 1) * EPP]);
    Prefixes(again, aliases, links);
    WriteFirst(d, again, CellGroups(again), all);
    WriteRest(d, aliases, links, CellItems(again), AliasGroups(aliases), LinkGroups(links), all);
  }

  /** The writing pass: the fixed entries and the cells. */
  method WriteFirst(d: DynDir, cells: seq<Cell>, ghost cs: seq<seq<Item>>, ghost all: seq<Item>)
    requires d.Holds([]) && AreCells(cs, cells) && Within(d, Head(), cs, all)
    modifies d`cur, d`at, d`bitmap, d`alloMap, d`hashTable
    ensures d.Holds(Cat(Head(), cs, |cells|))
  {
    CatPrefix(Head(), cs, 0, |cells|);
    WriteHead(d, all);
    WriteCells(d, cells, Head(), cs, all);
  }

  /** The aliases and the symlinks. */
  method WriteRest(d: DynDir, aliases: seq<string>, links: seq<Symlink>,
                   ghost c: seq<Item>, ghost als: seq<seq<Item>>, ghost ls: seq<seq<Item>>, ghost all: seq<Item>)
    requires d.Holds(c) && AreAliases(als, aliases) && AreLinks(ls, links)
    requires all == Cat(Cat(c, als, |aliases|), ls, |links|) && Within(d, c, als, all)
    modifies d`cur, d`at, d`bitmap, d`alloMap, d`hashTable
    ensures d.Holds(all)
  {
    WriteAliases(d, aliases, c, als, all);
    WriteLinks(d, links, Cat(c, als, |aliases|), ls, all);
  }

  method WriteHead(d: DynDir, ghost all: seq<Item>)
    requires d.Holds([]) && Head() <= all && Fits(all) && Walk(all).page < d.pages
    modifies d`cur, d`at, d`bitmap, d`alloMap, d`hashTable
    ensures d.Holds(Head())
  {
    Write(d, Item(".", 1), [], all);
    Write(d, Item("..", 1), [Item(".", 1)], all);
    Write(d, Item(".:mount", 3), [Item(".", 1)] + [Item("..", 1)], all);
  }

  lemma Prefixes(cells: seq<Cell>, aliases: seq<string>, links: seq<Symlink>)
    ensures var all := All(cells, aliases, links);
            Head() <= all && CellItems(cells) <= all && AliasItems(cells, aliases) <= all
  {
    CatPrefix(Head(), CellGroups(cells), 0, |cells|);
    CatPrefix(CellItems(cells), AliasGroups(aliases), 0, |aliases|);
    CatPrefix(AliasItems(cells, aliases), LinkGroups(links), 0, |links|);
  }

  // ---------------------------------------------------------------- listings that do not fit

  /** n aliases of 1100 characters and more, no two alike. */
  function LongAliases(n: nat): (aliases: seq<string>)
    ensures |aliases| == n && forall i :: 0 <= i < n ==> |aliases[i]| == 1100 + i
  {
    seq(n, i requires 0 <= i < n => seq(1100 + i, _ => 'a'))
  }

  ghost predicate AreLong(aliases: seq<string>)
  {
    |aliases| <= 65 && forall i :: 0 <= i < |aliases| ==> |aliases[i]| == 1100 + i
  }

  /** Two entries of more than half a page: the second starts a page, and the first too unless it
      comes right after the fixed entries. */
  lemma LongPair(c: Cursor, name: string)
    requires 1100 <= |name| < 1165 && (c.chunk >= 36 || (c.chunk == 16 && |name| == 1100))
    ensures var d := Next(Next(c, name), "." + name);
            36 <= d.chunk && d.page == if c.chunk >= 36 then c.page + 2 else c.page + 1
  {
    assert NameBlobs(name) >= 35 && (|name| == 1100 ==> NameBlobs(name) == 35);
    assert NameBlobs("." + name) >= 35;
  }

  /** Each of their entries takes more than half a page. */
  lemma {:induction false} LongWalk(groups: seq<seq<Item>>, aliases: seq<string>, n: nat)
    requires AreAliases(groups, aliases) && AreLong(aliases) && n <= |aliases|
    ensures var c := Walk(Cat(Head(), groups, n)); if n == 0 then c == Cursor(0, 16) else c.page == 2 * n - 1 && c.chunk >= 36
  {
    if n == 0 {
      WalkHead();
    } else {
      LongWalk(groups, aliases, n - 1);
      WalkAlias(Head(), groups, aliases, n - 1);
      LongPair(Walk(Cat(Head(), groups, n - 1)), aliases[n - 1]);
    }
  }

  lemma {:induction false} LongFit(groups: seq<seq<Item>>, aliases: seq<string>, n: nat)
    requires AreAliases(groups, aliases) && AreLong(aliases) && n <= |aliases|
    ensures Fits(Cat(Head(), groups, n)) && |Cat(Head(), groups, n)| == 3 + 2 * n
  {
    if n > 0 {
      LongFit(groups, aliases, n - 1);
    }
  }

  /** Every name has few enough blobs, but the last entry's page has no count in alloMap. */
  predicate TooMany(items: seq<Item>)
  {
    Fits(items) && items != [] && !InAlloMap(items, |items| - 1)
  }

  lemma LongListing(aliases: seq<string>, n: nat)
    requires AreLong(aliases) && n == |aliases| == 65
    ensures TooMany(All([], aliases, []))
  {
    var groups := AliasGroups(aliases);
    assert CellItems([]) == Head();
    LongWalk(groups, aliases, n);
    LongFit(groups, aliases, n);
    LastPage(Cat(Head(), groups, n));
  }

  /** 65 aliases, all different, are listed like this. */
  lemma TooManyPages() returns (aliases: seq<string>)
    ensures |aliases| == 65 && forall i, j :: 0 <= i < j < |aliases| ==> aliases[i] != aliases[j]
    ensures TooMany(All([], aliases, []))
  {
    aliases := LongAliases(65);
    AllDiffer(aliases);
    LongListing(aliases, 65);
  }

  lemma AllDiffer(aliases: seq<string>)
    requires AreLong(aliases)
    ensures forall i, j :: 0 <= i < j < |aliases| ==> aliases[i] != aliases[j]
  {
    forall i, j | 0 <= i < j < |aliases| ensures aliases[i] != aliases[j] {
      assert |aliases[i]| != |aliases[j]|;
    }
  }

  lemma LastPage(items: seq<Item>)
    requires items != []
    ensures At(items, |items| - 1).page == Walk(items).page
  {
  }

  /** Where the entry of a single alias goes if it is too long for the first page. */
  lemma OneAlias(name: string)
    requires NameBlobs(name) > 48
    ensures var all := All([], [name], []);
            && |all| == 5 && all[3].name == name && all[4].name == "." + name && At(all, 3) == Cursor(1, 1)
  {
    var groups := AliasGroups([name]);
    var all := All([], [name], []);
    assert all == Head() + Pair(name, VN_TYPE_ALIAS, 0) by {
      assert CellItems([]) == Head();
      assert Cat(Head(), groups, 0) == Head();
    }
    WalkHead();
    assert all[..3] == Head();
  }

  /** An alias of 2004 characters or more is written over the end of its page. */
  lemma TooLongName(name: string)
    requires |name| >= 2004
    ensures var all := All([], [name], []); |all| == 5 && all[3].name == name && !InPage(all, 3)
  {
    OneAlias(name);
    OneInPage(All([], [name], []), 3);
  }

  /** One of 2000 to 2003 is not, but is marked beyond its page's bitmap. */
  lemma TooManyBits(name: string)
    requires 2000 <= |name| <= 2003
    ensures var all := All([], [name], []); |all| == 5 && all[3].name == name && InPage(all, 3) && !InBitmap(all, 3)
  {
    OneAlias(name);
    OneInPage(All([], [name], []), 3);
  }

  // ---------------------------------------------------------------- what is listed

  ghost predicate HasName(items: seq<Item>, name: string)
  {
    exists n :: 0 <= n < |items| && items[n].name == name
  }

  /** The name is one of those that the first n groups contribute. */
  ghost predicate InGroups(groups: seq<seq<Item>>, n: nat, name: string)
    requires n <= |groups|
  {
    exists i :: 0 <= i < n && HasName(groups[i], name)
  }

  lemma HasEither(a: seq<Item>, b: seq<Item>, name: string)
    ensures HasName(a + b, name) <==> HasName(a, name) || HasName(b, name)
  {
    if n :| 0 <= n < |a| && a[n].name == name {
      assert (a + b)[n].name == name;
    }
    if n :| 0 <= n < |b| && b[n].name == name {
      assert (a + b)[|a| + n].name == name;
    }
  }

  lemma {:induction false} CatHas(before: seq<Item>, groups: seq<seq<Item>>, n: nat, name: string)
    requires n <= |groups|
    ensures HasName(Cat(before, groups, n), name) <==> HasName(before, name) || InGroups(groups, n, name)
  {
    if n > 0 {
      CatHas(before, groups, n - 1, name);
      HasEither(Cat(before, groups, n - 1), groups[n - 1], name);
    }
  }

  /** A name, plain or with a dot. */
  predicate Plain(name: string, of: string)
  {
    name == of || name == "." + of
  }

  lemma PairHas(of: string, kind: nat, i: nat, name: string)
    ensures HasName(Pair(of, kind, i), name) <==> Plain(name, of)
  {
    var p := Pair(of, kind, i);
    assert p[0].name == of && p[1].name == "." + of;
  }

  /** Listed are the three fixed names, those of the cells that are not hidden and of the aliases, each also
      with a dot, those of the symlinks, and no others; so a hidden cell has no entry. */
  lemma ListedExactly(cells: seq<Cell>, aliases: seq<string>, links: seq<Symlink>, name: string)
    ensures HasName(All(cells, aliases, links), name) <==>
              || name in {".", "..", ".:mount"}
              || (exists i :: 0 <= i < |cells| && cells[i].listed && Plain(name, cells[i].name))
              || (exists i :: 0 <= i < |aliases| && Plain(name, aliases[i]))
              || (exists i :: 0 <= i < |links| && name == links[i].name)
  {
    var cs, as', ls := CellGroups(cells), AliasGroups(aliases), LinkGroups(links);
    CatHas(Head(), cs, |cells|, name);
    CatHas(CellItems(cells), as', |aliases|, name);
    CatHas(AliasItems(cells, aliases), ls, |links|, name);
    HeadHas(name);
    forall i | 0 <= i < |cells| ensures HasName(cs[i], name) <==> cells[i].listed && Plain(name, cells[i].name) {
      PairHas(cells[i].name, VN_TYPE_CELL, i, name);
    }
    forall i | 0 <= i < |aliases| ensures HasName(as'[i], name) <==> Plain(name, aliases[i]) {
      PairHas(aliases[i], VN_TYPE_ALIAS, i, name);
    }
    forall i | 0 <= i < |links| ensures HasName(ls[i], name) <==> name == links[i].name {
      assert ls[i][0].name == links[i].name;
    }
  }

  lemma HeadHas(name: string)
    ensures HasName(Head(), name) <==> name in {".", "..", ".:mount"}
  {
    var h := Head();
    assert h[0].name == "." && h[1].name == ".." && h[2].name == ".:mount";
  }

  /** The directory itself, which is its own parent, and the place of the mount points. */
  lemma FixedFirst(cells: seq<Cell>, aliases: seq<string>, links: seq<Symlink>)
    ensures var all := All(cells, aliases, links);
            |all| >= 3 && all[0] == Item(".", 1) && all[1] == Item("..", 1) && all[2] == Item(".:mount", 3)
  {
    Prefixes(cells, aliases, links);
  }

  // ---------------------------------------------------------------- what a lookup leads to

  /** Where the entries of group i are in the listing. */
  lemma GroupAt(before: seq<Item>, groups: seq<seq<Item>>, i: nat, j: nat, all: seq<Item>) returns (n: nat)
    requires i < |groups| && j < |groups[i]| && Cat(before, groups, |groups|) <= all
    ensures n < |all| && all[n] == groups[i][j]
  {
    NextGroup(before, groups, i, all);
    n := |Cat(before, groups, i)| + j;
  }

  /** The number leads back to the kind, the index and the mode. */
  predicate Decodes(vnum: nat, kind: nat, cidx: nat, rw: nat)
  {
    VnumToType(vnum) == kind && VnumToCidx(vnum) == cidx && VnumToRw(vnum) == rw
  }

  /** Entry n of the listing is found under its name if and only if none after it has that name;
      and then its number leads back to what it stands for if and only if the index has no more
      than 22 bits. */
  ghost predicate LeadsBack(all: seq<Item>, n: nat, kind: nat, cidx: nat, rw: nat)
    requires n < |all|
  {
    var at, found := LastAt(all, all[n].name), LastNamed(all, all[n].name);
    && at.Some? && at.value < |all| && found == Some(all[at.value])
    && (at.value == n <==> NoneLater(all, n))
    && (NoneLater(all, n) ==> (cidx < 0x40_0000 <==> Decodes(found.value.vnode, kind, cidx, rw)))
  }

  lemma PairLeadsBack(all: seq<Item>, n: nat, kind: nat, cidx: nat, rw: nat)
    requires n < |all| && rw <= 1 && all[n].vnode == VnumFromCidxRw(kind, cidx, rw)
    ensures LeadsBack(all, n, kind, cidx, rw)
  {
    FindsOwnExactly(all, n);
    CellNumberDecodes(kind, cidx, rw);
  }

  /** A listed cell's name, for read-only and, with a dot, for read-write access. */
  lemma CellLeadsBack(cells: seq<Cell>, aliases: seq<string>, links: seq<Symlink>, i: nat, rw: nat) returns (n: nat)
    requires i < |cells| && cells[i].listed && rw <= 1
    ensures var all := All(cells, aliases, links);
            && n < |all| && all[n].name == (if rw == 0 then cells[i].name else "." + cells[i].name)
            && LeadsBack(all, n, VN_TYPE_CELL, i, rw)
  {
    var all := All(cells, aliases, links);
    Prefixes(cells, aliases, links);
    n := GroupAt(Head(), CellGroups(cells), i, rw, all);
    PairLeadsBack(all, n, VN_TYPE_CELL, i, rw);
  }

  /** An alias, likewise. */
  lemma AliasLeadsBack(cells: seq<Cell>, aliases: seq<string>, links: seq<Symlink>, i: nat, rw: nat) returns (n: nat)
    requires i < |aliases| && rw <= 1
    ensures var all := All(cells, aliases, links);
            && n < |all| && all[n].name == (if rw == 0 then aliases[i] else "." + aliases[i])
            && LeadsBack(all, n, VN_TYPE_ALIAS, i, rw)
  {
    var all := All(cells, aliases, links);
    Prefixes(cells, aliases, links);
    n := GroupAt(CellItems(cells), AliasGroups(aliases), i, rw, all);
    PairLeadsBack(all, n, VN_TYPE_ALIAS, i, rw);
  }

  /** A symlink, whose index may have 24 bits. */
  lemma LinkLeadsBack(cells: seq<Cell>, aliases: seq<string>, links: seq<Symlink>, i: nat) returns (n: nat)
    requires i < |links|
    ensures var all := All(cells, aliases, links);
            && n < |all| && all[n].name == links[i].name
            && var at, found := LastAt(all, links[i].name), LastNamed(all, links[i].name);
            && at.Some? && at.value < |all| && found == Some(all[at.value])
            && (at.value == n <==> NoneLater(all, n))
            && (NoneLater(all, n) ==>
                  (links[i].index < TWO24 <==>
                     VnumToType(found.value.vnode) == VN_TYPE_SYMLINK && VnumToId(found.value.vnode) == links[i].index))
  {
    var all := All(cells, aliases, links);
    n := GroupAt(AliasItems(cells, aliases), LinkGroups(links), i, 0, all);
    FindsOwnExactly(all, n);
    SymlinkNumberDecodes(VN_TYPE_SYMLINK, links[i].index);
  }
}
