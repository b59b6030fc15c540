/** Giving a locally made file the fid the server chose for it: afs_ProcessOpCreate after the
    call, over the vcache and dcache hash tables and the cached directories. */
module FidTables {
  import opened Basics
  import opened HashChains

  datatype Fid = Fid(cell: nat, volume: nat, vnode: nat, unique: nat)

  /** What a directory entry or a vcache's parent field names. */
  datatype Name = Name(vnode: nat, unique: nat)

  /** Fids of the vcaches, and the places they hash to. */
  ghost function Places(fids: map<nat, Fid>, hash: Fid -> nat): map<nat, nat>
  {
    map i | i in fids :: hash(fids[i])
  }

  /** A cache slot: the fid and chunk it holds, and its entry in afs_indexUnique. */
  datatype Slot = Slot(fid: Fid, chunk: nat, unique: nat)

  ghost function ChunkPlaces(slots: map<nat, Slot>, hash: (Fid, nat) -> nat): map<nat, nat>
  {
    map i | i in slots :: hash(slots[i].fid, slots[i].chunk)
  }

  ghost function SlotPlaces(slots: map<nat, Slot>, hash: Fid -> nat): map<nat, nat>
  {
    map i | i in slots :: hash(slots[i].fid)
  }

  /** No two vcaches share a fid, and a directory is cached in one slot. */
  ghost predicate OneEach(vfid: map<nat, Fid>, slots: map<nat, Slot>, dirs: set<nat>)
  {
    && (forall u, v :: u in vfid && v in vfid && vfid[u] == vfid[v] ==> u == v)
    && (forall i, j :: i in slots && j in slots && i in dirs && slots[i].fid == slots[j].fid ==> i == j)
  }

  lemma OldFidGone(vfid: map<nat, Fid>, now: map<nat, Fid>, slots: map<nat, Slot>, dirs: set<nat>, v: nat, f: Fid)
    requires OneEach(vfid, slots, dirs) && v in vfid && f != vfid[v] && now == vfid[v := f]
    ensures forall u :: u in now ==> now[u] != vfid[v]
  {
  }

  lemma StillOneEach(vfid: map<nat, Fid>, slots: map<nat, Slot>, now: map<nat, Slot>, dirs: set<nat>, v: nat, f: Fid)
    requires OneEach(vfid, slots, dirs) && v in vfid && now.Keys == slots.Keys
    requires forall i :: i in now ==> now[i] == Renamed(slots[i], vfid[v], f)
    requires (forall u :: u in vfid ==> vfid[u] != f) && (forall i :: i in slots ==> slots[i].fid != f)
    ensures OneEach(vfid[v := f], now, dirs)
  {
  }

  lemma PlacesMove(fids: map<nat, Fid>, hash: Fid -> nat, i: nat, f: Fid)
    ensures Places(fids[i := f], hash) == Places(fids, hash)[i := hash(f)]
  {
  }

  lemma SlotPlacesMove(slots: map<nat, Slot>, chunkHash: (Fid, nat) -> nat, hash: Fid -> nat, i: nat, s: Slot)
    ensures ChunkPlaces(slots[i := s], chunkHash) == ChunkPlaces(slots, chunkHash)[i := chunkHash(s.fid, s.chunk)]
    ensures SlotPlaces(slots[i := s], hash) == SlotPlaces(slots, hash)[i := hash(s.fid)]
  {
  }

  lemma NoPlaces(vcHash: Fid -> nat, vcHashV: Fid -> nat, dcHash: (Fid, nat) -> nat, dvHash: Fid -> nat)
    ensures Places(map[], vcHash) == Places(map[], vcHashV) == ChunkPlaces(map[], dcHash) == SlotPlaces(map[], dvHash) == map[]
  {
  }

  /** One more than the largest uniquifier on the chain of f, wrapping. */
  lemma NewUnique(vfid: map<nat, Fid>, hash: Fid -> nat, f: Fid, max: nat)
    requires forall g: Fid, h: Fid :: g.volume == h.volume && g.vnode == h.vnode ==> hash(g) == hash(h)
    requires forall v :: v in vfid ==> vfid[v].unique < TWO32
    requires forall v :: v in vfid && hash(vfid[v]) == hash(f) ==> vfid[v].unique <= max
    requires max == 0 || exists v :: v in vfid && hash(vfid[v]) == hash(f) && vfid[v].unique == max
    ensures var unique := (max + 1) % TWO32;
            && (unique != 0 ==> forall v | v in vfid :: vfid[v].volume == f.volume && vfid[v].vnode == f.vnode ==> vfid[v].unique < unique)
            && (unique == 0 <==> exists v :: v in vfid && hash(vfid[v]) == hash(f) && vfid[v].unique == TWO32 - 1)
  {
    assert max < TWO32;
  }

  /** What slot s becomes when the file `was` becomes f. */
  function Renamed(s: Slot, was: Fid, f: Fid): Slot
  {
    if s.fid == was then Slot(f, s.chunk, f.unique) else s
  }

  class Tables {
    // VCHash, VCHashV, DCHash and DVHash
    const vcHash: Fid -> nat
    const vcHashV: Fid -> nat
    const dcHash: (Fid, nat) -> nat
    const dvHash: Fid -> nat
    // afs_DisconVnode
    var disconVnode: nat
    // vcaches, by number
    var vfid: map<nat, Fid>
    var vparent: map<nat, Name>
    const vhashT: Chains
    const vhashTV: Chains
    // dcaches, by slot
    var slots: map<nat, Slot>
    const dchashTbl: Chains
    const dvhashTbl: Chains
    // contents of the slots that hold directories
    var dirs: map<nat, map<string, Name>>

    /** Empty tables of VCSIZE and afs_dhashsize chains, for so many vcaches and slots. */
    constructor (vcHash: Fid -> nat, vcHashV: Fid -> nat, dcHash: (Fid, nat) -> nat, dvHash: Fid -> nat,
                 vcSize: nat, dhashSize: nat, vcaches: nat, cacheFiles: nat)
      requires forall f :: vcHash(f) < vcSize && vcHashV(f) < vcSize
      requires (forall f, c :: dcHash(f, c) < dhashSize) && (forall f :: dvHash(f) < dhashSize)
      ensures VValid() && DValid() && vfid == map[] && slots == map[] && disconVnode == 2
      ensures vhashT.next.Length == vhashTV.next.Length == vcaches && dchashTbl.next.Length == dvhashTbl.next.Length == cacheFiles
    {
      this.vcHash, this.vcHashV, this.dcHash, this.dvHash := vcHash, vcHashV, dcHash, dvHash;
      var a := new Chains(vcSize, vcaches);
      var b := new Chains(vcSize, vcaches);
      var c := new Chains(dhashSize, cacheFiles);
      var d := new Chains(dhashSize, cacheFiles);
      vhashT, vhashTV, dchashTbl, dvhashTbl := a, b, c, d;
      disconVnode, vfid, vparent, slots, dirs := 2, map[], map[], map[], map[];
      NoneFiled(vcSize);
      NoneFiled(dhashSize);
      NoPlaces(vcHash, vcHashV, dcHash, dvHash);
    }

    /** The four tables share nothing. */
    predicate Shape()
    {
      && Separate(vhashT, vhashTV) && Separate(vhashT, dchashTbl) && Separate(vhashT, dvhashTbl)
      && Separate(vhashTV, dchashTbl) && Separate(vhashTV, dvhashTbl) && Separate(dchashTbl, dvhashTbl)
    }

    /** The vcache tables file every vcache under its fid. */
    ghost predicate VValid()
      reads this`vfid, vhashT, vhashT.heads, vhashT.next, vhashTV, vhashTV.heads, vhashTV.next
    {
      && Shape() && vhashT.Valid() && vhashTV.Valid()
      && (forall v :: v in vfid ==> v < vhashT.next.Length && v < vhashTV.next.Length)
      && Filed(vhashT.lists, Places(vfid, vcHash)) && Filed(vhashTV.lists, Places(vfid, vcHashV))
      && (forall f :: vcHash(f) < |vhashT.lists| && vcHashV(f) < |vhashTV.lists|)
    }

    /** The dcache tables file every slot under its fid and chunk. */
    ghost predicate DValid()
      reads this`slots, dchashTbl, dchashTbl.heads, dchashTbl.next, dvhashTbl, dvhashTbl.heads, dvhashTbl.next
    {
      && Shape() && dchashTbl.Valid() && dvhashTbl.Valid()
      && (forall i :: i in slots ==> i < dchashTbl.next.Length && i < dvhashTbl.next.Length)
      && (forall i :: i in slots ==> slots[i].unique == slots[i].fid.unique)
      && Filed(dchashTbl.lists, ChunkPlaces(slots, dcHash)) && Filed(dvhashTbl.lists, SlotPlaces(slots, dvHash))
      && (forall f, c :: dcHash(f, c) < |dchashTbl.lists|) && (forall f :: dvHash(f) < |dvhashTbl.lists|)
    }

    /** afs_FindVCache. */
    method FindVCache(f: Fid) returns (r: Option<nat>)
      requires VValid()
      ensures r.Some? ==> r.value in vfid && vfid[r.value] == f
      ensures r.None? ==> forall v :: v in vfid ==> vfid[v] != f
    {
      ghost var chain, k := vhashT.lists[vcHash(f)], 0;
      ChainMembers(vhashT.lists, Places(vfid, vcHash), vcHash(f));
      var tvc := vhashT.heads[vcHash(f)];
      while tvc != NULLIDX
        invariant 0 <= k <= |chain| && tvc == (if k < |chain| then chain[k] else NULLIDX)
        invariant forall j :: 0 <= j < k ==> vfid[chain[j]] != f
        decreases |chain| - k
      {
        if vfid[tvc] == f {
          return Some(tvc);
        }
        assert vhashT.next[chain[k]] == After(chain, k);
        tvc, k := vhashT.next[tvc], k + 1;
      }
      r := None;
      forall v | v in vfid ensures vfid[v] != f {
        var j := OnItsChain(vhashT.lists, Places(vfid, vcHash), v);
      }
    }

    /** afs_FindDCacheByFid: some slot of the file. */
    method FindDCacheByFid(f: Fid) returns (r: Option<nat>)
      requires DValid()
      ensures r.Some? ==> r.value in slots && slots[r.value].fid == f
      ensures r.None? ==> forall i :: i in slots ==> slots[i].fid != f
    {
      ghost var chain, k := dvhashTbl.lists[dvHash(f)], 0;
      ChainMembers(dvhashTbl.lists, SlotPlaces(slots, dvHash), dvHash(f));
      var index := dvhashTbl.heads[dvHash(f)];
      while index != NULLIDX
        invariant 0 <= k <= |chain| && index == (if k < |chain| then chain[k] else NULLIDX)
        invariant forall j :: 0 <= j < k ==> slots[chain[j]].fid != f
        decreases |chain| - k
      {
        if slots[index].unique == f.unique && slots[index].fid == f {
          return Some(index);
        }
        assert dvhashTbl.next[chain[k]] == After(chain, k);
        index, k := dvhashTbl.next[index], k + 1;
      }
      r := None;
      forall i | i in slots ensures slots[i].fid != f {
        var j := OnItsChain(dvhashTbl.lists, SlotPlaces(slots, dvHash), i);
      }
    }

    /** afs_FindDCache, by fid and chunk. */
    method FindDCache(f: Fid, chunk: nat) returns (r: Option<nat>)
      requires DValid()
      ensures r.Some? ==> r.value in slots && slots[r.value].fid == f && slots[r.value].chunk == chunk
      ensures r.None? ==> forall i :: i in slots ==> slots[i].fid != f || slots[i].chunk != chunk
    {
      ghost var chain, k := dchashTbl.lists[dcHash(f, chunk)], 0;
      ChainMembers(dchashTbl.lists, ChunkPlaces(slots, dcHash), dcHash(f, chunk));
      var index := dchashTbl.heads[dcHash(f, chunk)];
      while index != NULLIDX
        invariant 0 <= k <= |chain| && index == (if k < |chain| then chain[k] else NULLIDX)
        invariant forall j :: 0 <= j < k ==> !(slots[chain[j]].fid == f && slots[chain[j]].chunk == chunk)
        decreases |chain| - k
      {
        var s := slots[index];
        if s.unique == f.unique && s.fid == f && s.chunk == chunk {
          return Some(index);
        }
        assert dchashTbl.next[chain[k]] == After(chain, k);
        index, k := dchashTbl.next[index], k + 1;
      }
      r := None;
      forall i | i in slots ensures slots[i].fid != f || slots[i].chunk != chunk {
        var j := OnItsChain(dchashTbl.lists, ChunkPlaces(slots, dcHash), i);
      }
    }

    /** afs_GenFakeFid: a vnode number of the right parity, and a uniquifier above all those on
        its chain; no vcache of the volume has both, unless the uniquifier wrapped to 0. */
    method GenFakeFid(volume: nat, isDir: bool) returns (vnode: nat, unique: nat)
      requires VValid() && disconVnode < TWO32 && disconVnode % 2 == 0
      requires forall f: Fid, g: Fid :: f.volume == g.volume && f.vnode == g.vnode ==> vcHash(f) == vcHash(g)
      requires forall v :: v in vfid ==> vfid[v].unique < TWO32
      modifies this`disconVnode
      ensures vnode == old(disconVnode) + (if isDir then 1 else 0) && unique < TWO32
      ensures unique != 0 ==> forall v | v in vfid :: vfid[v].volume == volume && vfid[v].vnode == vnode ==> vfid[v].unique < unique
      ensures unique == 0 <==> exists v :: v in vfid && vcHash(vfid[v]) == vcHash(Fid(0, volume, vnode, 0)) && vfid[v].unique == TWO32 - 1
      ensures 0 < disconVnode < TWO32 && disconVnode % 2 == 0
      ensures old(disconVnode) < TWO32 - 2 ==> disconVnode == old(disconVnode) + 2
    {
      vnode := disconVnode + if isDir then 1 else 0;
      ghost var f := Fid(0, volume, vnode, 0);
      var max := MaxUnique(vcHash(Fid(0, volume, vnode, 0)));
      unique := (max + 1) % TWO32;
      disconVnode := (disconVnode + 2) % TWO32;
      if disconVnode == 0 {
        disconVnode := 2;
      }
      NewUnique(vfid, vcHash, f, max);
    }

    /** The largest uniquifier on a chain, or 0. */
    method MaxUnique(b: nat) returns (max: nat)
      requires VValid() && b < |vhashT.lists|
      ensures forall v :: v in vfid && vcHash(vfid[v]) == b ==> vfid[v].unique <= max
      ensures max == 0 || exists v :: v in vfid && vcHash(vfid[v]) == b && vfid[v].unique == max
    {
      ghost var chain, k := vhashT.lists[b], 0;
      ChainMembers(vhashT.lists, Places(vfid, vcHash), b);
      var tvc := vhashT.heads[b];
      max := 0;
      while tvc != NULLIDX
        invariant 0 <= k <= |chain| && tvc == (if k < |chain| then chain[k] else NULLIDX)
        invariant forall j :: 0 <= j < k ==> vfid[chain[j]].unique <= max
        invariant max == 0 || exists v :: v in vfid && vcHash(vfid[v]) == b && vfid[v].unique == max
        decreases |chain| - k
      {
        if vfid[tvc].unique > max {
          max := vfid[tvc].unique;
        }
        assert vhashT.next[chain[k]] == After(chain, k);
        tvc, k := vhashT.next[tvc], k + 1;
      }
      forall v | v in vfid && vcHash(vfid[v]) == b ensures vfid[v].unique <= max {
        var j := OnItsChain(vhashT.lists, Places(vfid, vcHash), v);
      }
    }

    /** A new vcache, filed in both vcache tables. */
    method FileVcache(v: nat, f: Fid)
      requires VValid() && v !in vfid && v < vhashT.next.Length && v < vhashTV.next.Length
      modifies this`vfid, vhashT, vhashT.heads, vhashT.next, vhashTV, vhashTV.heads, vhashTV.next
      ensures VValid() && vfid == old(vfid)[v := f]
    {
      PlacesMove(vfid, vcHash, v, f);
      PlacesMove(vfid, vcHashV, v, f);
      vhashT.File(v, vcHash(f), Places(vfid, vcHash));
      vhashTV.File(v, vcHashV(f), Places(vfid, vcHashV));
      vfid := vfid[v := f];
    }

    /** A slot taken for a chunk of a file, filed in both dcache tables. */
    method FileSlot(i: nat, f: Fid, chunk: nat)
      requires DValid() && i !in slots && i < dchashTbl.next.Length && i < dvhashTbl.next.Length
      modifies this`slots, dchashTbl, dchashTbl.heads, dchashTbl.next, dvhashTbl, dvhashTbl.heads, dvhashTbl.next
      ensures DValid() && slots == old(slots)[i := Slot(f, chunk, f.unique)]
    {
      var s := Slot(f, chunk, f.unique);
      SlotPlacesMove(slots, dcHash, dvHash, i, s);
      dchashTbl.File(i, dcHash(f, chunk), ChunkPlaces(slots, dcHash));
      dvhashTbl.File(i, dvHash(f), SlotPlaces(slots, dvHash));
      slots := slots[i := s];
    }

    /** Moving a vcache to its new place in both vcache tables. */
    method RekeyVcache(v: nat, f: Fid)
      requires VValid() && v in vfid
      modifies this`vfid, vhashT, vhashT.heads, vhashT.next, vhashTV, vhashTV.heads, vhashTV.next
      ensures VValid() && vfid == old(vfid)[v := f]
    {
      PlacesMove(vfid, vcHash, v, f);
      PlacesMove(vfid, vcHashV, v, f);
      vhashT.Move(v, vcHash(vfid[v]), vcHash(f), Places(vfid, vcHash));
      vhashTV.Move(v, vcHashV(vfid[v]), vcHashV(f), Places(vfid, vcHashV));
      vfid := vfid[v := f];
    }

    /** One slot: afs_HashOutDCache, then filed again under the new fid. */
    method RekeySlot(i: nat, f: Fid)
      requires DValid() && i in slots
      modifies this`slots, dchashTbl, dchashTbl.heads, dchashTbl.next, dvhashTbl, dvhashTbl.heads, dvhashTbl.next
      ensures DValid() && slots == old(slots)[i := Slot(f, old(slots)[i].chunk, f.unique)]
      ensures dvhashTbl.lists == In(Out(old(dvhashTbl.lists), dvHash(old(slots)[i].fid), i), dvHash(f), i)
    {
      var s := slots[i];
      SlotPlacesMove(slots, dcHash, dvHash, i, Slot(f, s.chunk, f.unique));
      dchashTbl.Move(i, dcHash(s.fid, s.chunk), dcHash(f, s.chunk), ChunkPlaces(slots, dcHash));
      dvhashTbl.Move(i, dvHash(s.fid), dvHash(f), SlotPlaces(slots, dvHash));
      slots := slots[i := Slot(f, s.chunk, f.unique)];
    }

    /** One slot of the chain being walked, if it is the file's: what is ahead stays ahead. */
    method RekeyIfSame(i: nat, was: Fid, f: Fid, ghost chain: seq<nat>, ghost k: nat)
      requires DValid() && i in slots && k < |chain| && chain[k] == i && EndsWith(dvhashTbl.lists[dvHash(was)], chain, k)
      modifies this`slots, dchashTbl, dchashTbl.heads, dchashTbl.next, dvhashTbl, dvhashTbl.heads, dvhashTbl.next
      ensures DValid() && slots == old(slots)[i := Renamed(old(slots)[i], was, f)]
      ensures EndsWith(dvhashTbl.lists[dvHash(was)], chain, k + 1)
    {
      WalkOn(dvhashTbl.lists[dvHash(was)], chain, k);
      if slots[i].unique == was.unique && slots[i].fid == was {
        RekeySlot(i, f);
      }
    }

    /** One turn of the walk. */
    method RekeyNext(index: nat, was: Fid, f: Fid, ghost chain: seq<nat>, ghost k: nat, ghost before: map<nat, Slot>)
      returns (following: int)
      requires DValid() && was != f && k < |chain| && chain[k] == index && EndsWith(dvhashTbl.lists[dvHash(was)], chain, k)
      requires MovedUpTo(before, slots, chain, k, was, f)
      modifies this`slots, dchashTbl, dchashTbl.heads, dchashTbl.next, dvhashTbl, dvhashTbl.heads, dvhashTbl.next
      ensures DValid() && EndsWith(dvhashTbl.lists[dvHash(was)], chain, k + 1)
      ensures MovedUpTo(before, slots, chain, k + 1, was, f)
      ensures following == if k + 1 < |chain| then chain[k + 1] else NULLIDX
    {
      MovedOne(before, slots, chain, k, was, f);
      following := Following(was, index, chain, k);
      RekeyIfSame(index, was, f, chain, k);
    }

    /** All slots of a file, walking the chain of the old fid while its slots leave it, and may
        come back to its front. */
    method RekeySlots(was: Fid, f: Fid)
      requires DValid() && was != f
      modifies this`slots, dchashTbl, dchashTbl.heads, dchashTbl.next, dvhashTbl, dvhashTbl.heads, dvhashTbl.next
      ensures DValid() && slots.Keys == old(slots).Keys
      ensures forall i :: i in slots ==> slots[i] == Renamed(old(slots)[i], was, f)
    {
      ghost var before, tables := slots, dvhashTbl.lists;
      ghost var chain, k := tables[dvHash(was)], 0;
      ChainMembers(tables, SlotPlaces(before, dvHash), dvHash(was));
      var index := dvhashTbl.heads[dvHash(was)];
      while index != NULLIDX
        invariant 0 <= k <= |chain| && index == (if k < |chain| then chain[k] else NULLIDX)
        invariant DValid() && EndsWith(dvhashTbl.lists[dvHash(was)], chain, k)
        invariant MovedUpTo(before, slots, chain, k, was, f)
        decreases |chain| - k
      {
        index := RekeyNext(index, was, f, chain, k, before);
        k := k + 1;
      }
      AllMoved(before, slots, tables, dvHash, was, f);
    }

    /** The next slot of the chain, read before the current one moves. */
    method Following(was: Fid, index: nat, ghost chain: seq<nat>, ghost k: nat) returns (n: int)
      requires DValid() && k < |chain| && chain[k] == index && EndsWith(dvhashTbl.lists[dvHash(was)], chain, k)
      ensures n == (if k + 1 < |chain| then chain[k + 1] else NULLIDX)
    {
      ghost var l := dvhashTbl.lists[dvHash(was)];
      WalkOn(l, chain, k);
      ghost var p := |l| - |chain| + k;
      assert dvhashTbl.next[..][l[p]] == After(l, p);
      n := dvhashTbl.next[index];
    }

    // ---------------------------------------------------------------- directories

    ghost predicate Unique()
      reads this`vfid, this`slots, this`dirs
    {
      OneEach(vfid, slots, dirs.Keys)
    }

    ghost predicate Unused(f: Fid)
      reads this`vfid, this`slots
    {
      (forall v :: v in vfid ==> vfid[v] != f) && (forall i :: i in slots ==> slots[i].fid != f)
    }

    /** afs_dir_ChangeFid. */
    method ChangeFid(i: nat, name: string, anyFid: bool, was: Name, to: Name)
      modifies this`dirs
      ensures dirs.Keys == old(dirs).Keys
      ensures forall j :: j in dirs ==> dirs[j] == (if j == i then Changed(old(dirs)[j], name, anyFid, was, to) else old(dirs)[j])
    {
      if i in dirs && name in dirs[i] && (anyFid || dirs[i][name] == was) {
        dirs := dirs[i := dirs[i][name := to]];
      }
    }

    /** fix_children_fids_hook, for an entry of the directory that becomes f. */
    method FixChild(name: string, n: Name, f: Fid)
      requires VValid() && DValid() && Unique() && vfid.Keys <= vparent.Keys
      modifies this`vparent, this`dirs
      ensures Unique() && vparent.Keys == old(vparent).Keys && dirs.Keys == old(dirs).Keys
      ensures forall v | v in vparent ::
                vparent[v] == if v in vfid && IsFile(name, n, f, vfid[v]) then NameOf(f) else old(vparent)[v]
      ensures forall i | i in dirs ::
                dirs[i] == if i in slots && IsDir(name, n, f, slots[i].fid) then Moved(old(dirs)[i], f) else old(dirs)[i]
    {
      if name == "." || name == ".." {
        return;
      }
      var child := Fid(f.cell, f.volume, n.vnode, n.unique);
      if n.vnode % 2 == 0 {
        var v := FindVCache(child);
        if v.Some? {
          vparent := vparent[v.value := NameOf(f)];
        }
      } else {
        var i := FindDCacheByFid(child);
        if i.Some? {
          ChangeFid(i.value, "..", true, NameOf(f), NameOf(f));
        }
      }
    }

    /** afs_FixChildrenFids for a directory with the given entries that becomes f. */
    method FixChildrenFids(entries: map<string, Name>, f: Fid)
      requires VValid() && DValid() && Unique() && vfid.Keys <= vparent.Keys
      modifies this`vparent, this`dirs
      ensures Unique()
      ensures ParentsFixed(old(vparent), vparent, vfid, entries, entries.Keys, f)
      ensures DirsFixed(old(dirs), dirs, slots, entries, entries.Keys, f)
    {
      var todo := entries.Keys;
      while todo != {}
        invariant todo <= entries.Keys && Unique() && vfid.Keys <= vparent.Keys
        invariant ParentsFixed(old(vparent), vparent, vfid, entries, entries.Keys - todo, f)
        invariant DirsFixed(old(dirs), dirs, slots, entries, entries.Keys - todo, f)
        decreases |todo|
      {
        var name :| name in todo;
        ghost var parents, contents := vparent, dirs;
        FixChild(name, entries[name], f);
        OneMoreParent(old(vparent), parents, vparent, vfid, entries, todo, name, f);
        OneMoreDir(old(dirs), contents, dirs, slots, entries, todo, name, f);
        todo := todo - {name};
      }
    }

    /** The parent's entry for the file, and its own ".": they name f instead of `was`. */
    method RenameEntries(parent: Fid, name: string, isDir: bool, was: Fid, f: Fid)
      requires DValid() && Unique() && parent != was
      modifies this`dirs
      ensures Unique() && dirs.Keys == old(dirs).Keys
      ensures forall i | i in dirs :: dirs[i] == Renames(i, old(dirs)[i], parent, name, isDir, was, f)
    {
      var p := FindDCacheByFid(parent);
      if p.Some? {
        ChangeFid(p.value, name, false, NameOf(was), NameOf(f));
      }
      if isDir {
        var d := FindDCacheByFid(was);
        if d.Some? {
          ChangeFid(d.value, ".", false, NameOf(was), NameOf(f));
        }
      }
    }

    ghost function Renames(i: nat, e: map<string, Name>, parent: Fid, name: string, isDir: bool, was: Fid, f: Fid): map<string, Name>
      reads this`slots
    {
      if i in slots && slots[i].fid == parent then Changed(e, name, false, NameOf(was), NameOf(f))
      else if i in slots && slots[i].fid == was && isDir then Changed(e, ".", false, NameOf(was), NameOf(f))
      else e
    }

    /** The part of it for a directory: its children's names for it change, if it has any.
        Returns the entries they were found by. */
    method RenameInChildren(links: nat, was: Fid, f: Fid) returns (ghost children: map<string, Name>)
      requires VValid() && DValid() && Unique() && vfid.Keys <= vparent.Keys
      requires forall i :: i in slots && slots[i].fid == was ==> i in dirs
      modifies this`vparent, this`dirs
      ensures IsChildren(children, old(dirs), slots, links >= 2, was)
      ensures ParentsFixed(old(vparent), vparent, vfid, children, children.Keys, f)
      ensures DirsFixed(old(dirs), dirs, slots, children, children.Keys, f)
    {
      children := map[];
      var d := FindDCacheByFid(was);
      if d.Some? && links >= 2 {
        children := dirs[d.value];
        FixChildrenFids(dirs[d.value], f);
      }
    }

    /** The directories' part: returns the entries of the directory itself, if it is one. */
    method RenameInDirectories(parent: Fid, name: string, isDir: bool, links: nat, was: Fid, f: Fid)
      returns (ghost renamed: map<nat, map<string, Name>>, ghost children: map<string, Name>)
      requires VValid() && DValid() && Unique() && vfid.Keys <= vparent.Keys && parent != was
      requires isDir ==> forall i :: i in slots && slots[i].fid == was ==> i in dirs
      modifies this`vparent, this`dirs
      ensures renamed.Keys == old(dirs).Keys
      ensures forall i | i in renamed :: renamed[i] == Renames(i, old(dirs)[i], parent, name, isDir, was, f)
      ensures IsChildren(children, renamed, slots, isDir && links >= 2, was)
      ensures ParentsFixed(old(vparent), vparent, vfid, children, children.Keys, f)
      ensures DirsFixed(renamed, dirs, slots, children, children.Keys, f)
    {
      RenameEntries(parent, name, isDir, was, f);
      renamed, children := dirs, map[];
      if isDir {
        children := RenameInChildren(links, was, f);
      }
    }

    /** The same, and what every entry and parent field is then. */
    method RenameAndFollow(parent: Fid, name: string, isDir: bool, links: nat, was: Fid, f: Fid)
      returns (ghost renamed: map<nat, map<string, Name>>, ghost children: map<string, Name>)
      requires VValid() && DValid() && Unique() && vfid.Keys <= vparent.Keys && parent != was
      requires isDir ==> forall i :: i in slots && slots[i].fid == was ==> i in dirs
      modifies this`vparent, this`dirs
      ensures renamed.Keys == old(dirs).Keys && dirs.Keys == old(dirs).Keys
      ensures forall i | i in renamed :: renamed[i] == Renames(i, old(dirs)[i], parent, name, isDir, was, f)
      ensures IsChildren(children, renamed, slots, isDir && links >= 2, was)
      ensures ParentsFixed(old(vparent), vparent, vfid, children, children.Keys, f)
      ensures DirsFixed(renamed, dirs, slots, children, children.Keys, f)
      ensures EntriesFollow(old(dirs), dirs, slots, parent, name, isDir, isDir && links >= 2, was, f)
      ensures ParentsFollow(old(vparent), vparent, vfid, old(dirs), slots, isDir && links >= 2, was, f)
    {
      ghost var contents, parents := dirs, vparent;
      renamed, children := RenameInDirectories(parent, name, isDir, links, was, f);
      AllFollow(contents, renamed, dirs, children, slots, vfid, parent, name, isDir, isDir && links >= 2, was, f);
      ParentsToo(contents, renamed, children, parents, vparent, slots, vfid, parent, name, isDir, isDir && links >= 2, was, f);
    }

    /** The tables' part. */
    method Rekey(v: nat, f: Fid)
      requires VValid() && DValid() && Unique() && v in vfid && f != vfid[v]
      modifies this`vfid, this`slots, vhashT, vhashT.heads, vhashT.next, vhashTV, vhashTV.heads, vhashTV.next,
               dchashTbl, dchashTbl.heads, dchashTbl.next, dvhashTbl, dvhashTbl.heads, dvhashTbl.next
      ensures VValid() && DValid()
      ensures vfid == old(vfid)[v := f] && forall u :: u in vfid ==> vfid[u] != old(vfid)[v]
      ensures slots.Keys == old(slots).Keys && forall i :: i in slots ==> slots[i] == Renamed(old(slots)[i], old(vfid)[v], f)
      ensures old(Unused(f)) ==> Unique()
    {
      ghost var fids, before := vfid, slots;
      RekeyBoth(v, f);
      OldFidGone(fids, vfid, before, dirs.Keys, v, f);
      if old(Unused(f)) {
        StillOneEach(fids, before, slots, dirs.Keys, v, f);
      }
    }

    method RekeyBoth(v: nat, f: Fid)
      requires VValid() && DValid() && v in vfid && f != vfid[v]
      modifies this`vfid, this`slots, vhashT, vhashT.heads, vhashT.next, vhashTV, vhashTV.heads, vhashTV.next,
               dchashTbl, dchashTbl.heads, dchashTbl.next, dvhashTbl, dvhashTbl.heads, dvhashTbl.next
      ensures VValid() && DValid() && vfid == old(vfid)[v := f]
      ensures slots.Keys == old(slots).Keys && forall i :: i in slots ==> slots[i] == Renamed(old(slots)[i], old(vfid)[v], f)
    {
      var was := vfid[v];
      RekeyVcache(v, f);
      RekeySlots(was, f);
    }

    /** afs_ProcessOpCreate once the server has made the file: file v in directory p, so far
        known by a made-up fid, is f from now on.  Every table, cached directory and parent
        field that named it by its old fid names it by the new one. */
    method ProcessOpCreate(v: nat, p: nat, name: string, isDir: bool, links: nat, f: Fid)
      returns (ghost renamed: map<nat, map<string, Name>>, ghost children: map<string, Name>)
      requires VValid() && DValid() && Unique() && vfid.Keys <= vparent.Keys
      requires v in vfid && p in vfid && p != v && f != vfid[v]
      requires isDir ==> forall i :: i in slots && slots[i].fid == vfid[v] ==> i in dirs
      modifies this, vhashT, vhashT.heads, vhashT.next, vhashTV, vhashTV.heads, vhashTV.next,
               dchashTbl, dchashTbl.heads, dchashTbl.next, dvhashTbl, dvhashTbl.heads, dvhashTbl.next
      ensures VValid() && DValid()
      ensures vfid == old(vfid)[v := f] && forall u :: u in vfid ==> vfid[u] != old(vfid)[v]
      ensures slots.Keys == old(slots).Keys && forall i :: i in slots ==> slots[i] == Renamed(old(slots)[i], old(vfid)[v], f)
      ensures forall i :: i in slots ==>
                && slots[i].chunk == old(slots)[i].chunk
                && (old(slots)[i].fid == old(vfid)[v] ==> slots[i].fid == f && slots[i].unique == f.unique)
                && (old(slots)[i].fid != old(vfid)[v] ==> slots[i] == old(slots)[i])
      ensures old(Unused(f)) ==> Unique()
      ensures renamed.Keys == old(dirs).Keys
      ensures forall i | i in renamed :: renamed[i] == old(Renames(i, dirs[i], vfid[p], name, isDir, vfid[v], f))
      ensures IsChildren(children, renamed, old(slots), isDir && links >= 2, old(vfid)[v])
      ensures ParentsFixed(old(vparent), vparent, old(vfid), children, children.Keys, f)
      ensures DirsFixed(renamed, dirs, old(slots), children, children.Keys, f)
      ensures EntriesFollow(old(dirs), dirs, old(slots), old(vfid)[p], name, isDir, isDir && links >= 2, old(vfid)[v], f)
      ensures ParentsFollow(old(vparent), vparent, old(vfid), old(dirs), old(slots), isDir && links >= 2, old(vfid)[v], f)
    {
      renamed, children := RenameAndFollow(vfid[p], name, isDir, links, vfid[v], f);
      Rekey(v, f);
    }
  }

  // ---------------------------------------------------------------- what the directories then name

  /** A slot of the directory `was` has an entry n, other than its own two, for g, in the volume of f. */
  predicate ChildAt(dirs: map<nat, map<string, Name>>, slots: map<nat, Slot>, j: nat, n: string, was: Fid, f: Fid, g: Fid)
  {
    && j in slots && j in dirs && slots[j].fid == was && n in dirs[j] && n != "." && n != ".."
    && g == Fid(f.cell, f.volume, dirs[j][n].vnode, dirs[j][n].unique)
  }

  ghost predicate HasChild(dirs: map<nat, map<string, Name>>, slots: map<nat, Slot>, was: Fid, f: Fid, g: Fid)
  {
    exists j, n :: ChildAt(dirs, slots, j, n, was, f, g)
  }

  /** Entry x of the directory in slot i names the file that was `was`, or is named by it: it is the
      file's name in its parent, or "." in the file itself, with the old vnode and uniquifier; or it is
      ".." in a directory that is in the file. */
  ghost predicate IsStale(dirs: map<nat, map<string, Name>>, slots: map<nat, Slot>, i: nat, x: string,
                          parent: Fid, name: string, isDir: bool, hasKids: bool, was: Fid, f: Fid)
  {
    && i in slots && i in dirs && x in dirs[i]
    && (|| (slots[i].fid == parent && x == name && dirs[i][x].vnode == was.vnode && dirs[i][x].unique == was.unique)
        || (isDir && slots[i].fid == was && x == "." && dirs[i][x].vnode == was.vnode && dirs[i][x].unique == was.unique)
        || (hasKids && x == ".." && slots[i].fid.vnode % 2 == 1 && HasChild(dirs, slots, was, f, slots[i].fid)))
  }

  /** Those entries, and no others, have changed: they name f.  So neither the file's entry in its parent nor
      its own "." names the old vnode and uniquifier any more. */
  ghost predicate EntriesFollow(before: map<nat, map<string, Name>>, now: map<nat, map<string, Name>>, slots: map<nat, Slot>,
                                parent: Fid, name: string, isDir: bool, hasKids: bool, was: Fid, f: Fid)
  {
    && now.Keys == before.Keys && (forall i :: i in now ==> now[i].Keys == before[i].Keys)
    && (forall i, x :: i in now && x in now[i] ==>
          if IsStale(before, slots, i, x, parent, name, isDir, hasKids, was, f)
          then now[i][x].vnode == f.vnode && now[i][x].unique == f.unique else now[i][x] == before[i][x])
    && ((f.vnode, f.unique) != (was.vnode, was.unique) ==>
          && (forall i :: i in now && i in slots && slots[i].fid == parent && name in now[i] ==>
                (now[i][name].vnode, now[i][name].unique) != (was.vnode, was.unique))
          && (forall i :: isDir && i in now && i in slots && slots[i].fid == was && "." in now[i] ==>
                (now[i]["."].vnode, now[i]["."].unique) != (was.vnode, was.unique)))
  }

  /** The vcaches of the files in a directory that has become f, and no others, have f for parent. */
  ghost predicate ParentsFollow(before: map<nat, Name>, now: map<nat, Name>, vfid: map<nat, Fid>,
                                dirs: map<nat, map<string, Name>>, slots: map<nat, Slot>, hasKids: bool, was: Fid, f: Fid)
  {
    && now.Keys == before.Keys
    && forall u :: u in now ==>
         if u in vfid && hasKids && vfid[u].vnode % 2 == 0 && HasChild(dirs, slots, was, f, vfid[u])
         then now[u].vnode == f.vnode && now[u].unique == f.unique else now[u] == before[u]
  }

  /** The entries whose files are told of a directory's new fid: those of the directory, if it
      is cached, or none. */
  ghost predicate IsChildren(children: map<string, Name>, dirs: map<nat, map<string, Name>>, slots: map<nat, Slot>,
                             isDir: bool, was: Fid)
  {
    if isDir && exists i :: i in slots && i in dirs && slots[i].fid == was
    then exists i :: i in slots && i in dirs && slots[i].fid == was && children == dirs[i]
    else children == map[]
  }

  /** Directory contents after afs_dir_ChangeFid. */
  function Changed(e: map<string, Name>, name: string, anyFid: bool, was: Name, to: Name): map<string, Name>
  {
    if name in e && (anyFid || e[name] == was) then e[name := to] else e
  }

  /** Contents of a directory whose parent has become f. */
  function Moved(e: map<string, Name>, f: Fid): map<string, Name>
  {
    Changed(e, "..", true, NameOf(f), NameOf(f))
  }

  function NameOf(f: Fid): Name
  {
    Name(f.vnode, f.unique)
  }

  /** Entry (name, n) of a directory in f's volume names the file g. */
  predicate IsFile(name: string, n: Name, f: Fid, g: Fid)
  {
    name != "." && name != ".." && n.vnode % 2 == 0 && g == Fid(f.cell, f.volume, n.vnode, n.unique)
  }

  /** Entry (name, n) of a directory in f's volume names the directory g. */
  predicate IsDir(name: string, n: Name, f: Fid, g: Fid)
  {
    name != "." && name != ".." && n.vnode % 2 == 1 && g == Fid(f.cell, f.volume, n.vnode, n.unique)
  }

  ghost predicate HasFile(entries: map<string, Name>, names: set<string>, f: Fid, g: Fid)
  {
    exists n :: n in names && n in entries && IsFile(n, entries[n], f, g)
  }

  ghost predicate HasDir(entries: map<string, Name>, names: set<string>, f: Fid, g: Fid)
  {
    exists n :: n in names && n in entries && IsDir(n, entries[n], f, g)
  }

  /** The files named under `names` have f for their parent, the others keep theirs. */
  ghost predicate ParentsFixed(before: map<nat, Name>, now: map<nat, Name>, vfid: map<nat, Fid>,
                               entries: map<string, Name>, names: set<string>, f: Fid)
  {
    && now.Keys == before.Keys
    && (forall v | v in now ::
          now[v] == if v in vfid && HasFile(entries, names, f, vfid[v]) then NameOf(f) else before[v])
  }

  /** The directories named under `names` have f for "..", the others are as before. */
  ghost predicate DirsFixed(before: map<nat, map<string, Name>>, now: map<nat, map<string, Name>>, slots: map<nat, Slot>,
                            entries: map<string, Name>, names: set<string>, f: Fid)
  {
    && now.Keys == before.Keys
    && (forall i | i in now ::
          now[i] == if i in slots && HasDir(entries, names, f, slots[i].fid) then Moved(before[i], f) else before[i])
  }

  /** What RenameEntries has made of each directory. */
  ghost predicate EntriesRenamed(before: map<nat, map<string, Name>>, renamed: map<nat, map<string, Name>>, slots: map<nat, Slot>,
                                 parent: Fid, name: string, isDir: bool, was: Fid, f: Fid)
  {
    && renamed.Keys == before.Keys
    && forall i :: i in renamed ==>
         renamed[i] == if i in slots && slots[i].fid == parent then Changed(before[i], name, false, NameOf(was), NameOf(f))
                       else if i in slots && slots[i].fid == was && isDir then Changed(before[i], ".", false, NameOf(was), NameOf(f))
                       else before[i]
  }

  /** The entries by which a directory's children are found are those it had. */
  lemma SameChildren(before: map<nat, map<string, Name>>, renamed: map<nat, map<string, Name>>, children: map<string, Name>,
                     slots: map<nat, Slot>, vfid: map<nat, Fid>, parent: Fid, name: string, isDir: bool, hasKids: bool, was: Fid, f: Fid, g: Fid)
    requires EntriesRenamed(before, renamed, slots, parent, name, isDir, was, f) && parent != was && (hasKids ==> isDir)
    requires OneEach(vfid, slots, before.Keys) && IsChildren(children, renamed, slots, hasKids, was)
    ensures HasFile(children, children.Keys, f, g) <==> hasKids && g.vnode % 2 == 0 && HasChild(before, slots, was, f, g)
    ensures HasDir(children, children.Keys, f, g) <==> hasKids && g.vnode % 2 == 1 && HasChild(before, slots, was, f, g)
  {
    if hasKids && HasChild(before, slots, was, f, g) {
      var j, n :| ChildAt(before, slots, j, n, was, f, g);
      assert n in children && children[n] == before[j][n];
    }
    if n :| n in children && (IsFile(n, children[n], f, g) || IsDir(n, children[n], f, g)) {
      var j :| j in slots && j in renamed && slots[j].fid == was && children == renamed[j];
      assert ChildAt(before, slots, j, n, was, f, g);
    }
  }

  lemma AllFollow(before: map<nat, map<string, Name>>, renamed: map<nat, map<string, Name>>, now: map<nat, map<string, Name>>,
                  children: map<string, Name>, slots: map<nat, Slot>, vfid: map<nat, Fid>,
                  parent: Fid, name: string, isDir: bool, hasKids: bool, was: Fid, f: Fid)
    requires EntriesRenamed(before, renamed, slots, parent, name, isDir, was, f) && parent != was && (hasKids ==> isDir)
    requires OneEach(vfid, slots, before.Keys) && IsChildren(children, renamed, slots, hasKids, was)
    requires DirsFixed(renamed, now, slots, children, children.Keys, f)
    ensures EntriesFollow(before, now, slots, parent, name, isDir, hasKids, was, f)
  {
    forall i | i in now ensures now[i].Keys == before[i].Keys {
    }
    forall i, x | i in now && x in now[i]
      ensures if IsStale(before, slots, i, x, parent, name, isDir, hasKids, was, f)
              then now[i][x].vnode == f.vnode && now[i][x].unique == f.unique else now[i][x] == before[i][x]
    {
      if i in slots {
        SameChildren(before, renamed, children, slots, vfid, parent, name, isDir, hasKids, was, f, slots[i].fid);
        OneFollows(before, renamed, slots, i, x, parent, name, isDir, hasKids, was, f,
                   HasDir(children, children.Keys, f, slots[i].fid));
      }
    }
    NoneStale(before, now, slots, parent, name, isDir, hasKids, was, f);
  }

  /** One entry of one directory. */
  lemma OneFollows(before: map<nat, map<string, Name>>, renamed: map<nat, map<string, Name>>, slots: map<nat, Slot>, i: nat, x: string,
                   parent: Fid, name: string, isDir: bool, hasKids: bool, was: Fid, f: Fid, child: bool)
    requires EntriesRenamed(before, renamed, slots, parent, name, isDir, was, f) && parent != was && i in before && i in slots
    requires child <==> hasKids && slots[i].fid.vnode % 2 == 1 && HasChild(before, slots, was, f, slots[i].fid)
    ensures var e := if child then Moved(renamed[i], f) else renamed[i];
            && e.Keys == before[i].Keys
            && (x in e ==> if IsStale(before, slots, i, x, parent, name, isDir, hasKids, was, f)
                           then e[x].vnode == f.vnode && e[x].unique == f.unique else e[x] == before[i][x])
  {
  }

  lemma NoneStale(before: map<nat, map<string, Name>>, now: map<nat, map<string, Name>>, slots: map<nat, Slot>,
                  parent: Fid, name: string, isDir: bool, hasKids: bool, was: Fid, f: Fid)
    requires now.Keys == before.Keys && (forall i :: i in now ==> now[i].Keys == before[i].Keys)
    requires forall i, x :: i in now && x in now[i] ==>
               if IsStale(before, slots, i, x, parent, name, isDir, hasKids, was, f)
               then now[i][x].vnode == f.vnode && now[i][x].unique == f.unique else now[i][x] == before[i][x]
    ensures EntriesFollow(before, now, slots, parent, name, isDir, hasKids, was, f)
  {
  }

  lemma ParentsToo(before: map<nat, map<string, Name>>, renamed: map<nat, map<string, Name>>, children: map<string, Name>,
                   parents: map<nat, Name>, now: map<nat, Name>, slots: map<nat, Slot>, vfid: map<nat, Fid>,
                   parent: Fid, name: string, isDir: bool, hasKids: bool, was: Fid, f: Fid)
    requires EntriesRenamed(before, renamed, slots, parent, name, isDir, was, f) && parent != was && (hasKids ==> isDir)
    requires OneEach(vfid, slots, before.Keys) && IsChildren(children, renamed, slots, hasKids, was)
    requires ParentsFixed(parents, now, vfid, children, children.Keys, f)
    ensures ParentsFollow(parents, now, vfid, before, slots, hasKids, was, f)
  {
    forall u | u in now
      ensures if u in vfid && hasKids && vfid[u].vnode % 2 == 0 && HasChild(before, slots, was, f, vfid[u])
              then now[u].vnode == f.vnode && now[u].unique == f.unique else now[u] == parents[u]
    {
      if u in vfid {
        SameChildren(before, renamed, children, slots, vfid, parent, name, isDir, hasKids, was, f, vfid[u]);
      }
    }
  }

  lemma OneMoreParent(before: map<nat, Name>, now: map<nat, Name>, next: map<nat, Name>, vfid: map<nat, Fid>,
                      entries: map<string, Name>, todo: set<string>, name: string, f: Fid)
    requires name in todo && todo <= entries.Keys && next.Keys == now.Keys
    requires ParentsFixed(before, now, vfid, entries, entries.Keys - todo, f)
    requires forall v | v in next ::
               next[v] == if v in vfid && IsFile(name, entries[name], f, vfid[v]) then NameOf(f) else now[v]
    ensures ParentsFixed(before, next, vfid, entries, entries.Keys - (todo - {name}), f)
  {
  }

  lemma OneMoreDir(before: map<nat, map<string, Name>>, now: map<nat, map<string, Name>>, next: map<nat, map<string, Name>>,
                   slots: map<nat, Slot>, entries: map<string, Name>, todo: set<string>, name: string, f: Fid)
    requires name in todo && todo <= entries.Keys && next.Keys == now.Keys
    requires DirsFixed(before, now, slots, entries, entries.Keys - todo, f)
    requires forall i | i in next ::
               next[i] == if i in slots && IsDir(name, entries[name], f, slots[i].fid) then Moved(now[i], f) else now[i]
    ensures DirsFixed(before, next, slots, entries, entries.Keys - (todo - {name}), f)
  {
  }

  /** The slots among the first k of the chain have been renamed, and none off the chain. */
  ghost predicate MovedUpTo(before: map<nat, Slot>, now: map<nat, Slot>, chain: seq<nat>, k: nat, was: Fid, f: Fid)
  {
    && now.Keys == before.Keys
    && (forall j :: 0 <= j < |chain| ==> chain[j] in now)
    && (forall i :: i in now ==> now[i] == before[i] || now[i] == Renamed(before[i], was, f))
    && (forall j :: 0 <= j < k && j < |chain| ==> now[chain[j]].fid != was)
  }

  lemma MovedOne(before: map<nat, Slot>, now: map<nat, Slot>, chain: seq<nat>, k: nat, was: Fid, f: Fid)
    requires MovedUpTo(before, now, chain, k, was, f) && k < |chain| && was != f
    ensures MovedUpTo(before, now[chain[k] := Renamed(now[chain[k]], was, f)], chain, k + 1, was, f)
  {
  }

  lemma AllMoved(before: map<nat, Slot>, now: map<nat, Slot>, tables: seq<seq<nat>>, hash: Fid -> nat, was: Fid, f: Fid)
    requires Filed(tables, SlotPlaces(before, hash)) && hash(was) < |tables|
    requires MovedUpTo(before, now, tables[hash(was)], |tables[hash(was)]|, was, f)
    ensures forall i :: i in now ==> now[i] == Renamed(before[i], was, f)
  {
    forall i | i in now ensures now[i] == Renamed(before[i], was, f) {
      var j := OnItsChain(tables, SlotPlaces(before, hash), i);
    }
  }
}
