/** The access cache: per-file lists of (user, rights) entries, and the free list they come
    from and go back to. */
module AccessCache {
  import opened Seqs

  class Axs {
    var uid: int
    var axess: int
    var next: Axs?

    constructor ()
      ensures uid == -2 && axess == 0 && next == null
    {
      uid, axess, next := -2, 0, null;
    }
  }

  /** What follows position i of s. */
  function NextIn(s: seq<Axs>, i: nat): Axs?
  {
    if i + 1 < |s| then s[i + 1] else null
  }

  /** The entries s, linked in this order from h. */
  ghost predicate Linked(h: Axs?, s: seq<Axs>, entries: set<Axs>)
    reads entries
  {
    && (forall i :: 0 <= i < |s| ==> s[i] in entries)
    && h == (if s == [] then null else s[0])
    && (forall i {:trigger NextIn(s, i)} :: 0 <= i < |s| ==> s[i].next == NextIn(s, i))
  }

  /** Unlinking s[k + 1] and linking it before s[0] fronts it. */
  lemma FrontLinks(h: Axs, s: seq<Axs>, k: nat, entries: set<Axs>)
    requires k + 1 < |s| && h == s[0] && forall i :: 0 <= i < |s| ==> s[i] in entries
    requires s[k].next == NextIn(s, k + 1) && s[k + 1].next == h
    requires forall i :: 0 <= i < |s| && i != k && i != k + 1 ==> s[i].next == NextIn(s, i)
    ensures Linked(s[k + 1], Fronted(s, k + 1), entries)
  {
  }

  /** axs_Front, but for the head. */
  method Relink(h: Axs?, pp: Axs, p: Axs, ghost s: seq<Axs>, ghost k: nat, ghost entries: set<Axs>)
    requires Linked(h, s, entries) && Distinct(s) && k + 1 < |s| && pp == s[k] && p == s[k + 1]
    modifies pp`next, p`next
    ensures Linked(p, Fronted(s, k + 1), entries)
  {
    assert forall i :: 0 <= i < |s| ==> s[i].next == NextIn(s, i);
    pp.next := p.next;
    p.next := h;
    FrontLinks(s[0], s, k, entries);
  }

  /** Entry a is where it is said to be. */
  ghost predicate Owned(lists: seq<seq<Axs>>, home: map<Axs, nat>, a: Axs)
  {
    a in home && home[a] < |lists| && a in lists[home[a]]
  }

  /** Every entry is in one list, once. */
  ghost predicate Placed(lists: seq<seq<Axs>>, home: map<Axs, nat>)
  {
    && (forall b :: 0 <= b < |lists| ==> Distinct(lists[b]))
    && (forall b, i :: 0 <= b < |lists| && 0 <= i < |lists[b]| ==> lists[b][i] in home && home[lists[b][i]] == b)
    && (forall a {:trigger Owned(lists, home, a)} :: a in home ==> Owned(lists, home, a))
  }

  lemma FrontPlaced(lists: seq<seq<Axs>>, home: map<Axs, nat>, b: nat, k: nat)
    requires Placed(lists, home) && b < |lists| && k < |lists[b]|
    ensures Placed(lists[b := Fronted(lists[b], k)], home)
  {
    var s, t := lists[b], Fronted(lists[b], k);
    assert forall i :: 0 <= i < |t| ==> t[i] == s[if i == 0 then k else if i <= k then i - 1 else i];
    forall i | 0 <= i < |s| ensures s[i] in t {
      assert t[if i < k then i + 1 else if i == k then 0 else i] == s[i];
    }
    forall a | a in home ensures Owned(lists[b := t], home, a) {
      assert Owned(lists, home, a);
    }
  }

  lemma PopPlaced(lists: seq<seq<Axs>>, home: map<Axs, nat>)
    requires Placed(lists, home) && |lists| > 0 && lists[0] != []
    ensures Placed(lists[0 := lists[0][1..]], home - {lists[0][0]})
  {
    var x, r := lists[0][0], lists[0 := lists[0][1..]];
    forall b, i | 0 <= b < |r| && 0 <= i < |r[b]| ensures r[b][i] in home - {x} && home[r[b][i]] == b {
      assert r[b][i] == lists[b][if b == 0 then i + 1 else i];
    }
    forall a | a in home - {x} ensures Owned(r, home - {x}, a) {
      assert Owned(lists, home, a);
      assert lists[0] == [x] + lists[0][1..];
    }
  }

  lemma PushPlaced(lists: seq<seq<Axs>>, home: map<Axs, nat>, b: nat, x: Axs)
    requires Placed(lists, home) && b < |lists| && x !in home
    ensures Placed(lists[b := [x] + lists[b]], home[x := b])
  {
    var r := lists[b := [x] + lists[b]];
    forall i | 0 <= i < |lists[b]| ensures lists[b][i] != x {
      assert lists[b][i] in home;
    }
    var after := home[x := b];
    forall a | a in after ensures Owned(r, after, a) {
      assert a == x || Owned(lists, home, a);
    }
  }

  /** Entries s, all new, put in the empty free list. */
  ghost function Joined(home: map<Axs, nat>, s: seq<Axs>): map<Axs, nat>
  {
    home + map x | x in Elements(s) :: 0
  }

  lemma GrowPlaced(lists: seq<seq<Axs>>, home: map<Axs, nat>, s: seq<Axs>)
    requires Placed(lists, home) && |lists| > 0 && lists[0] == [] && Distinct(s) && forall x :: x in s ==> x !in home
    ensures Placed(lists[0 := s], Joined(home, s))
  {
    var r, after := lists[0 := s], Joined(home, s);
    forall b, i | 0 <= b < |r| && 0 <= i < |r[b]| ensures r[b][i] in after && after[r[b][i]] == b {
      assert b == 0 ==> s[i] in s;
    }
    forall a | a in after ensures Owned(r, after, a) {
      assert a in home ==> Owned(lists, home, a);
    }
  }

  /** List b put before the free list. */
  ghost function Freed(home: map<Axs, nat>, b: nat): map<Axs, nat>
  {
    map x | x in home :: if home[x] == b then 0 else home[x]
  }

  lemma FreePlaced(lists: seq<seq<Axs>>, home: map<Axs, nat>, b: nat)
    requires Placed(lists, home) && 0 < b < |lists|
    ensures Placed(lists[0 := lists[b] + lists[0]][b := []], Freed(home, b))
  {
    var r, after := lists[0 := lists[b] + lists[0]][b := []], Freed(home, b);
    assert forall x :: x in lists[b] ==> x !in lists[0] by {
      forall i, j | 0 <= i < |lists[b]| && 0 <= j < |lists[0]| ensures lists[b][i] != lists[0][j] {
        assert home[lists[b][i]] == b && home[lists[0][j]] == 0;
      }
    }
    DistinctConcat(lists[b], lists[0]);
    forall a | a in after ensures Owned(r, after, a) {
      assert Owned(lists, home, a);
    }
  }

  /** Linking the end of one chain to the beginning of another. */
  lemma CatLinked(h: Axs?, s: seq<Axs>, g: Axs?, t: seq<Axs>, entries: set<Axs>)
    requires s != [] && Linked(g, t, entries) && h == s[0] && forall i :: 0 <= i < |s| ==> s[i] in entries
    requires forall i :: 0 <= i < |s| ==> s[i].next == if i == |s| - 1 then g else NextIn(s, i)
    ensures Linked(h, s + t, entries)
  {
    var r := s + t;
    forall i | 0 <= i < |r| ensures r[i] in entries && r[i].next == NextIn(r, i) {
      assert i >= |s| ==> t[i - |s|].next == NextIn(t, i - |s|);
    }
  }

  lemma TailLinked(s: seq<Axs>, entries: set<Axs>)
    requires s != [] && Distinct(s) && Linked(s[0], s, entries)
    ensures Linked(s[0].next, s[1..], entries - {s[0]})
  {
    var t := s[1..];
    assert s[0].next == NextIn(s, 0);
    forall i | 0 <= i < |t| ensures t[i].next == NextIn(t, i) {
      assert s[i + 1].next == NextIn(s, i + 1);
    }
  }

  lemma ConsLinked(h: Axs?, s: seq<Axs>, entries: set<Axs>, x: Axs)
    requires Linked(h, s, entries) && x.next == h
    ensures Linked(x, [x] + s, entries + {x})
  {
    var t := [x] + s;
    forall i | 0 <= i < |t| ensures t[i].next == NextIn(t, i) {
      assert i == 0 || t[i].next == NextIn(s, i - 1);
    }
  }

  ghost function Elements(s: seq<Axs>): set<Axs>
  {
    set x | x in s
  }

  /** A chain of new entries. */
  method NewSlab(n: nat) returns (h: Axs?, ghost s: seq<Axs>)
    ensures |s| == n && Distinct(s) && (forall x :: x in s ==> fresh(x)) && Linked(h, s, Elements(s))
  {
    h, s := null, [];
    for i := 0 to n
      invariant |s| == i && Distinct(s) && (forall x :: x in s ==> fresh(x)) && Linked(h, s, Elements(s))
    {
      var x := new Axs();
      assert x !in s;
      x.next := h;
      ConsLinked(h, s, Elements(s), x);
      DistinctConcat([x], s);
      assert Elements([x] + s) == Elements(s) + {x};
      h, s := x, [x] + s;
    }
  }

  class AxsPool {
    const slab: nat              // entries per allocation, NAXSs
    var heads: seq<Axs?>         // afs_axsfreelist, then the heads of the cache lists
    ghost var lists: seq<seq<Axs>>
    ghost var home: map<Axs, nat>   // every entry ever allocated, and the list it is in

    /** Every entry is in exactly one list, and the lists are linked as recorded. */
    ghost predicate Valid()
      reads this`heads, this`lists, this`home, home.Keys
    {
      && |heads| == |lists| > 0 && slab > 0 && Placed(lists, home)
      && (forall b :: 0 <= b < |lists| ==> Linked(heads[b], lists[b], home.Keys))
    }

    constructor (slab: nat, n: nat)
      requires slab > 0
      ensures Valid() && lists == seq(n + 1, _ => []) && home == map[]
    {
      this.slab := slab;
      heads := seq(n + 1, _ => null);
      lists := seq(n + 1, _ => []);
      home := map[];
    }

    /** axs_Front on list b. */
    method Front(b: nat, pp: Axs, p: Axs, ghost k: nat)
      requires Valid() && b < |lists| && k + 1 < |lists[b]| && pp == lists[b][k] && p == lists[b][k + 1]
      modifies this`heads, this`lists, pp`next, p`next
      ensures Valid() && lists == old(lists)[b := Fronted(old(lists)[b], k + 1)]
    {
      ghost var s := lists[b];
      FrontPlaced(lists, home, b, k + 1);
      Relink(heads[b], pp, p, s, k, home.Keys);
      forall c | 0 <= c < |lists| && c != b ensures Linked(heads[c], lists[c], home.Keys) {
        assert forall i :: 0 <= i < |lists[c]| ==> home[lists[c][i]] == c;
        assert old(Linked(heads[c], lists[c], home.Keys));
      }
      heads := heads[b := p];
      lists := lists[b := Fronted(s, k + 1)];
    }

    /** afs_SlowFindAxs, two entries to a turn: the first entry for the user, moved to the front. */
    method SlowFind(b: nat, id: int) returns (r: Axs?, ghost k: nat)
      requires Valid() && b < |lists| && lists[b] != [] && lists[b][0].uid != id
      modifies this`heads, this`lists, home.Keys
      ensures Valid() && home == old(home) && forall a :: a in home ==> a.uid == old(a.uid) && a.axess == old(a.axess)
      ensures r == null ==> lists == old(lists) && forall i :: 0 <= i < |lists[b]| ==> lists[b][i].uid != id
      ensures r != null ==>
                && k < |old(lists)[b]| && r == old(lists)[b][k] && r.uid == id
                && (forall i :: 0 <= i < k ==> old(lists)[b][i].uid != id)
                && lists == old(lists)[b := Fronted(old(lists)[b], k)]
    {
      ghost var s := lists[b];
      var j := heads[b];
      assert j.next == NextIn(s, 0);
      var i := j.next;
      k := 0;
      while i != null
        invariant k < |s| && s == lists[b] && j == s[k] && i == NextIn(s, k)
        invariant forall m :: 0 <= m <= k ==> s[m].uid != id
        decreases |s| - k
      {
        assert i == s[k + 1] && i.next == NextIn(s, k + 1);
        if i.uid == id {
          Front(b, j, i, k);
          k := k + 1;
          return i, k;
        }
        j := i.next;
        if j == null {
          k := k + 1;
          return null, k;
        }
        assert j == s[k + 2] && j.next == NextIn(s, k + 2);
        if j.uid == id {
          Front(b, i, j, k + 1);
          k := k + 2;
          return j, k;
        }
        i := j.next;
        k := k + 2;
      }
      r := null;
    }

    /** afs_FindAxs on a list that is not empty. */
    method Find(b: nat, id: int) returns (r: Axs?, ghost k: nat)
      requires Valid() && b < |lists| && lists[b] != []
      modifies this`heads, this`lists, home.Keys
      ensures Valid() && home == old(home) && forall a :: a in home ==> a.uid == old(a.uid) && a.axess == old(a.axess)
      ensures r == null ==> lists == old(lists) && forall i :: 0 <= i < |lists[b]| ==> lists[b][i].uid != id
      ensures r != null ==>
                && k < |old(lists)[b]| && r == old(lists)[b][k] && r.uid == id
                && (forall i :: 0 <= i < k ==> old(lists)[b][i].uid != id)
                && lists == old(lists)[b := Fronted(old(lists)[b], k)]
    {
      if heads[b].uid == id {
        assert Fronted(lists[b], 0) == lists[b];
        return heads[b], 0;
      }
      r, k := SlowFind(b, id);
    }

    /** axs_Alloc when the free list has an entry. */
    method Pop() returns (a: Axs)
      requires Valid() && heads[0] != null
      modifies this`heads, this`lists, this`home
      ensures Valid() && a == old(lists)[0][0] && a in old(home) && home == old(home) - {a}
      ensures lists == old(lists)[0 := old(lists)[0][1..]]
    {
      a := heads[0];
      PopPlaced(lists, home);
      TailLinked(lists[0], home.Keys);
      forall c | 0 < c < |lists| ensures Linked(heads[c], lists[c], home.Keys - {a}) {
        assert forall i :: 0 <= i < |lists[c]| ==> home[lists[c][i]] == c;
        assert home[lists[0][0]] == 0;
      }
      heads := heads[0 := a.next];
      lists := lists[0 := lists[0][1..]];
      home := home - {a};
      assert home.Keys == old(home.Keys) - {a};
    }

    /** axs_Alloc when it has none: a new slab, all but its first entry to the free list. */
    method Grow() returns (a: Axs)
      requires Valid() && heads[0] == null
      modifies this`heads, this`lists, this`home
      ensures Valid() && fresh(a) && a !in home
      ensures |lists[0]| == slab - 1 && (forall x :: x in lists[0] ==> fresh(x))
      ensures lists == old(lists)[0 := lists[0]] && home == Joined(old(home), lists[0])
    {
      a := new Axs();
      ghost var s;
      var h: Axs?;
      h, s := NewSlab(slab - 1);
      GrowPlaced(lists, home, s);
      ghost var after := Joined(home, s);
      assert after.Keys == home.Keys + Elements(s);
      forall c | 0 < c < |lists| ensures Linked(heads[c], lists[c], after.Keys) {
        assert old(Linked(heads[c], lists[c], home.Keys));
      }
      heads := heads[0 := h];
      lists := lists[0 := s];
      home := after;
    }

    method Alloc() returns (a: Axs)
      requires Valid()
      modifies this`heads, this`lists, this`home
      ensures Valid() && a !in home && (a in old(home) || fresh(a)) && old(home).Keys <= home.Keys + {a}
      ensures |lists| == |old(lists)| && forall c :: 0 < c < |lists| ==> lists[c] == old(lists)[c]
      ensures forall x :: x in home ==> x in old(home) || fresh(x)
    {
      if heads[0] != null {
        a := Pop();
      } else {
        a := Grow();
      }
    }

    /** afs_AddAxs: nothing that existed is lost. */
    method Add(b: nat, id: int, bits: int)
      requires Valid() && 0 < b < |lists|
      modifies this`heads, this`lists, this`home, home.Keys
      ensures Valid() && old(home).Keys <= home.Keys && |lists| == |old(lists)|
      ensures forall c :: 0 < c < |lists| && c != b ==> lists[c] == old(lists)[c]
      ensures |lists[b]| == |old(lists)[b]| + 1 && lists[b][1..] == old(lists)[b]
      ensures lists[b][0].uid == id && lists[b][0].axess == bits
      ensures forall a :: a in old(home) && a != lists[b][0] ==> a.uid == old(a.uid) && a.axess == old(a.axess)
    {
      var a := Alloc();
      a.uid, a.axess := id, bits;
      Push(b, a);
    }

    /** Putting an entry that is in no list at the front of one. */
    method Push(b: nat, a: Axs)
      requires Valid() && b < |lists| && a !in home
      modifies this`heads, this`lists, this`home, a`next
      ensures Valid() && lists == old(lists)[b := [a] + old(lists)[b]] && home == old(home)[a := b]
    {
      PushPlaced(lists, home, b, a);
      ghost var after := home[a := b];
      assert after.Keys == home.Keys + {a};
      a.next := heads[b];
      forall c | 0 <= c < |lists| ensures Linked(heads[c], lists[c], home.Keys) {
        assert old(Linked(heads[c], lists[c], home.Keys));
        assert forall i :: 0 <= i < |lists[c]| ==> lists[c][i] in home;
      }
      ConsLinked(heads[b], lists[b], home.Keys, a);
      heads := heads[b := a];
      lists := lists[b := [a] + lists[b]];
      home := after;
    }

    /** afs_FreeAllAxs: the list, as it stands, goes before the free list. */
    method FreeAll(b: nat)
      requires Valid() && 0 < b < |lists|
      modifies this`heads, this`lists, this`home, home.Keys
      ensures Valid() && home.Keys == old(home).Keys
      ensures lists == old(lists)[0 := old(lists)[b] + old(lists)[0]][b := []]
      ensures forall a :: a in home ==> a.uid == old(a.uid) && a.axess == old(a.axess)
    {
      var last, _ := Last(b);
      if last == null {
        assert lists[b] + lists[0] == lists[0];
        assert lists[0 := lists[0]][b := []] == lists;
        return;
      }
      FreePlaced(lists, home, b);
      Append(b, last);
      ghost var after := Freed(home, b);
      assert after.Keys == home.Keys;
      heads := heads[0 := heads[b]][b := null];
      lists := lists[0 := lists[b] + lists[0]][b := []];
      home := after;
    }

    /** The last entry of a list, found two entries to a turn. */
    method Last(b: nat) returns (last: Axs?, ghost k: int)
      requires Valid() && b < |lists|
      ensures if lists[b] == [] then last == null else last == lists[b][|lists[b]| - 1]
    {
      ghost var s := lists[b];
      var i, j := heads[b], null;
      k := -1;
      while i != null
        invariant -1 <= k < |s| && j == (if k < 0 then null else s[k]) && i == (if k + 1 < |s| then s[k + 1] else null)
        decreases |s| - k
      {
        assert i.next == NextIn(s, k + 1);
        j := i.next;
        if j == null {
          return i, k;
        }
        assert j.next == NextIn(s, k + 2);
        i := j.next;
        k := k + 2;
      }
      last := j;
    }

    /** The free list tacked on to the end of list b. */
    method Append(b: nat, last: Axs)
      requires Valid() && 0 < b < |lists| && lists[b] != [] && last == lists[b][|lists[b]| - 1]
      modifies last`next
      ensures Linked(heads[b], lists[b] + lists[0], home.Keys)
      ensures forall c :: 0 <= c < |lists| && c != b ==> Linked(heads[c], lists[c], home.Keys)
    {
      ghost var s := lists[b];
      assert forall i :: 0 <= i < |s| ==> s[i].next == NextIn(s, i);
      last.next := heads[0];
      forall c | 0 <= c < |lists| && c != b ensures Linked(heads[c], lists[c], home.Keys) {
        assert old(Linked(heads[c], lists[c], home.Keys));
        assert forall i :: 0 <= i < |lists[c]| ==> home[lists[c][i]] == c;
      }
      CatLinked(heads[b], s, heads[0], lists[0], home.Keys);
    }
  }
}
