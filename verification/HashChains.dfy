/** Hash tables of chains of numbered items: an array of first items and an array of next
    items, with new items put at the front of their chain. */
module HashChains {
  import opened Basics
  import opened Seqs

  /** Every item is on the chain of its place, once, and on no other. */
  ghost predicate Filed(chains: seq<seq<nat>>, place: map<nat, nat>)
  {
    && (forall b :: 0 <= b < |chains| ==> Distinct(chains[b]))
    && (forall i :: i in place ==> place[i] < |chains|)
    && (forall b, i :: 0 <= b < |chains| ==> (i in chains[b] <==> i in place && place[i] == b))
  }

  function Out(chains: seq<seq<nat>>, b: nat, i: nat): seq<seq<nat>>
    requires b < |chains|
  {
    chains[b := Without(chains[b], i)]
  }

  function In(chains: seq<seq<nat>>, b: nat, i: nat): seq<seq<nat>>
    requires b < |chains|
  {
    chains[b := [i] + chains[b]]
  }

  lemma OutFiled(chains: seq<seq<nat>>, place: map<nat, nat>, i: nat)
    requires Filed(chains, place) && i in place
    ensures Filed(Out(chains, place[i], i), place - {i})
  {
  }

  /** Moving an item to where it now belongs. */
  lemma MoveFiled(chains: seq<seq<nat>>, place: map<nat, nat>, i: nat, b: nat)
    requires Filed(chains, place) && i in place && b < |chains|
    ensures Filed(In(Out(chains, place[i], i), b, i), place[i := b])
  {
  }

  /** So many chains with nothing on them. */
  function NoChains(size: nat): (r: seq<seq<nat>>)
    ensures |r| == size && forall b :: 0 <= b < size ==> r[b] == []
  {
    seq(size, _ => [])
  }

  lemma NoneFiled(size: nat)
    ensures Filed(NoChains(size), map[])
  {
  }

  /** Filing an item that was not filed. */
  lemma InFiled(chains: seq<seq<nat>>, place: map<nat, nat>, i: nat, b: nat)
    requires Filed(chains, place) && i !in place && b < |chains|
    ensures Filed(In(chains, b, i), place[i := b])
    ensures forall c :: 0 <= c < |chains| ==> i !in chains[c]
  {
  }

  lemma ChainMembers(chains: seq<seq<nat>>, place: map<nat, nat>, b: nat)
    requires Filed(chains, place) && b < |chains|
    ensures forall k :: 0 <= k < |chains[b]| ==> chains[b][k] in place && place[chains[b][k]] == b
  {
  }

  /** Where to look for an item. */
  lemma OnItsChain(chains: seq<seq<nat>>, place: map<nat, nat>, i: nat) returns (k: nat)
    requires Filed(chains, place) && i in place
    ensures place[i] < |chains| && k < |chains[place[i]]| && chains[place[i]][k] == i
  {
    assert i in chains[place[i]];
    k :| 0 <= k < |chains[place[i]]| && chains[place[i]][k] == i;
  }

  // ---------------------------------------------------------------- the arrays

  /** What follows position i of s. */
  function After(s: seq<nat>, i: nat): int
  {
    if i + 1 < |s| then s[i + 1] else NULLIDX
  }

  /** Following next from h visits s and ends. */
  ghost predicate Threaded(h: int, s: seq<nat>, next: seq<int>)
  {
    && (forall i :: 0 <= i < |s| ==> s[i] < |next|)
    && h == (if s == [] then NULLIDX else s[0])
    && (forall i {:trigger After(s, i)} :: 0 <= i < |s| ==> next[s[i]] == After(s, i))
  }

  /** No item is on two chains, or twice on one. */
  ghost predicate Apart(lists: seq<seq<nat>>)
  {
    && (forall b :: 0 <= b < |lists| ==> Distinct(lists[b]))
    && (forall b, c, i, j :: 0 <= b < |lists| && 0 <= c < |lists| && 0 <= i < |lists[b]| && 0 <= j < |lists[c]| && b != c
          ==> lists[b][i] != lists[c][j])
  }

  lemma OutApart(lists: seq<seq<nat>>, b: nat, i: nat)
    requires Apart(lists) && b < |lists|
    ensures Apart(Out(lists, b, i))
  {
    var r := Out(lists, b, i);
    forall c, d, j, k | 0 <= c < |r| && 0 <= d < |r| && 0 <= j < |r[c]| && 0 <= k < |r[d]| && c != d
      ensures r[c][j] != r[d][k]
    {
      assert r[c][j] in r[c] && r[d][k] in r[d];
      assert r[c][j] in lists[c] && r[d][k] in lists[d];
    }
  }

  lemma InApart(lists: seq<seq<nat>>, b: nat, i: nat)
    requires Apart(lists) && b < |lists| && forall c :: 0 <= c < |lists| ==> i !in lists[c]
    ensures Apart(In(lists, b, i))
  {
  }

  /** Changing the link of an item that is not on the chain. */
  lemma ThreadedElsewhere(h: int, s: seq<nat>, next: seq<int>, j: nat, v: int)
    requires Threaded(h, s, next) && j < |next| && forall i :: 0 <= i < |s| ==> s[i] != j
    ensures Threaded(h, s, next[j := v])
  {
  }

  /** Linking past the k-th item. */
  lemma UnlinkFirst(s: seq<nat>, next: seq<int>)
    requires s != [] && Threaded(s[0], s, next)
    ensures Threaded(next[s[0]], s[1..], next)
  {
    var t := s[1..];
    assert next[s[0]] == After(s, 0);
    forall i | 0 <= i < |t| ensures next[t[i]] == After(t, i) {
      assert next[s[i + 1]] == After(s, i + 1);
    }
  }

  lemma UnlinkLater(s: seq<nat>, next: seq<int>, k: nat)
    requires 0 < k < |s| && Distinct(s) && Threaded(s[0], s, next)
    ensures Threaded(s[0], s[..k] + s[k + 1..], next[s[k - 1] := next[s[k]]])
  {
    var t, n := s[..k] + s[k + 1..], next[s[k - 1] := next[s[k]]];
    forall i | 0 <= i < |t| ensures n[t[i]] == After(t, i) {
      var m := if i < k then i else i + 1;
      assert t[i] == s[m] && next[s[m]] == After(s, m);
      assert next[s[k]] == After(s, k);
      assert m != k - 1 ==> s[m] != s[k - 1];
    }
  }

  lemma LinkFirst(h: int, s: seq<nat>, next: seq<int>, i: nat)
    requires Threaded(h, s, next) && i < |next| && forall k :: 0 <= k < |s| ==> s[k] != i
    ensures Threaded(i, [i] + s, next[i := h])
  {
    var t, n := [i] + s, next[i := h];
    forall k | 0 <= k < |t| ensures n[t[k]] == After(t, k) {
      assert k > 0 ==> next[s[k - 1]] == After(s, k - 1);
    }
  }

  class Chains {
    const heads: array<int>
    const next: array<int>
    ghost var lists: seq<seq<nat>>

    ghost predicate Valid()
      reads this, heads, next
    {
      && heads != next && |lists| == heads.Length && Apart(lists)
      && forall b :: 0 <= b < |lists| ==> Threaded(heads[b], lists[b], next[..])
    }

    /** Empty chains for so many items. */
    constructor (size: nat, items: nat)
      ensures Valid() && lists == NoChains(size) && next.Length == items && fresh(heads) && fresh(next)
    {
      heads := new int[size](_ => NULLIDX);
      next := new int[items](_ => NULLIDX);
      lists := NoChains(size);
    }

    /** Where an item stands before its chain: the search of afs_HashOutDCache. */
    method Predecessor(b: nat, i: nat) returns (us: int, ghost k: nat)
      requires Valid() && b < |lists| && i in lists[b] && lists[b][0] != i
      ensures 0 < k < |lists[b]| && lists[b][k] == i && us == lists[b][k - 1]
      ensures 0 <= us < next.Length && next[us] == i
    {
      ghost var s := lists[b];
      us, k := heads[b], 1;
      assert next[us] == After(s, 0);
      while next[us] != i
        invariant 0 < k < |s| && us == s[k - 1] && next[us] == s[k] && i in s[k..]
        decreases |s| - k
      {
        assert s[k] != i && s[k..] == [s[k]] + s[k + 1..];
        assert next[s[k]] == After(s, k);
        us, k := next[us], k + 1;
      }
    }

    /** Taking an item off its chain. */
    method Remove(b: nat, i: nat)
      requires Valid() && b < |lists| && i in lists[b]
      modifies this, heads, next
      ensures Valid() && lists == Out(old(lists), b, i)
    {
      OutApart(lists, b, i);
      if heads[b] == i {
        UnlinkFirst(lists[b], next[..]);
        WithoutOne(lists[b], 0);
        assert Without(lists[b], i) == lists[b][1..];
        heads[b] := next[i];
      } else {
        var us, k := Predecessor(b, i);
        UnlinkLater(lists[b], next[..], k);
        WithoutOne(lists[b], k);
        Relink(us, next[i], b);
      }
      lists := Out(lists, b, i);
    }

    /** One link of chain b changed: the other chains are as they were. */
    method Relink(us: nat, v: int, ghost b: nat)
      requires Valid() && us < next.Length && b < |lists| && us in lists[b]
      modifies next
      ensures next[..] == old(next[..])[us := v]
      ensures forall c :: 0 <= c < |lists| && c != b ==> Threaded(heads[c], lists[c], next[..])
    {
      forall c | 0 <= c < |lists| && c != b ensures Threaded(heads[c], lists[c], next[..][us := v]) {
        ThreadedElsewhere(heads[c], lists[c], next[..], us, v);
      }
      next[us] := v;
    }

    /** Putting an item that is on no chain at the front of one. */
    method Push(b: nat, i: nat)
      requires Valid() && b < |lists| && i < next.Length && forall c :: 0 <= c < |lists| ==> i !in lists[c]
      modifies this, heads, next
      ensures Valid() && lists == In(old(lists), b, i)
    {
      ghost var s, was := lists[b], next[..];
      forall c | 0 <= c < |lists| && c != b ensures Threaded(heads[c], lists[c], was[i := heads[b]]) {
        assert forall k :: 0 <= k < |lists[c]| ==> lists[c][k] in lists[c];
        ThreadedElsewhere(heads[c], lists[c], was, i, heads[b]);
      }
      assert forall k :: 0 <= k < |s| ==> s[k] in s;
      LinkFirst(heads[b], s, was, i);
      InApart(lists, b, i);
      next[i] := heads[b];
      heads[b] := i;
      lists := In(lists, b, i);
    }

    /** Filing a new item. */
    method File(i: nat, b: nat, ghost place: map<nat, nat>)
      requires Valid() && Filed(lists, place) && i !in place && b < |lists| && i < next.Length
      modifies this, heads, next
      ensures Valid() && lists == In(old(lists), b, i) && Filed(lists, place[i := b])
    {
      InFiled(lists, place, i, b);
      Push(b, i);
    }

    /** Moving an item to where it now belongs. */
    method Move(i: nat, from: nat, to: nat, ghost place: map<nat, nat>)
      requires Valid() && Filed(lists, place) && i in place && place[i] == from && to < |lists| && i < next.Length
      modifies this, heads, next
      ensures Valid() && lists == In(Out(old(lists), from, i), to, i) && Filed(lists, place[i := to])
    {
      MoveFiled(lists, place, i, to);
      OutFiled(lists, place, i);
      Remove(from, i);
      Push(to, i);
    }
  }

  /** Two tables that share nothing. */
  predicate Separate(a: Chains, b: Chains)
  {
    a != b && a.heads != b.heads && a.heads != b.next && a.next != b.heads && a.next != b.next
  }

  /** l ends with the chain from k on. */
  ghost predicate EndsWith(l: seq<nat>, chain: seq<nat>, k: nat)
  {
    && k <= |chain| && |chain| - k <= |l|
    && (forall j :: k <= j < |chain| ==> chain[j] == l[|l| - |chain| + j])
  }

  /** Walking a chain while items leave it or come to its front: what is ahead stays ahead. */
  lemma WalkOn(l: seq<nat>, chain: seq<nat>, k: nat)
    requires EndsWith(l, chain, k) && k < |chain| && Distinct(l)
    ensures EndsWith(l, chain, k + 1) && EndsWith(Without(l, chain[k]), chain, k + 1)
    ensures EndsWith([chain[k]] + Without(l, chain[k]), chain, k + 1)
    ensures chain[k] == l[|l| - |chain| + k] && After(l, |l| - |chain| + k) == After(chain, k)
  {
    var p := |l| - |chain| + k;
    WithoutOne(l, p);
    EndsCut(l, l[..p] + l[p + 1..], chain, k, p);
    EndsPush(Without(l, chain[k]), chain, k + 1, chain[k]);
  }

  lemma EndsCut(l: seq<nat>, r: seq<nat>, chain: seq<nat>, k: nat, p: nat)
    requires EndsWith(l, chain, k) && k < |chain| && p == |l| - |chain| + k && r == l[..p] + l[p + 1..]
    ensures EndsWith(r, chain, k + 1)
  {
  }

  lemma EndsPush(l: seq<nat>, chain: seq<nat>, k: nat, x: nat)
    requires EndsWith(l, chain, k)
    ensures EndsWith([x] + l, chain, k)
  {
  }
}
