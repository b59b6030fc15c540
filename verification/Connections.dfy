/** A user's pool of connections to one server address, and what its counts say about the
    connections handed out. */
module Connections {

  const CVEC_LEN: nat := 3
  const RX_MAXCALLS: nat := 4
  const TWO16: int := 0x1_0000

  /** x as the `short` the vector keeps its count in. */
  function Short(x: int): (r: int)
    ensures -0x8000 <= r < 0x8000
  {
    var u := x % TWO16;
    if u >= 0x8000 then u - TWO16 else u
  }

  lemma ShortCongruent(x: int, y: int, k: int)
    requires y == x + k * TWO16
    ensures Short(y) == Short(x)
  {
    assert x == x / TWO16 * TWO16 + x % TWO16;
    assert y == (x / TWO16 + k) * TWO16 + x % TWO16;
  }

  lemma ShortStep(x: int)
    ensures Short(Short(x) + 1) == Short(x + 1) && Short(Short(x) - 1) == Short(x - 1)
  {
    var k := if x % TWO16 >= 0x8000 then x / TWO16 + 1 else x / TWO16;
    assert x == Short(x) + k * TWO16;
    ShortCongruent(Short(x) + 1, x + 1, k);
    ShortCongruent(Short(x) - 1, x - 1, k);
  }

  function Sum(refs: seq<nat>): nat
  {
    if refs == [] then 0 else refs[|refs| - 1] + Sum(refs[..|refs| - 1])
  }

  lemma {:induction false} SumUpdate(refs: seq<nat>, i: nat, n: nat)
    requires i < |refs|
    ensures Sum(refs[i := n]) == Sum(refs) - refs[i] + n
    decreases |refs|
  {
    var k := |refs| - 1;
    if i < k {
      SumUpdate(refs[..k], i, n);
      assert refs[i := n][..k] == refs[..k][i := n];
    } else {
      assert refs[i := n][..k] == refs[..k];
    }
  }

  lemma {:induction false} SumZero(refs: seq<nat>)
    ensures Sum(refs) == 0 <==> forall i :: 0 <= i < |refs| ==> refs[i] == 0
    decreases |refs|
  {
    if refs != [] {
      SumZero(refs[..|refs| - 1]);
      assert forall i :: 0 <= i < |refs| - 1 ==> refs[..|refs| - 1][i] == refs[i];
    }
  }

  /** A connection vector: which slots have a connection, the references to each, their count
      together, and where the round robin stands. */
  datatype Vector = Vector(hasId: seq<bool>, refs: seq<nat>, refCount: int, selectIndex: nat)

  /** The vector's count is its connections' counts together, as far as a short goes; slots
      are opened in order, and only open ones are handed out. */
  ghost predicate Sound(v: Vector)
  {
    && |v.hasId| == |v.refs| == CVEC_LEN && v.refCount == Short(Sum(v.refs))
    && (forall i, j :: 0 <= i < j < CVEC_LEN && v.hasId[j] ==> v.hasId[i])
    && (forall i :: 0 <= i < CVEC_LEN && v.refs[i] > 0 ==> v.hasId[i])
  }

  /** The slots that find_preferred_connection takes as it comes to them: an open one with a
      call to spare, or one that may be opened. */
  predicate Eligible(v: Vector, create: bool, i: nat)
    requires |v.hasId| == |v.refs| && i < |v.refs|
  {
    if v.hasId[i] then v.refs[i] < RX_MAXCALLS - 1 else create
  }

  /** None of the first n slots is taken as it comes. */
  predicate NoneEligible(v: Vector, create: bool, n: nat)
    requires |v.hasId| == |v.refs| == CVEC_LEN && n <= CVEC_LEN
  {
    forall k :: 0 <= k < n ==> !Eligible(v, create, k)
  }

  /** i is the choice of find_preferred_connection: the first eligible slot; failing that, the
      open ones in turn; failing that, none. */
  predicate Preferred(v: Vector, create: bool, i: int)
    requires |v.hasId| == |v.refs| == CVEC_LEN
  {
    if NoneEligible(v, create, CVEC_LEN) then i == if v.hasId[CVEC_LEN - 1] then v.selectIndex % CVEC_LEN else -1
    else 0 <= i < CVEC_LEN && Eligible(v, create, i) && NoneEligible(v, create, i)
  }

  /** The choice exists and is unique. */
  lemma PreferredUnique(v: Vector, create: bool)
    requires |v.hasId| == |v.refs| == CVEC_LEN
    ensures exists i :: Preferred(v, create, i)
    ensures forall i, j :: Preferred(v, create, i) && Preferred(v, create, j) ==> i == j
  {
    if Eligible(v, create, 0) {
      assert Preferred(v, create, 0);
    } else if Eligible(v, create, 1) {
      assert Preferred(v, create, 1);
    } else if Eligible(v, create, 2) {
      assert Preferred(v, create, 2);
    } else {
      assert Preferred(v, create, if v.hasId[CVEC_LEN - 1] then v.selectIndex % CVEC_LEN else -1);
    }
  }

  /** Which choice it is: one with fewer than three calls, or a new one where those may be opened, if there is
      such a slot, and then the first; otherwise none if not all are open, and else the next in turn. */
  lemma PreferredExactly(v: Vector, create: bool, i: int)
    requires Sound(v) && Preferred(v, create, i)
    ensures i == -1 <==> !create && !v.hasId[2] && forall k :: 0 <= k < 3 && v.hasId[k] ==> v.refs[k] >= 3
    ensures (forall k :: 0 <= k < 3 ==> v.hasId[k] && v.refs[k] >= 3) ==> i == v.selectIndex % 3
    ensures i >= 0 && !(forall k :: 0 <= k < 3 ==> v.hasId[k] && v.refs[k] >= 3) ==>
              && i < 3 && (if v.hasId[i] then v.refs[i] < 3 else create)
              && forall k :: 0 <= k < i ==> if v.hasId[k] then v.refs[k] >= 3 else !create
  {
    assert forall k :: 0 <= k < 3 ==> (Eligible(v, create, k) <==> if v.hasId[k] then v.refs[k] < 3 else create);
  }

  /** The vector after the choice i. */
  function Taken(v: Vector, create: bool, i: int): Vector
    requires |v.hasId| == |v.refs| == CVEC_LEN && -1 <= i < CVEC_LEN
  {
    var turned := v.(selectIndex := v.selectIndex + if i >= 0 && NoneEligible(v, create, CVEC_LEN) then 1 else 0);
    if i < 0 then turned
    else turned.(hasId := v.hasId[i := true], refs := v.refs[i := v.refs[i] + 1], refCount := Short(v.refCount + 1))
  }

  lemma TakenSound(v: Vector, create: bool, i: int)
    requires Sound(v) && Preferred(v, create, i)
    ensures -1 <= i < CVEC_LEN && Sound(Taken(v, create, i))
    ensures i >= 0 ==> Sum(Taken(v, create, i).refs) == Sum(v.refs) + 1
    ensures create ==> i >= 0
  {
    if create {
      assert !v.hasId[CVEC_LEN - 1] ==> Eligible(v, create, CVEC_LEN - 1);
    }
    if i >= 0 {
      if !v.hasId[i] {
        forall k | 0 <= k < i ensures v.hasId[k] {
          assert !Eligible(v, create, k);
        }
      }
      SumUpdate(v.refs, i, v.refs[i] + 1);
      ShortStep(Sum(v.refs));
    }
  }

  /** When all are open and busy they are handed out in turn. */
  lemma InTurn(v: Vector, create: bool, i: int, j: int)
    requires Sound(v) && NoneEligible(v, create, CVEC_LEN) && v.hasId[CVEC_LEN - 1]
    requires Preferred(v, create, i) && Preferred(Taken(v, create, i), create, j)
    ensures j == (i + 1) % 3
  {
    var t := Taken(v, create, i);
    forall k | 0 <= k < CVEC_LEN ensures !Eligible(t, create, k) {
      assert !Eligible(v, create, k);
    }
  }

  // ---------------------------------------------------------------- a vector over its life

  ghost predicate Fresh(v: Vector)
  {
    v == Vector(seq(CVEC_LEN, _ => false), seq(CVEC_LEN, _ => 0), 0, 0)
  }

  lemma FreshSound(v: Vector)
    requires Fresh(v)
    ensures Sound(v) && Sum(v.refs) == 0
  {
    SumZero(v.refs);
  }

  /** n connections in a row have been taken, and none put back. */
  ghost predicate AfterTaking(v: Vector, n: nat)
    decreases n
  {
    if n == 0 then Fresh(v)
    else exists u, i :: AfterTaking(u, n - 1) && Sound(u) && Preferred(u, true, i) && -1 <= i < CVEC_LEN && v == Taken(u, true, i)
  }

  /** Any number can be taken; they are counted as far as the short goes. */
  lemma {:induction false} TakingCounts(n: nat) returns (v: Vector)
    ensures AfterTaking(v, n) && Sound(v) && Sum(v.refs) == n && v.refCount == Short(n)
  {
    if n == 0 {
      v := Vector(seq(CVEC_LEN, _ => false), seq(CVEC_LEN, _ => 0), 0, 0);
      FreshSound(v);
    } else {
      var u := TakingCounts(n - 1);
      PreferredUnique(u, true);
      var i :| Preferred(u, true, i);
      TakenSound(u, true, i);
      v := Taken(u, true, i);
      assert AfterTaking(u, n - 1) && Sound(u) && Preferred(u, true, i) && v == Taken(u, true, i);
    }
  }

  /** 65536 connections taken from a new vector leave it with a count of 0. */
  lemma CountWraps() returns (v: Vector)
    ensures AfterTaking(v, 65536) && Sum(v.refs) == 65536 && v.refCount == 0
  {
    v := TakingCounts(65536);
  }

  /** release_conns_user_server frees a vector whose count is 0.  None of its connections is
      then handed out if and only if fewer than 65536 are. */
  lemma FreeIsSafe(v: Vector)
    requires Sound(v) && v.refCount == 0
    ensures (forall i :: 0 <= i < CVEC_LEN ==> v.refs[i] == 0) <==> Sum(v.refs) < TWO16
  {
    SumZero(v.refs);
  }

  /** find_preferred_connection's search. */
  method FindPreferred(v: Vector, create: bool) returns (i: int)
    requires |v.hasId| == |v.refs| == CVEC_LEN
    ensures Preferred(v, create, i) && -1 <= i < CVEC_LEN
  {
    i := -1;
    var cix := 0;
    while cix < CVEC_LEN && i < 0
      invariant 0 <= cix <= CVEC_LEN && -1 <= i < CVEC_LEN
      invariant i < 0 ==> NoneEligible(v, create, cix)
      invariant i < 0 && cix == CVEC_LEN ==> !v.hasId[CVEC_LEN - 1]
      invariant i >= 0 ==> Preferred(v, create, i)
      decreases CVEC_LEN - cix
    {
      if !v.hasId[cix] {
        if create {
          i := cix;
        }
      } else if v.refs[cix] < RX_MAXCALLS - 1 {
        i := cix;
      } else if cix == CVEC_LEN - 1 {
        i := v.selectIndex % CVEC_LEN;
      }
      assert i == cix ==> Eligible(v, create, cix) || NoneEligible(v, create, CVEC_LEN);
      cix := cix + 1;
    }
  }

  // ---------------------------------------------------------------- all of a user's vectors

  /** A server and one of its addresses. */
  type Key = (nat, nat)

  /** A connection handed out: its vector and its slot there. */
  datatype Conn = Conn(key: Key, slot: nat)

  ghost predicate VectorCounts(v: Vector, held: multiset<Conn>, k: Key)
  {
    Sound(v) && forall i :: 0 <= i < CVEC_LEN ==> v.refs[i] == held[Conn(k, i)]
  }

  /** Every vector counts exactly the connections handed out from it. */
  ghost predicate Counted(m: map<Key, Vector>, held: multiset<Conn>)
  {
    && (forall k :: k in m ==> VectorCounts(m[k], held, k))
    && (forall c :: c in held ==> c.key in m && c.slot < CVEC_LEN)
  }

  lemma FreshCounted(m: map<Key, Vector>, held: multiset<Conn>, k: Key, v: Vector)
    requires Counted(m, held) && k !in m && Fresh(v)
    ensures Counted(m[k := v], held)
  {
    FreshSound(v);
    assert VectorCounts(v, held, k) by {
      assert forall i :: Conn(k, i) !in held;
    }
  }

  lemma TakenCounted(m: map<Key, Vector>, held: multiset<Conn>, k: Key, i: nat)
    requires Counted(m, held) && k in m && Sound(m[k]) && Preferred(m[k], true, i) && i < CVEC_LEN
    ensures Counted(m[k := Taken(m[k], true, i)], held + multiset{Conn(k, i)})
  {
    var n, h := m[k := Taken(m[k], true, i)], held + multiset{Conn(k, i)};
    TakenSound(m[k], true, i);
    forall l | l in n ensures VectorCounts(n[l], h, l) {
      assert VectorCounts(m[l], held, l);
    }
  }

  /** The vector after slot i has been put back. */
  function PutBack(v: Vector, i: nat): Vector
    requires i < |v.refs| && v.refs[i] > 0
  {
    v.(refs := v.refs[i := v.refs[i] - 1], refCount := Short(v.refCount - 1))
  }

  lemma PutBackSound(v: Vector, i: nat)
    requires Sound(v) && i < CVEC_LEN && v.refs[i] > 0
    ensures Sound(PutBack(v, i))
  {
    SumUpdate(v.refs, i, v.refs[i] - 1);
    ShortStep(Sum(v.refs));
  }

  lemma PutCounted(m: map<Key, Vector>, held: multiset<Conn>, c: Conn)
    requires Counted(m, held) && c in held
    ensures c.key in m && c.slot < CVEC_LEN && Sound(m[c.key]) && m[c.key].refs[c.slot] > 0
    ensures Counted(m[c.key := PutBack(m[c.key], c.slot)], held - multiset{c})
  {
    assert VectorCounts(m[c.key], held, c.key);
    PutBackSound(m[c.key], c.slot);
    var n, h := m[c.key := PutBack(m[c.key], c.slot)], held - multiset{c};
    forall l | l in n ensures VectorCounts(n[l], h, l) {
      assert VectorCounts(m[l], held, l);
    }
  }

  /** Freeing a vector whose count is 0 takes a connection from nobody if and only if fewer
      than 65536 of its connections are handed out. */
  lemma FreedCounted(m: map<Key, Vector>, held: multiset<Conn>, k: Key)
    requires Counted(m, held) && k in m && m[k].refCount == 0
    ensures Counted(m - {k}, held) <==> Sum(m[k].refs) < TWO16
  {
    var n := m - {k};
    assert VectorCounts(m[k], held, k);
    FreeIsSafe(m[k]);
    if forall i :: 0 <= i < CVEC_LEN ==> m[k].refs[i] == 0 {
      forall c | c in held ensures c.key != k {
        assert c == Conn(c.key, c.slot);
      }
      assert forall l :: l in n ==> VectorCounts(m[l], held, l);
    } else {
      var i :| 0 <= i < CVEC_LEN && m[k].refs[i] != 0;
      assert Conn(k, i) in held;
    }
  }

  class ConnPool {
    var vectors: map<Key, Vector>
    /** The connections handed out and not put back. */
    ghost var held: multiset<Conn>

    ghost predicate Valid()
      reads this
    {
      Counted(vectors, held)
    }

    constructor ()
      ensures Valid() && held == multiset{} && vectors == map[]
    {
      vectors, held := map[], multiset{};
    }

    /** afs_ConnBySA: the user's vector for the address, a new one if there is none, and a
        connection from it. */
    method Get(k: Key) returns (c: Conn)
      requires Valid()
      modifies this
      ensures Valid() && c.key == k && c.slot < CVEC_LEN && held == old(held) + multiset{c}
      ensures k in vectors && old(k in vectors ==> Preferred(vectors[k], true, c.slot))
      ensures |vectors[k].hasId| == CVEC_LEN && forall i :: 0 <= i < CVEC_LEN ==>
                (vectors[k].hasId[i] <==> i == c.slot || old(k in vectors && i < |vectors[k].hasId| && vectors[k].hasId[i]))
      ensures forall l :: l != k ==> (l in vectors <==> old(l in vectors)) && (l in vectors ==> vectors[l] == old(vectors)[l])
    {
      if k !in vectors {
        var v := Vector(seq(CVEC_LEN, _ => false), seq(CVEC_LEN, _ => 0), 0, 0);
        FreshCounted(vectors, held, k, v);
        vectors := vectors[k := v];
      }
      assert VectorCounts(vectors[k], held, k);
      var i := FindPreferred(vectors[k], true);
      TakenSound(vectors[k], true, i);
      TakenCounted(vectors, held, k, i);
      c := Conn(k, i);
      vectors, held := vectors[k := Taken(vectors[k], true, i)], held + multiset{c};
    }

    /** afs_PutConn. */
    method Put(c: Conn)
      requires Valid() && c in held
      modifies this
      ensures Valid() && held == old(held) - multiset{c}
      ensures c.key in old(vectors) && c.slot < |old(vectors)[c.key].refs| && old(vectors)[c.key].refs[c.slot] > 0
      ensures vectors == old(vectors)[c.key := PutBack(old(vectors)[c.key], c.slot)]
      ensures vectors[c.key].hasId == old(vectors)[c.key].hasId && vectors[c.key].selectIndex == old(vectors)[c.key].selectIndex
    {
      PutCounted(vectors, held, c);
      var v := vectors[c.key];
      vectors, held := vectors[c.key := PutBack(v, c.slot)], held - multiset{c};
    }

    /** The part of release_conns_user_server about one vector: freed if its count is 0.  That
        takes no connection from its holder if and only if fewer than 65536 are handed out. */
    method Release(k: Key) returns (freed: bool)
      requires Valid() && k in vectors
      modifies this`vectors
      ensures freed <==> old(vectors)[k].refCount == 0
      ensures vectors == if freed then old(vectors) - {k} else old(vectors)
      ensures Valid() <==> !freed || Sum(old(vectors)[k].refs) < TWO16
    {
      freed := vectors[k].refCount == 0;
      if freed {
        FreedCounted(vectors, held, k);
        vectors := vectors - {k};
      }
    }
  }
}
